/** What an accepted session says about every single event, decision, canonical row and failure row: each
    check of the verifiers, told as a fact about the whole bundle. */
module HumanEvidence {
  import opened Prelude
  import opened HumanTrace
  import opened HumanLineage
  import opened HumanCoverage
  import opened HumanSummary

  // ---- Events ----

  /** Event sequences are positive and strictly increase along the trace. */
  lemma {:induction false} SequencesIncrease(version: Option<int>, trace: Trace, i: nat, j: nat)
    requires TraceValid(version, trace) && i < j < |trace|
    ensures 0 < trace[i].sequence < trace[j].sequence
  {
    assert EventValid(version, trace, i) && EventValid(version, trace, j);
    if i < j - 1 {
      SequencesIncrease(version, trace, i, j - 1);
    } else if i > 0 {
      SequencesIncrease(version, trace, i - 1, i);
    }
  }

  /** The acceptance of the action an event is about. */
  ghost predicate AcceptedAt(trace: Trace, i: nat, a: nat)
    requires i < |trace|
  {
    && a <= i && trace[a].kind.ActionAccepted? && trace[a].action == trace[i].action
    && (a == i <==> trace[i].kind.ActionAccepted?)
    && forall k: nat :: k < |trace| && Accepts(trace[k], trace[i].action.witnessId) ==> k == a
  }

  /** Every event has a recognized kind, carries the run of its action, has a decision of the recording's schema,
      and is about the one action that was accepted under its witness, at that event or before. */
  lemma {:induction false} EventOfAcceptance(version: Option<int>, trace: Trace, i: nat) returns (a: nat)
    requires TraceValid(version, trace) && i < |trace|
    ensures AcceptedAt(trace, i, a)
    ensures trace[i].run == trace[i].action.run && !trace[i].kind.Unrecognized? && trace[i].wellFormed
    ensures version.Some? ==>
              trace[i].action.decision.Some? && trace[i].action.decision.value.schemaVersion == version.value
  {
    assert EventValid(version, trace, i);
    if trace[i].kind.ActionAccepted? {
      a := i;
    } else {
      a :| a < i && trace[a].kind.ActionAccepted? && trace[a].action == trace[i].action;
    }
    assert EventValid(version, trace, a);
    forall k: nat | k < |trace| && Accepts(trace[k], trace[i].action.witnessId) ensures k == a {
      assert EventValid(version, trace, k);
    }
  }

  /** Every accepted action has its one disposition after its acceptance. */
  lemma {:induction false} DispositionFollows(version: Option<int>, trace: Trace, a: nat) returns (k: nat)
    requires TraceValid(version, trace) && ExactlyOneDisposition(trace)
    requires a < |trace| && trace[a].kind.ActionAccepted?
    ensures a < k < |trace| && IsTerminalKind(trace[k].kind) && trace[k].action == trace[a].action
    ensures forall m ::
              0 <= m < |trace| && IsTerminal(trace[m]) && WitnessOf(trace[m]) == WitnessOf(trace[a]) ==> m == k
  {
    var w := trace[a].action.witnessId;
    k := CountWitness(trace, TerminalOf(w));
    var b := EventOfAcceptance(version, trace, k);
    assert Accepts(trace[a], w) && Accepts(trace[b], w);
    forall m | 0 <= m < |trace| && IsTerminal(trace[m]) && WitnessOf(trace[m]) == w ensures m == k {
      if m < k {
        TerminalsDistinct(version, trace, m, k);
      } else if k < m {
        TerminalsDistinct(version, trace, k, m);
      }
    }
  }

  // ---- Decisions ----

  /** The evidence a native selector brings for its origin. */
  predicate NativeEvidence(d: Decision, a: Action) {
    && d.schemaVersion == 2 && a.mechanism == "direct_ui_commit" && a.queue.None?
    && a.native == NativeWitness("native_selector_input", Some(d.causalRoot), d.owner)
  }

  /** Of an accepted decision exactly one holds: it is a root, and its own causal root; it is nested, and has a
      parent; or it is a native selector, and names its native origin with evidence. Selectors name their
      owner and are never their own causal root. */
  lemma {:induction false} DecisionKinds(version: Option<int>, trace: Trace, i: nat)
    requires TraceValid(version, trace) && HasDecision(trace, i)
    ensures var d, a := DecisionAt(trace, i), trace[i].action;
            && d.wellFormed
            && (d.kind.Root? <==> d.causalRoot == a.witnessId)
            && (d.kind.NestedSelector? <==> d.parent.Some?)
            && (d.kind.NativeSelector? <==> d.origin.Some?)
            && (d.kind.Root? || d.kind.NestedSelector? || d.kind.NativeSelector?)
            && (!d.kind.Root? ==> d.owner.Some? && d.owner.value != "")
            && (d.parent.Some? ==> d.parent.value != "" && d.parent.value != d.decisionId)
            && (d.kind.NativeSelector? ==>
                  d.origin == Some(NativeOrigin(d.causalRoot, true)) && NativeEvidence(d, a))
  {
    assert EventValid(version, trace, i);
  }

  // ---- Canonical rows ----

  /** What a canonical row says of its action. */
  predicate TellsAction(row: Row, a: Action) {
    && row.witnessId == a.witnessId && row.decision == a.decision && row.boundAction == a.boundAction
    && row.nativeInput == a.nativeInput && row.run == a.run && row.actionSequence == a.sequence
    && row.mechanism == a.mechanism && row.transitionId == "canonical-" + a.recordId
  }

  /** A canonical row tells the action that was accepted under its witness, and the two different states its
      only proof links. Without native authority it is a public action committed directly. */
  lemma {:induction false} RowTellsAction(version: Option<int>, trace: Trace, rows: seq<Row>, r: nat)
    returns (a: nat, p: nat)
    requires ReferencesValid(version, trace, rows) && r < |rows|
    ensures a < p < |trace| && trace[a].kind.ActionAccepted? && trace[p].kind.TransitionProved?
    ensures trace[p].action == trace[a].action && TellsAction(rows[r], trace[a].action)
    ensures trace[p].pre == Some(rows[r].pre) && trace[p].successor == Some(rows[r].successor)
    ensures rows[r].pre.snapshotId != rows[r].successor.snapshotId && rows[r].wellFormed
    ensures rows[r].nativeAuthority ==> rows[r].catalog.Some? && rows[r].catalog == trace[p].catalog
    ensures !rows[r].nativeAuthority ==>
              rows[r].mechanism == "direct_ui_commit" && rows[r].nativeInput.None? && rows[r].publicMembership
    ensures forall k: nat :: k < |trace| && Proves(trace[k], rows[r].witnessId) ==> k == p
  {
    assert RowValid(trace, rows, r);
    p :| p < |trace| && RowMatches(rows[r], trace[p])
         && forall j: nat :: j < |trace| && Proves(trace[j], rows[r].witnessId) ==> j == p;
    a := EventOfAcceptance(version, trace, p);
  }

  /** The trace determines its canonical rows: two rows for one action agree in everything but who vouches
      for the catalogue, and in the catalogue too when both have native authority. */
  lemma {:induction false} RowDetermined(version: Option<int>, trace: Trace, rows: seq<Row>, others: seq<Row>,
      r: nat, q: nat)
    requires ReferencesValid(version, trace, rows) && ReferencesValid(version, trace, others)
    requires r < |rows| && q < |others| && rows[r].witnessId == others[q].witnessId
    ensures var x, y := rows[r], others[q];
            && x.transitionId == y.transitionId && x.decision == y.decision && x.boundAction == y.boundAction
            && x.nativeInput == y.nativeInput && x.run == y.run && x.actionSequence == y.actionSequence
            && x.mechanism == y.mechanism && x.pre == y.pre && x.successor == y.successor
            && (x.nativeAuthority && y.nativeAuthority ==> x.catalog == y.catalog)
  {
    var a, p := RowTellsAction(version, trace, rows, r);
    var b, q := RowTellsAction(version, trace, others, q);
    assert Proves(trace[p], rows[r].witnessId) && Proves(trace[q], rows[r].witnessId);
  }

  // ---- What becomes of a proof ----

  /** The loss row of a proof, and its omission. */
  predicate LossFits(b: Bundle, e: Event, loss: Invalidation) {
    && loss.failure.Some? && loss.run == e.action.run && loss.failure.value.family in b.families
    && (FamilyOf(e.action).Some? ==> Some(loss.failure.value.family) == FamilyOf(e.action))
  }

  predicate OmissionFits(b: Bundle, e: Event, omission: Omission) {
    && omission.run == e.action.run && Some(omission.detail) == FamilyOf(e.action)
    && omission.detail !in b.families
  }

  // ---- Failure rows ----

  predicate IsFailedClosed(row: Invalidation) {
    row.disposition == Some(FailedClosed)
  }

  predicate NamesFailure(row: Invalidation) {
    row.failure.Some?
  }

  predicate AnyInvalidation(row: Invalidation) {
    true
  }

  predicate IsIntended(row: Invalidation) {
    IsDiagnostic(row) || IsUnsupportedRow(row)
  }

  /** Under the current schema every row is classified, so the counters of the summary leave over exactly the
      rows that name a failure. */
  lemma {:induction false} InvalidationsBalance(b: Bundle)
    requires BundleValid(b) && b.strictDispositions
    ensures var c := CurrentSummary(b);
            && c.diagnostics.Some? && c.unsupported.Some?
            && c.invalidations == c.diagnostics.value + c.unsupported.value
                                + CountIf(b.invalidations, NamesFailure)
  {
    forall row | row in b.invalidations ensures IsIntended(row) <==> !NamesFailure(row) {
      var k :| 0 <= k < |b.invalidations| && b.invalidations[k] == row;
      assert InvalidationValid(b, b.invalidations[k]);
      assert row.disposition.value.Diagnostic? || row.disposition.value.Unsupported? || IsFailedClosed(row);
    }
    CountAll(b.invalidations, AnyInvalidation);
    CountSplit(b.invalidations, AnyInvalidation, IsIntended, NamesFailure);
    CountSplit(b.invalidations, IsIntended, IsDiagnostic, IsUnsupportedRow);
  }
  // ---- What each event and each row adds to the summary ----

  lemma {:induction false} CountSnoc<T>(s: seq<T>, x: T, p: T -> bool)
    ensures CountIf(s + [x], p) == CountIf(s, p) + if p(x) then 1 else 0
  {
    assert (s + [x])[..|s|] == s;
  }

  function OneIf(condition: bool): nat {
    if condition then 1 else 0
  }

  /** The witnesses the summary counts as real failures. */
  ghost function Failures(b: Bundle): set<Witness> {
    UnknownWitnesses(b) + FailureWitnesses(b)
  }

  lemma {:induction false} UnknownsSnoc(b: Bundle, e: Event)
    ensures var more := b.(trace := b.trace + [e]);
            Failures(more) == if e.kind.TransitionUnknown? then Failures(b) + {e.action.witnessId} else Failures(b)
  {
    var more := b.(trace := b.trace + [e]);
    assert forall i :: 0 <= i < |b.trace| ==> more.trace[i] == b.trace[i];
    assert more.trace[|b.trace|] == e;
    if IsUnknown(e) {
      assert WitnessOf(more.trace[|b.trace|]) in UnknownWitnesses(more);
    }
    forall w | w in UnknownWitnesses(b) ensures w in UnknownWitnesses(more) {
      var i :| 0 <= i < |b.trace| && IsUnknown(b.trace[i]) && WitnessOf(b.trace[i]) == w;
      assert IsUnknown(more.trace[i]);
    }
  }

  /** One more event: an acceptance, a proof, an unknown, a cancellation before or after the start, and an abort
      each raise their own counter by one, an accepted nested selector that of the children too, and an
      unknown adds a real failure unless its action had one. Nothing else moves. */
  lemma {:induction false} OneMoreEvent(b: Bundle, e: Event)
    ensures var c, d := CurrentSummary(b), CurrentSummary(b.(trace := b.trace + [e]));
            && d.accepted == c.accepted + OneIf(e.kind.ActionAccepted?)
            && d.proved == c.proved + OneIf(e.kind.TransitionProved?)
            && d.unresolved == c.unresolved + OneIf(e.kind.TransitionUnknown?)
            && d.cancelled == c.cancelled + OneIf(e.kind.CancelledBeforeStart? || e.kind.CancelledAfterStart?)
            && d.aborted == c.aborted + OneIf(e.kind.AbortedBeforeCommit?)
            && d.acceptedChildren == c.acceptedChildren + OneIf(e.kind.ActionAccepted? && e.action.decision.Some?
                                                                && e.action.decision.value.kind.NestedSelector?)
            && (d.realFailures.Some? <==> b.strictDispositions) && (c.realFailures.Some? <==> b.strictDispositions)
            && (b.strictDispositions ==>
                  d.realFailures.value == c.realFailures.value
                    + OneIf(e.kind.TransitionUnknown? && e.action.witnessId !in Failures(b)))
            && d == c.(accepted := d.accepted, proved := d.proved, unresolved := d.unresolved,
                       cancelled := d.cancelled, aborted := d.aborted, acceptedChildren := d.acceptedChildren,
                       realFailures := d.realFailures)
  {
    CountSnoc(b.trace, e, IsAcceptance);
    CountSnoc(b.trace, e, IsProof);
    CountSnoc(b.trace, e, IsUnknown);
    CountSnoc(b.trace, e, IsCancelled);
    CountSnoc(b.trace, e, IsAborted);
    CountSnoc(b.trace, e, IsAcceptedChild);
    UnknownsSnoc(b, e);
    OneMoreOf(Failures(b), e.action.witnessId);
  }

  lemma OneMoreOf<T>(s: set<T>, x: T)
    ensures |s + {x}| == |s| + if x in s then 0 else 1
  {
    if x in s {
      assert s + {x} == s;
    }
  }

  /** One more canonical row counts as one, and as a child if its decision is a nested selector. */
  lemma {:induction false} OneMoreRow(b: Bundle, row: Row)
    ensures var c, d := CurrentSummary(b), CurrentSummary(b.(rows := b.rows + [row]));
            d == c.(canonical := c.canonical + 1,
                    canonicalChildren := c.canonicalChildren
                      + OneIf(row.decision.Some? && row.decision.value.kind.NestedSelector?))
  {
    CountSnoc(b.rows, row, IsChildRow);
  }

  lemma {:induction false} FailuresSnoc(b: Bundle, row: Invalidation)
    ensures var more := b.(invalidations := b.invalidations + [row]);
            Failures(more) == if row.failure.Some? then Failures(b) + {row.failure.value.witnessId} else Failures(b)
  {
    var more := b.(invalidations := b.invalidations + [row]);
    assert forall k :: 0 <= k < |b.invalidations| ==> more.invalidations[k] == b.invalidations[k];
    assert more.invalidations[|b.invalidations|] == row;
    if row.failure.Some? {
      assert more.invalidations[|b.invalidations|].failure.value.witnessId in FailureWitnesses(more);
    }
    forall w | w in FailureWitnesses(b) ensures w in FailureWitnesses(more) {
      var k :| 0 <= k < |b.invalidations| && b.invalidations[k].failure.Some?
          && b.invalidations[k].failure.value.witnessId == w;
      assert more.invalidations[k].failure.Some?;
    }
  }

  /** One more failure row counts as one; under the current schema also as a diagnostic or as unsupported if it
      says so, and as a real failure if it names an action that had none. Nothing else moves. */
  lemma {:induction false} OneMoreInvalidation(b: Bundle, row: Invalidation)
    requires b.strictDispositions
    ensures var c, d := CurrentSummary(b), CurrentSummary(b.(invalidations := b.invalidations + [row]));
            && c.diagnostics.Some? && c.unsupported.Some? && c.realFailures.Some?
            && d.invalidations == c.invalidations + 1
            && d.diagnostics == Some(c.diagnostics.value + OneIf(row.disposition == Some(Diagnostic)))
            && d.unsupported == Some(c.unsupported.value + OneIf(row.disposition == Some(Unsupported)))
            && d.realFailures == Some(c.realFailures.value + OneIf(NewFailure(b, row)))
            && SameOtherwise(c, d)
  {
    CountSnoc(b.invalidations, row, IsDiagnostic);
    CountSnoc(b.invalidations, row, IsUnsupportedRow);
    FailuresCount(b, row);
  }

  /** The counters that failure rows do not touch. */
  predicate SameOtherwise(c: Counts, d: Counts) {
    && d.accepted == c.accepted && d.proved == c.proved && d.canonical == c.canonical && d.cancelled == c.cancelled
    && d.aborted == c.aborted && d.unresolved == c.unresolved
    && d.acceptedChildren == c.acceptedChildren && d.canonicalChildren == c.canonicalChildren
  }

  ghost predicate NewFailure(b: Bundle, row: Invalidation) {
    row.failure.Some? && row.failure.value.witnessId !in Failures(b)
  }

  lemma {:induction false} FailuresCount(b: Bundle, row: Invalidation)
    ensures |Failures(b.(invalidations := b.invalidations + [row]))| == |Failures(b)| + OneIf(NewFailure(b, row))
  {
    FailuresSnoc(b, row);
    if row.failure.Some? {
      OneMoreOf(Failures(b), row.failure.value.witnessId);
    }
  }

  /** The summary of nothing counts nothing; what only the current schema knows is left open under another. */
  lemma {:induction false} EmptySummary(b: Bundle)
    requires b.trace == [] && b.rows == [] && b.invalidations == []
    ensures var known := if b.strictDispositions then Some(0) else None;
            CurrentSummary(b) == Counts(0, 0, 0, known, 0, 0, known, known, 0, 0, 0, 0)
  {
    assert Failures(b) == {};
  }
}
