/** Which event, canonical row and failure row may come next in an accepted session: the verifiers told
    without their dictionaries, one addition at a time. */
module HumanAcceptance {
  import opened Prelude
  import opened HumanTrace
  import opened HumanCoverage
  import opened HumanSummary
  import opened HumanEvidence

  // ---- Events ----

  ghost predicate IsNewWitness(trace: Trace, w: Witness) {
    forall j: nat :: j < |trace| ==> !Accepts(trace[j], w)
  }

  ghost predicate IsNewDecision(trace: Trace, decisionId: string) {
    forall j: nat :: j < |trace| ==> !Decides(trace[j], decisionId)
  }

  /** An earlier decision of the same run and causal tree, with a smaller action sequence. */
  ghost predicate ParentAt(trace: Trace, a: Action, d: Decision, parent: string, j: nat) {
    && j < |trace| && Decides(trace[j], parent) && trace[j].action.run == a.run
    && trace[j].action.sequence < a.sequence && trace[j].action.decision.value.causalRoot == d.causalRoot
  }

  ghost predicate HasParent(trace: Trace, a: Action, d: Decision, parent: string) {
    exists j: nat :: ParentAt(trace, a, d, parent, j)
  }

  /** A root, a nested selector with its parent, or a native selector with its evidence. */
  ghost predicate MayDecide(trace: Trace, a: Action, d: Decision) {
    && d.wellFormed && IsNewDecision(trace, d.decisionId)
    && match d.kind
       case Root => d.causalRoot == a.witnessId && d.parent.None? && d.origin.None?
       case NestedSelector =>
         && d.causalRoot != a.witnessId && d.origin.None? && d.owner.Some? && d.owner.value != ""
         && d.parent.Some? && d.parent.value != "" && d.parent.value != d.decisionId
         && HasParent(trace, a, d, d.parent.value)
       case NativeSelector =>
         && d.causalRoot != a.witnessId && d.parent.None? && d.owner.Some? && d.owner.value != ""
         && d.origin == Some(NativeOrigin(d.causalRoot, true)) && NativeEvidence(d, a)
       case OtherDecision => false
  }

  ghost predicate MayAccept(version: Option<int>, trace: Trace, a: Action) {
    && IsNewWitness(trace, a.witnessId)
    && (version.Some? ==> a.decision.Some? && a.decision.value.schemaVersion == version.value)
    && (a.decision.Some? ==> MayDecide(trace, a, a.decision.value))
  }

  /** The event may come next: a new acceptance, or anything recognized about an accepted action. */
  ghost predicate MayFollow(version: Option<int>, trace: Trace, e: Event) {
    && e.wellFormed && !e.kind.Unrecognized? && e.run == e.action.run
    && e.sequence > (if trace == [] then 0 else trace[|trace| - 1].sequence)
    && (if e.kind.ActionAccepted? then MayAccept(version, trace, e.action)
        else exists j: nat :: j < |trace| && trace[j].kind.ActionAccepted? && trace[j].action == e.action)
  }

  lemma {:induction false} ParentIff(trace: Trace, e: Event, d: Decision)
    requires e.action.decision == Some(d) && d.parent.Some?
    ensures HasParent(trace, e.action, d, d.parent.value) <==>
        exists j: nat :: j < |trace| && IsParent(trace + [e], |trace|, j)
  {
    var all := trace + [e];
    assert forall j: nat :: j < |trace| ==> all[j] == trace[j];
    forall j: nat | j < |trace|
      ensures ParentAt(trace, e.action, d, d.parent.value, j) <==> IsParent(all, |trace|, j)
    {
    }
  }

  lemma {:induction false} DecisionIff(trace: Trace, e: Event, d: Decision)
    requires e.action.decision == Some(d)
    ensures MayDecide(trace, e.action, d) <==>
        && DecisionIdentity(d, e.action) && IsNewDecision(trace, d.decisionId)
        && (d.parent.Some? ==> exists j: nat :: j < |trace| && IsParent(trace + [e], |trace|, j))
  {
    if d.parent.Some? {
      ParentIff(trace, e, d);
    }
  }

  lemma {:induction false} AcceptanceIff(version: Option<int>, trace: Trace, e: Event)
    ensures AcceptanceValid(version, trace + [e], |trace|) <==> MayAccept(version, trace, e.action)
  {
    var all := trace + [e];
    assert forall j: nat :: j < |trace| ==> all[j] == trace[j];
    if e.action.decision.Some? {
      DecisionIff(trace, e, e.action.decision.value);
    }
  }

  lemma {:induction false} FollowsIff(version: Option<int>, trace: Trace, e: Event)
    ensures EventValid(version, trace + [e], |trace|) <==> MayFollow(version, trace, e)
  {
    var all := trace + [e];
    assert forall j: nat :: j < |trace| ==> all[j] == trace[j];
    AcceptanceIff(version, trace, e);
  }

  /** Earlier events do not look ahead. */
  lemma {:induction false} StillValid(version: Option<int>, trace: Trace, e: Event, i: nat)
    requires i < |trace|
    ensures EventValid(version, trace + [e], i) <==> EventValid(version, trace, i)
  {
    var all := trace + [e];
    assert forall j: nat :: j < |trace| ==> all[j] == trace[j];
    forall j: nat | j < i && trace[i].action.decision.Some? && trace[i].action.decision.value.parent.Some?
      ensures IsParent(all, i, j) <==> IsParent(trace, i, j)
    {
    }
  }

  /** A trace with one more event is valid exactly when the trace is and the event may come next. With the empty
      trace, which is valid, this says of every trace whether it is valid. */
  lemma {:induction false} TraceValidIff(version: Option<int>, trace: Trace, e: Event)
    ensures TraceValid(version, trace + [e]) <==> TraceValid(version, trace) && MayFollow(version, trace, e)
    ensures TraceValid(version, [])
  {
    var all := trace + [e];
    FollowsIff(version, trace, e);
    forall i: nat | i < |trace| ensures EventValid(version, all, i) <==> EventValid(version, trace, i) {
      StillValid(version, trace, e, i);
    }
    if TraceValid(version, all) {
      assert EventValid(version, all, |trace|);
      assert forall i: nat :: i < |trace| ==> EventValid(version, all, i);
    }
  }

  // ---- Canonical rows ----

  /** The row is vouched for by native authority over its catalogue, or is a public action committed directly. */
  predicate VouchedFor(row: Row, proof: Event) {
    if row.nativeAuthority then row.catalog.Some? && row.catalog == proof.catalog
    else row.mechanism == "direct_ui_commit" && row.nativeInput.None? && row.publicMembership
  }

  /** Position `p` holds the only proof of the row's action, and the row tells it. */
  ghost predicate TellsProof(trace: Trace, row: Row, p: nat) {
    && p < |trace| && trace[p].kind.TransitionProved? && TellsAction(row, trace[p].action)
    && trace[p].pre == Some(row.pre) && trace[p].successor == Some(row.successor)
    && row.pre.snapshotId != row.successor.snapshotId && VouchedFor(row, trace[p])
    && forall q: nat ::
         q < |trace| && trace[q].kind.TransitionProved? && trace[q].action.witnessId == row.witnessId ==> q == p
  }

  /** One more canonical row is valid exactly when its transition id is new and it tells the only proof of its
      action. */
  lemma {:induction false} RowsValidIff(trace: Trace, rows: seq<Row>, row: Row)
    ensures RowsValid(trace, rows + [row]) <==>
        && RowsValid(trace, rows) && row.wellFormed
        && (forall r :: 0 <= r < |rows| ==> rows[r].transitionId != row.transitionId)
        && exists p: nat :: TellsProof(trace, row, p)
    ensures RowsValid(trace, [])
  {
    var all := rows + [row];
    assert forall r: nat :: r < |rows| ==> all[r] == rows[r];
    forall r: nat | r < |rows| ensures RowValid(trace, all, r) <==> RowValid(trace, rows, r) {
      RowAlone(trace, rows, row, r);
    }
    LastRowIff(trace, rows, row);
    if RowsValid(trace, all) {
      assert RowValid(trace, all, |rows|);
      assert forall r: nat :: r < |rows| ==> RowValid(trace, all, r);
    }
  }

  lemma {:induction false} RowAlone(trace: Trace, rows: seq<Row>, row: Row, r: nat)
    requires r < |rows|
    ensures RowValid(trace, rows + [row], r) <==> RowValid(trace, rows, r)
  {
    var all := rows + [row];
    assert forall q: nat :: q <= r ==> all[q] == rows[q];
  }

  lemma {:induction false} LastRowIff(trace: Trace, rows: seq<Row>, row: Row)
    ensures RowValid(trace, rows + [row], |rows|) <==>
        && row.wellFormed && (forall r :: 0 <= r < |rows| ==> rows[r].transitionId != row.transitionId)
        && exists p: nat :: TellsProof(trace, row, p)
  {
    var all := rows + [row];
    assert forall r: nat :: r < |rows| ==> all[r] == rows[r];
    if p: nat :| TellsProof(trace, row, p) {
      assert RowMatches(row, trace[p]);
    }
    if i: nat :| i < |trace| && RowMatches(row, trace[i]) && OnlyProof(trace, row.witnessId, i) {
      assert TellsProof(trace, row, i);
    }
  }

  // ---- Failure rows and coverage ----

  /** A row that names no failure is not closed by one; one that does is, and its failure is a capture failure of
      its own occurrence or a persistence failure of an accepted action without a canonical row. */
  lemma {:induction false} InvalidationIff(b: Bundle, row: Invalidation)
    ensures InvalidationValid(b, row) <==>
        && row.wellFormed && (b.strictDispositions ==> row.disposition.Some?)
        && (row.failure.Some? <==> row.disposition == Some(FailedClosed))
        && (row.failure.Some? ==>
              var failure := row.failure.value;
              && failure.family != "" && failure.witnessId != ""
              && (failure.kind.Capture? ==> row.occurrence == Some(failure.witnessId))
              && (failure.kind.Persistence? ==>
                    && !IsNewWitness(b.trace, failure.witnessId)
                    && forall r :: 0 <= r < |b.rows| ==> b.rows[r].witnessId != failure.witnessId))
  {
  }

  /** A proof is covered exactly when it is canonical once and nothing speaks of a loss or an omission, or it has
      one fitting loss, or one fitting omission, and nothing else. */
  lemma {:induction false} CoveredIff(b: Bundle, e: Event)
    ensures var lost, omitted := Losses(b.invalidations, WitnessOf(e)), OmissionsOf(b.omissions, e.action.recordId);
            var canonical := CountIf(b.rows, RowOf(WitnessOf(e)));
            HumanCoverage.Covered(b, e) <==>
              || (canonical == 1 && lost == [] && omitted == [])
              || (canonical == 0 && |lost| == 1 && omitted == [] && LossFits(b, e, lost[0]))
              || (canonical == 0 && lost == [] && |omitted| == 1 && OmissionFits(b, e, omitted[0]))
  {
  }
}
