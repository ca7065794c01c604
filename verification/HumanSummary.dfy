/** The counters of the session summary obey conservation laws for every valid bundle. */
module HumanSummary {
  import opened Prelude
  import opened HumanTrace
  import opened HumanCoverage

  /** `realFailures`, `diagnostics` and `unsupported` are known only under the current schema. */
  datatype Counts = Counts(
    accepted: nat, proved: nat, canonical: nat, realFailures: Option<nat>, cancelled: nat, aborted: nat,
    diagnostics: Option<nat>, unsupported: Option<nat>, unresolved: nat, invalidations: nat,
    acceptedChildren: nat, canonicalChildren: nat)

  predicate IsUnknown(e: Event) {
    e.kind.TransitionUnknown?
  }

  predicate IsCancelled(e: Event) {
    e.kind.CancelledBeforeStart? || e.kind.CancelledAfterStart?
  }

  predicate IsAborted(e: Event) {
    e.kind.AbortedBeforeCommit?
  }

  predicate IsChild(decision: Option<Decision>) {
    decision.Some? && decision.value.kind.NestedSelector?
  }

  predicate IsAcceptedChild(e: Event) {
    IsAcceptance(e) && IsChild(e.action.decision)
  }

  predicate IsChildRow(row: Row) {
    IsChild(row.decision)
  }

  predicate IsDiagnostic(row: Invalidation) {
    row.disposition == Some(Diagnostic)
  }

  predicate IsUnsupportedRow(row: Invalidation) {
    row.disposition == Some(Unsupported)
  }

  function UnknownWitnesses(b: Bundle): set<Witness> {
    set i | 0 <= i < |b.trace| && IsUnknown(b.trace[i]) :: WitnessOf(b.trace[i])
  }

  function FailureWitnesses(b: Bundle): set<Witness> {
    set k | 0 <= k < |b.invalidations| && b.invalidations[k].failure.Some? :: b.invalidations[k].failure.value.witnessId
  }

  /** The `counts` of _current_summary. */
  function CurrentSummary(b: Bundle): Counts {
    var current := b.strictDispositions;
    Counts(
      CountIf(b.trace, IsAcceptance), CountIf(b.trace, IsProof), |b.rows|,
      if current then Some(|UnknownWitnesses(b) + FailureWitnesses(b)|) else None,
      CountIf(b.trace, IsCancelled), CountIf(b.trace, IsAborted),
      if current then Some(CountIf(b.invalidations, IsDiagnostic)) else None,
      if current then Some(CountIf(b.invalidations, IsUnsupportedRow)) else None,
      CountIf(b.trace, IsUnknown), |b.invalidations|,
      CountIf(b.trace, IsAcceptedChild), CountIf(b.rows, IsChildRow))
  }

  // ---- The three fates of a proved action ----

  function CanonicalProof(b: Bundle): Event -> bool {
    (e: Event) => IsProof(e) && CountIf(b.rows, RowOf(WitnessOf(e))) == 1
  }

  function LostProof(b: Bundle): Event -> bool {
    (e: Event) => IsProof(e) && LostPersistence(b, e)
  }

  function NotExportedProof(b: Bundle): Event -> bool {
    (e: Event) => IsProof(e) && NotExported(b, e)
  }

  function CanonicalOrLost(b: Bundle): Event -> bool {
    (e: Event) => CanonicalProof(b)(e) || LostProof(b)(e)
  }

  /** Exactly one fate per proof. */
  lemma {:induction false} OneFate(b: Bundle, e: Event)
    requires IsProof(e) ==> Covered(b, e)
    ensures IsProof(e) <==> CanonicalOrLost(b)(e) || NotExportedProof(b)(e)
    ensures !(CanonicalOrLost(b)(e) && NotExportedProof(b)(e)) && !(CanonicalProof(b)(e) && LostProof(b)(e))
  {
    assert WitnessOf(e) == e.action.witnessId;
    assert CanonicalProof(b)(e) <==> IsProof(e) && CountIf(b.rows, RowOf(e.action.witnessId)) == 1;
    assert LostProof(b)(e) <==> IsProof(e) && LostPersistence(b, e);
    assert NotExportedProof(b)(e) <==> IsProof(e) && NotExported(b, e);
    assert CanonicalOrLost(b)(e) <==> (CanonicalProof(b)(e) || LostProof(b)(e));
  }

  lemma {:induction false} ProofsSplit(b: Bundle)
    requires CoverageValid(b)
    ensures CountIf(b.trace, IsProof)
         == CountIf(b.trace, CanonicalProof(b)) + CountIf(b.trace, LostProof(b)) + CountIf(b.trace, NotExportedProof(b))
  {
    forall e | e in b.trace
      ensures IsProof(e) <==> CanonicalOrLost(b)(e) || NotExportedProof(b)(e)
      ensures !(CanonicalOrLost(b)(e) && NotExportedProof(b)(e)) && !(CanonicalProof(b)(e) && LostProof(b)(e))
    {
      var i :| 0 <= i < |b.trace| && b.trace[i] == e;
      OneFate(b, b.trace[i]);
    }
    CountSplit(b.trace, IsProof, CanonicalOrLost(b), NotExportedProof(b));
    CountSplit(b.trace, CanonicalOrLost(b), CanonicalProof(b), LostProof(b));
  }

  // ---- Canonical rows and proved actions ----

  function RowWitness(row: Row): Witness {
    row.witnessId
  }

  predicate AnyRow(row: Row) {
    true
  }

  /** The proof a row was taken from. */
  lemma {:induction false} ProofOfRow(b: Bundle, r: nat) returns (i: nat)
    requires BundleValid(b) && r < |b.rows|
    ensures i < |b.trace| && RowMatches(b.rows[r], b.trace[i]) && CanonicalProof(b)(b.trace[i])
  {
    assert RowValid(b.trace, b.rows, r);
    i :| i < |b.trace| && RowMatches(b.rows[r], b.trace[i])
         && forall j: nat :: j < |b.trace| && Proves(b.trace[j], b.rows[r].witnessId) ==> j == i;
    assert Covered(b, b.trace[i]);
    CountPositive(b.rows, RowOf(b.rows[r].witnessId), r);
  }

  /** No two canonical rows report the same action. */
  lemma {:induction false} RowsDistinct(b: Bundle, q: nat, r: nat)
    requires BundleValid(b) && q < r < |b.rows|
    ensures b.rows[q].witnessId != b.rows[r].witnessId
  {
    var i := ProofOfRow(b, r);
    if b.rows[q].witnessId == b.rows[r].witnessId {
      CountTwo(b.rows, RowOf(b.rows[r].witnessId), q, r);
    }
  }

  lemma {:induction false} RowsAreCanonicalProofs(b: Bundle)
    requires BundleValid(b)
    ensures |b.rows| == CountIf(b.trace, CanonicalProof(b))
  {
    var p := CanonicalProof(b);
    forall q, r | 0 <= q < r < |b.rows| ensures RowWitness(b.rows[q]) != RowWitness(b.rows[r]) {
      RowsDistinct(b, q, r);
    }
    CountAll(b.rows, AnyRow);
    CountDistinct(b.rows, AnyRow, RowWitness);
    TerminalKeysDistinct(b, p);
    CountDistinct(b.trace, p, WitnessOf);
    var rows, proofs := KeysOf(b.rows, AnyRow, RowWitness), KeysOf(b.trace, p, WitnessOf);
    forall w | w in rows ensures w in proofs {
      var r :| 0 <= r < |b.rows| && RowWitness(b.rows[r]) == w;
      var i := ProofOfRow(b, r);
    }
    forall w | w in proofs ensures w in rows {
      var i :| 0 <= i < |b.trace| && p(b.trace[i]) && WitnessOf(b.trace[i]) == w;
      var r := CountWitness(b.rows, RowOf(w));
      assert AnyRow(b.rows[r]) && RowWitness(b.rows[r]) == w;
    }
    assert rows == proofs;
  }

  /** Any selection of terminal events has pairwise different witnesses. */
  lemma {:induction false} TerminalKeysDistinct(b: Bundle, p: Event -> bool)
    requires TraceValid(b.schema, b.trace) && ExactlyOneDisposition(b.trace)
    requires forall e :: e in b.trace && p(e) ==> IsTerminal(e)
    ensures DistinctKeys(b.trace, p, WitnessOf)
  {
    forall i, j | 0 <= i < j < |b.trace| && p(b.trace[i]) && p(b.trace[j])
      ensures WitnessOf(b.trace[i]) != WitnessOf(b.trace[j])
    {
      TerminalsDistinct(b.schema, b.trace, i, j);
    }
  }

  /** A canonical action has no other disposition and no persistence failure. */
  lemma {:induction false} CanonicalIsSettled(b: Bundle, r: nat)
    requires BundleValid(b) && r < |b.rows|
    ensures forall e :: e in b.trace && IsTerminal(e) && WitnessOf(e) == b.rows[r].witnessId ==> IsProof(e)
    ensures forall row :: row in b.invalidations ==> !LosesPersistence(b.rows[r].witnessId, row)
  {
    var i := ProofOfRow(b, r);
    forall e | e in b.trace && IsTerminal(e) && WitnessOf(e) == b.rows[r].witnessId ensures IsProof(e) {
      var j :| 0 <= j < |b.trace| && b.trace[j] == e;
      if j < i {
        TerminalsDistinct(b.schema, b.trace, j, i);
      } else if i < j {
        TerminalsDistinct(b.schema, b.trace, i, j);
      }
    }
    forall row | row in b.invalidations ensures !LosesPersistence(b.rows[r].witnessId, row) {
      var k :| 0 <= k < |b.invalidations| && b.invalidations[k] == row;
      assert InvalidationValid(b, b.invalidations[k]);
      assert CanonicalIn(b.rows, b.rows[r].witnessId);
    }
  }

  lemma {:induction false} ChildRowsBounded(b: Bundle)
    requires BundleValid(b)
    ensures CountIf(b.rows, IsChildRow) <= CountIf(b.trace, IsAcceptedChild)
  {
    forall q, r | 0 <= q < r < |b.rows| ensures RowWitness(b.rows[q]) != RowWitness(b.rows[r]) {
      RowsDistinct(b, q, r);
    }
    forall i, j | 0 <= i < j < |b.trace| && IsAcceptance(b.trace[i]) && IsAcceptance(b.trace[j])
      ensures WitnessOf(b.trace[i]) != WitnessOf(b.trace[j])
    {
      AcceptancesDistinct(b.schema, b.trace, i, j);
    }
    CountDistinct(b.rows, IsChildRow, RowWitness);
    CountDistinct(b.trace, IsAcceptedChild, WitnessOf);
    var rows, accepted := KeysOf(b.rows, IsChildRow, RowWitness), KeysOf(b.trace, IsAcceptedChild, WitnessOf);
    forall w | w in rows ensures w in accepted {
      var r :| 0 <= r < |b.rows| && IsChildRow(b.rows[r]) && RowWitness(b.rows[r]) == w;
      var i := ProofOfRow(b, r);
      assert EventValid(b.schema, b.trace, i);
      var j: nat :| j < i && b.trace[j].kind.ActionAccepted? && b.trace[j].action == b.trace[i].action;
      assert IsAcceptedChild(b.trace[j]) && WitnessOf(b.trace[j]) == w;
    }
    SubsetSize(rows, accepted);
  }

  // ---- Real failures ----

  lemma {:induction false} LossHasRow(invalidations: seq<Invalidation>, w: Witness) returns (k: nat)
    requires Losses(invalidations, w) != []
    ensures k < |invalidations| && LosesPersistence(w, invalidations[k])
  {
    var n := |invalidations| - 1;
    if LosesPersistence(w, invalidations[n]) {
      k := n;
    } else {
      k := LossHasRow(invalidations[..n], w);
    }
  }

  lemma {:induction false} UnknownNotLost(b: Bundle)
    requires TraceValid(b.schema, b.trace) && ExactlyOneDisposition(b.trace)
    ensures KeysOf(b.trace, IsUnknown, WitnessOf) !! KeysOf(b.trace, LostProof(b), WitnessOf)
  {
    forall i, j | 0 <= i < |b.trace| && 0 <= j < |b.trace| && IsUnknown(b.trace[i]) && LostProof(b)(b.trace[j])
      ensures WitnessOf(b.trace[i]) != WitnessOf(b.trace[j])
    {
      assert IsTerminal(b.trace[i]) && IsTerminal(b.trace[j]);
      if i < j {
        TerminalsDistinct(b.schema, b.trace, i, j);
      } else {
        TerminalsDistinct(b.schema, b.trace, j, i);
      }
    }
  }

  lemma {:induction false} LossesAreFailures(b: Bundle)
    ensures KeysOf(b.trace, LostProof(b), WitnessOf) <= FailureWitnesses(b)
  {
    forall w | w in KeysOf(b.trace, LostProof(b), WitnessOf) ensures w in FailureWitnesses(b) {
      var i :| 0 <= i < |b.trace| && LostProof(b)(b.trace[i]) && WitnessOf(b.trace[i]) == w;
      var k := LossHasRow(b.invalidations, w);
    }
  }

  /** Unresolved and lost actions are different, and all of them are real failures. */
  lemma {:induction false} FailuresCoverLosses(b: Bundle)
    requires BundleValid(b)
    ensures CountIf(b.trace, IsUnknown) + CountIf(b.trace, LostProof(b)) <= |UnknownWitnesses(b) + FailureWitnesses(b)|
  {
    var unknown, lost := KeysOf(b.trace, IsUnknown, WitnessOf), KeysOf(b.trace, LostProof(b), WitnessOf);
    TerminalKeysDistinct(b, IsUnknown);
    TerminalKeysDistinct(b, LostProof(b));
    CountDistinct(b.trace, IsUnknown, WitnessOf);
    CountDistinct(b.trace, LostProof(b), WitnessOf);
    UnknownNotLost(b);
    LossesAreFailures(b);
    assert unknown == UnknownWitnesses(b);
    assert |unknown + lost| == |unknown| + |lost|;
    SubsetSize(unknown + lost, UnknownWitnesses(b) + FailureWitnesses(b));
  }

  predicate IsSettledTerminal(e: Event) {
    IsProof(e) || IsUnknown(e)
  }

  predicate IsStopped(e: Event) {
    IsCancelled(e) || IsAborted(e)
  }

  /** The summary of a valid bundle balances: every accepted action is proved, unresolved,
      cancelled or aborted; every proved action is canonical, lost or not exported; lost and
      unresolved actions are all real failures; children are exported at most once. */
  lemma {:induction false} SummaryBalances(b: Bundle)
    requires BundleValid(b)
    ensures var c := CurrentSummary(b);
            && c.accepted == c.proved + c.unresolved + c.cancelled + c.aborted
            && c.proved == c.canonical + CountIf(b.trace, LostProof(b)) + CountIf(b.trace, NotExportedProof(b))
            && c.canonicalChildren <= c.acceptedChildren
            && (c.realFailures.Some? ==> c.unresolved + CountIf(b.trace, LostProof(b)) <= c.realFailures.value)
  {
    AcceptedEqualsTerminals(b.schema, b.trace);
    CountSplit(b.trace, IsTerminal, IsSettledTerminal, IsStopped);
    CountSplit(b.trace, IsSettledTerminal, IsProof, IsUnknown);
    CountSplit(b.trace, IsStopped, IsCancelled, IsAborted);
    ProofsSplit(b);
    RowsAreCanonicalProofs(b);
    ChildRowsBounded(b);
    FailuresCoverLosses(b);
  }
}
