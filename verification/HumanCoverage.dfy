/** What becomes of every proved action: it is in the canonical export, or its persistence
    was lost, or its family is not exported. And what the session summary then counts. */
module HumanCoverage {
  import opened Prelude
  import opened HumanTrace

  datatype FailureKind = Capture | Persistence

  datatype Failure = Failure(kind: FailureKind, witnessId: Witness, family: string)

  datatype Disposition = Diagnostic | Unsupported | FailedClosed

  /** `wellFormed` covers the envelope and the typed parts of the occurrence. */
  datatype Invalidation = Invalidation(
    run: string, disposition: Option<Disposition>, failure: Option<Failure>, occurrence: Option<string>,
        wellFormed: bool)

  /** A journal row that declares a projection unsupported. */
  datatype Omission = Omission(recordId: string, run: string, detail: string)

  datatype Bundle = Bundle(
    schema: Option<int>,          // decision_schema_version of the recording
    strictDispositions: bool,     // disposition_schema_version is 1
    families: set<string>,        // supported_action_families
    trace: Trace, rows: seq<Row>, invalidations: seq<Invalidation>, omissions: seq<Omission>)

  const NESTED_FAMILY := "nested_selector.decision"

  /** The action family a decision is exported under. */
  function FamilyOf(a: Action): Option<string> {
    if a.decision.None? then None
    else if a.decision.value.kind.NestedSelector? || a.decision.value.kind.NativeSelector? then Some(NESTED_FAMILY)
    else Some(a.decision.value.family)
  }

  predicate IsProof(e: Event) {
    e.kind.TransitionProved?
  }

  // ---- Invalidation rows (the loop over failures in _verify) ----

  ghost predicate AcceptedIn(trace: Trace, w: Witness) {
    exists i: nat :: i < |trace| && Accepts(trace[i], w)
  }

  ghost predicate CanonicalIn(rows: seq<Row>, w: Witness) {
    exists r: nat :: r < |rows| && rows[r].witnessId == w
  }

  ghost predicate InvalidationValid(b: Bundle, row: Invalidation) {
    && row.wellFormed
    && (b.strictDispositions ==> row.disposition.Some?)
    && (match row.failure
        case None => row.disposition != Some(FailedClosed)
        case Some(failure) =>
          && row.disposition == Some(FailedClosed)
          && failure.family != "" && failure.witnessId != ""
          && (if failure.kind.Capture? then row.occurrence == Some(failure.witnessId)
              else AcceptedIn(b.trace, failure.witnessId) && !CanonicalIn(b.rows, failure.witnessId)))
  }

  // ---- Projection coverage ----

  predicate LosesPersistence(w: Witness, row: Invalidation) {
    row.failure.Some? && row.failure.value.kind.Persistence? && row.failure.value.witnessId == w
  }

  function Losses(invalidations: seq<Invalidation>, w: Witness): seq<Invalidation> {
    if invalidations == [] then []
    else
      var last := invalidations[|invalidations| - 1];
      Losses(invalidations[..|invalidations| - 1], w) + if LosesPersistence(w, last) then [last] else []
  }

  function OmissionsOf(omissions: seq<Omission>, recordId: string): seq<Omission> {
    if omissions == [] then []
    else
      var last := omissions[|omissions| - 1];
      OmissionsOf(omissions[..|omissions| - 1], recordId) + if last.recordId == recordId then [last] else []
  }

  function RowOf(w: Witness): Row -> bool {
    (row: Row) => row.witnessId == w
  }

  predicate LostPersistence(b: Bundle, e: Event) {
    var lost := Losses(b.invalidations, e.action.witnessId);
    && |lost| == 1
    && lost[0].run == e.action.run
    && lost[0].failure.Some?
    && lost[0].failure.value.family in b.families
    && (FamilyOf(e.action).Some? ==> lost[0].failure.value.family == FamilyOf(e.action).value)
  }

  predicate NotExported(b: Bundle, e: Event) {
    var omitted := OmissionsOf(b.omissions, e.action.recordId);
    && |omitted| == 1
    && FamilyOf(e.action).Some? && FamilyOf(e.action).value !in b.families
    && omitted[0].run == e.action.run && omitted[0].detail == FamilyOf(e.action).value
  }

  function One(condition: bool): nat {
    if condition then 1 else 0
  }

  /** The requirement on one proof event. */
  predicate Covered(b: Bundle, e: Event) {
    && CountIf(b.rows, RowOf(e.action.witnessId)) + One(LostPersistence(b, e)) + One(NotExported(b, e)) == 1
    && (Losses(b.invalidations, e.action.witnessId) != [] ==> LostPersistence(b, e))
    && (OmissionsOf(b.omissions, e.action.recordId) != [] ==> NotExported(b, e))
  }

  ghost predicate CoverageValid(b: Bundle) {
    && (forall i: nat :: i < |b.trace| && IsProof(b.trace[i]) ==> Covered(b, b.trace[i]))
    && (forall o: nat :: o < |b.omissions| ==>
          exists i: nat ::
              i < |b.trace| && IsProof(b.trace[i]) && b.trace[i].action.recordId == b.omissions[o].recordId)
  }

  ghost predicate BundleValid(b: Bundle) {
    && ReferencesValid(b.schema, b.trace, b.rows)
    && (forall k: nat :: k < |b.invalidations| ==> InvalidationValid(b, b.invalidations[k]))
    && CoverageValid(b)
  }

  // ---- The verifiers ----

  /** _verify_projection_coverage. */
  method VerifyProjectionCoverage(b: Bundle) returns (ok: bool)
    ensures ok <==> CoverageValid(b)
  {
    var proved: set<string> := {};
    for i := 0 to |b.trace|
      invariant forall j: nat :: j < i && IsProof(b.trace[j]) ==> Covered(b, b.trace[j])
      invariant proved == set j | 0 <= j < i && IsProof(b.trace[j]) :: b.trace[j].action.recordId
    {
      if IsProof(b.trace[i]) {
        if !Covered(b, b.trace[i]) {
          return false;
        }
        proved := proved + {b.trace[i].action.recordId};
      }
    }
    for o := 0 to |b.omissions|
      invariant forall q: nat :: q < o ==> b.omissions[q].recordId in proved
    {
      if b.omissions[o].recordId !in proved {
        return false;
      }
    }
    ok := true;
  }

  /** The failure and disposition checks of _verify, against the accepted and canonical ids. */
  method VerifyInvalidations(b: Bundle) returns (ok: bool)
    ensures ok <==> forall k: nat :: k < |b.invalidations| ==> InvalidationValid(b, b.invalidations[k])
  {
    var accepted := set i | 0 <= i < |b.trace| && b.trace[i].kind.ActionAccepted? :: b.trace[i].action.witnessId;
    var canonical := set r | 0 <= r < |b.rows| :: b.rows[r].witnessId;
    for k := 0 to |b.invalidations|
      invariant forall q: nat :: q < k ==> InvalidationValid(b, b.invalidations[q])
    {
      var row := b.invalidations[k];
      assert row.failure.Some? ==>
          && (row.failure.value.witnessId in accepted <==> AcceptedIn(b.trace, row.failure.value.witnessId))
          && (row.failure.value.witnessId in canonical <==> CanonicalIn(b.rows, row.failure.value.witnessId));
      if !row.wellFormed || (b.strictDispositions && row.disposition.None?) {
        return false;
      }
      if row.failure.None? {
        if row.disposition == Some(FailedClosed) {
          return false;
        }
      } else {
        var failure := row.failure.value;
        if row.disposition != Some(FailedClosed) || failure.family == "" || failure.witnessId == "" {
          return false;
        }
        if failure.kind.Capture? {
          if row.occurrence != Some(failure.witnessId) {
            return false;
          }
        } else if failure.witnessId !in accepted || failure.witnessId in canonical {
          return false;
        }
      }
    }
    ok := true;
  }

  // ---- Accepted actions against dispositions ----

  predicate IsAcceptance(e: Event) {
    e.kind.ActionAccepted?
  }

  predicate IsTerminal(e: Event) {
    IsTerminalKind(e.kind)
  }

  function WitnessOf(e: Event): Witness {
    e.action.witnessId
  }

  /** In a valid trace an action ends once, and only after its acceptance. */
  lemma {:induction false} TerminalsDistinct(schema: Option<int>, trace: Trace, i: nat, j: nat)
    requires TraceValid(schema, trace) && ExactlyOneDisposition(trace)
    requires i < j < |trace| && IsTerminal(trace[i]) && IsTerminal(trace[j])
    ensures WitnessOf(trace[i]) != WitnessOf(trace[j])
  {
    if WitnessOf(trace[i]) == WitnessOf(trace[j]) {
      assert EventValid(schema, trace, i);
      var k: nat :| k < i && trace[k].kind.ActionAccepted? && trace[k].action == trace[i].action;
      assert CountIf(trace, TerminalOf(trace[k].action.witnessId)) == 1;
      CountTwo(trace, TerminalOf(WitnessOf(trace[i])), i, j);
    }
  }

  lemma {:induction false} AcceptancesDistinct(schema: Option<int>, trace: Trace, i: nat, j: nat)
    requires TraceValid(schema, trace) && i < j < |trace| && IsAcceptance(trace[i]) && IsAcceptance(trace[j])
    ensures WitnessOf(trace[i]) != WitnessOf(trace[j])
  {
    assert EventValid(schema, trace, j);
    assert !Accepts(trace[i], trace[j].action.witnessId);
  }

  lemma {:induction false} AcceptedEnds(trace: Trace, w: string)
    requires ExactlyOneDisposition(trace) && w in KeysOf(trace, IsAcceptance, WitnessOf)
    ensures w in KeysOf(trace, IsTerminal, WitnessOf)
  {
    var i :| 0 <= i < |trace| && IsAcceptance(trace[i]) && WitnessOf(trace[i]) == w;
    var j := CountWitness(trace, TerminalOf(w));
    assert IsTerminal(trace[j]) && WitnessOf(trace[j]) == w;
  }

  lemma {:induction false} EndedWasAccepted(schema: Option<int>, trace: Trace, w: string)
    requires TraceValid(schema, trace) && w in KeysOf(trace, IsTerminal, WitnessOf)
    ensures w in KeysOf(trace, IsAcceptance, WitnessOf)
  {
    var i :| 0 <= i < |trace| && IsTerminal(trace[i]) && WitnessOf(trace[i]) == w;
    assert EventValid(schema, trace, i);
    var k: nat :| k < i && trace[k].kind.ActionAccepted? && trace[k].action == trace[i].action;
    assert IsAcceptance(trace[k]) && WitnessOf(trace[k]) == w;
  }

  /** As many terminal events as accepted actions. */
  lemma {:induction false} AcceptedEqualsTerminals(schema: Option<int>, trace: Trace)
    requires TraceValid(schema, trace) && ExactlyOneDisposition(trace)
    ensures CountIf(trace, IsAcceptance) == CountIf(trace, IsTerminal)
  {
    forall i, j | 0 <= i < j < |trace| && IsAcceptance(trace[i]) && IsAcceptance(trace[j])
      ensures WitnessOf(trace[i]) != WitnessOf(trace[j])
    {
      AcceptancesDistinct(schema, trace, i, j);
    }
    forall i, j | 0 <= i < j < |trace| && IsTerminal(trace[i]) && IsTerminal(trace[j])
      ensures WitnessOf(trace[i]) != WitnessOf(trace[j])
    {
      TerminalsDistinct(schema, trace, i, j);
    }
    CountDistinct(trace, IsAcceptance, WitnessOf);
    CountDistinct(trace, IsTerminal, WitnessOf);
    var accepted, ended := KeysOf(trace, IsAcceptance, WitnessOf), KeysOf(trace, IsTerminal, WitnessOf);
    forall w | w in accepted ensures w in ended {
      AcceptedEnds(trace, w);
    }
    forall w | w in ended ensures w in accepted {
      EndedWasAccepted(schema, trace, w);
    }
    assert accepted == ended;
  }
}
