/** The semantic trace of a Human session and its reference verifier.

    `wellFormed` on an event or row stands for the checks that read nothing but the value
    and the content-addressed objects it names: envelope, schema, frames, catalogs. */
module HumanTrace {
  import opened Prelude

  type Witness = string

  datatype EventKind =
    | ActionAccepted
    | TransitionProved
    | TransitionUnknown
    | CancelledBeforeStart
    | CancelledAfterStart
    | AbortedBeforeCommit
    | Lifecycle     // the nine recognized kinds that decide nothing
    | Unrecognized

  predicate IsTerminalKind(kind: EventKind) {
    kind.TransitionProved? || kind.TransitionUnknown? || kind.CancelledBeforeStart? || kind.CancelledAfterStart?
    || kind.AbortedBeforeCommit?
  }

  datatype DecisionKind = Root | NestedSelector | NativeSelector | OtherDecision

  /** `described` says that the action type, context type and factory mechanism are named. */
  datatype NativeOrigin = NativeOrigin(actionWitness: Witness, described: bool)

  datatype Decision = Decision(
    kind: DecisionKind, decisionId: string, parent: Option<string>, causalRoot: Witness, owner: Option<string>,
    origin: Option<NativeOrigin>, schemaVersion: int, family: string, wellFormed: bool)

  datatype NativeWitness = NativeWitness(origin: string, nativeOrigin: Option<string>, selectorOwner: Option<string>)

  datatype Action = Action(
    witnessId: Witness, run: string, sequence: int, recordId: string, decision: Option<Decision>, mechanism: string,
    queue: Option<string>, native: NativeWitness, boundAction: Option<string>, nativeInput: Option<string>)

  datatype Ref = Ref(snapshotId: string, object: string)

  datatype Event = Event(
    sequence: int, kind: EventKind, run: string, action: Action,
    observation: Option<Ref>, pre: Option<Ref>, successor: Option<Ref>, catalog: Option<Ref>, related: Option<Witness>,
    interrupted: bool,      // proof_status is process_interrupted
    hasCompletion: bool,    // a boundary, completion or continuation is present
    wellFormed: bool)

  type Trace = seq<Event>

  datatype Row = Row(
    transitionId: string, witnessId: Witness, decision: Option<Decision>, boundAction: Option<string>,
    nativeInput: Option<string>, run: string, actionSequence: int, mechanism: string, pre: Ref, successor: Ref,
    nativeAuthority: bool, catalog: Option<Ref>, publicMembership: bool, wellFormed: bool)

  const DIRECT_COMMIT := "direct_ui_commit"

  predicate Named(text: Option<string>) {
    text.Some? && text.value != ""
  }

  /** _decision_identity. */
  predicate DecisionIdentity(d: Decision, a: Action) {
    && d.wellFormed
    && (match d.kind
        case Root => d.parent.None? && d.causalRoot == a.witnessId
        case NestedSelector =>
          Named(d.parent) && d.parent.value != d.decisionId && d.causalRoot != a.witnessId && Named(d.owner)
        case NativeSelector =>
          && d.schemaVersion == 2 && d.parent.None? && d.causalRoot != a.witnessId && Named(d.owner)
          && d.origin.Some? && d.origin.value.actionWitness == d.causalRoot && d.origin.value.described
          && a.mechanism == DIRECT_COMMIT && a.queue.None?
          && a.native.origin == "native_selector_input"
          && a.native.nativeOrigin == Some(d.causalRoot) && a.native.selectorOwner == d.owner
        case OtherDecision => false)
    && (!d.kind.NativeSelector? ==> d.origin.None?)
  }

  // ---- Declarative specification ----

  predicate Accepts(e: Event, w: Witness) {
    e.kind.ActionAccepted? && e.action.witnessId == w
  }

  predicate Decides(e: Event, decisionId: string) {
    e.kind.ActionAccepted? && e.action.decision.Some? && e.action.decision.value.decisionId == decisionId
  }

  /** The decision accepted at `j` is the parent of the one accepted at `i`. */
  predicate IsParent(trace: Trace, i: nat, j: nat)
    requires j < i < |trace| && trace[i].action.decision.Some? && trace[i].action.decision.value.parent.Some?
  {
    var child := trace[i].action;
    && Decides(trace[j], child.decision.value.parent.value)
    && trace[j].action.decision.value.causalRoot == child.decision.value.causalRoot
    && trace[j].action.run == child.run
    && trace[j].action.sequence < child.sequence
  }

  predicate SchemaFits(version: Option<int>, a: Action) {
    version.Some? ==> a.decision.Some? && a.decision.value.schemaVersion == version.value
  }

  ghost predicate AcceptanceValid(version: Option<int>, trace: Trace, i: nat)
    requires i < |trace|
  {
    var a := trace[i].action;
    && (forall j: nat :: j < i ==> !Accepts(trace[j], a.witnessId))
    && SchemaFits(version, a)
    && (a.decision.Some? ==>
          && DecisionIdentity(a.decision.value, a)
          && (forall j: nat :: j < i ==> !Decides(trace[j], a.decision.value.decisionId))
          && (a.decision.value.parent.Some? ==> exists j: nat :: j < i && IsParent(trace, i, j)))
  }

  function PreviousSequence(trace: Trace, i: nat): int
    requires i <= |trace|
  {
    if i == 0 then 0 else trace[i - 1].sequence
  }

  predicate EnvelopeValid(trace: Trace, i: nat)
    requires i < |trace|
  {
    && trace[i].wellFormed
    && trace[i].sequence > PreviousSequence(trace, i)
    && !trace[i].kind.Unrecognized?
    && trace[i].run == trace[i].action.run
  }

  ghost predicate EventValid(version: Option<int>, trace: Trace, i: nat)
    requires i < |trace|
  {
    && EnvelopeValid(trace, i)
    && (if trace[i].kind.ActionAccepted? then AcceptanceValid(version, trace, i)
        else exists j: nat :: j < i && trace[j].kind.ActionAccepted? && trace[j].action == trace[i].action)
  }

  ghost predicate TraceValid(version: Option<int>, trace: Trace) {
    forall i: nat :: i < |trace| ==> EventValid(version, trace, i)
  }

  function TerminalOf(w: Witness): Event -> bool {
    (e: Event) => IsTerminalKind(e.kind) && e.action.witnessId == w
  }

  /** Every accepted action ends in exactly one disposition. */
  ghost predicate ExactlyOneDisposition(trace: Trace) {
    forall i: nat :: i < |trace| && trace[i].kind.ActionAccepted? ==>
      CountIf(trace, TerminalOf(trace[i].action.witnessId)) == 1
  }

  predicate Proves(e: Event, w: Witness) {
    e.kind.TransitionProved? && e.action.witnessId == w
  }

  predicate RowMatches(row: Row, proof: Event) {
    && Proves(proof, row.witnessId)
    && row.decision == proof.action.decision
    && row.boundAction == proof.action.boundAction
    && row.nativeInput == proof.action.nativeInput
    && row.run == proof.action.run
    && row.actionSequence == proof.action.sequence
    && row.mechanism == proof.action.mechanism
    && row.transitionId == "canonical-" + proof.action.recordId
    && proof.pre == Some(row.pre) && proof.successor == Some(row.successor)
    && row.pre.snapshotId != row.successor.snapshotId
    && (if row.nativeAuthority then row.catalog.Some? && row.catalog == proof.catalog
        else row.mechanism == DIRECT_COMMIT && row.nativeInput.None? && row.publicMembership)
  }

  ghost predicate RowValid(trace: Trace, rows: seq<Row>, r: nat)
    requires r < |rows|
  {
    && rows[r].wellFormed
    && (forall q: nat :: q < r ==> rows[q].transitionId != rows[r].transitionId)
    && (exists i: nat :: i < |trace| && RowMatches(rows[r], trace[i])
                         && forall j: nat :: j < |trace| && Proves(trace[j], rows[r].witnessId) ==> j == i)
  }

  ghost predicate RowsValid(trace: Trace, rows: seq<Row>) {
    forall r: nat :: r < |rows| ==> RowValid(trace, rows, r)
  }

  ghost predicate ReferencesValid(version: Option<int>, trace: Trace, rows: seq<Row>) {
    TraceValid(version, trace) && ExactlyOneDisposition(trace) && RowsValid(trace, rows)
  }

  // ---- The dictionaries of the verifier ----

  datatype Seen = Seen(
    accepted: map<Witness, Action>,
    decisions: map<string, Action>,      // decisions and decision_actions, by decision id
    proofs: map<Witness, seq<Event>>,
    terminals: map<Witness, nat>)

  ghost predicate AcceptedSeen(trace: Trace, n: nat, accepted: map<Witness, Action>)
    requires n <= |trace|
  {
    && (forall w :: w in accepted ==> exists j: nat :: j < n && Accepts(trace[j], w))
    && (forall j: nat :: j < n && trace[j].kind.ActionAccepted? ==>
          trace[j].action.witnessId in accepted && accepted[trace[j].action.witnessId] == trace[j].action)
  }

  ghost predicate DecisionsSeen(trace: Trace, n: nat, decisions: map<string, Action>)
    requires n <= |trace|
  {
    && (forall d :: d in decisions ==> exists j: nat :: j < n && Decides(trace[j], d))
    && (forall j: nat :: j < n && trace[j].kind.ActionAccepted? && trace[j].action.decision.Some? ==>
          && trace[j].action.decision.value.decisionId in decisions
          && decisions[trace[j].action.decision.value.decisionId] == trace[j].action)
  }

  function Filter(s: Trace, p: Event -> bool): Trace {
    if s == [] then [] else Filter(s[..|s| - 1], p) + if p(s[|s| - 1]) then [s[|s| - 1]] else []
  }

  function ProofOf(w: Witness): Event -> bool {
    (e: Event) => Proves(e, w)
  }

  function ListOrEmpty(m: map<Witness, seq<Event>>, w: Witness): seq<Event> {
    if w in m then m[w] else []
  }

  function CountOrZero(m: map<Witness, nat>, w: Witness): nat {
    if w in m then m[w] else 0
  }

  ghost predicate TerminalsSeen(trace: Trace, n: nat, terminals: map<Witness, nat>)
    requires n <= |trace|
  {
    forall w :: CountOrZero(terminals, w) == CountIf(trace[..n], TerminalOf(w))
  }

  ghost predicate ProofsSeen(trace: Trace, n: nat, proofs: map<Witness, seq<Event>>)
    requires n <= |trace|
  {
    forall w :: ListOrEmpty(proofs, w) == Filter(trace[..n], ProofOf(w))
  }

  ghost predicate Summarizes(trace: Trace, n: nat, seen: Seen)
    requires n <= |trace|
  {
    && AcceptedSeen(trace, n, seen.accepted) && DecisionsSeen(trace, n, seen.decisions)
    && ProofsSeen(trace, n, seen.proofs) && TerminalsSeen(trace, n, seen.terminals)
  }

  /** The parent check of the loop. */
  predicate ParentKnown(decisions: map<string, Action>, a: Action)
    requires a.decision.Some? && a.decision.value.parent.Some?
  {
    var p := a.decision.value.parent.value;
    && p in decisions
    && decisions[p].decision.Some?
    && decisions[p].decision.value.causalRoot == a.decision.value.causalRoot
    && decisions[p].run == a.run
    && decisions[p].sequence < a.sequence
  }

  predicate Passes(version: Option<int>, trace: Trace, i: nat, seen: Seen)
    requires i < |trace|
  {
    var e := trace[i];
    && EnvelopeValid(trace, i)
    && (if e.kind.ActionAccepted? then
          && e.action.witnessId !in seen.accepted
          && SchemaFits(version, e.action)
          && (e.action.decision.Some? ==>
                && DecisionIdentity(e.action.decision.value, e.action)
                && e.action.decision.value.decisionId !in seen.decisions
                && (e.action.decision.value.parent.Some? ==> ParentKnown(seen.decisions, e.action)))
        else e.action.witnessId in seen.accepted && seen.accepted[e.action.witnessId] == e.action)
  }

  lemma {:induction false} ParentKnownIffParent(trace: Trace, i: nat, seen: Seen)
    requires i < |trace| && Summarizes(trace, i, seen)
    requires trace[i].action.decision.Some? && trace[i].action.decision.value.parent.Some?
    ensures ParentKnown(seen.decisions, trace[i].action) <==> exists j: nat :: j < i && IsParent(trace, i, j)
  {
    var p := trace[i].action.decision.value.parent.value;
    if p in seen.decisions {
      var j: nat :| j < i && Decides(trace[j], p);
      assert ParentKnown(seen.decisions, trace[i].action) <==> IsParent(trace, i, j);
    }
  }

  lemma {:induction false} PassesIffValid(version: Option<int>, trace: Trace, i: nat, seen: Seen)
    requires i < |trace| && Summarizes(trace, i, seen)
    ensures Passes(version, trace, i, seen) <==> EventValid(version, trace, i)
  {
    var a := trace[i].action;
    if a.witnessId in seen.accepted {
      var j: nat :| j < i && Accepts(trace[j], a.witnessId);
    }
    if a.decision.Some? && a.decision.value.decisionId in seen.decisions {
      var j: nat :| j < i && Decides(trace[j], a.decision.value.decisionId);
    }
    if a.decision.Some? && a.decision.value.parent.Some? {
      ParentKnownIffParent(trace, i, seen);
    }
  }

  // ---- One iteration keeps the dictionaries right ----

  lemma {:induction false} RememberAcceptance(trace: Trace, i: nat, accepted: map<Witness, Action>)
    requires i < |trace| && trace[i].kind.ActionAccepted?
    requires AcceptedSeen(trace, i, accepted) && trace[i].action.witnessId !in accepted
    ensures AcceptedSeen(trace, i + 1, accepted[trace[i].action.witnessId := trace[i].action])
  {
    var a := trace[i].action;
    var now := accepted[a.witnessId := a];
    forall w | w in now ensures exists j: nat :: j < i + 1 && Accepts(trace[j], w) {
      if w == a.witnessId {
        assert Accepts(trace[i], w);
      } else {
        var j: nat :| j < i && Accepts(trace[j], w);
      }
    }
  }

  lemma {:induction false} RememberDecision(trace: Trace, i: nat, decisions: map<string, Action>)
    requires i < |trace| && trace[i].kind.ActionAccepted?
    requires DecisionsSeen(trace, i, decisions)
    requires trace[i].action.decision.Some? ==> trace[i].action.decision.value.decisionId !in decisions
    ensures DecisionsSeen(trace, i + 1,
                          if trace[i].action.decision.Some?
                          then decisions[trace[i].action.decision.value.decisionId := trace[i].action] else decisions)
  {
    var a := trace[i].action;
    var next := if a.decision.Some? then decisions[a.decision.value.decisionId := a] else decisions;
    forall d | d in next ensures exists j: nat :: j < i + 1 && Decides(trace[j], d) {
      if a.decision.Some? && d == a.decision.value.decisionId {
        assert Decides(trace[i], d);
      } else {
        var j: nat :| j < i && Decides(trace[j], d);
      }
    }
  }

  lemma {:induction false} KeepAcceptance(trace: Trace, i: nat, accepted: map<Witness, Action>,
      decisions: map<string, Action>)
    requires i < |trace| && !trace[i].kind.ActionAccepted?
    requires AcceptedSeen(trace, i, accepted) && DecisionsSeen(trace, i, decisions)
    ensures AcceptedSeen(trace, i + 1, accepted) && DecisionsSeen(trace, i + 1, decisions)
  {
    forall w | w in accepted ensures exists j: nat :: j < i + 1 && Accepts(trace[j], w) {
      var j: nat :| j < i && Accepts(trace[j], w);
    }
    forall d | d in decisions ensures exists j: nat :: j < i + 1 && Decides(trace[j], d) {
      var j: nat :| j < i && Decides(trace[j], d);
    }
  }

  function Bump(terminals: map<Witness, nat>, e: Event): map<Witness, nat> {
    if !IsTerminalKind(e.kind) then terminals
    else terminals[e.action.witnessId := CountOrZero(terminals, e.action.witnessId) + 1]
  }

  function Collect(proofs: map<Witness, seq<Event>>, e: Event): map<Witness, seq<Event>> {
    if !e.kind.TransitionProved? then proofs
    else proofs[e.action.witnessId := ListOrEmpty(proofs, e.action.witnessId) + [e]]
  }

  lemma {:induction false} RememberTerminal(trace: Trace, i: nat, terminals: map<Witness, nat>,
      proofs: map<Witness, seq<Event>>)
    requires i < |trace| && TerminalsSeen(trace, i, terminals) && ProofsSeen(trace, i, proofs)
    ensures TerminalsSeen(trace, i + 1, Bump(terminals, trace[i]))
    ensures ProofsSeen(trace, i + 1, Collect(proofs, trace[i]))
  {
    assert trace[..i + 1][..i] == trace[..i];
    forall w ensures CountOrZero(Bump(terminals, trace[i]), w) == CountIf(trace[..i + 1], TerminalOf(w)) {
      assert CountOrZero(terminals, w) == CountIf(trace[..i], TerminalOf(w));
    }
    forall w ensures ListOrEmpty(Collect(proofs, trace[i]), w) == Filter(trace[..i + 1], ProofOf(w)) {
      assert ListOrEmpty(proofs, w) == Filter(trace[..i], ProofOf(w));
    }
  }

  /** A one-element filter names the only proof. */
  lemma {:induction false} OneProof(trace: Trace, w: Witness)
    ensures |Filter(trace, ProofOf(w))| == 0 <==> forall j: nat :: j < |trace| ==> !Proves(trace[j], w)
    ensures |Filter(trace, ProofOf(w))| == 1 <==>
              exists i: nat :: i < |trace| && OnlyProof(trace, w, i)
    ensures |Filter(trace, ProofOf(w))| == 1 ==>
              forall i: nat :: i < |trace| && OnlyProof(trace, w, i) ==> Filter(trace, ProofOf(w)) == [trace[i]]
  {
    if trace != [] {
      var n := |trace| - 1;
      var front := trace[..n];
      OneProof(front, w);
      assert forall j: nat :: j < n ==> front[j] == trace[j];
      if Proves(trace[n], w) {
        if |Filter(front, ProofOf(w))| == 0 {
          assert OnlyProof(trace, w, n);
        }
      } else if |Filter(front, ProofOf(w))| == 1 {
        var i: nat :| i < n && OnlyProof(front, w, i);
        assert OnlyProof(trace, w, i);
      } else {
        forall i: nat | i < |trace| ensures !OnlyProof(trace, w, i) {
          assert i < n ==> (OnlyProof(trace, w, i) ==> OnlyProof(front, w, i));
        }
      }
    }
  }

  ghost predicate OnlyProof(trace: Trace, w: Witness, i: nat)
    requires i < |trace|
  {
    Proves(trace[i], w) && forall j: nat :: j < |trace| && Proves(trace[j], w) ==> j == i
  }

  // ---- The verifier ----

  function KindIs(kind: EventKind): Event -> bool {
    (e: Event) => e.kind == kind
  }

  /** The counter of terminal kinds. */
  ghost predicate CountsKinds(trace: Trace, dispositions: map<EventKind, nat>) {
    forall kind :: IsTerminalKind(kind) ==>
      (if kind in dispositions then dispositions[kind] else 0) == CountIf(trace, KindIs(kind))
  }

  /** Counter: one more of this kind. */
  function CountOne(counts: map<EventKind, nat>, kind: EventKind): map<EventKind, nat> {
    counts[kind := (if kind in counts then counts[kind] else 0) + 1]
  }

  lemma {:induction false} CountKind(trace: Trace, i: nat, before: map<EventKind, nat>)
    requires i < |trace| && CountsKinds(trace[..i], before)
    ensures var kind := trace[i].kind;
            CountsKinds(trace[..i + 1], if IsTerminalKind(kind) then CountOne(before, kind) else before)
  {
    assert trace[..i + 1][..i] == trace[..i];
    var kind := trace[i].kind;
    var after := if IsTerminalKind(kind) then CountOne(before, kind) else before;
    forall k | IsTerminalKind(k)
      ensures (if k in after then after[k] else 0) == CountIf(trace[..i + 1], KindIs(k))
    {
      assert (if k in before then before[k] else 0) == CountIf(trace[..i], KindIs(k));
    }
  }

  /** The row check of the last loop. */
  predicate RowPasses(row: Row, seenIds: set<string>, proofs: map<Witness, seq<Event>>) {
    && row.wellFormed
    && row.transitionId !in seenIds
    && |ListOrEmpty(proofs, row.witnessId)| == 1
    && RowMatches(row, ListOrEmpty(proofs, row.witnessId)[0])
  }

  lemma {:induction false} RowPassesIffValid(trace: Trace, rows: seq<Row>, r: nat, seenIds: set<string>,
                                             proofs: map<Witness, seq<Event>>)
    requires r < |rows| && ProofsSeen(trace, |trace|, proofs)
    requires seenIds == set q | 0 <= q < r :: rows[q].transitionId
    ensures RowPasses(rows[r], seenIds, proofs) <==> RowValid(trace, rows, r)
  {
    var w := rows[r].witnessId;
    assert trace[..|trace|] == trace;
    assert ListOrEmpty(proofs, w) == Filter(trace, ProofOf(w));
    OneProof(trace, w);
    if RowPasses(rows[r], seenIds, proofs) {
      var i: nat :| i < |trace| && OnlyProof(trace, w, i);
      assert RowMatches(rows[r], trace[i]);
    }
    if RowValid(trace, rows, r) {
      var i: nat :| i < |trace| && RowMatches(rows[r], trace[i])
                    && forall j: nat :: j < |trace| && Proves(trace[j], w) ==> j == i;
      assert OnlyProof(trace, w, i);
    }
  }

  /** What the loop remembers of an event that passed. */
  method Remember(trace: Trace, i: nat, before: Seen) returns (seen: Seen)
    requires i < |trace| && Summarizes(trace, i, before) && Fresh(trace, i, before)
    ensures Summarizes(trace, i + 1, seen)
  {
    var e := trace[i];
    RememberTerminal(trace, i, before.terminals, before.proofs);
    seen := before.(terminals := Bump(before.terminals, e), proofs := Collect(before.proofs, e));
    if e.kind.ActionAccepted? {
      RememberAcceptance(trace, i, before.accepted);
      RememberDecision(trace, i, before.decisions);
      seen := seen.(accepted := before.accepted[e.action.witnessId := e.action]);
      if e.action.decision.Some? {
        seen := seen.(decisions := before.decisions[e.action.decision.value.decisionId := e.action]);
      }
    } else {
      KeepAcceptance(trace, i, before.accepted, before.decisions);
    }
  }

  method CountDisposition(trace: Trace, i: nat, before: map<EventKind, nat>) returns (dispositions: map<EventKind, nat>)
    requires i < |trace| && CountsKinds(trace[..i], before)
    ensures CountsKinds(trace[..i + 1], dispositions)
  {
    CountKind(trace, i, before);
    dispositions := before;
    if IsTerminalKind(trace[i].kind) {
      dispositions := CountOne(dispositions, trace[i].kind);
    }
  }

  ghost predicate ValidUpTo(version: Option<int>, trace: Trace, n: nat)
    requires n <= |trace|
  {
    forall j: nat :: j < n ==> EventValid(version, trace, j)
  }

  /** What Remember needs of an event that passed. */
  predicate Fresh(trace: Trace, i: nat, seen: Seen)
    requires i < |trace|
  {
    trace[i].kind.ActionAccepted? ==>
      && trace[i].action.witnessId !in seen.accepted
      && (trace[i].action.decision.Some? ==> trace[i].action.decision.value.decisionId !in seen.decisions)
  }

  /** The checks of one event. */
  method CheckEvent(version: Option<int>, trace: Trace, i: nat, seen: Seen) returns (ok: bool)
    requires i < |trace| && ValidUpTo(version, trace, i) && Summarizes(trace, i, seen)
    ensures ok ==> ValidUpTo(version, trace, i + 1) && Fresh(trace, i, seen)
    ensures !ok ==> !TraceValid(version, trace)
  {
    PassesIffValid(version, trace, i, seen);
    ok := Passes(version, trace, i, seen);
  }

  /** The loop over the events. */
  method VerifyTrace(version: Option<int>, trace: Trace)
    returns (ok: bool, seen: Seen, dispositions: map<EventKind, nat>)
    ensures ok <==> TraceValid(version, trace)
    ensures ok ==> Summarizes(trace, |trace|, seen) && CountsKinds(trace, dispositions)
  {
    ok, seen, dispositions := true, Seen(map[], map[], map[], map[]), map[];
    var i := 0;
    while i < |trace|
      invariant 0 <= i <= |trace| && ValidUpTo(version, trace, i)
      invariant Summarizes(trace, i, seen)
      invariant CountsKinds(trace[..i], dispositions)
    {
      ok := CheckEvent(version, trace, i, seen);
      if !ok {
        return;
      }
      dispositions := CountDisposition(trace, i, dispositions);
      seen := Remember(trace, i, seen);
      i := i + 1;
    }
    assert trace[..|trace|] == trace;
    ok := true;
  }

  /** _verify_references: accepts exactly the valid traces and rows, and counts the dispositions. */
  method VerifyReferences(version: Option<int>, trace: Trace, rows: seq<Row>)
    returns (ok: bool, dispositions: map<EventKind, nat>)
    ensures ok <==> ReferencesValid(version, trace, rows)
    ensures ok ==> CountsKinds(trace, dispositions)
  {
    var seen;
    ok, seen, dispositions := VerifyTrace(version, trace);
    if ok {
      ok := VerifyDispositions(trace, seen);
    }
    if ok {
      ok := VerifyRows(trace, rows, seen.proofs);
    }
  }

  method VerifyDispositions(trace: Trace, seen: Seen) returns (ok: bool)
    requires Summarizes(trace, |trace|, seen)
    ensures ok <==> ExactlyOneDisposition(trace)
  {
    assert trace[..|trace|] == trace;
    var todo := seen.accepted.Keys;
    while todo != {}
      invariant todo <= seen.accepted.Keys
      invariant forall w :: w in seen.accepted.Keys - todo ==> CountIf(trace, TerminalOf(w)) == 1
    {
      var w :| w in todo;
      if CountOrZero(seen.terminals, w) != 1 {
        var j: nat :| j < |trace| && Accepts(trace[j], w);
        return false;
      }
      todo := todo - {w};
    }
    ok := true;
  }

  method VerifyRows(trace: Trace, rows: seq<Row>, proofs: map<Witness, seq<Event>>) returns (ok: bool)
    requires ProofsSeen(trace, |trace|, proofs)
    ensures ok <==> RowsValid(trace, rows)
  {
    var seenIds: set<string> := {};
    for r := 0 to |rows|
      invariant seenIds == set q | 0 <= q < r :: rows[q].transitionId
      invariant forall q: nat :: q < r ==> RowValid(trace, rows, q)
    {
      RowPassesIffValid(trace, rows, r, seenIds, proofs);
      if !RowPasses(rows[r], seenIds, proofs) {
        return false;
      }
      seenIds := seenIds + {rows[r].transitionId};
    }
    ok := true;
  }
}
