/** What the policy command fence guarantees over every schedule: the recovery fence, and when
    and how often a superseded command can still be dispatched. */
module PolicyFenceSafety {
  import opened Prelude
  import opened PolicyLedger
  import opened PolicyFence

  // ---- The ledgers agree with the history ----

  ghost predicate LedgerAgrees(s: State) {
    s.ledger == Replay(ToCompletions(s.history))
  }

  lemma {:induction false} AppendCompletion(h: seq<Observation>, o: Observation)
    ensures Replay(ToCompletions(h + [o])) == Observe(Replay(ToCompletions(h)), o)
  {
    assert (h + [o])[..|h|] == h;
    var c := ToCompletions(h);
    match o {
      case Dispatch(_, _, _, _, _) =>
      case Ended(_, intent, _, run) =>
        assert (c + [EndedUnknown(run, intent)])[..|c|] == c;
      case Confirmed(_, intent, _, run) =>
        assert (c + [Recovered(run, intent)])[..|c|] == c;
    }
  }

  /** Membership in the completion list, read back as membership in the history. */
  lemma {:induction false} CompletionsOf(h: seq<Observation>)
    ensures forall run, u: nat :: EndedUnknown(run, u) in ToCompletions(h) <==> EndedIn(h, run, u)
    ensures forall run, v: nat :: Recovered(run, v) in ToCompletions(h) <==> ConfirmedIn(h, run, v)
  {
    if h != [] {
      var n := |h| - 1;
      CompletionsOf(h[..n]);
      assert h == h[..n] + [h[n]];
      assert forall o :: o in h <==> o in h[..n] || o == h[n];
      var c := ToCompletions(h[..n]);
      match h[n] {
        case Dispatch(_, _, _, _, _) => assert ToCompletions(h) == c;
        case Ended(_, intent, _, run) => assert ToCompletions(h) == c + [EndedUnknown(run, intent)];
        case Confirmed(_, intent, _, run) => assert ToCompletions(h) == c + [Recovered(run, intent)];
      }
    }
  }

  ghost predicate EndedIn(h: seq<Observation>, run: Run, u: nat) {
    exists o :: o in h && o.Ended? && o.run == run && o.intent == u
  }

  ghost predicate ConfirmedIn(h: seq<Observation>, run: Run, v: nat) {
    exists o :: o in h && o.Confirmed? && o.run == run && o.intent == v
  }

  /** A later recovery of the same run was confirmed. */
  ghost predicate Superseded(h: seq<Observation>, ended: Observation) {
    exists o :: o in h && o.Confirmed? && o.run == ended.run && o.intent > ended.intent
  }

  predicate ModelEnded(o: Observation, run: Run) {
    o.Ended? && !IsRecovery(o.command) && o.run == run
  }

  ghost predicate AllSuperseded(h: seq<Observation>, run: Run) {
    forall o :: o in h && ModelEnded(o, run) ==> Superseded(h, o)
  }

  lemma SupersededGrows(h: seq<Observation>, more: seq<Observation>, ended: Observation)
    requires Superseded(h, ended)
    ensures Superseded(h + more, ended)
  {
    var o :| o in h && o.Confirmed? && o.run == ended.run && o.intent > ended.intent;
    assert o in h + more;
  }

  ghost predicate RecoveriesConfirm(h: seq<Observation>) {
    forall o :: o in h && o.Confirmed? ==> IsRecovery(o.command)
  }

  /** HasUnknownCommand answered false, so every lost model mutation of the run was recovered. */
  lemma {:induction false} AllowedMeansSuperseded(s: State, run: Run)
    requires Invariant(s) && LedgerAgrees(s) && RecoveriesConfirm(s.history)
    requires !HasUnknown(s.ledger, run)
    ensures AllSuperseded(s.history, run)
  {
    var c := ToCompletions(s.history);
    CompletionsOf(s.history);
    forall x | x in c ensures x.intent > 0 {
      match x {
        case EndedUnknown(r, u) =>
          assert EndedIn(s.history, r, u);
          var o :| o in s.history && o.Ended? && o.run == r && o.intent == u;
          assert Owned(s, o);
        case Recovered(r, v) =>
          assert ConfirmedIn(s.history, r, v);
          var o :| o in s.history && o.Confirmed? && o.run == r && o.intent == v;
          assert Owned(s, o);
      }
    }
    UnknownIffOutstanding(c, run);
    forall o | o in s.history && ModelEnded(o, run) ensures Superseded(s.history, o) {
      assert EndedIn(s.history, run, o.intent);
      assert !NotRecovered(c, run, o.intent);
      var v: nat :| Recovered(run, v) in c && v >= o.intent;
      assert ConfirmedIn(s.history, run, v);
      var r :| r in s.history && r.Confirmed? && r.run == run && r.intent == v;
      assert Owned(s, o) && Owned(s, r);
    }
  }

  // ---- The recovery fence ----

  ghost predicate ClearedCallsSafe(s: State) {
    forall id :: id in s.calls && s.calls[id].pc.Cleared? && !IsRecovery(s.calls[id].command) ==>
      AllSuperseded(s.history, s.calls[id].run)
  }

  /** No model mutation is dispatched on a run with an unrecovered lost model mutation. */
  ghost predicate Fenced(h: seq<Observation>) {
    forall q :: 0 <= q < |h| && IsModelDispatch(h[q]) ==> AllSuperseded(h[..q], h[q].run)
  }

  ghost predicate RecoveryInvariant(s: State) {
    && Invariant(s) && LedgerAgrees(s) && RecoveriesConfirm(s.history)
    && ClearedCallsSafe(s) && Fenced(s.history)
  }

  /** What a step of a call may add, as far as recovery is concerned. */
  ghost predicate KeepsRecovery(unknown: bool, call: Invocation, e: Effect) {
    && (e.call.pc.Cleared? && !IsRecovery(call.command) ==> !unknown && e.seen == [])
    && (e.seen != [] && IsModelDispatch(e.seen[0]) ==> call.pc.Cleared? && !IsRecovery(call.command))
    && (e.seen != [] && e.seen[0].Confirmed? ==> IsRecovery(call.command))
    && (e.seen != [] && e.seen[0].Ended? && !IsRecovery(call.command) ==> HoldsSlot(call))
  }

  lemma MoveKeepsRecovery(generation: nat, slotTaken: bool, unknown: bool, id: Id, call: Invocation, answer: Answer)
    ensures KeepsRecovery(unknown, call, Move(generation, slotTaken, unknown, id, call, answer))
  {
  }

  lemma {:induction false} EffectKeepsConfirmed(s: State, id: Id, e: Effect)
    requires RecoveriesConfirm(s.history) && id in s.calls
    requires KeepsIdentity(s.generation, id, s.calls[id], e)
    requires KeepsRecovery(HasUnknown(s.ledger, s.calls[id].run), s.calls[id], e)
    ensures RecoveriesConfirm(Apply(s, id, e).history)
  {
  }

  lemma {:induction false} EffectKeepsFenced(s: State, id: Id, e: Effect)
    requires ClearedCallsSafe(s) && Fenced(s.history) && id in s.calls
    requires KeepsIdentity(s.generation, id, s.calls[id], e)
    requires KeepsRecovery(HasUnknown(s.ledger, s.calls[id].run), s.calls[id], e)
    ensures Fenced(Apply(s, id, e).history)
  {
    var h, t := s.history, Apply(s, id, e).history;
    assert t == h + e.seen;
    forall q | 0 <= q < |t| && IsModelDispatch(t[q]) ensures AllSuperseded(t[..q], t[q].run) {
      assert t[..q] == h[..q];
      if q == |h| {
        assert h[..q] == h;
      } else {
        assert t[q] == h[q];
      }
    }
  }

  lemma {:induction false} EffectKeepsCleared(s: State, id: Id, e: Effect)
    requires RecoveryInvariant(s) && id in s.calls
    requires KeepsIdentity(s.generation, id, s.calls[id], e)
    requires KeepsRecovery(HasUnknown(s.ledger, s.calls[id].run), s.calls[id], e)
    ensures ClearedCallsSafe(Apply(s, id, e))
  {
    var t := Apply(s, id, e);
    forall i | i in t.calls && t.calls[i].pc.Cleared? && !IsRecovery(t.calls[i].command)
      ensures AllSuperseded(t.history, t.calls[i].run)
    {
      if i == id {
        AllowedMeansSuperseded(s, t.calls[i].run);
        assert t.history == s.history;
      } else {
        OthersStayCleared(s, id, e, i);
      }
    }
  }

  lemma {:induction false} OthersStayCleared(s: State, id: Id, e: Effect, i: Id)
    requires RecoveryInvariant(s) && id in s.calls && i in s.calls && i != id
    requires KeepsIdentity(s.generation, id, s.calls[id], e)
    requires KeepsRecovery(HasUnknown(s.ledger, s.calls[id].run), s.calls[id], e)
    requires s.calls[i].pc.Cleared? && !IsRecovery(s.calls[i].command)
    ensures AllSuperseded(s.history + e.seen, s.calls[i].run)
  {
    var run := s.calls[i].run;
    assert HoldsSlot(s.calls[i]);
    forall o | o in s.history + e.seen && ModelEnded(o, run) ensures Superseded(s.history + e.seen, o) {
      if o in s.history {
        SupersededGrows(s.history, e.seen, o);
      }
    }
  }

  lemma {:induction false} EffectKeepsLedger(s: State, id: Id, e: Effect)
    requires LedgerAgrees(s) && |e.seen| <= 1
    ensures LedgerAgrees(Apply(s, id, e))
  {
    if e.seen == [] {
      assert s.history + e.seen == s.history;
    } else {
      assert e.seen == [e.seen[0]];
      AppendCompletion(s.history, e.seen[0]);
    }
  }

  lemma {:induction false} StepKeepsRecovery(s: State, a: Action)
    requires RecoveryInvariant(s)
    ensures RecoveryInvariant(Step(s, a))
  {
    StepKeepsInvariant(s, a);
    if a.Advance? && a.id in s.calls {
      AdvanceKeepsRecovery(s, a.id, a.answer);
    } else {
      assert Step(s, a).history == s.history && Step(s, a).ledger == s.ledger;
      assert ClearedCallsSafe(Step(s, a));
    }
  }

  lemma {:induction false} AdvanceKeepsRecovery(s: State, id: Id, answer: Answer)
    requires RecoveryInvariant(s) && id in s.calls
    ensures RecoveryInvariant(Apply(s, id, MoveIn(s, id, answer)))
  {
    AdvanceKeepsInvariant(s, id, answer);
    var call, e, unknown := s.calls[id], MoveIn(s, id, answer), HasUnknown(s.ledger, s.calls[id].run);
    MoveKeepsIdentity(s.generation, s.slotTaken, unknown, id, call, answer);
    MoveKeepsRecovery(s.generation, s.slotTaken, unknown, id, call, answer);
    RecoveryParts(s, id, e);
  }

  lemma {:induction false} RecoveryParts(s: State, id: Id, e: Effect)
    requires RecoveryInvariant(s) && id in s.calls && Invariant(Apply(s, id, e))
    requires KeepsIdentity(s.generation, id, s.calls[id], e)
    requires KeepsRecovery(HasUnknown(s.ledger, s.calls[id].run), s.calls[id], e)
    ensures RecoveryInvariant(Apply(s, id, e))
  {
    EffectKeepsLedger(s, id, e);
    EffectKeepsConfirmed(s, id, e);
    EffectKeepsFenced(s, id, e);
    EffectKeepsCleared(s, id, e);
  }

  lemma {:induction false} ReachableRecovery(actions: seq<Action>)
    ensures RecoveryInvariant(Execute(INITIAL, actions))
  {
    if actions != [] {
      ReachableRecovery(actions[..|actions| - 1]);
      StepKeepsRecovery(Execute(INITIAL, actions[..|actions| - 1]), actions[|actions| - 1]);
    }
  }

  /** After a model mutation of a run ends unknown, none is dispatched on that run
      until a recovery with a newer intent has been confirmed. */
  lemma {:induction false} NoDispatchBeforeRecovery(actions: seq<Action>, p: nat, q: nat)
    requires p < q < |Execute(INITIAL, actions).history|
    requires IsModelDispatch(Execute(INITIAL, actions).history[q])
    requires ModelEnded(Execute(INITIAL, actions).history[p], Execute(INITIAL, actions).history[q].run)
    ensures var h := Execute(INITIAL, actions).history;
            exists m: nat :: m < q && h[m].Confirmed? && h[m].run == h[q].run && h[m].intent > h[p].intent
  {
    ReachableRecovery(actions);
    var h := Execute(INITIAL, actions).history;
    assert h[p] in h[..q];
    var o :| o in h[..q] && o.Confirmed? && o.run == h[p].run && o.intent > h[p].intent;
    var m :| 0 <= m < q && h[..q][m] == o;
  }

  // ---- Superseded intents ----

  /** Model mutations dispatched with an intent older than `g`. */
  function OlderDispatches(h: seq<Observation>, g: nat): nat {
    if h == [] then 0
    else
      var last := h[|h| - 1];
      OlderDispatches(h[..|h| - 1], g) + if IsModelDispatch(last) && last.intent < g then 1 else 0
  }

  /** A model call that is past the fence with an intent older than `g` and not dispatched yet. */
  predicate MayStillDispatch(call: Invocation, g: nat) {
    !IsRecovery(call.command) && (call.pc.Current? || call.pc.Cleared?) && call.intent < g
  }

  ghost function Pending(s: State, g: nat): nat {
    if exists id :: id in s.calls && MayStillDispatch(s.calls[id], g) then 1 else 0
  }

  /** Per-call part of the potential argument. */
  ghost predicate KeepsOlder(generation: nat, call: Invocation, e: Effect) {
    && (forall g: nat :: g <= generation && MayStillDispatch(e.call, g) ==> MayStillDispatch(call, g) && e.seen == [])
    && (e.seen != [] && IsModelDispatch(e.seen[0]) ==>
          e.seen[0].intent == call.intent && call.pc.Cleared? && !IsRecovery(call.command))
  }

  lemma MoveKeepsOlder(generation: nat, slotTaken: bool, unknown: bool, id: Id, call: Invocation, answer: Answer)
    ensures KeepsOlder(generation, call, Move(generation, slotTaken, unknown, id, call, answer))
  {
  }

  lemma OneMoreOlder(h: seq<Observation>, o: Observation, g: nat)
    ensures OlderDispatches(h + [o], g) == OlderDispatches(h, g) + if IsModelDispatch(o) && o.intent < g then 1 else 0
  {
    assert (h + [o])[..|h|] == h;
  }

  /** No step makes a superseded call pending. */
  lemma {:induction false} PendingFalls(s: State, id: Id, e: Effect, g: nat)
    requires id in s.calls && g <= s.generation && KeepsOlder(s.generation, s.calls[id], e)
    ensures Pending(Apply(s, id, e), g) <= Pending(s, g)
  {
    var t := Apply(s, id, e);
    if Pending(t, g) == 1 {
      var i :| i in t.calls && MayStillDispatch(t.calls[i], g);
      assert i in s.calls && MayStillDispatch(s.calls[i], g);
    }
  }

  /** The late dispatch uses up the one pending call. */
  lemma {:induction false} PendingUsedUp(s: State, id: Id, e: Effect, g: nat)
    requires SlotExclusive(s) && id in s.calls && g <= s.generation && KeepsOlder(s.generation, s.calls[id], e)
    requires e.seen != [] && IsModelDispatch(e.seen[0]) && e.seen[0].intent < g
    ensures Pending(s, g) == 1 && Pending(Apply(s, id, e), g) == 0
  {
    var t := Apply(s, id, e);
    assert MayStillDispatch(s.calls[id], g) && HoldsSlot(s.calls[id]);
    forall i | i in t.calls ensures !MayStillDispatch(t.calls[i], g) {
      assert i in s.calls;
      assert i != id && MayStillDispatch(s.calls[i], g) ==> HoldsSlot(s.calls[i]);
    }
  }

  lemma {:induction false} EffectKeepsOlder(s: State, id: Id, e: Effect, g: nat)
    requires SlotExclusive(s) && id in s.calls && g <= s.generation && |e.seen| <= 1
    requires KeepsOlder(s.generation, s.calls[id], e)
    ensures OlderDispatches(Apply(s, id, e).history, g) + Pending(Apply(s, id, e), g)
         <= OlderDispatches(s.history, g) + Pending(s, g)
  {
    PendingFalls(s, id, e, g);
    if e.seen == [] {
      assert Apply(s, id, e).history == s.history;
    } else {
      assert e.seen == [e.seen[0]];
      OneMoreOlder(s.history, e.seen[0], g);
      if IsModelDispatch(e.seen[0]) && e.seen[0].intent < g {
        PendingUsedUp(s, id, e, g);
      }
    }
  }

  lemma {:induction false} StepKeepsOlder(s: State, a: Action, g: nat)
    requires Invariant(s) && g <= s.generation
    ensures g <= Step(s, a).generation
    ensures OlderDispatches(Step(s, a).history, g) + Pending(Step(s, a), g)
         <= OlderDispatches(s.history, g) + Pending(s, g)
  {
    var t := Step(s, a);
    if a.Advance? && a.id in s.calls {
      var call, unknown := s.calls[a.id], HasUnknown(s.ledger, s.calls[a.id].run);
      MoveKeepsIdentity(s.generation, s.slotTaken, unknown, a.id, call, a.answer);
      MoveKeepsOlder(s.generation, s.slotTaken, unknown, a.id, call, a.answer);
      EffectKeepsOlder(s, a.id, MoveIn(s, a.id, a.answer), g);
    } else if Pending(t, g) == 1 {
      var i :| i in t.calls && MayStillDispatch(t.calls[i], g);
      assert i in s.calls && MayStillDispatch(s.calls[i], g);
    }
  }

  lemma {:induction false} RunKeepsOlder(s: State, actions: seq<Action>, g: nat)
    requires Invariant(s) && g <= s.generation
    ensures Invariant(Execute(s, actions)) && g <= Execute(s, actions).generation
    ensures OlderDispatches(Execute(s, actions).history, g) + Pending(Execute(s, actions), g)
         <= OlderDispatches(s.history, g) + Pending(s, g)
  {
    if actions != [] {
      var n := |actions| - 1;
      RunKeepsOlder(s, actions[..n], g);
      StepKeepsInvariant(Execute(s, actions[..n]), actions[n]);
      StepKeepsOlder(Execute(s, actions[..n]), actions[n], g);
    }
  }

  /** Once the newest intent is `g`, at most one older model mutation is ever dispatched afterwards. */
  lemma {:induction false} AtMostOneOlderDispatch(before: seq<Action>, after: seq<Action>)
    ensures var s := Execute(INITIAL, before);
            OlderDispatches(Execute(s, after).history, s.generation) <= OlderDispatches(s.history, s.generation) + 1
  {
    ReachableInvariant(before);
    var s := Execute(INITIAL, before);
    RunKeepsOlder(s, after, s.generation);
  }

  // ---- When a superseded command can still be dispatched ----

  /** A lost intent of a run is not newer than the newest intent. */
  lemma {:induction false} UnknownNotNewer(s: State, run: Run)
    requires RecoveryInvariant(s) && HasUnknown(s.ledger, run)
    ensures s.ledger.unknown[run] <= s.generation
  {
    var c := ToCompletions(s.history);
    CompletionsOf(s.history);
    forall x | x in c ensures x.intent > 0 {
      CompletionOwned(s, x);
    }
    UnknownIffOutstanding(c, run);
    CompletionOwned(s, EndedUnknown(run, s.ledger.unknown[run]));
  }

  lemma {:induction false} CompletionOwned(s: State, x: Completion)
    requires Invariant(s) && x in ToCompletions(s.history)
    ensures 0 < x.intent <= s.generation
  {
    CompletionsOf(s.history);
    match x {
      case EndedUnknown(r, u) =>
        assert EndedIn(s.history, r, u);
        var o :| o in s.history && o.Ended? && o.run == r && o.intent == u;
        assert Owned(s, o) && IntentFits(s, o.id);
      case Recovered(r, v) =>
        assert ConfirmedIn(s.history, r, v);
        var o :| o in s.history && o.Confirmed? && o.run == r && o.intent == v;
        assert Owned(s, o) && IntentFits(s, o.id);
    }
  }

  lemma {:induction false} UnusedId(calls: set<Id>) returns (id: Id)
    ensures forall i :: i in calls ==> i < id
  {
    if calls == {} {
      id := 0;
    } else {
      var i :| i in calls;
      id := UnusedId(calls - {i});
      id := if id <= i then i + 1 else id;
      assert forall j :: j in calls ==> j == i || j in calls - {i};
    }
  }

  /** A Human command that runs alone from `s`, at `pc`. */
  function HumanAt(s: State, id: Id, run: Run, pc: Pc): State {
    var intent := s.generation + 1;
    s.(generation := intent, calls := s.calls[id := Invocation(Human, run, intent, pc)])
  }

  lemma {:induction false} HumanReady(s: State, id: Id, run: Run) returns (actions: seq<Action>)
    requires id !in s.calls
    ensures Execute(s, actions) == HumanAt(s, id, run, Ready(SetMode))
  {
    actions := [Begin(id, Human, run)];
    ExecuteMore(s, [], Begin(id, Human, run));
    assert [] + actions == actions;
    assert Execute(s, []) == s;
    ExecuteMore(s, actions, Advance(id, Succeeds));
    actions := actions + [Advance(id, Succeeds)];
    var intent := s.generation + 1;
    assert Execute(s, actions).calls == s.calls[id := Invocation(Human, run, intent, Ready(SetMode))];
    assert Execute(s, actions).history == s.history;
  }

  lemma {:induction false} HumanCleared(s: State, id: Id, run: Run) returns (actions: seq<Action>)
    requires id !in s.calls
    ensures Execute(s, actions) == HumanAt(s, id, run, Cleared(SetMode))
  {
    actions := HumanReady(s, id, run);
    var pcs := [Ready(SetMode), Inside(SetMode), Current(SetMode), Cleared(SetMode)];
    var k := 0;
    while k < 3
      invariant 0 <= k <= 3 && Execute(s, actions) == HumanAt(s, id, run, pcs[k])
    {
      ExecuteMore(s, actions, Advance(id, Succeeds));
      HumanMoves(s, id, run, pcs[k], pcs[k + 1]);
      actions := actions + [Advance(id, Succeeds)];
      k := k + 1;
    }
  }

  /** One step of the Human command that shows nothing outside. */
  lemma {:induction false} HumanMoves(s: State, id: Id, run: Run, pc: Pc, next: Pc)
    requires (pc, next) in {(Ready(SetMode), Inside(SetMode)), (Inside(SetMode), Current(SetMode)),
                            (Current(SetMode), Cleared(SetMode))}
    ensures Step(HumanAt(s, id, run, pc), Advance(id, Succeeds)) == HumanAt(s, id, run, next)
  {
    var t := Step(HumanAt(s, id, run, pc), Advance(id, Succeeds));
    assert t.calls == HumanAt(s, id, run, next).calls && t.history == s.history + [];
  }

  function HumanDispatch(s: State, id: Id, run: Run): Observation {
    Dispatch(id, s.generation + 1, Human, run, SetMode)
  }

  function HumanConfirmed(s: State, id: Id, run: Run): Observation {
    Confirmed(id, s.generation + 1, Human, run)
  }

  function HumanFlying(s: State, id: Id, run: Run): State {
    HumanAt(s, id, run, InFlight(SetMode)).(history := s.history + [HumanDispatch(s, id, run)])
  }

  lemma {:induction false} HumanFlies(s: State, id: Id, run: Run)
    ensures Step(HumanAt(s, id, run, Cleared(SetMode)), Advance(id, Succeeds)) == HumanFlying(s, id, run)
  {
    var t := Step(HumanAt(s, id, run, Cleared(SetMode)), Advance(id, Succeeds));
    assert t.calls == HumanFlying(s, id, run).calls;
  }

  /** The run is recovered, everybody else is where they were. */
  ghost predicate RecoveredRun(s: State, t: State, id: Id, run: Run) {
    && !HasUnknown(t.ledger, run)
    && (forall i :: i in s.calls ==> i in t.calls && t.calls[i] == s.calls[i])
    && t.history == s.history + [HumanDispatch(s, id, run), HumanConfirmed(s, id, run)]
  }

  lemma {:induction false} HumanLands(s: State, id: Id, run: Run)
    requires id !in s.calls && (HasUnknown(s.ledger, run) ==> s.ledger.unknown[run] <= s.generation)
    ensures RecoveredRun(s, Step(HumanFlying(s, id, run), Advance(id, Succeeds)), id, run)
  {
    var t := Step(HumanFlying(s, id, run), Advance(id, Succeeds));
    assert t.history == s.history + [HumanDispatch(s, id, run)] + [HumanConfirmed(s, id, run)];
  }

  /** From any reachable state a Human command can run to its confirmation. */
  lemma {:induction false} HumanConfirms(s: State, id: Id, run: Run) returns (actions: seq<Action>)
    requires RecoveryInvariant(s) && id !in s.calls
    ensures RecoveredRun(s, Execute(s, actions), id, run)
  {
    if HasUnknown(s.ledger, run) {
      UnknownNotNewer(s, run);
    }
    actions := HumanCleared(s, id, run);
    ExecuteMore(s, actions, Advance(id, Succeeds));
    HumanFlies(s, id, run);
    actions := actions + [Advance(id, Succeeds)];
    ExecuteMore(s, actions, Advance(id, Succeeds));
    HumanLands(s, id, run);
    actions := actions + [Advance(id, Succeeds)];
  }

  /** A call past EnsureCurrent whose run is not unknown is at most two steps from its dispatch. */
  lemma {:induction false} PendingDispatches(s: State, actions: seq<Action>, id: Id) returns (more: seq<Action>)
    requires var t := Execute(s, actions);
             && id in t.calls && (t.calls[id].pc.Current? || t.calls[id].pc.Cleared?)
             && !HasUnknown(t.ledger, t.calls[id].run)
    ensures var t, call := Execute(s, actions), Execute(s, actions).calls[id];
            Execute(s, more).history == t.history + [Dispatch(id, call.intent, call.command, call.run, call.pc.phase)]
  {
    more := actions;
    if Execute(s, actions).calls[id].pc.Current? {
      ExecuteMore(s, more, Advance(id, Succeeds));
      more := more + [Advance(id, Succeeds)];
      assert Execute(s, more).history == Execute(s, actions).history + [];
    }
    ExecuteMore(s, more, Advance(id, Succeeds));
    more := more + [Advance(id, Succeeds)];
  }

  /** First a newer recovery of the call's own run is dispatched and confirmed, then the call itself
      is dispatched. */
  ghost function LateHistory(s: State, id: Id, human: Id): seq<Observation>
    requires id in s.calls && MayStillDispatch(s.calls[id], s.generation)
  {
    var call := s.calls[id];
    s.history + [HumanDispatch(s, human, call.run), HumanConfirmed(s, human, call.run)]
    + [Dispatch(id, call.intent, call.command, call.run, call.pc.phase)]
  }

  /** Every superseded call past the fence can still be dispatched, even after a newer recovery of
      its own run has been confirmed. */
  lemma {:induction false} LateDispatchAfterRecovery(s: State, id: Id) returns (after: seq<Action>, human: Id)
    requires RecoveryInvariant(s) && id in s.calls && MayStillDispatch(s.calls[id], s.generation)
    ensures Execute(s, after).history == LateHistory(s, id, human)
  {
    human := UnusedId(s.calls.Keys);
    after := HumanConfirms(s, human, s.calls[id].run);
    after := PendingDispatches(s, after, id);
  }

  lemma {:induction false} QuietPair(h: seq<Observation>, a: Observation, b: Observation, g: nat)
    requires !IsModelDispatch(a) && !IsModelDispatch(b)
    ensures OlderDispatches(h + [a, b], g) == OlderDispatches(h, g)
  {
    OneMoreOlder(h, a, g);
    OneMoreOlder(h + [a], b, g);
    assert h + [a, b] == h + [a] + [b];
  }

  lemma {:induction false} LateHistoryCounts(s: State, id: Id, human: Id)
    requires id in s.calls && MayStillDispatch(s.calls[id], s.generation)
    ensures OlderDispatches(LateHistory(s, id, human), s.generation) == OlderDispatches(s.history, s.generation) + 1
  {
    var g, call := s.generation, s.calls[id];
    var sent, done := HumanDispatch(s, human, call.run), HumanConfirmed(s, human, call.run);
    QuietPair(s.history, sent, done, g);
    OneMoreOlder(s.history + [sent, done], Dispatch(id, call.intent, call.command, call.run, call.pc.phase), g);
  }

  ghost predicate LateDispatch(s: State, after: seq<Action>) {
    OlderDispatches(Execute(s, after).history, s.generation) > OlderDispatches(s.history, s.generation)
  }

  /** A superseded model command can still be dispatched exactly when one is already past EnsureCurrent. */
  lemma {:induction false} LateDispatchIff(before: seq<Action>)
    ensures var s := Execute(INITIAL, before);
            (exists after :: LateDispatch(s, after))
            <==> (exists id :: id in s.calls && MayStillDispatch(s.calls[id], s.generation))
  {
    var s := Execute(INITIAL, before);
    ReachableRecovery(before);
    if after :| LateDispatch(s, after) {
      RunKeepsOlder(s, after, s.generation);
    }
    if id :| id in s.calls && MayStillDispatch(s.calls[id], s.generation) {
      var after, human := LateDispatchAfterRecovery(s, id);
      LateHistoryCounts(s, id, human);
      assert LateDispatch(s, after);
    }
  }
}
