/** A OneStep command sends one mode change and at most one tick, and nothing
    model-driven comes between them. */
module PolicyOneStep {
  import opened Prelude
  import opened PolicyLedger
  import opened PolicyFence

  /** The phase the call is about to dispatch, if it has entered SendAsync. */
  function Upcoming(call: Invocation): Option<Phase> {
    match call.pc
    case Ready(phase) => Some(phase)
    case Inside(phase) => Some(phase)
    case Current(phase) => Some(phase)
    case Cleared(phase) => Some(phase)
    case Leaving(next) => next
    case _ => Option<Phase>.None
  }

  function Sent(call: Invocation): Option<Phase> {
    match call.pc
    case InFlight(phase) => Some(phase)
    case Answered(phase) => Some(phase)
    case _ => Option<Phase>.None
  }

  predicate PhaseFits(command: Command, phase: Phase) {
    phase == FirstPhase(command) || (command.OneStep? && phase.SendTick?)
  }

  predicate BeforeSending(call: Invocation) {
    call.pc.Admitted? || call.pc.Taken? || call.pc.Preparing? || call.pc.Prepared?
  }

  ghost predicate PcFits(call: Invocation) {
    && (Upcoming(call).Some? ==> PhaseFits(call.command, Upcoming(call).value))
    && (Sent(call).Some? ==> PhaseFits(call.command, Sent(call).value))
    && (call.pc.Leaving? && call.pc.next.Some? ==> call.pc.next.value.SendTick? && call.command.OneStep?)
  }

  /** The call is at a point of a OneStep that lies after its mode change. */
  predicate AfterMode(call: Invocation) {
    call.command.OneStep? && (Upcoming(call) == Some(SendTick) || Sent(call).Some?)
  }

  /** A dispatch of `phase` already made is consistent with the call's program counter. */
  ghost predicate Consistent(call: Invocation, phase: Phase) {
    && !BeforeSending(call)
    && (Upcoming(call).Some? ==> call.command.OneStep? && phase.SetMode? && Upcoming(call).value.SendTick?)
    && (Sent(call) == Some(SetMode) ==> phase.SetMode?)
  }

  ghost predicate ModeSent(h: seq<Observation>, intent: nat) {
    exists o :: o in h && o.Dispatch? && o.intent == intent && o.phase.SetMode?
  }

  /** Two dispatches of one intent are the mode and then the tick of a OneStep. */
  ghost predicate ModeThenTick(h: seq<Observation>) {
    forall p, q :: 0 <= p < q < |h| && h[p].Dispatch? && h[q].Dispatch? && h[p].intent == h[q].intent ==>
      h[p].phase.SetMode? && h[q].phase.SendTick? && h[q].command.OneStep?
  }

  ghost predicate TickAfterMode(h: seq<Observation>) {
    forall q :: 0 <= q < |h| && h[q].Dispatch? && h[q].command.OneStep? && h[q].phase.SendTick? ==>
      ModeSent(h[..q], h[q].intent)
  }

  ghost predicate Bracketed(s: State) {
    && (forall id :: id in s.calls ==> PcFits(s.calls[id]))
    && (forall o :: o in s.history && o.Dispatch? && o.id in s.calls ==> Consistent(s.calls[o.id], o.phase))
    && (forall id :: id in s.calls && AfterMode(s.calls[id]) ==> ModeSent(s.history, s.calls[id].intent))
    && ModeThenTick(s.history)
    && TickAfterMode(s.history)
  }

  /** A step keeps the call's program counter consistent with what was dispatched before. */
  ghost predicate KeepsPhases(call: Invocation, e: Effect) {
    && PcFits(e.call)
    && (forall phase :: Consistent(call, phase) ==> Consistent(e.call, phase))
  }

  /** A dispatch is consistent with the call's program counter and with its earlier dispatches. */
  ghost predicate SendsInOrder(call: Invocation, e: Effect) {
    e.seen != [] && e.seen[0].Dispatch? ==>
      && Consistent(e.call, e.seen[0].phase)
      && (e.seen[0].phase.SendTick? && call.command.OneStep? ==> AfterMode(call))
      && (forall phase :: Consistent(call, phase) ==>
            phase.SetMode? && e.seen[0].phase.SendTick? && call.command.OneStep?)
  }

  /** A call gets past its mode change only by dispatching it. */
  ghost predicate ReachesTick(call: Invocation, e: Effect) {
    AfterMode(e.call) ==> AfterMode(call) || (e.seen != [] && e.seen[0].Dispatch? && e.seen[0].phase.SetMode?)
  }

  ghost predicate KeepsBracket(call: Invocation, e: Effect) {
    KeepsPhases(call, e) && SendsInOrder(call, e) && ReachesTick(call, e)
  }

  lemma MoveKeepsPhases(generation: nat, slotTaken: bool, unknown: bool, id: Id, call: Invocation, answer: Answer)
    requires PcFits(call)
    ensures KeepsPhases(call, Move(generation, slotTaken, unknown, id, call, answer))
  {
  }

  lemma MoveSendsInOrder(generation: nat, slotTaken: bool, unknown: bool, id: Id, call: Invocation, answer: Answer)
    requires PcFits(call)
    ensures SendsInOrder(call, Move(generation, slotTaken, unknown, id, call, answer))
  {
  }

  lemma MoveReachesTick(generation: nat, slotTaken: bool, unknown: bool, id: Id, call: Invocation, answer: Answer)
    requires PcFits(call)
    ensures ReachesTick(call, Move(generation, slotTaken, unknown, id, call, answer))
  {
  }

  lemma MoveKeepsBracket(generation: nat, slotTaken: bool, unknown: bool, id: Id, call: Invocation, answer: Answer)
    requires PcFits(call)
    ensures KeepsBracket(call, Move(generation, slotTaken, unknown, id, call, answer))
  {
    MoveKeepsPhases(generation, slotTaken, unknown, id, call, answer);
    MoveSendsInOrder(generation, slotTaken, unknown, id, call, answer);
    MoveReachesTick(generation, slotTaken, unknown, id, call, answer);
  }

  lemma ModeSentGrows(h: seq<Observation>, more: seq<Observation>, intent: nat)
    requires ModeSent(h, intent)
    ensures ModeSent(h + more, intent)
  {
    var o :| o in h && o.Dispatch? && o.intent == intent && o.phase.SetMode?;
    assert o in h + more;
  }

  lemma {:induction false} EffectKeepsCalls(s: State, id: Id, e: Effect)
    requires IntentsIdentify(s) && Bracketed(s) && id in s.calls
    requires KeepsIdentity(s.generation, id, s.calls[id], e) && KeepsBracket(s.calls[id], e)
    ensures var t := Apply(s, id, e);
            && (forall i :: i in t.calls ==> PcFits(t.calls[i]))
            && (forall o :: o in t.history && o.Dispatch? && o.id in t.calls ==> Consistent(t.calls[o.id], o.phase))
            && (forall i :: i in t.calls && AfterMode(t.calls[i]) ==> ModeSent(t.history, t.calls[i].intent))
  {
    var t := Apply(s, id, e);
    forall o | o in t.history && o.Dispatch? && o.id in t.calls ensures Consistent(t.calls[o.id], o.phase) {
      assert o in s.history || (e.seen != [] && o == e.seen[0]);
    }
    forall i | i in t.calls && AfterMode(t.calls[i]) ensures ModeSent(t.history, t.calls[i].intent) {
      if i != id || AfterMode(s.calls[i]) {
        assert !t.calls[i].pc.Admitted? && t.calls[i].intent == s.calls[i].intent;
        ModeSentGrows(s.history, e.seen, t.calls[i].intent);
      } else {
        assert e.seen[0] in t.history;
      }
    }
  }

  lemma {:induction false} EffectKeepsHistory(s: State, id: Id, e: Effect)
    requires IntentsIdentify(s) && Bracketed(s) && id in s.calls
    requires KeepsIdentity(s.generation, id, s.calls[id], e) && KeepsBracket(s.calls[id], e)
    ensures ModeThenTick(Apply(s, id, e).history) && TickAfterMode(Apply(s, id, e).history)
  {
    var h, t := s.history, Apply(s, id, e).history;
    forall p, q | 0 <= p < q < |t| && t[p].Dispatch? && t[q].Dispatch? && t[p].intent == t[q].intent
      ensures t[p].phase.SetMode? && t[q].phase.SendTick? && t[q].command.OneStep?
    {
      assert t[p] == h[p] && h[p] in h && Owned(s, h[p]);
      if q < |h| {
        assert t[q] == h[q];
      } else {
        assert t[q] == e.seen[0];
        assert h[p].id == id;
      }
    }
    forall q | 0 <= q < |t| && t[q].Dispatch? && t[q].command.OneStep? && t[q].phase.SendTick?
      ensures ModeSent(t[..q], t[q].intent)
    {
      assert t[..q] == h[..q];
      if q == |h| {
        assert h[..q] == h;
      }
    }
  }

  lemma {:induction false} StepKeepsBracket(s: State, a: Action)
    requires Invariant(s) && Bracketed(s)
    ensures Bracketed(Step(s, a))
  {
    if a.Advance? && a.id in s.calls {
      var call, unknown := s.calls[a.id], HasUnknown(s.ledger, s.calls[a.id].run);
      MoveKeepsIdentity(s.generation, s.slotTaken, unknown, a.id, call, a.answer);
      MoveKeepsBracket(s.generation, s.slotTaken, unknown, a.id, call, a.answer);
      EffectKeepsCalls(s, a.id, MoveIn(s, a.id, a.answer));
      EffectKeepsHistory(s, a.id, MoveIn(s, a.id, a.answer));
    } else {
      var t := Step(s, a);
      assert t.history == s.history;
      forall o | o in t.history && o.Dispatch? && o.id in t.calls ensures Consistent(t.calls[o.id], o.phase) {
        assert Owned(s, o);
      }
    }
  }

  lemma {:induction false} ReachableBracket(actions: seq<Action>)
    ensures Invariant(Execute(INITIAL, actions)) && Bracketed(Execute(INITIAL, actions))
  {
    ReachableInvariant(actions);
    if actions != [] {
      ReachableBracket(actions[..|actions| - 1]);
      StepKeepsBracket(Execute(INITIAL, actions[..|actions| - 1]), actions[|actions| - 1]);
    }
  }

  /** The tick of a OneStep follows its own mode change with no model mutation in between. */
  lemma {:induction false} OneStepUninterrupted(actions: seq<Action>, q: nat)
    requires q < |Execute(INITIAL, actions).history|
    requires var o := Execute(INITIAL, actions).history[q]; o.Dispatch? && o.command.OneStep? && o.phase.SendTick?
    ensures var h := Execute(INITIAL, actions).history;
            exists p: nat :: p < q && h[p].Dispatch? && h[p].id == h[q].id && h[p].phase.SetMode?
                             && forall m :: p < m < q ==> !IsModelDispatch(h[m])
  {
    ReachableBracket(actions);
    var s := Execute(INITIAL, actions);
    var h := s.history;
    var o :| o in h[..q] && o.Dispatch? && o.intent == h[q].intent && o.phase.SetMode?;
    var p :| 0 <= p < q && h[p] == o;
    assert Owned(s, h[p]) && Owned(s, h[q]);
    assert h[p].id == h[q].id;
    assert IsModelDispatch(h[p]) && IsModelDispatch(h[q]);
  }

  // ---- What does not hold ----

  function At(command: Command, pc: Pc): Invocation {
    Invocation(command, "run", if pc.Admitted? then 0 else if command.Auto? then 1 else 2, pc)
  }

  /** An Auto command that has passed both fences and is about to call its delegate. */
  lemma {:induction false} AutoCleared() returns (actions: seq<Action>)
    ensures Execute(INITIAL, actions) == State(1, true, EMPTY, map[0 := At(Auto, Cleared(SetMode))], [])
  {
    actions := [Begin(0, Auto, "run")];
    ExecuteMore(INITIAL, [], Begin(0, Auto, "run"));
    assert [] + actions == actions;
    var pcs := [Admitted, Taken, Preparing, Prepared, Ready(SetMode), Inside(SetMode), Current(SetMode),
        Cleared(SetMode)];
    var k := 0;
    while k < 7
      invariant 0 <= k <= 7
      invariant Execute(INITIAL, actions)
             == State(if k == 0 then 0 else 1, k >= 5, EMPTY, map[0 := At(Auto, pcs[k])], [])
    {
      ExecuteMore(INITIAL, actions, Advance(0, Succeeds));
      actions := actions + [Advance(0, Succeeds)];
      k := k + 1;
    }
  }

  /** A Human command arrives meanwhile, and as a recovery it bypasses the slot. */
  lemma {:induction false} BothCleared() returns (actions: seq<Action>)
    ensures Execute(INITIAL, actions)
         == State(2, true, EMPTY, map[0 := At(Auto, Cleared(SetMode)), 1 := At(Human, Cleared(SetMode))], [])
  {
    actions := AutoCleared();
    ExecuteMore(INITIAL, actions, Begin(1, Human, "run"));
    actions := actions + [Begin(1, Human, "run")];
    var pcs := [Admitted, Ready(SetMode), Inside(SetMode), Current(SetMode), Cleared(SetMode)];
    var k := 0;
    while k < 4
      invariant 0 <= k <= 4
      invariant Execute(INITIAL, actions)
             == State(if k == 0 then 1 else 2, true, EMPTY,
                      map[0 := At(Auto, Cleared(SetMode)), 1 := At(Human, pcs[k])], [])
    {
      ExecuteMore(INITIAL, actions, Advance(1, Succeeds));
      actions := actions + [Advance(1, Succeeds)];
      k := k + 1;
    }
  }

  /** EnsureCurrent and the delegate call are separate steps: a superseded model command can
      still be dispatched, even after the recovery that superseded it has been confirmed. Intent
      order is therefore a law of model dispatches only, and the bound of one late dispatch is tight. */
  lemma {:induction false} SupersededDispatchIsPossible() returns (actions: seq<Action>)
    ensures var s := Execute(INITIAL, actions);
            && s.generation == 2
            && s.history == [Dispatch(1, 2, Human, "run", SetMode), Confirmed(1, 2, Human, "run"),
                             Dispatch(0, 1, Auto, "run", SetMode)]
  {
    actions := BothCleared();
    ExecuteMore(INITIAL, actions, Advance(1, Succeeds));
    actions := actions + [Advance(1, Succeeds)];
    ExecuteMore(INITIAL, actions, Advance(1, Succeeds));
    actions := actions + [Advance(1, Succeeds)];
    ExecuteMore(INITIAL, actions, Advance(0, Succeeds));
    actions := actions + [Advance(0, Succeeds)];
  }
}
