/** PlatformPolicyCommands as interleaved steps.

    Every RunAsync call is an invocation with its own program counter. One step of the
    machine runs one invocation up to its next await or shared-memory access, so every
    schedule of the calls, every HTTP answer and every cancellation is some sequence of
    steps. `history` records what the outside world can see, in order. */
module PolicyFence {
  import opened Prelude
  import opened PolicyLedger

  type Id = nat

  datatype Command = Human | Shadow | OneStep | Auto | Stop | Tick

  /** The three delegates that mutate the Runtime. */
  datatype Phase = SetMode | SendTick | SendStop

  predicate IsRecovery(command: Command) {
    command.Human? || command.Stop?
  }

  function FirstPhase(command: Command): Phase {
    match command
    case Tick => SendTick
    case Stop => SendStop
    case _ => SetMode
  }

  datatype Pc =
    | Admitted              // EnsureAllowed passed; no intent number yet
    | Taken                 // intent number taken; prepareModel not yet called
    | Preparing             // prepareModel awaited
    | Prepared              // prepareModel done; the second EnsureCurrent is next
    | Ready(phase: Phase)   // at the entry of SendAsync
    | Inside(phase: Phase)  // in the try block; EnsureCurrent is next
    | Current(phase: Phase) // EnsureCurrent passed; EnsureAllowed is next
    | Cleared(phase: Phase) // both fences passed; mutation() is next
    | InFlight(phase: Phase)
    | Answered(phase: Phase)  // the answer is recorded; the last EnsureCurrent is next
    | Leaving(next: Option<Phase>) // in the finally block
    | Done

  datatype Invocation = Invocation(command: Command, run: Run, intent: nat, pc: Pc)

  datatype Observation =
    | Dispatch(id: Id, intent: nat, command: Command, run: Run, phase: Phase)
    | Ended(id: Id, intent: nat, command: Command, run: Run)
    | Confirmed(id: Id, intent: nat, command: Command, run: Run)

  datatype State = State(
    generation: nat,
    slotTaken: bool,
    ledger: Ledger,
    calls: map<Id, Invocation>,
    history: seq<Observation>)

  const INITIAL := State(0, false, EMPTY, map[], [])

  /** How the environment resolves the awaited operation of a step. */
  datatype Answer = Succeeds | Cancels | Fails | EndsUnknown

  datatype Action =
    | Begin(id: Id, command: Command, run: Run)
    | Invalidate
    | Advance(id: Id, answer: Answer)

  /** What one step of an invocation changes. */
  datatype Effect = Effect(call: Invocation, generation: nat, slotTaken: bool, seen: seq<Observation>)

  /** EnsureCurrent. */
  predicate IsCurrent(generation: nat, intent: nat, answer: Answer) {
    !answer.Cancels? && intent == generation
  }

  /** One step of RunAsync/SendAsync, given the shared state it reads. */
  function Move(generation: nat, slotTaken: bool, unknown: bool, id: Id, call: Invocation, answer: Answer): Effect {
    var recovery := IsRecovery(call.command);
    var current := IsCurrent(generation, call.intent, answer);
    match call.pc
    case Admitted =>
      var next := if recovery then Ready(FirstPhase(call.command)) else Taken;
      Effect(call.(pc := next, intent := generation + 1), generation + 1, slotTaken, [])
    case Taken =>
      Effect(call.(pc := if current then Preparing else Done), generation, slotTaken, [])
    case Preparing =>
      Effect(call.(pc := if answer.Succeeds? then Prepared else Done), generation, slotTaken, [])
    case Prepared =>
      Effect(call.(pc := if current then Ready(FirstPhase(call.command)) else Done), generation, slotTaken, [])
    case Ready(phase) =>
      if recovery then Effect(call.(pc := Inside(phase)), generation, slotTaken, [])
      else if answer.Cancels? then Effect(call.(pc := Done), generation, slotTaken, [])
      else if slotTaken then Effect(call, generation, slotTaken, [])
      else Effect(call.(pc := Inside(phase)), generation, true, [])
    case Inside(phase) =>
      Effect(call.(pc := if current then Current(phase) else Leaving(None)), generation, slotTaken, [])
    case Current(phase) =>
      Effect(call.(pc := if recovery || !unknown then Cleared(phase) else Leaving(None)), generation, slotTaken, [])
    case Cleared(phase) =>
      Effect(call.(pc := InFlight(phase)), generation, slotTaken,
             [Dispatch(id, call.intent, call.command, call.run, phase)])
    case InFlight(phase) =>
      (match answer
       case Succeeds =>
         Effect(call.(pc := Answered(phase)), generation, slotTaken,
                if recovery then [Confirmed(id, call.intent, call.command, call.run)] else [])
       case EndsUnknown =>
         Effect(call.(pc := Leaving(None)), generation, slotTaken, [Ended(id, call.intent, call.command, call.run)])
       case _ => Effect(call.(pc := Leaving(None)), generation, slotTaken, []))
    case Answered(phase) =>
      var next := if current && call.command.OneStep? && phase.SetMode? then Some(SendTick) else None;
      Effect(call.(pc := Leaving(next)), generation, slotTaken, [])
    case Leaving(next) =>
      Effect(call.(pc := if next.Some? then Ready(next.value) else Done), generation, slotTaken && recovery, [])
    case Done => Effect(call, generation, slotTaken, [])
  }

  function ToCompletions(seen: seq<Observation>): seq<Completion> {
    if seen == [] then []
    else
      var rest := ToCompletions(seen[..|seen| - 1]);
      match seen[|seen| - 1]
      case Dispatch(_, _, _, _, _) => rest
      case Ended(_, intent, _, run) => rest + [EndedUnknown(run, intent)]
      case Confirmed(_, intent, _, run) => rest + [Recovered(run, intent)]
  }

  /** The ledger update, if any, that belongs to the observation. */
  function Observe(ledger: Ledger, seen: Observation): Ledger {
    match seen
    case Dispatch(_, _, _, _, _) => ledger
    case Ended(_, intent, _, run) => RecordUnknown(ledger, run, intent)
    case Confirmed(_, intent, _, run) => RecordRecovery(ledger, run, intent)
  }

  function Apply(s: State, id: Id, e: Effect): State {
    State(e.generation, e.slotTaken,
          if e.seen == [] then s.ledger else Observe(s.ledger, e.seen[0]),
          s.calls[id := e.call],
          s.history + e.seen)
  }

  function MoveIn(s: State, id: Id, answer: Answer): Effect
    requires id in s.calls
  {
    Move(s.generation, s.slotTaken, HasUnknown(s.ledger, s.calls[id].run), id, s.calls[id], answer)
  }

  function Started(s: State, id: Id, command: Command, run: Run): State {
    s.(calls := s.calls[id := Invocation(command, run, 0, Admitted)])
  }

  function Step(s: State, a: Action): State {
    match a
    case Begin(id, command, run) =>
      if id in s.calls || (!IsRecovery(command) && HasUnknown(s.ledger, run)) then s
      else Started(s, id, command, run)
    case Invalidate => s.(generation := s.generation + 1)
    case Advance(id, answer) => if id in s.calls then Apply(s, id, MoveIn(s, id, answer)) else s
  }

  function Execute(s: State, actions: seq<Action>): State {
    if actions == [] then s else Step(Execute(s, actions[..|actions| - 1]), actions[|actions| - 1])
  }

  lemma ExecuteMore(s: State, actions: seq<Action>, a: Action)
    ensures Execute(s, actions + [a]) == Step(Execute(s, actions), a)
  {
    assert (actions + [a])[..|actions|] == actions;
  }

  // ---- Intent numbers identify invocations ----

  ghost predicate IntentFits(s: State, id: Id)
    requires id in s.calls
  {
    && s.calls[id].intent <= s.generation
    && (s.calls[id].intent == 0 <==> s.calls[id].pc.Admitted?)
  }

  /** The observation belongs to a call that really holds that intent. */
  ghost predicate Owned(s: State, o: Observation) {
    && o.id in s.calls
    && var call := s.calls[o.id];
       call.intent > 0 && call.intent == o.intent && call.command == o.command && call.run == o.run
  }

  ghost predicate IntentsIdentify(s: State) {
    && (forall id :: id in s.calls ==> IntentFits(s, id))
    && (forall i, j :: i in s.calls && j in s.calls && s.calls[i].intent == s.calls[j].intent && s.calls[i].intent > 0
                       ==> i == j)
    && (forall o :: o in s.history ==> Owned(s, o))
  }

  /** What every step of a call respects, whatever its program counter. */
  ghost predicate KeepsIdentity(generation: nat, id: Id, call: Invocation, e: Effect) {
    && e.call.command == call.command && e.call.run == call.run
    && generation <= e.generation
    && (if call.pc.Admitted? then generation < e.generation == e.call.intent
        else e.call.intent == call.intent && e.generation == generation)
    && !e.call.pc.Admitted?
    && |e.seen| <= 1
    && (e.seen != [] ==>
          && !call.pc.Admitted?
          && e.seen[0].id == id && e.seen[0].intent == call.intent
          && e.seen[0].command == call.command && e.seen[0].run == call.run)
  }

  lemma MoveKeepsIdentity(generation: nat, slotTaken: bool, unknown: bool, id: Id, call: Invocation, answer: Answer)
    ensures KeepsIdentity(generation, id, call, Move(generation, slotTaken, unknown, id, call, answer))
  {
  }

  lemma {:induction false} ApplyKeepsIntents(s: State, id: Id, e: Effect)
    requires IntentsIdentify(s) && id in s.calls
    requires KeepsIdentity(s.generation, id, s.calls[id], e)
    ensures IntentsIdentify(Apply(s, id, e))
  {
    var t := Apply(s, id, e);
    assert IntentFits(s, id);
    forall i | i in t.calls ensures IntentFits(t, i) {
      assert i in s.calls && IntentFits(s, i);
    }
    forall i, j | i in t.calls && j in t.calls && t.calls[i].intent == t.calls[j].intent && t.calls[i].intent > 0
      ensures i == j
    {
      assert IntentFits(s, i) && IntentFits(s, j);
    }
    forall o | o in t.history ensures Owned(t, o) {
      assert o in s.history || (e.seen != [] && o == e.seen[0]);
      if o in s.history {
        assert Owned(s, o);
      }
    }
  }

  // ---- The one-slot semaphore ----

  predicate InTry(pc: Pc) {
    pc.Inside? || pc.Current? || pc.Cleared? || pc.InFlight? || pc.Answered? || pc.Leaving?
  }

  predicate HoldsSlot(call: Invocation) {
    !IsRecovery(call.command) && InTry(call.pc)
  }

  /** The slot is taken exactly when one model command is between WaitAsync and Release. */
  ghost predicate SlotExclusive(s: State) {
    && (forall i, j :: i in s.calls && j in s.calls && HoldsSlot(s.calls[i]) && HoldsSlot(s.calls[j]) ==> i == j)
    && (s.slotTaken ==> exists i :: i in s.calls && HoldsSlot(s.calls[i]))
    && (forall i :: i in s.calls && HoldsSlot(s.calls[i]) ==> s.slotTaken)
  }

  /** Entering takes a free slot, leaving frees it, nothing else touches it. */
  ghost predicate KeepsSlot(slotTaken: bool, call: Invocation, e: Effect) {
    && (HoldsSlot(e.call) && !HoldsSlot(call) ==> !slotTaken && e.slotTaken)
    && (!HoldsSlot(e.call) && HoldsSlot(call) ==> !e.slotTaken)
    && ((HoldsSlot(e.call) <==> HoldsSlot(call)) ==> e.slotTaken == slotTaken)
  }

  lemma MoveKeepsSlot(generation: nat, slotTaken: bool, unknown: bool, id: Id, call: Invocation, answer: Answer)
    ensures KeepsSlot(slotTaken, call, Move(generation, slotTaken, unknown, id, call, answer))
  {
  }

  lemma {:induction false} ApplyKeepsSlot(s: State, id: Id, e: Effect)
    requires SlotExclusive(s) && id in s.calls
    requires KeepsSlot(s.slotTaken, s.calls[id], e)
    ensures SlotExclusive(Apply(s, id, e))
  {
    var t := Apply(s, id, e);
    if t.slotTaken && s.slotTaken {
      var i :| i in s.calls && HoldsSlot(s.calls[i]);
      assert i in t.calls && HoldsSlot(t.calls[i]);
    } else if t.slotTaken {
      assert HoldsSlot(t.calls[id]);
    }
  }

  // ---- Dispatch order ----

  predicate IsModelDispatch(o: Observation) {
    o.Dispatch? && !IsRecovery(o.command)
  }

  /** A model call that passed EnsureCurrent and has not released the slot since. */
  predicate PastFence(call: Invocation) {
    !IsRecovery(call.command) && (call.pc.Current? || call.pc.Cleared? || call.pc.InFlight? || call.pc.Answered?)
  }

  ghost predicate NoLaterDispatch(history: seq<Observation>, intent: nat) {
    forall o :: o in history && IsModelDispatch(o) ==> o.intent <= intent
  }

  ghost predicate Nondecreasing(history: seq<Observation>) {
    forall p, q :: 0 <= p < q < |history| && IsModelDispatch(history[p]) && IsModelDispatch(history[q]) ==>
      history[p].intent <= history[q].intent
  }

  ghost predicate DispatchesOrdered(s: State) {
    && Nondecreasing(s.history)
    && (forall id :: id in s.calls && PastFence(s.calls[id]) ==> NoLaterDispatch(s.history, s.calls[id].intent))
    && NoLaterDispatch(s.history, s.generation)
  }

  /** A call gets past the fence only with the newest intent, and dispatches only past the fence. */
  ghost predicate KeepsFence(generation: nat, call: Invocation, e: Effect) {
    && (PastFence(e.call) ==> PastFence(call) || call.intent == generation)
    && (PastFence(e.call) ==> e.generation == generation && e.call.intent == call.intent)
    && (forall o :: o in e.seen && IsModelDispatch(o) ==>
        PastFence(call) && PastFence(e.call) && o.intent == call.intent)
    && (e.seen != [] && IsModelDispatch(e.seen[0]) ==> HoldsSlot(call))
  }

  lemma MoveKeepsFence(generation: nat, slotTaken: bool, unknown: bool, id: Id, call: Invocation, answer: Answer)
    ensures KeepsFence(generation, call, Move(generation, slotTaken, unknown, id, call, answer))
  {
  }

  lemma {:induction false} ApplyKeepsOrder(s: State, id: Id, e: Effect)
    requires IntentsIdentify(s) && SlotExclusive(s) && DispatchesOrdered(s) && id in s.calls
    requires KeepsIdentity(s.generation, id, s.calls[id], e) && KeepsFence(s.generation, s.calls[id], e)
    ensures DispatchesOrdered(Apply(s, id, e))
  {
    var t := Apply(s, id, e);
    assert IntentFits(s, id);
    if e.seen == [] {
      assert t.history == s.history;
    } else {
      assert t.history == s.history + [e.seen[0]];
      assert forall o :: o in t.history <==> o in s.history || o == e.seen[0];
      if IsModelDispatch(e.seen[0]) {
        forall i | i in t.calls && PastFence(t.calls[i]) ensures i == id {
          assert HoldsSlot(s.calls[id]) && HoldsSlot(s.calls[i]);
        }
      }
    }
    forall i | i in t.calls && PastFence(t.calls[i]) ensures NoLaterDispatch(t.history, t.calls[i].intent) {
    }
  }

  // ---- Reachable states ----

  ghost predicate Invariant(s: State) {
    IntentsIdentify(s) && SlotExclusive(s) && DispatchesOrdered(s)
  }

  lemma {:induction false} BeginKeepsIntents(s: State, id: Id, command: Command, run: Run)
    requires IntentsIdentify(s) && id !in s.calls
    ensures IntentsIdentify(Started(s, id, command, run))
  {
    var t := Started(s, id, command, run);
    forall i | i in t.calls ensures IntentFits(t, i) {
      assert i in s.calls ==> IntentFits(s, i);
    }
    forall o | o in t.history ensures Owned(t, o) {
      assert Owned(s, o);
    }
  }

  lemma {:induction false} BeginKeepsSlot(s: State, id: Id, command: Command, run: Run)
    requires SlotExclusive(s) && id !in s.calls
    ensures SlotExclusive(Started(s, id, command, run))
  {
    var t := Started(s, id, command, run);
    if s.slotTaken {
      var i :| i in s.calls && HoldsSlot(s.calls[i]);
      assert i in t.calls && HoldsSlot(t.calls[i]);
    }
  }

  lemma {:induction false} BeginKeepsInvariant(s: State, id: Id, command: Command, run: Run)
    requires Invariant(s) && id !in s.calls
    ensures Invariant(Started(s, id, command, run))
  {
    BeginKeepsIntents(s, id, command, run);
    BeginKeepsSlot(s, id, command, run);
    var t := Started(s, id, command, run);
    assert DispatchesOrdered(t) by {
      assert t.history == s.history && t.generation == s.generation;
      forall i | i in t.calls && PastFence(t.calls[i]) ensures NoLaterDispatch(t.history, t.calls[i].intent) {
        assert i in s.calls && t.calls[i] == s.calls[i];
      }
    }
  }

  lemma {:induction false} InvalidateKeepsInvariant(s: State)
    requires Invariant(s)
    ensures Invariant(s.(generation := s.generation + 1))
  {
    var t := s.(generation := s.generation + 1);
    forall i | i in t.calls ensures IntentFits(t, i) {
      assert IntentFits(s, i);
    }
    forall o | o in t.history ensures Owned(t, o) {
      assert Owned(s, o);
    }
  }

  lemma {:induction false} AdvanceKeepsInvariant(s: State, id: Id, answer: Answer)
    requires Invariant(s) && id in s.calls
    ensures Invariant(Apply(s, id, MoveIn(s, id, answer)))
  {
    var call, e := s.calls[id], MoveIn(s, id, answer);
    var unknown := HasUnknown(s.ledger, call.run);
    MoveKeepsIdentity(s.generation, s.slotTaken, unknown, id, call, answer);
    MoveKeepsSlot(s.generation, s.slotTaken, unknown, id, call, answer);
    MoveKeepsFence(s.generation, s.slotTaken, unknown, id, call, answer);
    EffectKeepsInvariant(s, id, e);
  }

  lemma {:induction false} EffectKeepsInvariant(s: State, id: Id, e: Effect)
    requires Invariant(s) && id in s.calls
    requires KeepsIdentity(s.generation, id, s.calls[id], e)
    requires KeepsSlot(s.slotTaken, s.calls[id], e) && KeepsFence(s.generation, s.calls[id], e)
    ensures Invariant(Apply(s, id, e))
  {
    ApplyKeepsIntents(s, id, e);
    ApplyKeepsSlot(s, id, e);
    ApplyKeepsOrder(s, id, e);
  }

  lemma {:induction false} StepKeepsInvariant(s: State, a: Action)
    requires Invariant(s)
    ensures Invariant(Step(s, a))
  {
    match a {
      case Begin(id, command, run) =>
        if Step(s, a) != s {
          BeginKeepsInvariant(s, id, command, run);
        }
      case Invalidate => InvalidateKeepsInvariant(s);
      case Advance(id, answer) =>
        if id in s.calls {
          AdvanceKeepsInvariant(s, id, answer);
        }
    }
  }

  lemma {:induction false} ReachableInvariant(actions: seq<Action>)
    ensures Invariant(Execute(INITIAL, actions))
  {
    if actions != [] {
      ReachableInvariant(actions[..|actions| - 1]);
      StepKeepsInvariant(Execute(INITIAL, actions[..|actions| - 1]), actions[|actions| - 1]);
    }
  }

  /** In every schedule at most one model mutation is in flight. */
  lemma {:induction false} OneModelMutationInFlight(actions: seq<Action>, i: Id, j: Id)
    requires i in Execute(INITIAL, actions).calls && j in Execute(INITIAL, actions).calls
    requires !IsRecovery(Execute(INITIAL, actions).calls[i].command) && Execute(INITIAL, actions).calls[i].pc.InFlight?
    requires !IsRecovery(Execute(INITIAL, actions).calls[j].command) && Execute(INITIAL, actions).calls[j].pc.InFlight?
    ensures i == j
  {
    ReachableInvariant(actions);
  }

  /** In every schedule model mutations are dispatched in nondecreasing intent order. */
  lemma {:induction false} ModelDispatchesInIntentOrder(actions: seq<Action>)
    ensures Nondecreasing(Execute(INITIAL, actions).history)
  {
    ReachableInvariant(actions);
  }
}
