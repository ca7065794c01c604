/** What the fence lets through and what it stops: a command that nothing supersedes reaches each of its
    mutations, and one that was superseded, cancelled or refused never sends another. */
module PolicyProgress {
  import opened Prelude
  import opened PolicyLedger
  import opened PolicyFence
  import opened PolicyFenceSafety

  lemma {:induction false} ExecuteAppend(s: State, a: seq<Action>, b: seq<Action>)
    ensures Execute(s, a + b) == Execute(Execute(s, a), b)
  {
    if b == [] {
      assert a + b == a;
    } else {
      var n := |b| - 1;
      ExecuteAppend(s, a, b[..n]);
      ExecuteMore(s, a + b[..n], b[n]);
      ExecuteMore(Execute(s, a), b[..n], b[n]);
      assert a + b == a + b[..n] + [b[n]] && b == b[..n] + [b[n]];
    }
  }

  lemma ExecuteOne(s: State, a: Action)
    ensures Execute(s, [a]) == Step(s, a)
  {
    assert [a][..0] == [];
  }

  // ---- What a call still has to send ----

  /** What a OneStep sends after `phase`. */
  function After(command: Command, phase: Phase): Option<Phase> {
    if command.OneStep? && phase.SetMode? then Some(SendTick) else None
  }

  /** The mutation the call sends next, as long as it still has to pass the currency check for it. */
  function Ahead(call: Invocation): Option<Phase> {
    match call.pc
    case Taken => Some(FirstPhase(call.command))
    case Preparing => Some(FirstPhase(call.command))
    case Prepared => Some(FirstPhase(call.command))
    case Ready(phase) => Some(phase)
    case Inside(phase) => Some(phase)
    case InFlight(phase) => After(call.command, phase)
    case Answered(phase) => After(call.command, phase)
    case Leaving(next) => next
    case _ => Option<Phase>.None
  }

  /** The same, or the mutation it is about to send. */
  function Next(call: Invocation): Option<Phase> {
    match call.pc
    case Current(phase) => Some(phase)
    case Cleared(phase) => Some(phase)
    case _ => Ahead(call)
  }

  function Rank(pc: Pc): nat {
    match pc
    case Cleared(_) => 0
    case Current(_) => 1
    case Inside(_) => 2
    case Ready(_) => 3
    case Leaving(_) => 4
    case Answered(_) => 5
    case InFlight(_) => 6
    case Prepared => 4
    case Preparing => 5
    case Taken => 6
    case _ => 7
  }

  predicate Allowed(s: State, call: Invocation) {
    IsRecovery(call.command) || !HasUnknown(s.ledger, call.run)
  }

  /** After these actions, this very call has sent `phase`. */
  ghost predicate Sends(s: State, after: seq<Action>, id: Id, phase: Phase)
    requires id in s.calls
  {
    var h, call := Execute(s, after).history, s.calls[id];
    exists q :: |s.history| <= q < |h| && h[q] == Dispatch(id, call.intent, call.command, call.run, phase)
  }

  /** The call, the newest intent and the ledgers are as they were; the history may have grown. */
  ghost predicate SameFor(s: State, t: State, id: Id) {
    && id in s.calls && id in t.calls && t.calls[id] == s.calls[id]
    && t.generation == s.generation && t.ledger == s.ledger && s.history <= t.history
  }

  function HoldRank(pc: Pc): nat {
    match pc
    case Leaving(_) => 1
    case Current(_) => 4
    case Cleared(_) => 3
    case _ => 2
  }

  /** Cancelling the call that holds the slot brings it closer to releasing it. */
  lemma {:induction false} HolderCancelled(s: State, j: Id, id: Id)
    requires Invariant(s) && j in s.calls && HoldsSlot(s.calls[j]) && id in s.calls && id != j
    ensures var t := Step(s, Advance(j, Cancels));
            && SameFor(s, t, id)
            && (t.slotTaken ==> HoldsSlot(t.calls[j]) && HoldRank(t.calls[j].pc) < HoldRank(s.calls[j].pc))
  {
  }

  lemma {:induction false} HolderLeaves(s: State, j: Id, id: Id) returns (after: seq<Action>)
    requires Invariant(s) && j in s.calls && HoldsSlot(s.calls[j]) && id in s.calls && id != j
    ensures var t := Execute(s, after); Invariant(t) && SameFor(s, t, id) && !t.slotTaken
    decreases HoldRank(s.calls[j].pc)
  {
    var a := Advance(j, Cancels);
    var t := Step(s, a);
    HolderCancelled(s, j, id);
    StepKeepsInvariant(s, a);
    ExecuteOne(s, a);
    after := [a];
    if t.slotTaken {
      var more := HolderLeaves(t, j, id);
      ExecuteAppend(s, after, more);
      after := after + more;
    }
  }

  /** A call at the entry of SendAsync can always get the slot. */
  lemma {:induction false} SlotComesFree(s: State, id: Id) returns (after: seq<Action>)
    requires Invariant(s) && id in s.calls && !HoldsSlot(s.calls[id])
    ensures var t := Execute(s, after); Invariant(t) && SameFor(s, t, id) && !t.slotTaken
  {
    after := [];
    if s.slotTaken {
      var j :| j in s.calls && HoldsSlot(s.calls[j]);
      after := HolderLeaves(s, j, id);
    }
  }

  /** One successful step of the call goes on towards its next mutation. */
  lemma {:induction false} GoesOn(s: State, id: Id)
    requires id in s.calls && Next(s.calls[id]).Some? && Allowed(s, s.calls[id])
    requires s.calls[id].pc.Current? || s.calls[id].pc.Cleared? || s.calls[id].intent == s.generation
    requires s.calls[id].pc.Ready? && !IsRecovery(s.calls[id].command) ==> !s.slotTaken
    ensures var t, call := Step(s, Advance(id, Succeeds)), s.calls[id];
            if call.pc.Cleared? then
              t.history == s.history + [Dispatch(id, call.intent, call.command, call.run, call.pc.phase)]
            else
              && t.calls[id] == call.(pc := t.calls[id].pc) && Next(t.calls[id]) == Next(call)
              && Rank(t.calls[id].pc) < Rank(call.pc)
              && t.generation == s.generation && t.ledger == s.ledger && t.history == s.history
  {
  }

  lemma SendsLater(s: State, t: State, first: seq<Action>, rest: seq<Action>, id: Id, phase: Phase)
    requires id in s.calls && id in t.calls && Execute(s, first) == t && |s.history| <= |t.history|
    requires t.calls[id] == s.calls[id].(pc := t.calls[id].pc) && Sends(t, rest, id, phase)
    ensures Sends(s, first + rest, id, phase)
  {
    ExecuteAppend(s, first, rest);
  }

  /** A call with the newest intent, on a run that may be commanded, can send its next mutation. */
  lemma {:induction false} ReachesSend(s: State, id: Id) returns (after: seq<Action>)
    requires Invariant(s) && id in s.calls && Next(s.calls[id]).Some? && Allowed(s, s.calls[id])
    requires s.calls[id].intent == s.generation
    ensures Sends(s, after, id, Next(s.calls[id]).value)
    decreases Rank(s.calls[id].pc)
  {
    var call, phase := s.calls[id], Next(s.calls[id]).value;
    var a := Advance(id, Succeeds);
    var free: seq<Action> := [];
    if call.pc.Ready? {
      free := SlotComesFree(s, id);
    }
    var t := Execute(s, free);
    GoesOn(t, id);
    var u := Step(t, a);
    StepKeepsInvariant(t, a);
    ExecuteOne(t, a);
    ExecuteAppend(s, free, [a]);
    if call.pc.Cleared? {
      after := free + [a];
      assert u.history[|t.history|] == Dispatch(id, call.intent, call.command, call.run, phase);
    } else {
      var rest := ReachesSend(u, id);
      SendsLater(s, u, free + [a], rest, id, phase);
      after := free + [a] + rest;
    }
  }

  // ---- What is stopped for good ----

  /** The call is over but for its finally block. */
  predicate Finished(call: Invocation) {
    call.pc.Done? || call.pc == Leaving(None)
  }

  /** The call can no longer send `phase`: it has failed, or is superseded and not past the check for it. */
  predicate Stopped(call: Invocation, phase: Phase, generation: nat) {
    && !call.pc.Admitted? && call.pc != Current(phase) && call.pc != Cleared(phase)
    && (Finished(call) || call.intent < generation)
  }

  ghost predicate NoneSent(h: seq<Observation>, from: nat, id: Id, phase: Phase) {
    forall q :: from <= q < |h| && h[q].Dispatch? && h[q].id == id ==> h[q].phase != phase
  }

  /** What a step of the stopped call shows is no dispatch of `phase`. */
  lemma MoveStaysStopped(generation: nat, slotTaken: bool, unknown: bool, id: Id, call: Invocation, answer: Answer,
                         phase: Phase)
    requires Stopped(call, phase, generation)
    ensures var e := Move(generation, slotTaken, unknown, id, call, answer);
            Stopped(e.call, phase, e.generation) && NoneSent(e.seen, 0, id, phase)
  {
  }

  lemma {:induction false} ApplyStaysStopped(s: State, mover: Id, e: Effect, id: Id, phase: Phase)
    requires id in s.calls && Stopped(s.calls[id], phase, s.generation) && s.generation <= e.generation
    requires NoneSent(e.seen, 0, id, phase)
    requires mover == id ==> Stopped(e.call, phase, e.generation)
    ensures var t := Apply(s, mover, e);
            && id in t.calls && Stopped(t.calls[id], phase, t.generation)
            && s.history <= t.history && NoneSent(t.history, |s.history|, id, phase)
  {
    var h := Apply(s, mover, e).history;
    forall q | |s.history| <= q < |h| && h[q].Dispatch? && h[q].id == id ensures h[q].phase != phase {
      assert h[q] == e.seen[q - |s.history|];
    }
  }

  lemma {:induction false} StepStaysStopped(s: State, a: Action, id: Id, phase: Phase)
    requires id in s.calls && Stopped(s.calls[id], phase, s.generation)
    ensures var t := Step(s, a);
            && id in t.calls && Stopped(t.calls[id], phase, t.generation)
            && s.history <= t.history && NoneSent(t.history, |s.history|, id, phase)
  {
    if a.Advance? && a.id in s.calls {
      var mover, unknown := s.calls[a.id], HasUnknown(s.ledger, s.calls[a.id].run);
      MoveKeepsIdentity(s.generation, s.slotTaken, unknown, a.id, mover, a.answer);
      if a.id == id {
        MoveStaysStopped(s.generation, s.slotTaken, unknown, id, mover, a.answer, phase);
      }
      ApplyStaysStopped(s, a.id, MoveIn(s, a.id, a.answer), id, phase);
    }
  }

  lemma {:induction false} StaysStopped(s: State, after: seq<Action>, id: Id, phase: Phase)
    requires id in s.calls && Stopped(s.calls[id], phase, s.generation)
    ensures var t := Execute(s, after);
            && id in t.calls && Stopped(t.calls[id], phase, t.generation)
            && s.history <= t.history && NoneSent(t.history, |s.history|, id, phase)
  {
    if after != [] {
      var n := |after| - 1;
      var t := Execute(s, after[..n]);
      StaysStopped(s, after[..n], id, phase);
      StepStaysStopped(t, after[n], id, phase);
      var h := Step(t, after[n]).history;
      forall q | |s.history| <= q < |h| && h[q].Dispatch? && h[q].id == id ensures h[q].phase != phase {
        if q < |t.history| {
          assert h[q] == t.history[q];
        }
      }
    }
  }

  lemma {:induction false} StoppedNeverSends(s: State, after: seq<Action>, id: Id, phase: Phase)
    requires id in s.calls && Stopped(s.calls[id], phase, s.generation)
    ensures !Sends(s, after, id, phase)
  {
    StaysStopped(s, after, id, phase);
  }

  /** At any reachable state, a call that has not passed the currency check for its next mutation yet,
      on a run that may be commanded, can still send it exactly when its intent is the newest. For a
      OneStep whose mode change was answered, that mutation is the tick. */
  lemma {:induction false} SendsIff(before: seq<Action>, id: Id)
    requires id in Execute(INITIAL, before).calls
    requires var s := Execute(INITIAL, before); Ahead(s.calls[id]).Some? && Allowed(s, s.calls[id])
    ensures var s := Execute(INITIAL, before);
            (exists after :: Sends(s, after, id, Ahead(s.calls[id]).value)) <==> s.calls[id].intent == s.generation
  {
    ReachableInvariant(before);
    var s := Execute(INITIAL, before);
    var phase := Ahead(s.calls[id]).value;
    assert IntentFits(s, id);
    if s.calls[id].intent == s.generation {
      var after := ReachesSend(s, id);
      assert Sends(s, after, id, phase);
    } else {
      forall after ensures !Sends(s, after, id, phase) {
        StoppedNeverSends(s, after, id, phase);
      }
    }
  }

  /** This step ends the call: its preparation or mutation does not succeed, it is cancelled while it
      waits for the slot, its run is fenced, or where its currency is checked it is cancelled or superseded. */
  predicate EndsCall(s: State, call: Invocation, answer: Answer) {
    match call.pc
    case Preparing => !answer.Succeeds?
    case InFlight(_) => !answer.Succeeds?
    case Ready(_) => answer.Cancels? && !IsRecovery(call.command)
    case Current(_) => !Allowed(s, call)
    case Taken => answer.Cancels? || call.intent < s.generation
    case Prepared => answer.Cancels? || call.intent < s.generation
    case Inside(_) => answer.Cancels? || call.intent < s.generation
    case Answered(_) => answer.Cancels? || call.intent < s.generation
    case _ => false
  }

  /** After such a step the call has only its finally block left, and sends nothing more. */
  lemma {:induction false} FailureEndsCall(s: State, id: Id, answer: Answer, after: seq<Action>, phase: Phase)
    requires id in s.calls && EndsCall(s, s.calls[id], answer)
    ensures Finished(Step(s, Advance(id, answer)).calls[id])
    ensures NoneSent(Execute(Step(s, Advance(id, answer)), after).history, |s.history|, id, phase)
  {
    var t := Step(s, Advance(id, answer));
    StaysStopped(t, after, id, phase);
    assert forall q :: |s.history| <= q < |t.history| ==> !t.history[q].Dispatch?;
  }

  /** Tearing the panel down stops every call that is not past the check for what it would send. */
  lemma {:induction false} InvalidateStopsAll(before: seq<Action>, after: seq<Action>, id: Id, phase: Phase)
    requires id in Execute(INITIAL, before).calls
    requires var pc := Execute(INITIAL, before).calls[id].pc;
             !pc.Admitted? && pc != Current(phase) && pc != Cleared(phase)
    ensures var s := Execute(INITIAL, before);
            NoneSent(Execute(Step(s, Invalidate), after).history, |s.history|, id, phase)
  {
    ReachableInvariant(before);
    var s := Execute(INITIAL, before);
    assert IntentFits(s, id);
    StaysStopped(Step(s, Invalidate), after, id, phase);
  }

  // ---- The fence as the history tells it ----

  /** Some lost command of the run has no confirmed recovery that is as new. */
  ghost predicate LostIn(h: seq<Observation>, run: Run) {
    exists o :: o in h && o.Ended? && o.run == run && !RecoveredSince(h, run, o.intent)
  }

  ghost predicate RecoveredSince(h: seq<Observation>, run: Run, intent: nat) {
    exists r :: r in h && r.Confirmed? && r.run == run && r.intent >= intent
  }

  lemma {:induction false} FencedMeans(s: State, run: Run)
    requires RecoveryInvariant(s)
    ensures HasUnknown(s.ledger, run) <==> LostIn(s.history, run)
  {
    var c := ToCompletions(s.history);
    CompletionsOf(s.history);
    forall x | x in c ensures x.intent > 0 {
      CompletionOwned(s, x);
    }
    UnknownIffOutstanding(c, run);
    OutstandingMeans(s.history, run);
  }

  lemma {:induction false} OutstandingMeans(h: seq<Observation>, run: Run)
    ensures Outstanding(ToCompletions(h), run) <==> LostIn(h, run)
  {
    var c := ToCompletions(h);
    CompletionsOf(h);
    if o :| o in h && o.Ended? && o.run == run && !RecoveredSince(h, run, o.intent) {
      assert EndedIn(h, run, o.intent);
      LostNotRecovered(h, run, o.intent);
    }
    if u: nat :| EndedUnknown(run, u) in c && NotRecovered(c, run, u) {
      assert EndedIn(h, run, u);
      LostNotRecovered(h, run, u);
    }
  }

  /** At any reachable state a run is fenced exactly when its history holds a lost command that no
      confirmed recovery has overtaken, and exactly then a model command on it is not admitted. */
  lemma {:induction false} FencedIffLost(before: seq<Action>, run: Run, id: Id, command: Command)
    requires id !in Execute(INITIAL, before).calls
    ensures var s := Execute(INITIAL, before);
            && (HasUnknown(s.ledger, run) <==> LostIn(s.history, run))
            && (id in Step(s, Begin(id, command, run)).calls <==> IsRecovery(command) || !LostIn(s.history, run))
  {
    ReachableRecovery(before);
    FencedMeans(Execute(INITIAL, before), run);
  }

  lemma LossShown(s: State, id: Id)
    requires id in s.calls && s.calls[id].pc.InFlight?
    ensures var call := s.calls[id];
            Step(s, Advance(id, EndsUnknown)).history == s.history + [Ended(id, call.intent, call.command, call.run)]
  {
  }

  lemma {:induction false} LostAppended(h: seq<Observation>, lost: Observation)
    requires lost.Ended?
    ensures LostIn(h + [lost], lost.run) || RecoveredSince(h, lost.run, lost.intent)
  {
    var all := h + [lost];
    assert all[|h|] == lost && lost in all;
    if !RecoveredSince(h, lost.run, lost.intent) {
      assert !RecoveredSince(all, lost.run, lost.intent) by {
        assert forall r :: r in all && r.Confirmed? ==> r in h;
      }
    }
  }

  /** A mutation whose outcome is lost fences its run at once, unless a recovery as new has been confirmed. */
  lemma {:induction false} LossFences(before: seq<Action>, id: Id)
    requires id in Execute(INITIAL, before).calls && Execute(INITIAL, before).calls[id].pc.InFlight?
    ensures var s := Execute(INITIAL, before);
            var t, call := Step(s, Advance(id, EndsUnknown)), s.calls[id];
            HasUnknown(t.ledger, call.run) || RecoveredSince(s.history, call.run, call.intent)
  {
    ReachableRecovery(before);
    var s := Execute(INITIAL, before);
    var call := s.calls[id];
    StepKeepsRecovery(s, Advance(id, EndsUnknown));
    FencedMeans(Step(s, Advance(id, EndsUnknown)), call.run);
    LossShown(s, id);
    LostAppended(s.history, Ended(id, call.intent, call.command, call.run));
  }

  lemma {:induction false} LostNotRecovered(h: seq<Observation>, run: Run, u: nat)
    ensures NotRecovered(ToCompletions(h), run, u) <==> !RecoveredSince(h, run, u)
  {
    var c := ToCompletions(h);
    CompletionsOf(h);
    if r :| r in h && r.Confirmed? && r.run == run && r.intent >= u {
      assert ConfirmedIn(h, run, r.intent);
    }
    if v: nat :| Recovered(run, v) in c && v >= u {
      assert ConfirmedIn(h, run, v);
    }
  }

  // ---- A command that runs alone ----

  function Sending(id: Id, call: Invocation, phase: Phase): Observation {
    Dispatch(id, call.intent, call.command, call.run, phase)
  }

  /** What each command shows when nothing interferes: a OneStep its mode and its tick, every other command
      its one mutation, and a recovery its confirmation. */
  function Shows(id: Id, call: Invocation): seq<Observation> {
    var confirmed := Confirmed(id, call.intent, call.command, call.run);
    match call.command
    case OneStep => [Sending(id, call, SetMode), Sending(id, call, SendTick)]
    case Tick => [Sending(id, call, SendTick)]
    case Stop => [Sending(id, call, SendStop), confirmed]
    case Human => [Sending(id, call, SetMode), confirmed]
    case _ => [Sending(id, call, SetMode)]
  }

  /** What follows once `phase` is answered, once it is sent, and from before it on. */
  function Answers(id: Id, call: Invocation, phase: Phase): seq<Observation> {
    if After(call.command, phase).Some? then [Sending(id, call, SendTick)] else []
  }

  function Lands(id: Id, call: Invocation, phase: Phase): seq<Observation> {
    if IsRecovery(call.command) then [Confirmed(id, call.intent, call.command, call.run)] + Answers(id, call, phase)
    else Answers(id, call, phase)
  }

  function Departs(id: Id, call: Invocation, phase: Phase): seq<Observation> {
    [Sending(id, call, phase)] + Lands(id, call, phase)
  }

  /** What a call at this point has still to show. */
  function Remaining(id: Id, call: Invocation): seq<Observation> {
    match call.pc
    case Ready(phase) => Departs(id, call, phase)
    case Inside(phase) => Departs(id, call, phase)
    case Current(phase) => Departs(id, call, phase)
    case Cleared(phase) => Departs(id, call, phase)
    case InFlight(phase) => Lands(id, call, phase)
    case Answered(phase) => Answers(id, call, phase)
    case Leaving(next) => if next.Some? then Departs(id, call, next.value) else []
    case Done => []
    case _ => Departs(id, call, FirstPhase(call.command))
  }

  function StepsLeft(pc: Pc, command: Command): nat {
    match pc
    case Admitted => 18
    case Taken => 17
    case Preparing => 16
    case Prepared => 15
    case Ready(phase) => if After(command, phase).Some? then 14 else 7
    case Inside(phase) => if After(command, phase).Some? then 13 else 6
    case Current(phase) => if After(command, phase).Some? then 12 else 5
    case Cleared(phase) => if After(command, phase).Some? then 11 else 4
    case InFlight(phase) => if After(command, phase).Some? then 10 else 3
    case Answered(phase) => if After(command, phase).Some? then 9 else 2
    case Leaving(next) => if next.Some? then 8 else 1
    case Done => 0
  }

  /** Nothing stands in the way of the call: its intent is the newest or still to be taken, its run may be
      commanded, and the slot is its own or free. */
  ghost predicate Clear(s: State, id: Id) {
    && id in s.calls && Allowed(s, s.calls[id])
    && (s.calls[id].pc.Admitted? || s.calls[id].intent == s.generation)
    && (!IsRecovery(s.calls[id].command) ==> (s.slotTaken <==> HoldsSlot(s.calls[id])))
    && (s.calls[id].pc.Leaving? && s.calls[id].pc.next.Some? ==>
          After(s.calls[id].command, SetMode) == s.calls[id].pc.next)
  }

  /** `seen` and then what is left afterwards is what was left before. */
  ghost predicate Shown(before: seq<Observation>, seen: seq<Observation>, after: seq<Observation>) {
    if seen == [] then after == before else before == [seen[0]] + after
  }

  /** Nothing a model call needs is missing, and only the tick can come after a mutation. */
  predicate Unhindered(generation: nat, slotTaken: bool, unknown: bool, call: Invocation) {
    && !call.pc.Admitted? && !call.pc.Done? && call.intent == generation
    && (!IsRecovery(call.command) ==> !unknown && (call.pc.Ready? ==> !slotTaken))
    && (call.pc.Leaving? && call.pc.next.Some? ==> After(call.command, SetMode) == call.pc.next)
  }

  lemma QuietMoveShows(generation: nat, slotTaken: bool, unknown: bool, id: Id, call: Invocation)
    requires Unhindered(generation, slotTaken, unknown, call) && !call.pc.Cleared? && !call.pc.InFlight?
    ensures var e := Move(generation, slotTaken, unknown, id, call, Succeeds);
            e.call == call.(pc := e.call.pc) && e.seen == [] && Remaining(id, e.call) == Remaining(id, call)
  {
  }

  lemma LoudMoveShows(generation: nat, slotTaken: bool, unknown: bool, id: Id, call: Invocation)
    requires Unhindered(generation, slotTaken, unknown, call) && (call.pc.Cleared? || call.pc.InFlight?)
    ensures var e := Move(generation, slotTaken, unknown, id, call, Succeeds);
            && e.call == call.(pc := e.call.pc) && |e.seen| <= 1
            && Shown(Remaining(id, call), e.seen, Remaining(id, e.call))
  {
    var e := Move(generation, slotTaken, unknown, id, call, Succeeds);
    if call.pc.Cleared? {
      assert Remaining(id, e.call) == Lands(id, call, call.pc.phase);
    } else {
      assert Remaining(id, e.call) == Answers(id, call, call.pc.phase);
    }
  }

  /** One step of a call that finds everything as it needs it. */
  lemma MoveShows(generation: nat, slotTaken: bool, unknown: bool, id: Id, call: Invocation)
    requires Unhindered(generation, slotTaken, unknown, call)
    ensures var e := Move(generation, slotTaken, unknown, id, call, Succeeds);
            && e.call == call.(pc := e.call.pc) && |e.seen| <= 1
            && Shown(Remaining(id, call), e.seen, Remaining(id, e.call))
  {
    if call.pc.Cleared? || call.pc.InFlight? {
      LoudMoveShows(generation, slotTaken, unknown, id, call);
    } else {
      QuietMoveShows(generation, slotTaken, unknown, id, call);
    }
  }

  lemma MoveNearer(generation: nat, slotTaken: bool, unknown: bool, id: Id, call: Invocation)
    requires Unhindered(generation, slotTaken, unknown, call)
    ensures var pc := Move(generation, slotTaken, unknown, id, call, Succeeds).call.pc;
            && StepsLeft(pc, call.command) < StepsLeft(call.pc, call.command)
            && (pc.Leaving? && pc.next.Some? ==> After(call.command, SetMode) == pc.next)
  {
  }

  lemma ShownAppends(h: seq<Observation>, before: seq<Observation>, seen: seq<Observation>, after: seq<Observation>)
    requires |seen| <= 1 && Shown(before, seen, after)
    ensures h + seen + after == h + before
  {
  }

  /** One step of such a call. */
  lemma {:induction false} ClearStep(s: State, id: Id)
    requires Clear(s, id) && !s.calls[id].pc.Admitted? && !s.calls[id].pc.Done?
    ensures var t := Step(s, Advance(id, Succeeds));
            && Clear(t, id) && t.calls == s.calls[id := t.calls[id]]
            && t.calls[id] == s.calls[id].(pc := t.calls[id].pc)
            && (IsRecovery(s.calls[id].command) ==> t.slotTaken == s.slotTaken)
            && t.history + Remaining(id, t.calls[id]) == s.history + Remaining(id, s.calls[id])
            && StepsLeft(t.calls[id].pc, t.calls[id].command) < StepsLeft(s.calls[id].pc, s.calls[id].command)
  {
    var call, unknown, e := s.calls[id], HasUnknown(s.ledger, s.calls[id].run), MoveIn(s, id, Succeeds);
    MoveShows(s.generation, s.slotTaken, unknown, id, call);
    MoveNearer(s.generation, s.slotTaken, unknown, id, call);
    MoveKeepsSlot(s.generation, s.slotTaken, unknown, id, call, Succeeds);
    MoveKeepsIdentity(s.generation, s.slotTaken, unknown, id, call, Succeeds);
    NotLost(s.generation, s.slotTaken, unknown, id, call);
    ShownAppends(s.history, Remaining(id, call), e.seen, Remaining(id, e.call));
  }

  lemma NotLost(generation: nat, slotTaken: bool, unknown: bool, id: Id, call: Invocation)
    ensures var e := Move(generation, slotTaken, unknown, id, call, Succeeds);
            e.seen != [] ==> !e.seen[0].Ended?
  {
  }

  function Successes(id: Id, n: nat): seq<Action> {
    seq(n, _ => Advance(id, Succeeds))
  }

  lemma {:induction false} OneMoreSuccess(s: State, id: Id, n: nat)
    ensures Execute(s, Successes(id, n + 1)) == Execute(Step(s, Advance(id, Succeeds)), Successes(id, n))
  {
    var a := Advance(id, Succeeds);
    ExecuteOne(s, a);
    ExecuteAppend(s, [a], Successes(id, n));
    assert Successes(id, n + 1) == [a] + Successes(id, n);
  }

  /** The call is done and has shown what it still had to show; nobody else moved. */
  ghost predicate Completes(s: State, t: State, id: Id)
    requires id in s.calls
  {
    && t.calls == s.calls[id := s.calls[id].(pc := Done)] && Clear(t, id)
    && (IsRecovery(s.calls[id].command) ==> t.slotTaken == s.slotTaken)
    && t.history == s.history + Remaining(id, s.calls[id])
  }

  lemma {:induction false} CompletesEarlier(s: State, t: State, u: State, id: Id)
    requires id in s.calls && id in t.calls && t.calls == s.calls[id := t.calls[id]]
    requires t.calls[id] == s.calls[id].(pc := t.calls[id].pc)
    requires IsRecovery(s.calls[id].command) ==> t.slotTaken == s.slotTaken
    requires t.history + Remaining(id, t.calls[id]) == s.history + Remaining(id, s.calls[id])
    requires Completes(t, u, id)
    ensures Completes(s, u, id)
  {
  }

  lemma {:induction false} ClearRuns(s: State, id: Id) returns (n: nat)
    requires Clear(s, id) && !s.calls[id].pc.Admitted?
    ensures Completes(s, Execute(s, Successes(id, n)), id)
    decreases StepsLeft(s.calls[id].pc, s.calls[id].command)
  {
    if s.calls[id].pc.Done? {
      n := 0;
      assert Successes(id, 0) == [];
      assert s.history + [] == s.history;
    } else {
      var t := Step(s, Advance(id, Succeeds));
      ClearStep(s, id);
      n := ClearRuns(t, id);
      CompletesEarlier(s, t, Execute(t, Successes(id, n)), id);
      OneMoreSuccess(s, id, n);
      n := n + 1;
    }
  }

  /** The call entered, with everything it shows still ahead of it. */
  ghost predicate Entered(s: State, t: State, id: Id, call: Invocation) {
    && Clear(t, id) && !t.calls[id].pc.Admitted?
    && t.history == s.history && t.slotTaken == s.slotTaken
    && t.calls == s.calls[id := t.calls[id]] && t.calls[id].(pc := Done) == call
    && Remaining(id, t.calls[id]) == Shows(id, call)
  }

  lemma {:induction false} AloneEnds(s: State, t: State, u: State, id: Id, call: Invocation)
    requires Entered(s, t, id, call) && Completes(t, u, id) && (IsRecovery(call.command) || !s.slotTaken)
    ensures u.calls == s.calls[id := call] && u.history == s.history + Shows(id, call) && u.slotTaken == s.slotTaken
  {
  }

  /** From any state, a new command that runs alone with every operation succeeding shows exactly its own
      mutations, in order, and returns with the slot as it was. */
  lemma {:induction false} AloneShows(s: State, id: Id, command: Command, run: Run) returns (n: nat)
    requires id !in s.calls && (IsRecovery(command) || (!s.slotTaken && !HasUnknown(s.ledger, run)))
    ensures var t := Execute(s, [Begin(id, command, run)] + Successes(id, n));
            var call := Invocation(command, run, s.generation + 1, Done);
            t.calls == s.calls[id := call] && t.history == s.history + Shows(id, call) && t.slotTaken == s.slotTaken
  {
    var admitted := Step(Step(s, Begin(id, command, run)), Advance(id, Succeeds));
    Enters(s, id, command, run);
    n := ClearRuns(admitted, id);
    AloneEnds(s, admitted, Execute(admitted, Successes(id, n)), id, Invocation(command, run, s.generation + 1, Done));
    BeginsAndRuns(s, Begin(id, command, run), id, n);
    n := n + 1;
  }

  lemma {:induction false} BeginsAndRuns(s: State, begin: Action, id: Id, n: nat)
    ensures Execute(s, [begin] + Successes(id, n + 1))
         == Execute(Step(Step(s, begin), Advance(id, Succeeds)), Successes(id, n))
  {
    OneMoreSuccess(Step(s, begin), id, n);
    ExecuteOne(s, begin);
    ExecuteAppend(s, [begin], Successes(id, n + 1));
  }

  /** The first two steps: the call is admitted and takes its intent. */
  lemma {:induction false} Enters(s: State, id: Id, command: Command, run: Run)
    requires id !in s.calls && (IsRecovery(command) || (!s.slotTaken && !HasUnknown(s.ledger, run)))
    ensures var t := Step(Step(s, Begin(id, command, run)), Advance(id, Succeeds));
            Entered(s, t, id, Invocation(command, run, s.generation + 1, Done))
  {
    var t := Step(Step(s, Begin(id, command, run)), Advance(id, Succeeds));
    assert t.history == s.history + [];
    FirstShows(id, t.calls[id]);
  }

  lemma FirstShows(id: Id, call: Invocation)
    requires call.pc == Taken || call.pc == Ready(FirstPhase(call.command))
    ensures Remaining(id, call) == Shows(id, call.(pc := Done))
  {
  }
}
