/** The object itself: the fields of PlatformPolicyCommands and the code between two awaits.

    Resume is proved against the step function of PolicyFence, so everything proved there
    about schedules is about this object. */
module PolicyCommands {
  import opened Prelude
  import opened PolicyLedger
  import opened PolicyFence

  class PolicyCommands {
    var generation: nat
    var slotTaken: bool
    var unknownRuns: map<Run, nat>
    var recoveredRuns: map<Run, nat>
    ghost var completions: seq<Completion>  // every lost command and confirmed recovery, as they were noted

    constructor ()
      ensures Valid() && generation == INITIAL.generation && slotTaken == INITIAL.slotTaken && completions == []
    {
      generation, slotTaken, unknownRuns, recoveredRuns, completions := 0, false, map[], map[], [];
    }

    function Ledgers(): Ledger
      reads this
    {
      Ledger(unknownRuns, recoveredRuns)
    }

    /** The dictionaries are what the noted completions leave. */
    ghost predicate Valid()
      reads this
    {
      Ledgers() == Replay(completions) && IntentsPositive(completions)
    }

    /** True exactly when a lost command of the run is newer than every confirmed recovery. */
    method HasUnknownCommand(run: Option<Run>) returns (unknown: bool)
      requires Valid()
      ensures unknown <==> run.Some? && Outstanding(completions, run.value)
      ensures unknown <==> run.Some? && HasUnknown(Ledgers(), run.value)
    {
      unknown := run.Some? && run.value in unknownRuns;
      if run.Some? {
        UnknownIffOutstanding(completions, run.value);
      }
    }

    method EnsureAllowed(run: Run, recovery: bool) returns (allowed: bool)
      requires Valid()
      ensures allowed <==> recovery || !HasUnknown(Ledgers(), run)
    {
      var unknown := HasUnknownCommand(Some(run));
      allowed := recovery || !unknown;
    }

    method EnsureCurrent(intent: nat, answer: Answer) returns (current: bool)
      ensures current <==> !answer.Cancels? && intent == generation
    {
      if answer.Cancels? {
        return false;
      }
      current := intent == generation;
    }

    method InvalidatePending()
      modifies this`generation
      ensures generation == old(generation) + 1
    {
      generation := generation + 1;
    }

    /** The locked block of the catch branch. A command that a confirmed recovery has already
        overtaken changes nothing; any other leaves its run unknown. */
    method NoteUnknown(run: Run, intent: nat)
      requires Valid() && intent > 0
      modifies this`unknownRuns, this`completions
      ensures Valid() && completions == old(completions) + [EndedUnknown(run, intent)]
      ensures !NotRecovered(old(completions), run, intent) ==> Ledgers() == old(Ledgers())
      ensures NotRecovered(old(completions), run, intent) ==> HasUnknown(Ledgers(), run)
    {
      ReplayMeans(completions, run);
      if run !in recoveredRuns || intent > recoveredRuns[run] {
        var known := if run in unknownRuns then unknownRuns[run] else 0;
        unknownRuns := unknownRuns[run := if intent < known then known else intent];
      }
      completions := completions + [EndedUnknown(run, intent)];
      ReplaySnoc(old(completions), EndedUnknown(run, intent));
    }

    /** The locked block after a confirmed recovery. The run stays unknown only for a command that is
        newer than this recovery. */
    method NoteRecovery(run: Run, intent: nat)
      requires Valid() && intent > 0
      modifies this`unknownRuns, this`recoveredRuns, this`completions
      ensures Valid() && completions == old(completions) + [Recovered(run, intent)]
      ensures HasUnknown(Ledgers(), run) <==> HasUnknown(old(Ledgers()), run) && old(unknownRuns)[run] > intent
      ensures HasUnknown(Ledgers(), run) ==> unknownRuns[run] == old(unknownRuns)[run]
    {
      var known := if run in recoveredRuns then recoveredRuns[run] else 0;
      recoveredRuns := recoveredRuns[run := if intent < known then known else intent];
      if run in unknownRuns && unknownRuns[run] <= intent {
        unknownRuns := map r | r in unknownRuns && r != run :: unknownRuns[r];
      }
      completions := completions + [Recovered(run, intent)];
      ReplaySnoc(old(completions), Recovered(run, intent));
    }

    /** The answer of the delegate, and what the ledgers learn from it. */
    method Land(id: Id, call: Invocation, answer: Answer) returns (next: Invocation, seen: seq<Observation>)
      requires Valid() && call.pc.InFlight? && call.intent > 0
      modifies this`unknownRuns, this`recoveredRuns, this`completions
      ensures Valid() && completions == old(completions) + ToCompletions(seen)
      ensures Effect(next, generation, slotTaken, seen)
           == Move(generation, slotTaken, HasUnknown(old(Ledgers()), call.run), id, call, answer)
      ensures Ledgers() == if seen == [] then old(Ledgers()) else Observe(old(Ledgers()), seen[0])
    {
      next, seen := call.(pc := Leaving(None)), [];
      if answer.EndsUnknown? {
        NoteUnknown(call.run, call.intent);
        seen := [Ended(id, call.intent, call.command, call.run)];
        assert seen[..0] == [];
        ReplaySnoc(old(completions), EndedUnknown(call.run, call.intent));
      } else if answer.Succeeds? {
        next := call.(pc := Answered(call.pc.phase));
        if IsRecovery(call.command) {
          NoteRecovery(call.run, call.intent);
          seen := [Confirmed(id, call.intent, call.command, call.run)];
          assert seen[..0] == [];
          ReplaySnoc(old(completions), Recovered(call.run, call.intent));
        }
      }
    }

    /** Runs one invocation from its program counter to the next await or shared access. */
    method Resume(id: Id, call: Invocation, answer: Answer) returns (next: Invocation, seen: seq<Observation>)
      requires Valid() && (call.pc.InFlight? ==> call.intent > 0)
      modifies this
      ensures Valid() && completions == old(completions) + ToCompletions(seen)
      ensures Effect(next, generation, slotTaken, seen)
           == Move(old(generation), old(slotTaken), HasUnknown(old(Ledgers()), call.run), id, call, answer)
      ensures Ledgers() == if seen == [] then old(Ledgers()) else Observe(old(Ledgers()), seen[0])
    {
      next, seen := call, [];
      var recovery := IsRecovery(call.command);
      match call.pc {
        case Admitted =>
          generation := generation + 1;
          next := call.(intent := generation, pc := if recovery then Ready(FirstPhase(call.command)) else Taken);
        case Taken =>
          var current := EnsureCurrent(call.intent, answer);
          next := call.(pc := if current then Preparing else Done);
        case Preparing =>
          next := call.(pc := if answer.Succeeds? then Prepared else Done);
        case Prepared =>
          var current := EnsureCurrent(call.intent, answer);
          next := call.(pc := if current then Ready(FirstPhase(call.command)) else Done);
        case Ready(phase) =>
          if recovery {
            next := call.(pc := Inside(phase));
          } else if answer.Cancels? {
            next := call.(pc := Done);
          } else if !slotTaken {
            slotTaken := true;
            next := call.(pc := Inside(phase));
          }
        case Inside(phase) =>
          var current := EnsureCurrent(call.intent, answer);
          next := call.(pc := if current then Current(phase) else Leaving(None));
        case Current(phase) =>
          var allowed := EnsureAllowed(call.run, recovery);
          next := call.(pc := if allowed then Cleared(phase) else Leaving(None));
        case Cleared(phase) =>
          seen := [Dispatch(id, call.intent, call.command, call.run, phase)];
          assert seen[..0] == [];
          next := call.(pc := InFlight(phase));
        case InFlight(phase) =>
          next, seen := Land(id, call, answer);
        case Answered(phase) =>
          var current := EnsureCurrent(call.intent, answer);
          var again := current && call.command.OneStep? && phase.SetMode?;
          next := call.(pc := Leaving(if again then Some(SendTick) else None));
        case Leaving(again) =>
          if !recovery {
            slotTaken := false;
          }
          next := call.(pc := if again.Some? then Ready(again.value) else Done);
        case Done =>
      }
    }
  }
}
