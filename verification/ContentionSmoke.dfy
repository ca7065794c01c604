/** The actor and learner loop: workers in lockstep, one shared learner, and the verdict. */
module ContentionSmoke {
  import opened Prelude
  import opened ContentionEpisode

  /** The serialised learner. Its lock makes every update one step; their order is arbitrary. */
  class LearnerContender {
    var updates: nat
    var actorIds: set<(nat, nat)>

    constructor ()
      ensures updates == 0 && actorIds == {}
    {
      updates, actorIds := 0, {};
    }

    /** The body under the lock; whether the model accepts is the world's answer. */
    method Update(actor: (nat, nat))
      modifies this
      ensures updates == old(updates) + 1 && actorIds == old(actorIds) + {actor}
    {
      actorIds := actorIds + {actor};
      updates := updates + 1;
    }

    /** The thread pool: every job runs once, in any order, and all have run at the end. */
    method RunAll(e: nat, jobs: set<nat>)
      modifies this
      ensures updates == old(updates) + |jobs|
      ensures actorIds == old(actorIds) + set w | w in jobs :: (e, w)
    {
      var pending := jobs;
      while pending != {}
        invariant pending <= jobs
        invariant updates == old(updates) + |jobs| - |pending|
        invariant actorIds == old(actorIds) + set w | w in jobs - pending :: (e, w)
        decreases |pending|
      {
        var w :| w in pending;
        Update((e, w));
        pending := pending - {w};
      }
    }
  }

  ghost predicate SomeRaises(world: World, max: nat, e: nat, workers: nat) {
    exists w: nat :: w < workers && Alone(world, max, e, w).None?
  }

  ghost predicate AllHeading(world: World, max: nat, e: nat, workers: nat, ep: Episode) {
    EpisodeOk(world, max, e, workers, ep) && forall w :: w in ep.active ==> Heading(world, max, e, ep, w)
  }

  ghost predicate AllReady(max: nat, ep: Episode)
    requires forall w :: w in ep.active ==> w < |ep.snapshots| == |ep.actionCounts|
  {
    forall w :: w in ep.active ==> Ready(ep, max, w)
  }

  ghost predicate SameArrays(a: Episode, b: Episode) {
    a.snapshots == b.snapshots && a.delivered == b.delivered && a.combat == b.combat && a.actionCounts == b.actionCounts
  }

  /** Where the first loop of a round stands before worker `w`. */
  ghost predicate Selecting(world: World, max: nat, e: nat, workers: nat, start: Episode, ep: Episode, w: nat) {
    && AllHeading(world, max, e, workers, start) && AllHeading(world, max, e, workers, ep)
    && SameArrays(start, ep) && ep.active <= start.active && Counted(ep) == Counted(start)
    && (forall v :: v in ep.active && v < w ==> Ready(ep, max, v))
    && (ep.active == start.active
        || Budget(ep.actionCounts, max, ep.active) < Budget(start.actionCounts, max, start.active))
  }

  lemma {:induction false} SelectRetires(world: World, max: nat, e: nat, workers: nat, start: Episode, ep: Episode,
      w: nat, terminal: Terminal)
    requires Selecting(world, max, e, workers, start, ep, w) && w in ep.active
    requires Alone(world, max, e, w) == Some(Record(e, w, terminal, ep.delivered[w], ep.combat[w]))
    ensures Selecting(world, max, e, workers, start, RetireWorker(ep, e, w, terminal), w + 1)
  {
    RetireKeeps(world, max, e, workers, ep, w, terminal);
    var next := RetireWorker(ep, e, w, terminal);
    forall v | v in next.active ensures Heading(world, max, e, next, v) {
      assert Heading(world, max, e, ep, v);
    }
    forall v | v in next.active && v < w + 1 ensures Ready(next, max, v) {
      assert Ready(ep, max, v);
    }
  }

  lemma {:induction false} SelectKeeps(world: World, max: nat, e: nat, workers: nat, start: Episode,
                                       ep: Episode, w: nat)
    requires Selecting(world, max, e, workers, start, ep, w) && (w in ep.active ==> Ready(ep, max, w))
    ensures Selecting(world, max, e, workers, start, ep, w + 1)
  {
  }

  /** The first loop of a round: retire or select every active worker, in order. */
  method SelectActions(world: World, max: nat, e: nat, workers: nat, start: Episode) returns (ok: bool, ep: Episode)
    requires AllHeading(world, max, e, workers, start)
    ensures !ok ==> SomeRaises(world, max, e, workers)
    ensures ok ==> AllHeading(world, max, e, workers, ep) && AllReady(max, ep)
    ensures ok ==> SameArrays(start, ep) && ep.active <= start.active && Counted(ep) == Counted(start)
    ensures ok ==> ep.active == start.active ||
                   Budget(ep.actionCounts, max, ep.active) < Budget(start.actionCounts, max, start.active)
  {
    ok, ep := true, start;
    for w := 0 to workers
      invariant Selecting(world, max, e, workers, start, ep, w)
    {
      if w !in ep.active {
        SelectKeeps(world, max, e, workers, start, ep, w);
        continue;
      }
      assert Heading(world, max, e, ep, w);
      var snapshot := ep.snapshots[w];
      if ep.actionCounts[w] >= max {
        SelectRetires(world, max, e, workers, start, ep, w, ActionLimit);
        ep := RetireWorker(ep, e, w, ActionLimit);
      } else if snapshot.kind.GameOver? {
        SelectRetires(world, max, e, workers, start, ep, w, Ended);
        ep := RetireWorker(ep, e, w, Ended);
      } else if snapshot.catalog.Unfit? {
        assert Alone(world, max, e, w).None?;
        return false, ep;
      } else if snapshot.catalog.size == 0 {
        SelectRetires(world, max, e, workers, start, ep, w, NoAction);
        ep := RetireWorker(ep, e, w, NoAction);
      } else {
        SelectKeeps(world, max, e, workers, start, ep, w);
      }
    }
  }

  /** One worker's receipt: its action is delivered, or the whole run raises. */
  method TakeReceipt(world: World, max: nat, e: nat, ghost workers: nat, ep: Episode, w: nat)
    returns (next: Option<Snapshot>)
    requires Shaped(ep, workers, max) && w in ep.active && Heading(world, max, e, ep, w) && Ready(ep, max, w)
    ensures next.None? ==> Alone(world, max, e, w).None?
    ensures next.Some? ==>
              && world.receipt(e, w, ep.actionCounts[w]) == Delivered(next.value)
              && (ep.snapshots[w].kind.CombatTurn? && next.value.kind.CombatTurn? ==> next.value.catalog.Complete?)
  {
    var receipt := world.receipt(e, w, ep.actionCounts[w]);
    if receipt.NotDelivered? {
      return None;
    }
    var successor := receipt.successor;
    if ep.snapshots[w].kind.CombatTurn? && successor.kind.CombatTurn? && successor.catalog.Unfit? {
      return None;
    }
    next := Some(successor);
  }

  /** The step of all live workers, in order; the jobs are the workers that fought. */
  method StepLive(world: World, max: nat, e: nat, workers: nat, start: Episode)
    returns (ok: bool, ep: Episode, jobs: set<nat>)
    requires Stepping(world, max, e, workers, start, start, {}, 0)
    ensures !ok ==> SomeRaises(world, max, e, workers)
    ensures ok ==> Stepping(world, max, e, workers, start, ep, jobs, workers)
  {
    ok, ep, jobs := true, start, {};
    for w := 0 to workers
      invariant Stepping(world, max, e, workers, start, ep, jobs, w)
    {
      if w !in ep.active {
        StepSkips(world, max, e, workers, start, ep, jobs, w);
        continue;
      }
      assert Heading(world, max, e, ep, w) && Ready(ep, max, w);
      var next := TakeReceipt(world, max, e, workers, ep, w);
      if next.None? {
        return false, ep, jobs;
      }
      StepAdvances(world, max, e, workers, start, ep, jobs, w, next.value);
      jobs := if ep.snapshots[w].kind.CombatTurn? then jobs + {w} else jobs;
      ep := AdvanceWorker(ep, w, next.value);
    }
  }

  /** Where the last loop of a round stands, against where it started. */
  ghost predicate Reaped(world: World, max: nat, e: nat, workers: nat, start: Episode, ep: Episode, w: nat) {
    && EpisodeOk(world, max, e, workers, start) && Reaping(world, max, e, workers, ep, w)
    && SameArrays(start, ep) && Counted(ep) == Counted(start)
    && Budget(ep.actionCounts, max, ep.active) <= Budget(start.actionCounts, max, start.active)
  }

  lemma {:induction false} ReapStep(world: World, max: nat, e: nat, workers: nat, start: Episode, ep: Episode, w: nat)
    requires Reaped(world, max, e, workers, start, ep, w)
    ensures var next := if w in ep.active && ep.snapshots[w].kind.GameOver? then RetireWorker(ep, e, w, Ended) else ep;
            Reaped(world, max, e, workers, start, next, w + 1)
  {
    if w in ep.active && ep.snapshots[w].kind.GameOver? {
      ReapNext(world, max, e, workers, ep, w);
    }
  }

  /** The last loop of a round: retire the workers whose game is over. */
  method ReapFinished(world: World, max: nat, e: nat, workers: nat, start: Episode) returns (ep: Episode)
    requires Reaping(world, max, e, workers, start, 0)
    ensures Reaping(world, max, e, workers, ep, workers) && SameArrays(start, ep) && Counted(ep) == Counted(start)
    ensures Budget(ep.actionCounts, max, ep.active) <= Budget(start.actionCounts, max, start.active)
  {
    ep := start;
    for w := 0 to workers
      invariant Reaped(world, max, e, workers, start, ep, w)
    {
      ReapStep(world, max, e, workers, start, ep, w);
      if w in ep.active && ep.snapshots[w].kind.GameOver? {
        ep := RetireWorker(ep, e, w, Ended);
      }
    }
  }

  /** The workers that have fought in this episode, as the learner names them. */
  ghost function Fighters(e: nat, combat: seq<nat>): set<(nat, nat)> {
    set w | 0 <= w < |combat| && combat[w] > 0 :: (e, w)
  }

  lemma {:induction false} FightersGrow(e: nat, before: seq<nat>, after: seq<nat>, jobs: set<nat>)
    requires |before| == |after| && forall w :: w in jobs ==> w < |after|
    requires forall w :: 0 <= w < |after| ==> (after[w] > 0 <==> before[w] > 0 || w in jobs)
    ensures Fighters(e, after) == Fighters(e, before) + set w | w in jobs :: (e, w)
  {
  }

  /** The records of one finished episode, in the order in which the workers finished. */
  ghost predicate Block(world: World, max: nat, e: nat, workers: nat, records: seq<Record>) {
    && |records| == workers
    && (forall i :: 0 <= i < |records| ==>
        records[i].workerId < workers && Alone(world, max, e, records[i].workerId) == Some(records[i]))
    && (forall i, j :: 0 <= i < j < |records| ==> records[i].workerId != records[j].workerId)
    && (forall w :: 0 <= w < workers ==> HasRecord(records, w))
  }

  /** range(n) */
  function Range(n: nat): (r: set<nat>)
    ensures |r| == n && forall w :: w in r <==> 0 <= w < n
  {
    if n == 0 then {} else Range(n - 1) + {n - 1}
  }

  lemma {:induction false} DistinctWorkers(records: seq<Record>, workers: nat)
    requires forall i :: 0 <= i < |records| ==> records[i].workerId < workers
    requires forall i, j :: 0 <= i < j < |records| ==> records[i].workerId != records[j].workerId
    requires forall w :: 0 <= w < workers ==> HasRecord(records, w)
    ensures |records| == workers
  {
    var all, key := (r: Record) => true, (r: Record) => r.workerId;
    CountAll(records, all);
    CountDistinct(records, all, key);
    forall w | 0 <= w < workers ensures w in KeysOf(records, all, key) {
      assert HasRecord(records, w);
      var i :| 0 <= i < |records| && records[i].workerId == w;
      assert all(records[i]) && key(records[i]) == w;
    }
    assert KeysOf(records, all, key) == Range(workers);
  }

  /** The workers that fought, as the records tell. */
  ghost function FightersOf(records: seq<Record>): set<(nat, nat)> {
    set i | 0 <= i < |records| && records[i].combat > 0 :: (records[i].episode, records[i].workerId)
  }

  lemma {:induction false} RecordedFighters(world: World, max: nat, e: nat, workers: nat, ep: Episode)
    requires Recorded(world, max, e, workers, ep) && ep.active == {}
    requires forall i :: 0 <= i < |ep.records| ==> ep.records[i].episode == e
    ensures Fighters(e, ep.combat) == FightersOf(ep.records)
  {
    forall w | 0 <= w < workers && ep.combat[w] > 0 ensures (e, w) in FightersOf(ep.records) {
      assert HasRecord(ep.records, w);
      var i :| 0 <= i < |ep.records| && ep.records[i].workerId == w;
      assert ep.records[i].combat > 0;
    }
  }

  lemma {:induction false} EpisodeBlock(world: World, max: nat, e: nat, workers: nat, ep: Episode)
    requires Recorded(world, max, e, workers, ep) && ep.active == {}
    ensures Block(world, max, e, workers, ep.records) && Fighters(e, ep.combat) == FightersOf(ep.records)
  {
    DistinctWorkers(ep.records, workers);
    forall i | 0 <= i < |ep.records| ensures ep.records[i].episode == e {
      SoloBounded(world, max, e, ep.records[i].workerId, world.start(e, ep.records[i].workerId), 0, 0);
    }
    RecordedFighters(world, max, e, workers, ep);
  }

  lemma {:induction false} NothingActive(ep: Episode)
    requires ep.active == {}
    ensures Counted(ep) == SumCombat(ep.records)
  {
    NoneSummed(ep.combat);
  }

  lemma {:induction false} NoneSummed(values: seq<nat>)
    ensures SumOver(values, {}) == 0
  {
    if values != [] {
      NoneSummed(values[..|values| - 1]);
    }
  }

  /** Nothing is counted at the start. */
  lemma {:induction false} ZerosSummed(values: seq<nat>, active: set<nat>)
    requires forall w :: 0 <= w < |values| ==> values[w] == 0
    ensures SumOver(values, active) == 0
  {
    if values != [] {
      ZerosSummed(values[..|values| - 1], active);
    }
  }

  /** An exception of the learner reaches the round that waits for it. */
  lemma {:induction false} LearnerRaises(world: World, max: nat, e: nat, workers: nat, start: Episode, ep: Episode,
      jobs: set<nat>)
    requires Stepping(world, max, e, workers, start, ep, jobs, workers)
    ensures (exists w :: w in jobs && !world.learns(e, w, ep.actionCounts[w] - 1)) ==>
        SomeRaises(world, max, e, workers)
    ensures (forall w :: w in jobs ==> world.learns(e, w, ep.actionCounts[w] - 1)) ==>
        Reaping(world, max, e, workers, ep, 0)
  {
    if w :| w in jobs && !world.learns(e, w, ep.actionCounts[w] - 1) {
      assert HeadingIfLearned(world, max, e, ep, w, true);
    } else {
      forall w | w in ep.active ensures HeadingAfter(world, max, e, ep, w) {
        assert HeadingIfLearned(world, max, e, ep, w, w in jobs);
      }
    }
  }

  lemma {:induction false} ReapedHeading(world: World, max: nat, e: nat, workers: nat, ep: Episode)
    requires Reaping(world, max, e, workers, ep, workers)
    ensures AllHeading(world, max, e, workers, ep)
  {
    forall w | w in ep.active ensures Heading(world, max, e, ep, w) {
      assert HeadingAfter(world, max, e, ep, w);
    }
  }

  /** After a round the learner has named exactly those that have fought by then. */
  lemma {:induction false} RoundFighters(e: nat, start: seq<nat>, after: seq<nat>, jobs: set<nat>,
      before: set<(nat, nat)>)
    requires |start| == |after| && forall w :: w in jobs ==> w < |after|
    requires forall w :: 0 <= w < |after| ==> (after[w] > 0 <==> start[w] > 0 || w in jobs)
    ensures Fighters(e, start) <= Fighters(e, after)
    ensures Fighters(e, start) <= before ==> before + (set w | w in jobs :: (e, w)) == before + Fighters(e, after)
  {
    FightersGrow(e, start, after, jobs);
  }

  /** The second half of a round: step, learn, reap. */
  method PlayRound(world: World, max: nat, e: nat, workers: nat, contender: LearnerContender, start: Episode)
    returns (ok: bool, ep: Episode)
    requires AllHeading(world, max, e, workers, start) && AllReady(max, start) && start.active != {}
    modifies contender
    ensures !ok ==> SomeRaises(world, max, e, workers)
    ensures ok ==> AllHeading(world, max, e, workers, ep)
    ensures ok ==> contender.updates + Counted(start) == old(contender.updates) + Counted(ep)
    ensures ok && Fighters(e, start.combat) <= old(contender.actorIds) ==>
              contender.actorIds == old(contender.actorIds) + Fighters(e, ep.combat)
                  && Fighters(e, start.combat) <= Fighters(e, ep.combat)
    ensures ok ==> Budget(ep.actionCounts, max, ep.active) < Budget(start.actionCounts, max, start.active)
  {
    StepFrom(world, max, e, workers, start);
    var jobs;
    ok, ep, jobs := StepLive(world, max, e, workers, start);
    if !ok {
      return;
    }
    SomeoneActed(world, max, e, workers, start, ep, jobs);
    contender.RunAll(e, jobs);
    RoundFighters(e, start.combat, ep.combat, jobs, old(contender.actorIds));
    LearnerRaises(world, max, e, workers, start, ep, jobs);
    ok := forall w :: w in jobs ==> world.learns(e, w, ep.actionCounts[w] - 1);
    if !ok {
      return;
    }
    ep := ReapFinished(world, max, e, workers, ep);
    ReapedHeading(world, max, e, workers, ep);
  }

  lemma {:induction false} SomeoneActed(world: World, max: nat, e: nat, workers: nat, start: Episode, ep: Episode,
      jobs: set<nat>)
    requires Stepping(world, max, e, workers, start, ep, jobs, workers) && start.active != {}
    ensures Budget(ep.actionCounts, max, ep.active) < Budget(start.actionCounts, max, start.active)
  {
    var v :| v in start.active;
    assert v < workers;
  }

  /** vector.reset(seeds), and the lists of zeros. */
  function Fresh(world: World, e: nat, workers: nat): Episode {
    Episode(seq(workers, w requires 0 <= w < workers => world.start(e, w)), seq(workers, _ => 0), seq(workers, _ => 0),
            seq(workers, _ => 0), Range(workers), [])
  }

  lemma {:induction false} FreshHeading(world: World, max: nat, e: nat, workers: nat)
    ensures AllHeading(world, max, e, workers, Fresh(world, e, workers)) && Counted(Fresh(world, e, workers)) == 0
    ensures Fighters(e, Fresh(world, e, workers).combat) == {}
  {
    ZerosSummed(Fresh(world, e, workers).combat, Range(workers));
  }

  /** The while loop of one episode: rounds until nobody is active. It ends for every world. */
  method PlayAll(world: World, max: nat, e: nat, workers: nat, contender: LearnerContender, start: Episode)
    returns (ok: bool, ep: Episode)
    requires AllHeading(world, max, e, workers, start) && Fighters(e, start.combat) <= contender.actorIds
    modifies contender
    ensures !ok ==> SomeRaises(world, max, e, workers)
    ensures ok ==> AllHeading(world, max, e, workers, ep) && ep.active == {}
    ensures ok ==> contender.updates + Counted(start) == old(contender.updates) + Counted(ep)
    ensures ok ==> contender.actorIds == old(contender.actorIds) + Fighters(e, ep.combat)
  {
    ok, ep := true, start;
    while ep.active != {}
      invariant AllHeading(world, max, e, workers, ep)
      invariant contender.updates + Counted(start) == old(contender.updates) + Counted(ep)
      invariant contender.actorIds == old(contender.actorIds) + Fighters(e, ep.combat)
      decreases Budget(ep.actionCounts, max, ep.active)
    {
      ok, ep := SelectActions(world, max, e, workers, ep);
      if !ok {
        return;
      }
      if ep.active != {} {
        ok, ep := PlayRound(world, max, e, workers, contender, ep);
        if !ok {
          return;
        }
      }
    }
    ok := true;
  }

  /** One episode of all workers. When nothing raises, each worker has exactly one record, the one it
      would have alone, and the learner counted every fight. */
  method RunEpisode(world: World, max: nat, e: nat, workers: nat, contender: LearnerContender)
    returns (ok: bool, records: seq<Record>)
    modifies contender
    ensures !ok ==> SomeRaises(world, max, e, workers)
    ensures ok ==> Block(world, max, e, workers, records)
    ensures ok ==> contender.updates == old(contender.updates) + SumCombat(records)
    ensures ok ==> contender.actorIds == old(contender.actorIds) + FightersOf(records)
  {
    var ep := Fresh(world, e, workers);
    FreshHeading(world, max, e, workers);
    ok, ep := PlayAll(world, max, e, workers, contender, ep);
    records := ep.records;
    if ok {
      NothingActive(ep);
      EpisodeBlock(world, max, e, workers, ep);
    }
  }
}
