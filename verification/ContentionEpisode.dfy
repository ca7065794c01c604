/** One lockstep episode of the contention smoke, against each worker's episode on its own.

    The environments and the learner answer by oracles indexed by episode, worker and action
    count; every call has its own index, so the oracles range over all behaviours. */
module ContentionEpisode {
  import opened Prelude

  datatype Kind = GameOver | CombatTurn | OtherKind

  /** The finite action catalogue of a snapshot; `Unfit` raises. */
  datatype Catalog = Complete(size: nat) | Unfit

  datatype Snapshot = Snapshot(kind: Kind, catalog: Catalog)

  datatype Receipt = Delivered(successor: Snapshot) | NotDelivered

  /** `learns` says that the model accepts the update made after this action. */
  datatype World = World(
    start: (nat, nat) -> Snapshot, receipt: (nat, nat, nat) -> Receipt, learns: (nat, nat, nat) -> bool)

  datatype Terminal = ActionLimit | Ended | NoAction

  /** `episode` and `workerId` stand for the seed derived from them. */
  datatype Record = Record(episode: nat, workerId: nat, terminal: Terminal, delivered: nat, combat: nat)

  // ---- One worker on its own ----

  /** The record of a worker that plays alone from here; None when something raises. */
  ghost function Solo(world: World, max: nat, e: nat, w: nat, s: Snapshot, k: nat, combat: nat): Option<Record>
    decreases max - k
  {
    if k >= max then Some(Record(e, w, ActionLimit, k, combat))
    else if s.kind.GameOver? then Some(Record(e, w, Ended, k, combat))
    else if s.catalog.Unfit? then None
    else if s.catalog.size == 0 then Some(Record(e, w, NoAction, k, combat))
    else
      match world.receipt(e, w, k)
      case NotDelivered => None
      case Delivered(next) =>
        if s.kind.CombatTurn? && ((next.kind.CombatTurn? && next.catalog.Unfit?) || !world.learns(e, w, k)) then None
        else
          var fought := combat + if s.kind.CombatTurn? then 1 else 0;
          if next.kind.GameOver? then Some(Record(e, w, Ended, k + 1, fought))
          else Solo(world, max, e, w, next, k + 1, fought)
  }

  ghost function Alone(world: World, max: nat, e: nat, w: nat): Option<Record> {
    Solo(world, max, e, w, world.start(e, w), 0, 0)
  }

  /** A worker never delivers more than the limit, nor fights more than it delivers; only a record
      at the limit says so, unless the game ended with that very action. */
  lemma {:induction false} SoloBounded(world: World, max: nat, e: nat, w: nat, s: Snapshot, k: nat, combat: nat)
    requires combat <= k <= max && Solo(world, max, e, w, s, k, combat).Some?
    ensures var r := Solo(world, max, e, w, s, k, combat).value;
            && r.episode == e && r.workerId == w && combat <= r.combat <= r.delivered <= max
            && (r.terminal.ActionLimit? ==> r.delivered == max)
            && (r.delivered == max ==> r.terminal.ActionLimit? || r.terminal.Ended?)
    decreases max - k
  {
    if k < max && !s.kind.GameOver? && s.catalog.size > 0 {
      var next := world.receipt(e, w, k).successor;
      if !next.kind.GameOver? {
        SoloBounded(world, max, e, w, next, k + 1, combat + if s.kind.CombatTurn? then 1 else 0);
      }
    }
  }

  // ---- Sums over the active workers ----

  /** The sum of `values` over the workers in `active`. */
  ghost function SumOver(values: seq<nat>, active: set<nat>): nat {
    if values == [] then 0
    else
      var n := |values| - 1;
      SumOver(values[..n], active) + if n in active then values[n] else 0
  }

  lemma {:induction false} SumWithout(values: seq<nat>, active: set<nat>, w: nat)
    requires w in active && w < |values|
    ensures SumOver(values, active) == SumOver(values, active - {w}) + values[w]
  {
    var n := |values| - 1;
    if w == n {
      SumSame(values[..n], active, active - {w});
    } else {
      SumWithout(values[..n], active, w);
    }
  }

  lemma {:induction false} SumSame(values: seq<nat>, a: set<nat>, b: set<nat>)
    requires forall w :: 0 <= w < |values| ==> (w in a <==> w in b)
    ensures SumOver(values, a) == SumOver(values, b)
  {
    if values != [] {
      SumSame(values[..|values| - 1], a, b);
    }
  }

  lemma {:induction false} SumChanged(values: seq<nat>, active: set<nat>, w: nat, value: nat)
    requires w in active && w < |values|
    ensures SumOver(values[w := value], active) + values[w] == SumOver(values, active) + value
  {
    var n := |values| - 1;
    if w == n {
      assert values[w := value][..n] == values[..n];
    } else {
      assert values[w := value][..n] == values[..n][w := value];
      SumChanged(values[..n], active, w, value);
    }
  }

  ghost function SumCombat(records: seq<Record>): nat {
    if records == [] then 0 else SumCombat(records[..|records| - 1]) + records[|records| - 1].combat
  }

  // ---- The lockstep episode ----

  /** The local variables of one episode; a list per worker. */
  datatype Episode = Episode(
    snapshots: seq<Snapshot>, delivered: seq<nat>, combat: seq<nat>, actionCounts: seq<nat>,
    active: set<nat>, records: seq<Record>)

  /** A worker still active can act max - count times and then be retired. */
  ghost function Left(counts: seq<nat>, max: nat): seq<nat>
    requires forall w :: 0 <= w < |counts| ==> counts[w] <= max
  {
    seq(|counts|, w requires 0 <= w < |counts| => max - counts[w] + 1)
  }

  ghost function Budget(counts: seq<nat>, max: nat, active: set<nat>): nat
    requires forall w :: 0 <= w < |counts| ==> counts[w] <= max
  {
    SumOver(Left(counts, max), active)
  }

  ghost predicate Shaped(ep: Episode, workers: nat, max: nat) {
    && |ep.snapshots| == |ep.delivered| == |ep.combat| == |ep.actionCounts| == workers
    && ep.delivered == ep.actionCounts
    && (forall w :: w in ep.active ==> w < workers)
    && (forall w :: 0 <= w < workers ==> ep.combat[w] <= ep.actionCounts[w] <= max)
  }

  ghost predicate HasRecord(records: seq<Record>, w: nat) {
    exists i :: 0 <= i < |records| && records[i].workerId == w
  }

  /** Every retired worker has its one record, and it is the record of playing alone. */
  ghost predicate Recorded(world: World, max: nat, e: nat, workers: nat, ep: Episode) {
    && |ep.combat| == workers
    && (forall i :: 0 <= i < |ep.records| ==>
          && ep.records[i].workerId < workers && ep.records[i].workerId !in ep.active
          && Alone(world, max, e, ep.records[i].workerId) == Some(ep.records[i])
          && ep.records[i].combat == ep.combat[ep.records[i].workerId])
    && (forall i, j :: 0 <= i < j < |ep.records| ==> ep.records[i].workerId != ep.records[j].workerId)
    && (forall w :: 0 <= w < workers && w !in ep.active ==> HasRecord(ep.records, w))
  }

  /** An active worker still heads for the record of playing alone. */
  ghost predicate Heading(world: World, max: nat, e: nat, ep: Episode, w: nat)
    requires w < |ep.snapshots| == |ep.combat| == |ep.actionCounts|
  {
    Solo(world, max, e, w, ep.snapshots[w], ep.actionCounts[w], ep.combat[w]) == Alone(world, max, e, w)
  }

  /** The same for a worker whose action was just delivered: a finished game comes first. */
  ghost predicate HeadingAfter(world: World, max: nat, e: nat, ep: Episode, w: nat)
    requires w < |ep.snapshots| == |ep.combat| == |ep.actionCounts|
  {
    if ep.snapshots[w].kind.GameOver? then
      Some(Record(e, w, Ended, ep.actionCounts[w], ep.combat[w])) == Alone(world, max, e, w)
    else Heading(world, max, e, ep, w)
  }

  predicate Ready(ep: Episode, max: nat, w: nat)
    requires w < |ep.snapshots| == |ep.actionCounts|
  {
    ep.actionCounts[w] < max && !ep.snapshots[w].kind.GameOver? && ep.snapshots[w].catalog.Complete?
        && ep.snapshots[w].catalog.size > 0
  }

  /** episodes.append(_episode_record(…)); active.remove(worker_id). */
  function RetireWorker(ep: Episode, e: nat, w: nat, terminal: Terminal): Episode
    requires w < |ep.delivered| == |ep.combat|
  {
    ep.(records := ep.records + [Record(e, w, terminal, ep.delivered[w], ep.combat[w])], active := ep.active - {w})
  }

  ghost predicate EpisodeOk(world: World, max: nat, e: nat, workers: nat, ep: Episode) {
    Shaped(ep, workers, max) && Recorded(world, max, e, workers, ep)
  }

  /** What the learner has counted for this episode. */
  ghost function Counted(ep: Episode): nat {
    SumCombat(ep.records) + SumOver(ep.combat, ep.active)
  }

  lemma {:induction false} RetireRecorded(world: World, max: nat, e: nat, workers: nat, ep: Episode, w: nat, r: Record)
    requires Recorded(world, max, e, workers, ep) && w in ep.active && w < workers
    requires Alone(world, max, e, w) == Some(r) && r.workerId == w && r.combat == ep.combat[w]
    ensures Recorded(world, max, e, workers, ep.(records := ep.records + [r], active := ep.active - {w}))
  {
    var next := ep.(records := ep.records + [r], active := ep.active - {w});
    assert next.records[|ep.records|] == r;
    assert forall i :: 0 <= i < |ep.records| ==> next.records[i] == ep.records[i];
    forall v | 0 <= v < workers && v !in next.active ensures HasRecord(next.records, v) {
      if v != w {
        assert HasRecord(ep.records, v);
        var i :| 0 <= i < |ep.records| && ep.records[i].workerId == v;
        assert next.records[i].workerId == v;
      }
    }
  }

  lemma {:induction false} RetireCounted(ep: Episode, e: nat, w: nat, terminal: Terminal)
    requires w in ep.active && w < |ep.delivered| == |ep.combat|
    ensures Counted(RetireWorker(ep, e, w, terminal)) == Counted(ep)
  {
    var next := RetireWorker(ep, e, w, terminal);
    assert next.records[..|next.records| - 1] == ep.records;
    SumWithout(ep.combat, ep.active, w);
  }

  lemma {:induction false} RetireKeeps(world: World, max: nat, e: nat, workers: nat, ep: Episode, w: nat,
      terminal: Terminal)
    requires EpisodeOk(world, max, e, workers, ep) && w in ep.active
    requires Alone(world, max, e, w) == Some(Record(e, w, terminal, ep.delivered[w], ep.combat[w]))
    ensures var next := RetireWorker(ep, e, w, terminal);
            && EpisodeOk(world, max, e, workers, next) && Counted(next) == Counted(ep)
            && Budget(next.actionCounts, max, next.active) < Budget(ep.actionCounts, max, ep.active)
  {
    RetireRecorded(world, max, e, workers, ep, w, Record(e, w, terminal, ep.delivered[w], ep.combat[w]));
    RetireCounted(ep, e, w, terminal);
    SumWithout(Left(ep.actionCounts, max), ep.active, w);
  }

  // ---- One delivered action ----

  function AdvanceWorker(ep: Episode, w: nat, next: Snapshot): Episode
    requires w < |ep.snapshots| == |ep.delivered| == |ep.combat| == |ep.actionCounts|
  {
    ep.(snapshots := ep.snapshots[w := next], delivered := ep.delivered[w := ep.delivered[w] + 1],
        actionCounts := ep.actionCounts[w := ep.actionCounts[w] + 1],
        combat := if ep.snapshots[w].kind.CombatTurn? then ep.combat[w := ep.combat[w] + 1] else ep.combat)
  }

  /** After its action, before the learner has answered: an update that raises is the worker's end. */
  ghost predicate HeadingIfLearned(world: World, max: nat, e: nat, ep: Episode, w: nat, job: bool)
    requires w < |ep.snapshots| == |ep.combat| == |ep.actionCounts|
  {
    && ep.actionCounts[w] > 0
    && if job && !world.learns(e, w, ep.actionCounts[w] - 1) then Alone(world, max, e, w).None?
       else HeadingAfter(world, max, e, ep, w)
  }

  lemma {:induction false} AdvanceHeading(world: World, max: nat, e: nat, workers: nat, ep: Episode, w: nat,
      next: Snapshot)
    requires Shaped(ep, workers, max) && w in ep.active && Heading(world, max, e, ep, w) && Ready(ep, max, w)
    requires world.receipt(e, w, ep.actionCounts[w]) == Delivered(next)
    requires ep.snapshots[w].kind.CombatTurn? && next.kind.CombatTurn? ==> next.catalog.Complete?
    ensures HeadingIfLearned(world, max, e, AdvanceWorker(ep, w, next), w, ep.snapshots[w].kind.CombatTurn?)
  {
  }

  lemma {:induction false} AdvanceRecorded(world: World, max: nat, e: nat, workers: nat, ep: Episode, w: nat,
      next: Snapshot)
    requires Shaped(ep, workers, max) && Recorded(world, max, e, workers, ep) && w in ep.active
    ensures Recorded(world, max, e, workers, AdvanceWorker(ep, w, next))
  {
    var after := AdvanceWorker(ep, w, next);
    assert after.records == ep.records && after.active == ep.active;
    forall i | 0 <= i < |after.records|
      ensures after.records[i].combat == after.combat[after.records[i].workerId]
    {
      assert ep.records[i].workerId != w;
    }
  }

  lemma {:induction false} AdvanceCounted(ep: Episode, w: nat, next: Snapshot)
    requires w in ep.active && w < |ep.snapshots| == |ep.delivered| == |ep.combat| == |ep.actionCounts|
    ensures Counted(AdvanceWorker(ep, w, next)) == Counted(ep) + if ep.snapshots[w].kind.CombatTurn? then 1 else 0
  {
    SumChanged(ep.combat, ep.active, w, ep.combat[w] + 1);
  }

  lemma {:induction false} AdvanceBudget(counts: seq<nat>, max: nat, active: set<nat>, w: nat)
    requires w in active && w < |counts| && counts[w] < max && forall v :: 0 <= v < |counts| ==> counts[v] <= max
    ensures Budget(counts[w := counts[w] + 1], max, active) < Budget(counts, max, active)
  {
    var left := Left(counts, max);
    assert Left(counts[w := counts[w] + 1], max) == left[w := left[w] - 1];
    SumChanged(left, active, w, left[w] - 1);
  }

  /** Before worker `w` of a step: the earlier ones have acted, the later ones not yet. */
  ghost predicate HalfStepped(world: World, max: nat, e: nat, ep: Episode, jobs: set<nat>, w: nat)
    requires forall v :: v in ep.active ==> v < |ep.snapshots| == |ep.combat| == |ep.actionCounts|
  {
    && (forall v :: v in ep.active && v < w ==> HeadingIfLearned(world, max, e, ep, v, v in jobs))
    && (forall v :: v in ep.active && w <= v ==> Heading(world, max, e, ep, v) && Ready(ep, max, v))
  }

  /** What the step has counted so far: one job for every worker that fought. */
  ghost predicate HalfCounted(start: Episode, ep: Episode, jobs: set<nat>, w: nat) {
    && |start.combat| == |ep.combat| && ep.active == start.active && jobs <= ep.active
        && (forall v :: v in jobs ==> v < w)
    && Counted(ep) == Counted(start) + |jobs|
    && (forall v :: 0 <= v < |ep.combat| ==> (ep.combat[v] > 0 <==> start.combat[v] > 0 || v in jobs))
  }

  /** Time runs down once anyone has acted. */
  ghost predicate HalfSpent(start: Episode, ep: Episode, max: nat, w: nat)
    requires forall v :: 0 <= v < |start.actionCounts| ==> start.actionCounts[v] <= max
    requires forall v :: 0 <= v < |ep.actionCounts| ==> ep.actionCounts[v] <= max
  {
    && Budget(ep.actionCounts, max, ep.active) <= Budget(start.actionCounts, max, start.active)
    && ((exists v :: v in start.active && v < w) ==>
          Budget(ep.actionCounts, max, ep.active) < Budget(start.actionCounts, max, start.active))
  }

  ghost predicate Stepping(world: World, max: nat, e: nat, workers: nat, start: Episode, ep: Episode, jobs: set<nat>,
      w: nat)
  {
    && Shaped(start, workers, max) && EpisodeOk(world, max, e, workers, ep)
    && HalfStepped(world, max, e, ep, jobs, w) && HalfCounted(start, ep, jobs, w) && HalfSpent(start, ep, max, w)
  }

  lemma {:induction false} StepFrom(world: World, max: nat, e: nat, workers: nat, ep: Episode)
    requires EpisodeOk(world, max, e, workers, ep)
    requires forall w :: w in ep.active ==> Heading(world, max, e, ep, w) && Ready(ep, max, w)
    ensures Stepping(world, max, e, workers, ep, ep, {}, 0)
  {
  }

  lemma {:induction false} NobodyActed(start: Episode, active: set<nat>, w: nat)
    requires start.active == active && w !in active
    ensures (exists v :: v in start.active && v < w + 1) ==> exists v :: v in start.active && v < w
  {
    if v :| v in start.active && v < w + 1 {
      assert v < w;
    }
  }

  /** An inactive worker is passed over. */
  lemma {:induction false} StepSkips(world: World, max: nat, e: nat, workers: nat, start: Episode, ep: Episode,
      jobs: set<nat>, w: nat)
    requires Stepping(world, max, e, workers, start, ep, jobs, w) && w !in ep.active
    ensures Stepping(world, max, e, workers, start, ep, jobs, w + 1)
  {
    NobodyActed(start, ep.active, w);
    assert HalfSpent(start, ep, max, w + 1);
    assert HalfCounted(start, ep, jobs, w + 1);
  }

  /** The other workers are where they were. */
  lemma AdvanceOthers(world: World, max: nat, e: nat, ep: Episode, w: nat, next: Snapshot, v: nat)
    requires w < |ep.snapshots| == |ep.delivered| == |ep.combat| == |ep.actionCounts| && v < |ep.combat| && v != w
    ensures var after := AdvanceWorker(ep, w, next);
            && after.snapshots[v] == ep.snapshots[v] && after.combat[v] == ep.combat[v]
                && after.actionCounts[v] == ep.actionCounts[v]
            && (Heading(world, max, e, after, v) <==> Heading(world, max, e, ep, v))
            && (Ready(after, max, v) <==> Ready(ep, max, v))
            && (forall job :: HeadingIfLearned(world, max, e, after, v, job) <==>
                HeadingIfLearned(world, max, e, ep, v, job))
  {
  }

  lemma {:induction false} AdvanceKeeps(world: World, max: nat, e: nat, workers: nat, ep: Episode, w: nat,
      next: Snapshot)
    requires EpisodeOk(world, max, e, workers, ep) && w in ep.active && ep.actionCounts[w] < max
    ensures EpisodeOk(world, max, e, workers, AdvanceWorker(ep, w, next))
  {
    AdvanceRecorded(world, max, e, workers, ep, w, next);
  }

  lemma {:induction false} AdvanceHalf(world: World, max: nat, e: nat, workers: nat, ep: Episode, jobs: set<nat>,
      w: nat, next: Snapshot)
    requires Shaped(ep, workers, max) && w in ep.active && HalfStepped(world, max, e, ep, jobs, w)
    requires world.receipt(e, w, ep.actionCounts[w]) == Delivered(next)
    requires ep.snapshots[w].kind.CombatTurn? && next.kind.CombatTurn? ==> next.catalog.Complete?
    ensures HalfStepped(world, max, e, AdvanceWorker(ep, w, next),
        if ep.snapshots[w].kind.CombatTurn? then jobs + {w} else jobs - {w}, w + 1)
  {
    var after := AdvanceWorker(ep, w, next);
    var more := if ep.snapshots[w].kind.CombatTurn? then jobs + {w} else jobs - {w};
    AdvanceHeading(world, max, e, workers, ep, w, next);
    forall v | v in after.active && v < w + 1 ensures HeadingIfLearned(world, max, e, after, v, v in more) {
      if v < w {
        AdvanceOthers(world, max, e, ep, w, next, v);
      }
    }
    forall v | v in after.active && w + 1 <= v ensures Heading(world, max, e, after, v) && Ready(after, max, v) {
      AdvanceOthers(world, max, e, ep, w, next, v);
    }
  }

  lemma {:induction false} AdvanceTally(start: Episode, ep: Episode, jobs: set<nat>, w: nat, next: Snapshot)
    requires HalfCounted(start, ep, jobs, w) && w in ep.active
    requires w < |ep.snapshots| == |ep.delivered| == |ep.combat| == |ep.actionCounts|
    ensures HalfCounted(start, AdvanceWorker(ep, w, next),
        if ep.snapshots[w].kind.CombatTurn? then jobs + {w} else jobs - {w}, w + 1)
  {
    AdvanceCounted(ep, w, next);
    assert jobs - {w} == jobs;
  }

  lemma {:induction false} AdvanceSpent(start: Episode, ep: Episode, max: nat, w: nat, next: Snapshot)
    requires forall v :: 0 <= v < |start.actionCounts| ==> start.actionCounts[v] <= max
    requires forall v :: 0 <= v < |ep.actionCounts| ==> ep.actionCounts[v] <= max
    requires w in ep.active && w < |ep.snapshots| == |ep.delivered| == |ep.combat| == |ep.actionCounts|
        && ep.actionCounts[w] < max
    requires HalfSpent(start, ep, max, w)
    ensures HalfSpent(start, AdvanceWorker(ep, w, next), max, w + 1)
  {
    AdvanceBudget(ep.actionCounts, max, ep.active, w);
  }

  lemma {:induction false} StepAdvances(world: World, max: nat, e: nat, workers: nat, start: Episode, ep: Episode,
      jobs: set<nat>, w: nat, next: Snapshot)
    requires Stepping(world, max, e, workers, start, ep, jobs, w) && w in ep.active
    requires world.receipt(e, w, ep.actionCounts[w]) == Delivered(next)
    requires ep.snapshots[w].kind.CombatTurn? && next.kind.CombatTurn? ==> next.catalog.Complete?
    ensures Stepping(world, max, e, workers, start, AdvanceWorker(ep, w, next),
                     if ep.snapshots[w].kind.CombatTurn? then jobs + {w} else jobs, w + 1)
  {
    assert w !in jobs && jobs - {w} == jobs;
    assert ep.actionCounts[w] < max by {
      assert Ready(ep, max, w);
    }
    AdvanceKeeps(world, max, e, workers, ep, w, next);
    AdvanceHalf(world, max, e, workers, ep, jobs, w, next);
    AdvanceTally(start, ep, jobs, w, next);
    AdvanceSpent(start, ep, max, w, next);
  }

  /** Where the last loop of a round stands before worker `w`. */
  ghost predicate Reaping(world: World, max: nat, e: nat, workers: nat, ep: Episode, w: nat) {
    && EpisodeOk(world, max, e, workers, ep)
    && (forall v :: v in ep.active ==> HeadingAfter(world, max, e, ep, v))
    && (forall v :: v in ep.active && v < w ==> !ep.snapshots[v].kind.GameOver?)
  }

  lemma {:induction false} ReapNext(world: World, max: nat, e: nat, workers: nat, ep: Episode, w: nat)
    requires Reaping(world, max, e, workers, ep, w) && w in ep.active && ep.snapshots[w].kind.GameOver?
    ensures var next := RetireWorker(ep, e, w, Ended);
            && Reaping(world, max, e, workers, next, w + 1) && Counted(next) == Counted(ep)
            && Budget(next.actionCounts, max, next.active) < Budget(ep.actionCounts, max, ep.active)
  {
    assert HeadingAfter(world, max, e, ep, w);
    RetireKeeps(world, max, e, workers, ep, w, Ended);
    RetireOthers(world, max, e, workers, ep, w);
  }

  lemma {:induction false} RetireOthers(world: World, max: nat, e: nat, workers: nat, ep: Episode, w: nat)
    requires Shaped(ep, workers, max) && w < workers
    requires forall v :: v in ep.active ==> HeadingAfter(world, max, e, ep, v)
    ensures forall v :: v in ep.active - {w} ==> HeadingAfter(world, max, e, RetireWorker(ep, e, w, Ended), v)
  {
    forall v | v in ep.active - {w} ensures HeadingAfter(world, max, e, RetireWorker(ep, e, w, Ended), v) {
      assert HeadingAfter(world, max, e, ep, v);
    }
  }
}
