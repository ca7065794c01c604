/** What the record of a worker says about the game it played, action by action. */
module ContentionPlay {
  import opened Prelude
  import opened ContentionEpisode

  /** The snapshot after `k` delivered actions; None once one was not delivered. */
  ghost function SnapshotAt(world: World, e: nat, w: nat, k: nat): Option<Snapshot> {
    if k == 0 then Some(world.start(e, w))
    else match world.receipt(e, w, k - 1)
      case Delivered(next) => Some(next)
      case NotDelivered => None
  }

  predicate Over(s: Option<Snapshot>) {
    s.Some? && s.value.kind.GameOver?
  }

  predicate Fights(s: Option<Snapshot>) {
    s.Some? && s.value.kind.CombatTurn?
  }

  /** Something can be chosen. */
  predicate Playable(s: Option<Snapshot>) {
    s.Some? && !s.value.kind.GameOver? && s.value.catalog.Complete? && s.value.catalog.size > 0
  }

  /** Action `k` goes through: it can be chosen and is delivered, and after a fight the next actions can be listed,
      if the fight goes on, and the model accepts the update. */
  ghost predicate GoesThrough(world: World, e: nat, w: nat, k: nat) {
    && Playable(SnapshotAt(world, e, w, k)) && SnapshotAt(world, e, w, k + 1).Some?
    && (Fights(SnapshotAt(world, e, w, k)) ==>
          && world.learns(e, w, k)
          && (Fights(SnapshotAt(world, e, w, k + 1)) ==>
                SnapshotAt(world, e, w, k + 1).value.catalog.Complete?))
  }

  ghost predicate GoesThroughBefore(world: World, e: nat, w: nat, n: nat) {
    forall k: nat :: k < n ==> GoesThrough(world, e, w, k)
  }

  /** How many of the first `n` actions were fights. */
  ghost function FightsBefore(world: World, e: nat, w: nat, n: nat): nat {
    if n == 0 then 0 else FightsBefore(world, e, w, n - 1) + if Fights(SnapshotAt(world, e, w, n - 1)) then 1 else 0
  }

  /** How the play ends after `n` delivered actions. */
  ghost predicate EndsWith(world: World, max: nat, e: nat, w: nat, n: nat, terminal: Terminal) {
    var s := SnapshotAt(world, e, w, n);
    match terminal
    case Ended => Over(s)
    case ActionLimit => n == max && !Over(s)
    case NoAction => n < max && !Over(s) && s.Some? && s.value.catalog == Complete(0)
  }

  /** The record tells the game: its actions all went through, it counts them and the fights among them, and it
      ends for the reason it gives. */
  ghost predicate Tells(world: World, max: nat, e: nat, w: nat, r: Record) {
    && r.episode == e && r.workerId == w && r.delivered <= max
    && GoesThroughBefore(world, e, w, r.delivered) && r.combat == FightsBefore(world, e, w, r.delivered)
    && EndsWith(world, max, e, w, r.delivered, r.terminal)
  }

  /** Action `n` is reached and does not go through, and the play does not end there. */
  ghost predicate RaisesAt(world: World, max: nat, e: nat, w: nat, n: nat) {
    && n < max && GoesThroughBefore(world, e, w, n) && !GoesThrough(world, e, w, n)
    && !Over(SnapshotAt(world, e, w, n))
    && !(SnapshotAt(world, e, w, n).Some? && SnapshotAt(world, e, w, n).value.catalog == Complete(0))
  }

  lemma {:induction false} SoloTells(world: World, max: nat, e: nat, w: nat, s: Snapshot, k: nat, combat: nat)
    requires max >= 1 && k <= max && SnapshotAt(world, e, w, k) == Some(s)
    requires GoesThroughBefore(world, e, w, k) && combat == FightsBefore(world, e, w, k)
    requires k == max ==> !s.kind.GameOver?
    ensures var solo := Solo(world, max, e, w, s, k, combat);
            if solo.Some? then Tells(world, max, e, w, solo.value) else exists n: nat :: RaisesAt(world, max, e, w, n)
    decreases max - k
  {
    if k < max && !s.kind.GameOver? && !(s.catalog == Complete(0)) {
      if GoesThrough(world, e, w, k) {
        var next := SnapshotAt(world, e, w, k + 1).value;
        assert GoesThroughBefore(world, e, w, k + 1);
        if !next.kind.GameOver? {
          SoloTells(world, max, e, w, next, k + 1, FightsBefore(world, e, w, k + 1));
        }
      } else {
        assert RaisesAt(world, max, e, w, k);
      }
    }
  }

  /** Of two records that tell the same game, both end at the same action. */
  lemma {:induction false} EndsOnce(world: World, max: nat, e: nat, w: nat, r: Record, n: nat)
    requires Tells(world, max, e, w, r)
    requires (exists q :: Tells(world, max, e, w, q) && q.delivered == n) || RaisesAt(world, max, e, w, n)
    ensures n == r.delivered && !RaisesAt(world, max, e, w, n)
  {
    assert n < r.delivered ==> GoesThrough(world, e, w, n);
    assert r.delivered < n ==> GoesThrough(world, e, w, r.delivered);
  }

  lemma {:induction false} TellsUnique(world: World, max: nat, e: nat, w: nat, r: Record, q: Record)
    requires Tells(world, max, e, w, r) && Tells(world, max, e, w, q)
    ensures r == q
  {
    EndsOnce(world, max, e, w, r, q.delivered);
  }

  /** A worker alone has a record exactly when the record tells its game, and it has none exactly when some action
      it reaches cannot be listed, is not delivered or is not learned from. */
  lemma {:induction false} AloneIff(world: World, max: nat, e: nat, w: nat, r: Record)
    requires max >= 1
    ensures Alone(world, max, e, w) == Some(r) <==> Tells(world, max, e, w, r)
    ensures Alone(world, max, e, w).None? <==> exists n: nat :: RaisesAt(world, max, e, w, n)
  {
    SoloTells(world, max, e, w, world.start(e, w), 0, 0);
    var alone := Alone(world, max, e, w);
    if alone.Some? {
      forall n: nat ensures !RaisesAt(world, max, e, w, n) {
        if RaisesAt(world, max, e, w, n) {
          EndsOnce(world, max, e, w, alone.value, n);
        }
      }
      if Tells(world, max, e, w, r) {
        TellsUnique(world, max, e, w, alone.value, r);
      }
    } else if Tells(world, max, e, w, r) {
      var n: nat :| RaisesAt(world, max, e, w, n);
      EndsOnce(world, max, e, w, r, n);
    }
  }
}
