/** What one call of RegisterFromChooseARelicScreen does, for every registration it meets. */
module RelicRegistration {
  import opened Prelude
  import opened RelicRegistry

  /** Registering the same list again under a live parent changes no registration and leaves no observer
      behind, so a choice that could be made still can. */
  lemma {:induction false} RepeatIgnored(r: Registry, q: Request, collected: set<Object>, c: Choice)
    requires Valid(r) && q.local && q.parent.Some?
    requires c in r.choices && c.list !in collected && c.parent == q.parent && c.list == q.list
    ensures var live, after := Remove(r, Collected(collected)), Register(r, q, collected);
            after.choices == live.choices && after.undisposed == live.undisposed
    ensures !c.ambiguous ==> CurrentCarrier(Register(r, q, collected), q.parent, true) == Some(c)
  {
    var live := Remove(r, Collected(collected));
    RemoveValid(r, Collected(collected));
    OnlyMatch(live.choices, c);
    if !c.ambiguous {
      RegisterValid(r, q, collected);
      CarrierIff(Register(r, q, collected), q.parent.value, true, c);
    }
  }

  /** After registering under a parent with a live registration, the parent is ambiguous exactly when the two
      lists differ or it was ambiguous before. */
  lemma {:induction false} AmbiguousIff(r: Registry, q: Request, collected: set<Object>, c: Choice)
    requires Valid(r) && q.local && q.parent.Some?
    requires c in r.choices && c.list !in collected && c.parent == q.parent
    ensures AmbiguousFor(Register(r, q, collected), q.parent.value) <==> c.list != q.list || c.ambiguous
  {
    if c.list != q.list {
      SecondListCollapses(r, q, collected, c);
    } else {
      RepeatIgnored(r, q, collected, c);
      var live := Remove(r, Collected(collected));
      RemoveValid(r, Collected(collected));
      assert c in live.choices;
      if d :| d in live.choices && d.parent == q.parent && d.ambiguous {
        SameParent(live.choices, c, d);
      }
    }
  }

  /** The live registrations under other parents, oldest first. */
  ghost function Others(r: Registry, q: Request, collected: set<Object>): seq<Choice> {
    Remove(Remove(r, Collected(collected)), UnderParent(q.parent)).choices
  }

  /** The call has nothing to add: the player is not the local one, or the list is registered already. */
  ghost predicate Ignored(r: Registry, q: Request, collected: set<Object>) {
    !q.local || exists c :: c in r.choices && c.list !in collected && c.list == q.list
                            && c.parent.Some? && c.parent == q.parent
  }

  /** Such a call changes no registration and no observer, beyond the clean-up of a local call. */
  lemma {:induction false} IgnoredKeeps(r: Registry, q: Request, collected: set<Object>)
    requires Valid(r) && Ignored(r, q, collected)
    ensures var before, after := if q.local then Remove(r, Collected(collected)) else r, Register(r, q, collected);
            after.choices == before.choices && after.undisposed == before.undisposed
  {
    if q.local {
      var c :| c in r.choices && c.list !in collected && c.list == q.list && c.parent.Some? && c.parent == q.parent;
      RepeatIgnored(r, q, collected, c);
    }
  }

  /** The live registrations of the same parent: at most one, and none with this list unless ignored. */
  lemma {:induction false} SameMeans(live: Registry, q: Request)
    requires Valid(live) && !Ignored(live, q, {}) && q.local
    ensures var same := Keep(live.choices, UnderParent(q.parent));
            && (same != [] <==> q.parent.Some? && HasParent(live, q.parent.value))
            && !(|same| == 1 && same[0].list == q.list)
  {
    var same := Keep(live.choices, UnderParent(q.parent));
    KeepMeans(live.choices, UnderParent(q.parent));
    if same != [] {
      assert same[0] in same && same[0] in live.choices;
      assert HasParent(live, q.parent.value);
    }
  }

  lemma EvictedAfterAdd(others: Registry, c: Choice)
    requires |others.choices| <= CAPACITY
    ensures Evict(Add(others, c)).choices ==
        (if |others.choices| == CAPACITY then others.choices[1..] else others.choices) + [c]
  {
  }

  lemma {:induction false} InstallsNew(r: Registry, q: Request, collected: set<Object>)
    requires Valid(r) && !Ignored(r, q, collected)
    ensures var live := Remove(r, Collected(collected));
            var c := NewChoice(r.next, q, q.parent.Some? && HasParent(live, q.parent.value));
            Register(r, q, collected) == Evict(Add(Remove(live, UnderParent(q.parent)), c))
  {
    var live := Remove(r, Collected(collected));
    RemoveValid(r, Collected(collected));
    SameMeans(live, q);
  }

  /** Otherwise the new registration comes last, after those of other parents, and of these only the oldest
      goes, and only when the registry is full. A registration without a parent is never ambiguous. */
  lemma {:induction false} RegisterAdds(r: Registry, q: Request, collected: set<Object>)
    requires Valid(r) && !Ignored(r, q, collected)
    ensures var others, after := Others(r, q, collected), Register(r, q, collected).choices;
            var c := NewChoice(r.next, q, q.parent.Some? && HasParent(Remove(r, Collected(collected)), q.parent.value));
            after == (if |others| == CAPACITY then others[1..] else others) + [c]
  {
    var live := Remove(r, Collected(collected));
    RemoveValid(r, Collected(collected));
    InstallsNew(r, q, collected);
    KeepMeans(live.choices, Not(UnderParent(q.parent)));
    EvictedAfterAdd(Remove(live, UnderParent(q.parent)),
                    NewChoice(r.next, q, q.parent.Some? && HasParent(live, q.parent.value)));
  }
}
