/** The registry of pending relic choices: one per parent action, at most sixteen, each with its observer.

    Objects are identities: option lists, relics and parent actions are numbers that differ when the
    objects do. Garbage collection of an option list is an arbitrary event. */
module RelicRegistry {
  import opened Prelude

  type Object = nat

  /** `observed` is the lineage status parent_observed. */
  datatype Choice = Choice(id: nat, list: Object, options: seq<Object>, parent: Option<Object>, observed: bool,
      ambiguous: bool)

  /** `undisposed` holds the ids of the choices whose lifecycle observer still listens; `next` is a
      number no object has yet. */
  datatype Registry = Registry(choices: seq<Choice>, undisposed: set<nat>, next: nat)

  const CAPACITY := 16

  /** The elements that satisfy `p`, in order. */
  function Keep(s: seq<Choice>, p: Choice -> bool): seq<Choice> {
    if s == [] then []
    else
      var n := |s| - 1;
      Keep(s[..n], p) + if p(s[n]) then [s[n]] else []
  }

  function Not(p: Choice -> bool): Choice -> bool {
    (c: Choice) => !p(c)
  }

  ghost predicate DistinctIds(s: seq<Choice>) {
    forall i, j :: 0 <= i < j < |s| ==> s[i].id != s[j].id
  }

  ghost predicate DistinctParents(s: seq<Choice>) {
    forall i, j :: 0 <= i < j < |s| && s[i].parent.Some? ==> s[i].parent != s[j].parent
  }

  /** The choices whose observer must listen. */
  ghost function WithParent(s: seq<Choice>): set<nat> {
    set c | c in s && c.parent.Some? :: c.id
  }

  ghost predicate Valid(r: Registry) {
    && DistinctIds(r.choices) && DistinctParents(r.choices)
    && (forall c :: c in r.choices ==> c.id < r.next)
    && r.undisposed == WithParent(r.choices)
    && |r.choices| <= CAPACITY
  }

  lemma {:induction false} KeepMembers(s: seq<Choice>, p: Choice -> bool)
    ensures forall c :: c in Keep(s, p) <==> c in s && p(c)
    ensures |Keep(s, p)| <= |s|
  {
    if s != [] {
      var n := |s| - 1;
      KeepMembers(s[..n], p);
      assert s == s[..n] + [s[n]];
    }
  }

  lemma {:induction false} KeepIds(s: seq<Choice>, p: Choice -> bool)
    requires DistinctIds(s)
    ensures DistinctIds(Keep(s, p))
  {
    if s != [] {
      var n := |s| - 1;
      KeepIds(s[..n], p);
      KeepMembers(s[..n], p);
      var front := Keep(s[..n], p);
      forall i | 0 <= i < |front| ensures front[i].id != s[n].id {
        assert front[i] in s[..n];
        var k :| 0 <= k < n && s[..n][k] == front[i];
        assert s[k] == front[i];
      }
    }
  }

  lemma {:induction false} KeepParents(s: seq<Choice>, p: Choice -> bool)
    requires DistinctParents(s)
    ensures DistinctParents(Keep(s, p))
  {
    if s != [] {
      var n := |s| - 1;
      KeepParents(s[..n], p);
      KeepMembers(s[..n], p);
      var front := Keep(s[..n], p);
      forall i | 0 <= i < |front| && front[i].parent.Some? ensures front[i].parent != s[n].parent {
        assert front[i] in s[..n];
        var k :| 0 <= k < n && s[..n][k] == front[i];
        assert s[k] == front[i];
      }
    }
  }

  lemma {:induction false} KeepMeans(s: seq<Choice>, p: Choice -> bool)
    ensures forall c :: c in Keep(s, p) <==> c in s && p(c)
    ensures |Keep(s, p)| <= |s|
    ensures DistinctIds(s) ==> DistinctIds(Keep(s, p))
    ensures DistinctParents(s) ==> DistinctParents(Keep(s, p))
  {
    KeepMembers(s, p);
    if DistinctIds(s) {
      KeepIds(s, p);
    }
    if DistinctParents(s) {
      KeepParents(s, p);
    }
  }

  /** Takes the choices that satisfy `p` out and disposes their observers. */
  ghost function Remove(r: Registry, p: Choice -> bool): Registry {
    r.(choices := Keep(r.choices, Not(p)), undisposed := r.undisposed - WithParent(Keep(r.choices, p)))
  }

  lemma {:induction false} SameId(s: seq<Choice>, a: Choice, b: Choice)
    requires DistinctIds(s) && a in s && b in s && a.id == b.id
    ensures a == b
  {
    var i :| 0 <= i < |s| && s[i] == a;
    var j :| 0 <= j < |s| && s[j] == b;
    assert i == j;
  }

  lemma {:induction false} RemoveValid(r: Registry, p: Choice -> bool)
    requires Valid(r)
    ensures Valid(Remove(r, p))
    ensures forall c :: c in Remove(r, p).choices <==> c in r.choices && !p(c)
  {
    var kept := Keep(r.choices, Not(p));
    KeepMeans(r.choices, Not(p));
    KeepMeans(r.choices, p);
    forall id | id in WithParent(r.choices) && id !in WithParent(kept) ensures id in WithParent(Keep(r.choices, p)) {
      var c :| c in r.choices && c.parent.Some? && c.id == id;
      assert p(c);
    }
    forall id | id in WithParent(kept) ensures id !in WithParent(Keep(r.choices, p)) {
      var c :| c in kept && c.parent.Some? && c.id == id;
      if id in WithParent(Keep(r.choices, p)) {
        var d :| d in Keep(r.choices, p) && d.parent.Some? && d.id == id;
        SameId(r.choices, c, d);
      }
    }
  }

  // ---- Operations ----

  function Collected(lists: set<Object>): Choice -> bool {
    (c: Choice) => c.list in lists
  }

  function UnderParent(parent: Option<Object>): Choice -> bool {
    (c: Choice) => c.parent.Some? && c.parent == parent
  }

  /** Evicts the oldest beyond the capacity. */
  ghost function Evict(r: Registry): Registry {
    if |r.choices| <= CAPACITY then r
    else
      var n := |r.choices| - CAPACITY;
      r.(choices := r.choices[n..], undisposed := r.undisposed - WithParent(r.choices[..n]))
  }

  /** A call of RegisterFromChooseARelicScreen; `local` says that the player is the local one. */
  datatype Request = Request(local: bool, list: Object, options: seq<Object>, parent: Option<Object>, observed: bool)

  function NewChoice(id: nat, q: Request, ambiguous: bool): Choice {
    Choice(id, q.list, q.options, q.parent, q.observed, ambiguous)
  }

  /** A new choice, and its observer when it has a parent. */
  ghost function Add(r: Registry, c: Choice): Registry {
    r.(choices := r.choices + [c], undisposed := r.undisposed + (if c.parent.Some? then {c.id} else {}),
       next := c.id + 1)
  }

  ghost function Register(r: Registry, q: Request, collected: set<Object>): Registry {
    if !q.local then r
    else
      var live := Remove(r, Collected(collected));
      var same := Keep(live.choices, UnderParent(q.parent));
      if |same| == 1 && same[0].list == q.list then live.(next := r.next + 1)
      else Evict(Add(Remove(live, UnderParent(q.parent)), NewChoice(r.next, q, same != [])))
  }

  ghost function Consume(r: Registry, parent: Object): Registry {
    Remove(r, UnderParent(Some(parent)))
  }

  /** TryGetRegisteredCurrentChoiceCarrier; `single` says that this is the local single-player game. */
  ghost function CurrentCarrier(r: Registry, current: Option<Object>, single: bool): Option<Choice> {
    var matches := Keep(r.choices, UnderParent(current));
    if current.None? || |matches| != 1 || matches[0].ambiguous || !single then None else Some(matches[0])
  }

  /** FirstOrDefault. */
  function First(s: seq<Choice>, list: Object): Option<Choice> {
    if s == [] then None else if s[0].list == list then Some(s[0]) else First(s[1..], list)
  }

  /** TryGetCurrentChoice for the list `list`, whose elements are now `shown`. */
  ghost function CurrentChoice(r: Registry, list: Object, shown: seq<Object>, current: Option<Object>,
      single: bool): Option<Choice>
  {
    var first := First(r.choices, list);
    if first.None? || first.value.ambiguous || !first.value.observed || first.value.parent.None? || !single
       || current != first.value.parent || first.value.options != shown
    then None
    else first
  }

  // ---- Every reachable state ----

  datatype Op =
    | Registers(request: Request, collected: set<Object>)
    | Collects(lists: set<Object>)      // at the start of a lookup
    | Consumes(parent: Object)          // a commit, or the parent's cancellation or finish

  ghost function Do(r: Registry, op: Op): Registry {
    match op
    case Registers(q, collected) => Register(r, q, collected)
    case Collects(lists) => Remove(r, Collected(lists))
    case Consumes(parent) => Consume(r, parent)
  }

  ghost function Run(r: Registry, ops: seq<Op>): Registry {
    if ops == [] then r else Do(Run(r, ops[..|ops| - 1]), ops[|ops| - 1])
  }

  /** The observers of what is kept are those of the whole without those of the rest. */
  lemma {:induction false} SplitObservers(gone: seq<Choice>, kept: seq<Choice>)
    requires DistinctIds(gone + kept)
    ensures WithParent(kept) == WithParent(gone + kept) - WithParent(gone)
  {
    forall c, d | c in gone && d in kept ensures c.id != d.id {
      var i :| 0 <= i < |gone| && gone[i] == c;
      var j :| 0 <= j < |kept| && kept[j] == d;
      assert (gone + kept)[i] == c && (gone + kept)[|gone| + j] == d;
    }
  }

  lemma {:induction false} EvictValid(r: Registry)
    requires DistinctIds(r.choices) && DistinctParents(r.choices)
    requires (forall c :: c in r.choices ==> c.id < r.next) && r.undisposed == WithParent(r.choices)
    ensures Valid(Evict(r)) && forall c :: c in Evict(r).choices ==> c in r.choices
  {
    if |r.choices| > CAPACITY {
      var n := |r.choices| - CAPACITY;
      assert r.choices == r.choices[..n] + r.choices[n..];
      SplitObservers(r.choices[..n], r.choices[n..]);
    }
  }

  lemma {:induction false} AddValid(r: Registry, c: Choice)
    requires Valid(r) && c.id == r.next && forall d :: d in r.choices ==> d.parent.None? || d.parent != c.parent
    ensures var a := Add(r, c);
            && DistinctIds(a.choices) && DistinctParents(a.choices) && (forall d :: d in a.choices ==> d.id < a.next)
            && a.undisposed == WithParent(a.choices)
  {
    var a := Add(r, c);
    assert forall d :: d in a.choices <==> d in r.choices || d == c;
  }

  lemma {:induction false} RegisterValid(r: Registry, q: Request, collected: set<Object>)
    requires Valid(r)
    ensures Valid(Register(r, q, collected))
  {
    if q.local {
      var live := Remove(r, Collected(collected));
      RemoveValid(r, Collected(collected));
      RemoveValid(live, UnderParent(q.parent));
      var same := Keep(live.choices, UnderParent(q.parent));
      var others := Remove(live, UnderParent(q.parent));
      AddValid(others, NewChoice(r.next, q, same != []));
      EvictValid(Add(others, NewChoice(r.next, q, same != [])));
    }
  }

  const EMPTY := Registry([], {}, 0)

  /** In every reachable state each parent has at most one registration, at most sixteen are kept, and
      the undisposed observers are exactly those of the registrations with a parent. */
  lemma {:induction false} RegistryValid(ops: seq<Op>)
    ensures Valid(Run(EMPTY, ops))
  {
    if ops != [] {
      var r := Run(EMPTY, ops[..|ops| - 1]);
      RegistryValid(ops[..|ops| - 1]);
      match ops[|ops| - 1]
      case Registers(q, collected) => RegisterValid(r, q, collected);
      case Collects(lists) => RemoveValid(r, Collected(lists));
      case Consumes(parent) => RemoveValid(r, UnderParent(Some(parent)));
    }
  }

  // ---- Lookups ----

  ghost predicate HasParent(r: Registry, parent: Object) {
    exists c :: c in r.choices && c.parent == Some(parent)
  }

  ghost predicate AmbiguousFor(r: Registry, parent: Object) {
    exists c :: c in r.choices && c.parent == Some(parent) && c.ambiguous
  }

  lemma {:induction false} SameParent(s: seq<Choice>, a: Choice, b: Choice)
    requires DistinctParents(s) && a in s && b in s && a.parent.Some? && a.parent == b.parent
    ensures a == b
  {
    var i :| 0 <= i < |s| && s[i] == a;
    var j :| 0 <= j < |s| && s[j] == b;
    assert i == j;
  }

  /** The registration of a parent is the only one found under it. */
  lemma {:induction false} OnlyMatch(s: seq<Choice>, c: Choice)
    requires DistinctParents(s) && c in s && c.parent.Some?
    ensures Keep(s, UnderParent(c.parent)) == [c]
  {
    var matches := Keep(s, UnderParent(c.parent));
    KeepMeans(s, UnderParent(c.parent));
    forall i | 0 <= i < |matches| ensures matches[i] == c {
      assert matches[i] in matches;
      SameParent(s, matches[i], c);
    }
    assert c in matches;
    assert |matches| > 1 ==> matches[0].parent != matches[1].parent;
  }

  lemma {:induction false} KeepNone(s: seq<Choice>, p: Choice -> bool)
    requires forall c :: c in s ==> !p(c)
    ensures Keep(s, p) == []
  {
    if s != [] {
      KeepNone(s[..|s| - 1], p);
    }
  }

  lemma {:induction false} NoMatch(r: Registry, parent: Object)
    requires !HasParent(r, parent)
    ensures Keep(r.choices, UnderParent(Some(parent))) == []
  {
    KeepNone(r.choices, UnderParent(Some(parent)));
  }

  /** A carrier is returned exactly when the current parent has a registration that is not ambiguous. */
  lemma {:induction false} CarrierIff(r: Registry, parent: Object, single: bool, c: Choice)
    requires Valid(r)
    ensures CurrentCarrier(r, Some(parent), single) == Some(c) <==>
              single && c in r.choices && c.parent == Some(parent) && !c.ambiguous
  {
    KeepMeans(r.choices, UnderParent(Some(parent)));
    if c in r.choices && c.parent == Some(parent) {
      OnlyMatch(r.choices, c);
    }
  }

  lemma {:induction false} FirstMeans(s: seq<Choice>, list: Object)
    ensures First(s, list).Some? ==> First(s, list).value in s && First(s, list).value.list == list
    ensures First(s, list).None? ==> forall c :: c in s ==> c.list != list
  {
    if s != [] {
      FirstMeans(s[1..], list);
      assert s == [s[0]] + s[1..];
    }
  }

  /** No lookup, by parent or by list, succeeds for an ambiguous parent. */
  lemma {:induction false} AmbiguousFailsClosed(r: Registry, parent: Object, list: Object, shown: seq<Object>,
      single: bool)
    requires Valid(r) && AmbiguousFor(r, parent)
    ensures CurrentCarrier(r, Some(parent), single).None?
    ensures CurrentChoice(r, list, shown, Some(parent), single).None?
  {
    var c :| c in r.choices && c.parent == Some(parent) && c.ambiguous;
    OnlyMatch(r.choices, c);
    FirstMeans(r.choices, list);
    if First(r.choices, list).Some? && First(r.choices, list).value.parent == Some(parent) {
      SameParent(r.choices, First(r.choices, list).value, c);
    }
  }

  /** The two lookups agree: what is found by its list is what the current parent's lookup returns, with
      the very options that are shown. */
  lemma {:induction false} LookupsAgree(r: Registry, list: Object, shown: seq<Object>, current: Option<Object>,
      single: bool)
    requires Valid(r) && CurrentChoice(r, list, shown, current, single).Some?
    ensures current.Some?
    ensures var c := CurrentChoice(r, list, shown, current, single).value;
            && CurrentCarrier(r, current, single) == Some(c) && c in r.choices
            && c.list == list && c.options == shown && c.parent == current && c.observed && !c.ambiguous
  {
    FirstMeans(r.choices, list);
    CarrierIff(r, current.value, single, CurrentChoice(r, list, shown, current, single).value);
  }

  /** The registration at `i` is the oldest one of its list. */
  predicate OldestOfList(s: seq<Choice>, i: nat)
    requires i < |s|
  {
    forall j :: 0 <= j < i ==> s[j].list != s[i].list
  }

  lemma {:induction false} FirstIsOldest(s: seq<Choice>, list: Object, i: nat)
    requires i < |s| && s[i].list == list && OldestOfList(s, i)
    ensures First(s, list) == Some(s[i])
  {
    if i > 0 {
      assert forall j :: 0 <= j < i - 1 ==> s[1..][j] == s[j + 1];
      FirstIsOldest(s[1..], list, i - 1);
    }
  }

  lemma {:induction false} FirstPosition(s: seq<Choice>, list: Object) returns (i: nat)
    requires First(s, list).Some?
    ensures i < |s| && First(s, list) == Some(s[i]) && s[i].list == list && OldestOfList(s, i)
  {
    if s[0].list == list {
      i := 0;
    } else {
      i := FirstPosition(s[1..], list);
      i := i + 1;
      assert forall j :: 0 < j < i ==> s[j] == s[1..][j - 1];
    }
  }

  /** A choice is found by its list exactly when it is the current parent's unambiguous registration, as
      it is shown, and no older registration has the same list. */
  lemma {:induction false} ChoiceFoundIff(r: Registry, list: Object, shown: seq<Object>, current: Option<Object>,
      single: bool, i: nat)
    requires Valid(r) && i < |r.choices|
    ensures CurrentChoice(r, list, shown, current, single) == Some(r.choices[i]) <==>
              && CurrentCarrier(r, current, single) == Some(r.choices[i])
              && r.choices[i].list == list && r.choices[i].options == shown && r.choices[i].observed
              && OldestOfList(r.choices, i)
  {
    var c := r.choices[i];
    if CurrentChoice(r, list, shown, current, single) == Some(c) {
      LookupsAgree(r, list, shown, current, single);
      var k := FirstPosition(r.choices, list);
      assert r.choices[k].id == c.id && k == i;
    } else if CurrentCarrier(r, current, single) == Some(c) && c.list == list && OldestOfList(r.choices, i) {
      FirstIsOldest(r.choices, list, i);
      CarrierIff(r, current.value, single, c);
    }
  }

  lemma TwoOps(r: Registry, a: Op, b: Op)
    ensures Run(r, [a, b]) == Do(Do(r, a), b)
  {
    assert [a, b][..1] == [a] && [a][..0] == [];
    assert Run(r, [a]) == Do(r, a);
  }

  const OLDER := Request(true, 5, [3], None, false)
  const NEWER := Request(true, 5, [3], Some(7), true)

  const AFTER_OLDER := Registry([NewChoice(0, OLDER, false)], {}, 1)
  const AFTER_NEWER := Registry([NewChoice(0, OLDER, false), NewChoice(1, NEWER, false)], {1}, 2)

  lemma {:induction false} OlderRegisters()
    ensures Register(EMPTY, OLDER, {}) == AFTER_OLDER
  {
    RegisterFirst(EMPTY, OLDER, NewChoice(0, OLDER, false));
  }

  lemma {:induction false} NewerRegisters()
    ensures Register(AFTER_OLDER, NEWER, {}) == AFTER_NEWER
  {
    RegisterFirst(AFTER_OLDER, NEWER, NewChoice(1, NEWER, false));
  }

  /** An older registration of the same list, made without a parent, hides the current one from the lookup
      by list, although the lookup by parent returns it. */
  lemma {:induction false} OlderListHides() returns (ops: seq<Op>)
    ensures var r := Run(EMPTY, ops);
            && CurrentCarrier(r, Some(7), true) == Some(NewChoice(1, NEWER, false))
            && CurrentChoice(r, 5, [3], Some(7), true).None?
  {
    ops := [Registers(OLDER, {}), Registers(NEWER, {})];
    TwoOps(EMPTY, ops[0], ops[1]);
    OlderRegisters();
    NewerRegisters();
    RegistryValid(ops);
    var r := AFTER_NEWER;
    assert r.choices[1] in r.choices;
    CarrierIff(r, 7, true, NewChoice(1, NEWER, false));
  }

  lemma {:induction false} RemoveNothing(r: Registry, p: Choice -> bool)
    requires forall c :: c in r.choices ==> !p(c)
    ensures Keep(r.choices, p) == [] && Remove(r, p) == r
  {
    KeepNone(r.choices, p);
    KeepAll(r.choices, Not(p));
    assert WithParent([]) == {};
  }

  /** Registering under a parent that has none, with nothing collected and room to spare. */
  lemma {:induction false} RegisterFirst(r: Registry, q: Request, c: Choice)
    requires q.local && c == NewChoice(r.next, q, false) && |r.choices| < CAPACITY
    requires forall d :: d in r.choices ==> !UnderParent(q.parent)(d)
    ensures Register(r, q, {}) == Add(r, c)
  {
    RemoveNothing(r, Collected({}));
    RemoveNothing(r, UnderParent(q.parent));
  }

  lemma {:induction false} KeepAll(s: seq<Choice>, p: Choice -> bool)
    requires forall c :: c in s ==> p(c)
    ensures Keep(s, p) == s
  {
    if s != [] {
      KeepAll(s[..|s| - 1], p);
    }
  }

  // ---- Ambiguity ----

  lemma {:induction false} NewestStays(r: Registry, c: Choice)
    ensures c in Evict(Add(r, c)).choices
  {
    var a := Add(r, c);
    assert a.choices[|a.choices| - 1] == c;
    if |a.choices| > CAPACITY {
      var n := |a.choices| - CAPACITY;
      assert a.choices[n..][|a.choices| - 1 - n] == c;
    }
  }

  /** A second list under one parent leaves an ambiguous registration. */
  lemma {:induction false} SecondListCollapses(r: Registry, q: Request, collected: set<Object>, earlier: Choice)
    requires Valid(r) && q.local && q.parent.Some?
    requires earlier in r.choices && earlier.list !in collected && earlier.parent == q.parent && earlier.list != q.list
    ensures AmbiguousFor(Register(r, q, collected), q.parent.value)
  {
    var live := Remove(r, Collected(collected));
    RemoveValid(r, Collected(collected));
    OnlyMatch(live.choices, earlier);
    NewestStays(Remove(live, UnderParent(q.parent)), NewChoice(r.next, q, true));
  }

  /** A parent without a live registration gets one that its lookup returns. */
  lemma {:induction false} FirstListIsFound(r: Registry, q: Request, collected: set<Object>)
    requires Valid(r) && q.local && q.parent.Some? && !HasParent(Remove(r, Collected(collected)), q.parent.value)
    ensures CurrentCarrier(Register(r, q, collected), q.parent, true) == Some(NewChoice(r.next, q, false))
  {
    var live := Remove(r, Collected(collected));
    NoMatch(live, q.parent.value);
    NewestStays(Remove(live, UnderParent(q.parent)), NewChoice(r.next, q, false));
    RegisterValid(r, q, collected);
    CarrierIff(Register(r, q, collected), q.parent.value, true, NewChoice(r.next, q, false));
  }

  ghost predicate ListGone(r: Registry, parent: Object, lists: set<Object>) {
    exists c :: c in r.choices && c.parent == Some(parent) && c.list in lists
  }

  /** The operation removes the registration of this parent: its list was collected, it was consumed,
      or it was evicted. */
  ghost predicate Removes(r: Registry, op: Op, parent: Object) {
    match op
    case Registers(q, collected) => (q.local && ListGone(r, parent, collected)) || !HasParent(Do(r, op), parent)
    case Collects(lists) => ListGone(r, parent, lists)
    case Consumes(other) => other == parent
  }

  lemma {:induction false} RegisterKeepsAmbiguity(r: Registry, q: Request, collected: set<Object>, parent: Object)
    requires Valid(r) && AmbiguousFor(r, parent) && !Removes(r, Registers(q, collected), parent)
    ensures AmbiguousFor(Register(r, q, collected), parent)
  {
    if q.local {
      var c :| c in r.choices && c.parent == Some(parent) && c.ambiguous;
      var live := Remove(r, Collected(collected));
      RemoveValid(r, Collected(collected));
      assert c in live.choices;
      if q.parent == Some(parent) {
        OnlyMatch(live.choices, c);
        NewestStays(Remove(live, UnderParent(q.parent)), NewChoice(r.next, q, true));
      } else {
        OtherParentKept(live, q, r.next, c);
      }
    }
  }

  /** A registration under another parent can only evict this one. */
  lemma {:induction false} OtherParentKept(live: Registry, q: Request, next: nat, c: Choice)
    requires Valid(live) && c in live.choices && c.parent.Some? && q.parent != c.parent && next == live.next
    ensures var same := Keep(live.choices, UnderParent(q.parent));
            var after := Evict(Add(Remove(live, UnderParent(q.parent)), NewChoice(next, q, same != [])));
            HasParent(after, c.parent.value) ==> c in after.choices
  {
    var same := Keep(live.choices, UnderParent(q.parent));
    var others := Remove(live, UnderParent(q.parent));
    var added := Add(others, NewChoice(next, q, same != []));
    RemoveValid(live, UnderParent(q.parent));
    AddValid(others, NewChoice(next, q, same != []));
    EvictValid(added);
    if HasParent(Evict(added), c.parent.value) {
      var d :| d in Evict(added).choices && d.parent == c.parent;
      assert d in added.choices && d in live.choices;
      SameParent(live.choices, d, c);
    }
  }

  lemma {:induction false} StepKeepsAmbiguity(r: Registry, op: Op, parent: Object)
    requires Valid(r) && AmbiguousFor(r, parent) && !Removes(r, op, parent)
    ensures AmbiguousFor(Do(r, op), parent) && Valid(Do(r, op))
  {
    var c :| c in r.choices && c.parent == Some(parent) && c.ambiguous;
    match op
    case Registers(q, collected) =>
      RegisterValid(r, q, collected);
      RegisterKeepsAmbiguity(r, q, collected, parent);
    case Collects(lists) =>
      RemoveValid(r, Collected(lists));
      assert c in Remove(r, Collected(lists)).choices;
    case Consumes(other) =>
      RemoveValid(r, UnderParent(Some(other)));
      assert c in Remove(r, UnderParent(Some(other))).choices;
  }

  /** Once ambiguous, a parent stays so, and every lookup for it fails, until its registration is removed. */
  lemma {:induction false} AmbiguousUntilRemoved(r: Registry, ops: seq<Op>, parent: Object, list: Object,
      shown: seq<Object>, single: bool)
    requires Valid(r) && AmbiguousFor(r, parent)
    requires forall k :: 0 <= k < |ops| ==> !Removes(Run(r, ops[..k]), ops[k], parent)
    ensures Valid(Run(r, ops)) && AmbiguousFor(Run(r, ops), parent)
    ensures CurrentCarrier(Run(r, ops), Some(parent), single).None?
    ensures CurrentChoice(Run(r, ops), list, shown, Some(parent), single).None?
  {
    if ops != [] {
      var n := |ops| - 1;
      forall k | 0 <= k < n ensures !Removes(Run(r, ops[..n][..k]), ops[..n][k], parent) {
        assert ops[..n][..k] == ops[..k];
      }
      AmbiguousUntilRemoved(r, ops[..n], parent, list, shown, single);
      StepKeepsAmbiguity(Run(r, ops[..n]), ops[n], parent);
    }
    AmbiguousFailsClosed(Run(r, ops), parent, list, shown, single);
  }

  /** Consuming removes the registration of this parent and no other. */
  lemma {:induction false} ConsumeExactly(r: Registry, parent: Object)
    requires Valid(r)
    ensures !HasParent(Consume(r, parent), parent)
    ensures forall c :: c in Consume(r, parent).choices <==> c in r.choices && c.parent != Some(parent)
    ensures |Keep(r.choices, UnderParent(Some(parent)))| == 1 <==> HasParent(r, parent)
  {
    RemoveValid(r, UnderParent(Some(parent)));
    if HasParent(r, parent) {
      var c :| c in r.choices && c.parent == Some(parent);
      OnlyMatch(r.choices, c);
    } else {
      NoMatch(r, parent);
    }
  }

  // ---- The provider itself ----

  class NativeBossRelicDecisionProvider {
    var pending: seq<Choice>
    var undisposed: set<nat>
    var next: nat

    ghost function Contents(): Registry
      reads this
    {
      Registry(pending, undisposed, next)
    }

    constructor ()
      ensures Contents() == EMPTY
    {
      pending, undisposed, next := [], {}, 0;
    }

    /** Disposes the observers of the choices that satisfy `p`, then drops them. */
    method RemoveAll(p: Choice -> bool) returns (removed: seq<Choice>)
      modifies this
      ensures Contents() == Remove(old(Contents()), p) && removed == Keep(old(pending), p)
    {
      removed := [];
      var kept: seq<Choice> := [];
      for i := 0 to |pending|
        invariant pending == old(pending) && next == old(next)
        invariant removed == Keep(pending[..i], p) && kept == Keep(pending[..i], Not(p))
        invariant undisposed == old(undisposed) - WithParent(removed)
      {
        var c := pending[i];
        assert pending[..i + 1][..i] == pending[..i];
        if p(c) {
          removed := removed + [c];
          if c.parent.Some? {
            undisposed := undisposed - {c.id};
          }
        } else {
          kept := kept + [c];
        }
      }
      assert pending[..|pending|] == pending;
      pending := kept;
    }

    /** One list per parent: a repeated list is ignored, a second list leaves an ambiguous registration. */
    method RegisterFromChooseARelicScreen(q: Request, collected: set<Object>)
      requires Valid(Contents())
      modifies this
      ensures Contents() == Register(old(Contents()), q, collected) && Valid(Contents())
    {
      RegisterValid(Contents(), q, collected);
      if !q.local {
        return;
      }
      var id := next;
      var observer: set<nat> := if q.parent.Some? then {id} else {};
      undisposed, next := undisposed + observer, next + 1;
      ghost var live := Remove(old(Contents()), Collected(collected));
      NotYetUsed(old(Contents()), Collected(collected), id);
      var gone := RemoveAll(Collected(collected));
      assert undisposed == live.undisposed + observer && pending == live.choices;
      var sameParent := Keep(pending, UnderParent(q.parent));
      if |sameParent| == 1 && sameParent[0].list == q.list {
        NotObserved(old(Contents()), id);
        undisposed := undisposed - observer;
        assert undisposed == live.undisposed;
      } else {
        RemoveValid(old(Contents()), Collected(collected));
        Install(live, id, q);
      }
    }

    /** Takes out the registrations of the same parent and adds the new one, whose observer listens already. */
    method Install(ghost live: Registry, id: nat, q: Request)
      requires forall c :: c in live.choices ==> c.id < id
      requires pending == live.choices && undisposed == live.undisposed + (if q.parent.Some? then {id} else {})
          && next == id + 1
      modifies this
      ensures var same := Keep(live.choices, UnderParent(q.parent));
              Contents() == Evict(Add(Remove(live, UnderParent(q.parent)), NewChoice(id, q, same != [])))
    {
      NotYetUsed(live, UnderParent(q.parent), id);
      var replaced := RemoveAll(UnderParent(q.parent));
      pending := pending + [NewChoice(id, q, replaced != [])];
      assert Contents() == Add(Remove(live, UnderParent(q.parent)), NewChoice(id, q, replaced != []));
      if |pending| > CAPACITY {
        EvictOldest(|pending| - CAPACITY);
      }
    }

    method EvictOldest(n: nat)
      requires n <= |pending|
      modifies this
      ensures pending == old(pending)[n..] && next == old(next)
          && undisposed == old(undisposed) - WithParent(old(pending)[..n])
    {
      for i := 0 to n
        invariant pending == old(pending) && next == old(next)
            && undisposed == old(undisposed) - WithParent(pending[..i])
      {
        assert pending[..i + 1] == pending[..i] + [pending[i]];
        if pending[i].parent.Some? {
          undisposed := undisposed - {pending[i].id};
        }
      }
      pending := pending[n..];
    }

    method ConsumeRegisteredChoice(parent: Object) returns (one: bool)
      requires Valid(Contents())
      modifies this
      ensures Contents() == Consume(old(Contents()), parent) && Valid(Contents())
      ensures one <==> HasParent(old(Contents()), parent)
    {
      ConsumeExactly(Contents(), parent);
      RemoveValid(Contents(), UnderParent(Some(parent)));
      var removed := RemoveAll(UnderParent(Some(parent)));
      one := |removed| == 1;
    }

    method TryGetRegisteredCurrentChoiceCarrier(current: Option<Object>, single: bool, collected: set<Object>)
      returns (carrier: Option<Choice>)
      requires Valid(Contents())
      modifies this
      ensures current.None? ==> carrier.None? && Contents() == old(Contents())
      ensures current.Some? ==> Contents() == Remove(old(Contents()), Collected(collected))
      ensures carrier == CurrentCarrier(Contents(), current, single) && Valid(Contents())
    {
      if current.None? {
        return None;
      }
      RemoveValid(Contents(), Collected(collected));
      var gone := RemoveAll(Collected(collected));
      var matches := Keep(pending, UnderParent(current));
      if |matches| != 1 || matches[0].ambiguous || !single {
        return None;
      }
      carrier := Some(matches[0]);
    }

    method TryGetCurrentChoice(list: Object, shown: seq<Object>, current: Option<Object>, single: bool,
        collected: set<Object>)
      returns (choice: Option<Choice>)
      requires Valid(Contents())
      modifies this
      ensures Contents() == Remove(old(Contents()), Collected(collected)) && Valid(Contents())
      ensures choice == CurrentChoice(Contents(), list, shown, current, single)
    {
      RemoveValid(Contents(), Collected(collected));
      var gone := RemoveAll(Collected(collected));
      choice := First(pending, list);
      if choice.None? {
        return;
      }
      var request := choice.value;
      if request.ambiguous || !request.observed || request.parent.None? || !single {
        return None;
      }
      if current != request.parent || request.options != shown {
        return None;
      }
    }
  }

  lemma NotObserved(r: Registry, id: nat)
    requires Valid(r) && id == r.next
    ensures id !in r.undisposed
  {
  }

  /** An id not given out yet is not the id of anything removed. */
  lemma NotYetUsed(r: Registry, p: Choice -> bool, id: nat)
    requires forall c :: c in r.choices ==> c.id < id
    ensures id !in WithParent(Keep(r.choices, p))
  {
    KeepMeans(r.choices, p);
  }
}
