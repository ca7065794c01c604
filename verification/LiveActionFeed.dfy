/** The bounded live action feed, against the unbounded group-by it stands for. */
module LiveActionFeed {
  import opened Prelude

  datatype EventKind =
    | RootPending | DecisionRecorded | DecisionInvalidated | DecisionUnresolved | DecisionCancelled | DecisionAborted
    | DecisionProjectionOmitted
    | OtherKind  // session, run, health and command events

  predicate IsActionEvent(kind: EventKind) {
    !kind.OtherKind?
  }

  datatype Action = Action(isDiagnostic: bool, boundActionId: Option<string>, disposition: string, title: string)

  datatype Event = Event(
    sequence: int, eventId: string, kind: EventKind, observedAt: int, recordId: Option<string>, detail: Option<string>,
    action: Option<Action>)

  /** `diagnostic:`, `record:`, `event:` and `conflict:` identities. */
  datatype Key = DiagnosticKey(id: string) | RecordKey(id: string) | EventKey(id: string) | ConflictKey(id: string)

  datatype Item = Item(
    key: Key, reliable: bool, first: int, latest: int, firstAt: int, latestAt: int, kind: EventKind,
    recordId: Option<string>, detail: Option<string>, action: Option<Action>)

  const RETAINED_LIMIT := 512

  /** char.IsWhiteSpace. */
  predicate IsWhiteSpace(c: char) {
    || '\U{9}' <= c <= '\U{D}' || c == ' ' || c == '\U{85}' || c == '\U{A0}' || c == '\U{1680}'
    || '\U{2000}' <= c <= '\U{200A}' || c == '\U{2028}' || c == '\U{2029}' || c == '\U{202F}' || c == '\U{205F}'
    || c == '\U{3000}'
  }

  predicate Blank(text: Option<string>) {
    text.Some? ==> forall i :: 0 <= i < |text.value| ==> IsWhiteSpace(text.value[i])
  }

  function KeyOf(e: Event): Key {
    if e.action.Some? && e.action.value.isDiagnostic then DiagnosticKey(e.eventId)
    else if !Blank(e.recordId) then RecordKey(e.recordId.value)
    else EventKey(e.eventId)
  }

  predicate Reliable(key: Key) {
    key.DiagnosticKey? || key.RecordKey?
  }

  /** StableBoundActionId. */
  function BoundId(action: Option<Action>): Option<string> {
    if action.None? || Blank(action.value.boundActionId) then None else action.value.boundActionId
  }

  function Or<T>(first: Option<T>, second: Option<T>): Option<T> {
    if first.Some? then first else second
  }

  predicate Conflicts(known: Option<Action>, incoming: Option<Action>) {
    BoundId(known).Some? && BoundId(incoming).Some? && BoundId(known) != BoundId(incoming)
  }

  type Items = map<Key, Item>

  datatype Feed = Feed(items: Items, watermark: int, complete: bool)

  const EMPTY := Feed(map[], 0, true)

  function NewItem(key: Key, e: Event): Item {
    Item(key, Reliable(key), e.sequence, e.sequence, e.observedAt, e.observedAt, e.kind, e.recordId, e.detail, e.action)
  }

  function Merge(existing: Item, e: Event): Item {
    existing.(latest := Max(existing.latest, e.sequence),
              latestAt := Max(existing.latestAt, e.observedAt),
              kind := e.kind, recordId := Or(e.recordId, existing.recordId), detail := e.detail,
              action := Or(e.action, existing.action))
  }

  /** Items can be told apart by their first sequence. */
  ghost predicate FirstsDistinct(items: Items) {
    forall j, k :: j in items && k in items && items[j].first == items[k].first ==> j == k
  }

  ghost predicate IsOldest(items: Items, key: Key) {
    key in items && forall k :: k in items ==> items[key].first <= items[k].first
  }

  lemma {:induction false} OldestExists(items: Items)
    requires items != map[]
    ensures exists k :: IsOldest(items, k)
    decreases |items|
  {
    var k :| k in items;
    var rest := items - {k};
    assert rest.Keys == items.Keys - {k};
    if rest == map[] {
      forall j | j in items ensures j == k {
        assert j !in rest.Keys;
      }
      assert IsOldest(items, k);
    } else {
      assert |rest.Keys| < |items.Keys|;
      OldestExists(rest);
      var m :| IsOldest(rest, m);
      assert forall j :: j in items ==> j == k || j in rest;
      assert IsOldest(items, if items[k].first <= items[m].first then k else m);
    }
  }

  ghost function Oldest(items: Items): (key: Key)
    requires items != map[]
    ensures IsOldest(items, key)
  {
    OldestExists(items);
    var k :| IsOldest(items, k);
    k
  }

  predicate Takes(feed: Feed, e: Event) {
    IsActionEvent(e.kind) && e.sequence > feed.watermark
  }

  /** Adds a row and evicts the oldest one if there are too many. */
  ghost function Insert(items: Items, key: Key, e: Event, complete: bool): (Items, bool) {
    var grown := items[key := NewItem(key, e)];
    if |grown| > RETAINED_LIMIT then (grown - {Oldest(grown)}, false) else (grown, complete && Reliable(key))
  }

  ghost function Apply(feed: Feed, e: Event): Feed {
    if !Takes(feed, e) then feed
    else
      var key := KeyOf(e);
      if key !in feed.items then
        var (items, complete) := Insert(feed.items, key, e, feed.complete);
        Feed(items, e.sequence, complete)
      else if Conflicts(feed.items[key].action, e.action) then
        var (items, complete) := Insert(feed.items, ConflictKey(e.eventId), e, false);
        Feed(items, e.sequence, complete)
      else
        Feed(feed.items[key := Merge(feed.items[key], e)], e.sequence, feed.complete)
  }

  datatype Op = Deliver(event: Event) | Reset | MarkIncomplete

  ghost function Perform(feed: Feed, op: Op): Feed {
    match op
    case Deliver(e) => Apply(feed, e)
    case Reset => EMPTY
    case MarkIncomplete => feed.(complete := false)
  }

  ghost function After(feed: Feed, ops: seq<Op>): Feed {
    if ops == [] then feed else Perform(After(feed, ops[..|ops| - 1]), ops[|ops| - 1])
  }

  /** The events the feed took since its last reset. */
  ghost function TakenSince(ops: seq<Op>): seq<Event> {
    if ops == [] then []
    else
      var before := TakenSince(ops[..|ops| - 1]);
      match ops[|ops| - 1]
      case Deliver(e) => if Takes(After(EMPTY, ops[..|ops| - 1]), e) then before + [e] else before
      case Reset => []
      case MarkIncomplete => before
  }

  function MarkedSince(ops: seq<Op>): bool {
    if ops == [] then false
    else match ops[|ops| - 1]
      case Reset => false
      case MarkIncomplete => true
      case Deliver(_) => MarkedSince(ops[..|ops| - 1])
  }

  // ---- The unbounded group-by ----

  function Group(events: seq<Event>, key: Key): seq<Event> {
    if events == [] then []
    else
      var last := events[|events| - 1];
      Group(events[..|events| - 1], key) + if KeyOf(last) == key then [last] else []
  }

  function Keys(events: seq<Event>): set<Key> {
    set i | 0 <= i < |events| :: KeyOf(events[i])
  }

  function LastAction(group: seq<Event>): Option<Action> {
    if group == [] then None else Or(group[|group| - 1].action, LastAction(group[..|group| - 1]))
  }

  function LastRecordId(group: seq<Event>): Option<string> {
    if group == [] then None else Or(group[|group| - 1].recordId, LastRecordId(group[..|group| - 1]))
  }

  function LatestAt(group: seq<Event>): int
    requires group != []
  {
    if |group| == 1 then group[0].observedAt else Max(LatestAt(group[..|group| - 1]), group[|group| - 1].observedAt)
  }

  /** The row a whole group amounts to. */
  function Summarize(key: Key, group: seq<Event>): Item
    requires group != []
  {
    var last := group[|group| - 1];
    Item(key, Reliable(key), group[0].sequence, last.sequence, group[0].observedAt, LatestAt(group), last.kind,
         LastRecordId(group), last.detail, LastAction(group))
  }

  lemma {:induction false} GroupNonempty(events: seq<Event>, key: Key)
    ensures key in Keys(events) <==> Group(events, key) != []
    ensures forall e :: e in Group(events, key) ==> e in events && KeyOf(e) == key
  {
    if events != [] {
      var n := |events| - 1;
      GroupNonempty(events[..n], key);
      if key in Keys(events[..n]) {
        var i :| 0 <= i < n && KeyOf(events[..n][i]) == key;
        assert KeyOf(events[i]) == key;
      }
      if key in Keys(events) {
        var i :| 0 <= i < |events| && KeyOf(events[i]) == key;
        assert i < n ==> KeyOf(events[..n][i]) == key;
      }
    }
  }

  ghost function GroupBy(events: seq<Event>): Items {
    map key | key in Keys(events) :: (GroupNonempty(events, key); Summarize(key, Group(events, key)))
  }

  /** Event `i` names another bound action than the last one known in its group. */
  predicate ConflictAt(events: seq<Event>, i: nat)
    requires i < |events|
  {
    Conflicts(LastAction(Group(events[..i], KeyOf(events[i]))), events[i].action)
  }

  predicate CleanAt(events: seq<Event>, i: nat)
    requires i < |events|
  {
    Reliable(KeyOf(events[i])) && !ConflictAt(events, i)
  }

  /** The events can be grouped faithfully in the space there is. */
  ghost predicate Clean(events: seq<Event>) {
    && (forall i: nat :: i < |events| ==> CleanAt(events, i))
    && |Keys(events)| <= RETAINED_LIMIT
  }

  // ---- Taking one more event ----

  lemma {:induction false} KeysSnoc(events: seq<Event>, e: Event)
    ensures Keys(events + [e]) == Keys(events) + {KeyOf(e)}
  {
    var all := events + [e];
    forall k | k in Keys(events) ensures k in Keys(all) {
      var i :| 0 <= i < |events| && KeyOf(events[i]) == k;
      assert all[i] == events[i];
    }
    assert all[|events|] == e;
  }

  lemma {:induction false} GroupSnoc(events: seq<Event>, e: Event, key: Key)
    ensures Group(events + [e], key) == Group(events, key) + if KeyOf(e) == key then [e] else []
  {
    assert (events + [e])[..|events|] == events;
  }

  lemma {:induction false} SummarizeSnoc(key: Key, group: seq<Event>, e: Event)
    requires group != [] && group[|group| - 1].sequence < e.sequence
    ensures Summarize(key, group + [e]) == Merge(Summarize(key, group), e)
  {
    assert (group + [e])[..|group|] == group;
  }

  lemma {:induction false} SummarizeOne(key: Key, e: Event)
    ensures Summarize(key, [e]) == NewItem(key, e)
  {
    assert [e][..0] == [];
    assert LastAction([e]) == Or(e.action, LastAction([])) && LastRecordId([e]) == Or(e.recordId, LastRecordId([]));
  }

  lemma {:induction false} GroupBySnocAt(events: seq<Event>, e: Event, key: Key)
    requires forall x :: x in events ==> x.sequence < e.sequence
    requires key in Keys(events) || key == KeyOf(e)
    ensures Group(events + [e], key) != []
    ensures var k, g := KeyOf(e), GroupBy(events);
            Summarize(key, Group(events + [e], key))
            == if key != k then Summarize(key, Group(events, key)) else if k in g then Merge(g[k], e) else NewItem(k, e)
  {
    GroupSnoc(events, e, key);
    GroupNonempty(events, key);
    var group := Group(events, key);
    if key == KeyOf(e) && key in Keys(events) {
      assert group[|group| - 1] in group;
      SummarizeSnoc(key, group, e);
    } else if key == KeyOf(e) {
      assert group + [e] == [e];
      SummarizeOne(key, e);
    } else {
      assert group + [] == group;
    }
  }

  /** Grouping one more event is one merge or one new row. */
  lemma {:induction false} GroupBySnoc(events: seq<Event>, e: Event)
    requires forall x :: x in events ==> x.sequence < e.sequence
    ensures var k, g := KeyOf(e), GroupBy(events);
            GroupBy(events + [e]) == g[k := if k in g then Merge(g[k], e) else NewItem(k, e)]
  {
    KeysSnoc(events, e);
    forall key | key in Keys(events) || key == KeyOf(e) {
      GroupBySnocAt(events, e, key);
    }
  }

  lemma {:induction false} CleanAtPrefix(events: seq<Event>, e: Event, i: nat)
    requires i < |events|
    ensures CleanAt(events + [e], i) <==> CleanAt(events, i)
  {
    assert (events + [e])[..i] == events[..i];
  }

  lemma {:induction false} CleanSnoc(events: seq<Event>, e: Event)
    ensures Clean(events + [e]) <==>
              && Clean(events) && Reliable(KeyOf(e))
              && !Conflicts(LastAction(Group(events, KeyOf(e))), e.action)
              && |Keys(events) + {KeyOf(e)}| <= RETAINED_LIMIT
  {
    var all := events + [e];
    KeysSnoc(events, e);
    SubsetSize(Keys(events), Keys(all));
    forall i: nat | i < |events| {
      CleanAtPrefix(events, e, i);
    }
    assert all[..|events|] == events;
    assert CleanAt(all, |events|) <==>
           Reliable(KeyOf(e)) && !Conflicts(LastAction(Group(events, KeyOf(e))), e.action);
    AllCleanSnoc(events, e);
  }

  lemma {:induction false} AllCleanSnoc(events: seq<Event>, e: Event)
    ensures (forall i: nat :: i < |events + [e]| ==> CleanAt(events + [e], i))
       <==> (forall i: nat :: i < |events| ==> CleanAt(events, i)) && CleanAt(events + [e], |events|)
  {
    forall i: nat | i < |events| {
      CleanAtPrefix(events, e, i);
    }
  }

  /** Well-formed rows no younger than `bound`. */
  ghost predicate RowsWithin(items: Items, bound: int) {
    && FirstsDistinct(items)
    && (forall k :: k in items ==> items[k].key == k && items[k].first <= items[k].latest <= bound)
  }

  /** The rows stay few, distinct and behind the watermark. */
  ghost predicate Bounded(feed: Feed) {
    |feed.items| <= RETAINED_LIMIT && RowsWithin(feed.items, feed.watermark)
  }

  ghost predicate Describes(feed: Feed, events: seq<Event>, marked: bool) {
    && (forall e :: e in events ==> e.sequence <= feed.watermark)
    && (feed.complete <==> Clean(events) && !marked)
    && (feed.complete ==> feed.items == GroupBy(events))
  }

  lemma {:induction false} RemoveOne(items: Items, key: Key)
    requires key in items
    ensures |items - {key}| == |items| - 1
  {
    assert (items - {key}).Keys == items.Keys - {key};
  }

  lemma {:induction false} AddOne(items: Items, key: Key, item: Item)
    ensures |items[key := item]| <= |items| + 1
    ensures |items[key := item]| > |items| ==> key !in items
  {
    assert items[key := item].Keys == items.Keys + {key};
    if key in items {
      assert items.Keys + {key} == items.Keys;
    }
  }

  /** The row just added is never the oldest of several. */
  lemma {:induction false} NewestStays(items: Items, key: Key, item: Item)
    requires items != map[] && key !in items && forall k :: k in items ==> items[k].first < item.first
    ensures Oldest(items[key := item]) != key
  {
    var other :| other in items;
    assert items[key := item][other].first < item.first;
  }

  lemma {:induction false} AddedRows(items: Items, key: Key, e: Event, bound: int)
    requires RowsWithin(items, bound) && bound < e.sequence
    ensures RowsWithin(items[key := NewItem(key, e)], e.sequence)
  {
  }

  lemma {:induction false} InsertBounded(items: Items, key: Key, e: Event, complete: bool, bound: int)
    requires |items| <= RETAINED_LIMIT && RowsWithin(items, bound) && bound < e.sequence
    ensures var (grown, _) := Insert(items, key, e, complete);
            && |grown| <= RETAINED_LIMIT && RowsWithin(grown, e.sequence)
            && key in grown && grown[key] == NewItem(key, e)
  {
    var grown := items[key := NewItem(key, e)];
    AddedRows(items, key, e, bound);
    AddOne(items, key, NewItem(key, e));
    if |grown| > RETAINED_LIMIT {
      assert items != map[];
      NewestStays(items, key, NewItem(key, e));
      RemoveOne(grown, Oldest(grown));
    }
  }

  /** One event leaves at most 512 rows and keeps the row it went into. */
  lemma {:induction false} ApplyBounded(feed: Feed, e: Event)
    requires Bounded(feed)
    ensures Bounded(Apply(feed, e)) && feed.watermark <= Apply(feed, e).watermark
    ensures Takes(feed, e) ==> exists k :: k in Apply(feed, e).items && Apply(feed, e).items[k].latest == e.sequence
    ensures |Apply(feed, e).items| <= RETAINED_LIMIT
  {
    if Takes(feed, e) {
      var key := KeyOf(e);
      if key !in feed.items {
        InsertBounded(feed.items, key, e, feed.complete, feed.watermark);
        assert Apply(feed, e).items[key].latest == e.sequence;
      } else if Conflicts(feed.items[key].action, e.action) {
        InsertBounded(feed.items, ConflictKey(e.eventId), e, false, feed.watermark);
        assert Apply(feed, e).items[ConflictKey(e.eventId)].latest == e.sequence;
      } else {
        assert Apply(feed, e).items[key].latest == e.sequence;
      }
    }
  }

  // ---- Exact means exactly grouped ----

  lemma {:induction false} CleanNew(events: seq<Event>, e: Event)
    requires KeyOf(e) !in Keys(events) && Clean(events)
    ensures Clean(events + [e]) <==> Reliable(KeyOf(e)) && |Keys(events) + {KeyOf(e)}| <= RETAINED_LIMIT
  {
    CleanSnoc(events, e);
    GroupOfNew(events, KeyOf(e));
  }

  lemma {:induction false} InsertResult(items: Items, key: Key, e: Event)
    ensures Insert(items, key, e, true).1 <==> Reliable(key) && |items.Keys + {key}| <= RETAINED_LIMIT
    ensures Insert(items, key, e, true).1 ==> Insert(items, key, e, true).0 == items[key := NewItem(key, e)]
  {
    var grown := items[key := NewItem(key, e)];
    assert grown.Keys == items.Keys + {key};
    assert |grown| == |grown.Keys|;
  }

  /** A first event of a group. */
  lemma {:induction false} NewDescribes(items: Items, events: seq<Event>, e: Event)
    requires items == GroupBy(events) && KeyOf(e) !in items && Clean(events)
    requires forall x :: x in events ==> x.sequence < e.sequence
    ensures Insert(items, KeyOf(e), e, true).1 <==> Clean(events + [e])
    ensures Insert(items, KeyOf(e), e, true).1 ==> Insert(items, KeyOf(e), e, true).0 == GroupBy(events + [e])
  {
    assert items.Keys == Keys(events);
    InsertResult(items, KeyOf(e), e);
    GroupBySnoc(events, e);
    CleanNew(events, e);
  }

  /** A further event of a group. */
  lemma {:induction false} MergeDescribes(items: Items, events: seq<Event>, e: Event)
    requires items == GroupBy(events) && KeyOf(e) in items && Clean(events)
    requires forall x :: x in events ==> x.sequence < e.sequence
    ensures Clean(events + [e]) <==> !Conflicts(items[KeyOf(e)].action, e.action)
    ensures items[KeyOf(e) := Merge(items[KeyOf(e)], e)] == GroupBy(events + [e])
  {
    var key := KeyOf(e);
    GroupBySnoc(events, e);
    CleanSnoc(events, e);
    GroupNonempty(events, key);
    assert Keys(events) + {key} == Keys(events);
    var i :| 0 <= i < |events| && KeyOf(events[i]) == key;
    assert CleanAt(events, i);
  }

  lemma {:induction false} ApplyDescribes(feed: Feed, events: seq<Event>, marked: bool, e: Event)
    requires Bounded(feed) && Describes(feed, events, marked) && Takes(feed, e)
    ensures Describes(Apply(feed, e), events + [e], marked)
  {
    CleanSnoc(events, e);
    if feed.complete {
      if KeyOf(e) in feed.items {
        MergeDescribes(feed.items, events, e);
      } else {
        NewDescribes(feed.items, events, e);
      }
    }
  }

  lemma {:induction false} GroupOfNew(events: seq<Event>, key: Key)
    requires key !in Keys(events)
    ensures LastAction(Group(events, key)).None?
  {
    GroupNonempty(events, key);
  }

  lemma {:induction false} FeedInvariant(ops: seq<Op>)
    ensures Bounded(After(EMPTY, ops)) && Describes(After(EMPTY, ops), TakenSince(ops), MarkedSince(ops))
  {
    if ops == [] {
      EmptyDescribes();
    } else {
      var n := |ops| - 1;
      FeedInvariant(ops[..n]);
      match ops[n] {
        case Deliver(e) =>
          ApplyBounded(After(EMPTY, ops[..n]), e);
          if Takes(After(EMPTY, ops[..n]), e) {
            ApplyDescribes(After(EMPTY, ops[..n]), TakenSince(ops[..n]), MarkedSince(ops[..n]), e);
          }
        case Reset => EmptyDescribes();
        case MarkIncomplete =>
      }
    }
  }

  lemma {:induction false} EmptyDescribes()
    ensures Bounded(EMPTY) && Describes(EMPTY, [], false)
  {
    assert Keys([]) == {};
    assert GroupBy([]) == map[];
  }

  /** PlatformLiveActionCounts.Exact. */
  predicate Exact(feed: Feed) {
    feed.complete && forall k :: k in feed.items ==> feed.items[k].reliable
  }

  /** Rows that the status line counts: recorded, pending, failed and diagnostic. */
  datatype Counts = Counts(records: nat, pending: nat, invalidated: nat, diagnostics: nat)

  predicate IsFailure(item: Item) {
    item.action.Some?
        && (item.action.value.disposition == "unresolved" || item.action.value.disposition == "failed_closed")
  }

  predicate IsRecorded(item: Item) {
    item.kind.DecisionRecorded?
  }

  predicate IsPending(item: Item) {
    item.kind.RootPending?
  }

  predicate IsDiagnostic(item: Item) {
    item.action.Some? && item.action.value.isDiagnostic
  }

  function KeysWhere(items: Items, p: Item -> bool): set<Key> {
    set k | k in items && p(items[k])
  }

  function CountsOf(items: Items): Counts {
    Counts(|KeysWhere(items, IsRecorded)|, |KeysWhere(items, IsPending)|, |KeysWhere(items, IsFailure)|,
           |KeysWhere(items, IsDiagnostic)|)
  }

  /** In every reachable feed Exact holds exactly when nobody marked the source incomplete and
      the events taken since the last reset can be grouped faithfully in 512 rows; the rows
      then are that grouping. */
  lemma {:induction false} ExactMeansGrouped(ops: seq<Op>)
    ensures var feed, events := After(EMPTY, ops), TakenSince(ops);
            && (Exact(feed) <==> Clean(events) && !MarkedSince(ops))
            && (Exact(feed) ==> feed.items == GroupBy(events) && CountsOf(feed.items) == CountsOf(GroupBy(events)))
            && |feed.items| <= RETAINED_LIMIT && FirstsDistinct(feed.items)
  {
    FeedInvariant(ops);
    var feed, events := After(EMPTY, ops), TakenSince(ops);
    if feed.complete {
      forall k | k in feed.items ensures feed.items[k].reliable {
        var i :| 0 <= i < |events| && KeyOf(events[i]) == k;
        assert CleanAt(events, i);
        GroupNonempty(events, k);
      }
    }
  }

  // ---- Overlapping batches ----

  ghost function Feeding(feed: Feed, events: seq<Event>): Feed {
    if events == [] then feed else Apply(Feeding(feed, events[..|events| - 1]), events[|events| - 1])
  }

  lemma {:induction false} FeedingAppend(feed: Feed, a: seq<Event>, b: seq<Event>)
    ensures Feeding(feed, a + b) == Feeding(Feeding(feed, a), b)
  {
    if b == [] {
      assert a + b == a;
    } else {
      FeedingAppend(feed, a, b[..|b| - 1]);
      assert (a + b)[..|a + b| - 1] == a + b[..|b| - 1];
    }
  }

  /** What has been delivered is behind the watermark. */
  lemma {:induction false} WatermarkCovers(feed: Feed, events: seq<Event>)
    ensures forall e :: e in events && IsActionEvent(e.kind) ==> e.sequence <= Feeding(feed, events).watermark
  {
    if events != [] {
      var n := |events| - 1;
      WatermarkCovers(feed, events[..n]);
      assert forall e :: e in events <==> e in events[..n] || e == events[n];
    }
  }

  lemma {:induction false} RedeliveryIgnored(feed: Feed, events: seq<Event>, again: seq<Event>)
    requires forall e :: e in again ==> e in events
    ensures Feeding(Feeding(feed, events), again) == Feeding(feed, events)
  {
    if again != [] {
      RedeliveryIgnored(feed, events, again[..|again| - 1]);
      WatermarkCovers(feed, events);
      assert again[|again| - 1] in again;
    }
  }

  /** A batch of the stream: positions `from` to `to`. */
  datatype Batch = Batch(from: nat, to: nat)

  ghost predicate BatchesCover(stream: seq<Event>, batches: seq<Batch>, delivered: nat) {
    batches == [] ||
    (&& batches[0].from <= batches[0].to <= |stream|
     && batches[0].from <= delivered
     && BatchesCover(stream, batches[1..], if batches[0].to > delivered then batches[0].to else delivered))
  }

  ghost function DeliverBatches(feed: Feed, stream: seq<Event>, batches: seq<Batch>): Feed
    requires forall b :: b in batches ==> b.from <= b.to <= |stream|
    decreases |batches|
  {
    if batches == [] then feed
    else DeliverBatches(Feeding(feed, stream[batches[0].from..batches[0].to]), stream, batches[1..])
  }

  function Reached(batches: seq<Batch>, delivered: nat): nat
    decreases |batches|
  {
    if batches == [] then delivered
    else Reached(batches[1..], if batches[0].to > delivered then batches[0].to else delivered)
  }

  lemma {:induction false} OverlapIgnored(feed: Feed, delivered: seq<Event>, again: seq<Event>, more: seq<Event>)
    requires forall e :: e in again ==> e in delivered
    ensures Feeding(Feeding(feed, delivered), again + more) == Feeding(feed, delivered + more)
  {
    FeedingAppend(Feeding(feed, delivered), again, more);
    RedeliveryIgnored(feed, delivered, again);
    FeedingAppend(feed, delivered, more);
  }

  lemma {:induction false} SliceDelivered(stream: seq<Event>, from: nat, to: nat, delivered: nat)
    requires from <= to <= delivered <= |stream|
    ensures forall e :: e in stream[from..to] ==> e in stream[..delivered]
  {
    forall e | e in stream[from..to] ensures e in stream[..delivered] {
      var k :| 0 <= k < to - from && stream[from..to][k] == e;
      assert stream[..delivered][from + k] == e;
    }
  }

  lemma {:induction false} OneBatch(feed: Feed, stream: seq<Event>, b: Batch, delivered: nat)
    requires b.from <= b.to <= |stream| && b.from <= delivered <= |stream|
    ensures Feeding(Feeding(feed, stream[..delivered]), stream[b.from..b.to])
         == Feeding(feed, stream[..if b.to > delivered then b.to else delivered])
  {
    if b.to > delivered {
      SliceDelivered(stream, b.from, delivered, delivered);
      OverlapIgnored(feed, stream[..delivered], stream[b.from..delivered], stream[delivered..b.to]);
      assert stream[b.from..b.to] == stream[b.from..delivered] + stream[delivered..b.to];
      assert stream[..b.to] == stream[..delivered] + stream[delivered..b.to];
    } else {
      SliceDelivered(stream, b.from, b.to, delivered);
      RedeliveryIgnored(feed, stream[..delivered], stream[b.from..b.to]);
    }
  }

  /** Batches of one stream that overlap but leave no gap have the effect of a single pass. */
  lemma {:induction false} BatchesAsOnePass(feed: Feed, stream: seq<Event>, batches: seq<Batch>, delivered: nat)
    requires delivered <= |stream| && BatchesCover(stream, batches, delivered)
    requires forall b :: b in batches ==> b.from <= b.to <= |stream|
    ensures delivered <= Reached(batches, delivered) <= |stream|
    ensures DeliverBatches(Feeding(feed, stream[..delivered]), stream, batches)
         == Feeding(feed, stream[..Reached(batches, delivered)])
    decreases |batches|
  {
    if batches != [] {
      OneBatch(feed, stream, batches[0], delivered);
      BatchesAsOnePass(feed, stream, batches[1..], if batches[0].to > delivered then batches[0].to else delivered);
    }
  }
}
