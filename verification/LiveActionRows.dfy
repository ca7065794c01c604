/** What one event does to the rows and the counters of the live feed, complete or not. */
module LiveActionRows {
  import opened Prelude
  import opened LiveActionFeed

  // ---- Which row an event goes into ----

  /** Diagnostics stand alone; other events share the row of their record, and stand alone without one. */
  lemma {:induction false} SameRowIff(e: Event, f: Event)
    ensures var diagnostic := (x: Event) => x.action.Some? && x.action.value.isDiagnostic;
            KeyOf(e) == KeyOf(f) <==>
              && diagnostic(e) == diagnostic(f)
              && (if diagnostic(e) then e.eventId == f.eventId
                  else if !Blank(e.recordId) then e.recordId == f.recordId
                  else Blank(f.recordId) && e.eventId == f.eventId)
  {
  }

  /** The event names another bound action than the row of its record shows. */
  predicate Contradicts(feed: Feed, e: Event) {
    KeyOf(e) in feed.items && Conflicts(feed.items[KeyOf(e)].action, e.action)
  }

  function RowFor(feed: Feed, e: Event): Key {
    if Contradicts(feed, e) then ConflictKey(e.eventId) else KeyOf(e)
  }

  /** The event goes into a row of its own that was not there. */
  predicate OpensRow(feed: Feed, e: Event) {
    RowFor(feed, e) !in feed.items
  }

  /** A row that starts with this event. */
  predicate Starts(row: Item, e: Event) {
    && row.first == e.sequence && row.latest == e.sequence && row.firstAt == e.observedAt
    && row.latestAt == e.observedAt && row.kind == e.kind && row.detail == e.detail
    && row.recordId == e.recordId && row.action == e.action
    && (row.reliable <==> row.key.DiagnosticKey? || row.key.RecordKey?)
  }

  /** A row that goes on with this event: it keeps where it began, shows the latest kind and detail, and the
      latest record and action that were given. */
  predicate GoesOn(before: Item, row: Item, e: Event) {
    && row.key == before.key && row.reliable == before.reliable
    && row.first == before.first && row.firstAt == before.firstAt
    && row.latest == e.sequence && before.latestAt <= row.latestAt && e.observedAt <= row.latestAt
    && (row.latestAt == before.latestAt || row.latestAt == e.observedAt)
    && row.kind == e.kind && row.detail == e.detail
    && row.recordId == (if e.recordId.Some? then e.recordId else before.recordId)
    && row.action == (if e.action.Some? then e.action else before.action)
  }

  /** The event takes the place of the oldest row. */
  ghost predicate Evicts(feed: Feed, e: Event, key: Key) {
    OpensRow(feed, e) && |feed.items| == RETAINED_LIMIT && IsOldest(feed.items, key)
  }

  /** The row of the event after it was taken, and all others: of these only the oldest goes, and only for a new
      row beyond the limit. */
  lemma {:induction false} EventRows(feed: Feed, e: Event)
    requires Bounded(feed) && Takes(feed, e)
    ensures var next, key := Apply(feed, e), RowFor(feed, e);
            && key in next.items && next.items[key].key == key && next.items.Keys <= feed.items.Keys + {key}
            && (if OpensRow(feed, e) || Contradicts(feed, e) then Starts(next.items[key], e)
                else GoesOn(feed.items[key], next.items[key], e))
            && (forall k :: k in feed.items && k != key ==>
                  && (k in next.items <==> !Evicts(feed, e, k))
                  && (k in next.items ==> next.items[k] == feed.items[k]))
  {
    var key := RowFor(feed, e);
    if OpensRow(feed, e) || Contradicts(feed, e) {
      InsertRows(feed.items, key, e, feed.complete && !Contradicts(feed, e), feed.watermark);
    }
  }

  lemma {:induction false} InsertRows(items: Items, key: Key, e: Event, complete: bool, bound: int)
    requires |items| <= RETAINED_LIMIT && RowsWithin(items, bound) && bound < e.sequence
    ensures var grown := Insert(items, key, e, complete).0;
            && key in grown && grown[key] == NewItem(key, e) && grown.Keys <= items.Keys + {key}
            && (forall k :: k in items && k != key ==>
                  && (k in grown <==> !(key !in items && |items| == RETAINED_LIMIT && IsOldest(items, k)))
                  && (k in grown ==> grown[k] == items[k]))
  {
    var all := items[key := NewItem(key, e)];
    AddOne(items, key, NewItem(key, e));
    assert all.Keys == items.Keys + {key};
    if |all| > RETAINED_LIMIT {
      NewestStays(items, key, NewItem(key, e));
      OldestAmong(items, key, e, bound);
    } else if key !in items {
      assert |all.Keys| == |items.Keys| + 1;
    }
  }

  /** Behind a newer row the oldest is the oldest of the rest, and there is only one. */
  lemma {:induction false} OldestAmong(items: Items, key: Key, e: Event, bound: int)
    requires items != map[] && key !in items && RowsWithin(items, bound) && bound < e.sequence
    ensures var all := items[key := NewItem(key, e)];
            forall k :: k in items ==> (IsOldest(items, k) <==> k == Oldest(all))
  {
    var all := items[key := NewItem(key, e)];
    AddedRows(items, key, e, bound);
    NewestStays(items, key, NewItem(key, e));
    var oldest := Oldest(all);
    assert oldest in items && all[oldest] == items[oldest];
    forall k | k in items ensures all[oldest].first <= items[k].first {
      assert all[k] == items[k];
    }
  }

  /** The feed stays complete exactly as long as the event neither contradicts its row, nor opens one without a
      stable identity, nor pushes one out. */
  lemma {:induction false} StaysComplete(feed: Feed, e: Event)
    requires Bounded(feed) && Takes(feed, e)
    ensures Apply(feed, e).complete <==>
              && feed.complete && !Contradicts(feed, e)
              && (OpensRow(feed, e) ==> Reliable(KeyOf(e)) && |feed.items| < RETAINED_LIMIT)
  {
    var key := KeyOf(e);
    if key !in feed.items {
      assert feed.items[key := NewItem(key, e)].Keys == feed.items.Keys + {key};
      assert |feed.items.Keys + {key}| == |feed.items.Keys| + 1;
    }
  }

  // ---- The counters ----

  function OneIf(condition: bool): nat {
    if condition then 1 else 0
  }

  /** Which counters a row enters. */
  function Enters(row: Item): Counts {
    Counts(
      OneIf(row.kind == DecisionRecorded), OneIf(row.kind == RootPending),
      OneIf(row.action.Some?
            && (row.action.value.disposition == "unresolved" || row.action.value.disposition == "failed_closed")),
      OneIf(row.action.Some? && row.action.value.isDiagnostic))
  }

  function Plus(a: Counts, b: Counts): Counts {
    Counts(a.records + b.records, a.pending + b.pending, a.invalidated + b.invalidated, a.diagnostics + b.diagnostics)
  }

  lemma {:induction false} CountedOnce(items: Items, key: Key, row: Item, p: Item -> bool)
    requires key !in items
    ensures |KeysWhere(items[key := row], p)| == |KeysWhere(items, p)| + OneIf(p(row))
  {
    var all := items[key := row];
    assert KeysWhere(all, p) == KeysWhere(items, p) + if p(row) then {key} else {};
  }

  /** A new row raises exactly the counters it enters. */
  lemma {:induction false} RowCounted(items: Items, key: Key, row: Item)
    requires key !in items
    ensures CountsOf(items[key := row]) == Plus(CountsOf(items), Enters(row))
  {
    CountedOnce(items, key, row, IsRecorded);
    CountedOnce(items, key, row, IsPending);
    CountedOnce(items, key, row, IsFailure);
    CountedOnce(items, key, row, IsDiagnostic);
  }

  /** Taking a row away lowers exactly the counters it had entered. */
  lemma {:induction false} RowUncounted(items: Items, key: Key)
    requires key in items
    ensures Plus(CountsOf(items - {key}), Enters(items[key])) == CountsOf(items)
  {
    RemovedAndSet(items, key, items[key]);
    assert items == items[key := items[key]];
    RowCounted(items - {key}, key, items[key]);
  }

  lemma EmptyCounts()
    ensures CountsOf(map[]) == Counts(0, 0, 0, 0)
  {
    var none: Items := map[];
    assert KeysWhere(none, IsRecorded) == {} && KeysWhere(none, IsPending) == {};
    assert KeysWhere(none, IsFailure) == {} && KeysWhere(none, IsDiagnostic) == {};
  }

  lemma OneRowSet<K, V>(before: map<K, V>, after: map<K, V>, key: K)
    requires key in after && after.Keys <= before.Keys + {key}
    requires forall k :: k in before && k != key ==> k in after && after[k] == before[k]
    ensures after == before[key := after[key]]
  {
    assert after.Keys == before[key := after[key]].Keys;
  }

  lemma RemovedAndSet<K, V>(before: map<K, V>, key: K, value: V)
    requires key in before
    ensures before[key := value] == (before - {key})[key := value]
  {
    assert before[key := value].Keys == (before - {key})[key := value].Keys;
  }

  lemma {:induction false} NextInPlace(feed: Feed, e: Event)
    requires Bounded(feed) && Takes(feed, e) && forall k :: !Evicts(feed, e, k)
    ensures RowFor(feed, e) in Apply(feed, e).items
    ensures Apply(feed, e).items == feed.items[RowFor(feed, e) := Apply(feed, e).items[RowFor(feed, e)]]
  {
    EventRows(feed, e);
    OneRowSet(feed.items, Apply(feed, e).items, RowFor(feed, e));
  }

  lemma {:induction false} NextEvicted(feed: Feed, e: Event, gone: Key)
    requires Bounded(feed) && Takes(feed, e) && Evicts(feed, e, gone)
    ensures RowFor(feed, e) in Apply(feed, e).items
    ensures Apply(feed, e).items == (feed.items - {gone})[RowFor(feed, e) := Apply(feed, e).items[RowFor(feed, e)]]
  {
    EventRows(feed, e);
    OldestUnique(feed.items, gone);
    var next := Apply(feed, e).items;
    assert !(gone in next);
    OneRowSet(feed.items - {gone}, next, RowFor(feed, e));
  }

  /** The row that gives way to the event: its own as it was before, or the one it pushes out. */
  ghost predicate GivesWay(feed: Feed, e: Event, key: Key) {
    key in feed.items && (key == RowFor(feed, e) || Evicts(feed, e, key))
  }

  /** After an event the counters are those from before, with the event's row as it is now and without the row
      that gave way. */
  lemma {:induction false} EventCounts(feed: Feed, e: Event, gone: Key)
    requires Bounded(feed) && Takes(feed, e) && GivesWay(feed, e, gone)
    ensures RowFor(feed, e) in Apply(feed, e).items
    ensures Plus(CountsOf(Apply(feed, e).items), Enters(feed.items[gone]))
         == Plus(CountsOf(feed.items), Enters(Apply(feed, e).items[RowFor(feed, e)]))
  {
    var key, next := RowFor(feed, e), Apply(feed, e).items;
    if gone == key {
      NextInPlace(feed, e);
      RowReplaced(feed.items, key, next[key]);
    } else {
      NextEvicted(feed, e, gone);
      RowExchanged(feed.items, gone, key, next[key]);
    }
  }

  /** A new row for which none gives way is counted on top. */
  lemma {:induction false} NewRowCounts(feed: Feed, e: Event)
    requires Bounded(feed) && Takes(feed, e) && forall k :: !GivesWay(feed, e, k)
    ensures RowFor(feed, e) in Apply(feed, e).items
    ensures CountsOf(Apply(feed, e).items)
         == Plus(CountsOf(feed.items), Enters(Apply(feed, e).items[RowFor(feed, e)]))
  {
    forall k ensures !Evicts(feed, e, k) {
      assert !GivesWay(feed, e, k);
    }
    assert !GivesWay(feed, e, RowFor(feed, e));
    NextInPlace(feed, e);
    RowCounted(feed.items, RowFor(feed, e), Apply(feed, e).items[RowFor(feed, e)]);
  }

  lemma {:induction false} RowReplaced(items: Items, key: Key, row: Item)
    requires key in items
    ensures Plus(CountsOf(items[key := row]), Enters(items[key])) == Plus(CountsOf(items), Enters(row))
  {
    RowUncounted(items, key);
    RowCounted(items - {key}, key, row);
    RemovedAndSet(items, key, row);
    PlusExchange(CountsOf(items - {key}), Enters(items[key]), Enters(row));
  }

  lemma {:induction false} RowExchanged(items: Items, gone: Key, key: Key, row: Item)
    requires gone in items && key !in items
    ensures Plus(CountsOf((items - {gone})[key := row]), Enters(items[gone])) == Plus(CountsOf(items), Enters(row))
  {
    RowUncounted(items, gone);
    RowCounted(items - {gone}, key, row);
    PlusExchange(CountsOf(items - {gone}), Enters(items[gone]), Enters(row));
  }

  lemma PlusExchange(a: Counts, b: Counts, c: Counts)
    ensures Plus(Plus(a, b), c) == Plus(Plus(a, c), b)
  {
  }

  lemma OldestUnique(items: Items, key: Key)
    requires FirstsDistinct(items) && IsOldest(items, key)
    ensures forall k :: IsOldest(items, k) ==> k == key
  {
  }
}
