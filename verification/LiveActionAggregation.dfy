/** PlatformLiveActionAggregation: the feed kept in a dictionary and updated in place. */
module LiveActionAggregation {
  import opened Prelude
  import opened LiveActionFeed

  class PlatformLiveActionAggregation {
    var items: Items
    var lastAppliedSequence: int
    var sourceComplete: bool

    constructor ()
      ensures View() == EMPTY
    {
      items, lastAppliedSequence, sourceComplete := map[], 0, true;
    }

    function View(): Feed
      reads this
    {
      Feed(items, lastAppliedSequence, sourceComplete)
    }

    method Clear()
      modifies this
      ensures View() == EMPTY && Bounded(View())
    {
      items, lastAppliedSequence, sourceComplete := map[], 0, true;
    }

    method MarkSourceIncomplete()
      modifies this`sourceComplete
      ensures View() == Perform(old(View()), MarkIncomplete)
    {
      sourceComplete := false;
    }

    /** MinBy over the first sequences. */
    method FindOldest() returns (oldest: Key)
      requires items != map[] && FirstsDistinct(items)
      ensures oldest == Oldest(items)
    {
      var todo := items.Keys;
      oldest :| oldest in todo;
      todo := todo - {oldest};
      while todo != {}
        invariant todo <= items.Keys && oldest in items
        invariant forall k :: k in items.Keys - todo ==> items[oldest].first <= items[k].first
      {
        var k :| k in todo;
        if items[k].first < items[oldest].first {
          oldest := k;
        }
        todo := todo - {k};
      }
    }

    /** Stores a new row and, beyond the limit, drops the oldest one. */
    method AddRow(key: Key, e: Event)
      requires FirstsDistinct(items[key := NewItem(key, e)])
      modifies this`items, this`sourceComplete
      ensures (items, sourceComplete) == Insert(old(items), key, e, old(sourceComplete))
    {
      items := items[key := NewItem(key, e)];
      if !Reliable(key) {
        sourceComplete := false;
      }
      if |items| > RETAINED_LIMIT {
        var oldest := FindOldest();
        items := items - {oldest};
        sourceComplete := false;
      }
    }

    method ApplyEvent(e: Event) returns (changed: bool)
      requires Bounded(View())
      modifies this
      ensures View() == Apply(old(View()), e) && Bounded(View())
      ensures changed <==> Takes(old(View()), e)
    {
      ApplyBounded(View(), e);
      if !IsActionEvent(e.kind) || e.sequence <= lastAppliedSequence {
        return false;
      }
      var key := KeyOf(e);
      if key in items {
        var existing := items[key];
        if Conflicts(existing.action, e.action) {
          key := ConflictKey(e.eventId);
          sourceComplete := false;
        } else {
          lastAppliedSequence := e.sequence;
          items := items[key := Merge(existing, e)];
          return true;
        }
      }
      AddedRows(items, key, e, lastAppliedSequence);
      lastAppliedSequence := e.sequence;
      AddRow(key, e);
      changed := true;
    }

    method GetCounts() returns (counts: Counts, exact: bool)
      ensures counts == CountsOf(items) && (exact <==> Exact(View()))
    {
      counts := CountsOf(items);
      exact := sourceComplete && forall k :: k in items ==> items[k].reliable;
    }
  }
}
