/**
 * The intrusive FIFO queue of cache entries. The Java class links the items between a head
 * and a tail sentinel; here the linked items are the sequence `items`, newest (next to the
 * head) first and oldest (next to the tail) last. An item is linked, in the Java sense of
 * having non-null links, exactly when it is in `items`. `queueSize` is the separately
 * maintained cached size.
 */
module Queue {
  import opened Seqs
  import opened Wrappers

  class SynchronizedQueue<I(==)> {
    /** The linked items, from the head sentinel to the tail sentinel. */
    var items: seq<I>
    /** The cached size. */
    var queueSize: int
    /** The trim-in-progress flag. */
    var trimming: bool

    /** The cached size is the real length, and an item is linked at most once. */
    ghost predicate Valid()
      reads this
    {
      queueSize == |items| && Distinct(items)
    }

    /** A new queue: the head sentinel is followed directly by the tail, and the size is 0. */
    constructor ()
      ensures Valid()
      ensures items == [] && queueSize == 0 && !trimming
    {
      items := [];
      queueSize := 0;
      trimming := false;
    }

    /** The cached size, which is the number of linked items. */
    function Size(): (n: int)
      reads this
      ensures Valid() ==> n == |items|
    {
      queueSize
    }

    /** Counts the linked items and fails exactly when the count differs from the cached size. */
    method AssertConsistency() returns (r: Outcome)
      ensures r == Pass <==> queueSize == |items|
      ensures r != Pass ==> r == Fail(AssertionError)
    {
      var effectiveQueueSize := 0;
      var rest := items;
      while rest != []
        invariant |rest| <= |items|
        invariant effectiveQueueSize + |rest| == |items|
      {
        effectiveQueueSize := effectiveQueueSize + 1;
        rest := rest[1..];
      }
      if effectiveQueueSize != queueSize {
        r := Fail(AssertionError);
      } else {
        r := Pass;
      }
    }

    /** Unlinks `item` if it is linked: returns whether it was, and keeps the other items in order. */
    method Remove(item: I) returns (removed: bool)
      requires Valid()
      modifies this
      ensures Valid()
      ensures removed == (item in old(items))
      ensures items == Without(old(items), item)
      ensures removed ==> queueSize == old(queueSize) - 1
      ensures !removed ==> items == old(items) && queueSize == old(queueSize)
      ensures trimming == old(trimming)
    {
      WithoutDistinct(items, item);
      if item in items {
        items := Without(items, item);
        queueSize := queueSize - 1;
        removed := true;
      } else {
        removed := false;
      }
    }

    /** Links an unlinked `item` right after the head sentinel, the newest position. */
    method Add(item: I)
      requires Valid() && item !in items
      modifies this
      ensures Valid()
      ensures items == [item] + old(items)
      ensures queueSize == old(queueSize) + 1
      ensures trimming == old(trimming)
    {
      items := [item] + items;
      queueSize := queueSize + 1;
    }

    /**
     * Evicts the oldest items until at most `size` remain and returns them oldest first.
     * Returns None, and changes nothing, when nothing needs evicting or when a trim is
     * already in progress.
     */
    method Trim(size: int) returns (evicted: Option<seq<I>>)
      requires Valid() && size >= 0
      modifies this
      ensures Valid()
      ensures trimming == old(trimming)
      ensures old(trimming) || old(queueSize) <= size ==> evicted == None && items == old(items)
      ensures !old(trimming) && old(queueSize) > size ==>
                evicted == Some(Reversed(old(items)[size..])) && items == old(items)[..size]
    {
      if !trimming {
        trimming := true;
        if queueSize > size {
          var evictedItems: seq<I> := [];
          while queueSize > size
            invariant Valid() && trimming
            invariant size <= queueSize <= |old(items)|
            invariant items == old(items)[..queueSize]
            invariant evictedItems == Reversed(old(items)[queueSize..])
            decreases queueSize
          {
            var last := items[|items| - 1];
            WithoutLast(items);
            ReversedSuffix(old(items), queueSize);
            var _ := Remove(last);
            evictedItems := evictedItems + [last];
          }
          trimming := false;
          return Some(evictedItems);
        }
        trimming := false;
      }
      evicted := None;
    }
  }
}
