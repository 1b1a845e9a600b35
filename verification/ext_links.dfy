/** The stacks of pages as the engine keeps them: one `next` link in each page, which serves the
    default free list, the other free lists and the buckets' stacks alike. */
module ExtstoreLinks {
  import opened Common
  import opened Lists
  import opened LinkedChains
  import opened LinkedStacks
  import opened Extstore

  /** All stacks in one row. */
  function Row<T>(first: T, frees: seq<T>, buckets: seq<T>): seq<T> {
    [first] + frees + buckets
  }

  lemma RowSet<T>(first: T, frees: seq<T>, buckets: seq<T>, k: nat, x: T)
    ensures Row(first, frees, buckets)[0 := x] == Row(x, frees, buckets)
    ensures k < |frees| ==> Row(first, frees, buckets)[1 + k := x] == Row(first, frees[k := x], buckets)
    ensures k < |buckets| ==>
      Row(first, frees, buckets)[1 + |frees| + k := x] == Row(first, frees, buckets[k := x])
  {}

  /** The heads and links are those of these lists, and every page is on one of them at most. */
  ghost predicate Threaded(next: map<nat, Ptr>, head: Ptr, frees: seq<Ptr>, tops: seq<Ptr>,
                           freelist: seq<nat>, freeBuckets: seq<seq<nat>>, buckets: seq<seq<nat>>)
  {
    && |frees| == |freeBuckets| && |tops| == |buckets|
    && Linked(next, Row(head, frees, tops), Row(freelist, freeBuckets, buckets))
  }

  /** Page `p` is on no list. */
  ghost predicate Loose(freelist: seq<nat>, freeBuckets: seq<seq<nat>>, buckets: seq<seq<nat>>, p: nat) {
    Nowhere(Row(freelist, freeBuckets, buckets), p)
  }

  lemma PopDefault(next: map<nat, Ptr>, head: Ptr, frees: seq<Ptr>, tops: seq<Ptr>,
                   freelist: seq<nat>, freeBuckets: seq<seq<nat>>, buckets: seq<seq<nat>>)
    requires Threaded(next, head, frees, tops, freelist, freeBuckets, buckets)
    ensures if freelist == [] then head.None? else
              && head == Some(freelist[0]) && freelist[0] in next
              && Threaded(next, next[freelist[0]], frees, tops, freelist[1..], freeBuckets, buckets)
              && Loose(freelist[1..], freeBuckets, buckets, freelist[0])
  {
    hide Linked, Nowhere;
    Pop(next, Row(head, frees, tops), Row(freelist, freeBuckets, buckets), 0);
    if freelist != [] {
      RowSet(head, frees, tops, 0, next[freelist[0]]);
      RowSet(freelist, freeBuckets, buckets, 0, freelist[1..]);
    }
  }

  lemma PopFreeOf(next: map<nat, Ptr>, head: Ptr, frees: seq<Ptr>, tops: seq<Ptr>,
                  freelist: seq<nat>, freeBuckets: seq<seq<nat>>, buckets: seq<seq<nat>>, k: nat)
    requires Threaded(next, head, frees, tops, freelist, freeBuckets, buckets) && k < |freeBuckets|
    ensures if freeBuckets[k] == [] then frees[k].None? else
              var p, rest := freeBuckets[k][0], freeBuckets[k := freeBuckets[k][1..]];
              && frees[k] == Some(p) && p in next
              && Threaded(next, head, frees[k := next[p]], tops, freelist, rest, buckets)
              && Loose(freelist, rest, buckets, p)
  {
    hide Linked, Nowhere;
    Pop(next, Row(head, frees, tops), Row(freelist, freeBuckets, buckets), 1 + k);
    if freeBuckets[k] != [] {
      RowSet(head, frees, tops, k, next[freeBuckets[k][0]]);
      RowSet(freelist, freeBuckets, buckets, k, freeBuckets[k][1..]);
    }
  }

  lemma PushTop(next: map<nat, Ptr>, head: Ptr, frees: seq<Ptr>, tops: seq<Ptr>,
                   freelist: seq<nat>, freeBuckets: seq<seq<nat>>, buckets: seq<seq<nat>>, b: nat, p: nat)
    requires Threaded(next, head, frees, tops, freelist, freeBuckets, buckets) && b < |buckets|
    requires Loose(freelist, freeBuckets, buckets, p)
    ensures Threaded(next[p := tops[b]], head, frees, tops[b := Some(p)],
                     freelist, freeBuckets, buckets[b := [p] + buckets[b]])
  {
    hide Linked, Nowhere;
    Push(next, Row(head, frees, tops), Row(freelist, freeBuckets, buckets), 1 + |frees| + b, p);
    RowSet(head, frees, tops, b, Some(p));
    RowSet(freelist, freeBuckets, buckets, b, [p] + buckets[b]);
  }

  /** Pushing a page on the free list it belongs to. */
  lemma PushFree(next: map<nat, Ptr>, head: Ptr, frees: seq<Ptr>, tops: seq<Ptr>,
                 freelist: seq<nat>, freeBuckets: seq<seq<nat>>, buckets: seq<seq<nat>>, k: nat, p: nat)
    requires Threaded(next, head, frees, tops, freelist, freeBuckets, buckets) && k < |freeBuckets|
    requires Loose(freelist, freeBuckets, buckets, p)
    ensures Threaded(next[p := head], Some(p), frees, tops, [p] + freelist, freeBuckets, buckets)
    ensures Threaded(next[p := frees[k]], head, frees[k := Some(p)], tops,
                     freelist, freeBuckets[k := [p] + freeBuckets[k]], buckets)
  {
    hide Linked, Nowhere;
    Push(next, Row(head, frees, tops), Row(freelist, freeBuckets, buckets), 0, p);
    RowSet(head, frees, tops, k, Some(p));
    RowSet(freelist, freeBuckets, buckets, k, [p] + freelist);
    Push(next, Row(head, frees, tops), Row(freelist, freeBuckets, buckets), 1 + k, p);
    RowSet(freelist, freeBuckets, buckets, k, [p] + freeBuckets[k]);
  }

  lemma CutBucket(next: map<nat, Ptr>, head: Ptr, frees: seq<Ptr>, tops: seq<Ptr>,
                  freelist: seq<nat>, freeBuckets: seq<seq<nat>>, buckets: seq<seq<nat>>, b: nat, i: nat)
    requires Threaded(next, head, frees, tops, freelist, freeBuckets, buckets) && b < |buckets| && i < |buckets[b]|
    ensures var p, rest := buckets[b][i], buckets[b := Without(buckets[b], buckets[b][i])];
      && p in next && Loose(freelist, freeBuckets, rest, p)
      && Threaded(Unlinked(next, buckets[b], i), head, frees, if i == 0 then tops[b := next[p]] else tops,
                  freelist, freeBuckets, rest)
  {
    hide Linked, Nowhere, Without, Unlinked;
    var p := buckets[b][i];
    Cut(next, Row(head, frees, tops), Row(freelist, freeBuckets, buckets), 1 + |frees| + b, i);
    RowSet(head, frees, tops, b, next[p]);
    RowSet(freelist, freeBuckets, buckets, b, Without(buckets[b], p));
  }

  /** What the walk down a bucket's stack finds at its next record. */
  lemma BucketChain(next: map<nat, Ptr>, head: Ptr, frees: seq<Ptr>, tops: seq<Ptr>,
                    freelist: seq<nat>, freeBuckets: seq<seq<nat>>, buckets: seq<seq<nat>>, b: nat)
    requires Threaded(next, head, frees, tops, freelist, freeBuckets, buckets) && b < |buckets|
    ensures Chain(next, tops[b], buckets[b]) && NoDup(buckets[b])
  {
    var all := Row(freelist, freeBuckets, buckets);
    assert all[1 + |frees| + b] == buckets[b] && Row(head, frees, tops)[1 + |frees| + b] == tops[b];
  }
}
