/** Opening and freeing pages keep the invariants. */
module ExtstorePages {
  import opened Common
  import opened Lists
  import opened Extstore
  import opened ExtstoreInv
  import opened ExtstoreSafe
  import opened ExtstoreReads
  import opened ExtstoreWrites

  // ----- Lists

  lemma {:induction false} TotalUpdate(lists: seq<seq<nat>>, k: nat, list: seq<nat>)
    requires k < |lists|
    ensures Total(lists[k := list]) == Total(lists) - |lists[k]| + |list|
  {
    if k == 0 {
      assert lists[0 := list][1..] == lists[1..];
    } else {
      TotalUpdate(lists[1..], k - 1, list);
      assert lists[k := list][1..] == lists[1..][k - 1 := list];
    }
  }

  // ----- Opening a free page

  lemma OpenPages(c: Config, pages: seq<Page>, wbufs: seq<Wbuf>, version: nat, p: nat, b: nat)
    requires c.Valid() && PagesOk(c, pages, wbufs, version) && VersionsDiffer(pages)
    requires 0 < p < |pages| && pages[p].free && version >= 1
    ensures var t := pages[p := OpenPage(pages[p], version, b)];
      PagesOk(c, t, wbufs, version + 1) && VersionsDiffer(t)
  {
    hide c.Apart;
    var t := pages[p := OpenPage(pages[p], version, b)];
    forall q | 0 <= q < |pages|
      ensures PageOk(c, t[q], wbufs, version + 1) && (q != p && !t[q].free ==> t[q].version < version)
    {
      assert PageOk(c, pages[q], wbufs, version);
    }
  }

  lemma OpenFreeList(c: Config, pages: seq<Page>, list: seq<nat>, fb: nat, p: nat, page: Page)
    requires p < |pages| == |c.freeBucket| && OnFreeList(c, pages, list, fb) && p !in list
    ensures OnFreeList(c, pages[p := page], list, fb)
  {}

  lemma OpenBucket(c: Config, pages: seq<Page>, list: seq<nat>, b: nat, p: nat, page: Page)
    requires p < |pages| && OnBucket(c, pages, list, b) && pages[p].free
    ensures OnBucket(c, pages[p := page], list, b)
  {}

  lemma OpenOnBucket(c: Config, pages: seq<Page>, list: seq<nat>, b: nat, p: nat, version: nat)
    requires 0 < p < |pages| && OnBucket(c, pages, list, b) && pages[p].free && HeadFull(c, pages, list)
    ensures OnBucket(c, pages[p := OpenPage(pages[p], version, b)], [p] + list, b)
  {}

  /** The opened page leaves its free list for the top of its bucket's stack. */
  lemma OpenLists(c: Config, pages: seq<Page>, freelist: seq<nat>, freeBuckets: seq<seq<nat>>, buckets: seq<seq<nat>>,
                  freelist1: seq<nat>, freeBuckets1: seq<seq<nat>>, b: nat, p: nat, version: nat)
    requires |pages| == |c.freeBucket| && Partitioned(c, pages, freelist, freeBuckets, buckets)
    requires b < |buckets| && 0 < p < |pages| && pages[p].free && HeadFull(c, pages, buckets[b])
    requires |freeBuckets1| == |freeBuckets| && (|freeBuckets1| > 0 ==> freeBuckets1[0] == [])
    requires OnFreeList(c, pages, freelist1, 0) && p !in freelist1
    requires forall k :: 0 <= k < |freeBuckets1| ==> OnFreeList(c, pages, freeBuckets1[k], k) && p !in freeBuckets1[k]
    requires forall q :: q in freelist && q != p ==> q in freelist1
    requires forall k, q :: 0 <= k < |freeBuckets1| && q in freeBuckets[k] && q != p ==> q in freeBuckets1[k]
    ensures Partitioned(c, pages[p := OpenPage(pages[p], version, b)], freelist1, freeBuckets1,
                        buckets[b := [p] + buckets[b]])
  {
    var t, page := pages[p := OpenPage(pages[p], version, b)], OpenPage(pages[p], version, b);
    var stacks := buckets[b := [p] + buckets[b]];
    OpenFreeList(c, pages, freelist1, 0, p, page);
    forall k | 0 <= k < |freeBuckets1|
      ensures OnFreeList(c, t, freeBuckets1[k], k) && OnBucket(c, t, stacks[k], k)
    {
      OpenFreeList(c, pages, freeBuckets1[k], k, p, page);
      assert OnBucket(c, pages, buckets[k], k);
      if k == b {
        OpenOnBucket(c, pages, buckets[b], b, p, version);
      } else {
        OpenBucket(c, pages, buckets[k], k, p, page);
      }
    }
    hide OnFreeList, OnBucket;
    forall q | 0 < q < |t|
      ensures Listed(c, t, freelist1, freeBuckets1, stacks, q)
    {
      assert Listed(c, pages, freelist, freeBuckets, buckets, q);
    }
  }

  lemma OpenBuffers(c: Config, pages: seq<Page>, wbufs: seq<Wbuf>, wbufStack: seq<nat>, writes: map<nat, WriteIo>,
                    p: nat, page: Page)
    requires BuffersOk(c, pages, wbufs, wbufStack) && WritesOk(c, pages, wbufs, writes)
    requires p < |pages| && pages[p].wbuf.None? && page.wbuf.None?
    ensures BuffersOk(c, pages[p := page], wbufs, wbufStack) && WritesOk(c, pages[p := page], wbufs, writes)
  {
    var t := pages[p := page];
    assert Attached(t) == Attached(pages);
    hide Attached, WritePages;
    forall io | io in writes
      ensures WriteOk(c, t, wbufs, writes[io])
    {
      assert WriteOk(c, pages, wbufs, writes[io]);
    }
  }

  lemma OpenWriters(c: Config, s: State, b: nat, p: nat, page: Page, list: seq<nat>)
    requires WritersOk(c, s.pages, s.wbufs, s.buckets, s.writers) && b < |s.writers| && s.writers[b].Idle?
    requires p < |s.pages| && s.pages[p].wbuf.None? && forall k :: 0 <= k < |s.buckets| ==> p !in s.buckets[k]
    ensures WritersOk(c, s.pages[p := page], s.wbufs, s.buckets[b := list], s.writers)
  {
    var t, stacks := s.pages[p := page], s.buckets[b := list];
    forall a | 0 <= a < |s.writers|
      ensures WriterOk(c, t, s.wbufs, stacks[a], s.writers[a])
    {
      assert WriterOk(c, s.pages, s.wbufs, s.buckets[a], s.writers[a]);
    }
  }

  /** Versions are fresh, so no record committed before is taken for one of the new page. */
  lemma OpenRecords(c: Config, s: State, p: nat, b: nat)
    requires RecordsOk(c, s.pages, s.wbufs, s.version, s.disk, s.commits) && p < |s.pages|
    ensures RecordsOk(c, s.pages[p := OpenPage(s.pages[p], s.version, b)], s.wbufs, s.version + 1, s.disk, s.commits)
  {
    hide Stored;
  }

  lemma OpenReads(pages: seq<Page>, lookups: map<nat, Read>, commits: set<Record>, p: nat, page: Page)
    requires ReadsOk(pages, lookups, commits) && p < |pages| && pages[p].free
    ensures ReadsOk(pages[p := page], lookups, commits)
  {
    forall id | id in lookups
      ensures ReadOk(pages[p := page], lookups[id])
    {
      assert ReadOk(pages, lookups[id]);
    }
  }

  lemma OpenMaint(pages: seq<Page>, m: Maint, p: nat, page: Page)
    requires MaintOk(pages, m) && p < |pages| && pages[p].free
    ensures MaintOk(pages[p := page], m)
  {}

  lemma FreeIsBare(c: Config, s: State, p: nat)
    requires Inv(c, s) && p < |s.pages| && s.pages[p].free
    ensures s.pages[p].wbuf.None? && forall k :: 0 <= k < |s.buckets| ==> p !in s.buckets[k]
  {
    hide c.Apart, VersionsDiffer, BuffersOk, WritesOk, IosOk, ProgressOk, WritersOk, RecordsOk, RefcountsOk, ReadsOk;
    hide MaintOk;
    assert PageOk(c, s.pages[p], s.wbufs, s.version);
    forall k | 0 <= k < |s.buckets|
      ensures p !in s.buckets[k]
    {
      assert OnBucket(c, s.pages, s.buckets[k], k);
    }
  }

  lemma OpenKeeps(c: Config, s: State, b: nat, p: nat, freelist1: seq<nat>, freeBuckets1: seq<seq<nat>>)
    requires Inv(c, s) && b < c.bucketCount && s.writers[b].Idle? && s.version >= 1
    requires 0 < p < |s.pages| && s.pages[p].free && HeadFull(c, s.pages, s.buckets[b])
    requires |freeBuckets1| == |s.freeBuckets| && (|freeBuckets1| > 0 ==> freeBuckets1[0] == [])
    requires OnFreeList(c, s.pages, freelist1, 0) && p !in freelist1
    requires forall k :: 0 <= k < |freeBuckets1| ==> OnFreeList(c, s.pages, freeBuckets1[k], k) && p !in freeBuckets1[k]
    requires forall q :: q in s.freelist && q != p ==> q in freelist1
    requires forall k, q :: 0 <= k < |freeBuckets1| && q in s.freeBuckets[k] && q != p ==> q in freeBuckets1[k]
    requires s.pageFree == |freelist1| + Total(freeBuckets1) + 1
    ensures Inv(c, s.(pages := s.pages[p := OpenPage(s.pages[p], s.version, b)],
                      buckets := s.buckets[b := [p] + s.buckets[b]],
                      freelist := freelist1, freeBuckets := freeBuckets1, version := s.version + 1,
                      pageFree := s.pageFree - 1))
  {
    hide c.Apart, PagesOk, VersionsDiffer, Partitioned, BuffersOk, WritesOk, IosOk, ProgressOk, WritersOk, RecordsOk;
    hide RefcountsOk, ReadsOk, MaintOk, OnFreeList, Total;
    var page := OpenPage(s.pages[p], s.version, b);
    var t := s.pages[p := page];
    FreeIsBare(c, s, p);
    OpenPages(c, s.pages, s.wbufs, s.version, p, b);
    OpenLists(c, s.pages, s.freelist, s.freeBuckets, s.buckets, freelist1, freeBuckets1, b, p, s.version);
    OpenBuffers(c, s.pages, s.wbufs, s.wbufStack, s.writes, p, page);
    OpenWriters(c, s, b, p, page, [p] + s.buckets[b]);
    OpenRecords(c, s, p, b);
    RefcountsKept(s.pages, t, s.lookups);
    OpenReads(s.pages, s.lookups, s.commits, p, page);
    OpenMaint(s.pages, s.maint, p, page);
  }

  lemma PoppedFreeList(c: Config, pages: seq<Page>, list: seq<nat>, fb: nat)
    requires |pages| == |c.freeBucket| && OnFreeList(c, pages, list, fb) && list != []
    ensures OnFreeList(c, pages, list[1..], fb) && list[0] !in list[1..]
    ensures 0 < list[0] < |pages| && pages[list[0]].free && c.freeBucket[list[0]] == fb
    ensures forall q :: q in list && q != list[0] ==> q in list[1..]
  {}

  lemma NotOnOtherList(c: Config, pages: seq<Page>, list: seq<nat>, fb: nat, p: nat)
    requires |pages| == |c.freeBucket| && OnFreeList(c, pages, list, fb) && p < |pages| && c.freeBucket[p] != fb
    ensures p !in list
  {}

  lemma FreeLists(c: Config, s: State)
    requires Inv(c, s)
    ensures OnFreeList(c, s.pages, s.freelist, 0)
    ensures forall k :: 0 <= k < |s.freeBuckets| ==> OnFreeList(c, s.pages, s.freeBuckets[k], k)
    ensures |s.freeBuckets| > 0 ==> s.freeBuckets[0] == []
  {
    hide c.Apart, VersionsDiffer, PagesOk, BuffersOk, WritesOk, IosOk, ProgressOk, WritersOk, RecordsOk, RefcountsOk;
    hide ReadsOk, MaintOk;
    hide OnFreeList, OnBucket, Listed;
  }

  lemma OpenFromDefault(c: Config, s: State, b: nat)
    requires Inv(c, s) && b < c.bucketCount && s.writers[b].Idle? && HeadFull(c, s.pages, s.buckets[b])
    requires s.freelist != []
    ensures s.freelist[0] < |s.pages| && s.pageFree > 0
    ensures var p := s.freelist[0];
      Inv(c, s.(pages := s.pages[p := OpenPage(s.pages[p], s.version, b)],
                buckets := s.buckets[b := [p] + s.buckets[b]],
                freelist := s.freelist[1..], version := s.version + 1, pageFree := s.pageFree - 1))
  {
    hide c.Apart, PagesOk, VersionsDiffer, Partitioned, BuffersOk, WritesOk, IosOk, ProgressOk, WritersOk, RecordsOk;
    hide RefcountsOk, ReadsOk, MaintOk, OnFreeList;
    var p := s.freelist[0];
    FreeLists(c, s);
    PoppedFreeList(c, s.pages, s.freelist, 0);
    forall k | 0 <= k < |s.freeBuckets|
      ensures p !in s.freeBuckets[k]
    {
      if k > 0 {
        NotOnOtherList(c, s.pages, s.freeBuckets[k], k, p);
      }
    }
    OpenKeeps(c, s, b, p, s.freelist[1..], s.freeBuckets);
  }

  lemma OpenFromBucket(c: Config, s: State, b: nat, fb: nat)
    requires Inv(c, s) && b < c.bucketCount && s.writers[b].Idle? && HeadFull(c, s.pages, s.buckets[b])
    requires 0 < fb < c.bucketCount && s.freeBuckets[fb] != []
    ensures s.freeBuckets[fb][0] < |s.pages| && s.pageFree > 0
    ensures var p := s.freeBuckets[fb][0];
      Inv(c, s.(pages := s.pages[p := OpenPage(s.pages[p], s.version, b)],
                buckets := s.buckets[b := [p] + s.buckets[b]],
                freeBuckets := s.freeBuckets[fb := s.freeBuckets[fb][1..]], version := s.version + 1,
                pageFree := s.pageFree - 1))
  {
    hide c.Apart, PagesOk, VersionsDiffer, Partitioned, BuffersOk, WritesOk, IosOk, ProgressOk, WritersOk, RecordsOk;
    hide RefcountsOk, ReadsOk, MaintOk, OnFreeList, Total;
    var p, lists := s.freeBuckets[fb][0], s.freeBuckets[fb := s.freeBuckets[fb][1..]];
    FreeLists(c, s);
    PoppedFreeList(c, s.pages, s.freeBuckets[fb], fb);
    NotOnOtherList(c, s.pages, s.freelist, 0, p);
    TotalUpdate(s.freeBuckets, fb, s.freeBuckets[fb][1..]);
    forall k | 0 <= k < |lists|
      ensures OnFreeList(c, s.pages, lists[k], k) && p !in lists[k]
    {
      if k != fb {
        NotOnOtherList(c, s.pages, s.freeBuckets[k], k, p);
      }
    }
    OpenKeeps(c, s, b, p, s.freelist, lists);
  }

  /** A new page heads its bucket; otherwise nothing changes. */
  lemma AllocateKeeps(c: Config, s: State, b: nat, fb: nat)
    requires Inv(c, s) && b < c.bucketCount && fb < c.bucketCount && s.writers[b].Idle? && MayAllocate(c, s, b, fb)
    ensures var (t, r) := AllocatePage(s, b, fb);
      && Inv(c, t) && t.writers == s.writers
      && (r.Some? ==> t.buckets[b] != [] && t.buckets[b][0] == r.value < |t.pages|)
      && (r.None? ==> t == s)
  {
    hide Inv, OpenPage;
    SizedBy(c, s);
    if fb != 0 && s.freeBuckets[fb] != [] {
      OpenFromBucket(c, s, b, fb);
    } else if s.freelist != [] {
      OpenFromDefault(c, s, b);
    }
  }

  lemma FindKeeps(c: Config, s: State, b: nat, fb: nat, len: nat)
    requires Inv(c, s) && CanFind(c, s, b, fb) && SafeFind(c, s, b, fb)
    ensures Inv(c, Find(c, s, b, fb, len))
  {
    hide Inv, AllocatePage;
    if s.buckets[b] != [] {
      WriterChange(c, s, b, Found(s.buckets[b][0], len, fb));
    } else {
      AllocateKeeps(c, s, b, fb);
      var (t, r) := AllocatePage(s, b, fb);
      if r.Some? {
        SizedBy(c, t);
        WriterChange(c, t, b, Found(r.value, len, fb));
      }
    }
  }

  lemma SizedBy(c: Config, s: State)
    requires Inv(c, s)
    ensures s.Sized(c)
  {}

  lemma GetKeeps(c: Config, s: State, b: nat)
    requires Inv(c, s) && CanGet(c, s, b) && SafeGet(c, s, b)
    ensures Inv(c, Get(c, s, b))
  {
    hide Inv;
    var fb := s.writers[b].freeBucket;
    WriterChange(c, s, b, Idle);
    AllocateKeeps(c, s.WithWriter(b, Idle), b, fb);
  }

  // ----- Freeing a page

  lemma FreedPages(c: Config, pages: seq<Page>, wbufs: seq<Wbuf>, version: nat, p: nat)
    requires c.Valid() && PagesOk(c, pages, wbufs, version) && VersionsDiffer(pages)
    requires p < |pages| && pages[p].wbuf.None?
    ensures var t := pages[p := FreedPage(pages[p])]; PagesOk(c, t, wbufs, version) && VersionsDiffer(t)
  {
    hide c.Apart;
    var t := pages[p := FreedPage(pages[p])];
    forall q | 0 <= q < |pages|
      ensures PageOk(c, t[q], wbufs, version)
    {
      assert PageOk(c, pages[q], wbufs, version);
    }
  }

  /** Only a page that was behind the removed head can become the head of what is left. */
  lemma WithoutTail(list: seq<nat>, p: nat)
    requires p in list
    ensures forall i :: 1 <= i < |Without(list, p)| ==> Without(list, p)[i] in list[1..]
    ensures Without(list, p) != [] ==> Without(list, p)[0] == list[0] != p || Without(list, p)[0] in list[1..]
  {
    var t := Without(list, p);
    if list[0] == p {
      assert forall i :: 0 <= i < |t| ==> t[i] in t;
    } else {
      forall i | 1 <= i < |t|
        ensures t[i] in list[1..]
      {
        assert t[i] in Without(list[1..], p);
      }
    }
  }

  lemma FreedBucket(c: Config, pages: seq<Page>, list: seq<nat>, b: nat, p: nat, page: Page)
    requires p < |pages| && OnBucket(c, pages, list, b) && p in list
    ensures OnBucket(c, pages[p := page], Without(list, p), b) && p !in Without(list, p)
    ensures forall q :: q in list && q != p ==> q in Without(list, p)
    ensures Without(list, p) != [] ==>
      Without(list, p)[0] == list[0] != p || HeadFull(c, pages, Without(list, p))
  {
    WithoutNoDup(list, p);
    WithoutTail(list, p);
    hide Without, NoDup;
    var t := Without(list, p);
    forall q | q in list[1..]
      ensures pages[q].alloc == c.pageSize
    {
      var i :| 0 <= i < |list[1..]| && list[1..][i] == q;
      assert list[i + 1] == q;
    }
    forall i | 0 <= i < |t|
      ensures 0 < t[i] < |pages| && t[i] != p && !pages[t[i]].free && pages[t[i]].bucket == b
    {
      var j :| 0 <= j < |list| && list[j] == t[i];
      assert t[i] in t;
    }
  }

  lemma FreedOther(c: Config, pages: seq<Page>, list: seq<nat>, b: nat, p: nat, page: Page)
    requires p < |pages| && OnBucket(c, pages, list, b) && pages[p].bucket != b
    ensures OnBucket(c, pages[p := page], list, b)
  {}

  lemma FreedOnList(c: Config, pages: seq<Page>, list: seq<nat>, fb: nat, p: nat)
    requires 0 < p < |pages| == |c.freeBucket| && OnFreeList(c, pages, list, fb) && !pages[p].free
    ensures OnFreeList(c, pages[p := FreedPage(pages[p])], list, fb)
    ensures c.freeBucket[p] == fb ==> OnFreeList(c, pages[p := FreedPage(pages[p])], [p] + list, fb)
  {}

  /** The freed page leaves its bucket's stack for the top of its own free list. */
  lemma FreedLists(c: Config, s: State, p: nat)
    requires c.Valid() && s.Sized(c) && Partitioned(c, s.pages, s.freelist, s.freeBuckets, s.buckets)
    requires 0 < p < |s.pages| && !s.pages[p].free && MayUnlink(c, s, p)
    ensures var t := FreePage(c, s, p); Partitioned(c, t.pages, t.freelist, t.freeBuckets, t.buckets)
  {
    hide c.Apart, Without;
    var t, b, fb := FreePage(c, s, p), s.pages[p].bucket, c.freeBucket[p];
    FreedOnList(c, s.pages, s.freelist, 0, p);
    assert OnBucket(c, s.pages, s.buckets[b], b);
    FreedBucket(c, s.pages, s.buckets[b], b, p, FreedPage(s.pages[p]));
    forall k | 0 <= k < |s.buckets|
      ensures OnFreeList(c, t.pages, t.freeBuckets[k], k) && OnBucket(c, t.pages, t.buckets[k], k)
    {
      assert OnFreeList(c, s.pages, s.freeBuckets[k], k) && OnBucket(c, s.pages, s.buckets[k], k);
      FreedOnList(c, s.pages, s.freeBuckets[k], k, p);
      if k != b {
        FreedOther(c, s.pages, s.buckets[k], k, p, FreedPage(s.pages[p]));
      }
    }
    hide OnFreeList, OnBucket;
    forall q | 0 < q < |t.pages|
      ensures Listed(c, t.pages, t.freelist, t.freeBuckets, t.buckets, q)
    {
      assert Listed(c, s.pages, s.freelist, s.freeBuckets, s.buckets, q);
    }
  }

  lemma FreedWriters(c: Config, s: State, p: nat)
    requires s.Sized(c) && WritersOk(c, s.pages, s.wbufs, s.buckets, s.writers) && p < |s.pages| &&
      s.pages[p].wbuf.None?
    requires MayUnlink(c, s, p)
    requires forall k :: 0 <= k < |s.buckets| ==> OnBucket(c, s.pages, s.buckets[k], k)
    ensures WritersOk(c, s.pages[p := FreedPage(s.pages[p])], s.wbufs,
                      s.buckets[s.pages[p].bucket := Without(s.buckets[s.pages[p].bucket], p)], s.writers)
  {
    hide Without;
    var b := s.pages[p].bucket;
    var t, stacks := s.pages[p := FreedPage(s.pages[p])], s.buckets[b := Without(s.buckets[b], p)];
    FreedBucket(c, s.pages, s.buckets[b], b, p, FreedPage(s.pages[p]));
    forall a | 0 <= a < |s.writers|
      ensures WriterOk(c, t, s.wbufs, stacks[a], s.writers[a])
    {
      assert WriterOk(c, s.pages, s.wbufs, s.buckets[a], s.writers[a]);
      assert OnBucket(c, s.pages, s.buckets[a], a);
    }
  }

  lemma FreedRecords(c: Config, s: State, p: nat)
    requires RecordsOk(c, s.pages, s.wbufs, s.version, s.disk, s.commits) && p < |s.pages|
    ensures RecordsOk(c, s.pages[p := FreedPage(s.pages[p])], s.wbufs, s.version, s.disk, s.commits)
  {
    hide Stored;
  }

  /** A page nobody refers to is not being read. */
  lemma NotRead(pages: seq<Page>, lookups: map<nat, Read>, p: nat)
    requires RefcountsOk(pages, lookups) && p < |pages| && pages[p].refcount == 0
    ensures forall id :: id in lookups ==> !HoldsRef(lookups[id], p)
  {
    assert Holders(lookups, p) == {};
    forall id | id in lookups
      ensures !HoldsRef(lookups[id], p)
    {
      assert id !in Holders(lookups, p);
    }
  }

  lemma FreedReads(pages: seq<Page>, lookups: map<nat, Read>, commits: set<Record>, p: nat, page: Page)
    requires ReadsOk(pages, lookups, commits) && p < |pages|
    requires forall id :: id in lookups ==> !HoldsRef(lookups[id], p)
    ensures ReadsOk(pages[p := page], lookups, commits)
  {
    forall id | id in lookups
      ensures ReadOk(pages[p := page], lookups[id])
    {
      assert ReadOk(pages, lookups[id]);
    }
  }

  lemma FreedCount(c: Config, s: State, p: nat)
    requires s.Sized(c) && p < |s.pages| && MayUnlink(c, s, p) && s.pageFree == |s.freelist| + Total(s.freeBuckets)
    ensures var t := FreePage(c, s, p); t.pageFree == |t.freelist| + Total(t.freeBuckets)
  {
    hide Without;
    TotalUpdate(s.freeBuckets, c.freeBucket[p], [p] + s.freeBuckets[c.freeBucket[p]]);
  }

  lemma InactiveIsBare(c: Config, s: State, p: nat)
    requires Inv(c, s) && p < |s.pages| && !s.pages[p].free && !s.pages[p].active
    ensures s.pages[p].wbuf.None? && p > 0
    ensures forall k :: 0 <= k < |s.buckets| ==> OnBucket(c, s.pages, s.buckets[k], k)
  {
    hide c.Apart, VersionsDiffer, BuffersOk, WritesOk, IosOk, ProgressOk, WritersOk, RecordsOk, RefcountsOk, ReadsOk;
    hide MaintOk;
    hide OnFreeList, OnBucket, Listed;
    assert PageOk(c, s.pages[p], s.wbufs, s.version);
  }

  lemma FreeKeeps(c: Config, s: State, p: nat)
    requires Inv(c, s) && p < |s.pages| && !s.pages[p].free && !s.pages[p].active && s.pages[p].refcount == 0
    requires MayUnlink(c, s, p) && s.maint.Waiting?
    ensures Inv(c, FreePage(c, s, p))
  {
    hide c.Apart, PagesOk, VersionsDiffer, Partitioned, BuffersOk, WritesOk, IosOk, ProgressOk, WritersOk, RecordsOk;
    hide RefcountsOk, ReadsOk, OnBucket, Without, Total;
    var page := FreedPage(s.pages[p]);
    InactiveIsBare(c, s, p);
    FreedPages(c, s.pages, s.wbufs, s.version, p);
    FreedLists(c, s, p);
    OpenBuffers(c, s.pages, s.wbufs, s.wbufStack, s.writes, p, page);
    FreedWriters(c, s, p);
    FreedRecords(c, s, p);
    RefcountsKept(s.pages, s.pages[p := page], s.lookups);
    NotRead(s.pages, s.lookups, p);
    FreedReads(s.pages, s.lookups, s.commits, p, page);
    FreedCount(c, s, p);
  }

  // ----- The maintenance thread

  lemma MaintIs(c: Config, s: State)
    requires Inv(c, s)
    ensures MaintOk(s.pages, s.maint)
  {}

  /** A page other than the freed one stays a candidate. */
  lemma FreeForScan(c: Config, s: State, p: nat, m: Maint)
    requires Inv(c, s) && p < |s.pages| && !s.pages[p].free && !s.pages[p].active && s.pages[p].refcount == 0
    requires MayUnlink(c, s, p) && MaintOk(s.pages[p := FreedPage(s.pages[p])], m)
    ensures Inv(c, FreePage(c, s, p).(maint := m))
  {
    hide Inv, Without;
    SizedBy(c, s);
    MaintChange(c, s, Waiting);
    var s1 := s.(maint := Waiting);
    FreeKeeps(c, s1, p);
    MaintChange(c, FreePage(c, s1, p), m);
  }

  lemma ScanKeeps(c: Config, s: State)
    requires Inv(c, s) && CanScan(c, s) && SafeScan(c, s)
    ensures Inv(c, Scanned(c, s))
  {
    hide Inv, FreePage;
    MaintIs(c, s);
    var Scan(i, evict, low) := s.maint;
    if i >= |s.pages| {
      MaintChange(c, s, if evict && low.Some? then Evict(low.value.0) else Waiting);
    } else {
      var page, low1 := s.pages[i], LowerOf(c, s, i, low);
      if page.active || page.free {
        MaintChange(c, s, Scan(i + 1, evict, low));
      } else if MayFree(page) {
        FreeForScan(c, s, i, Scan(i + 1, false, low1));
      } else {
        MaintChange(c, s, Scan(i + 1, evict, low1));
      }
    }
  }

  lemma EvictKeeps(c: Config, s: State)
    requires Inv(c, s) && CanEvict(c, s) && SafeEvict(c, s)
    ensures Inv(c, Evicted(c, s))
  {
    hide Inv, FreePage;
    MaintIs(c, s);
    var p := s.maint.page;
    var page := s.pages[p];
    MaintChange(c, s, Waiting);
    if !page.closed {
      var s1 := s.(maint := Waiting);
      TouchKeeps(c, s1, p, page.(closed := true));
      if page.refcount == 0 {
        FreeKeeps(c, s1.WithPage(p, page.(closed := true)), p);
      }
    }
  }
}
