/** The engine as an object whose records are updated in place, one method for each section that
    runs under a mutex.  Pages, write buffers and ios are kept on stacks by `next` links.  Every method
    makes the step of the step system on the lists those links form, and needs no more than the step's
    own condition: that nothing it asserts can fail follows from the invariants, which it keeps. */
module ExtstoreEngine {
  import opened Common
  import opened Lists
  import opened LinkedChains
  import opened LinkedStacks
  import opened Extstore
  import opened ExtstoreInv
  import opened ExtstoreSafe
  import opened ExtstoreReads
  import opened ExtstoreWrites
  import opened ExtstoreFlush
  import opened ExtstorePages
  import opened ExtstoreRuns
  import opened ExtstoreLinks
  import opened ExtstoreAccount
  import opened ExtstoreOldest

  // ----- Start-up

  lemma AboveIsLoose(list: seq<nat>, lists: seq<seq<nat>>, none: seq<seq<nat>>, i: nat)
    requires Above(list, i + 1) && (forall k :: 0 <= k < |lists| ==> Above(lists[k], i + 1))
    requires forall k :: 0 <= k < |none| ==> none[k] == []
    ensures Loose(list, lists, none, i)
  {
    var row := Row(list, lists, none);
    forall k | 0 <= k < |row|
      ensures i !in row[k]
    {
      if 0 < k <= |lists| {
        assert row[k] == lists[k - 1];
      } else if k > 0 {
        assert row[k] == none[k - 1 - |lists|];
      }
    }
  }

  lemma EmptyIsThreaded(n: nat)
    ensures Threaded(map[], None, seq(n, _ => None), seq(n, _ => None), [], seq(n, _ => []), seq(n, _ => []))
  {
    var heads: seq<Ptr> := Row(None, seq(n, _ => None), seq(n, _ => None));
    var stacks: seq<seq<nat>> := Row([], seq(n, _ => []), seq(n, _ => []));
    assert forall k :: 0 <= k < |stacks| ==> heads[k].None? && stacks[k] == [];
  }

  /** The free lists at start-up, linked from the last page down; page 0 goes on none. */
  method BuildLists(c: Config)
    returns (next: map<nat, Ptr>, head: Ptr, frees: seq<Ptr>, pageFree: nat,
             ghost freelist: seq<nat>, ghost freeBuckets: seq<seq<nat>>)
    requires c.Valid()
    ensures (freelist, freeBuckets) == FreeFrom(c, 1)
    ensures var n := c.bucketCount;
      Threaded(next, head, frees, seq(n, _ => None), freelist, freeBuckets, seq(n, _ => []))
    ensures pageFree == if c.PageCount() > 0 then c.PageCount() - 1 else 0
  {
    hide c.Apart, Threaded, Loose;
    var n := c.bucketCount;
    next, head, frees, pageFree := map[], None, seq(n, _ => None), 0;
    freelist, freeBuckets := [], seq(n, _ => []);
    EmptyIsThreaded(n);
    var i: int := c.PageCount() - 1;
    while i > 0
      invariant -1 <= i < c.PageCount() && (i >= 0 || c.PageCount() == 0)
      invariant (freelist, freeBuckets) == FreeFrom(c, if i < 0 then 1 else i + 1) && |frees| == n
      invariant i > 0 ==> Above(freelist, i + 1) && forall k :: 0 <= k < |freeBuckets| ==> Above(freeBuckets[k], i + 1)
      invariant Threaded(next, head, frees, seq(n, _ => None), freelist, freeBuckets, seq(n, _ => []))
      invariant pageFree == if c.PageCount() > 0 then c.PageCount() - 1 - i else 0
    {
      pageFree := pageFree + 1;
      var fb := c.freeBucket[i];
      AboveIsLoose(freelist, freeBuckets, seq(n, _ => []), i);
      PushFree(next, head, frees, seq(n, _ => None), freelist, freeBuckets, seq(n, _ => []), fb, i);
      if fb == 0 {
        next := next[i := head];
        head := Some(i);
        freelist := [i] + freelist;
      } else {
        next := next[i := frees[fb]];
        frees := frees[fb := Some(i)];
        freeBuckets := freeBuckets[fb := [i] + freeBuckets[fb]];
      }
      i := i - 1;
    }
  }

  /** The write buffers, and the stacks of buffers and of ios, the last one on top. */
  method BuildBuffers(c: Config)
    returns (wbufs: seq<Wbuf>, next: map<nat, Ptr>, top: Ptr, ioNext: map<nat, Ptr>, ioTop: Ptr)
    ensures wbufs == seq(c.wbufCount, _ => Wbuf(Zeroes(c.wbufSize), 0, 0, false))
    ensures Chain(next, top, Countdown(c.wbufCount)) && Chain(ioNext, ioTop, Countdown(c.wbufCount))
  {
    hide Chain;
    wbufs, next, top, ioNext, ioTop := [], map[], None, map[], None;
    EmptyChain();
    for k := 0 to c.wbufCount
      invariant |wbufs| == k && (forall i :: 0 <= i < k ==> wbufs[i] == Wbuf(Zeroes(c.wbufSize), 0, 0, false))
      invariant Chain(next, top, Countdown(k)) && Chain(ioNext, ioTop, Countdown(k))
    {
      wbufs := wbufs + [Wbuf(Zeroes(c.wbufSize), 0, 0, false)];
      PushChain(next, top, Countdown(k), k);
      PushChain(ioNext, ioTop, Countdown(k), k);
      assert [k] + Countdown(k) == Countdown(k + 1);
      next, top := next[k := top], Some(k);
      ioNext, ioTop := ioNext[k := ioTop], Some(k);
    }
  }

  lemma EmptyChain()
    ensures Chain(map[], None, Countdown(0))
  {}

  // ----- What the invariants say about the results of the steps

  /** Every page in use is older than the next version. */
  lemma VersionsAreOlder(c: Config, s: State)
    requires Inv(c, s)
    ensures forall q :: 0 <= q < |s.pages| && !s.pages[q].free ==> s.pages[q].version < s.version
  {
    hide c.Apart, VersionsDiffer, Partitioned, BuffersOk, WritesOk, IosOk, ProgressOk, WritersOk, RecordsOk;
    hide RefcountsOk, ReadsOk, MaintOk;
    assert forall q :: 0 <= q < |s.pages| ==> PageOk(c, s.pages[q], s.wbufs, s.version);
  }

  /** Neither the wanted free list nor the default one has a page. */
  predicate NoneFree(s: State, fb: nat)
    requires fb < |s.freeBuckets|
  {
    s.freelist == [] && (fb == 0 || s.freeBuckets[fb] == [])
  }

  /** The outcome of an allocation: nothing if no page is free, else a page of the wanted free list or, that
      being empty, of the default one.  It is on top of the bucket's stack and younger than any other in use. */
  ghost predicate Youngest(s: State, t: State, b: nat, fb: nat, tmp: Option<nat>) {
    && fb < |s.freeBuckets| && b < |s.buckets| == |t.buckets| && |t.pages| == |s.pages|
    && (tmp.None? <==> NoneFree(s, fb)) && (tmp.None? ==> t == s)
    && (tmp.Some? ==>
          && tmp.value in (if fb != 0 && s.freeBuckets[fb] != [] then s.freeBuckets[fb] else s.freelist)
          && t.buckets[b] == [tmp.value] + s.buckets[b] && tmp.value < |s.pages|
          && s.pages[tmp.value].free && !t.pages[tmp.value].free
          && forall q :: 0 <= q < |t.pages| && !t.pages[q].free && q != tmp.value ==>
               t.pages[q].version < t.pages[tmp.value].version)
  }

  /** A page can be allocated, and will be younger than any in use. */
  lemma AllocateFits(c: Config, s: State, b: nat, fb: nat)
    requires Inv(c, s) && b < c.bucketCount && fb < c.bucketCount && HeadFull(c, s.pages, s.buckets[b])
    ensures s.Sized(c) && MayAllocate(c, s, b, fb)
    ensures var tmp := PopFree(s, fb).1; tmp.Some? ==> tmp.value < |s.pages|
    ensures Youngest(s, AllocatePage(s, b, fb).0, b, fb, AllocatePage(s, b, fb).1)
  {
    hide Inv;
    FreePagesCounted(c, s, fb);
    AreSized(c, s);
    PopIsFree(c, s, fb);
    VersionsAreOlder(c, s);
  }

  lemma HeadIsFull(c: Config, s: State, b: nat)
    requires Inv(c, s) && CanGet(c, s, b)
    ensures HeadFull(c, s.pages, s.buckets[b])
  {
    hide c.Apart, PagesOk, VersionsDiffer, Partitioned, BuffersOk, WritesOk, IosOk, ProgressOk, RecordsOk;
    hide RefcountsOk, ReadsOk, MaintOk;
    assert WriterOk(c, s.pages, s.wbufs, s.buckets[b], s.writers[b]);
  }

  lemma AreSized(c: Config, s: State)
    requires Inv(c, s)
    ensures s.Sized(c)
  {
    hide c.Apart, PagesOk, VersionsDiffer, Partitioned, BuffersOk, WritesOk, IosOk, ProgressOk, WritersOk, RecordsOk;
    hide RefcountsOk, ReadsOk, MaintOk;
  }

  /** The bytes of a buffer about to be given back are on disk. */
  lemma FlushIsOnDisk(c: Config, s: State, io: nat)
    requires Inv(c, s) && CanFlush(c, s, io)
    ensures io in s.writes && |s.pages| == |c.fd| == |c.base|
    ensures var w := s.writes[io];
      && w.page < |s.pages| && w.wbuf < |s.wbufs| && |s.wbufs[w.wbuf].buf| == c.wbufSize
      && w.offset == s.pages[w.page].written
      && forall i :: 0 <= i < c.wbufSize ==> OnDisk(c, s.disk, w.page, w.offset + i) == s.wbufs[w.wbuf].buf[i]
  {
    hide c.Apart, VersionsDiffer, Partitioned, IosOk, WritersOk, RecordsOk, RefcountsOk, ReadsOk, MaintOk, OnDisk;
    var w := s.writes[io];
    assert WriteOk(c, s.pages, s.wbufs, w) && DoneOk(c, s.wbufs, s.disk, w);
    assert PageOk(c, s.pages[w.page], s.wbufs, s.version);
  }

  /** The flush `w` has ended: the page's written part, `pages` being those before, has grown by one
      buffer, and what it has grown by is on disk. */
  ghost predicate FlushLanded(c: Config, s: State, w: WriteIo, pages: seq<Page>) {
    && w.page < |s.pages| == |pages| == |c.fd| == |c.base| && w.wbuf < |s.wbufs|
    && |s.wbufs[w.wbuf].buf| == c.wbufSize && s.pages[w.page].wbuf.None?
    && s.pages[w.page].written == pages[w.page].written + c.wbufSize
    && forall i :: 0 <= i < c.wbufSize ==>
         OnDisk(c, s.disk, w.page, pages[w.page].written + i) == s.wbufs[w.wbuf].buf[i]
  }

  lemma FlushLands(c: Config, s: State, io: nat)
    requires Inv(c, s) && CanFlush(c, s, io) && SafeFlush(c, s, io)
    ensures FlushLanded(c, Flushed(c, s, io), s.writes[io], s.pages)
  {
    hide Inv, OnDisk, CanFlush;
    FlushIsOnDisk(c, s, io);
  }

  lemma LiveIsStored(c: Config, s: State, rec: Record)
    requires Inv(c, s) && rec in s.commits
    ensures rec.page < |s.pages| == |c.fd| == |c.base|
    ensures Live(s.pages[rec.page], rec) ==> Stored(c, s.pages[rec.page], s.wbufs, s.disk, rec)
  {
    hide c.Apart, PagesOk, VersionsDiffer, Partitioned, BuffersOk, WritesOk, IosOk, ProgressOk, WritersOk;
    hide RefcountsOk, ReadsOk, MaintOk, Stored;
  }

  /** The bytes handed to a writer belong to its page's open buffer and to no live record. */
  ghost predicate Granted(c: Config, s: State, p: nat, len: nat) {
    && p < |s.pages| && s.pages[p].wbuf.Some? && s.pages[p].wbuf.value < |s.wbufs|
    && var w := s.wbufs[s.pages[p].wbuf.value];
       && !w.full && w.used + len <= c.wbufSize == |w.buf|
       && forall rec :: rec in s.commits && rec.page == p && Live(s.pages[p], rec) ==>
            rec.offset + |rec.data| <= w.offset + w.used
  }

  lemma HolderIsGranted(c: Config, s: State, b: nat)
    requires Inv(c, s) && b < |s.writers| && s.writers[b].Holding?
    ensures Granted(c, s, s.writers[b].page, s.writers[b].len)
  {
    var p := s.writers[b].page;
    assert WriterOk(c, s.pages, s.wbufs, s.buckets[b], s.writers[b]);
    assert PageOk(c, s.pages[p], s.wbufs, s.version);
    forall rec | rec in s.commits && rec.page == p && Live(s.pages[p], rec)
      ensures rec.offset + |rec.data| <= s.wbufs[s.pages[p].wbuf.value].offset + s.wbufs[s.pages[p].wbuf.value].used
    {
      assert Stored(c, s.pages[p], s.wbufs, s.disk, rec);
    }
  }

  lemma CloseEndsReads(s: State, p: nat, ver: nat)
    requires p < |s.pages|
    ensures var t := Close(s, p, ver); t.pages == s.pages[p := t.pages[p]]
    ensures forall rec: Record ::
      Readable(Close(s, p, ver).pages[p], rec) <==> Readable(s.pages[p], rec) && rec.version != ver
  {}

  lemma PageOfIo(c: Config, s: State, io: nat)
    requires Inv(c, s) && CanFlush(c, s, io)
    ensures io in s.writes
    ensures s.writes[io].page < |s.pages| && s.writes[io].wbuf !in s.wbufStack && io !in s.ioStack
  {
    hide c.Apart, VersionsDiffer, Partitioned, ProgressOk, WritersOk, RecordsOk, RefcountsOk, ReadsOk, MaintOk;
    assert WriteOk(c, s.pages, s.wbufs, s.writes[io]);
  }

  lemma StacksFit(c: Config, s: State)
    requires Inv(c, s)
    ensures s.wbufStack != [] ==> s.wbufStack[0] < |s.wbufs|
    ensures forall k :: 0 <= k < |s.buckets| && s.buckets[k] != [] ==> s.buckets[k][0] < |s.pages|
  {
    hide c.Apart, PagesOk, VersionsDiffer, WritesOk, IosOk, ProgressOk, WritersOk, RecordsOk, RefcountsOk, ReadsOk;
    forall k | 0 <= k < |s.buckets| && s.buckets[k] != []
      ensures s.buckets[k][0] < |s.pages|
    {
      assert OnBucket(c, s.pages, s.buckets[k], k);
    }
  }

  // ----- What a scan looks for

  /** The page is in use, written in full, and can go. */
  predicate OutOfUse(c: Config, page: Page) {
    !page.free && page.written == c.pageSize && page.refcount == 0 && (page.objCount == 0 || page.closed)
  }

  /** A turn at a page in use that is no longer written. */
  lemma ScanLooks(c: Config, s: State)
    requires CanScan(c, s) && SafeScan(c, s) && s.maint.next < |s.pages|
    requires !s.pages[s.maint.next].active && !s.pages[s.maint.next].free
    ensures s.Sized(c)
    ensures var i, low := s.maint.next, LowerOf(c, s, s.maint.next, s.maint.low);
      if MayFree(s.pages[i]) then
        MayUnlink(c, s, i) && Scanned(c, s) == FreePage(c, s, i).(maint := Scan(i + 1, false, low))
      else Scanned(c, s) == s.(maint := Scan(i + 1, s.maint.evict, low))
  {
    hide FreePage, LowerOf, MayUnlink, MayFree;
  }

  /** How a write request ends under the page's lock.  Used up, the page is to be replaced; else the
      writer gets room exactly if the page's open buffer has it or a free buffer can be attached. */
  ghost predicate Served(c: Config, s: State, p: nat, len: nat, w: Writer) {
    && p < |s.pages| && (s.pages[p].wbuf.Some? ==> s.pages[p].wbuf.value < |s.wbufs|)
    && var page := s.pages[p];
       var open := page.wbuf.Some? && !s.wbufs[page.wbuf.value].full;
       && (w.NeedPage? <==> page.written == c.pageSize || page.free || (page.alloc == c.pageSize && !open))
       && (w.Holding? <==> !w.NeedPage? && if page.wbuf.None? then s.wbufStack != [] && len <= c.wbufSize
                                            else open && s.wbufs[page.wbuf.value].used + len <= c.wbufSize)
       && (w.NeedPage? || w.Holding? || w.Idle?)
  }

  lemma LockServes(c: Config, s: State, b: nat)
    requires Inv(c, s) && CanLock(c, s, b) && SafeLock(c, s, b)
    ensures Served(c, s, s.writers[b].page, s.writers[b].len, Lock(c, s, b).writers[b])
  {
    hide Inv;
    PageIsOk(c, s, s.writers[b].page);
  }

  /** `low` is the older of `before` and, if that is fit, page `p` of version `v`. */
  ghost predicate OlderOf(before: Option<(nat, nat)>, p: nat, v: nat, fit: bool, low: Option<(nat, nat)>) {
    && (low.None? <==> before.None? && !fit)
    && (low.Some? ==> low == before || (fit && low == Some((p, v))))
    && (low.Some? && before.Some? ==> low.value.1 <= before.value.1)
    && (low.Some? && fit ==> low.value.1 <= v)
  }

  class Engine {
    const c: Config
    var pages: seq<Page>
    var next: map<nat, Ptr>
    var freeHead: Ptr
    var freeHeads: seq<Ptr>
    var bucketTops: seq<Ptr>
    var wbufs: seq<Wbuf>
    var wbufNext: map<nat, Ptr>
    var wbufTop: Ptr
    var ioNext: map<nat, Ptr>
    var ioTop: Ptr
    var writes: map<nat, WriteIo>
    var version: nat
    var pageFree: nat
    var disk: Disk
    var writers: seq<Writer>
    var maint: Maint
    var lookups: map<nat, Read>
    var commits: set<Record>

    /** The state of the step system this engine is in. */
    ghost var st: State

    /** The links form the lists of the state. */
    ghost predicate Woven()
      reads this
    {
      && |freeHeads| == |st.freeBuckets| && |bucketTops| == |st.buckets|
      && Threaded(next, freeHead, freeHeads, bucketTops, st.freelist, st.freeBuckets, st.buckets)
      && Chain(wbufNext, wbufTop, st.wbufStack) && NoDup(st.wbufStack)
      && Chain(ioNext, ioTop, st.ioStack) && NoDup(st.ioStack)
    }

    /** The other fields are those of the state. */
    ghost predicate Mirrored()
      reads this
    {
      && pages == st.pages && wbufs == st.wbufs && writes == st.writes && version == st.version
      && pageFree == st.pageFree && disk == st.disk && writers == st.writers && maint == st.maint
      && lookups == st.lookups && commits == st.commits
    }

    ghost predicate Valid()
      reads this
    {
      Woven() && Mirrored() && Inv(c, st)
    }

    constructor (config: Config)
      requires config.Valid()
      ensures c == config && Valid() && st == Init(config)
    {
      c := config;
      pages := seq(config.PageCount(), _ => FRESH_PAGE);
      var links, head, heads, count, list, lists := BuildLists(config);
      next, freeHead, freeHeads, pageFree := links, head, heads, count;
      version := 1;
      bucketTops := seq(config.bucketCount, _ => None);
      writers := seq(config.bucketCount, _ => Idle);
      var bufs, bufLinks, bufTop, ioLinks, top := BuildBuffers(config);
      wbufs, wbufNext, wbufTop := bufs, bufLinks, bufTop;
      ioNext, ioTop := ioLinks, top;
      writes, disk, maint, lookups, commits := map[], map[], Waiting, map[], {};
      st := Init(config);
      InitOk(config);
    }

    // ----- The stacks of buffers, ios and pages

    method PopWbuf() returns (id: nat)
      requires Woven() && wbufTop.Some?
      modifies this`wbufNext, this`wbufTop, this`st
      ensures Woven() && old(st.wbufStack) == [id] + st.wbufStack && st == old(st).(wbufStack := st.wbufStack)
    {
      hide Threaded, Chain, NoDup;
      ChainStart(wbufNext, wbufTop, st.wbufStack);
      PopChain(wbufNext, wbufTop, st.wbufStack);
      NoDupRest(st.wbufStack);
      id := wbufTop.value;
      wbufTop := wbufNext[id];
      wbufNext := wbufNext[id := None];
      st := st.(wbufStack := st.wbufStack[1..]);
    }

    method PushWbuf(id: nat)
      requires Woven() && id !in st.wbufStack
      modifies this`wbufNext, this`wbufTop, this`st
      ensures Woven() && st == old(st).(wbufStack := [id] + old(st.wbufStack))
    {
      hide Threaded, Chain, NoDup;
      PushChain(wbufNext, wbufTop, st.wbufStack, id);
      NoDupMore(st.wbufStack, id);
      wbufNext := wbufNext[id := wbufTop];
      wbufTop := Some(id);
      st := st.(wbufStack := [id] + st.wbufStack);
    }

    method PopIo() returns (io: nat)
      requires Woven() && st.ioStack != []
      modifies this`ioNext, this`ioTop, this`st
      ensures Woven() && old(st.ioStack) == [io] + st.ioStack && st == old(st).(ioStack := st.ioStack)
    {
      hide Threaded, Chain, NoDup;
      ChainStart(ioNext, ioTop, st.ioStack);
      PopChain(ioNext, ioTop, st.ioStack);
      NoDupRest(st.ioStack);
      io := ioTop.value;
      ioTop := ioNext[io];
      ioNext := ioNext[io := None];
      st := st.(ioStack := st.ioStack[1..]);
    }

    method PushIo(io: nat)
      requires Woven() && io !in st.ioStack
      modifies this`ioNext, this`ioTop, this`st
      ensures Woven() && st == old(st).(ioStack := [io] + old(st.ioStack))
    {
      hide Threaded, Chain, NoDup;
      PushChain(ioNext, ioTop, st.ioStack, io);
      NoDupMore(st.ioStack, io);
      ioNext := ioNext[io := ioTop];
      ioTop := Some(io);
      st := st.(ioStack := [io] + st.ioStack);
    }

    /** Puts a page that is on no list on top of the bucket's stack. */
    method PushPage(b: nat, p: nat)
      requires Woven() && b < |st.buckets| && Loose(st.freelist, st.freeBuckets, st.buckets, p)
      modifies this`next, this`bucketTops, this`st
      ensures Woven() && st == old(st).(buckets := old(st.buckets)[b := [p] + old(st.buckets[b])])
    {
      hide Threaded, Loose, Chain, NoDup;
      PushTop(next, freeHead, freeHeads, bucketTops, st.freelist, st.freeBuckets, st.buckets, b, p);
      next := next[p := bucketTops[b]];
      bucketTops := bucketTops[b := Some(p)];
      st := st.(buckets := st.buckets[b := [p] + st.buckets[b]]);
    }

    /** Puts a page that is on no list on top of its free list. */
    method PushFreePage(fb: nat, p: nat)
      requires Woven() && fb < |st.freeBuckets| && Loose(st.freelist, st.freeBuckets, st.buckets, p)
      modifies this`next, this`freeHead, this`freeHeads, this`st
      ensures Woven() && st == if fb == 0 then old(st).(freelist := [p] + old(st.freelist)) else
                                old(st).(freeBuckets := old(st.freeBuckets)[fb := [p] + old(st.freeBuckets[fb])])
    {
      hide Threaded, Loose, Chain, NoDup;
      PushFree(next, freeHead, freeHeads, bucketTops, st.freelist, st.freeBuckets, st.buckets, fb, p);
      if fb != 0 {
        next := next[p := freeHeads[fb]];
        freeHeads := freeHeads[fb := Some(p)];
        st := st.(freeBuckets := st.freeBuckets[fb := [p] + st.freeBuckets[fb]]);
      } else {
        next := next[p := freeHead];
        freeHead := Some(p);
        st := st.(freelist := [p] + st.freelist);
      }
    }

    /** Takes a page off the wanted free list or, failing that, the default one.  It finds none only if
        both are empty, and the page it finds is then on no list. */
    method PopPage(fb: nat) returns (tmp: Option<nat>)
      requires Woven() && fb < |st.freeBuckets|
      modifies this`freeHead, this`freeHeads, this`st
      ensures Woven() && st == PopFree(old(st), fb).0 && tmp == PopFree(old(st), fb).1
      ensures st == old(st).(freelist := st.freelist, freeBuckets := st.freeBuckets)
      ensures tmp.None? <==> old(st.freelist) == [] && (fb == 0 || old(st.freeBuckets[fb]) == [])
      ensures tmp.Some? ==> Loose(st.freelist, st.freeBuckets, st.buckets, tmp.value)
      ensures tmp.Some? ==>
        if fb != 0 && old(st.freeBuckets[fb]) != [] then
          old(st.freeBuckets[fb]) == [tmp.value] + st.freeBuckets[fb] && st.freelist == old(st.freelist)
        else old(st.freelist) == [tmp.value] + st.freelist && st.freeBuckets == old(st.freeBuckets)
    {
      hide Threaded, Loose, Chain, NoDup;
      tmp := None;
      PopFreeOf(next, freeHead, freeHeads, bucketTops, st.freelist, st.freeBuckets, st.buckets, fb);
      if fb != 0 && freeHeads[fb].Some? {
        tmp := freeHeads[fb];
        freeHeads := freeHeads[fb := next[tmp.value]];
        st := st.(freeBuckets := st.freeBuckets[fb := st.freeBuckets[fb][1..]]);
      }
      if tmp.None? {
        PopDefault(next, freeHead, freeHeads, bucketTops, st.freelist, st.freeBuckets, st.buckets);
        if freeHead.Some? {
          tmp := freeHead;
          freeHead := next[tmp.value];
          st := st.(freelist := st.freelist[1..]);
        }
      }
    }

    // ----- Pages for writers

    /** Starts a page that has just been stacked. */
    method StartPage(p: nat, b: nat)
      requires Mirrored() && p < |pages| && pageFree > 0
      modifies this`pages, this`version, this`pageFree, this`st
      ensures Mirrored()
      ensures st == old(st).(pages := old(pages)[p := OpenPage(old(pages)[p], old(version), b)],
                             version := old(version) + 1, pageFree := old(pageFree) - 1)
    {
      var page := pages[p];
      page := page.(active := true);
      page := page.(free := false);
      page := page.(closed := false);
      page := page.(version := version);
      version := version + 1;
      page := page.(bucket := b);
      pages := pages[p := page];
      pageFree := pageFree - 1;
      st := st.(pages := pages, version := version, pageFree := pageFree);
    }

    /** Moves a free page, if there is one, to the bucket's stack. */
    method StackPage(b: nat, fb: nat) returns (tmp: Option<nat>)
      requires Woven() && Mirrored() && b < |st.buckets| && fb < |st.freeBuckets|
      requires var r := PopFree(st, fb).1; r.Some? ==> r.value < |pages|
      modifies this`next, this`freeHead, this`freeHeads, this`bucketTops, this`pages, this`version, this`pageFree
      modifies this`st
      ensures Woven() && Mirrored()
      ensures st == AllocatePage(old(st), b, fb).0 && tmp == AllocatePage(old(st), b, fb).1
    {
      hide Threaded, Loose, Chain, NoDup, PopFree, OpenPage;
      tmp := PopPage(fb);
      if pageFree > 0 && tmp.Some? {
        PushPage(b, tmp.value);
        StartPage(tmp.value, b);
      }
    }

    /** Makes a free page, if there is one, the bucket's current page, younger than any page in use. */
    method TakePage(b: nat, fb: nat) returns (tmp: Option<nat>)
      requires Valid() && b < c.bucketCount && fb < c.bucketCount && writers[b].Idle?
      requires HeadFull(c, pages, st.buckets[b])
      modifies this`next, this`freeHead, this`freeHeads, this`bucketTops, this`pages, this`version, this`pageFree
      modifies this`st
      ensures Valid() && old(MayAllocate(c, st, b, fb))
      ensures st == AllocatePage(old(st), b, fb).0 && tmp == AllocatePage(old(st), b, fb).1
      ensures Youngest(old(st), st, b, fb, tmp)
    {
      hide Inv, Threaded, Loose, Chain, NoDup, AllocatePage, PopFree, MayAllocate, Youngest;
      AllocateFits(c, st, b, fb);
      AllocateKeeps(c, st, b, fb);
      tmp := StackPage(b, fb);
    }

    /** The bucket's current page, or a new one.  The request fails here only for want of a free page. */
    method FindPage(b: nat, fb: nat, len: nat)
      requires Valid() && CanFind(c, st, b, fb)
      modifies this
      ensures Valid() && old(SafeFind(c, st, b, fb)) && st == Find(c, old(st), b, fb, len)
      ensures writers[b].Idle? <==> old(st.buckets[b]) == [] && NoneFree(old(st), fb)
      ensures writers[b].Idle? || (st.buckets[b] != [] && writers[b] == Found(st.buckets[b][0], len, fb))
    {
      hide Inv, Threaded, Chain, NoDup, AllocatePage;
      FindIsSafe(c, st, b, fb);
      FindKeeps(c, st, b, fb, len);
      BucketChain(next, freeHead, freeHeads, bucketTops, st.freelist, st.freeBuckets, st.buckets, b);
      ChainStart(next, bucketTops[b], st.buckets[b]);
      ghost var s := st;
      var p := bucketTops[b];
      if p.None? {
        p := TakePage(b, fb);
      }
      if p.Some? {
        writers := writers[b := Found(p.value, len, fb)];
        st := Find(c, s, b, fb, len);
      }
    }

    /** A fresh page on top of the bucket's stack for the next request, if there is a free one. */
    method GetPage(b: nat)
      requires Valid() && CanGet(c, st, b)
      modifies this
      ensures Valid() && old(SafeGet(c, st, b)) && st == Get(c, old(st), b) && writers[b].Idle?
      ensures if NoneFree(old(st), old(writers[b].freeBucket)) then st.buckets[b] == old(st.buckets[b])
              else st.buckets[b] != [] && Youngest(old(st), st, b, old(writers[b].freeBucket), Some(st.buckets[b][0]))
    {
      hide Inv, Threaded, Chain, NoDup, AllocatePage, MayAllocate;
      GetIsSafe(c, st, b);
      HeadIsFull(c, st, b);
      WriterChange(c, st, b, Idle);
      var fb := writers[b].freeBucket;
      writers := writers[b := Idle];
      st := st.WithWriter(b, Idle);
      var _ := TakePage(b, fb);
    }

    // ----- Writing

    /** Attaches a free buffer to the page, if there is one: empty, and starting where the page's
        written part ends. */
    method AttachWbuf(p: nat)
      requires Valid() && p < |pages| && pages[p].wbuf.None? && pages[p].active && pages[p].alloc < c.pageSize
      modifies this`wbufNext, this`wbufTop, this`wbufs, this`pages, this`st
      ensures Valid() && old(st.wbufStack != [] ==> st.wbufStack[0] < |wbufs|) && st == AllocateWbuf(c, old(st), p)
      ensures if old(st.wbufStack) == [] then st == old(st) else
                && pages[p].wbuf == Some(old(st.wbufStack[0])) && pages[p].wbuf.value < |wbufs|
                && var w := wbufs[pages[p].wbuf.value]; w.used == 0 && !w.full && w.offset == pages[p].written
    {
      hide Inv, Threaded, Chain, NoDup;
      StacksFit(c, st);
      AllocateWbufKeeps(c, st, p);
      PageIsOk(c, st, p);
      ChainStart(wbufNext, wbufTop, st.wbufStack);
      ghost var s := st;
      if wbufTop.Some? {
        var id := PopWbuf();
        var w, page := wbufs[id], pages[p];
        w := w.(offset := page.alloc);
        page := page.(alloc := page.alloc + c.wbufSize);
        w := w.(used := 0, full := false);
        page := page.(wbuf := Some(id));
        wbufs, pages := wbufs[id := w], pages[p := page];
        assert st.wbufStack == s.wbufStack[1..];
        st := AllocateWbuf(c, s, p);
      }
    }

    /** Hands the page's buffer to the io threads.  An io is always there for it. */
    method Flush(p: nat, len: nat)
      requires Valid() && p < |pages| && pages[p].wbuf.Some? && pages[p].wbuf.value < |wbufs|
      requires MustFlush(c, st, p, len) && st.Unlocked(p)
      modifies this`ioNext, this`ioTop, this`writes, this`wbufs, this`st
      ensures Valid() && old(Usable(c, st, p, len)) && st == SubmitWbuf(c, old(st), p)
      ensures |wbufs| == |old(wbufs)|
      ensures var w, was := wbufs[pages[p].wbuf.value], old(wbufs)[pages[p].wbuf.value];
        && w.full && was.used <= |was.buf| && |w.buf| == c.wbufSize && w.buf[..was.used] == was.buf[..was.used]
        && forall k :: was.used <= k < c.wbufSize ==> w.buf[k] == 0
    {
      hide Inv, Threaded, Chain, NoDup;
      FlushIsUsable(c, st, p, len);
      SubmitWbufKeeps(c, st, p, len);
      ghost var s := st;
      var io := PopIo();
      var id := pages[p].wbuf.value;
      var w := wbufs[id];
      w := w.(buf := w.buf[..w.used] + Zeroes(c.wbufSize - w.used));
      writes := writes[io := WriteIo(p, id, w.offset, {})];
      w := w.(full := true);
      wbufs := wbufs[id := w];
      assert st.ioStack == s.ioStack[1..];
      st := SubmitWbuf(c, s, p);
    }

    /** Makes room in the page's buffer, or at least a start on it. */
    method PrepareWbuf(p: nat, len: nat)
      requires Valid() && Usable(c, st, p, len) && st.Unlocked(p) && pages[p].active
      modifies this`wbufNext, this`wbufTop, this`ioNext, this`ioTop, this`writes, this`wbufs, this`pages, this`st
      ensures Valid() && st == Prepare(c, old(st), p, len)
    {
      hide Inv, Threaded, Chain, NoDup, SubmitWbuf, AllocateWbuf;
      if pages[p].wbuf.Some? && c.wbufSize < wbufs[pages[p].wbuf.value].used + len && !wbufs[pages[p].wbuf.value].full {
        Flush(p, len);
      }
      if pages[p].wbuf.None? && pages[p].alloc < c.pageSize {
        AttachWbuf(p);
      }
    }

    method GrantRoom(b: nat, p: nat, len: nat)
      requires Mirrored() && p < |pages| && b < |writers| && (pages[p].wbuf.Some? ==> pages[p].wbuf.value < |wbufs|)
      modifies this`writers, this`st
      ensures Mirrored()
      ensures st == old(st).WithWriter(b, if HasRoom(c, old(st), p, len) then Holding(p, len) else Idle)
    {
      if pages[p].wbuf.Some? && !wbufs[pages[p].wbuf.value].full &&
         wbufs[pages[p].wbuf.value].used + len <= c.wbufSize {
        writers := writers[b := Holding(p, len)];
      } else {
        writers := writers[b := Idle];
      }
      st := st.(writers := writers);
    }

    /** The part of a write request under the page's lock.  A writer that gets room gets bytes of the
        page's buffer that no live record uses. */
    method LockPage(b: nat)
      requires Valid() && CanLock(c, st, b)
      modifies this`wbufNext, this`wbufTop, this`ioNext, this`ioTop, this`writes, this`wbufs, this`pages, this`writers
      modifies this`st
      ensures Valid() && old(SafeLock(c, st, b)) && st == Lock(c, old(st), b)
      ensures Served(c, old(st), old(writers[b].page), old(writers[b].len), writers[b])
      ensures writers[b].Holding? ==> writers[b] == Holding(old(writers[b].page), old(writers[b].len))
      ensures writers[b].Holding? ==> Granted(c, st, writers[b].page, writers[b].len)
    {
      hide Inv, Threaded, Chain, NoDup, Granted, Served, Prepare, HasRoom, Usable;
      LockIsSafe(c, st, b);
      LockServes(c, st, b);
      WriterHasPage(c, st, b);
      PageIsOk(c, st, writers[b].page);
      LockKeeps(c, st, b);
      var p, len := writers[b].page, writers[b].len;
      if !pages[p].active ||
         ((pages[p].wbuf.None? || wbufs[pages[p].wbuf.value].full) && pages[p].alloc >= c.pageSize) {
        writers := writers[b := NeedPage(writers[b].freeBucket)];
        st := st.(writers := writers);
        return;
      }
      PrepareKeeps(c, st, p, len);
      PrepareWbuf(p, len);
      PageIsOk(c, st, p);
      GrantRoom(b, p, len);
      if writers[b].Holding? {
        HolderIsGranted(c, st, b);
      }
    }

    /** The write proper: the bytes go into the buffer and the record is handed out, stored and live. */
    method Write(b: nat, data: seq<byte>) returns (rec: Record)
      requires Valid() && CanWrite(c, st, b, data)
      modifies this`wbufs, this`pages, this`commits, this`writers, this`st
      ensures Valid() && old(SafeWrite(c, st, b, data)) && st == Commit(old(st), b, data)
      ensures rec in commits && rec.data == data && rec.page == old(writers[b].page)
      ensures rec.page < |pages| == |c.fd| == |c.base|
      ensures Live(pages[rec.page], rec) && Stored(c, pages[rec.page], wbufs, disk, rec)
    {
      hide Inv, Threaded, Chain, NoDup, Stored;
      WriteIsSafe(c, st, b, data);
      CommitKeeps(c, st, b, data);
      PageIsOk(c, st, writers[b].page);
      ghost var s := st;
      var p := writers[b].page;
      var page, id := pages[p], pages[p].wbuf.value;
      var w := wbufs[id];
      rec := Record(p, page.version, w.offset + w.used, data);
      w := w.(buf := w.buf[..w.used] + data + w.buf[w.used + |data|..]);
      w := w.(used := w.used + |data|);
      page := page.(bytesUsed := page.bytesUsed + |data|);
      page := page.(objCount := page.objCount + 1);
      wbufs, pages := wbufs[id := w], pages[p := page];
      commits := commits + {rec};
      writers := writers[b := Idle];
      st := Commit(s, b, data);
      LiveIsStored(c, st, rec);
    }

    method MarkWritten(p: nat)
      requires Mirrored() && p < |pages|
      modifies this`pages, this`st
      ensures Mirrored()
      ensures var page := old(pages)[p]; var written := page.written + c.wbufSize;
        st == old(st).(pages := old(pages)[p := page.(written := written, wbuf := None,
                                                      active := page.active && written != c.pageSize)])
    {
      var page := pages[p];
      page := page.(written := page.written + c.wbufSize);
      page := page.(wbuf := None);
      if page.written == c.pageSize {
        page := page.(active := false);
      }
      pages := pages[p := page];
      st := st.(pages := pages);
    }

    method GiveBack(io: nat)
      requires Woven() && Mirrored() && io in writes && writes[io].page < |pages|
      requires writes[io].wbuf !in st.wbufStack && io !in st.ioStack
      modifies this`pages, this`wbufNext, this`wbufTop, this`ioNext, this`ioTop, this`writes, this`st
      ensures Woven() && Mirrored() && st == Flushed(c, old(st), io)
    {
      hide Threaded, Chain, NoDup;
      MarkWritten(writes[io].page);
      PushWbuf(writes[io].wbuf);
      PushIo(io);
      writes := writes - {io};
      st := st.(writes := writes);
    }

    /** The callback of a finished flush: the page's written part has grown by the buffer, whose bytes
        are all on disk, and buffer and io are back on their stacks. */
    method FlushCallback(io: nat)
      requires Valid() && CanFlush(c, st, io)
      modifies this`pages, this`wbufNext, this`wbufTop, this`ioNext, this`ioTop, this`writes, this`st
      ensures Valid() && old(SafeFlush(c, st, io)) && st == Flushed(c, old(st), io)
      ensures FlushLanded(c, st, old(writes[io]), old(pages))
    {
      hide Inv, Threaded, Chain, NoDup, CanFlush, SafeFlush, FlushLanded, Flushed;
      FlushIsSafe(c, st, io);
      PageOfIo(c, st, io);
      FlushKeeps(c, st, io);
      FlushLands(c, st, io);
      GiveBack(io);
    }

    // ----- Reading and deleting

    /** The check an io thread makes before a read, and the copy out of the buffer if the bytes are
        there.  What it copies is what was committed, unless an empty record lies past the buffer. */
    method BeginRead(id: nat)
      requires Valid() && CanBegin(c, st, id)
      modifies this`pages, this`lookups, this`st
      ensures Valid() && old(SafeBegin(c, st, id)) && st == StartRead(c, old(st), id)
      ensures id in lookups && lookups[id].rec == old(lookups[id].rec) && lookups[id].rec.page < |old(pages)|
      ensures var rec := lookups[id].rec; var page := old(pages)[rec.page];
        if !Readable(page, rec) then lookups[id].phase == Done(Miss)
        else if rec.data == [] && page.active && rec.offset >= page.written
                && (page.wbuf.None? || rec.offset == page.written + c.wbufSize)
        then lookups[id].phase == Done(Broken)
        else lookups[id].phase == Done(Data(rec.data)) || lookups[id].phase == Copying(map[])
    {
      hide Inv, Threaded, Chain, NoDup, FromWbuf;
      BeginIsSafe(c, st, id);
      BeginKeeps(c, st, id);
      ghost var s := st;
      var rec := lookups[id].rec;
      var page := pages[rec.page];
      if !page.free && !page.closed && page.version == rec.version {
        BeginOutcome(c, st, id);
        if page.active && rec.offset >= page.written {
          lookups := lookups[id := Read(rec, Done(FromWbuf(c, wbufs, page, rec)))];
        } else {
          pages := pages[rec.page := page.(refcount := page.refcount + 1)];
          lookups := lookups[id := Read(rec, Copying(map[]))];
        }
      } else {
        lookups := lookups[id := Read(rec, Done(Miss))];
      }
      st := StartRead(c, s, id);
    }

    /** The reader's callback has run and its reference is given up. */
    method EndRead(id: nat)
      requires Valid() && CanRelease(c, st, id)
      modifies this`pages, this`lookups, this`st
      ensures Valid() && old(SafeRelease(c, st, id)) && st == Extstore.Release(c, old(st), id)
    {
      hide Inv, Threaded, Chain, NoDup;
      ReleaseIsSafe(c, st, id);
      ReleaseKeeps(c, st, id);
      var r := lookups[id];
      var page := pages[r.rec.page];
      pages := pages[r.rec.page := page.(refcount := page.refcount - 1)];
      lookups := lookups[id := r.(phase := Done(r.phase.outcome))];
      st := st.(pages := pages, lookups := lookups);
    }

    /** Counts objects out of a page that still is the caller's, down to none at the least.  No record becomes
        unreadable by it. */
    method DeleteObjects(p: nat, ver: nat, count: nat, bytes: nat) returns (ret: int)
      requires Valid() && CanTouch(c, st, p)
      modifies this`pages, this`st
      ensures Valid() && st == Delete(old(st), p, ver, count, bytes)
      ensures ret == 0 <==> !old(pages[p].closed) && old(pages[p].version) == ver
      ensures ret == 0 || (ret == -1 && pages == old(pages))
      ensures |pages| == |old(pages)|
      ensures ret == 0 ==>
        && pages[p].objCount == (if old(pages[p].objCount) < count then 0 else old(pages[p].objCount) - count)
        && pages[p].bytesUsed == (if old(pages[p].bytesUsed) < bytes then 0 else old(pages[p].bytesUsed) - bytes)
      ensures forall q :: 0 <= q < |pages| && q != p ==> pages[q] == old(pages)[q]
      ensures forall q, rec :: 0 <= q < |pages| ==> Readable(pages[q], rec) == Readable(old(pages)[q], rec)
    {
      hide Inv, Threaded, Chain, NoDup;
      DeleteKeeps(c, st, p, ver, count, bytes);
      ghost var s := st;
      var page := pages[p];
      ret := 0;
      if !page.closed && page.version == ver {
        page := page.(bytesUsed := if page.bytesUsed >= bytes then page.bytesUsed - bytes else 0);
        page := page.(objCount := if page.objCount >= count then page.objCount - count else 0);
        pages := pages[p := page];
      } else {
        ret := -1;
      }
      st := Delete(s, p, ver, count, bytes);
    }

    /** From now on no record of that version of the page can be read; all others still can. */
    method ClosePage(p: nat, ver: nat)
      requires Valid() && CanTouch(c, st, p)
      modifies this`pages, this`st
      ensures Valid() && st == Close(old(st), p, ver)
      ensures pages == old(pages)[p := pages[p]]
      ensures forall rec: Record :: Readable(pages[p], rec) <==> Readable(old(pages)[p], rec) && rec.version != ver
    {
      hide Inv, Threaded, Chain, NoDup;
      CloseKeeps(c, st, p, ver);
      ghost var s := st;
      if !pages[p].closed && pages[p].version == ver {
        pages := pages[p := pages[p].(closed := true)];
      }
      st := Close(s, p, ver);
      CloseEndsReads(s, p, ver);
    }

    // ----- Maintenance

    /** Wakes the maintenance thread; it will evict only if the default free list is empty now. */
    method StartScan()
      requires Valid() && CanStart(c, st)
      modifies this`maint, this`st
      ensures Valid() && st == Start(old(st))
      ensures maint == Scan(0, old(st.freelist) == [], None)
    {
      hide Inv, Threaded, Chain, NoDup;
      StartKeeps(c, st);
      FreeCount(c, st);
      PopDefault(next, freeHead, freeHeads, bucketTops, st.freelist, st.freeBuckets, st.buckets);
      maint := Scan(0, pageFree == 0 || freeHead.None?, None);
      st := st.(maint := maint);
    }

    /** The walk down the bucket's stack with its two pointers: afterwards the page is on no list, and
        the others are where they were. */
    method UnlinkPage(b: nat, p: nat)
      requires Woven() && b < |st.buckets| && p in st.buckets[b]
      modifies this`next, this`bucketTops, this`st
      ensures Woven() && st == old(st).(buckets := old(st.buckets)[b := Without(old(st.buckets[b]), p)])
      ensures Loose(st.freelist, st.freeBuckets, st.buckets, p)
    {
      hide Threaded, Loose, Chain, NoDup, Without;
      ghost var stack := st.buckets[b];
      BucketChain(next, freeHead, freeHeads, bucketTops, st.freelist, st.freeBuckets, st.buckets, b);
      ghost var i := 0;
      var prev: Ptr := None;
      var tmp := bucketTops[b];
      FirstOf(next, tmp, stack);
      while tmp.value != p
        invariant i < |stack| && tmp == Some(stack[i]) && tmp.value in next
        invariant forall k :: 0 <= k < i ==> stack[k] != p
        invariant if i == 0 then prev.None? else prev == Some(stack[i - 1])
        invariant next == old(next) && bucketTops == old(bucketTops) && st == old(st)
        decreases |stack| - i
      {
        StepDown(next, bucketTops[b], stack, i, p);
        prev := tmp;
        tmp := next[tmp.value];
        i := i + 1;
      }
      CutBucket(next, freeHead, freeHeads, bucketTops, st.freelist, st.freeBuckets, st.buckets, b, i);
      if prev.Some? {
        next := next[prev.value := next[p]];
      } else {
        bucketTops := bucketTops[b := next[p]];
      }
      next := next[p := None];
      st := st.(buckets := st.buckets[b := Without(st.buckets[b], p)]);
    }

    method ResetPage(p: nat)
      requires Mirrored() && p < |pages|
      modifies this`pages, this`pageFree, this`st
      ensures Mirrored()
      ensures st == old(st).(pages := old(pages)[p := FreedPage(old(pages)[p])], pageFree := old(pageFree) + 1)
    {
      var page := pages[p];
      page := page.(version := 0, objCount := 0, bytesUsed := 0, alloc := 0, written := 0);
      page := page.(bucket := 0, active := false, closed := false, free := true);
      pages := pages[p := page];
      pageFree := pageFree + 1;
      st := st.(pages := pages, pageFree := pageFree);
    }

    /** Unlinks the page from its bucket's stack, resets it and pushes it on its free list. */
    method ReturnPage(p: nat)
      requires Woven() && Mirrored() && st.Sized(c) && p < |pages| && MayUnlink(c, st, p)
      modifies this`next, this`freeHead, this`freeHeads, this`bucketTops, this`pages, this`pageFree, this`st
      ensures Woven() && Mirrored() && st == FreePage(c, old(st), p)
      ensures pages == old(pages)[p := FreedPage(old(pages)[p])]
    {
      hide Threaded, Loose, Chain, NoDup, Without;
      UnlinkPage(pages[p].bucket, p);
      ResetPage(p);
      PushFreePage(c.freeBucket[p], p);
    }

    method Lower(i: nat, lowest: Option<(nat, nat)>) returns (low: Option<(nat, nat)>)
      requires Mirrored() && st.Sized(c) && i < |pages|
      ensures low == LowerOf(c, st, i, lowest)
      ensures OlderOf(lowest, i, pages[i].version,
                      pages[i].objCount > 0 && !pages[i].closed && c.freeBucket[i] == 0, low)
    {
      low := lowest;
      if pages[i].objCount > 0 && !pages[i].closed {
        if c.freeBucket[i] == 0 && (low.None? || pages[i].version < low.value.1) {
          low := Some((i, pages[i].version));
        }
      }
    }

    /** The turn for a page that is neither active nor free. */
    method LookAt(i: nat, mayEvict: bool, lowest: Option<(nat, nat)>)
      requires Woven() && Mirrored() && CanScan(c, st) && SafeScan(c, st) && maint == Scan(i, mayEvict, lowest)
      requires i < |pages| && !pages[i].active && !pages[i].free
      modifies this`next, this`freeHead, this`freeHeads, this`bucketTops, this`pages, this`pageFree, this`maint
      modifies this`st
      ensures Woven() && Mirrored() && st == Scanned(c, old(st))
      ensures var page := old(pages)[i]; var spent := page.refcount == 0 && (page.objCount == 0 || page.closed);
        && pages == (if spent then old(pages)[i := FreedPage(page)] else old(pages))
        && maint.Scan? && maint.next == i + 1 && maint.evict == (mayEvict && !spent)
        && OlderOf(lowest, i, page.version, page.objCount > 0 && !page.closed && c.freeBucket[i] == 0, maint.low)
    {
      hide Threaded, Chain, NoDup, FreePage, LowerOf, OlderOf, Scanned, CanScan, SafeScan;
      ScanLooks(c, st);
      var page, evict := pages[i], mayEvict;
      var low := Lower(i, lowest);
      if (page.objCount == 0 || page.closed) && page.refcount == 0 {
        ReturnPage(i);
        evict := false;
      }
      maint := Scan(i + 1, evict, low);
      st := st.(maint := maint);
    }

    /** One turn of the maintenance thread's loop over the pages, or its end.  The page it looks at is
        freed exactly if it is out of use: full, without readers, and empty or closed.  The page it
        remembers is the older of the one before and this one, if this one is fit for eviction. */
    method ScanPage()
      requires Valid() && CanScan(c, st)
      modifies this
      ensures Valid() && old(SafeScan(c, st)) && st == Scanned(c, old(st))
      ensures |pages| == |old(pages)|
      ensures forall q :: 0 <= q < |pages| ==>
        if q == old(maint.next) && OutOfUse(c, old(pages)[q]) then pages[q].free else pages[q] == old(pages)[q]
      ensures |c.freeBucket| == |pages|
      ensures old(maint.next) < |pages| ==>
        && maint.Scan? && maint.next == old(maint.next) + 1
        && var page := old(pages)[old(maint.next)];
           && maint.evict == (old(maint.evict) && !OutOfUse(c, page))
           && OlderOf(old(maint.low), old(maint.next), page.version,
                      Fit(c, page, c.freeBucket[old(maint.next)]), maint.low)
      ensures old(maint.next) >= |pages| ==>
        maint == if old(maint.evict) && old(maint.low.Some?) then Evict(old(maint.low.value.0)) else Waiting
    {
      hide Inv, Threaded, Chain, NoDup, FreePage, LowerOf;
      ScanIsSafe(c, st);
      ScanKeeps(c, st);
      AreSized(c, st);
      var Scan(i, evict, low) := maint;
      if i < |pages| {
        FullIsInactive(c, st, i);
      }
      if i >= |pages| {
        maint := if evict && low.Some? then Evict(low.value.0) else Waiting;
        st := st.(maint := maint);
        return;
      }
      var page := pages[i];
      if page.active || page.free {
        maint := Scan(i + 1, evict, low);
        st := st.(maint := maint);
        return;
      }
      LookAt(i, evict, low);
    }

    /** Closes the page picked for eviction and frees it if nobody reads it; no other page changes. */
    method EvictPage()
      requires Valid() && CanEvict(c, st)
      modifies this
      ensures Valid() && old(SafeEvict(c, st)) && st == Evicted(c, old(st))
      ensures |pages| == |old(pages)|
      ensures forall q :: 0 <= q < |pages| && q != old(maint.page) ==> pages[q] == old(pages)[q]
      ensures var p := old(maint.page);
        if old(pages[p].refcount) == 0 && !old(pages[p].closed) then pages[p].free else pages[p].closed
    {
      hide Inv, Threaded, Chain, NoDup, FreePage;
      EvictIsSafe(c, st);
      EvictKeeps(c, st);
      var p := maint.page;
      maint := Waiting;
      st := st.(maint := Waiting);
      if !pages[p].closed {
        pages := pages[p := pages[p].(closed := true)];
        st := st.WithPage(p, pages[p]);
        if pages[p].refcount == 0 {
          ReturnPage(p);
        }
      }
    }
  }

  lemma NoDupRest(list: seq<nat>)
    requires NoDup(list) && list != []
    ensures NoDup(list[1..])
  {}

  lemma NoDupMore(list: seq<nat>, x: nat)
    requires NoDup(list) && x !in list
    ensures NoDup([x] + list)
  {}

  lemma WriterHasPage(c: Config, s: State, b: nat)
    requires CanLock(c, s, b) && SafeLock(c, s, b)
    ensures s.writers[b].page < |s.pages|
  {}

  lemma PageIsOk(c: Config, s: State, p: nat)
    requires Inv(c, s) && p < |s.pages|
    ensures PageOk(c, s.pages[p], s.wbufs, s.version)
  {
    hide c.Apart, VersionsDiffer, Partitioned, BuffersOk, WritesOk, IosOk, ProgressOk, WritersOk, RecordsOk;
    hide RefcountsOk, ReadsOk, MaintOk, PageOk;
  }

  lemma FlushIsUsable(c: Config, s: State, p: nat, len: nat)
    requires Inv(c, s) && p < |s.pages| && s.pages[p].wbuf.Some? && s.pages[p].wbuf.value < |s.wbufs|
    requires MustFlush(c, s, p, len)
    ensures Usable(c, s, p, len)
  {
    IoLeft(c, s, p);
    hide c.Apart, PagesOk, VersionsDiffer, Partitioned, WritesOk, IosOk, ProgressOk, WritersOk, RecordsOk;
    hide RefcountsOk, ReadsOk, MaintOk;
  }

  lemma FirstOf(next: map<nat, Ptr>, head: Ptr, list: seq<nat>)
    requires Chain(next, head, list) && list != []
    ensures head == Some(list[0]) && list[0] in next
  {}

  lemma StepDown(next: map<nat, Ptr>, head: Ptr, list: seq<nat>, i: nat, p: nat)
    requires Chain(next, head, list) && i < |list| && p in list && forall k :: 0 <= k <= i ==> list[k] != p
    ensures i + 1 < |list| && list[i] in next && next[list[i]] == Some(list[i + 1]) && list[i + 1] in next
  {
    hide Chain;
    ChainFrom(next, head, list, i);
    var k :| 0 <= k < |list| && list[k] == p;
    FirstOf(next, next[list[i]], list[i + 1..]);
  }
}
