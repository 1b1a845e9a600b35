/** The callback of a finished flush keeps the invariants. */
module ExtstoreFlush {
  import opened Common
  import opened Division
  import opened Extstore
  import opened ExtstoreInv
  import opened ExtstoreReads
  import opened ExtstoreWrites

  function FlushedPage(c: Config, page: Page): Page {
    var written := page.written + c.wbufSize;
    page.(written := written, wbuf := None, active := page.active && written != c.pageSize)
  }

  lemma FlushPages(c: Config, pages: seq<Page>, wbufs: seq<Wbuf>, version: nat, p: nat)
    requires c.Valid() && PagesOk(c, pages, wbufs, version) && p < |pages| && pages[p].wbuf.Some?
    ensures PagesOk(c, pages[p := FlushedPage(c, pages[p])], wbufs, version)
  {
    hide c.Apart;
    var t := pages[p := FlushedPage(c, pages[p])];
    forall q | 0 <= q < |pages|
      ensures PageOk(c, t[q], wbufs, version)
    {
      assert PageOk(c, pages[q], wbufs, version);
      if q == p {
        ModAdd(pages[p].written, c.wbufSize);
      }
    }
  }

  lemma FlushBuffers(c: Config, pages: seq<Page>, wbufs: seq<Wbuf>, wbufStack: seq<nat>, p: nat, page: Page, id: nat)
    requires BuffersOk(c, pages, wbufs, wbufStack) && p < |pages| && pages[p].wbuf == Some(id) && id < |wbufs|
    requires page.wbuf.None?
    ensures BuffersOk(c, pages[p := page], wbufs, [id] + wbufStack)
  {
    assert Attached(pages[p := page]) == Attached(pages) - {p};
    assert p in Attached(pages);
    hide Attached;
    var stack, t := [id] + wbufStack, pages[p := page];
    forall q, i | 0 <= q < |t| && 0 <= i < |stack|
      ensures t[q].wbuf != Some(stack[i])
    {
      if q != p {
        OwnBuffer(c, pages, wbufs, wbufStack, p, q);
      }
    }
  }

  lemma FlushWrites(c: Config, pages: seq<Page>, wbufs: seq<Wbuf>, writes: map<nat, WriteIo>, io: nat, page: Page)
    requires WritesOk(c, pages, wbufs, writes) && io in writes && writes[io].page < |pages| && page.wbuf.None?
    ensures WritesOk(c, pages[writes[io].page := page], wbufs, writes - {io})
  {
    OneLessPage(writes, io);
    hide WritePages;
    var p, t := writes[io].page, writes - {io};
    forall o | o in t
      ensures WriteOk(c, pages[p := page], wbufs, t[o])
    {
      assert WriteOk(c, pages, wbufs, writes[o]);
      assert writes[o].page != writes[io].page;
    }
  }

  lemma OneLessPage(writes: map<nat, WriteIo>, io: nat)
    requires io in writes && forall a, b :: a in writes && b in writes && a != b ==> writes[a].page != writes[b].page
    ensures WritePages(writes - {io}) == WritePages(writes) - {writes[io].page}
    ensures writes[io].page in WritePages(writes)
  {
    var t := writes - {io};
    assert forall o :: o in t ==> o in writes && t[o] == writes[o];
    forall p | p in WritePages(writes) && p != writes[io].page
      ensures p in WritePages(t)
    {
      var o :| o in writes && writes[o].page == p;
      assert o in t && t[o].page == p;
    }
  }

  lemma OneLess(writes: map<nat, WriteIo>, io: nat)
    requires io in writes
    ensures |writes - {io}| == |writes| - 1
  {
    var t := writes - {io};
    assert t.Keys == writes.Keys - {io};
    assert |t| == |t.Keys| && |writes| == |writes.Keys|;
  }

  lemma OnePageEach(c: Config, pages: seq<Page>, wbufs: seq<Wbuf>, writes: map<nat, WriteIo>, io: nat)
    requires WritesOk(c, pages, wbufs, writes) && io in writes
    ensures |WritePages(writes - {io})| == |WritePages(writes)| - 1
  {
    OneLessPage(writes, io);
    hide *;
  }

  lemma FlushIos(c: Config, writes: map<nat, WriteIo>, ioStack: seq<nat>, io: nat)
    requires IosOk(c, writes, ioStack) && io in writes
    requires |WritePages(writes - {io})| == |WritePages(writes)| - 1
    ensures IosOk(c, writes - {io}, [io] + ioStack)
  {
    hide WritePages;
    OneLess(writes, io);
  }

  lemma FlushProgress(c: Config, wbufs: seq<Wbuf>, disk: Disk, writes: map<nat, WriteIo>, io: nat)
    requires ProgressOk(c, wbufs, disk, writes)
    ensures ProgressOk(c, wbufs, disk, writes - {io})
  {
    hide DoneOk;
  }

  lemma FlushWriters(c: Config, s: State, p: nat, page: Page)
    requires WritersOk(c, s.pages, s.wbufs, s.buckets, s.writers) && p < |s.pages| && s.Unlocked(p)
    requires page.alloc == s.pages[p].alloc
    ensures WritersOk(c, s.pages[p := page], s.wbufs, s.buckets, s.writers)
  {
    forall b | 0 <= b < |s.writers|
      ensures WriterOk(c, s.pages[p := page], s.wbufs, s.buckets[b], s.writers[b])
    {
      assert WriterOk(c, s.pages, s.wbufs, s.buckets[b], s.writers[b]);
    }
  }

  /** The whole buffer is on disk, right behind what was there. */
  lemma BufferOnDisk(c: Config, wbufs: seq<Wbuf>, disk: Disk, w: WriteIo)
    requires w.page < |c.fd| == |c.base| && w.wbuf < |wbufs| && DoneOk(c, wbufs, disk, w) &&
      |wbufs[w.wbuf].buf| == c.wbufSize
    requires forall i: nat :: i < c.wbufSize ==> i in w.done
    ensures forall i :: 0 <= i < c.wbufSize ==> OnDisk(c, disk, w.page, w.offset + i) == wbufs[w.wbuf].buf[i]
  {
    hide OnDisk;
    forall i | 0 <= i < c.wbufSize
      ensures OnDisk(c, disk, w.page, w.offset + i) == wbufs[w.wbuf].buf[i]
    {
      assert i in w.done;
    }
  }

  /** What readers found in the buffer they now find on disk. */
  lemma FlushRecord(c: Config, page: Page, wbufs: seq<Wbuf>, disk: Disk, rec: Record)
    requires rec.page < |c.fd| == |c.base| && page.wbuf.Some? && page.wbuf.value < |wbufs|
    requires |wbufs[page.wbuf.value].buf| == c.wbufSize && Stored(c, page, wbufs, disk, rec)
    requires forall i :: 0 <= i < c.wbufSize ==>
      OnDisk(c, disk, rec.page, page.written + i) == wbufs[page.wbuf.value].buf[i]
    ensures StoredOnDisk(c, FlushedPage(c, page), disk, rec)
  {
    hide OnDisk;
    if StoredInBuffer(page, wbufs, rec) {
      var w := wbufs[page.wbuf.value];
      forall i | 0 <= i < |rec.data|
        ensures OnDisk(c, disk, rec.page, rec.offset + i) == rec.data[i]
      {
        var k := rec.offset - page.written + i;
        assert page.written + k == rec.offset + i;
        assert OnDisk(c, disk, rec.page, page.written + k) == w.buf[k] == rec.data[i];
      }
    }
  }

  lemma FlushRecords(c: Config, s: State, p: nat)
    requires RecordsOk(c, s.pages, s.wbufs, s.version, s.disk, s.commits)
    requires p < |s.pages| && s.pages[p].wbuf.Some? && s.pages[p].wbuf.value < |s.wbufs|
    requires |s.wbufs[s.pages[p].wbuf.value].buf| == c.wbufSize
    requires forall i :: 0 <= i < c.wbufSize ==>
      OnDisk(c, s.disk, p, s.pages[p].written + i) == s.wbufs[s.pages[p].wbuf.value].buf[i]
    ensures RecordsOk(c, s.pages[p := FlushedPage(c, s.pages[p])], s.wbufs, s.version, s.disk, s.commits)
  {
    hide OnDisk, StoredInBuffer, StoredOnDisk;
    var pages := s.pages[p := FlushedPage(c, s.pages[p])];
    forall rec | rec in s.commits && Live(pages[rec.page], rec)
      ensures Stored(c, pages[rec.page], s.wbufs, s.disk, rec)
    {
      assert Live(s.pages[rec.page], rec) && Stored(c, s.pages[rec.page], s.wbufs, s.disk, rec);
      if rec.page == p {
        FlushRecord(c, s.pages[p], s.wbufs, s.disk, rec);
      }
    }
  }

  lemma BufferSize(c: Config, pages: seq<Page>, wbufs: seq<Wbuf>, wbufStack: seq<nat>, id: nat)
    requires BuffersOk(c, pages, wbufs, wbufStack) && id < |wbufs|
    ensures |wbufs[id].buf| == c.wbufSize
  {
    hide Attached;
  }

  lemma DoneFor(c: Config, wbufs: seq<Wbuf>, disk: Disk, writes: map<nat, WriteIo>, io: nat)
    requires ProgressOk(c, wbufs, disk, writes) && io in writes
    ensures writes[io].page < |c.fd| == |c.base| && writes[io].wbuf < |wbufs| && DoneOk(c, wbufs, disk, writes[io])
  {
    hide DoneOk;
  }

  lemma FlushOffset(c: Config, pages: seq<Page>, wbufs: seq<Wbuf>, writes: map<nat, WriteIo>, io: nat)
    requires WritesOk(c, pages, wbufs, writes) && io in writes
    ensures var w := writes[io]; w.wbuf < |wbufs| && w.offset == wbufs[w.wbuf].offset
  {
    hide WritePages;
    assert WriteOk(c, pages, wbufs, writes[io]);
  }

  lemma FlushKeeps(c: Config, s: State, io: nat)
    requires Inv(c, s) && CanFlush(c, s, io) && SafeFlush(c, s, io)
    ensures Inv(c, Flushed(c, s, io))
  {
    hide c.Apart, PagesOk, VersionsDiffer, Partitioned, BuffersOk, WritesOk, IosOk, ProgressOk, WritersOk, RecordsOk;
    hide RefcountsOk, ReadsOk, MaintOk, DoneOk, OnDisk;
    var w := s.writes[io];
    var p, id := w.page, w.wbuf;
    var page := FlushedPage(c, s.pages[p]);
    var pages := s.pages[p := page];
    AttachedPage(c, s, p);
    BufferSize(c, s.pages, s.wbufs, s.wbufStack, id);
    DoneFor(c, s.wbufs, s.disk, s.writes, io);
    FlushOffset(c, s.pages, s.wbufs, s.writes, io);
    BufferOnDisk(c, s.wbufs, s.disk, w);
    FlushPages(c, s.pages, s.wbufs, s.version, p);
    ReusedLists(c, s, pages);
    FlushBuffers(c, s.pages, s.wbufs, s.wbufStack, p, page, id);
    FlushWrites(c, s.pages, s.wbufs, s.writes, io, page);
    OnePageEach(c, s.pages, s.wbufs, s.writes, io);
    FlushIos(c, s.writes, s.ioStack, io);
    FlushProgress(c, s.wbufs, s.disk, s.writes, io);
    FlushWriters(c, s, p, page);
    FlushRecords(c, s, p);
    RefcountsKept(s.pages, pages, s.lookups);
    ReusedReads(s.pages, s.lookups, s.commits, p, page);
    ReusedMaint(s.pages, s.maint, p, page);
  }
}
