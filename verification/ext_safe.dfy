/** In every state that satisfies the invariants, each step meets the assertions and pointer uses
    of the code. */
module ExtstoreSafe {
  import opened Common
  import opened Extstore
  import opened ExtstoreInv

  lemma SubsetSize(a: set<nat>, b: set<nat>)
    requires a <= b
    ensures |a| <= |b|
  {
    assert b == a + (b - a);
  }

  lemma ProperSubsetSize(a: set<nat>, b: set<nat>, x: nat)
    requires a <= b && x in b && x !in a
    ensures |a| < |b|
  {
    SubsetSize(a, b - {x});
  }

  lemma {:induction false} TotalAtLeast(lists: seq<seq<nat>>, k: nat)
    requires k < |lists|
    ensures Total(lists) >= |lists[k]|
  {
    if k > 0 {
      TotalAtLeast(lists[1..], k - 1);
    }
  }

  /** A page about to flush has a buffer whose flush is not yet submitted, so fewer flushes are
      out than buffers are attached and the io stack cannot be empty. */
  lemma IoLeft(c: Config, s: State, p: nat)
    requires Inv(c, s) && p < |s.pages| && s.pages[p].wbuf.Some? && !s.wbufs[s.pages[p].wbuf.value].full
    ensures s.ioStack != []
  {
    var used, attached := WritePages(s.writes), Attached(s.pages);
    assert used <= attached;
    assert p in attached && p !in used;
    ProperSubsetSize(used, attached, p);
  }

  lemma FreePagesCounted(c: Config, s: State, fb: nat)
    requires Inv(c, s) && fb < c.bucketCount
    ensures var (_, tmp) := PopFree(s, fb); tmp.Some? ==> 0 < tmp.value < |s.pages| && s.pageFree > 0
  {
    TotalAtLeast(s.freeBuckets, fb);
    assert OnFreeList(c, s.pages, s.freeBuckets[fb], fb);
  }

  lemma FindIsSafe(c: Config, s: State, b: nat, fb: nat)
    requires Inv(c, s) && CanFind(c, s, b, fb)
    ensures SafeFind(c, s, b, fb)
  {
    assert OnBucket(c, s.pages, s.buckets[b], b);
    FreePagesCounted(c, s, fb);
  }

  lemma LockIsSafe(c: Config, s: State, b: nat)
    requires Inv(c, s) && CanLock(c, s, b)
    ensures SafeLock(c, s, b)
  {
    var p := s.writers[b].page;
    assert WriterOk(c, s.pages, s.wbufs, s.buckets[b], s.writers[b]);
    assert PageOk(c, s.pages[p], s.wbufs, s.version);
    if MustFlush(c, s, p, s.writers[b].len) {
      IoLeft(c, s, p);
    }
  }

  lemma GetIsSafe(c: Config, s: State, b: nat)
    requires Inv(c, s) && CanGet(c, s, b)
    ensures SafeGet(c, s, b)
  {
    assert WriterOk(c, s.pages, s.wbufs, s.buckets[b], s.writers[b]);
    FreePagesCounted(c, s, s.writers[b].freeBucket);
  }

  lemma WriteIsSafe(c: Config, s: State, b: nat, data: seq<byte>)
    requires Inv(c, s) && CanWrite(c, s, b, data)
    ensures SafeWrite(c, s, b, data)
  {
    assert WriterOk(c, s.pages, s.wbufs, s.buckets[b], s.writers[b]);
  }

  lemma FlushIsSafe(c: Config, s: State, io: nat)
    requires Inv(c, s) && CanFlush(c, s, io)
    ensures SafeFlush(c, s, io)
  {
    assert WriteOk(c, s.pages, s.wbufs, s.writes[io]);
    assert PageOk(c, s.pages[s.writes[io].page], s.wbufs, s.version);
  }

  lemma BeginIsSafe(c: Config, s: State, id: nat)
    requires Inv(c, s) && CanBegin(c, s, id)
    ensures SafeBegin(c, s, id)
  {
    assert ReadOk(s.pages, s.lookups[id]);
    assert PageOk(c, s.pages[s.lookups[id].rec.page], s.wbufs, s.version);
  }

  lemma ReleaseIsSafe(c: Config, s: State, id: nat)
    requires Inv(c, s) && CanRelease(c, s, id)
    ensures SafeRelease(c, s, id)
  {
    assert ReadOk(s.pages, s.lookups[id]);
    assert id in Holders(s.lookups, s.lookups[id].rec.page);
  }

  lemma InUseIsListed(c: Config, s: State, p: nat)
    requires Inv(c, s) && p < |s.pages| && !s.pages[p].free
    ensures p > 0 && MayUnlink(c, s, p)
  {
    assert Listed(c, s.pages, s.freelist, s.freeBuckets, s.buckets, p);
  }

  lemma ScanIsSafe(c: Config, s: State)
    requires Inv(c, s) && CanScan(c, s)
    ensures SafeScan(c, s)
  {
    var i := s.maint.next;
    if i < |s.pages| && !s.pages[i].free {
      InUseIsListed(c, s, i);
    }
  }

  lemma EvictIsSafe(c: Config, s: State)
    requires Inv(c, s) && CanEvict(c, s)
    ensures SafeEvict(c, s)
  {
    InUseIsListed(c, s, s.maint.page);
  }

  lemma PutIsSafe(c: Config, s: State, io: nat, i: nat)
    requires Inv(c, s) && CanWriteByte(c, s, io, i)
    ensures SafeWriteByte(c, s, io, i)
  {
    assert WriteOk(c, s.pages, s.wbufs, s.writes[io]);
  }

  lemma TakeIsSafe(c: Config, s: State, id: nat, i: nat)
    requires Inv(c, s) && CanReadByte(c, s, id, i)
    ensures s.lookups[id].rec.page < |s.pages|
  {
    assert ReadOk(s.pages, s.lookups[id]);
  }

  /** No assertion of the engine fails and no missing buffer, io or page is touched. */
  lemma InvIsSafe(c: Config, s: State, step: Step)
    requires Inv(c, s) && Enabled(c, s, step)
    ensures Safe(c, s, step)
  {
    hide Inv;
    match step
    case FindPage(b, fb, len) => FindIsSafe(c, s, b, fb);
    case LockPage(b) => LockIsSafe(c, s, b);
    case GetPage(b) => GetIsSafe(c, s, b);
    case Write(b, data) => WriteIsSafe(c, s, b, data);
    case WriteByte(io, i) => PutIsSafe(c, s, io, i);
    case FlushDone(io) => FlushIsSafe(c, s, io);
    case SubmitRead(id, rec) =>
    case BeginRead(id) => BeginIsSafe(c, s, id);
    case ReadByte(id, i) => TakeIsSafe(c, s, id, i);
    case ReadDone(id) =>
    case ReadRelease(id) => ReleaseIsSafe(c, s, id);
    case DeleteObjects(p, version, count, bytes) =>
    case ClosePage(p, version) =>
    case MaintStart =>
    case MaintScan => ScanIsSafe(c, s);
    case MaintEvict => EvictIsSafe(c, s);
  }
}
