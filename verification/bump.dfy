/** Asynchronous LRU bumps: workers put referenced items into a bip buffer, and the maintainer thread
    takes them out, updates them and gives the references up. */
module Bumps {
  import opened Common
  import opened Bip

  /** An entry is an item pointer and a hash value, eight and four bytes, and four bytes of padding
      that are never written. */
  const ENTRY := 16

  datatype Entry = Entry(item: nat, hv: nat)
  {
    ghost predicate Fits() {
      item < Power(8) && hv < Power(4)
    }
  }

  function Power(k: nat): nat {
    if k == 0 then 1 else 256 * Power(k - 1)
  }

  function Little(n: nat, k: nat): (r: seq<byte>)
    ensures |r| == k
    decreases k
  {
    if k == 0 then [] else [(n % 256) as byte] + Little(n / 256, k - 1)
  }

  function Value(d: seq<byte>): nat {
    if d == [] then 0 else d[0] as nat + 256 * Value(d[1..])
  }

  lemma {:induction false} LittleValue(n: nat, k: nat)
    requires n < Power(k)
    ensures Value(Little(n, k)) == n
    decreases k
  {
    if k > 0 {
      LittleValue(n / 256, k - 1);
      assert Little(n, k)[1..] == Little(n / 256, k - 1);
    }
  }

  function Encode(e: Entry, pad: seq<byte>): (r: seq<byte>)
    requires |pad| == 4
    ensures |r| == ENTRY
  {
    Little(e.item, 8) + Little(e.hv, 4) + pad
  }

  function Decode(d: seq<byte>): Entry
    requires |d| == ENTRY
  {
    Entry(Value(d[..8]), Value(d[8..12]))
  }

  /** An entry is read as it was written, whatever the padding. */
  lemma DecodeEncode(e: Entry, pad: seq<byte>)
    requires e.Fits() && |pad| == 4
    ensures Decode(Encode(e, pad)) == e
  {
    hide Value, Little, Power;
    var d := Encode(e, pad);
    assert d[..8] == Little(e.item, 8) && d[8..12] == Little(e.hv, 4);
    LittleValue(e.item, 8);
    LittleValue(e.hv, 4);
  }

  function Parse(s: seq<byte>): (r: seq<Entry>)
    requires |s| % ENTRY == 0
    ensures ENTRY * |r| == |s|
    decreases |s|
  {
    if s == [] then [] else [Decode(s[..ENTRY])] + Parse(s[ENTRY..])
  }

  lemma {:induction false} ParseConcat(a: seq<byte>, b: seq<byte>)
    requires |a| % ENTRY == 0 && |b| % ENTRY == 0
    ensures Parse(a + b) == Parse(a) + Parse(b)
    decreases |a|
  {
    hide Parse, Decode;
    if a == [] {
      ParseNone(a);
      assert a + b == b;
    } else {
      FirstWhole(a);
      SumAligned(|a|, |b|);
      ParseFirst(a);
      ParseFirst(a + b);
      assert (a + b)[..ENTRY] == a[..ENTRY] && (a + b)[ENTRY..] == a[ENTRY..] + b;
      ParseConcat(a[ENTRY..], b);
    }
  }

  lemma ParseNone(s: seq<byte>)
    requires s == []
    ensures Parse(s) == []
  {}

  lemma SumAligned(x: int, y: int)
    requires x % ENTRY == 0 && y % ENTRY == 0
    ensures (x + y) % ENTRY == 0
  {}

  lemma FirstWhole(s: seq<byte>)
    requires |s| % ENTRY == 0 && s != []
    ensures ENTRY <= |s| && |s[ENTRY..]| % ENTRY == 0
  {}

  lemma ParseFirst(s: seq<byte>)
    requires |s| % ENTRY == 0 && ENTRY <= |s| && |s[ENTRY..]| % ENTRY == 0
    ensures Parse(s) == [Decode(s[..ENTRY])] + Parse(s[ENTRY..])
  {
    hide Decode;
  }

  lemma ParseOne(d: seq<byte>)
    requires |d| == ENTRY
    ensures Parse(d) == [Decode(d)]
  {
    hide Decode;
    assert d[..ENTRY] == d && d[ENTRY..] == [];
  }

  ghost predicate Aligned(b: Buffer) {
    |b.data| % ENTRY == 0 && b.aStart % ENTRY == 0 && b.aEnd % ENTRY == 0 && b.bEnd % ENTRY == 0
  }

  /** Whole entries go in and come out, so all bounds stay at entries. */
  lemma StaysAligned(b: Buffer, n: nat)
    requires Aligned(b) && n % ENTRY == 0
    ensures Aligned(Pushed(b, n)) && Aligned(Polled(b, n))
  {
    SumAligned(b.aStart, n);
    SumAligned(b.aEnd, n);
    SumAligned(b.bEnd, n);
  }

  lemma ContentsLength(b: Buffer)
    requires Ok(b)
    ensures |Contents(b)| == b.aEnd - b.aStart + b.bEnd
  {
  }

  lemma ContentsAligned(b: Buffer)
    requires Ok(b) && Aligned(b)
    ensures |Contents(b)| % ENTRY == 0 && (b.aEnd - b.aStart) % ENTRY == 0
  {
    hide Contents;
    ContentsLength(b);
  }

  /** What the maintainer is doing: nothing, or going through `size` bytes at `at`, `done` of them
      done. */
  datatype Work = Idle | Busy(at: nat, size: nat, done: nat)

  /** The buffer, what the maintainer does, and all references taken for the buffer and given up. */
  datatype State = State(buf: Buffer, work: Work, taken: seq<Entry>, freed: seq<Entry>)

  datatype Step = Take(e: Entry, pad: seq<byte>) | Peek | Free | Poll

  ghost predicate Enabled(s: State, t: Step) {
    match t
    case Take(e, pad) => e.Fits() && |pad| == 4
    case Peek => s.work.Idle?
    case Free => s.work.Busy? && s.work.done < s.work.size
    case Poll => s.work.Busy? && s.work.done == s.work.size
  }

  function Done(work: Work): nat {
    if work.Idle? then 0 else work.done
  }

  /** Of the queue `c` the first `done` bytes have been gone through: everything taken was either
      given up before, or is in the queue; and what was given up last is the part gone through. */
  ghost predicate Progress(c: seq<byte>, done: nat, taken: seq<Entry>, freed: seq<Entry>) {
    && |c| % ENTRY == 0 && done % ENTRY == 0 && done <= |c| && done <= ENTRY * |freed|
    && taken == freed[..|freed| - done / ENTRY] + Parse(c)
    && freed[|freed| - done / ENTRY..] == Parse(c[..done])
  }

  /** The window the maintainer works on is still the front of the buffer. */
  ghost predicate Window(buf: Buffer, work: Work) {
    work.Busy? ==>
      && work.at == buf.aStart && 0 < work.size <= buf.aEnd - buf.aStart
      && work.done <= work.size && work.size % ENTRY == 0
  }

  ghost predicate Inv(s: State) {
    && Ok(s.buf) && Aligned(s.buf) && Window(s.buf, s.work)
    && Progress(Contents(s.buf), Done(s.work), s.taken, s.freed)
  }

  ghost function Next(s: State, t: Step): State
    requires Inv(s) && Enabled(s, t)
  {
    match t
    case Take(e, pad) =>
      if ENTRY <= Unused(s.buf)
      then s.(buf := Pushed(Written(s.buf, Encode(e, pad)), ENTRY), taken := s.taken + [e])
      else s
    case Peek => if s.buf.aStart < s.buf.aEnd then s.(work := Busy(s.buf.aStart, s.buf.aEnd - s.buf.aStart, 0)) else s
    case Free =>
      var at := s.work.at + s.work.done;
      s.(freed := s.freed + [Decode(s.buf.data[at..at + ENTRY])], work := s.work.(done := s.work.done + ENTRY))
    case Poll => s.(buf := Polled(s.buf, s.work.size), work := Idle)
  }

  lemma TakeContents(b: Buffer, e: Entry, pad: seq<byte>)
    requires Ok(b) && Aligned(b) && e.Fits() && |pad| == 4 && ENTRY <= Unused(b)
    ensures var c := Pushed(Written(b, Encode(e, pad)), ENTRY);
            && Ok(c) && Aligned(c) && |Contents(b)| % ENTRY == 0
            && Contents(c) == Contents(b) + Encode(e, pad) && Parse(Encode(e, pad)) == [e]
            && c.aStart == b.aStart && b.aEnd <= c.aEnd
  {
    hide Contents, Pushed, Decode, Encode, Parse;
    var d := Encode(e, pad);
    OfferAppends(b, d);
    ContentsAligned(b);
    assert Aligned(Written(b, d));
    StaysAligned(Written(b, d), ENTRY);
    ParseOne(d);
    DecodeEncode(e, pad);
  }

  lemma ProgressTake(c: seq<byte>, done: nat, taken: seq<Entry>, freed: seq<Entry>, d: seq<byte>, e: Entry)
    requires Progress(c, done, taken, freed) && |d| == ENTRY && Parse(d) == [e]
    ensures Progress(c + d, done, taken + [e], freed)
  {
    hide Parse;
    ParseConcat(c, d);
    assert (c + d)[..done] == c[..done];
    assert freed[..|freed| - done / ENTRY] + Parse(c) + [e] == freed[..|freed| - done / ENTRY] + (Parse(c) + [e]);
  }

  lemma ProgressFree(c: seq<byte>, done: nat, taken: seq<Entry>, freed: seq<Entry>)
    requires Progress(c, done, taken, freed) && done + ENTRY <= |c|
    ensures Progress(c, done + ENTRY, taken, freed + [Decode(c[done..done + ENTRY])])
  {
    hide Parse, Decode;
    var more := freed + [Decode(c[done..done + ENTRY])];
    ParseOne(c[done..done + ENTRY]);
    ParseConcat(c[..done], c[done..done + ENTRY]);
    assert c[..done] + c[done..done + ENTRY] == c[..done + ENTRY];
    var before := |freed| - done / ENTRY;
    assert before == |more| - (done + ENTRY) / ENTRY;
    assert more[..before] == freed[..before];
    assert more[before..] == freed[before..] + [Decode(c[done..done + ENTRY])];
  }

  lemma ProgressPoll(c: seq<byte>, done: nat, taken: seq<Entry>, freed: seq<Entry>)
    requires Progress(c, done, taken, freed)
    ensures Progress(c[done..], 0, taken, freed)
  {
    hide Parse, Decode;
    ParseConcat(c[..done], c[done..]);
    assert c[..done] + c[done..] == c;
    var before := |freed| - done / ENTRY;
    assert freed[..before] + (freed[before..] + Parse(c[done..])) == freed + Parse(c[done..]);
    assert freed[..|freed|] == freed && freed[|freed|..] == [];
    ParseNone(c[done..][..0]);
  }

  lemma ProgressStart(c: seq<byte>, taken: seq<Entry>, freed: seq<Entry>)
    requires Progress(c, 0, taken, freed)
    ensures freed <= taken && taken == freed + Parse(c)
  {
    hide Parse;
    assert freed[..|freed|] == freed;
  }

  lemma TakeKeeps(s: State, e: Entry, pad: seq<byte>)
    requires Inv(s) && Enabled(s, Take(e, pad))
    ensures Inv(Next(s, Take(e, pad)))
  {
    hide Contents, Pushed, Written, Aligned, Encode, Parse, Progress;
    if ENTRY <= Unused(s.buf) {
      TakeContents(s.buf, e, pad);
      ProgressTake(Contents(s.buf), Done(s.work), s.taken, s.freed, Encode(e, pad), e);
    }
  }

  lemma FreeKeeps(s: State)
    requires Inv(s) && Enabled(s, Free)
    ensures Inv(Next(s, Free))
  {
    hide Contents, Aligned, Parse, Decode, Progress;
    WindowDone(s);
    ProgressFree(Contents(s.buf), s.work.done, s.taken, s.freed);
  }

  lemma WindowAt(b: Buffer, done: nat)
    requires Ok(b) && done + ENTRY <= b.aEnd - b.aStart
    ensures done + ENTRY <= |Contents(b)|
    ensures b.data[b.aStart + done..b.aStart + done + ENTRY] == Contents(b)[done..done + ENTRY]
  {
    hide Contents;
    Front(b, done + ENTRY);
    assert b.data[b.aStart..b.aStart + (done + ENTRY)][done..] == b.data[b.aStart + done..b.aStart + done + ENTRY];
    assert Contents(b)[..done + ENTRY][done..] == Contents(b)[done..done + ENTRY];
  }

  /** The maintainer reads the entry from the buffer's memory where the queue has it. */
  lemma WindowDone(s: State)
    requires Inv(s) && Enabled(s, Free)
    ensures s.work.done + ENTRY <= s.work.size <= |Contents(s.buf)|
    ensures var at := s.work.at + s.work.done;
            s.buf.data[at..at + ENTRY] == Contents(s.buf)[s.work.done..s.work.done + ENTRY]
  {
    hide Parse, Contents;
    assert s.work.done % ENTRY == 0;
    Front(s.buf, s.work.size);
    WindowAt(s.buf, s.work.done);
  }

  lemma PollKeeps(s: State)
    requires Inv(s) && Enabled(s, Poll)
    ensures Inv(Next(s, Poll))
  {
    hide Contents, Polled, Aligned, Parse, Progress;
    PollDrops(s.buf, s.work.size);
    StaysAligned(s.buf, s.work.size);
    Front(s.buf, s.work.size);
    ProgressPoll(Contents(s.buf), s.work.done, s.taken, s.freed);
  }

  lemma StepKeeps(s: State, t: Step)
    requires Inv(s) && Enabled(s, t)
    ensures Inv(Next(s, t))
  {
    hide Contents, Parse, Progress;
    match t
    case Take(e, pad) => TakeKeeps(s, e, pad);
    case Peek => ContentsAligned(s.buf);
    case Free => FreeKeeps(s);
    case Poll => PollKeeps(s);
  }

  ghost predicate IsRun(s: State, ts: seq<Step>)
    requires Inv(s)
    decreases |ts|
  {
    ts == [] || (Enabled(s, ts[0]) && (StepKeeps(s, ts[0]); IsRun(Next(s, ts[0]), ts[1..])))
  }

  ghost function Run(s: State, ts: seq<Step>): State
    requires Inv(s) && IsRun(s, ts)
    decreases |ts|
  {
    if ts == [] then s else StepKeeps(s, ts[0]); Run(Next(s, ts[0]), ts[1..])
  }

  lemma {:induction false} RunKeeps(s: State, ts: seq<Step>)
    requires Inv(s) && IsRun(s, ts)
    ensures Inv(Run(s, ts))
    decreases |ts|
  {
    hide Inv;
    if ts != [] {
      StepKeeps(s, ts[0]);
      RunKeeps(Next(s, ts[0]), ts[1..]);
    }
  }

  function Start(entries: nat): State {
    State(Buffer(seq(ENTRY * entries, i => 0), 0, 0, 0, false), Idle, [], [])
  }

  lemma StartOk(entries: nat)
    ensures Inv(Start(entries))
  {
    assert Contents(Start(entries).buf) == [];
  }

  /** In every run, however workers and the maintainer interleave, the references given up are those
      taken, each once, on the same items and in the same order; and once the maintainer is idle and
      the buffer empty, all are. */
  lemma FreedAreTaken(s: State, ts: seq<Step>)
    requires Inv(s) && IsRun(s, ts)
    ensures Run(s, ts).freed <= Run(s, ts).taken
    ensures Run(s, ts).work.Idle? && Run(s, ts).buf.aStart == Run(s, ts).buf.aEnd ==>
              Run(s, ts).freed == Run(s, ts).taken
  {
    hide Run, IsRun, Parse;
    RunKeeps(s, ts);
    var e := Run(s, ts);
    var c := Contents(e.buf);
    ProgressPoll(c, Done(e.work), e.taken, e.freed);
    ProgressStart(c[Done(e.work)..], e.taken, e.freed);
    if e.work.Idle? && e.buf.aStart == e.buf.aEnd {
      assert c[0..] == [];
      ParseNone(c[0..]);
    }
  }

  /** Two stores of an entry's fields write all of it but the padding. */
  lemma EncodeSplit(data: seq<byte>, e: Entry, at: nat, pad: seq<byte>)
    requires at + ENTRY <= |data| && pad == data[at + 12..at + ENTRY]
    ensures data[..at] + (Little(e.item, 8) + Little(e.hv, 4)) + data[at + 12..] ==
            data[..at] + Encode(e, pad) + data[at + ENTRY..]
  {
    assert data[at + 12..] == pad + data[at + ENTRY..];
  }

  /** The two fields of an entry are stored where it was requested; the padding is what was there. */
  method WriteEntry(b: BipBuffer, e: Entry, at: nat) returns (ghost pad: seq<byte>)
    requires at == Offset(b.View()) && at + ENTRY <= b.data.Length
    modifies b.data
    ensures |pad| == 4 && b.View() == Written(old(b.View()), Encode(e, pad))
  {
    hide Little;
    ghost var was := b.View();
    pad := b.data[at + 12..at + ENTRY];
    b.Copy(at, Little(e.item, 8) + Little(e.hv, 4));
    EncodeSplit(was.data, e, at, pad);
  }

  lemma EntryGoesIn(b: Buffer, e: Entry, pad: seq<byte>)
    requires Ok(b) && Aligned(b) && e.Fits() && |pad| == 4 && ENTRY <= Unused(b)
    ensures var c := Pushed(Written(b, Encode(e, pad)), ENTRY);
            && Ok(c) && Aligned(c) && |Contents(b)| % ENTRY == 0 && |Contents(c)| % ENTRY == 0
            && Parse(Contents(c)) == Parse(Contents(b)) + [e]
  {
    hide Contents, Pushed, Written, Encode, Decode, Parse, Aligned, e.Fits;
    TakeContents(b, e, pad);
    ParseConcat(Contents(b), Encode(e, pad));
    ContentsAligned(Pushed(Written(b, Encode(e, pad)), ENTRY));
  }

  /** The entry goes in if there is room for it. */
  method Enqueue(b: BipBuffer, e: Entry) returns (ok: bool)
    requires b.Valid() && Aligned(b.View()) && e.Fits()
    modifies b, b.data
    ensures b.Valid() && Aligned(b.View()) && |b.Queue()| % ENTRY == 0 && |old(b.Queue())| % ENTRY == 0
    ensures ok <==> ENTRY <= old(b.Room())
    ensures Parse(b.Queue()) == old(Parse(b.Queue())) + if ok then [e] else []
  {
    hide Contents, Pushed, Written, Encode, Decode, Parse, Aligned, e.Fits;
    var at := b.Request(ENTRY);
    ghost var was := b.View();
    ContentsAligned(was);
    if at.None? {
      return false;
    }
    ghost var pad := WriteEntry(b, e, at.value);
    EntryGoesIn(was, e, pad);
    b.Advance(ENTRY);
    return true;
  }

  /** The entries of the queue stand in the bytes one after the other. */
  lemma {:induction false} ParseAt(s: seq<byte>, k: nat)
    requires |s| % ENTRY == 0 && ENTRY * k < |s|
    ensures k < |Parse(s)| && Parse(s)[k] == Decode(s[ENTRY * k..ENTRY * k + ENTRY])
    decreases k
  {
    hide Decode;
    if k > 0 {
      ParseAt(s[ENTRY..], k - 1);
      assert s[ENTRY..][ENTRY * (k - 1)..ENTRY * (k - 1) + ENTRY] == s[ENTRY * k..ENTRY * k + ENTRY];
    } else {
      assert s[0..ENTRY] == s[..ENTRY];
    }
  }
}
