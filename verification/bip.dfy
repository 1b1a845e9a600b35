/** The two-region circular byte buffer.  Region A holds the older bytes; region B, at the start of
    the store, takes new ones once there is more room there than behind A. */
module Bip {
  import opened Common

  datatype Buffer = Buffer(data: seq<byte>, aStart: nat, aEnd: nat, bEnd: nat, bInUse: bool)

  /** B is in use only while A is not empty, and ends before A starts; while it is not, there is at
      least as much room behind A as in front of it. */
  ghost predicate Ok(b: Buffer) {
    && b.aStart <= b.aEnd <= |b.data|
    && (b.bInUse ==> b.bEnd <= b.aStart < b.aEnd)
    && (!b.bInUse ==> b.bEnd == 0 && b.aStart <= |b.data| - b.aEnd)
    && (b.aStart == b.aEnd ==> b.aStart == 0)
  }

  /** The bytes in the buffer, oldest first. */
  function Contents(b: Buffer): seq<byte>
    requires b.aStart <= b.aEnd <= |b.data| && b.bEnd <= |b.data|
  {
    b.data[b.aStart..b.aEnd] + b.data[..b.bEnd]
  }

  function Unused(b: Buffer): (n: nat)
    requires Ok(b)
    ensures Offset(b) + n <= |b.data|
  {
    if b.bInUse then b.aStart - b.bEnd else |b.data| - b.aEnd
  }

  /** Where new bytes go. */
  function Offset(b: Buffer): nat {
    if b.bInUse then b.bEnd else b.aEnd
  }

  /** Whether a place of the store holds a byte of the queue. */
  predicate InQueue(b: Buffer, i: nat) {
    b.aStart <= i < b.aEnd || i < b.bEnd
  }

  /** `d` copied to where new bytes go. */
  function Written(b: Buffer, d: seq<byte>): Buffer
    requires Offset(b) + |d| <= |b.data|
  {
    b.(data := b.data[..Offset(b)] + d + b.data[Offset(b) + |d|..])
  }

  function Switched(b: Buffer): Buffer {
    if |b.data| - b.aEnd < b.aStart - b.bEnd then b.(bInUse := true) else b
  }

  function Pushed(b: Buffer, n: nat): Buffer {
    Switched(if b.bInUse then b.(bEnd := b.bEnd + n) else b.(aEnd := b.aEnd + n))
  }

  function Polled(b: Buffer, n: nat): Buffer {
    var c := b.(aStart := b.aStart + n);
    Switched(
      if c.aStart != c.aEnd then c
      else if c.bInUse then c.(aStart := 0, aEnd := c.bEnd, bEnd := 0, bInUse := false)
      else c.(aStart := 0, aEnd := 0))
  }

  /** What a copy into the store changes and what it does not. */
  lemma Spliced(data: seq<byte>, off: nat, d: seq<byte>, x: nat, y: nat)
    requires off + |d| <= |data| && x <= y <= |data|
    ensures var r := data[..off] + d + data[off + |d|..];
            && |r| == |data|
            && (y <= off ==> r[x..y] == data[x..y])
            && (off + |d| <= x ==> r[x..y] == data[x..y])
            && (x <= off ==> r[x..off + |d|] == data[x..off] + d)
  {
  }

  lemma PushOk(b: Buffer, n: nat)
    requires Ok(b) && n <= Unused(b)
    ensures Ok(Pushed(b, n)) && Pushed(b, n).data == b.data
    ensures Pushed(b, n).aStart == b.aStart
    ensures Pushed(b, n).aEnd == if b.bInUse then b.aEnd else b.aEnd + n
    ensures Pushed(b, n).bEnd == if b.bInUse then b.bEnd + n else b.bEnd
  {
  }

  lemma RegionsAppend(b: Buffer, c: Buffer, d: seq<byte>)
    requires Ok(b) && Ok(c) && |d| <= Unused(b) && c.aStart == b.aStart && |c.data| == |b.data|
    requires b.bInUse ==> c.aEnd == b.aEnd && c.bEnd == b.bEnd + |d|
    requires !b.bInUse ==> c.aEnd == b.aEnd + |d| && c.bEnd == b.bEnd
    requires b.bInUse ==>
      c.data[..c.bEnd] == b.data[..b.bEnd] + d && c.data[b.aStart..b.aEnd] == b.data[b.aStart..b.aEnd]
    requires !b.bInUse ==> c.data[c.aStart..c.aEnd] == b.data[b.aStart..b.aEnd] + d
    ensures Contents(c) == Contents(b) + d
  {
    if b.bInUse {
      assert Contents(c) == b.data[b.aStart..b.aEnd] + (b.data[..b.bEnd] + d);
    } else {
      assert c.data[..0] == [] && b.data[..0] == [];
    }
  }

  /** Writing `d` and pushing it appends it, and touches no byte that was in the buffer. */
  lemma OfferAppends(b: Buffer, d: seq<byte>)
    requires Ok(b) && |d| <= Unused(b)
    ensures var c := Pushed(Written(b, d), |d|);
            && Ok(c) && Contents(c) == Contents(b) + d
            && c.aStart == b.aStart && b.aEnd <= c.aEnd && |c.data| == |b.data|
            && c.data[b.aStart..b.aEnd] == b.data[b.aStart..b.aEnd]
  {
    hide Contents, Pushed;
    var w := Written(b, d);
    Spliced(b.data, Offset(b), d, b.aStart, b.aEnd);
    Spliced(b.data, Offset(b), d, 0, b.bEnd);
    PushOk(w, |d|);
    RegionsAppend(b, Pushed(w, |d|), d);
  }

  lemma PushAppends(b: Buffer, n: nat)
    requires Ok(b) && n <= Unused(b)
    ensures Ok(Pushed(b, n))
    ensures Contents(Pushed(b, n)) == Contents(b) + b.data[Offset(b)..Offset(b) + n]
  {
    hide Contents, Pushed;
    var d := b.data[Offset(b)..Offset(b) + n];
    assert Written(b, d).data == b.data;
    OfferAppends(b, d);
  }

  lemma PollOk(b: Buffer, n: nat)
    requires Ok(b) && b.aStart < b.aEnd && n <= b.aEnd - b.aStart
    ensures Ok(Polled(b, n)) && Polled(b, n).data == b.data
    ensures var c := Polled(b, n);
      if n < b.aEnd - b.aStart then c.aStart == b.aStart + n && c.aEnd == b.aEnd && c.bEnd == b.bEnd
      else c.aStart == 0 && c.aEnd == b.bEnd && c.bEnd == 0
  {}

  lemma RegionsDrop(b: Buffer, c: Buffer, n: nat)
    requires Ok(b) && Ok(c) && n <= b.aEnd - b.aStart && c.data == b.data
    requires if n < b.aEnd - b.aStart then c.aStart == b.aStart + n && c.aEnd == b.aEnd && c.bEnd == b.bEnd
             else c.aStart == 0 && c.aEnd == b.bEnd && c.bEnd == 0
    ensures Contents(c) == Contents(b)[n..]
  {
    assert b.data[b.aStart..b.aEnd][n..] == b.data[b.aStart + n..b.aEnd];
    assert Contents(b)[n..] == b.data[b.aStart..b.aEnd][n..] + b.data[..b.bEnd];
    assert c.data[..0] == [];
  }

  /** Polling within region A removes that many bytes from the front. */
  lemma PollDrops(b: Buffer, n: nat)
    requires Ok(b) && b.aStart < b.aEnd && n <= b.aEnd - b.aStart
    ensures Ok(Polled(b, n)) && Contents(Polled(b, n)) == Contents(b)[n..]
    ensures Polled(b, n).data == b.data
  {
    hide Contents, Polled;
    PollOk(b, n);
    RegionsDrop(b, Polled(b, n), n);
  }

  lemma Front(b: Buffer, n: nat)
    requires Ok(b) && n <= b.aEnd - b.aStart
    ensures n <= |Contents(b)| && b.data[b.aStart..b.aStart + n] == Contents(b)[..n]
  {
    assert b.data[b.aStart..b.aEnd][..n] == b.data[b.aStart..b.aStart + n];
  }

  /** Polling more than region A is not refused as long as the store is long enough, and then leaves
      the buffer without meaning: a poll is sound exactly when it stays within region A. */
  lemma PollSoundIff(b: Buffer, n: nat)
    requires Ok(b) && b.aStart < b.aEnd
    ensures Ok(Polled(b, n)) <==> n <= b.aEnd - b.aStart
  {
    if n <= b.aEnd - b.aStart {
      PollDrops(b, n);
    }
  }

  /** In particular two bytes, one in each region, cannot be polled at once. */
  lemma PollAcrossRegions()
    ensures exists b: Buffer :: Ok(b) && |Contents(b)| == 2 && 2 <= |b.data| - b.aStart && !Ok(Polled(b, 2))
  {
    var b := Buffer([1, 0, 2, 3], 2, 3, 1, true);
    assert Ok(b) && |Contents(b)| == 2;
    PollSoundIff(b, 2);
  }

  /** Such a buffer is reached by offers and polls: a poll of all its bytes, which is not refused,
      leaves it unsound. */
  method PollBreaks() returns (b: BipBuffer)
    ensures fresh(b) && !b.Valid()
  {
    b := new BipBuffer(4);
    var _ := b.Offer([1, 2, 3]);
    var _ := b.Poll(2);
    var _ := b.Offer([4]);
    assert |b.Queue()| == 2;
    var at := b.Poll(2);
    assert at.Some?;
  }

  class BipBuffer {
    const data: array<byte>
    var aStart: nat
    var aEnd: nat
    var bEnd: nat
    var bInUse: bool

    ghost function View(): Buffer
      reads this, data
    {
      Buffer(data[..], aStart, aEnd, bEnd, bInUse)
    }

    ghost predicate Valid()
      reads this, data
    {
      Ok(View())
    }

    /** The queue of bytes the buffer stands for. */
    ghost function Queue(): seq<byte>
      requires Valid()
      reads this, data
    {
      Contents(View())
    }

    constructor (size: nat)
      ensures Valid() && fresh(data) && data.Length == size && Queue() == []
    {
      data := new byte[size];
      aStart, aEnd, bEnd, bInUse := 0, 0, 0, false;
    }

    /** From where bytes go next, the longest stretch that holds nothing of the queue. */
    function Room(): (n: nat)
      requires Valid()
      reads this, data
      ensures Offset(View()) + n <= data.Length
      ensures forall i :: Offset(View()) <= i < Offset(View()) + n ==> !InQueue(View(), i)
      ensures Offset(View()) + n == data.Length || InQueue(View(), Offset(View()) + n)
    {
      if bInUse then aStart - bEnd else data.Length - aEnd
    }

    function Used(): (n: nat)
      requires Valid()
      reads this, data
      ensures n == |Queue()|
    {
      aEnd - aStart + bEnd
    }

    predicate IsEmpty()
      requires Valid()
      reads this, data
      ensures IsEmpty() <==> Queue() == []
    {
      aStart == aEnd
    }

    method CheckForSwitch()
      modifies this`bInUse
      ensures View() == Switched(old(View()))
    {
      if data.Length - aEnd < aStart - bEnd {
        bInUse := true;
      }
    }

    method Advance(n: nat)
      modifies this
      ensures View() == Pushed(old(View()), n)
    {
      if bInUse {
        bEnd := bEnd + n;
      } else {
        aEnd := aEnd + n;
      }
      CheckForSwitch();
    }

    method Consume(n: nat)
      modifies this
      ensures View() == Polled(old(View()), n)
    {
      aStart := aStart + n;
      if aStart == aEnd {
        if bInUse {
          aStart, aEnd, bEnd, bInUse := 0, bEnd, 0, false;
        } else {
          aStart, aEnd := 0, 0;
        }
      }
      CheckForSwitch();
    }

    /** Where `size` new bytes can be written, clear of all bytes in the buffer. */
    method Request(size: nat) returns (at: Option<nat>)
      requires Valid()
      ensures at.Some? <==> size <= Room()
      ensures at.Some? ==> at.value == Offset(View()) && at.value + size <= data.Length
      ensures at.Some? ==> at.value + size <= aStart || (aEnd <= at.value && bEnd == 0)
    {
      if Room() < size {
        return None;
      }
      if bInUse {
        return Some(bEnd);
      }
      return Some(aEnd);
    }

    /** Takes in the bytes written where they were requested. */
    method Push(size: nat) returns (n: nat)
      requires Valid()
      modifies this
      ensures Valid()
      ensures n == if size <= old(Room()) then size else 0
      ensures size <= old(Room()) ==>
                && View() == Pushed(old(View()), size)
                && Queue() == old(Queue()) + data[old(Offset(View()))..old(Offset(View())) + size]
      ensures size > old(Room()) ==> View() == old(View())
    {
      hide Contents, Pushed;
      if Room() < size {
        return 0;
      }
      PushAppends(View(), size);
      Advance(size);
      return size;
    }

    method Copy(at: nat, d: seq<byte>)
      requires at + |d| <= data.Length
      modifies data
      ensures data[..] == old(data[..at]) + d + old(data[at + |d|..])
    {
      ghost var was := data[..];
      for i := 0 to |d|
        invariant data[..] == was[..at] + d[..i] + was[at + i..]
      {
        data[at + i] := d[i];
      }
    }

    /** Appends the bytes if there is room for all of them. */
    method Offer(d: seq<byte>) returns (n: nat)
      requires Valid()
      modifies this, data
      ensures Valid()
      ensures n == if |d| <= old(Room()) then |d| else 0
      ensures |d| <= old(Room()) ==> Queue() == old(Queue()) + d && View() == Pushed(Written(old(View()), d), |d|)
      ensures |d| > old(Room()) ==> View() == old(View())
    {
      hide Contents, Pushed;
      if Room() < |d| {
        return 0;
      }
      OfferAppends(View(), d);
      Copy(if bInUse then bEnd else aEnd, d);
      assert View() == Written(old(View()), d);
      Advance(|d|);
      return |d|;
    }

    /** The start of region A, if there are bytes and the store reaches that far. */
    method Peek(size: nat) returns (at: Option<nat>)
      requires Valid()
      ensures at.Some? <==> Queue() != [] && aStart + size <= data.Length
      ensures at.Some? ==> at.value == aStart
      ensures at.Some? && size <= aEnd - aStart ==> data[at.value..at.value + size] == Queue()[..size]
    {
      if data.Length < aStart + size {
        return None;
      }
      if IsEmpty() {
        return None;
      }
      if size <= aEnd - aStart {
        Front(View(), size);
      }
      return Some(aStart);
    }

    /** All of region A. */
    method PeekAll() returns (at: Option<nat>, size: nat)
      requires Valid()
      ensures at.Some? <==> Queue() != []
      ensures at.Some? ==> at.value == aStart && size == aEnd - aStart && 0 < size <= |Queue()|
      ensures at.Some? ==> data[at.value..at.value + size] == Queue()[..size]
    {
      if IsEmpty() {
        return None, 0;
      }
      Front(View(), aEnd - aStart);
      return Some(aStart), aEnd - aStart;
    }

    /** Removes bytes from the front, if there are any and the store reaches that far; they can still be
        read where they are.  The buffer stays sound exactly if these were bytes of region A. */
    method Poll(size: nat) returns (at: Option<nat>)
      requires Valid()
      modifies this
      ensures at.Some? <==> old(Queue()) != [] && old(aStart) + size <= data.Length
      ensures at.None? ==> View() == old(View())
      ensures at.Some? ==> View() == Polled(old(View()), size)
      ensures Valid() <==> at.None? || size <= old(aEnd) - old(aStart)
      ensures at.Some? && Valid() ==>
                && size <= |old(Queue())| && Queue() == old(Queue())[size..]
                && at.value + size <= data.Length && data[at.value..at.value + size] == old(Queue())[..size]
    {
      hide Contents, Polled;
      if IsEmpty() {
        return None;
      }
      if data.Length < aStart + size {
        return None;
      }
      PollSoundIff(View(), size);
      if size <= aEnd - aStart {
        PollDrops(View(), size);
        Front(View(), size);
      }
      var end := aStart;
      Consume(size);
      return Some(end);
    }
  }
}
