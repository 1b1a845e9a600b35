/** The table-driven CRC: slicing by eight on a little-endian machine, and its byte-swapped twin
    for a big-endian one.  A 64-bit register is a pair of 32-bit halves. */
module CrcSw {
  import opened Common
  import opened Words
  import opened CrcSpec

  /** Row `k` of the tables holds every byte followed by `k + 1` zero bytes. */
  function Entry(k: nat, b: byte): Word {
    Zeros(OfByte(b), 8 * (k + 1))
  }

  // ----- One byte through table 0

  /** `m` ends in at least `n` one bits. */
  predicate EndsInOnes(m: Word, n: nat)
    decreases n
  {
    n == 0 || (Odd(m) && EndsInOnes(Half(m), n - 1))
  }

  lemma LowByteMask()
    ensures EndsInOnes(Word(0xff), 8)
  {
    assert EndsInOnes(Word(0xf), 4);
    assert EndsInOnes(Word(0x3f), 6);
  }

  lemma MaskedHalf(w: Word, m: Word)
    requires And(w, m) == Zero
    ensures And(Half(w), Half(m)) == Zero
  {}

  lemma MaskedOdd(w: Word, m: Word)
    requires And(w, m) == Zero && Odd(m)
    ensures !Odd(w)
  {}

  /** Zeros fed over clear low bits only shift. */
  lemma {:induction false} ZerosWhenClear(w: Word, m: Word, n: nat)
    requires And(w, m) == Zero && EndsInOnes(m, n)
    ensures Zeros(w, n) == Halves(w, n)
    decreases n
  {
    hide Odd, Half, And, Xor;
    if n > 0 {
      MaskedHalf(w, m);
      MaskedOdd(w, m);
      ZerosWhenClear(Half(w), Half(m), n - 1);
    }
  }

  lemma HighBytesClear(w: Word)
    ensures And(HighBytes(w), Word(0xff)) == Zero
  {}

  lemma ShiftHighBytes(w: Word)
    ensures ShiftByte(HighBytes(w)) == ShiftByte(w)
  {}

  /** Eight zero bits: the low byte goes through the table, the rest moves down. */
  lemma ZerosByTable(w: Word)
    ensures Zeros(w, 8) == Xor(Entry(0, LowByte(w)), ShiftByte(w))
  {
    hide Odd, Half, And, Xor, LowByte, ShiftByte, HighBytes, Zeros, Halves;
    SplitLowByte(w);
    ZerosLinear(OfByte(LowByte(w)), HighBytes(w), 8);
    LowByteMask();
    HighBytesClear(w);
    ZerosWhenClear(HighBytes(w), Word(0xff), 8);
    Halves8(HighBytes(w));
    EightHalves(HighBytes(w));
    ShiftHighBytes(w);
  }

  /** The one-byte update of the code is one byte of the reference CRC. */
  lemma ByteByTable(c: Word, b: byte)
    ensures FeedByte(c, b) == Xor(Entry(0, LowByte(Xor(c, OfByte(b)))), ShiftByte(c))
  {
    hide *;
    FeedByteIsZeros(c, b);
    ZerosByTable(Xor(c, OfByte(b)));
    ShiftByteXor(c, b);
  }

  lemma EntryNext(k: nat, b: byte)
    ensures Zeros(Entry(k, b), 8) == Entry(k + 1, b)
  {
    ZerosCompose(OfByte(b), 8 * (k + 1), 8);
  }

  // ----- Eight bytes through eight tables

  function ShiftBytes(c: Word, k: nat): Word {
    if k == 0 then c else ShiftByte(ShiftBytes(c, k - 1))
  }

  /** The message bytes with the register's own bytes added to the first four. */
  function Absorbed(c: Word, s: seq<byte>): (xs: seq<byte>)
    ensures |xs| == |s|
    ensures forall k :: 0 <= k < |s| ==> xs[k] == LowByte(Xor(ShiftBytes(c, k), OfByte(s[k])))
  {
    seq(|s|, k requires 0 <= k < |s| => LowByte(Xor(ShiftBytes(c, k), OfByte(s[k]))))
  }

  /** One byte into a register split in two: one half takes the byte, the other moves down. */
  lemma FeedSplit(a: Word, r: Word, b: byte)
    ensures FeedByte(Xor(a, r), b) == Xor(FeedByte(a, LowByte(Xor(r, OfByte(b)))), ShiftByte(r))
  {
    hide *;
    var x := Xor(r, OfByte(b));
    var e := OfByte(LowByte(x));
    FeedByteIsZeros(Xor(a, r), b);
    XorAssoc(a, r, OfByte(b));
    ZerosLinear(a, x, 8);
    ZerosByTable(x);
    EntryZero(LowByte(x));
    ShiftByteXor(r, b);
    XorAssoc(Zeros(a, 8), Zeros(e, 8), ShiftByte(r));
    ZerosLinear(a, e, 8);
    FeedByteIsZeros(a, LowByte(x));
  }

  lemma EntryZero(b: byte)
    ensures Entry(0, b) == Zeros(OfByte(b), 8)
  {}

  lemma ShiftBytesStep(c: Word, k: nat)
    ensures ShiftBytes(c, k) == if k == 0 then c else ShiftByte(ShiftBytes(c, k - 1))
  {}

  lemma {:induction false} FeedAbsorbed(c: Word, s: seq<byte>, k: nat)
    requires k <= |s|
    ensures Feed(c, s[..k]) == Xor(Feed(Zero, Absorbed(c, s)[..k]), ShiftBytes(c, k))
  {
    hide *;
    var xs := Absorbed(c, s);
    ShiftBytesStep(c, k);
    if k == 0 {
      assert s[..0] == [] && xs[..0] == [];
      FeedNothing(c, [], 0);
      FeedNothing(Zero, [], 0);
      XorZero(c);
    } else {
      FeedAbsorbed(c, s, k - 1);
      ExtendByte(c, s, k - 1);
      ExtendByte(Zero, xs, k - 1);
      FeedSplit(Feed(Zero, xs[..k - 1]), ShiftBytes(c, k - 1), s[k - 1]);
    }
  }

  lemma RegisterGone(c: Word)
    ensures ShiftBytes(c, 8) == Zero
  {
    hide ShiftByte;
    assert ShiftBytes(c, 1) == ShiftByte(c);
    assert ShiftBytes(c, 2) == ShiftByte(ShiftByte(c));
    assert ShiftBytes(c, 4) == ShiftByte(ShiftByte(ShiftByte(ShiftByte(c))));
    assert ShiftBytes(c, 6) == ShiftByte(ShiftByte(ShiftBytes(c, 4)));
    FourShifts(c);
    FourShifts(Zero);
  }

  lemma FourShifts(c: Word)
    ensures ShiftByte(ShiftByte(ShiftByte(ShiftByte(c)))) == Zero
  {
    hide *;
    TwoBytes(c);
    TwoBytes(ShiftTwoBytes(c));
    FourBytesGone(c);
  }

  /** The sum of table entries for the bytes of a message that starts from zero. */
  function Slices(xs: seq<byte>, n: nat): Word {
    if xs == [] then Zero
    else Xor(Slices(xs[..|xs| - 1], n + 1), Entry(n, xs[|xs| - 1]))
  }

  lemma {:induction false} FeedIsSlices(xs: seq<byte>, n: nat)
    ensures Zeros(Feed(Zero, xs), 8 * n) == Slices(xs, n)
    decreases |xs|
  {
    hide FeedByte, Xor, OfByte, Zeros;
    if xs == [] {
      ZerosOfZero(8 * n);
    } else {
      var f, b := xs[..|xs| - 1], xs[|xs| - 1];
      FeedIsSlices(f, n + 1);
      FeedByteIsZeros(Feed(Zero, f), b);
      ZerosCompose(Xor(Feed(Zero, f), OfByte(b)), 8, 8 * n);
      ZerosLinear(Feed(Zero, f), OfByte(b), 8 * (n + 1));
    }
  }

  /** Eight bytes at once: each byte, with the register added in, through its own table. */
  lemma FeedEight(c: Word, s: seq<byte>)
    requires |s| == 8
    ensures Feed(c, s) == Slices(Absorbed(c, s), 0)
  {
    hide Feed, FeedByte, Xor, Slices, ShiftBytes;
    var xs := Absorbed(c, s);
    FeedAbsorbed(c, s, 8);
    assert s[..8] == s && xs[..8] == xs;
    RegisterGone(c);
    XorZero(Feed(Zero, xs));
    FeedIsSlices(xs, 0);
  }

  // ----- The 64-bit register

  datatype DWord = DWord(lo: Word, hi: Word)

  function LoadLittle(s: seq<byte>): DWord
    requires |s| == 8
  {
    DWord(Load4(s[0], s[1], s[2], s[3]), Load4(s[4], s[5], s[6], s[7]))
  }

  function LoadBig(s: seq<byte>): DWord
    requires |s| == 8
  {
    DWord(Load4(s[7], s[6], s[5], s[4]), Load4(s[3], s[2], s[1], s[0]))
  }

  function XorD(a: DWord, b: DWord): DWord {
    DWord(Xor(a.lo, b.lo), Xor(a.hi, b.hi))
  }

  /** Byte `i` of the register, as `(crcw >> (8 * i)) & 0xff`. */
  function RegByte(w: DWord, i: nat): byte
    requires i < 8
  {
    if i < 4 then ByteAt(w.lo, i) else ByteAt(w.hi, i - 4)
  }

  lemma ShiftByteLinear(a: Word, b: Word)
    ensures ShiftByte(Xor(a, b)) == Xor(ShiftByte(a), ShiftByte(b))
  {}

  lemma {:induction false} ShiftBytesLinear(a: Word, b: Word, k: nat)
    ensures ShiftBytes(Xor(a, b), k) == Xor(ShiftBytes(a, k), ShiftBytes(b, k))
  {
    hide ShiftByte, Xor;
    if k > 0 {
      ShiftBytesLinear(a, b, k - 1);
      ShiftByteLinear(ShiftBytes(a, k - 1), ShiftBytes(b, k - 1));
    }
  }

  lemma PlacedDown(b: byte)
    ensures ShiftByte(Placed(b, 1)) == OfByte(b)
    ensures ShiftByte(Placed(b, 2)) == Placed(b, 1)
    ensures ShiftByte(Placed(b, 3)) == Placed(b, 2)
    ensures Placed(0, 3) == Zero
  {}

  lemma LoadDown(b0: byte, b1: byte, b2: byte, b3: byte)
    ensures ShiftByte(Load4(b0, b1, b2, b3)) == Load4(b1, b2, b3, 0)
  {
    hide ShiftByte, Xor, Placed, OfByte;
    var p1, p2, p3 := Placed(b1, 1), Placed(b2, 2), Placed(b3, 3);
    ShiftByteLinear(OfByte(b0), Xor(p1, Xor(p2, p3)));
    ShiftByteLinear(p1, Xor(p2, p3));
    ShiftByteLinear(p2, p3);
    ByteIsSmall(b0);
    PlacedDown(b1);
    PlacedDown(b2);
    PlacedDown(b3);
    PlacedDown(0);
    XorZero(Xor(OfByte(b1), Xor(Placed(b2, 1), Placed(b3, 2))));
    XorZero(Placed(b3, 2));
  }

  lemma ByteAtShift(w: Word, k: nat)
    requires k < 4
    ensures ByteAt(w, k) == LowByte(ShiftBytes(w, k))
  {
    assert ShiftBytes(w, 1) == ShiftByte(w);
    assert ShiftBytes(w, 2) == ShiftByte(ShiftByte(w));
    assert ShiftBytes(w, 3) == ShiftByte(ShiftByte(ShiftByte(w)));
    TwoBytes(w);
    ThreeBytes(w);
  }

  lemma ThreeBytes(w: Word)
    ensures ShiftByte(ShiftTwoBytes(w)) == Word(w.bits >> 24)
  {}

  lemma LowByteIgnoresRest(a: Word, r: Word)
    requires And(r, Word(0xff)) == Zero
    ensures LowByte(Xor(a, r)) == LowByte(a)
  {}

  lemma PlacedClear(b1: byte, b2: byte, b3: byte)
    ensures And(Xor(Placed(b1, 1), Xor(Placed(b2, 2), Placed(b3, 3))), Word(0xff)) == Zero
  {}

  lemma LowByteOfLoad(a: Word, b0: byte, b1: byte, b2: byte, b3: byte)
    ensures LowByte(Xor(a, Load4(b0, b1, b2, b3))) == LowByte(Xor(a, OfByte(b0)))
  {
    hide LowByte, Xor, Placed, OfByte, And;
    var r := Xor(Placed(b1, 1), Xor(Placed(b2, 2), Placed(b3, 3)));
    XorAssoc(a, OfByte(b0), r);
    PlacedClear(b1, b2, b3);
    LowByteIgnoresRest(Xor(a, OfByte(b0)), r);
  }

  /** A byte of register plus loaded word is the register's byte plus the message byte. */
  lemma ByteOfSum(c: Word, s: seq<byte>, k: nat)
    requires |s| == 4 && k < 4
    ensures ByteAt(Xor(c, Load4(s[0], s[1], s[2], s[3])), k) == LowByte(Xor(ShiftBytes(c, k), OfByte(s[k])))
  {
    var l := Load4(s[0], s[1], s[2], s[3]);
    hide *;
    ShiftBytesStep(l, 0);
    ShiftBytesStep(l, 1);
    ShiftBytesStep(l, 2);
    ShiftBytesStep(l, 3);
    ByteAtShift(Xor(c, l), k);
    ShiftBytesLinear(c, l, k);
    var a := ShiftBytes(c, k);
    LoadDown(s[0], s[1], s[2], s[3]);
    if k == 0 {
      LowByteOfLoad(a, s[0], s[1], s[2], s[3]);
    } else if k == 1 {
      LowByteOfLoad(a, s[1], s[2], s[3], 0);
    } else if k == 2 {
      LoadDown(s[1], s[2], s[3], 0);
      LowByteOfLoad(a, s[2], s[3], 0, 0);
    } else {
      LoadDown(s[1], s[2], s[3], 0);
      LoadDown(s[2], s[3], 0, 0);
      LowByteOfLoad(a, s[3], 0, 0, 0);
    }
  }

  lemma {:induction false} ShiftBytesZero(c: Word, k: nat)
    requires k >= 4
    ensures ShiftBytes(c, k) == Zero && ShiftBytes(Zero, k - 4) == Zero
  {
    hide ShiftByte;
    assert ShiftByte(Zero) == Zero by {
      ByteIsSmall(0);
      OfZero();
    }
    if k == 4 {
      FourShifts(c);
      assert ShiftBytes(c, 2) == ShiftByte(ShiftByte(ShiftBytes(c, 0)));
    } else {
      ShiftBytesZero(c, k - 1);
    }
  }

  lemma OfZero()
    ensures OfByte(0) == Zero
  {}

  /** The register with eight little-endian bytes added in holds the absorbed bytes in order. */
  lemma LittleBytes(c: Word, s: seq<byte>, i: nat)
    requires |s| == 8 && i < 8
    ensures RegByte(XorD(DWord(c, Zero), LoadLittle(s)), i) == Absorbed(c, s)[i]
  {
    hide Xor, ByteAt, Load4, LowByte, ShiftBytes, OfByte;
    if i < 4 {
      ByteOfSum(c, s[..4], i);
    } else {
      ByteOfSum(Zero, s[4..], i - 4);
      ShiftBytesZero(c, i);
    }
  }

  // ----- Byte order

  /** The byte swap within a 32-bit half: neighbouring bytes, then the two 16-bit parts. */
  function Reverse(w: Word): Word {
    var x := ((w.bits << 8) & 0xff00_ff00) | ((w.bits >> 8) & 0x00ff_00ff);
    Word((x << 16) | (x >> 16))
  }

  function Swap(d: DWord): DWord {
    DWord(Reverse(d.hi), Reverse(d.lo))
  }

  lemma ReverseTwice(w: Word)
    ensures Reverse(Reverse(w)) == w
  {}

  lemma ReverseLinear(a: Word, b: Word)
    ensures Reverse(Xor(a, b)) == Xor(Reverse(a), Reverse(b))
  {}

  lemma ReverseZero()
    ensures Reverse(Zero) == Zero
  {}

  lemma ReversePlaced(b: byte)
    ensures Reverse(OfByte(b)) == Placed(b, 3)
    ensures Reverse(Placed(b, 1)) == Placed(b, 2)
  {}

  lemma ReverseByte0(w: Word)
    ensures ByteAt(Reverse(w), 3) == ByteAt(w, 0)
  {}

  lemma ReverseByte1(w: Word)
    ensures ByteAt(Reverse(w), 2) == ByteAt(w, 1)
  {}

  lemma ReverseBytes(w: Word, k: nat)
    requires k < 4
    ensures ByteAt(Reverse(w), 3 - k) == ByteAt(w, k)
  {
    hide ByteAt, Reverse;
    ReverseByte0(w);
    ReverseByte1(w);
    ReverseTwice(w);
    ReverseByte0(Reverse(w));
    ReverseByte1(Reverse(w));
  }

  lemma ReverseLoad(b0: byte, b1: byte, b2: byte, b3: byte)
    ensures Reverse(Load4(b0, b1, b2, b3)) == Load4(b3, b2, b1, b0)
  {
    hide Xor, Placed, OfByte, Reverse;
    var p0, p1, p2, p3 := OfByte(b0), Placed(b1, 1), Placed(b2, 2), Placed(b3, 3);
    ReverseLinear(p0, Xor(p1, Xor(p2, p3)));
    ReverseLinear(p1, Xor(p2, p3));
    ReverseLinear(p2, p3);
    ReversePlaced(b0);
    ReversePlaced(b1);
    ReversePlaced(b2);
    ReversePlaced(b3);
    ReverseTwice(Placed(b2, 1));
    ReverseTwice(OfByte(b3));
    FlipFour(Reverse(p3), Reverse(p2), Reverse(p1), Reverse(p0));
  }

  lemma FlipFour(a: Word, b: Word, c: Word, d: Word)
    ensures Xor(d, Xor(c, Xor(b, a))) == Xor(a, Xor(b, Xor(c, d)))
  {
    hide Xor;
    XorComm(d, Xor(c, Xor(b, a)));
    XorComm(c, Xor(b, a));
    XorAssoc(Xor(b, a), c, d);
    XorComm(b, a);
    XorAssoc(a, b, Xor(c, d));
  }

  /** The swapped register with eight big-endian bytes added in holds the absorbed bytes from the
      top down. */
  lemma BigBytes(c: Word, s: seq<byte>, i: nat)
    requires |s| == 8 && i < 8
    ensures RegByte(XorD(Swap(DWord(c, Zero)), LoadBig(s)), 7 - i) == Absorbed(c, s)[i]
  {
    hide Xor, ByteAt, Load4, LowByte, ShiftBytes, OfByte, Reverse;
    var l0, l1 := Load4(s[0], s[1], s[2], s[3]), Load4(s[4], s[5], s[6], s[7]);
    ReverseLoad(s[0], s[1], s[2], s[3]);
    ReverseLoad(s[4], s[5], s[6], s[7]);
    ReverseLinear(c, l0);
    ReverseLinear(Zero, l1);
    if i < 4 {
      ByteOfSum(c, s[..4], i);
      ReverseBytes(Xor(c, l0), i);
    } else {
      ByteOfSum(Zero, s[4..], i - 4);
      ReverseBytes(Xor(Zero, l1), i - 4);
      ShiftBytesZero(c, i);
    }
  }

  // ----- Tables

  ghost predicate LittleTables(t: array2<Word>)
    reads t
  {
    t.Length0 == 8 && t.Length1 == 256 && forall k: nat, b: byte | k < 8 :: t[k, b] == Entry(k, b)
  }

  /** The eight bit steps that both table builders spell out. */
  method ByteEntry(n: byte) returns (crc: Word)
    ensures crc == Entry(0, n)
  {
    crc := OfByte(n);
    assert Zeros(crc, 8) == Zeros(BitStep(BitStep(crc)), 6);
    crc := BitStep(crc);
    crc := BitStep(crc);
    assert Zeros(crc, 6) == Zeros(BitStep(BitStep(crc)), 4);
    crc := BitStep(crc);
    crc := BitStep(crc);
    assert Zeros(crc, 4) == Zeros(BitStep(BitStep(crc)), 2);
    crc := BitStep(crc);
    crc := BitStep(crc);
    assert Zeros(crc, 2) == BitStep(BitStep(crc));
    crc := BitStep(crc);
    crc := BitStep(crc);
  }

  lemma NextEntry(k: nat, n: byte, crc: Word)
    requires crc == Entry(k, n)
    ensures Xor(Entry(0, LowByte(crc)), ShiftByte(crc)) == Entry(k + 1, n)
  {
    hide *;
    ZerosByTable(crc);
    EntryNext(k, n);
  }

  method InitLittle() returns (t: array2<Word>)
    ensures fresh(t) && LittleTables(t)
  {
    hide Entry, Xor, LowByte, ShiftByte;
    t := new Word[8, 256];
    var n := 0;
    while n < 256
      invariant n <= 256
      invariant forall b: byte | b as int < n :: t[0, b] == Entry(0, b)
    {
      t[0, n] := ByteEntry(n as byte);
      n := n + 1;
    }
    n := 0;
    while n < 256
      invariant n <= 256
      invariant forall b: byte :: t[0, b] == Entry(0, b)
      invariant forall k: nat, b: byte | k < 8 && b as int < n :: t[k, b] == Entry(k, b)
    {
      var crc := t[0, n];
      var k := 1;
      while k < 8
        invariant 1 <= k <= 8 && crc == Entry(k - 1, n as byte)
        invariant forall b: byte :: t[0, b] == Entry(0, b)
        invariant forall j: nat, b: byte | j < 8 && b as int < n :: t[j, b] == Entry(j, b)
        invariant forall j: nat | j < k :: t[j, n] == Entry(j, n as byte)
      {
        NextEntry(k - 1, n as byte, crc);
        crc := Xor(t[0, LowByte(crc)], ShiftByte(crc));
        t[k, n] := crc;
        k := k + 1;
      }
      n := n + 1;
    }
  }

  ghost predicate BigTables(byteTable: array<Word>, t: array2<DWord>)
    reads byteTable, t
  {
    && byteTable.Length == 256 && t.Length0 == 8 && t.Length1 == 256
    && (forall b: byte :: byteTable[b] == Entry(0, b))
    && forall k: nat, b: byte | k < 8 :: t[k, b] == Swap(DWord(Entry(k, b), Zero))
  }

  method InitBig() returns (byteTable: array<Word>, t: array2<DWord>)
    ensures fresh(byteTable) && fresh(t) && BigTables(byteTable, t)
  {
    hide Entry, Xor, LowByte, ShiftByte, Swap;
    byteTable := new Word[256];
    t := new DWord[8, 256];
    var n := 0;
    while n < 256
      invariant n <= 256
      invariant forall b: byte | b as int < n :: byteTable[b] == Entry(0, b)
    {
      byteTable[n] := ByteEntry(n as byte);
      n := n + 1;
    }
    n := 0;
    while n < 256
      invariant n <= 256
      invariant forall b: byte :: byteTable[b] == Entry(0, b)
      invariant forall k: nat, b: byte | k < 8 && b as int < n :: t[k, b] == Swap(DWord(Entry(k, b), Zero))
    {
      var crc := byteTable[n];
      t[0, n] := Swap(DWord(crc, Zero));
      var k := 1;
      while k < 8
        invariant 1 <= k <= 8 && crc == Entry(k - 1, n as byte)
        invariant forall b: byte :: byteTable[b] == Entry(0, b)
        invariant forall j: nat, b: byte | j < 8 && b as int < n :: t[j, b] == Swap(DWord(Entry(j, b), Zero))
        invariant forall j: nat | j < k :: t[j, n] == Swap(DWord(Entry(j, n as byte), Zero))
      {
        NextEntry(k - 1, n as byte, crc);
        crc := Xor(byteTable[LowByte(crc)], ShiftByte(crc));
        t[k, n] := Swap(DWord(crc, Zero));
        k := k + 1;
      }
      n := n + 1;
    }
  }

  // ----- The two functions

  lemma SliceStep(xs: seq<byte>, k: nat, n: nat)
    requires 0 < k <= |xs|
    ensures Slices(xs[..k], n) == Xor(Slices(xs[..k - 1], n + 1), Entry(n, xs[k - 1]))
  {
    assert xs[..k][..k - 1] == xs[..k - 1];
  }

  /** The sum of eight entries in the order of the little-endian code. */
  function SumDown(e7: Word, e6: Word, e5: Word, e4: Word, e3: Word, e2: Word, e1: Word, e0: Word): Word {
    Xor(Xor(Xor(Xor(Xor(Xor(Xor(e7, e6), e5), e4), e3), e2), e1), e0)
  }

  lemma SlicesDown(xs: seq<byte>)
    requires |xs| == 8
    ensures Slices(xs, 0) == SumDown(Entry(7, xs[0]), Entry(6, xs[1]), Entry(5, xs[2]), Entry(4, xs[3]),
                                     Entry(3, xs[4]), Entry(2, xs[5]), Entry(1, xs[6]), Entry(0, xs[7]))
  {
    NoSlices(xs);
    hide Slices, Entry, Xor;
    SliceStep(xs, 1, 7);
    SliceStep(xs, 2, 6);
    SliceStep(xs, 3, 5);
    SliceStep(xs, 4, 4);
    SliceStep(xs, 5, 3);
    SliceStep(xs, 6, 2);
    SliceStep(xs, 7, 1);
    SliceStep(xs, 8, 0);
    XorZero(Entry(7, xs[0]));
    assert xs[..8] == xs;
  }

  lemma NoSlices(xs: seq<byte>)
    ensures Slices(xs[..0], 8) == Zero
  {}

  /** One round of the little-endian inner loop. */
  method SlicesLittle(t: array2<Word>, crcw: DWord, ghost xs: seq<byte>) returns (z: Word)
    requires LittleTables(t) && |xs| == 8 && forall i :: 0 <= i < 8 ==> xs[i] == RegByte(crcw, i)
    ensures z == Slices(xs, 0)
  {
    hide Slices, Entry, Xor, RegByte, SumDown;
    SlicesDown(xs);
    z := SumDown(t[7, RegByte(crcw, 0)], t[6, RegByte(crcw, 1)], t[5, RegByte(crcw, 2)], t[4, RegByte(crcw, 3)],
      t[3, RegByte(crcw, 4)], t[2, RegByte(crcw, 5)], t[1, RegByte(crcw, 6)], t[0, RegByte(crcw, 7)]);
  }

  lemma SwapSum(a: Word, b: Word)
    ensures XorD(Swap(DWord(a, Zero)), Swap(DWord(b, Zero))) == Swap(DWord(Xor(a, b), Zero))
  {
    hide Xor, Reverse;
    ReverseLinear(a, b);
    ReverseZero();
    XorZero(Zero);
  }

  lemma GatherStep(xs: seq<byte>, j: nat, n: nat, g: Word, e: Word)
    requires 0 < j <= |xs| && e == Entry(n, xs[j - 1])
    ensures Xor(Slices(xs[..j - 1], n + 1), Xor(g, e)) == Xor(Slices(xs[..j], n), g)
  {
    hide *;
    SliceStep(xs, j, n);
    XorAssoc(Slices(xs[..j - 1], n + 1), e, g);
    XorComm(g, e);
  }

  /** The sum of eight entries in the order of the big-endian code. */
  function SumUp(e0: DWord, e1: DWord, e2: DWord, e3: DWord, e4: DWord, e5: DWord, e6: DWord, e7: DWord): DWord {
    XorD(XorD(XorD(XorD(XorD(XorD(XorD(e0, e1), e2), e3), e4), e5), e6), e7)
  }

  function SwapEntry(k: nat, b: byte): DWord {
    Swap(DWord(Entry(k, b), Zero))
  }

  lemma SlicesUp(xs: seq<byte>)
    requires |xs| == 8
    ensures Swap(DWord(Slices(xs, 0), Zero))
         == SumUp(SwapEntry(0, xs[7]), SwapEntry(1, xs[6]), SwapEntry(2, xs[5]), SwapEntry(3, xs[4]),
                  SwapEntry(4, xs[3]), SwapEntry(5, xs[2]), SwapEntry(6, xs[1]), SwapEntry(7, xs[0]))
  {
    NoSlices(xs);
    hide Slices, Entry, Xor, XorD, Swap;
    SliceStep(xs, 8, 0);
    var g := Entry(0, xs[7]);
    GatherStep(xs, 7, 1, g, Entry(1, xs[6]));
    SwapSum(g, Entry(1, xs[6]));
    g := Xor(g, Entry(1, xs[6]));
    GatherStep(xs, 6, 2, g, Entry(2, xs[5]));
    SwapSum(g, Entry(2, xs[5]));
    g := Xor(g, Entry(2, xs[5]));
    GatherStep(xs, 5, 3, g, Entry(3, xs[4]));
    SwapSum(g, Entry(3, xs[4]));
    g := Xor(g, Entry(3, xs[4]));
    GatherStep(xs, 4, 4, g, Entry(4, xs[3]));
    SwapSum(g, Entry(4, xs[3]));
    g := Xor(g, Entry(4, xs[3]));
    GatherStep(xs, 3, 5, g, Entry(5, xs[2]));
    SwapSum(g, Entry(5, xs[2]));
    g := Xor(g, Entry(5, xs[2]));
    GatherStep(xs, 2, 6, g, Entry(6, xs[1]));
    SwapSum(g, Entry(6, xs[1]));
    g := Xor(g, Entry(6, xs[1]));
    GatherStep(xs, 1, 7, g, Entry(7, xs[0]));
    SwapSum(g, Entry(7, xs[0]));
    g := Xor(g, Entry(7, xs[0]));
    XorZero(g);
    assert xs[..8] == xs;
  }

  /** One round of the big-endian inner loop, which adds the tables up in the opposite order. */
  method SlicesBig(byteTable: array<Word>, t: array2<DWord>, crcw: DWord, ghost xs: seq<byte>) returns (z: DWord)
    requires BigTables(byteTable, t) && |xs| == 8 && forall i :: 0 <= i < 8 ==> xs[7 - i] == RegByte(crcw, i)
    ensures z == Swap(DWord(Slices(xs, 0), Zero))
  {
    hide Slices, Entry, Xor, Swap, RegByte, SumUp;
    SlicesUp(xs);
    z := SumUp(t[0, RegByte(crcw, 0)], t[1, RegByte(crcw, 1)], t[2, RegByte(crcw, 2)], t[3, RegByte(crcw, 3)],
      t[4, RegByte(crcw, 4)], t[5, RegByte(crcw, 5)], t[6, RegByte(crcw, 6)], t[7, RegByte(crcw, 7)]);
  }

  /** For every start value, buffer and buffer address, slicing by eight is the bitwise CRC. */
  method Crc32cSwLittle(crc: Word, addr: nat, buf: seq<byte>) returns (r: Word)
    ensures r == Crc(crc, buf)
  {
    var t := InitLittle();
    var start := Not(crc);
    FeedNothing(start, [], 0);
    assert buf[..0] == [];
    hide LittleTables, Feed, Not;
    var c, next := ByteLoop(t, start, addr, buf, start, 0, true);
    c, next := WordLoopLittle(t, start, buf, c, next);
    c, next := ByteLoop(t, start, addr, buf, c, next, false);
    assert buf[..next] == buf;
    r := Not(c);
  }

  /** The byte loop, up to an eight-byte boundary or, without `align`, to the end. */
  method ByteLoop(t: array2<Word>, start: Word, addr: nat, buf: seq<byte>, crc: Word, from: nat, align: bool)
    returns (c: Word, next: nat)
    requires LittleTables(t) && from <= |buf| && crc == Feed(start, buf[..from])
    ensures from <= next <= |buf| && c == Feed(start, buf[..next])
    ensures next == |buf| || (align && (addr + next) % 8 == 0)
  {
    hide Entry, Xor, LowByte, ShiftByte, OfByte, Feed, FeedByte;
    c, next := crc, from;
    while next < |buf| && !(align && (addr + next) % 8 == 0)
      invariant from <= next <= |buf| && c == Feed(start, buf[..next])
    {
      ByteByTable(c, buf[next]);
      ExtendByte(start, buf, next);
      c := Xor(t[0, LowByte(Xor(c, OfByte(buf[next])))], ShiftByte(c));
      next := next + 1;
    }
  }

  method WordLoopLittle(t: array2<Word>, start: Word, buf: seq<byte>, crc: Word, from: nat)
    returns (c: Word, next: nat)
    requires LittleTables(t) && from <= |buf| && crc == Feed(start, buf[..from])
    ensures from <= next <= |buf| && c == Feed(start, buf[..next]) && |buf| - next < 8
  {
    hide LittleTables, Feed, XorD, LoadLittle, RegByte, Slices, Absorbed;
    c, next := crc, from;
    while |buf| - next >= 8
      invariant from <= next <= |buf| && c == Feed(start, buf[..next])
    {
      ghost var s := buf[next..next + 8];
      var crcw := XorD(DWord(c, Zero), LoadLittle(buf[next..next + 8]));
      forall i | 0 <= i < 8
        ensures RegByte(crcw, i) == Absorbed(c, s)[i]
      {
        LittleBytes(c, s, i);
      }
      FeedEight(c, s);
      Join(start, buf, next, next + 8);
      c := SlicesLittle(t, crcw, Absorbed(c, s));
      next := next + 8;
    }
  }

  /** The byte loop over the big-endian build's own byte table. */
  method ByteLoopBig(byteTable: array<Word>, t: array2<DWord>, start: Word, addr: nat, buf: seq<byte>, crc: Word,
                     from: nat, align: bool)
    returns (c: Word, next: nat)
    requires BigTables(byteTable, t) && from <= |buf| && crc == Feed(start, buf[..from])
    ensures from <= next <= |buf| && c == Feed(start, buf[..next])
    ensures next == |buf| || (align && (addr + next) % 8 == 0)
  {
    hide Entry, Xor, LowByte, ShiftByte, OfByte, Feed, FeedByte, Swap;
    c, next := crc, from;
    while next < |buf| && !(align && (addr + next) % 8 == 0)
      invariant from <= next <= |buf| && c == Feed(start, buf[..next])
    {
      ByteByTable(c, buf[next]);
      ExtendByte(start, buf, next);
      c := Xor(byteTable[LowByte(Xor(c, OfByte(buf[next])))], ShiftByte(c));
      next := next + 1;
    }
  }

  lemma SwapBack(c: Word)
    ensures Swap(Swap(DWord(c, Zero))) == DWord(c, Zero)
  {
    hide Reverse;
    ReverseTwice(c);
    ReverseTwice(Zero);
  }

  method WordLoopBig(byteTable: array<Word>, t: array2<DWord>, start: Word, buf: seq<byte>, crc: Word, from: nat)
    returns (c: Word, next: nat)
    requires BigTables(byteTable, t) && from <= |buf| && crc == Feed(start, buf[..from])
    ensures from <= next <= |buf| && c == Feed(start, buf[..next]) && |buf| - next < 8
  {
    hide BigTables, Feed, XorD, LoadBig, RegByte, Slices, Absorbed, Swap;
    c, next := crc, from;
    var crcw := Swap(DWord(c, Zero));
    while |buf| - next >= 8
      invariant from <= next <= |buf| && crcw == Swap(DWord(Feed(start, buf[..next]), Zero))
    {
      ghost var s, reg := buf[next..next + 8], Feed(start, buf[..next]);
      crcw := XorD(crcw, LoadBig(buf[next..next + 8]));
      forall i | 0 <= i < 8
        ensures RegByte(crcw, i) == Absorbed(reg, s)[7 - i]
      {
        BigBytes(reg, s, 7 - i);
      }
      FeedEight(reg, s);
      Join(start, buf, next, next + 8);
      crcw := SlicesBig(byteTable, t, crcw, Absorbed(reg, s));
      next := next + 8;
    }
    SwapBack(Feed(start, buf[..next]));
    c := Swap(crcw).lo;
  }

  /** For every start value, buffer and buffer address, the big-endian build computes the same CRC. */
  method Crc32cSwBig(crc: Word, addr: nat, buf: seq<byte>) returns (r: Word)
    ensures r == Crc(crc, buf)
  {
    var byteTable, t := InitBig();
    var start := Not(crc);
    FeedNothing(start, [], 0);
    assert buf[..0] == [];
    hide BigTables, Feed, Not;
    var c, next := ByteLoopBig(byteTable, t, start, addr, buf, start, 0, true);
    c, next := WordLoopBig(byteTable, t, start, buf, c, next);
    c, next := ByteLoopBig(byteTable, t, start, addr, buf, c, next, false);
    assert buf[..next] == buf;
    r := Not(c);
  }
}
