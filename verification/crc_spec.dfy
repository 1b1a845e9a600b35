/** 32-bit words as the CRC uses them.  The bits sit inside a datatype so that proofs about whole
    messages see words as values with a few algebraic laws, and only the lemmas of this module
    look at bits. */
module Words {
  import opened Common

  datatype Word = Word(bits: bv32)

  const Zero: Word := Word(0)

  function Xor(a: Word, b: Word): Word {
    Word(a.bits ^ b.bits)
  }

  function Not(a: Word): Word {
    Word(!a.bits)
  }

  function Half(a: Word): Word {
    Word(a.bits >> 1)
  }

  function Twice(a: Word): Word {
    Word(a.bits << 1)
  }

  function ShiftByte(a: Word): Word {
    Word(a.bits >> 8)
  }

  predicate Odd(a: Word) {
    a.bits & 1 == 1
  }

  function OfByte(b: byte): Word {
    Word((b as bv8) as bv32)
  }

  /** The low byte, as the C code's `& 0xff`. */
  function LowByte(a: Word): byte {
    ((a.bits & 0xff) as bv8) as byte
  }

  lemma XorAssoc(a: Word, b: Word, c: Word)
    ensures Xor(Xor(a, b), c) == Xor(a, Xor(b, c))
  {}

  lemma XorComm(a: Word, b: Word)
    ensures Xor(a, b) == Xor(b, a)
  {}

  lemma XorZero(a: Word)
    ensures Xor(a, Zero) == a && Xor(Zero, a) == a && Xor(a, a) == Zero
  {}

  lemma NotNot(a: Word)
    ensures Not(Not(a)) == a
  {}

  lemma HalfXor(a: Word, b: Word)
    ensures Half(Xor(a, b)) == Xor(Half(a), Half(b))
  {}

  lemma TwiceXor(a: Word, b: Word)
    ensures Twice(Xor(a, b)) == Xor(Twice(a), Twice(b))
  {}

  function LowBit(a: Word): Word {
    Word(a.bits & 1)
  }

  lemma LowBitIsOdd(a: Word)
    ensures LowBit(a) == if Odd(a) then Word(1) else Zero
  {}

  lemma LowBitAndRest(a: Word)
    ensures a == Xor(LowBit(a), Twice(Half(a)))
  {}

  lemma TwiceIsEven(a: Word)
    ensures !Odd(Twice(a))
  {}

  lemma HalfOfTwiceHalf(a: Word)
    ensures Half(Twice(Half(a))) == Half(a)
  {}

  /** A word is its lowest bit plus the doubled rest. */
  lemma SplitLowBit(a: Word)
    ensures a == Xor(if Odd(a) then Word(1) else Zero, Twice(Half(a)))
    ensures !Odd(Twice(Half(a))) && Half(Twice(Half(a))) == Half(a)
  {
    hide *;
    LowBitIsOdd(a);
    LowBitAndRest(a);
    TwiceIsEven(Half(a));
    HalfOfTwiceHalf(a);
  }

  lemma ShiftByteXor(a: Word, b: byte)
    ensures ShiftByte(Xor(a, OfByte(b))) == ShiftByte(a)
  {}

  function HighBytes(a: Word): Word {
    Word(a.bits & 0xffff_ff00)
  }

  function LowBits(a: Word): Word {
    Word(a.bits & 0xff)
  }

  lemma LowByteBits(a: Word)
    ensures OfByte(LowByte(a)) == LowBits(a)
  {
    ByteRoundTrip((a.bits & 0xff) as bv8);
    LowEight(a.bits);
  }

  lemma ByteRoundTrip(x: bv8)
    ensures (x as byte) as bv8 == x
  {}

  lemma LowEight(x: bv32)
    ensures ((x & 0xff) as bv8) as bv32 == x & 0xff
  {}

  lemma SplitBits(a: Word)
    ensures a == Xor(LowBits(a), HighBytes(a))
  {}

  lemma SplitLowByte(a: Word)
    ensures a == Xor(OfByte(LowByte(a)), HighBytes(a))
  {
    hide *;
    LowByteBits(a);
    SplitBits(a);
  }

  function Quarter(a: Word): Word {
    Word(a.bits >> 2)
  }

  function Sixteenth(a: Word): Word {
    Word(a.bits >> 4)
  }

  lemma TwoHalves(a: Word)
    ensures Half(Half(a)) == Quarter(a)
  {}

  lemma TwoQuarters(a: Word)
    ensures Quarter(Quarter(a)) == Sixteenth(a)
  {}

  lemma TwoSixteenths(a: Word)
    ensures Sixteenth(Sixteenth(a)) == ShiftByte(a)
  {}

  lemma EightHalves(a: Word)
    ensures Half(Half(Half(Half(Half(Half(Half(Half(a)))))))) == ShiftByte(a)
  {
    hide *;
    TwoHalves(a);
    TwoHalves(Quarter(a));
    TwoQuarters(a);
    TwoHalves(Sixteenth(a));
    TwoHalves(Quarter(Sixteenth(a)));
    TwoQuarters(Sixteenth(a));
    TwoSixteenths(a);
  }

  function ShiftTwoBytes(a: Word): Word {
    Word(a.bits >> 16)
  }

  lemma TwoBytes(a: Word)
    ensures ShiftByte(ShiftByte(a)) == ShiftTwoBytes(a)
  {}

  lemma FourBytesGone(a: Word)
    ensures ShiftTwoBytes(ShiftTwoBytes(a)) == Zero
  {}

  lemma ByteIsSmall(b: byte)
    ensures ShiftByte(OfByte(b)) == Zero
  {}

  // ----- Words by bytes

  /** Byte `b` in position `k` of a word, lowest position first. */
  function Placed(b: byte, k: nat): Word
    requires k < 4
  {
    if k == 0 then OfByte(b)
    else if k == 1 then Word(OfByte(b).bits << 8)
    else if k == 2 then Word(OfByte(b).bits << 16)
    else Word(OfByte(b).bits << 24)
  }

  /** Four bytes of memory as a word, lowest byte first. */
  function Load4(b0: byte, b1: byte, b2: byte, b3: byte): Word {
    Xor(OfByte(b0), Xor(Placed(b1, 1), Xor(Placed(b2, 2), Placed(b3, 3))))
  }

  /** Byte `k` of a word. */
  function ByteAt(w: Word, k: nat): byte
    requires k < 4
  {
    if k == 0 then LowByte(w)
    else if k == 1 then LowByte(Word(w.bits >> 8))
    else if k == 2 then LowByte(Word(w.bits >> 16))
    else LowByte(Word(w.bits >> 24))
  }

  lemma Place0(w: Word)
    ensures Placed(ByteAt(w, 0), 0) == Word(w.bits & 0xff)
  {
    LowByteBits(w);
  }

  lemma Place1(w: Word)
    ensures Placed(ByteAt(w, 1), 1) == Word(w.bits & 0xff00)
  {
    LowByteBits(Word(w.bits >> 8));
  }

  lemma Place2(w: Word)
    ensures Placed(ByteAt(w, 2), 2) == Word(w.bits & 0xff_0000)
  {
    LowByteBits(Word(w.bits >> 16));
  }

  lemma Place3(w: Word)
    ensures Placed(ByteAt(w, 3), 3) == Word(w.bits & 0xff00_0000)
  {
    LowByteBits(Word(w.bits >> 24));
  }

  lemma JoinBits(w: Word)
    ensures Xor(Xor(Xor(Word(w.bits & 0xff), Word(w.bits & 0xff00)), Word(w.bits & 0xff_0000)),
                Word(w.bits & 0xff00_0000)) == w
  {}

  lemma FourBytes(w: Word)
    ensures w == Xor(Xor(Xor(Placed(ByteAt(w, 0), 0), Placed(ByteAt(w, 1), 1)),
                         Placed(ByteAt(w, 2), 2)), Placed(ByteAt(w, 3), 3))
  {
    hide *;
    Place0(w);
    Place1(w);
    Place2(w);
    Place3(w);
    JoinBits(w);
  }

  // ----- Inclusion of bits

  function And(a: Word, b: Word): Word {
    Word(a.bits & b.bits)
  }

  lemma AndAssoc(a: Word, b: Word, c: Word)
    ensures And(And(a, b), c) == And(a, And(b, c))
  {}

  predicate Within(a: Word, b: Word) {
    And(a, b) == a
  }

  lemma WithinTrans(a: Word, b: Word, c: Word)
    requires Within(a, b) && Within(b, c)
    ensures Within(a, c)
  {
    hide And;
    AndAssoc(a, b, c);
  }

  lemma WithinHalf(a: Word)
    requires Within(a, Word(0x7fff_ffff))
    ensures Within(Half(a), Word(0x7fff_ffff))
  {}

  lemma WithinTwice(a: Word, b: Word)
    requires Within(a, Half(b))
    ensures Within(Twice(a), b)
  {}

  lemma HalfOfTwice(a: Word)
    requires Within(a, Word(0x7fff_ffff))
    ensures !Odd(Twice(a)) && Half(Twice(a)) == a
  {}
}

/** The reference CRC-32C: the message is fed to the register one bit at a time, low bit of
    each byte first, with the reflected polynomial.  The lemmas say that feeding is linear over
    exclusive or, that it composes over concatenation and that feeding zero bits composes;
    every fast version of the CRC is proved equal to this one. */
module CrcSpec {
  import opened Common
  import opened Words

  /** The CRC-32C polynomial in reversed bit order. */
  const POLY: Word := Word(0x82f63b78)

  /** Advances the register over one zero bit. */
  function BitStep(c: Word): Word {
    if Odd(c) then Xor(Half(c), POLY) else Half(c)
  }

  /** Feeds the `n` low bits of `b`, lowest first. */
  function FeedBits(c: Word, b: Word, n: nat): Word
    decreases n
  {
    if n == 0 then c
    else FeedBits(BitStep(Xor(c, if Odd(b) then Word(1) else Zero)), Half(b), n - 1)
  }

  function FeedByte(c: Word, b: byte): Word {
    FeedBits(c, OfByte(b), 8)
  }

  function Feed(c: Word, s: seq<byte>): Word {
    if s == [] then c else FeedByte(Feed(c, s[..|s| - 1]), s[|s| - 1])
  }

  /** The CRC of `s`, continuing from the CRC `crc` of what came before. */
  function Crc(crc: Word, s: seq<byte>): Word {
    Not(Feed(Not(crc), s))
  }

  /** The operator "append `n` zero bits". */
  function Zeros(c: Word, n: nat): Word
    decreases n
  {
    if n == 0 then c else Zeros(BitStep(c), n - 1)
  }

  // ----- Linearity

  lemma OddXor(a: Word, b: Word)
    ensures Odd(Xor(a, b)) <==> (Odd(a) != Odd(b))
  {
    LowBits(a.bits, b.bits);
  }

  lemma LowBits(a: bv32, b: bv32)
    ensures (a ^ b) & 1 == (a & 1) ^ (b & 1)
    ensures a & 1 == 0 || a & 1 == 1
    ensures b & 1 == 0 || b & 1 == 1
  {}

  lemma BitStepLinear(a: Word, b: Word)
    ensures BitStep(Xor(a, b)) == Xor(BitStep(a), BitStep(b))
  {
    hide Xor, Half, Odd;
    OddXor(a, b);
    HalfXor(a, b);
    MoveXor(Half(a), Half(b), POLY);
  }

  lemma MoveXor(a: Word, b: Word, p: Word)
    ensures Xor(Xor(a, p), Xor(b, p)) == Xor(a, b)
    ensures Xor(Xor(a, p), b) == Xor(Xor(a, b), p)
    ensures Xor(a, Xor(b, p)) == Xor(Xor(a, b), p)
  {
    hide Xor;
    XorAssoc(a, b, p);
    XorAssoc(a, p, b);
    XorComm(p, b);
    XorAssoc(a, p, Xor(b, p));
    XorComm(b, p);
    XorAssoc(p, p, b);
    XorZero(p);
    XorZero(b);
  }

  lemma {:induction false} ZerosLinear(a: Word, b: Word, n: nat)
    ensures Zeros(Xor(a, b), n) == Xor(Zeros(a, n), Zeros(b, n))
    decreases n
  {
    if n > 0 {
      BitStepLinear(a, b);
      ZerosLinear(BitStep(a), BitStep(b), n - 1);
    }
  }

  lemma {:induction false} ZerosCompose(a: Word, m: nat, n: nat)
    ensures Zeros(Zeros(a, m), n) == Zeros(a, m + n)
    decreases m
  {
    if m > 0 {
      ZerosCompose(BitStep(a), m - 1, n);
    }
  }

  lemma {:induction false} ZerosOfZero(n: nat)
    ensures Zeros(Zero, n) == Zero
  {
    if n > 0 {
      assert BitStep(Zero) == Zero;
      ZerosOfZero(n - 1);
    }
  }

  /** One register step absorbs the low message bit and leaves the others waiting. */
  lemma BitStepAbsorbs(c: Word, b: Word)
    ensures BitStep(Xor(c, b)) == Xor(BitStep(Xor(c, if Odd(b) then Word(1) else Zero)), Half(b))
  {
    var low, rest := if Odd(b) then Word(1) else Zero, Twice(Half(b));
    SplitLowBit(b);
    XorAssoc(c, low, rest);
    BitStepLinear(Xor(c, low), rest);
  }

  function Halves(b: Word, n: nat): Word
    decreases n
  {
    if n == 0 then b else Halves(Half(b), n - 1)
  }

  /** Feeding bits one at a time is the same as adding the whole word into the register first. */
  lemma {:induction false} FeedBitsIsZeros(c: Word, b: Word, n: nat)
    requires Halves(b, n) == Zero
    ensures FeedBits(c, b, n) == Zeros(Xor(c, b), n)
    decreases n
  {
    if n == 0 {
      XorZero(c);
    } else {
      FeedBitsIsZeros(BitStep(Xor(c, if Odd(b) then Word(1) else Zero)), Half(b), n - 1);
      BitStepAbsorbs(c, b);
    }
  }

  lemma Halves8(b: Word)
    ensures Halves(b, 8) == Half(Half(Half(Half(Half(Half(Half(Half(b))))))))
  {
    var h := Half(Half(Half(Half(b))));
    assert Halves(b, 8) == Halves(Half(Half(b)), 6) == Halves(h, 4) == Halves(Half(Half(h)), 2);
  }

  lemma FeedByteIsZeros(c: Word, b: byte)
    ensures FeedByte(c, b) == Zeros(Xor(c, OfByte(b)), 8)
  {
    assert Halves(OfByte(b), 8) == Zero by {
      hide Half, ShiftByte, OfByte;
      Halves8(OfByte(b));
      EightHalves(OfByte(b));
      ByteIsSmall(b);
    }
    FeedBitsIsZeros(c, OfByte(b), 8);
  }

  // ----- Whole messages

  lemma {:induction false} FeedConcat(c: Word, s: seq<byte>, t: seq<byte>)
    ensures Feed(c, s + t) == Feed(Feed(c, s), t)
    decreases |t|
  {
    hide FeedByte;
    if t == [] {
      assert s + t == s;
    } else {
      var u := t[..|t| - 1];
      FeedConcat(c, s, u);
      assert (s + t)[..|s + t| - 1] == s + u;
    }
  }

  lemma FeedNothing(c: Word, buf: seq<byte>, lo: nat)
    requires lo <= |buf|
    ensures Feed(c, buf[lo..lo + 0]) == c && Feed(c, []) == c
  {
    assert buf[lo..lo + 0] == [];
  }

  /** Feeding the eight bytes after a slice extends the slice. */
  lemma Extend(c: Word, buf: seq<byte>, lo: nat, hi: nat)
    requires lo <= hi && hi + 8 <= |buf|
    ensures Feed(Feed(c, buf[lo..hi]), buf[hi..hi + 8]) == Feed(c, buf[lo..hi + 8])
  {
    hide *;
    FeedConcat(c, buf[lo..hi], buf[hi..hi + 8]);
    assert buf[lo..hi] + buf[hi..hi + 8] == buf[lo..hi + 8];
  }

  lemma Join(c: Word, buf: seq<byte>, lo: nat, hi: nat)
    requires lo <= hi <= |buf|
    ensures Feed(Feed(c, buf[..lo]), buf[lo..hi]) == Feed(c, buf[..hi])
  {
    hide *;
    FeedConcat(c, buf[..lo], buf[lo..hi]);
    assert buf[..lo] + buf[lo..hi] == buf[..hi];
  }

  lemma ExtendByte(c: Word, buf: seq<byte>, hi: nat)
    requires hi < |buf|
    ensures FeedByte(Feed(c, buf[..hi]), buf[hi]) == Feed(c, buf[..hi + 1])
  {
    hide FeedByte;
    assert buf[..hi + 1][..hi] == buf[..hi];
  }

  /** The register splits into the contribution of its start value and that of the message. */
  lemma {:induction false} FeedLinear(c: Word, d: Word, s: seq<byte>)
    ensures Feed(Xor(c, d), s) == Xor(Zeros(c, 8 * |s|), Feed(d, s))
    decreases |s|
  {
    hide FeedByte, Xor, OfByte;
    XorZero(c);
    if s != [] {
      var n := |s| - 1;
      var u, b := s[..n], s[n];
      FeedLinear(c, d, u);
      var x, y := Zeros(c, 8 * n), Feed(d, u);
      FeedByteIsZeros(Xor(x, y), b);
      FeedByteIsZeros(y, b);
      XorAssoc(x, y, OfByte(b));
      ZerosLinear(x, Xor(y, OfByte(b)), 8);
      ZerosCompose(c, 8 * n, 8);
    }
  }

  /** Running a message through the returned CRC in two pieces equals one call on the whole. */
  lemma CrcConcat(crc: Word, s: seq<byte>, t: seq<byte>)
    ensures Crc(crc, s + t) == Crc(Crc(crc, s), t)
  {
    FeedConcat(Not(crc), s, t);
    NotNot(Feed(Not(crc), s));
  }

  function Flatten(chunks: seq<seq<byte>>): seq<byte> {
    if chunks == [] then [] else Flatten(chunks[..|chunks| - 1]) + chunks[|chunks| - 1]
  }

  function CrcOfEach(crc: Word, chunks: seq<seq<byte>>): Word {
    if chunks == [] then crc
    else Crc(CrcOfEach(crc, chunks[..|chunks| - 1]), chunks[|chunks| - 1])
  }

  /** Any way of cutting a message into chunks gives the CRC of the whole message. */
  lemma {:induction false} CrcOfChunks(crc: Word, chunks: seq<seq<byte>>)
    ensures CrcOfEach(crc, chunks) == Crc(crc, Flatten(chunks))
  {
    if chunks == [] {
      NotNot(crc);
    } else {
      var front := chunks[..|chunks| - 1];
      CrcOfChunks(crc, front);
      CrcConcat(crc, Flatten(front), chunks[|chunks| - 1]);
    }
  }
}
