/** The hardware CRC: three independent lanes joined by "append zeros" operators, which are built
    as matrices over GF(2) by repeated squaring and unrolled into byte tables. */
module CrcHw {
  import opened Common
  import opened Words
  import opened CrcSpec

  /** `w` shifted left by `i` bits, as repeated `<<= 1`. */
  function Doubled(w: Word, i: nat): Word {
    if i == 0 then w else Twice(Doubled(w, i - 1))
  }

  /** The product of a matrix, given as the images of the unit words from bit 0 up, and a word. */
  function Product(mat: seq<Word>, vec: Word): Word {
    if mat == [] then Zero
    else Xor(if Odd(vec) then mat[0] else Zero, Product(mat[1..], Half(vec)))
  }

  /** The columns of `mat` are the images of the unit words under "append `n` zero bits". */
  ghost predicate Represents(mat: seq<Word>, n: nat) {
    |mat| == 32 && forall i :: 0 <= i < 32 ==> mat[i] == Zeros(Doubled(Word(1), i), n)
  }

  // ----- The matrix product computes the represented operator

  lemma {:induction false} DoubledTwice(w: Word, i: nat)
    ensures Doubled(Twice(w), i) == Doubled(w, i + 1)
  {
    if i > 0 {
      DoubledTwice(w, i - 1);
    }
  }

  lemma {:induction false} DoubledXor(a: Word, b: Word, i: nat)
    ensures Doubled(Xor(a, b), i) == Xor(Doubled(a, i), Doubled(b, i))
  {
    if i > 0 {
      DoubledXor(a, b, i - 1);
      TwiceXor(Doubled(a, i - 1), Doubled(b, i - 1));
    }
  }

  lemma {:induction false} DoubledZero(i: nat)
    ensures Doubled(Zero, i) == Zero
  {
    if i > 0 {
      DoubledZero(i - 1);
    }
  }

  lemma {:induction false} HalvesTail(w: Word, n: nat)
    ensures Halves(w, n + 1) == Half(Halves(w, n))
    decreases n
  {
    if n > 0 {
      HalvesTail(Half(w), n - 1);
    }
  }

  lemma {:induction false} HalvesAdd(w: Word, m: nat, n: nat)
    ensures Halves(Halves(w, m), n) == Halves(w, m + n)
    decreases m
  {
    hide Half;
    if m > 0 {
      HalvesAdd(Half(w), m - 1, n);
    }
  }

  lemma HalvesByte(w: Word)
    ensures Halves(w, 8) == ShiftByte(w)
  {
    hide *;
    Halves8(w);
    EightHalves(w);
  }

  lemma HalvesTwoBytes(w: Word)
    ensures Halves(w, 16) == ShiftTwoBytes(w)
  {
    hide *;
    HalvesAdd(w, 8, 8);
    HalvesByte(w);
    HalvesByte(ShiftByte(w));
    TwoBytes(w);
  }

  /** A 32-bit word is used up after 32 shifts, so the loop never runs past the matrix. */
  lemma Halves32(w: Word)
    ensures Halves(w, 32) == Zero
  {
    hide *;
    HalvesAdd(w, 16, 16);
    HalvesTwoBytes(w);
    HalvesTwoBytes(ShiftTwoBytes(w));
    FourBytesGone(w);
  }

  lemma {:induction false} ProductFrom(mat: seq<Word>, n: nat, i: nat, vec: Word)
    requires Represents(mat, n) && i <= 32 && Halves(vec, 32 - i) == Zero
    ensures Product(mat[i..], vec) == Zeros(Doubled(vec, i), n)
    decreases 32 - i
  {
    if i == 32 {
      DoubledZero(32);
      ZerosOfZero(n);
    } else {
      var low, rest := if Odd(vec) then Word(1) else Zero, Half(vec);
      ProductFrom(mat, n, i + 1, rest);
      assert mat[i..][1..] == mat[i + 1..];
      ProductStep(n, i, vec, low, rest);
    }
  }

  lemma ProductStep(n: nat, i: nat, vec: Word, low: Word, rest: Word)
    requires low == (if Odd(vec) then Word(1) else Zero) && rest == Half(vec)
    ensures Zeros(Doubled(vec, i), n)
         == Xor(if Odd(vec) then Zeros(Doubled(Word(1), i), n) else Zero, Zeros(Doubled(rest, i + 1), n))
  {
    SplitLowBit(vec);
    hide Xor, Half, Twice, Odd;
    DoubledXor(low, Twice(rest), i);
    DoubledTwice(rest, i);
    ZerosLinear(Doubled(low, i), Doubled(rest, i + 1), n);
    DoubledZero(i);
    ZerosOfZero(n);
  }

  /** Multiplying by a matrix that represents "append `n` zeros" appends `n` zeros. */
  lemma ProductIsZeros(mat: seq<Word>, n: nat, vec: Word)
    requires Represents(mat, n)
    ensures Product(mat, vec) == Zeros(vec, n)
  {
    Halves32(vec);
    assert mat[0..] == mat;
    ProductFrom(mat, n, 0, vec);
  }

  lemma {:induction false} ProductOfZero(mat: seq<Word>)
    ensures Product(mat, Zero) == Zero
  {
    if mat != [] {
      ProductOfZero(mat[1..]);
      assert Half(Zero) == Zero && !Odd(Zero);
      XorZero(Zero);
    }
  }

  method MatrixTimes(mat: array<Word>, vec: Word) returns (sum: Word)
    requires mat.Length == 32
    ensures sum == Product(mat[..], vec)
  {
    sum := Zero;
    var v, i := vec, 0;
    XorZero(Product(mat[..], vec));
    assert mat[..][0..] == mat[..];
    while v != Zero
      invariant i <= 32 && v == Halves(vec, i)
      invariant Xor(sum, Product(mat[..][i..], v)) == Product(mat[..], vec)
      decreases 32 - i
    {
      Halves32(vec);
      HalvesTail(vec, i);
      XorAssoc(sum, if Odd(v) then mat[i] else Zero, Product(mat[..][i + 1..], Half(v)));
      XorZero(sum);
      assert mat[..][i..][1..] == mat[..][i + 1..];
      if Odd(v) {
        sum := Xor(sum, mat[i]);
      }
      v := Half(v);
      i := i + 1;
    }
    ProductOfZero(mat[..][i..]);
    XorZero(sum);
  }

  /** Squaring the operator for `n` zeros gives the operator for `2 * n`. */
  method MatrixSquare(square: array<Word>, mat: array<Word>, ghost n: nat)
    requires square != mat && square.Length == mat.Length == 32
    requires Represents(mat[..], n)
    modifies square
    ensures Represents(square[..], 2 * n)
  {
    var k := 0;
    while k < 32
      invariant k <= 32 && Represents(mat[..], n)
      invariant forall i :: 0 <= i < k ==> square[i] == Zeros(Doubled(Word(1), i), 2 * n)
    {
      ProductIsZeros(mat[..], n, mat[k]);
      ZerosCompose(Doubled(Word(1), k), n, n);
      square[k] := MatrixTimes(mat, mat[k]);
      k := k + 1;
    }
  }

  // ----- The zeros operator

  /** The number of zero bytes the operator for `len` appends: the largest power of two that does
      not exceed `len`, and 1 for length 0. */
  function ZeroBytes(len: nat): (n: nat)
    ensures 1 <= n && (len > 0 ==> n <= len < 2 * n)
  {
    if len <= 1 then 1 else 2 * ZeroBytes(len / 2)
  }

  /** For the lengths the code documents, powers of two, the operator appends exactly that many. */
  lemma {:induction false} ZeroBytesOfPow2(k: nat)
    ensures ZeroBytes(Pow2(k)) == Pow2(k)
  {
    if k > 0 {
      ZeroBytesOfPow2(k - 1);
    }
  }

  /** An upper bound for bit `i`, counted down from bit 30. */
  function UnitBound(i: nat): Word
    requires i <= 30
    decreases 30 - i
  {
    if i == 30 then Word(0x4000_0000) else Half(UnitBound(i + 1))
  }

  lemma {:induction false} UnitBoundSmall(i: nat)
    requires i <= 30
    ensures Within(UnitBound(i), Word(0x7fff_ffff))
    decreases 30 - i
  {
    if i < 30 {
      UnitBoundSmall(i + 1);
      WithinHalf(UnitBound(i + 1));
    }
  }

  lemma UnitBoundAtZero()
    ensures UnitBound(0) == Word(1)
  {
    assert UnitBound(28) == Word(0x1000_0000);
    assert UnitBound(26) == Word(0x400_0000);
    assert UnitBound(24) == Word(0x100_0000);
    assert UnitBound(22) == Word(0x40_0000);
    assert UnitBound(20) == Word(0x10_0000);
    assert UnitBound(18) == Word(0x4_0000);
    assert UnitBound(16) == Word(0x1_0000);
    assert UnitBound(14) == Word(0x4000);
    assert UnitBound(12) == Word(0x1000);
    assert UnitBound(10) == Word(0x400);
    assert UnitBound(8) == Word(0x100);
    assert UnitBound(6) == Word(0x40);
    assert UnitBound(4) == Word(0x10);
    assert UnitBound(2) == Word(0x4);
  }

  lemma {:induction false} UnitBelow(i: nat)
    requires i <= 30
    ensures Within(Doubled(Word(1), i), UnitBound(i))
  {
    if i == 0 {
      UnitBoundAtZero();
    } else {
      hide Within, Twice, Half;
      UnitBelow(i - 1);
      WithinTwice(Doubled(Word(1), i - 1), UnitBound(i));
    }
  }

  /** The operator for one zero bit moves every bit but the lowest down by one. */
  lemma UnitStep(i: nat)
    requires 0 < i < 32
    ensures BitStep(Doubled(Word(1), i)) == Doubled(Word(1), i - 1)
  {
    hide Within, Twice, Half, Odd, Xor;
    UnitBelow(i - 1);
    UnitBoundSmall(i - 1);
    WithinTrans(Doubled(Word(1), i - 1), UnitBound(i - 1), Word(0x7fff_ffff));
    HalfOfTwice(Doubled(Word(1), i - 1));
  }

  lemma FirstColumn()
    ensures Doubled(Word(1), 0) == Word(1) && BitStep(Word(1)) == POLY
  {}

  lemma DoubledNext(k: nat)
    requires k > 0
    ensures Twice(Doubled(Word(1), k - 1)) == Doubled(Word(1), k)
  {}

  /** The matrix of one zero bit. */
  method OneZeroOp() returns (odd: array<Word>)
    ensures fresh(odd) && odd.Length == 32 && Represents(odd[..], 1)
  {
    hide *;
    odd := new Word[32];
    var row := Doubled(Word(1), 0);
    odd[0] := POLY;
    FirstColumn();
    var k := 1;
    while k < 32
      invariant 1 <= k <= 32 && row == Doubled(Word(1), k - 1)
      invariant forall i :: 0 <= i < k ==> odd[i] == BitStep(Doubled(Word(1), i))
    {
      UnitStep(k);
      DoubledNext(k);
      odd[k] := row;
      row := Twice(row);
      k := k + 1;
    }
    OneZero(odd[..]);
  }

  /** Builds the operator that appends `8 * ZeroBytes(len)` zero bits. */
  method ZerosOp(even: array<Word>, len: nat)
    requires even.Length == 32
    modifies even
    ensures Represents(even[..], 8 * ZeroBytes(len))
  {
    hide Represents;
    hide ZeroBytes;
    var odd := OneZeroOp();
    MatrixSquare(even, odd, 1);
    MatrixSquare(odd, even, 2);
    var n := len;
    ghost var m: nat := 1;
    while true
      invariant odd.Length == 32 && odd != even && fresh(odd)
      invariant Represents(odd[..], 4 * m)
      invariant ZeroBytes(len) == m * ZeroBytes(n)
      decreases n
    {
      MatrixSquare(even, odd, 4 * m);
      Quarters(len, m, n);
      n := n / 2;
      if n == 0 {
        assert 2 * (4 * m) == 8 * ZeroBytes(len);
        return;
      }
      MatrixSquare(odd, even, 8 * m);
      n := n / 2;
      if n == 0 {
        assert 2 * (8 * m) == 8 * ZeroBytes(len);
        break;
      }
      m := 4 * m;
    }
    assert Represents(odd[..], 8 * ZeroBytes(len));
    CopyMatrix(even, odd);
  }

  /** What two halvings of the length do to the number of zeros still to be doubled. */
  lemma Quarters(len: nat, m: nat, n: nat)
    requires ZeroBytes(len) == m * ZeroBytes(n)
    ensures n / 2 == 0 ==> ZeroBytes(len) == m
    ensures n / 2 > 0 && n / 2 / 2 == 0 ==> ZeroBytes(len) == 2 * m
    ensures n / 2 / 2 > 0 ==> ZeroBytes(len) == (4 * m) * ZeroBytes(n / 2 / 2)
  {
    if n / 2 / 2 > 0 {
      assert ZeroBytes(n) == 2 * ZeroBytes(n / 2) && ZeroBytes(n / 2) == 2 * ZeroBytes(n / 2 / 2);
      Regroup(m, ZeroBytes(n / 2 / 2));
    } else if n / 2 > 0 {
      assert ZeroBytes(n) == 2 * ZeroBytes(n / 2) && ZeroBytes(n / 2) == 1;
    }
  }

  method CopyMatrix(to: array<Word>, from: array<Word>)
    requires to != from && to.Length == from.Length == 32
    modifies to
    ensures to[..] == from[..]
  {
    var k := 0;
    while k < 32
      invariant k <= 32 && to[..k] == from[..k]
    {
      to[k] := from[k];
      k := k + 1;
    }
  }

  lemma Regroup(m: nat, z: nat)
    ensures m * (2 * (2 * z)) == (4 * m) * z
  {}

  lemma OneZero(odd: seq<Word>)
    requires |odd| == 32 && forall i :: 0 <= i < 32 ==> odd[i] == BitStep(Doubled(Word(1), i))
    ensures Represents(odd, 1)
  {
    forall i | 0 <= i < 32
      ensures odd[i] == Zeros(Doubled(Word(1), i), 1)
    {
      assert Zeros(Doubled(Word(1), i), 1) == Zeros(BitStep(Doubled(Word(1), i)), 0);
    }
  }

  // ----- The byte tables of an operator

  /** The tables hold the image of every byte in every position under "append `n` zero bits". */
  ghost predicate TablesFor(zeros: array2<Word>, n: nat)
    reads zeros
  {
    && zeros.Length0 == 4 && zeros.Length1 == 256
    && forall k: nat, b: byte | k < 4 :: zeros[k, b] == Zeros(Placed(b, k), n)
  }

  method ZerosTables(len: nat) returns (zeros: array2<Word>)
    ensures fresh(zeros) && TablesFor(zeros, 8 * ZeroBytes(len))
  {
    hide Zeros, Placed, Represents, Product;
    zeros := new Word[4, 256];
    var op := new Word[32];
    ZerosOp(op, len);
    ghost var bits := 8 * ZeroBytes(len);
    var n := 0;
    while n < 256
      invariant n <= 256 && Represents(op[..], bits)
      invariant forall k: nat, b: byte | k < 4 && b as nat < n :: zeros[k, b] == Zeros(Placed(b, k), bits)
    {
      var b := n as byte;
      forall k | 0 <= k < 4
        ensures Product(op[..], Placed(b, k)) == Zeros(Placed(b, k), bits)
      {
        ProductIsZeros(op[..], bits, Placed(b, k));
      }
      var z0 := MatrixTimes(op, Placed(b, 0));
      var z1 := MatrixTimes(op, Placed(b, 1));
      var z2 := MatrixTimes(op, Placed(b, 2));
      var z3 := MatrixTimes(op, Placed(b, 3));
      zeros[0, n], zeros[1, n], zeros[2, n], zeros[3, n] := z0, z1, z2, z3;
      n := n + 1;
    }
  }

  /** Applying the tables byte by byte applies the whole operator. */
  method Shift(zeros: array2<Word>, crc: Word, ghost n: nat) returns (r: Word)
    requires TablesFor(zeros, n)
    ensures r == Zeros(crc, n)
  {
    hide Xor, Placed, ByteAt, Zeros;
    var b0, b1, b2, b3 := ByteAt(crc, 0), ByteAt(crc, 1), ByteAt(crc, 2), ByteAt(crc, 3);
    r := Xor(Xor(Xor(zeros[0, b0], zeros[1, b1]), zeros[2, b2]), zeros[3, b3]);
    ZerosOfBytes(crc, n);
  }

  lemma ZerosOfBytes(w: Word, n: nat)
    ensures Zeros(w, n) == Xor(Xor(Xor(Zeros(Placed(ByteAt(w, 0), 0), n), Zeros(Placed(ByteAt(w, 1), 1), n)),
                                   Zeros(Placed(ByteAt(w, 2), 2), n)), Zeros(Placed(ByteAt(w, 3), 3), n))
  {
    hide Xor, Placed, ByteAt;
    FourBytes(w);
    var p0, p1 := Placed(ByteAt(w, 0), 0), Placed(ByteAt(w, 1), 1);
    var p2, p3 := Placed(ByteAt(w, 2), 2), Placed(ByteAt(w, 3), 3);
    ZerosLinear(Xor(Xor(p0, p1), p2), p3, n);
    ZerosLinear(Xor(p0, p1), p2, n);
    ZerosLinear(p0, p1, n);
  }

  // ----- The three lanes

  const LONG: nat := 8192
  const SHORT: nat := 256

  /** Joining lanes: a block's CRC is its start value carried over the block's length in zeros,
      plus the CRC of the block from zero. */
  lemma JoinLanes(c: Word, s: seq<byte>, t: seq<byte>)
    ensures Feed(c, s + t) == Xor(Zeros(Feed(c, s), 8 * |t|), Feed(Zero, t))
  {
    FeedConcat(c, s, t);
    FeedLinear(Feed(c, s), Zero, t);
    XorZero(Feed(c, s));
  }

  /** Three lanes over `block` bytes each, eight bytes at a time, the second and third from zero. */
  method RunLanes(block: nat, start: Word, buf: seq<byte>, next: nat)
    returns (crc0: Word, crc1: Word, crc2: Word)
    requires block % 8 == 0 && next + 3 * block <= |buf|
    ensures crc0 == Feed(start, buf[next..next + block])
    ensures crc1 == Feed(Zero, buf[next + block..next + 2 * block])
    ensures crc2 == Feed(Zero, buf[next + 2 * block..next + 3 * block])
  {
    hide Feed;
    FeedNothing(start, buf, next);
    FeedNothing(Zero, buf, next + block);
    FeedNothing(Zero, buf, next + 2 * block);
    crc0, crc1, crc2 := start, Zero, Zero;
    var p := 0;
    while p < block
      invariant p <= block && p % 8 == 0
      invariant crc0 == Feed(start, buf[next..next + p])
      invariant crc1 == Feed(Zero, buf[next + block..next + block + p])
      invariant crc2 == Feed(Zero, buf[next + 2 * block..next + 2 * block + p])
    {
      LaneStep(start, crc0, buf, next, p);
      LaneStep(Zero, crc1, buf, next + block, p);
      LaneStep(Zero, crc2, buf, next + 2 * block, p);
      crc0 := Feed(crc0, buf[next + p..next + p + 8]);
      crc1 := Feed(crc1, buf[next + block + p..next + block + p + 8]);
      crc2 := Feed(crc2, buf[next + 2 * block + p..next + 2 * block + p + 8]);
      p := p + 8;
    }
  }

  lemma LaneStep(c: Word, acc: Word, buf: seq<byte>, lo: nat, p: nat)
    requires lo + p + 8 <= |buf| && acc == Feed(c, buf[lo..lo + p])
    ensures Feed(acc, buf[lo + p..lo + p + 8]) == Feed(c, buf[lo..lo + (p + 8)])
  {
    hide *;
    Extend(c, buf, lo, lo + p);
  }

  /** One round of the three-lane loop over `3 * block` bytes starting at `next`. */
  method ThreeLanes(tables: array2<Word>, block: nat, start: Word, buf: seq<byte>, next: nat) returns (crc: Word)
    requires block % 8 == 0 && next + 3 * block <= |buf|
    requires TablesFor(tables, 8 * block)
    ensures crc == Feed(start, buf[next..next + 3 * block])
  {
    hide Feed, Xor, Zeros, TablesFor;
    var crc0, crc1, crc2 := RunLanes(block, start, buf, next);
    var s0 := Shift(tables, crc0, 8 * block);
    var s1 := Shift(tables, Xor(s0, crc1), 8 * block);
    crc := Xor(s1, crc2);
    JoinThree(start, buf[next..next + block], buf[next + block..next + 2 * block],
      buf[next + 2 * block..next + 3 * block]);
    assert buf[next..next + block] + buf[next + block..next + 2 * block] + buf[next + 2 * block..next + 3 * block]
        == buf[next..next + 3 * block];
  }

  lemma JoinThree(start: Word, a: seq<byte>, b: seq<byte>, c: seq<byte>)
    requires |a| == |b| == |c|
    ensures Feed(start, a + b + c)
         == Xor(Zeros(Xor(Zeros(Feed(start, a), 8 * |a|), Feed(Zero, b)), 8 * |a|), Feed(Zero, c))
  {
    hide *;
    JoinLanes(start, a, b);
    JoinLanes(start, a + b, c);
  }

  /** The `crc32b` loop, up to an eight-byte boundary or, without `align`, to the end. */
  method ByteSteps(start: Word, addr: nat, buf: seq<byte>, crc: Word, from: nat, align: bool)
    returns (crc0: Word, next: nat)
    requires from <= |buf| && crc == Feed(start, buf[..from])
    ensures from <= next <= |buf| && crc0 == Feed(start, buf[..next])
    ensures next == |buf| || (align && (addr + next) % 8 == 0)
  {
    hide Feed, FeedByte;
    crc0, next := crc, from;
    while next < |buf| && !(align && (addr + next) % 8 == 0)
      invariant next <= |buf| && crc0 == Feed(start, buf[..next])
    {
      ExtendByte(start, buf, next);
      crc0 := FeedByte(crc0, buf[next]);
      next := next + 1;
    }
  }

  /** The three-lane loop while a whole round of `3 * block` bytes is left. */
  method LaneRounds(tables: array2<Word>, block: nat, start: Word, buf: seq<byte>, crc: Word, from: nat)
    returns (crc0: Word, next: nat)
    requires block > 0 && block % 8 == 0 && TablesFor(tables, 8 * block)
    requires from <= |buf| && crc == Feed(start, buf[..from])
    ensures from <= next <= |buf| && crc0 == Feed(start, buf[..next])
    ensures |buf| - next < 3 * block
  {
    hide Feed, TablesFor;
    crc0, next := crc, from;
    while |buf| - next >= 3 * block
      invariant from <= next <= |buf| && crc0 == Feed(start, buf[..next])
    {
      Join(start, buf, next, next + 3 * block);
      crc0 := ThreeLanes(tables, block, crc0, buf, next);
      next := next + 3 * block;
    }
  }

  /** The single-lane `crc32q` loop over the whole eight-byte units that are left. */
  method WordSteps(start: Word, buf: seq<byte>, crc: Word, from: nat) returns (crc0: Word, next: nat)
    requires from <= |buf| && crc == Feed(start, buf[..from])
    ensures from <= next <= |buf| && crc0 == Feed(start, buf[..next])
    ensures |buf| - next == (|buf| - from) % 8
  {
    hide Feed;
    crc0, next := crc, from;
    var end := from + (|buf| - from) - (|buf| - from) % 8;
    while next < end
      invariant next <= end <= |buf| && (end - next) % 8 == 0 && crc0 == Feed(start, buf[..next])
    {
      Join(start, buf, next, next + 8);
      crc0 := Feed(crc0, buf[next..next + 8]);
      next := next + 8;
    }
  }

  lemma BlockSizes()
    ensures ZeroBytes(LONG) == LONG && ZeroBytes(SHORT) == SHORT
  {
    ZeroBytesOfPow2(13);
    ZeroBytesOfPow2(8);
    hide ZeroBytes;
    assert Pow2(5) == 32;
    assert Pow2(8) == 8 * Pow2(5) && Pow2(13) == 32 * Pow2(8);
  }

  /** For every start value, buffer and buffer address, the hardware CRC is the bitwise one.  The
      instruction `crc32b` is one byte step and `crc32q` is eight of them. */
  method Crc32cHw(crc: Word, addr: nat, buf: seq<byte>) returns (r: Word)
    ensures r == Crc(crc, buf)
  {
    BlockSizes();
    var long := ZerosTables(LONG);
    var short := ZerosTables(SHORT);
    var start := Not(crc);
    assert Feed(start, []) == start && buf[..0] == [];
    hide Feed, FeedByte, TablesFor, Not, ZeroBytes;
    var crc0, next := ByteSteps(start, addr, buf, start, 0, true);
    crc0, next := LaneRounds(long, LONG, start, buf, crc0, next);
    crc0, next := LaneRounds(short, SHORT, start, buf, crc0, next);
    crc0, next := WordSteps(start, buf, crc0, next);
    crc0, next := ByteSteps(start, addr, buf, crc0, next, false);
    assert buf[..next] == buf;
    r := Not(crc0);
  }
}
