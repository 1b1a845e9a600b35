/** Polynomials over the field of two elements, each the set of its exponents. */
module Gf2 {
  type Poly = set<nat>

  function Plus(a: Poly, b: Poly): Poly {
    (a - b) + (b - a)
  }

  /** `a` times the `k`-th power of x. */
  function Shifted(a: Poly, k: nat): Poly {
    set e | e in a :: e + k
  }

  /** The sum of the powers of x in `q`, times `p`. */
  function Times(q: seq<nat>, p: Poly): Poly {
    if q == [] then {} else Plus(Shifted(p, q[0]), Times(q[1..], p))
  }

  /** `a` and `b` differ by a multiple of `p`. */
  ghost predicate Congruent(a: Poly, b: Poly, p: Poly) {
    exists q :: Times(q, p) == Plus(a, b)
  }

  /** `r` is what is left of `a` on division by `p`, whose degree is `d`. */
  ghost predicate IsRemainder(r: Poly, a: Poly, p: Poly, d: nat) {
    (forall e :: e in r ==> e < d) && Congruent(r, a, p)
  }

  // ----- Sums

  lemma PlusAssoc(a: Poly, b: Poly, c: Poly)
    ensures Plus(Plus(a, b), c) == Plus(a, Plus(b, c))
  {}

  lemma PlusComm(a: Poly, b: Poly)
    ensures Plus(a, b) == Plus(b, a)
  {}

  lemma PlusSelf(a: Poly)
    ensures Plus(a, a) == {} && Plus(a, {}) == a && Plus({}, a) == a
  {}

  lemma PlusZero(a: Poly, b: Poly)
    ensures Plus(a, b) == {} <==> a == b
  {
    if Plus(a, b) == {} {
      assert forall e :: e in a - b || e in b - a ==> e in Plus(a, b);
      assert forall e :: e in a <==> e in b;
    }
  }

  /** Four terms in another order. */
  lemma PlusFour(a: Poly, b: Poly, c: Poly, d: Poly)
    ensures Plus(Plus(a, b), Plus(c, d)) == Plus(Plus(a, c), Plus(b, d))
  {
    hide Plus;
    PlusAssoc(a, b, Plus(c, d));
    PlusAssoc(b, c, d);
    PlusComm(b, c);
    PlusAssoc(c, b, d);
    PlusAssoc(a, c, Plus(b, d));
  }

  /** A term in the middle cancels. */
  lemma PlusThrough(a: Poly, b: Poly, c: Poly)
    ensures Plus(Plus(a, b), Plus(b, c)) == Plus(a, c)
  {
    hide Plus;
    PlusAssoc(a, b, Plus(b, c));
    PlusAssoc(b, b, c);
    PlusSelf(b);
    PlusSelf(c);
  }

  // ----- Powers of x

  lemma ShiftedMember(a: Poly, k: nat, e: nat)
    ensures e in Shifted(a, k) <==> e >= k && e - k in a
  {
    if e >= k && e - k in a {
      assert (e - k) + k in Shifted(a, k);
    }
  }

  lemma ShiftedPlus(a: Poly, b: Poly, k: nat)
    ensures Shifted(Plus(a, b), k) == Plus(Shifted(a, k), Shifted(b, k))
  {
    hide Shifted;
    forall e: nat
      ensures e in Shifted(Plus(a, b), k) <==> e in Plus(Shifted(a, k), Shifted(b, k))
    {
      ShiftedMember(Plus(a, b), k, e);
      ShiftedMember(a, k, e);
      ShiftedMember(b, k, e);
    }
  }

  lemma ShiftedTwice(a: Poly, k: nat, l: nat)
    ensures Shifted(Shifted(a, k), l) == Shifted(a, k + l)
  {
    hide Shifted;
    forall e: nat
      ensures e in Shifted(Shifted(a, k), l) <==> e in Shifted(a, k + l)
    {
      ShiftedMember(Shifted(a, k), l, e);
      if e >= l {
        ShiftedMember(a, k, e - l);
      }
      ShiftedMember(a, k + l, e);
    }
  }

  lemma ShiftedNone(a: Poly, k: nat)
    ensures Shifted({}, k) == {} && Shifted(a, 0) == a
  {
    hide Shifted;
    forall e: nat
      ensures e !in Shifted({}, k) && (e in Shifted(a, 0) <==> e in a)
    {
      ShiftedMember({}, k, e);
      ShiftedMember(a, 0, e);
    }
  }

  // ----- Multiples

  lemma {:induction false} TimesConcat(q: seq<nat>, r: seq<nat>, p: Poly)
    ensures Times(q + r, p) == Plus(Times(q, p), Times(r, p))
  {
    hide Plus, Shifted;
    if q == [] {
      assert q + r == r;
      PlusSelf(Times(r, p));
    } else {
      assert (q + r)[1..] == q[1..] + r;
      TimesConcat(q[1..], r, p);
      PlusAssoc(Shifted(p, q[0]), Times(q[1..], p), Times(r, p));
    }
  }

  lemma TimesOne(e: nat, p: Poly)
    ensures Times([e], p) == Shifted(p, e)
  {
    hide Shifted;
    assert [e][1..] == [];
    PlusSelf(Shifted(p, e));
  }

  function Raised(q: seq<nat>, k: nat): (r: seq<nat>)
    ensures |r| == |q| && forall i :: 0 <= i < |q| ==> r[i] == q[i] + k
  {
    seq(|q|, i requires 0 <= i < |q| => q[i] + k)
  }

  lemma {:induction false} TimesShifted(q: seq<nat>, p: Poly, k: nat)
    ensures Times(Raised(q, k), p) == Shifted(Times(q, p), k)
  {
    hide Plus, Shifted;
    if q == [] {
      ShiftedNone({}, k);
    } else {
      assert Raised(q, k)[1..] == Raised(q[1..], k);
      TimesShifted(q[1..], p, k);
      ShiftedPlus(Shifted(p, q[0]), Times(q[1..], p), k);
      ShiftedTwice(p, q[0], k);
    }
  }

  // ----- Congruence

  lemma CongruentSelf(a: Poly, p: Poly)
    ensures Congruent(a, a, p)
  {
    PlusSelf(a);
    assert Times([], p) == Plus(a, a);
  }

  lemma CongruentSwap(a: Poly, b: Poly, p: Poly)
    requires Congruent(a, b, p)
    ensures Congruent(b, a, p)
  {
    hide Plus, Times;
    PlusComm(a, b);
  }

  lemma CongruentTrans(a: Poly, b: Poly, c: Poly, p: Poly)
    requires Congruent(a, b, p) && Congruent(b, c, p)
    ensures Congruent(a, c, p)
  {
    hide Plus, Times;
    var q :| Times(q, p) == Plus(a, b);
    var r :| Times(r, p) == Plus(b, c);
    TimesConcat(q, r, p);
    PlusThrough(a, b, c);
  }

  lemma CongruentPlus(a: Poly, b: Poly, c: Poly, d: Poly, p: Poly)
    requires Congruent(a, b, p) && Congruent(c, d, p)
    ensures Congruent(Plus(a, c), Plus(b, d), p)
  {
    hide Plus, Times;
    var q :| Times(q, p) == Plus(a, b);
    var r :| Times(r, p) == Plus(c, d);
    TimesConcat(q, r, p);
    PlusFour(a, b, c, d);
  }

  lemma CongruentShifted(a: Poly, b: Poly, p: Poly, k: nat)
    requires Congruent(a, b, p)
    ensures Congruent(Shifted(a, k), Shifted(b, k), p)
  {
    hide Plus, Times, Shifted;
    var q :| Times(q, p) == Plus(a, b);
    TimesShifted(q, p, k);
    ShiftedPlus(a, b, k);
  }

  // ----- Remainders are unique

  ghost predicate HasDegree(p: Poly, d: nat) {
    d in p && forall e :: e in p ==> e <= d
  }

  lemma {:induction false} TimesBelow(q: seq<nat>, p: Poly, d: nat, m: nat)
    requires HasDegree(p, d) && forall i :: 0 <= i < |q| ==> q[i] < m
    ensures m + d !in Times(q, p)
  {
    hide Shifted;
    if q != [] {
      TimesBelow(q[1..], p, d, m);
      ShiftedMember(p, q[0], m + d);
    }
  }

  /** A factor in the middle taken out in front. */
  lemma TimesAt(q: seq<nat>, p: Poly, i: nat)
    requires i < |q|
    ensures Times(q, p) == Plus(Shifted(p, q[i]), Times(q[..i] + q[i + 1..], p))
  {
    hide Plus, Shifted, Times;
    assert q == q[..i] + ([q[i]] + q[i + 1..]);
    TimesConcat(q[..i], [q[i]] + q[i + 1..], p);
    TimesConcat([q[i]], q[i + 1..], p);
    TimesConcat(q[..i], q[i + 1..], p);
    TimesOne(q[i], p);
    var a, s, b := Times(q[..i], p), Shifted(p, q[i]), Times(q[i + 1..], p);
    PlusAssoc(a, s, b);
    PlusComm(a, s);
    PlusAssoc(s, a, b);
  }

  lemma {:induction false} Largest(q: seq<nat>) returns (i: nat)
    requires q != []
    ensures i < |q| && forall j :: 0 <= j < |q| ==> q[j] <= q[i]
  {
    if |q| == 1 {
      i := 0;
    } else {
      var k := Largest(q[1..]);
      assert forall j :: 0 < j < |q| ==> q[j] == q[1..][j - 1];
      i := if q[0] >= q[k + 1] then 0 else k + 1;
    }
  }

  /** A multiple of `p` is zero or has at least the degree of `p`. */
  lemma {:induction false} MultipleIsLarge(q: seq<nat>, p: Poly, d: nat)
    requires HasDegree(p, d)
    ensures Times(q, p) == {} || exists e :: e in Times(q, p) && e >= d
    decreases |q|
  {
    if q != [] {
      hide Times, Shifted, Plus;
      var i := Largest(q);
      var rest := q[..i] + q[i + 1..];
      TimesAt(q, p, i);
      if j :| 0 <= j < |rest| && rest[j] == q[i] {
        TimesAt(rest, p, j);
        var s, less := Shifted(p, q[i]), rest[..j] + rest[j + 1..];
        PlusAssoc(s, s, Times(less, p));
        PlusSelf(s);
        PlusSelf(Times(less, p));
        MultipleIsLarge(less, p, d);
      } else {
        TimesBelow(rest, p, d, q[i]);
        ShiftedMember(p, q[i], q[i] + d);
        PlusMember(Shifted(p, q[i]), Times(rest, p), q[i] + d);
      }
    }
  }

  lemma PlusMember(a: Poly, b: Poly, e: nat)
    ensures e in Plus(a, b) <==> (e in a <==> e !in b)
  {}

  lemma RemainderIsUnique(r: Poly, s: Poly, a: Poly, p: Poly, d: nat)
    requires HasDegree(p, d) && IsRemainder(r, a, p, d) && IsRemainder(s, a, p, d)
    ensures r == s
  {
    CongruentSwap(s, a, p);
    CongruentTrans(r, a, s, p);
    var q :| Times(q, p) == Plus(r, s);
    MultipleIsLarge(q, p, d);
    PlusZero(r, s);
  }
}

/** What the CRC is: a remainder modulo the Castagnoli polynomial. */
module CrcPoly {
  import opened Common
  import opened Words
  import opened CrcSpec
  import opened Gf2

  /** The polynomial of section 12.1 of RFC 3720, by its exponents. */
  const CASTAGNOLI: Poly := {32, 28, 27, 26, 25, 23, 22, 20, 19, 18, 14, 13, 11, 10, 9, 8, 6, 0}

  /** Bit `i` of a word, the lowest being bit 0. */
  predicate Bit(w: Word, i: nat)
    decreases i
  {
    if i == 0 then Odd(w) else Bit(Half(w), i - 1)
  }

  /** A word read as a polynomial of degree below 32: the lowest bit is the coefficient of the highest
      power. */
  ghost function WordPoly(w: Word): Poly {
    set i: nat | i < 32 && Bit(w, i) :: 31 - i
  }

  /** A message read as a polynomial, the first bit being the coefficient of the highest power and the
      lowest bit of a byte coming first. */
  ghost function MessagePoly(s: seq<byte>): Poly {
    set i: nat | i < 8 * |s| && Bit(OfByte(s[i / 8]), i % 8) :: 8 * |s| - 1 - i
  }

  /** The `n` low bits of a word, the lowest first. */
  ghost function BitsPoly(b: Word, n: nat): Poly {
    set i: nat | i < n && Bit(b, i) :: n - 1 - i
  }

  lemma WordMember(w: Word, e: nat)
    ensures e in WordPoly(w) <==> e < 32 && Bit(w, 31 - e)
  {
    if e < 32 && Bit(w, 31 - e) {
      assert 31 - (31 - e) in WordPoly(w);
    }
  }

  lemma BitsMember(b: Word, n: nat, e: nat)
    ensures e in BitsPoly(b, n) <==> e < n && Bit(b, n - 1 - e)
  {
    if e < n && Bit(b, n - 1 - e) {
      assert n - 1 - (n - 1 - e) in BitsPoly(b, n);
    }
  }

  lemma MessageMember(s: seq<byte>, e: nat)
    ensures e in MessagePoly(s) <==>
      e < 8 * |s| && var i := 8 * |s| - 1 - e; Bit(OfByte(s[i / 8]), i % 8)
  {
    if e < 8 * |s| {
      var i := 8 * |s| - 1 - e;
      assert Bit(OfByte(s[i / 8]), i % 8) ==> 8 * |s| - 1 - i in MessagePoly(s);
    }
  }

  // ----- Words

  lemma {:induction false} BitXor(a: Word, b: Word, i: nat)
    ensures Bit(Xor(a, b), i) <==> (Bit(a, i) <==> !Bit(b, i))
    decreases i
  {
    hide Xor, Half, Odd;
    OddXor(a, b);
    if i > 0 {
      HalfXor(a, b);
      BitXor(Half(a), Half(b), i - 1);
    }
  }

  lemma WordXor(a: Word, b: Word)
    ensures WordPoly(Xor(a, b)) == Plus(WordPoly(a), WordPoly(b))
  {
    hide WordPoly, Bit, Plus;
    forall e: nat
      ensures e in WordPoly(Xor(a, b)) <==> e in Plus(WordPoly(a), WordPoly(b))
    {
      WordMember(Xor(a, b), e);
      WordMember(a, e);
      WordMember(b, e);
      PlusMember(WordPoly(a), WordPoly(b), e);
      if e < 32 {
        BitXor(a, b, 31 - e);
      }
    }
  }

  lemma {:induction false} BitIsHalves(w: Word, i: nat)
    ensures Bit(w, i) <==> Odd(Halves(w, i))
    decreases i
  {
    hide Half, Odd;
    if i > 0 {
      BitIsHalves(Half(w), i - 1);
    }
  }

  lemma {:induction false} HalvesCompose(w: Word, m: nat, n: nat)
    ensures Halves(Halves(w, m), n) == Halves(w, m + n)
    decreases m
  {
    hide Half;
    if m > 0 {
      HalvesCompose(Half(w), m - 1, n);
    }
  }

  lemma EightBits(w: Word)
    ensures Halves(w, 8) == ShiftByte(w)
  {
    hide Half, ShiftByte;
    Halves8(w);
    EightHalves(w);
  }

  lemma FourBytes(w: Word)
    ensures ShiftByte(ShiftByte(ShiftByte(ShiftByte(w)))) == Zero
  {}

  /** A word has no bits past the 32nd. */
  lemma NoMoreBits(w: Word)
    ensures Halves(w, 32) == Zero && !Bit(w, 32)
  {
    hide Halves, ShiftByte, Odd, Bit;
    EightBits(w);
    EightBits(Halves(w, 8));
    EightBits(Halves(w, 16));
    EightBits(Halves(w, 24));
    HalvesCompose(w, 8, 8);
    HalvesCompose(w, 16, 8);
    HalvesCompose(w, 24, 8);
    FourBytes(w);
    BitIsHalves(w, 32);
    ZeroIsEven();
  }

  lemma ZeroIsEven()
    ensures !Odd(Zero)
  {}

  /** Shifting a register down multiplies by x, but for the bit that falls out. */
  lemma WordHalf(w: Word)
    ensures Shifted(WordPoly(w), 1) == Plus(if Odd(w) then {32} else {}, WordPoly(Half(w)))
  {
    hide WordPoly, Plus, Shifted, Half, Odd;
    NoMoreBits(w);
    var out: Poly := if Odd(w) then {32} else {};
    forall e: nat
      ensures e in Shifted(WordPoly(w), 1) <==> e in Plus(out, WordPoly(Half(w)))
    {
      ShiftedMember(WordPoly(w), 1, e);
      PlusMember(out, WordPoly(Half(w)), e);
      WordMember(Half(w), e);
      if e > 0 {
        WordMember(w, e - 1);
      }
    }
  }

  lemma LowFour(w: Word)
    ensures Bit(w, 0) <==> Odd(w)
    ensures Bit(w, 1) <==> Odd(Half(w))
    ensures Bit(w, 2) <==> Odd(Half(Half(w)))
    ensures Bit(w, 3) <==> Odd(Half(Half(Half(w))))
  {
    hide Half, Odd;
  }

  lemma PastFour(w: Word, i: nat)
    requires i >= 4
    ensures Bit(w, i) <==> Bit(Sixteenth(w), i - 4)
  {
    hide *;
    BitIsHalves(w, i);
    BitIsHalves(Sixteenth(w), i - 4);
    HalvesCompose(w, 4, i - 4);
    HalvesFour(w);
  }

  lemma HalvesFour(w: Word)
    ensures Halves(w, 4) == Sixteenth(w)
  {
    hide Half, Quarter, Sixteenth;
    TwoHalves(w);
    TwoHalves(Quarter(w));
    TwoQuarters(w);
    assert Halves(w, 4) == Halves(Half(Half(w)), 2);
  }

  /** The next four bits of a constant, and the constant without them. */
  ghost predicate Nibble(w: Word, b0: bool, b1: bool, b2: bool, b3: bool, rest: Word) {
    && (Odd(w) <==> b0) && (Odd(Half(w)) <==> b1) && (Odd(Half(Half(w))) <==> b2) && (Odd(Half(Half(Half(w)))) <==> b3)
    && Sixteenth(w) == rest
  }

  lemma PolyNibbles()
    ensures Nibble(Word(0x82f63b78), false, false, false, true, Word(0x82f63b7))
    ensures Nibble(Word(0x82f63b7), true, true, true, false, Word(0x82f63b))
    ensures Nibble(Word(0x82f63b), true, true, false, true, Word(0x82f63))
    ensures Nibble(Word(0x82f63), true, true, false, false, Word(0x82f6))
    ensures Nibble(Word(0x82f6), false, true, true, false, Word(0x82f))
    ensures Nibble(Word(0x82f), true, true, true, true, Word(0x82))
    ensures Nibble(Word(0x82), false, true, false, false, Word(0x8))
    ensures Nibble(Word(0x8), false, false, false, true, Word(0))
  {}

  lemma NibbleBits(w: Word, b0: bool, b1: bool, b2: bool, b3: bool, rest: Word, i: nat)
    requires Nibble(w, b0, b1, b2, b3, rest)
    ensures Bit(w, i) <==>
      if i == 0 then b0 else if i == 1 then b1 else if i == 2 then b2 else if i == 3 then b3 else Bit(rest, i - 4)
  {
    hide Bit, Half, Odd, Sixteenth;
    LowFour(w);
    if i >= 4 {
      PastFour(w, i);
    }
  }

  lemma PolyBit(i: nat)
    requires i < 32
    ensures Bit(POLY, i) <==> 31 - i in CASTAGNOLI
  {
    hide Bit, Nibble;
    PolyNibbles();
    NibbleBits(Word(0x82f63b78), false, false, false, true, Word(0x82f63b7), i);
    if i >= 4 { NibbleBits(Word(0x82f63b7), true, true, true, false, Word(0x82f63b), i - 4); }
    if i >= 8 { NibbleBits(Word(0x82f63b), true, true, false, true, Word(0x82f63), i - 8); }
    if i >= 12 { NibbleBits(Word(0x82f63), true, true, false, false, Word(0x82f6), i - 12); }
    if i >= 16 { NibbleBits(Word(0x82f6), false, true, true, false, Word(0x82f), i - 16); }
    if i >= 20 { NibbleBits(Word(0x82f), true, true, true, true, Word(0x82), i - 20); }
    if i >= 24 { NibbleBits(Word(0x82), false, true, false, false, Word(0x8), i - 24); }
    if i >= 28 { NibbleBits(Word(0x8), false, false, false, true, Word(0), i - 28); }
  }

  /** The constant of the code is the polynomial without its highest power. */
  lemma PolyBits()
    ensures WordPoly(POLY) == CASTAGNOLI - {32}
  {
    hide WordPoly, Bit;
    forall e: nat
      ensures e in WordPoly(POLY) <==> e in CASTAGNOLI - {32}
    {
      WordMember(POLY, e);
      if e < 32 {
        PolyBit(31 - e);
      }
    }
  }

  lemma OneBit()
    ensures WordPoly(Word(1)) == {31} && WordPoly(Zero) == {}
  {
    hide WordPoly;
    forall e: nat
      ensures e in WordPoly(Word(1)) <==> e == 31
      ensures e !in WordPoly(Zero)
    {
      WordMember(Word(1), e);
      WordMember(Zero, e);
      ZeroBits(if e < 32 then 31 - e else 0);
    }
  }

  lemma {:induction false} ZeroBits(i: nat)
    ensures !Bit(Zero, i) && (Bit(Word(1), i) <==> i == 0)
    decreases i
  {
    assert Half(Zero) == Zero && Half(Word(1)) == Zero && !Odd(Zero) && Odd(Word(1));
    if i > 0 {
      ZeroBits(i - 1);
    }
  }

  // ----- Feeding

  function BitPoly(bit: bool, e: nat): Poly {
    if bit then {e} else {}
  }

  lemma StepPoly(w: Word)
    ensures Plus(Shifted(WordPoly(w), 1), WordPoly(BitStep(w))) == if Odd(w) then CASTAGNOLI else {}
  {
    hide WordPoly, Shifted, Odd, Half, Xor, CASTAGNOLI;
    WordHalf(w);
    var h := WordPoly(Half(w));
    if Odd(w) {
      WordXor(Half(w), POLY);
      PolyBits();
      TopAndRest();
      PlusThrough({32}, h, CASTAGNOLI - {32});
    } else {
      PlusSelf(h);
    }
  }

  lemma TopAndRest()
    ensures Plus({32}, CASTAGNOLI - {32}) == CASTAGNOLI
  {
    assert 32 in CASTAGNOLI;
  }

  /** Feeding one bit multiplies the register by x and adds the bit times the 32nd power. */
  lemma BitIsFed(c: Word, bit: bool)
    ensures Congruent(WordPoly(BitStep(Xor(c, if bit then Word(1) else Zero))),
                      Plus(Shifted(WordPoly(c), 1), BitPoly(bit, 32)), CASTAGNOLI)
  {
    hide WordPoly, Shifted, Odd, Half, Xor, Plus, BitStep, CASTAGNOLI;
    var b := if bit then Word(1) else Zero;
    var w := Xor(c, b);
    WordXor(c, b);
    OneBit();
    ShiftedPlus(WordPoly(c), WordPoly(b), 1);
    ShiftedBit(bit);
    StepPoly(w);
    PlusComm(Shifted(WordPoly(w), 1), WordPoly(BitStep(w)));
    MultipleOfPoly(Odd(w));
  }

  lemma ShiftedBit(bit: bool)
    ensures Shifted(BitPoly(bit, 31), 1) == BitPoly(bit, 32)
  {
    assert 31 in BitPoly(bit, 31) ==> 31 + 1 in Shifted(BitPoly(bit, 31), 1);
  }

  lemma MultipleOfPoly(once: bool)
    ensures exists q :: Times(q, CASTAGNOLI) == if once then CASTAGNOLI else {}
  {
    hide CASTAGNOLI, Shifted;
    TimesOne(0, CASTAGNOLI);
    ShiftedNone(CASTAGNOLI, 0);
    assert Times([0], CASTAGNOLI) == CASTAGNOLI;
    assert Times([], CASTAGNOLI) == {};
  }

  lemma BitsHalf(b: Word, n: nat)
    requires n > 0
    ensures BitsPoly(b, n) == Plus(BitPoly(Odd(b), n - 1), BitsPoly(Half(b), n - 1))
  {
    hide BitsPoly, Plus, Odd, Half;
    forall e: nat
      ensures e in BitsPoly(b, n) <==> e in Plus(BitPoly(Odd(b), n - 1), BitsPoly(Half(b), n - 1))
    {
      BitsMember(b, n, e);
      BitsMember(Half(b), n - 1, e);
      PlusMember(BitPoly(Odd(b), n - 1), BitsPoly(Half(b), n - 1), e);
    }
  }

  lemma ShiftedPower(bit: bool, e: nat, k: nat)
    ensures Shifted(BitPoly(bit, e), k) == BitPoly(bit, e + k)
  {
    assert e in BitPoly(bit, e) ==> e + k in Shifted(BitPoly(bit, e), k);
  }

  lemma BitsNone(b: Word)
    ensures BitsPoly(b, 0) == {}
  {}

  /** Feeding `n` bits multiplies by the `n`-th power of x and adds the bits times the 32nd. */
  lemma {:induction false} BitsAreFed(c: Word, b: Word, n: nat)
    ensures Congruent(WordPoly(FeedBits(c, b, n)), Plus(Shifted(WordPoly(c), n), Shifted(BitsPoly(b, n), 32)),
                      CASTAGNOLI)
    decreases n
  {
    hide WordPoly, BitsPoly, Shifted, Odd, Half, Xor, Plus, BitStep, CASTAGNOLI, Congruent;
    var p := CASTAGNOLI;
    if n == 0 {
      BitsNone(b);
      ShiftedNone(WordPoly(c), 32);
      ShiftedNone(WordPoly(c), 0);
      PlusSelf(WordPoly(c));
      CongruentSelf(WordPoly(c), p);
    } else {
      var d := BitStep(Xor(c, if Odd(b) then Word(1) else Zero));
      BitsAreFed(d, Half(b), n - 1);
      BitIsFed(c, Odd(b));
      FedTogether(WordPoly(FeedBits(c, b, n)), WordPoly(d), WordPoly(c), BitPoly(Odd(b), 32),
                  BitsPoly(Half(b), n - 1), n - 1, 1);
      ShiftedPower(Odd(b), 32, n - 1);
      ShiftedPower(Odd(b), n - 1, 32);
      BitsHalf(b, n);
      ShiftedPlus(BitPoly(Odd(b), n - 1), BitsPoly(Half(b), n - 1), 32);
    }
  }

  /** Two stretches fed one after the other. */
  lemma FedTogether(f: Poly, d: Poly, c: Poly, first: Poly, second: Poly, n: nat, m: nat)
    requires Congruent(d, Plus(Shifted(c, m), first), CASTAGNOLI)
    requires Congruent(f, Plus(Shifted(d, n), Shifted(second, 32)), CASTAGNOLI)
    ensures Congruent(f, Plus(Shifted(c, m + n), Plus(Shifted(first, n), Shifted(second, 32))), CASTAGNOLI)
  {
    hide Shifted, Plus, CASTAGNOLI, Congruent;
    var p, s := CASTAGNOLI, Shifted(second, 32);
    CongruentShifted(d, Plus(Shifted(c, m), first), p, n);
    ShiftedPlus(Shifted(c, m), first, n);
    ShiftedTwice(c, m, n);
    CongruentSelf(s, p);
    CongruentPlus(Shifted(d, n), Plus(Shifted(c, m + n), Shifted(first, n)), s, s, p);
    PlusAssoc(Shifted(c, m + n), Shifted(first, n), s);
    CongruentTrans(f, Plus(Shifted(d, n), s), Plus(Plus(Shifted(c, m + n), Shifted(first, n)), s), p);
  }

  lemma MessageLast(s: seq<byte>)
    requires s != []
    ensures MessagePoly(s) == Plus(Shifted(MessagePoly(s[..|s| - 1]), 8), BitsPoly(OfByte(s[|s| - 1]), 8))
  {
    hide BitsPoly, MessagePoly, Plus, Shifted, OfByte, Bit;
    var t, b := s[..|s| - 1], OfByte(s[|s| - 1]);
    forall e: nat
      ensures e in MessagePoly(s) <==> e in Plus(Shifted(MessagePoly(t), 8), BitsPoly(b, 8))
    {
      MessageMember(s, e);
      PlusMember(Shifted(MessagePoly(t), 8), BitsPoly(b, 8), e);
      ShiftedMember(MessagePoly(t), 8, e);
      BitsMember(b, 8, e);
      if e >= 8 {
        MessageMember(t, e - 8);
      }
    }
  }

  lemma {:induction false} MessageIsFed(c: Word, s: seq<byte>)
    ensures Congruent(WordPoly(Feed(c, s)), Plus(Shifted(WordPoly(c), 8 * |s|), Shifted(MessagePoly(s), 32)),
                      CASTAGNOLI)
    decreases |s|
  {
    hide WordPoly, MessagePoly, BitsPoly, Shifted, Plus, CASTAGNOLI, Congruent, FeedBits, OfByte;
    var p := CASTAGNOLI;
    if s == [] {
      NoMessage(s);
      ShiftedNone(WordPoly(c), 32);
      ShiftedNone(WordPoly(c), 0);
      PlusSelf(WordPoly(c));
      CongruentSelf(WordPoly(c), p);
    } else {
      var t, b := s[..|s| - 1], OfByte(s[|s| - 1]);
      var d := Feed(c, t);
      MessageIsFed(c, t);
      BitsAreFed(d, b, 8);
      FedTogether(WordPoly(Feed(c, s)), WordPoly(d), WordPoly(c), Shifted(MessagePoly(t), 32), BitsPoly(b, 8), 8,
                  8 * |t|);
      ShiftedTwice(MessagePoly(t), 32, 8);
      ShiftedTwice(MessagePoly(t), 8, 32);
      MessageLast(s);
      ShiftedPlus(Shifted(MessagePoly(t), 8), BitsPoly(b, 8), 32);
    }
  }

  lemma NoMessage(s: seq<byte>)
    requires s == []
    ensures MessagePoly(s) == {}
  {}

  // ----- The CRC

  /** What is divided: the message times the 32nd power of x, with the complement of the CRC so far added
      to its first 32 bits. */
  ghost function Dividend(crc: Word, s: seq<byte>): Poly {
    Plus(Shifted(WordPoly(Not(crc)), 8 * |s|), Shifted(MessagePoly(s), 32))
  }

  /** The CRC is the complement of the remainder of the message modulo the Castagnoli polynomial. */
  lemma CrcIsRemainder(crc: Word, s: seq<byte>)
    ensures IsRemainder(WordPoly(Not(Crc(crc, s))), Dividend(crc, s), CASTAGNOLI, 32)
  {
    hide Congruent, Feed, Not, CASTAGNOLI;
    NotNot(Feed(Not(crc), s));
    MessageIsFed(Not(crc), s);
  }

  lemma {:induction false} SameBits(a: Word, b: Word, n: nat)
    requires Halves(a, n) == Zero == Halves(b, n) && forall i: nat :: i < n ==> (Bit(a, i) <==> Bit(b, i))
    ensures a == b
    decreases n
  {
    hide Half, Odd, Xor, Twice;
    if n > 0 {
      assert Bit(a, 0) <==> Bit(b, 0);
      forall i: nat | i < n - 1
        ensures Bit(Half(a), i) <==> Bit(Half(b), i)
      {
        assert Bit(a, i + 1) <==> Bit(b, i + 1);
      }
      SameBits(Half(a), Half(b), n - 1);
      SplitLowBit(a);
      SplitLowBit(b);
    }
  }

  lemma WordPolyInjective(a: Word, b: Word)
    requires WordPoly(a) == WordPoly(b)
    ensures a == b
  {
    hide WordPoly, Bit, Halves;
    NoMoreBits(a);
    NoMoreBits(b);
    forall i: nat | i < 32
      ensures Bit(a, i) <==> Bit(b, i)
    {
      WordMember(a, 31 - i);
      WordMember(b, 31 - i);
    }
    SameBits(a, b, 32);
  }

  /** And it is the only word of which that is true. */
  lemma CrcIsDetermined(crc: Word, s: seq<byte>, w: Word)
    ensures w == Crc(crc, s) <==> IsRemainder(WordPoly(Not(w)), Dividend(crc, s), CASTAGNOLI, 32)
  {
    hide IsRemainder, Crc, WordPoly, Dividend, Not;
    CrcIsRemainder(crc, s);
    if IsRemainder(WordPoly(Not(w)), Dividend(crc, s), CASTAGNOLI, 32) {
      PolyDegree();
      RemainderIsUnique(WordPoly(Not(w)), WordPoly(Not(Crc(crc, s))), Dividend(crc, s), CASTAGNOLI, 32);
      WordPolyInjective(Not(w), Not(Crc(crc, s)));
      NotNot(w);
      NotNot(Crc(crc, s));
    }
  }

  lemma PolyDegree()
    ensures HasDegree(CASTAGNOLI, 32)
  {}

  // ----- A published value

  lemma DigitsFed()
    ensures FeedByte(Word(0xffffffff), 0x31) == Word(0x6f0a661c)
    ensures FeedByte(Word(0x6f0a661c), 0x32) == Word(0x8caa3b9f)
    ensures FeedByte(Word(0x8caa3b9f), 0x33) == Word(0xef84d04d)
    ensures FeedByte(Word(0xef84d04d), 0x34) == Word(0x9c50b11)
    ensures FeedByte(Word(0x9c50b11), 0x35) == Word(0xe72edcca)
    ensures FeedByte(Word(0xe72edcca), 0x36) == Word(0xbeca8e79)
    ensures FeedByte(Word(0xbeca8e79), 0x37) == Word(0xedbd6815)
    ensures FeedByte(Word(0xedbd6815), 0x38) == Word(0x9f787f65)
    ensures FeedByte(Word(0x9f787f65), 0x39) == Word(0x1cf96d7c)
  {}

  lemma FeedNext(s: seq<byte>, k: nat)
    requires k < |s|
    ensures Feed(Word(0xffff_ffff), s[..k + 1]) == FeedByte(Feed(Word(0xffff_ffff), s[..k]), s[k])
  {
    hide FeedByte;
    assert s[..k + 1][..k] == s[..k];
  }

  /** The CRC-32C of the digits 1 to 9. */
  lemma CheckValue()
    ensures Crc(Zero, [0x31, 0x32, 0x33, 0x34, 0x35, 0x36, 0x37, 0x38, 0x39]) == Word(0xe306_9283)
  {
    hide FeedByte, Feed, Not;
    Complements();
    FeedNone();
    var s: seq<byte> := [0x31, 0x32, 0x33, 0x34, 0x35, 0x36, 0x37, 0x38, 0x39];
    DigitsFed();
    FeedNext(s, 0);
    FeedNext(s, 1);
    FeedNext(s, 2);
    FeedNext(s, 3);
    FeedNext(s, 4);
    FeedNext(s, 5);
    FeedNext(s, 6);
    FeedNext(s, 7);
    FeedNext(s, 8);
    assert s[..0] == [] && s[..9] == s;
  }

  lemma Complements()
    ensures Not(Zero) == Word(0xffff_ffff) && Not(Word(0x1cf9_6d7c)) == Word(0xe306_9283)
  {}

  lemma FeedNone()
    ensures Feed(Word(0xffff_ffff), []) == Word(0xffff_ffff)
  {}
}
