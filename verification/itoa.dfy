/** Integers printed two digits at a time. */
module Itoa {
  import opened Common
  import Division

  const ZERO: byte := 48
  const MINUS: byte := 45
  const W32: nat := 0x1_0000_0000
  const W64: nat := 0x1_0000_0000_0000_0000

  /** The decimal digits of a number, most significant first. */
  function Digits(u: nat): (r: seq<byte>)
    ensures |r| > 0
  {
    if u < 10 then [Digit(u)] else Digits(u / 10) + [Digit(u % 10)]
  }

  function Digit(d: nat): byte
    requires d < 10
  {
    ZERO + d as byte
  }

  /** What a string of digits stands for. */
  function Value(s: seq<byte>): nat
    requires forall i :: 0 <= i < |s| ==> ZERO <= s[i] <= ZERO + 9
  {
    if s == [] then 0 else 10 * Value(s[..|s| - 1]) + (s[|s| - 1] - ZERO) as nat
  }

  ghost predicate AllDigits(s: seq<byte>) {
    forall i :: 0 <= i < |s| ==> ZERO <= s[i] <= ZERO + 9
  }

  /** The digits read back as the number, and do not start with a zero unless they are just that. */
  lemma {:induction false} DigitsValue(u: nat)
    ensures AllDigits(Digits(u)) && Value(Digits(u)) == u
    ensures u > 0 ==> Digits(u)[0] != ZERO
    ensures u == 0 ==> Digits(u) == [ZERO]
  {
    if u >= 10 {
      DigitsValue(u / 10);
      var s := Digits(u);
      assert s[..|s| - 1] == Digits(u / 10);
    }
  }

  function Pow10(n: nat): (p: nat)
    ensures p > 0
  {
    if n == 0 then 1 else 10 * Pow10(n - 1)
  }

  /** A number in exactly `n` digits. */
  function Padded(u: nat, n: nat): (r: seq<byte>)
    ensures |r| == n
  {
    if n == 0 then [] else Padded(u / 10, n - 1) + [Digit(u % 10)]
  }

  lemma {:induction false} DigitsPadded(u: nat, n: nat)
    requires n > 0 && u < Pow10(n) && (n == 1 || u >= Pow10(n - 1))
    ensures Digits(u) == Padded(u, n)
    decreases n
  {
    if n > 1 {
      assert u >= 10;
      DigitsPadded(u / 10, n - 1);
    } else {
      assert Padded(u / 10, 0) == [];
    }
  }

  lemma SplitTen(u: nat, q: nat, p: nat, r: nat)
    requires u == q * (10 * p) + r && r < 10 * p
    ensures u == 10 * (q * p + r / 10) + r % 10
    ensures q * p >= 0 && r / 10 < p
    ensures u / 10 == q * p + r / 10 && u % 10 == r % 10
    ensures q > 0 ==> u >= 10
  {
    assert q * (10 * p) == 10 * (q * p);
    assert q > 0 ==> q * p >= p;
  }

  lemma Quotient(u: nat, k: nat, c: nat)
    requires k > 0 && u < c * k
    ensures u / k < c
  {
    var q := u / k;
    assert q * k <= u;
    assert q >= c ==> q * k >= c * k;
  }

  /** The first digits of a number, and its last ones. */
  lemma {:induction false} PaddedSplit(u: nat, a: nat, b: nat, q: nat, r: nat)
    requires u == q * Pow10(b) + r && r < Pow10(b)
    ensures Padded(u, a + b) == Padded(q, a) + Padded(r, b)
    decreases b
  {
    if b > 0 {
      var p := Pow10(b - 1);
      SplitTen(u, q, p, r);
      PaddedSplit(u / 10, a, b - 1, q, r / 10);
    } else {
      assert Padded(r, 0) == [];
    }
  }

  /** Memory with `s` written at `p`. */
  function Put(mem: seq<byte>, p: nat, s: seq<byte>): (r: seq<byte>)
    requires p + |s| <= |mem|
    ensures |r| == |mem|
  {
    mem[..p] + s + mem[p + |s|..]
  }

  lemma PutPut(mem: seq<byte>, p: nat, s: seq<byte>, t: seq<byte>)
    requires p + |s| + |t| <= |mem|
    ensures Put(Put(mem, p, s), p + |s|, t) == Put(mem, p, s + t)
  {
  }

  /** The table of all pairs of digits, by tens. */
  function Row(tens: nat): (r: string)
    ensures |r| == 20
  {
    match tens
    case 0 => "00010203040506070809"
    case 1 => "10111213141516171819"
    case 2 => "20212223242526272829"
    case 3 => "30313233343536373839"
    case 4 => "40414243444546474849"
    case 5 => "50515253545556575859"
    case 6 => "60616263646566676869"
    case 7 => "70717273747576777879"
    case 8 => "80818283848586878889"
    case _ => "90919293949596979899"
  }

  function Pairs(t: char): (r: string)
    ensures |r| == 20
  {
    [t, '0', t, '1', t, '2', t, '3', t, '4', t, '5', t, '6', t, '7', t, '8', t, '9']
  }

  lemma PairsDigits(t: char, ones: nat)
    requires ones < 10
    ensures Pairs(t)[2 * ones] == t
    ensures Pairs(t)[2 * ones + 1] as nat == ZERO as nat + ones
  {
  }

  lemma RowDigits(tens: nat, ones: nat)
    requires tens < 10 && ones < 10
    ensures Row(tens)[2 * ones] as nat == ZERO as nat + tens
    ensures Row(tens)[2 * ones + 1] as nat == ZERO as nat + ones
  {
    RowIsPairs(tens);
    hide Row, Pairs;
    PairsDigits((48 + tens) as char, ones);
  }

  lemma RowIsPairs(tens: nat)
    requires tens < 10
    ensures Row(tens) == Pairs((48 + tens) as char)
  {
    hide Row, Pairs;
    if tens < 5 {
      LowRows(tens);
    } else {
      HighRows(tens);
    }
  }

  lemma LowRows(tens: nat)
    requires tens < 5
    ensures Row(tens) == Pairs((48 + tens) as char)
  {
    match tens
    case 0 => assert Row(0) == Pairs('0');
    case 1 => assert Row(1) == Pairs('1');
    case 2 => assert Row(2) == Pairs('2');
    case 3 => assert Row(3) == Pairs('3');
    case _ => assert Row(4) == Pairs('4');
  }

  lemma HighRows(tens: nat)
    requires 5 <= tens < 10
    ensures Row(tens) == Pairs((48 + tens) as char)
  {
    match tens
    case 5 => assert Row(5) == Pairs('5');
    case 6 => assert Row(6) == Pairs('6');
    case 7 => assert Row(7) == Pairs('7');
    case 8 => assert Row(8) == Pairs('8');
    case _ => assert Row(9) == Pairs('9');
  }

  method Out1(digit: byte, buf: array<byte>, p: nat) returns (q: nat)
    requires p < buf.Length
    modifies buf
    ensures q == p + 1 && buf[..] == Put(old(buf[..]), p, [digit])
  {
    buf[p] := digit;
    return p + 1;
  }

  method Out2(d: nat, buf: array<byte>, p: nat) returns (q: nat)
    requires d < 100 && p + 2 <= buf.Length
    modifies buf
    ensures q == p + 2 && buf[..] == Put(old(buf[..]), p, Padded(d, 2))
  {
    hide Row;
    TwoDigits(d);
    RowDigits(d / 10, d % 10);
    var pair := Row(d / 10)[2 * (d % 10)..2 * (d % 10) + 2];
    buf[p] := pair[0] as int as byte;
    buf[p + 1] := pair[1] as int as byte;
    return p + 2;
  }

  lemma TwoDigits(d: nat)
    requires d < 100
    ensures Padded(d, 2) == [Digit(d / 10), Digit(d % 10)]
  {
    assert Padded(d / 100, 0) == [];
    assert Padded(d / 10, 1) == [Digit(d / 10)];
  }

  /** Subtraction of `d` times `k` in 32 bits. */
  function Less(u: nat, d: nat, k: nat): nat {
    (u - d * k) % W32
  }

  lemma LessIsRest(u: nat, d: nat, k: nat)
    requires 0 < k && u < W32 && d == u / k
    ensures Less(u, d, k) == u % k
  {
    assert u == d * k + u % k;
  }

  /** Two digits written, and what is left of the number. */
  lemma Stage(mem: seq<byte>, p: nat, text: seq<byte>, u: nat, m: nat, d: nat, r: nat)
    requires m >= 2 && u == d * Pow10(m - 2) + r && r < Pow10(m - 2) && p + |text| + 2 <= |mem|
    ensures Put(Put(mem, p, text), p + |text|, Padded(d, 2)) == Put(mem, p, text + Padded(d, 2))
    ensures text + Padded(u, m) == text + Padded(d, 2) + Padded(r, m - 2)
  {
    hide Padded, Put;
    PutPut(mem, p, text, Padded(d, 2));
    PaddedSplit(u, 2, m - 2, d, r);
  }

  lemma Powers()
    ensures Pow10(0) == 1 && Pow10(1) == 10 && Pow10(2) == 100 && Pow10(3) == 1000 && Pow10(4) == 10000
    ensures Pow10(5) == 100000 && Pow10(6) == 1000000 && Pow10(7) == 10000000 && Pow10(8) == 100000000
    ensures Pow10(9) == 1000000000 && Pow10(10) == 10000000000
  {
    assert Pow10(2) == 100 && Pow10(4) == 10000 && Pow10(6) == 1000000 && Pow10(8) == 100000000;
  }

  /** The digits still to write at each entry: all of an even number of them, or those after the one
      already written. */
  function Left(n: nat): nat {
    n - n % 2
  }

  /** Divides and remainders by the powers that are used, all of them constants. */
  lemma DivMod(u: nat, k: nat)
    requires k > 0
    ensures u == u / k * k + u % k && u % k < k
  {
  }

  /** One step: two digits of `u`, above `k`, are written, and the rest is kept. */
  method TwoMore(u: nat, k: nat, buf: array<byte>, p: nat, ghost was: seq<byte>, ghost at: nat, ghost text: seq<byte>,
                 ghost m: nat)
    returns (v: nat, q: nat, ghost more: seq<byte>)
    requires u < W32 && m >= 2 && k == Pow10(m - 2) && u < 100 * k
    requires at + |text| + 2 <= buf.Length == |was| && p == at + |text| && buf[..] == Put(was, at, text)
    modifies buf
    ensures v < k && q == p + 2 && q == at + |more| && buf[..] == Put(was, at, more)
    ensures more + Padded(v, m - 2) == text + Padded(u, m)
  {
    hide Padded, Put, Pow10;
    var d := u / k;
    DivMod(u, k);
    Quotient(u, k, 100);
    LessIsRest(u, d, k);
    Stage(was, at, text, u, m, d, u % k);
    q := Out2(d, buf, p);
    v := Less(u, d, k);
    more := text + Padded(d, 2);
  }

  /** Writes the remaining digits of `number`, entering at `n` of them, and ends the string. */
  method Write(number: nat, buf: array<byte>, at: nat, digit: nat, n: nat) returns (p: nat)
    requires number < W32 && 1 <= n <= 10 && number < Pow10(n)
    requires n % 2 == 1 ==> digit == number / Pow10(n - 1)
    requires at + Left(n) < buf.Length
    modifies buf
    ensures p == at + Left(n)
    ensures buf[..] == Put(old(buf[..]), at, Padded(number % Pow10(Left(n)), Left(n)) + [0])
  {
    Powers();
    hide Pow10, Padded, Put, Less;
    ghost var was, all := buf[..], Padded(number % Pow10(Left(n)), Left(n));
    ghost var text: seq<byte> := [];
    var u := number;
    p := at;
    PutNothing(was, at);
    if n == 10 {
      u, p, text := TwoMore(u, 100000000, buf, p, was, at, text, 10);
    } else if n == 9 {
      LessIsRest(u, digit, 100000000);
      u := Less(u, digit, 100000000);
    }
    assert n >= 8 ==> text + Padded(u, 8) == all;
    if n >= 8 {
      u, p, text := TwoMore(u, 1000000, buf, p, was, at, text, 8);
    } else if n == 7 {
      LessIsRest(u, digit, 1000000);
      u := Less(u, digit, 1000000);
    }
    assert n >= 6 ==> text + Padded(u, 6) == all;
    if n >= 6 {
      u, p, text := TwoMore(u, 10000, buf, p, was, at, text, 6);
    } else if n == 5 {
      LessIsRest(u, digit, 10000);
      u := Less(u, digit, 10000);
    }
    assert n >= 4 ==> text + Padded(u, 4) == all;
    if n >= 4 {
      u, p, text := TwoMore(u, 100, buf, p, was, at, text, 4);
    } else if n == 3 {
      LessIsRest(u, digit, 100);
      u := Less(u, digit, 100);
    }
    assert n >= 2 ==> text + Padded(u, 2) == all;
    if n >= 2 {
      u, p, text := TwoMore(u, 1, buf, p, was, at, text, 2);
    }
    PaddedNone(0);
    assert text + Padded(0, 0) == all;
    assert text == all;
    PutPut(was, at, text, [0]);
    p := Out1(0, buf, p);
    p := p - 1;
  }

  lemma PaddedNone(u: nat)
    ensures Padded(u, 0) == []
  {
  }

  lemma PutNothing(mem: seq<byte>, p: nat)
    requires p <= |mem|
    ensures Put(mem, p, []) == mem
  {
  }

  lemma {:induction false} DigitsSplit(u: nat, b: nat, q: nat, r: nat)
    requires u == q * Pow10(b) + r && r < Pow10(b) && q > 0
    ensures Digits(u) == Digits(q) + Padded(r, b)
    decreases b
  {
    hide Digits, Padded, Pow10, Digit;
    TenTimes(b);
    if b > 0 {
      SplitTen(u, q, Pow10(b - 1), r);
      LastDigits(u, r, b);
      DigitsSplit(u / 10, b - 1, q, r / 10);
    } else {
      PaddedNone(r);
      assert Digits(q) + [] == Digits(q);
    }
  }

  lemma TenTimes(b: nat)
    ensures Pow10(b) == if b == 0 then 1 else 10 * Pow10(b - 1)
  {}

  lemma LastDigits(u: nat, r: nat, b: nat)
    requires u >= 10 && b > 0
    ensures Digits(u) == Digits(u / 10) + [Digit(u % 10)]
    ensures Padded(r, b) == Padded(r / 10, b - 1) + [Digit(r % 10)]
  {}

  lemma PutOver(mem: seq<byte>, p: nat, s: seq<byte>, t: seq<byte>)
    requires p + |s| + |t| <= |mem| && t != []
    ensures Put(Put(mem, p, s + [0]), p + |s|, t) == Put(mem, p, s + t)
  {
  }

  /** The leading digit, if the number of digits is odd. */
  method FirstDigit(u: nat, k: nat, buf: array<byte>, p: nat, n: nat) returns (d: nat, q: nat, m: nat)
    requires k > 0 && n > 0 && p < buf.Length
    modifies buf
    ensures u < k * 10 ==>
      d == u / k && d < 10 && q == p + 1 && m == n - 1 && buf[..] == Put(old(buf[..]), p, [Digit(d)])
    ensures u >= k * 10 ==> q == p && m == n && buf[..] == old(buf[..])
  {
    d, q, m := 0, p, n;
    if u < k * 10 {
      d := u / k;
      Quotient(u, k, 10);
      q := Out1(Digit(d), buf, p);
      m := m - 1;
    }
  }

  /** With the even number of digits `n` chosen right, the leading digit and the rest are the digits
      of the number. */
  lemma Leading(u: nat, n: nat, k: nat)
    requires n >= 2 && k == Pow10(n - 2) && u < 100 * k && (n == 2 || u >= k)
    ensures u >= 10 * k ==> Digits(u) == Padded(u, n)
    ensures u < 10 * k ==> u / k < 10 && Digits(u) == [Digit(u / k)] + Padded(u % k, n - 2)
  {
    hide Padded, Digits;
    DivMod(u, k);
    assert Pow10(n) == 10 * Pow10(n - 1) && Pow10(n - 1) == 10 * k;
    if u >= 10 * k {
      DigitsPadded(u, n);
    } else {
      Quotient(u, k, 10);
      DigitsPadded(u, n - 1);
      PaddedSplit(u, 1, n - 2, u / k, u % k);
      PaddedOne(u / k);
    }
  }

  lemma PaddedOne(d: nat)
    requires d < 10
    ensures Padded(d, 1) == [Digit(d)]
  {
    assert Padded(d / 10, 0) == [];
  }

  /** `itoa_u32`. */
  method U32(u: nat, buf: array<byte>, at: nat) returns (p: nat)
    requires u < W32 && at + |Digits(u)| < buf.Length
    modifies buf
    ensures p == at + |Digits(u)| && buf[..] == Put(old(buf[..]), at, Digits(u) + [0])
  {
    Powers();
    hide Padded, Put, Digits, Pow10;
    var k, n := 1, 2;
    if u >= 100000000 {
      k, n := 100000000, 10;
    } else if u < 100 {
      k, n := 1, 2;
    } else if u < 10000 {
      k, n := 100, 4;
    } else if u < 1000000 {
      k, n := 10000, 6;
    } else {
      k, n := 1000000, 8;
    }
    Leading(u, n, k);
    var d, m;
    d, p, m := FirstDigit(u, k, buf, at, n);
    ghost var mem := buf[..];
    p := Write(u, buf, p, d, m);
    if u < 10 * k {
      PutPut(old(buf[..]), at, [Digit(d)], Padded(u % k, n - 2) + [0]);
      assert [Digit(d)] + (Padded(u % k, n - 2) + [0]) == Digits(u) + [0];
    }
  }

  /** `itoa_u64`: the digits above the lowest nine, then those nine. */
  method U64(u: nat, buf: array<byte>, at: nat) returns (p: nat)
    requires u < W64 && at + |Digits(u)| < buf.Length
    modifies buf
    ensures p == at + |Digits(u)| && buf[..] == Put(old(buf[..]), at, Digits(u) + [0])
    decreases u
  {
    Powers();
    hide Padded, Put, Digits, Pow10;
    var lower := u % W32;
    if lower == u {
      p := U32(lower, buf, at);
      return;
    }
    var upper := u / 1000000000;
    DigitsSplit(u, 9, upper, u % 1000000000);
    p := U64(upper, buf, at);
    lower := (u - upper * 1000000000) % W32;
    var d := lower / 100000000;
    ghost var mem, head := buf[..], p;
    p := Out1(Digit(d), buf, p);
    p := Write(lower, buf, p, d, 9);
    Nine(lower);
    ghost var tail := Padded(lower % 100000000, 8) + [0];
    PutPut(mem, head, [Digit(d)], tail);
    PutOver(old(buf[..]), at, Digits(upper), [Digit(d)] + tail);
    assert Digits(upper) + ([Digit(d)] + tail) == Digits(u) + [0];
  }

  lemma Nine(u: nat)
    requires u < 1000000000
    ensures Padded(u, 9) == [Digit(u / 100000000)] + Padded(u % 100000000, 8)
  {
    Powers();
    hide Padded, Pow10;
    PaddedSplit(u, 1, 8, u / 100000000, u % 100000000);
    PaddedOne(u / 100000000);
  }

  /** A number with its sign. */
  function Text(i: int): seq<byte> {
    if i < 0 then [MINUS] + Digits(-i) else Digits(i)
  }

  /** `itoa_32`. */
  method I32(i: int, buf: array<byte>, at: nat) returns (p: nat)
    requires -0x8000_0000 <= i < 0x8000_0000 && at + |Text(i)| < buf.Length
    modifies buf
    ensures p == at + |Text(i)| && buf[..] == Put(old(buf[..]), at, Text(i) + [0])
  {
    hide Put, Digits;
    var u := i % W32;
    p := at;
    if i < 0 {
      p := Out1(MINUS, buf, p);
      u := (-u) % W32;
      PutPut(old(buf[..]), at, [MINUS], Digits(-i) + [0]);
      assert [MINUS] + (Digits(-i) + [0]) == Text(i) + [0];
    }
    p := U32(u, buf, p);
  }

  /** `itoa_64`. */
  method I64(i: int, buf: array<byte>, at: nat) returns (p: nat)
    requires -0x8000_0000_0000_0000 <= i < 0x8000_0000_0000_0000 && at + |Text(i)| < buf.Length
    modifies buf
    ensures p == at + |Text(i)| && buf[..] == Put(old(buf[..]), at, Text(i) + [0])
  {
    hide Put, Digits;
    var u := i % W64;
    p := at;
    if i < 0 {
      p := Out1(MINUS, buf, p);
      u := (-u) % W64;
      PutPut(old(buf[..]), at, [MINUS], Digits(-i) + [0]);
      assert [MINUS] + (Digits(-i) + [0]) == Text(i) + [0];
    }
    p := U64(u, buf, p);
  }

  /** What a string with a sign stands for. */
  ghost predicate Readable(s: seq<byte>) {
    s != [] && AllDigits(if s[0] == MINUS then s[1..] else s)
  }

  ghost function Parsed(s: seq<byte>): int
    requires Readable(s)
  {
    if s[0] == MINUS then -(Value(s[1..]) as int) else Value(s)
  }

  /** Every number printed reads back as itself, and is made of decimal digits behind a minus sign, if any. */
  lemma TextParses(i: int)
    ensures Readable(Text(i)) && Parsed(Text(i)) == i
    ensures i < 0 ==> Text(i)[0] as char == '-'
    ensures forall k :: (if i < 0 then 1 else 0) <= k < |Text(i)| ==> '0' <= Text(i)[k] as char <= '9'
    ensures i != 0 ==> (if i < 0 then Text(i)[1] else Text(i)[0]) != ZERO
  {
    hide Digits, Value;
    DigitsValue(if i < 0 then -i else i);
    if i < 0 {
      assert Text(i)[1..] == Digits(-i);
    } else {
      assert Digits(i)[0] >= ZERO;
    }
  }

  lemma {:induction false} DigitsShort(u: nat, n: nat)
    requires n > 0 && u < Pow10(n)
    ensures |Digits(u)| <= n
    decreases n
  {
    if u >= 10 {
      assert n > 1;
      DigitsShort(u / 10, n - 1);
    }
  }

  /** Twenty characters are enough for any 64-bit number, with or without a sign. */
  lemma TextFits(i: int)
    requires -0x8000_0000_0000_0000 <= i < W64
    ensures |Text(i)| <= 20
  {
    Powers();
    PowerSum(10, 9);
    PowerSum(10, 10);
    hide Digits, Pow10;
    if i < 0 {
      DigitsShort(-i, 19);
    } else {
      DigitsShort(i, 20);
    }
  }

  lemma {:induction false} PowerSum(a: nat, b: nat)
    ensures Pow10(a + b) == Pow10(a) * Pow10(b)
  {
    if a > 0 {
      PowerSum(a - 1, b);
    }
  }
}
