/** The hash of a key, and its three ways of reading the key from memory. */
module JenkinsHash {
  import opened Common
  import opened Words
  import opened Jenkins

  /** A key continued with zeros. */
  function Pad(s: seq<byte>, i: nat): byte {
    if i < |s| then s[i] else 0
  }

  function WordAt(s: seq<byte>, j: nat): Word {
    Load4(Pad(s, 4 * j), Pad(s, 4 * j + 1), Pad(s, 4 * j + 2), Pad(s, 4 * j + 3))
  }

  /** Up to twelve bytes added to the state as three words. */
  function Absorb(m: Mixed, s: seq<byte>): Mixed {
    Mixed(Add(m.a, WordAt(s, 0)), Add(m.b, WordAt(s, 1)), Add(m.c, WordAt(s, 2)))
  }

  /** One line of the final mixing: `x ^= y; x -= rot(y, k)`. */
  function FinalLine(x: Word, y: Word, k: nat): Word
    requires k <= 32
  {
    Sub(Xor(x, y), Rot(y, k))
  }

  function Final(m: Mixed): Word {
    var c := FinalLine(m.c, m.b, 14);
    var a := FinalLine(m.a, c, 11);
    var b := FinalLine(m.b, a, 25);
    var c1 := FinalLine(c, b, 16);
    var a1 := FinalLine(a, c1, 4);
    var b1 := FinalLine(b, a1, 14);
    FinalLine(c1, b1, 24)
  }

  function Rest(m: Mixed, key: seq<byte>): Word
    decreases |key|
  {
    if |key| > 12 then Rest(Mix(Absorb(m, key[..12])), key[12..])
    else if key == [] then m.c
    else Final(Absorb(m, key))
  }

  function Start(length: nat): Mixed {
    var x := Word(0xdeadbeef + (length % 0x1_0000_0000) as bv32);
    Mixed(x, x, x)
  }

  /** The hash as a function of the key's bytes alone. */
  function Hash(key: seq<byte>): Word {
    Rest(Start(|key|), key)
  }

  function LoadAt(mem: seq<byte>, p: nat): Word
    requires p + 4 <= |mem|
  {
    Load4(mem[p], mem[p + 1], mem[p + 2], mem[p + 3])
  }

  lemma FullWord(mem: seq<byte>, at: nat, n: nat, j: nat)
    requires at + n <= |mem| && 4 * j + 4 <= n
    ensures WordAt(mem[at..at + n], j) == LoadAt(mem, at + 4 * j)
  {
  }

  /** What the last block adds to one of the words, by the number of its bytes in the key; the rest of
      the loaded word is not part of the key and is masked off. */
  lemma LastWord(mem: seq<byte>, at: nat, n: nat, j: nat, x: Word)
    requires at + n <= |mem| && (n <= 4 * j || at + 4 * j + 4 <= |mem|)
    ensures Add(x, WordAt(mem[at..at + n], j)) ==
            if n <= 4 * j then x
            else if n == 4 * j + 1 then Add(x, Masked(LoadAt(mem, at + 4 * j), 0xff))
            else if n == 4 * j + 2 then Add(x, Masked(LoadAt(mem, at + 4 * j), 0xffff))
            else if n == 4 * j + 3 then Add(x, Masked(LoadAt(mem, at + 4 * j), 0xff_ffff))
            else Add(x, LoadAt(mem, at + 4 * j))
  {
    hide Add, Masked, Load4;
    var p := at + 4 * j;
    if n <= 4 * j {
      ShortParts(x, 0, 0, 0);
    } else {
      LoadOne(mem[p], mem[p + 1], mem[p + 2], mem[p + 3]);
      LoadTwo(mem[p], mem[p + 1], mem[p + 2], mem[p + 3]);
      LoadThree(mem[p], mem[p + 1], mem[p + 2], mem[p + 3]);
    }
  }

  /** The last block read in whole words. */
  method LastWords(mem: seq<byte>, at: nat, length: nat, m: Mixed) returns (h: Word)
    requires at + length <= |mem| && length <= 12 && at % 4 == 0 && |mem| % 4 == 0
    ensures h == Rest(m, mem[at..at + length])
  {
    hide Add, Masked, LoadAt, WordAt, Final;
    ghost var s := mem[at..at + length];
    LastWord(mem, at, length, 0, m.a);
    LastWord(mem, at, length, 1, m.b);
    LastWord(mem, at, length, 2, m.c);
    var a, b, c := m.a, m.b, m.c;
    match length {
      case 12 => c := Add(c, LoadAt(mem, at + 8)); b := Add(b, LoadAt(mem, at + 4)); a := Add(a, LoadAt(mem, at));
      case 11 =>
        c := Add(c, Masked(LoadAt(mem, at + 8), 0xff_ffff));
        b := Add(b, LoadAt(mem, at + 4));
        a := Add(a, LoadAt(mem, at));
      case 10 =>
        c := Add(c, Masked(LoadAt(mem, at + 8), 0xffff));
        b := Add(b, LoadAt(mem, at + 4));
        a := Add(a, LoadAt(mem, at));
      case 9 =>
        c := Add(c, Masked(LoadAt(mem, at + 8), 0xff));
        b := Add(b, LoadAt(mem, at + 4));
        a := Add(a, LoadAt(mem, at));
      case 8 => b := Add(b, LoadAt(mem, at + 4)); a := Add(a, LoadAt(mem, at));
      case 7 => b := Add(b, Masked(LoadAt(mem, at + 4), 0xff_ffff)); a := Add(a, LoadAt(mem, at));
      case 6 => b := Add(b, Masked(LoadAt(mem, at + 4), 0xffff)); a := Add(a, LoadAt(mem, at));
      case 5 => b := Add(b, Masked(LoadAt(mem, at + 4), 0xff)); a := Add(a, LoadAt(mem, at));
      case 4 => a := Add(a, LoadAt(mem, at));
      case 3 => a := Add(a, Masked(LoadAt(mem, at), 0xff_ffff));
      case 2 => a := Add(a, Masked(LoadAt(mem, at), 0xffff));
      case 1 => a := Add(a, Masked(LoadAt(mem, at), 0xff));
      case _ => return c;
    }
    h := Final(Mixed(a, b, c));
  }

  lemma NextBlock(mem: seq<byte>, at: nat, n: nat, m: Mixed)
    requires at + n <= |mem| && n > 12
    ensures Rest(m, mem[at..at + n]) == Rest(Mix(Absorb(m, mem[at..at + 12])), mem[at + 12..at + n])
  {
    hide Absorb, Mix;
    assert mem[at..at + n][..12] == mem[at..at + 12];
    assert mem[at..at + n][12..] == mem[at + 12..at + n];
  }

  /** A key at a multiple of four: word by word, the last ones masked. */
  method HashWords(mem: seq<byte>, addr: nat, length: nat) returns (h: Word)
    requires addr + length <= |mem| && addr % 4 == 0 && |mem| % 4 == 0
    ensures h == Hash(mem[addr..addr + length])
  {
    hide Add, LoadAt, WordAt, Mix, Rest, Start;
    var m, at, n := Start(length), addr, length;
    while n > 12
      invariant at + n == addr + length && at % 4 == 0
      invariant Rest(m, mem[at..at + n]) == Hash(mem[addr..addr + length])
    {
      NextBlock(mem, at, n, m);
      FullWord(mem, at, 12, 0);
      FullWord(mem, at, 12, 1);
      FullWord(mem, at, 12, 2);
      m := Mix(Mixed(Add(m.a, LoadAt(mem, at)), Add(m.b, LoadAt(mem, at + 4)), Add(m.c, LoadAt(mem, at + 8))));
      at, n := at + 12, n - 12;
    }
    h := LastWords(mem, at, n, m);
  }

  function HalfAt(mem: seq<byte>, p: nat): Word
    requires p + 2 <= |mem|
  {
    Load16(mem[p], mem[p + 1])
  }

  function TwoHalvesAt(mem: seq<byte>, p: nat): Word
    requires p + 4 <= |mem|
  {
    Add(HalfAt(mem, p), Up16(HalfAt(mem, p + 2)))
  }

  lemma LastHalf(mem: seq<byte>, at: nat, n: nat, j: nat, x: Word)
    requires at + n <= |mem|
    ensures Add(x, WordAt(mem[at..at + n], j)) ==
            if n <= 4 * j then x
            else if n == 4 * j + 1 then Add(x, OfByte(mem[at + 4 * j]))
            else if n == 4 * j + 2 then Add(x, HalfAt(mem, at + 4 * j))
            else if n == 4 * j + 3 then Add(Add(x, Placed(mem[at + 4 * j + 2], 2)), HalfAt(mem, at + 4 * j))
            else Add(x, TwoHalvesAt(mem, at + 4 * j))
  {
    hide Add, Load4, Load16, OfByte, Placed, Up16;
    var p := at + 4 * j;
    if n <= 4 * j {
      ShortParts(x, 0, 0, 0);
    } else if n <= 4 * j + 3 {
      ShortParts(x, mem[p], if n > 4 * j + 1 then mem[p + 1] else 0, if n > 4 * j + 2 then mem[p + 2] else 0);
    } else {
      AddHalves(x, mem[p], mem[p + 1], mem[p + 2], mem[p + 3]);
    }
  }

  method LastHalves(mem: seq<byte>, at: nat, length: nat, m: Mixed) returns (h: Word)
    requires at + length <= |mem| && length <= 12
    ensures h == Rest(m, mem[at..at + length])
  {
    hide Add, HalfAt, TwoHalvesAt, WordAt, Final, OfByte, Placed;
    LastHalf(mem, at, length, 0, m.a);
    LastHalf(mem, at, length, 1, m.b);
    LastHalf(mem, at, length, 2, m.c);
    var a, b, c := m.a, m.b, m.c;
    if length == 12 {
      c := Add(c, TwoHalvesAt(mem, at + 8));
      b := Add(b, TwoHalvesAt(mem, at + 4));
      a := Add(a, TwoHalvesAt(mem, at));
    } else if length >= 10 {
      if length == 11 {
        c := Add(c, Placed(mem[at + 10], 2));
      }
      c := Add(c, HalfAt(mem, at + 8));
      b := Add(b, TwoHalvesAt(mem, at + 4));
      a := Add(a, TwoHalvesAt(mem, at));
    } else if length >= 8 {
      if length == 9 {
        c := Add(c, OfByte(mem[at + 8]));
      }
      b := Add(b, TwoHalvesAt(mem, at + 4));
      a := Add(a, TwoHalvesAt(mem, at));
    } else if length >= 6 {
      if length == 7 {
        b := Add(b, Placed(mem[at + 6], 2));
      }
      b := Add(b, HalfAt(mem, at + 4));
      a := Add(a, TwoHalvesAt(mem, at));
    } else if length >= 4 {
      if length == 5 {
        b := Add(b, OfByte(mem[at + 4]));
      }
      a := Add(a, TwoHalvesAt(mem, at));
    } else if length >= 2 {
      if length == 3 {
        a := Add(a, Placed(mem[at + 2], 2));
      }
      a := Add(a, HalfAt(mem, at));
    } else if length == 1 {
      a := Add(a, OfByte(mem[at]));
    } else {
      return c;
    }
    h := Final(Mixed(a, b, c));
  }

  /** A key at a multiple of two: half word by half word. */
  method HashHalves(mem: seq<byte>, addr: nat, length: nat) returns (h: Word)
    requires addr + length <= |mem| && addr % 2 == 0
    ensures h == Hash(mem[addr..addr + length])
  {
    hide Add, TwoHalvesAt, WordAt, Mix, Rest, Start;
    var m, at, n := Start(length), addr, length;
    while n > 12
      invariant at + n == addr + length
      invariant Rest(m, mem[at..at + n]) == Hash(mem[addr..addr + length])
    {
      NextBlock(mem, at, n, m);
      LastHalf(mem, at, 12, 0, m.a);
      LastHalf(mem, at, 12, 1, m.b);
      LastHalf(mem, at, 12, 2, m.c);
      m := Mix(Mixed(Add(m.a, TwoHalvesAt(mem, at)), Add(m.b, TwoHalvesAt(mem, at + 4)),
                     Add(m.c, TwoHalvesAt(mem, at + 8))));
      at, n := at + 12, n - 12;
    }
    h := LastHalves(mem, at, n, m);
  }

  /** Four bytes added one by one. */
  function BytesUp(mem: seq<byte>, p: nat, x: Word): Word
    requires p + 4 <= |mem|
  {
    Add(Add(Add(Add(x, OfByte(mem[p])), Placed(mem[p + 1], 1)), Placed(mem[p + 2], 2)), Placed(mem[p + 3], 3))
  }

  /** The first `t` bytes of four added one by one, the last of them first. */
  function BytesDown(mem: seq<byte>, p: nat, t: int, x: Word): Word
    requires t <= 0 || (t <= 4 && p + t <= |mem|)
  {
    var x3 := if t >= 4 then Add(x, Placed(mem[p + 3], 3)) else x;
    var x2 := if t >= 3 then Add(x3, Placed(mem[p + 2], 2)) else x3;
    var x1 := if t >= 2 then Add(x2, Placed(mem[p + 1], 1)) else x2;
    if t >= 1 then Add(x1, OfByte(mem[p])) else x1
  }

  lemma FullBytes(mem: seq<byte>, at: nat, j: nat, x: Word)
    requires at + 12 <= |mem| && j < 3
    ensures Add(x, WordAt(mem[at..at + 12], j)) == BytesUp(mem, at + 4 * j, x)
  {
    hide Add, Load4, OfByte, Placed;
    var p := at + 4 * j;
    FullWord(mem, at, 12, j);
    AddBytes(x, mem[p], mem[p + 1], mem[p + 2], mem[p + 3]);
  }

  lemma LastBytes(mem: seq<byte>, at: nat, n: nat, j: nat, x: Word)
    requires at + n <= |mem|
    ensures Add(x, WordAt(mem[at..at + n], j)) == BytesDown(mem, at + 4 * j, if n >= 4 * j + 4 then 4 else n - 4 * j, x)
  {
    hide Add, Load4, OfByte, Placed;
    var s := mem[at..at + n];
    var b0, b1, b2, b3 := Pad(s, 4 * j), Pad(s, 4 * j + 1), Pad(s, 4 * j + 2), Pad(s, 4 * j + 3);
    AddBytesDown(x, b0, b1, b2, b3);
    OfZero();
    AddZero(x);
    AddZero(Add(x, Placed(b3, 3)));
    AddZero(Add(Add(x, Placed(b3, 3)), Placed(b2, 2)));
    AddZero(Add(Add(Add(x, Placed(b3, 3)), Placed(b2, 2)), Placed(b1, 1)));
  }

  method LastByteByByte(mem: seq<byte>, at: nat, length: nat, m: Mixed) returns (h: Word)
    requires at + length <= |mem| && length <= 12
    ensures h == Rest(m, mem[at..at + length])
  {
    hide Add, WordAt, Final, OfByte, Placed;
    LastBytes(mem, at, length, 0, m.a);
    LastBytes(mem, at, length, 1, m.b);
    LastBytes(mem, at, length, 2, m.c);
    var a, b, c := m.a, m.b, m.c;
    if length == 0 {
      return c;
    }
    if length >= 12 { c := Add(c, Placed(mem[at + 11], 3)); }
    if length >= 11 { c := Add(c, Placed(mem[at + 10], 2)); }
    if length >= 10 { c := Add(c, Placed(mem[at + 9], 1)); }
    if length >= 9 { c := Add(c, OfByte(mem[at + 8])); }
    assert c == Add(m.c, WordAt(mem[at..at + length], 2));
    if length >= 8 { b := Add(b, Placed(mem[at + 7], 3)); }
    if length >= 7 { b := Add(b, Placed(mem[at + 6], 2)); }
    if length >= 6 { b := Add(b, Placed(mem[at + 5], 1)); }
    if length >= 5 { b := Add(b, OfByte(mem[at + 4])); }
    assert b == Add(m.b, WordAt(mem[at..at + length], 1));
    if length >= 4 { a := Add(a, Placed(mem[at + 3], 3)); }
    if length >= 3 { a := Add(a, Placed(mem[at + 2], 2)); }
    if length >= 2 { a := Add(a, Placed(mem[at + 1], 1)); }
    a := Add(a, OfByte(mem[at]));
    assert a == Add(m.a, WordAt(mem[at..at + length], 0));
    h := Final(Mixed(a, b, c));
  }

  /** A key anywhere: byte by byte. */
  method HashBytes(mem: seq<byte>, addr: nat, length: nat) returns (h: Word)
    requires addr + length <= |mem|
    ensures h == Hash(mem[addr..addr + length])
  {
    hide Add, BytesUp, WordAt, Mix, Rest, Start;
    var m, at, n := Start(length), addr, length;
    while n > 12
      invariant at + n == addr + length
      invariant Rest(m, mem[at..at + n]) == Hash(mem[addr..addr + length])
    {
      NextBlock(mem, at, n, m);
      FullBytes(mem, at, 0, m.a);
      FullBytes(mem, at, 1, m.b);
      FullBytes(mem, at, 2, m.c);
      m := Mix(Mixed(BytesUp(mem, at, m.a), BytesUp(mem, at + 4, m.b), BytesUp(mem, at + 8, m.c)));
      at, n := at + 12, n - 12;
    }
    h := LastByteByByte(mem, at, n, m);
  }

  /** Whichever way the address calls for, the hash depends on the bytes of the key only. */
  method HashKey(mem: seq<byte>, addr: nat, length: nat) returns (h: Word)
    requires addr + length <= |mem| && (addr % 4 == 0 ==> |mem| % 4 == 0)
    ensures h == Hash(mem[addr..addr + length])
  {
    if addr % 4 == 0 {
      h := HashWords(mem, addr, length);
    } else if addr % 2 == 0 {
      h := HashHalves(mem, addr, length);
    } else {
      h := HashBytes(mem, addr, length);
    }
  }
}
