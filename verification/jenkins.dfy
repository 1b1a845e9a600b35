/** Bob Jenkins' lookup3 hash of a key, read from memory in words, half words or bytes as the key's
    address allows. */
module Jenkins {
  import opened Common
  import opened Words

  function Plus(a: bv32, b: bv32): bv32 {
    a + b
  }

  function Minus(a: bv32, b: bv32): bv32 {
    a - b
  }

  function Add(a: Word, b: Word): Word {
    Word(Plus(a.bits, b.bits))
  }

  function Sub(a: Word, b: Word): Word {
    Word(Minus(a.bits, b.bits))
  }

  function Masked(a: Word, mask: bv32): Word {
    Word(a.bits & mask)
  }

  /** `a` rotated left by `4`, `6`, ... bits. */
  function Rot(a: Word, k: nat): Word
    requires k <= 32
  {
    Word((a.bits << k) | (a.bits >> (32 - k)))
  }

  datatype Mixed = Mixed(a: Word, b: Word, c: Word)

  /** One line of the mix: `x -= z; x ^= rot(z, k); z += y`. */
  function Line(x: Word, y: Word, z: Word, k: nat): (Word, Word)
    requires k <= 32
  {
    (Xor(Sub(x, z), Rot(z, k)), Add(z, y))
  }

  function Unline(x: Word, y: Word, z: Word, k: nat): (Word, Word)
    requires k <= 32
  {
    var z0 := Sub(z, y);
    (Add(Xor(x, Rot(z0, k)), z0), z0)
  }

  lemma SumIsPlus(a: bv32, b: bv32)
    ensures a + b == Plus(a, b)
  {
  }

  lemma DifferenceIsMinus(a: bv32, b: bv32)
    ensures a - b == Minus(a, b)
  {
  }

  lemma SumMinus(a: bv32, b: bv32)
    ensures Minus(a + b, b) == a
  {
  }

  lemma DifferencePlus(a: bv32, b: bv32)
    ensures Plus(a - b, b) == a
  {
  }

  lemma AddSub(a: Word, b: Word)
    ensures Sub(Add(a, b), b) == a
  {
    hide Plus, Minus;
    SumIsPlus(a.bits, b.bits);
    SumMinus(a.bits, b.bits);
  }

  lemma SubAdd(a: Word, b: Word)
    ensures Add(Sub(a, b), b) == a
  {
    hide Plus, Minus;
    DifferenceIsMinus(a.bits, b.bits);
    DifferencePlus(a.bits, b.bits);
  }

  lemma XorTwice(a: Word, b: Word)
    ensures Xor(Xor(a, b), b) == a
  {
  }

  lemma LineInverts(x: Word, y: Word, z: Word, k: nat)
    requires k <= 32
    ensures var (p, q) := Line(x, y, z, k); Unline(p, y, q, k) == (x, z)
    ensures var (p, q) := Unline(x, y, z, k); Line(p, y, q, k) == (x, z)
  {
    hide Add, Sub, Xor, Rot;
    AddSub(z, y);
    SubAdd(z, y);
    SubAdd(x, z);
    XorTwice(Sub(x, z), Rot(z, k));
    var z0 := Sub(z, y);
    AddSub(Xor(x, Rot(z0, k)), z0);
    XorTwice(x, Rot(z0, k));
  }

  /** A line of the mix, which then starts over with the next word: the lines subtract the third
      word from the first, the first from the second, and the second from the third in turn. */
  function Turn(m: Mixed, k: nat): Mixed
    requires k <= 32
  {
    var (a, c) := Line(m.a, m.b, m.c, k);
    Mixed(m.b, c, a)
  }

  function Unturn(m: Mixed, k: nat): Mixed
    requires k <= 32
  {
    var (a, c) := Unline(m.c, m.a, m.b, k);
    Mixed(a, m.a, c)
  }

  lemma TurnInverts(m: Mixed, k: nat)
    requires k <= 32
    ensures Unturn(Turn(m, k), k) == m && Turn(Unturn(m, k), k) == m
  {
    hide Line, Unline;
    LineInverts(m.a, m.b, m.c, k);
    LineInverts(m.c, m.a, m.b, k);
  }

  function Mix(m: Mixed): Mixed {
    Turn(Turn(Turn(Turn(Turn(Turn(m, 4), 6), 8), 16), 19), 4)
  }

  function Unmix(m: Mixed): Mixed {
    Unturn(Unturn(Unturn(Unturn(Unturn(Unturn(m, 4), 19), 16), 8), 6), 4)
  }

  /** Mixing loses nothing: it can be undone, and reaches every state. */
  lemma MixInverts(m: Mixed)
    ensures Unmix(Mix(m)) == m && Mix(Unmix(m)) == m
  {
    hide Turn, Unturn;
    TurnInverts(m, 4);
    TurnInverts(Turn(m, 4), 6);
    TurnInverts(Turn(Turn(m, 4), 6), 8);
    TurnInverts(Turn(Turn(Turn(m, 4), 6), 8), 16);
    TurnInverts(Turn(Turn(Turn(Turn(m, 4), 6), 8), 16), 19);
    TurnInverts(Turn(Turn(Turn(Turn(Turn(m, 4), 6), 8), 16), 19), 4);
    TurnInverts(m, 4);
    TurnInverts(Unturn(m, 4), 19);
    TurnInverts(Unturn(Unturn(m, 4), 19), 16);
    TurnInverts(Unturn(Unturn(Unturn(m, 4), 19), 16), 8);
    TurnInverts(Unturn(Unturn(Unturn(Unturn(m, 4), 19), 16), 8), 6);
    TurnInverts(Unturn(Unturn(Unturn(Unturn(Unturn(m, 4), 19), 16), 8), 6), 4);
  }

  function Plus3(a: bv32, b: bv32, c: bv32): bv32 {
    a + b + c
  }

  lemma SumPlusLeft(a: bv32, b: bv32, c: bv32)
    ensures Plus(a + b, c) == Plus3(a, b, c)
  {
  }

  lemma SumPlusRight(a: bv32, b: bv32, c: bv32)
    ensures Plus(a, b + c) == Plus3(a, b, c)
  {
  }

  lemma PlusLeft(a: bv32, b: bv32, c: bv32)
    ensures Plus(Plus(a, b), c) == Plus3(a, b, c)
  {
    hide Plus, Plus3;
    SumIsPlus(a, b);
    SumPlusLeft(a, b, c);
  }

  lemma PlusRight(a: bv32, b: bv32, c: bv32)
    ensures Plus(a, Plus(b, c)) == Plus3(a, b, c)
  {
    hide Plus, Plus3;
    SumIsPlus(b, c);
    SumPlusRight(a, b, c);
  }

  lemma PlusSwapped(a: bv32, b: bv32)
    ensures Plus(b, a) == a + b
  {
  }

  lemma AddAssoc(a: Word, b: Word, c: Word)
    ensures Add(Add(a, b), c) == Add(a, Add(b, c))
  {
    hide Plus, Plus3;
    PlusLeft(a.bits, b.bits, c.bits);
    PlusRight(a.bits, b.bits, c.bits);
  }

  lemma AddComm(a: Word, b: Word)
    ensures Add(a, b) == Add(b, a)
  {
    hide Plus;
    SumIsPlus(a.bits, b.bits);
    PlusSwapped(a.bits, b.bits);
  }

  lemma AddZero(a: Word)
    ensures Add(a, Zero) == a
  {
  }

  /** Shifted up by `k` bytes. */
  function Up(x: bv32, k: nat): bv32
    requires k < 4
  {
    if k == 0 then x else if k == 1 then x << 8 else if k == 2 then x << 16 else x << 24
  }

  function Up16(a: Word): Word {
    Word(a.bits << 16)
  }

  function Join4(x0: bv32, x1: bv32, x2: bv32, x3: bv32): bv32 {
    x0 | (x1 << 8) | (x2 << 16) | (x3 << 24)
  }

  /** What a load of two bytes gives on a little-endian machine. */
  function Load16(b0: byte, b1: byte): Word {
    Word(Join2(OfByte(b0).bits, OfByte(b1).bits))
  }

  function Join2(x0: bv32, x1: bv32): bv32 {
    x0 | (x1 << 8)
  }

  lemma Small(b: byte)
    ensures OfByte(b).bits <= 0xff
  {
  }

  function Join3(x0: bv32, x1: bv32, x2: bv32): bv32 {
    x0 | (x1 << 8) | (x2 << 16)
  }

  lemma JoinSecond(x0: bv32, x1: bv32)
    requires x0 <= 0xff && x1 <= 0xff
    ensures Plus(x0, Up(x1, 1)) == Join2(x0, x1)
  {
  }

  lemma JoinThird(x0: bv32, x1: bv32, x2: bv32)
    requires x0 <= 0xff && x1 <= 0xff && x2 <= 0xff
    ensures Plus(Join2(x0, x1), Up(x2, 2)) == Join3(x0, x1, x2)
  {
  }

  lemma JoinFourth(x0: bv32, x1: bv32, x2: bv32, x3: bv32)
    requires x0 <= 0xff && x1 <= 0xff && x2 <= 0xff && x3 <= 0xff
    ensures Plus(Join3(x0, x1, x2), Up(x3, 3)) == Join4(x0, x1, x2, x3)
  {
  }

  /** Masking a loaded word leaves its lower bytes. */
  lemma MaskThree(x0: bv32, x1: bv32, x2: bv32, x3: bv32)
    requires x0 <= 0xff && x1 <= 0xff && x2 <= 0xff && x3 <= 0xff
    ensures Join4(x0, x1, x2, x3) & 0xff_ffff == Join4(x0, x1, x2, 0)
  {
  }

  lemma MaskTwo(x0: bv32, x1: bv32, x2: bv32, x3: bv32)
    requires x0 <= 0xff && x1 <= 0xff && x2 <= 0xff && x3 <= 0xff
    ensures Join4(x0, x1, x2, x3) & 0xffff == Join4(x0, x1, 0, 0)
  {
  }

  lemma MaskOne(x0: bv32, x1: bv32, x2: bv32, x3: bv32)
    requires x0 <= 0xff && x1 <= 0xff && x2 <= 0xff && x3 <= 0xff
    ensures Join4(x0, x1, x2, x3) & 0xff == Join4(x0, 0, 0, 0)
  {
  }

  lemma HalvesJoin(x0: bv32, x1: bv32, x2: bv32, x3: bv32)
    requires x0 <= 0xff && x1 <= 0xff && x2 <= 0xff && x3 <= 0xff
    ensures Plus(Join2(x0, x1), Join2(x2, x3) << 16) == Join4(x0, x1, x2, x3)
  {
  }

  function Mix4(x0: bv32, x1: bv32, x2: bv32, x3: bv32): bv32 {
    x0 ^ (Up(x1, 1) ^ (Up(x2, 2) ^ Up(x3, 3)))
  }

  lemma DisjointBytes(x0: bv32, x1: bv32, x2: bv32, x3: bv32)
    requires x0 <= 0xff && x1 <= 0xff && x2 <= 0xff && x3 <= 0xff
    ensures Mix4(x0, x1, x2, x3) == Join4(x0, x1, x2, x3)
  {
  }

  lemma PlacedBits(b: byte)
    ensures Placed(b, 1) == Word(Up(OfByte(b).bits, 1))
    ensures Placed(b, 2) == Word(Up(OfByte(b).bits, 2))
    ensures Placed(b, 3) == Word(Up(OfByte(b).bits, 3))
  {
    hide OfByte;
  }

  lemma MixOf(w0: Word, w1: Word, w2: Word, w3: Word, x0: bv32, x1: bv32, x2: bv32, x3: bv32)
    requires w0 == Word(x0) && w1 == Word(Up(x1, 1)) && w2 == Word(Up(x2, 2)) && w3 == Word(Up(x3, 3))
    ensures Xor(w0, Xor(w1, Xor(w2, w3))) == Word(Mix4(x0, x1, x2, x3))
  {
    hide Up;
  }

  lemma LoadIsMix(b0: byte, b1: byte, b2: byte, b3: byte)
    ensures Load4(b0, b1, b2, b3) == Word(Mix4(OfByte(b0).bits, OfByte(b1).bits, OfByte(b2).bits, OfByte(b3).bits))
  {
    hide OfByte, Placed, Mix4, Xor, Up;
    PlacedBits(b1);
    PlacedBits(b2);
    PlacedBits(b3);
    MixOf(OfByte(b0), Placed(b1, 1), Placed(b2, 2), Placed(b3, 3),
          OfByte(b0).bits, OfByte(b1).bits, OfByte(b2).bits, OfByte(b3).bits);
  }

  lemma LoadIsJoin(b0: byte, b1: byte, b2: byte, b3: byte)
    ensures Load4(b0, b1, b2, b3) == Word(Join4(OfByte(b0).bits, OfByte(b1).bits, OfByte(b2).bits, OfByte(b3).bits))
    ensures OfByte(b0).bits <= 0xff && OfByte(b1).bits <= 0xff && OfByte(b2).bits <= 0xff && OfByte(b3).bits <= 0xff
  {
    hide Join4, Mix4, OfByte, Load4;
    LoadIsMix(b0, b1, b2, b3);
    Small(b0);
    Small(b1);
    Small(b2);
    Small(b3);
    DisjointBytes(OfByte(b0).bits, OfByte(b1).bits, OfByte(b2).bits, OfByte(b3).bits);
  }

  lemma LoadIsBytes(b0: byte, b1: byte, b2: byte, b3: byte)
    ensures Load4(b0, b1, b2, b3) == Add(Add(Add(OfByte(b0), Placed(b1, 1)), Placed(b2, 2)), Placed(b3, 3))
  {
    hide Join2, Join3, Join4, Plus, OfByte, Placed, Load4, Up;
    PlacedBits(b1);
    PlacedBits(b2);
    PlacedBits(b3);
    LoadIsJoin(b0, b1, b2, b3);
    JoinSecond(OfByte(b0).bits, OfByte(b1).bits);
    JoinThird(OfByte(b0).bits, OfByte(b1).bits, OfByte(b2).bits);
    JoinFourth(OfByte(b0).bits, OfByte(b1).bits, OfByte(b2).bits, OfByte(b3).bits);
  }

  lemma LoadIsHalves(b0: byte, b1: byte, b2: byte, b3: byte)
    ensures Load4(b0, b1, b2, b3) == Add(Load16(b0, b1), Up16(Load16(b2, b3)))
  {
    hide Join2, Join4, Plus, OfByte, Load4;
    LoadIsJoin(b0, b1, b2, b3);
    HalvesJoin(OfByte(b0).bits, OfByte(b1).bits, OfByte(b2).bits, OfByte(b3).bits);
  }

  lemma OfZero()
    ensures OfByte(0) == Zero && Placed(0, 1) == Zero && Placed(0, 2) == Zero && Placed(0, 3) == Zero
  {
  }

  lemma OfZeroBits()
    ensures OfByte(0).bits == 0
  {
  }

  /** Reading past the key and masking is the same as reading the key padded with zeros. */
  lemma LoadThree(b0: byte, b1: byte, b2: byte, b3: byte)
    ensures Masked(Load4(b0, b1, b2, b3), 0xff_ffff) == Load4(b0, b1, b2, 0)
  {
    hide Join4, OfByte, Load4;
    OfZeroBits();
    LoadIsJoin(b0, b1, b2, b3);
    LoadIsJoin(b0, b1, b2, 0);
    MaskThree(OfByte(b0).bits, OfByte(b1).bits, OfByte(b2).bits, OfByte(b3).bits);
  }

  lemma LoadTwo(b0: byte, b1: byte, b2: byte, b3: byte)
    ensures Masked(Load4(b0, b1, b2, b3), 0xffff) == Load4(b0, b1, 0, 0)
  {
    hide Join4, OfByte, Load4;
    OfZeroBits();
    LoadIsJoin(b0, b1, b2, b3);
    LoadIsJoin(b0, b1, 0, 0);
    MaskTwo(OfByte(b0).bits, OfByte(b1).bits, OfByte(b2).bits, OfByte(b3).bits);
  }

  lemma LoadOne(b0: byte, b1: byte, b2: byte, b3: byte)
    ensures Masked(Load4(b0, b1, b2, b3), 0xff) == Load4(b0, 0, 0, 0)
  {
    hide Join4, OfByte, Load4;
    OfZeroBits();
    LoadIsJoin(b0, b1, b2, b3);
    LoadIsJoin(b0, 0, 0, 0);
    MaskOne(OfByte(b0).bits, OfByte(b1).bits, OfByte(b2).bits, OfByte(b3).bits);
  }

  /** Adding a word byte by byte, lowest byte first or last. */
  lemma AddBytes(a: Word, b0: byte, b1: byte, b2: byte, b3: byte)
    ensures Add(Add(Add(Add(a, OfByte(b0)), Placed(b1, 1)), Placed(b2, 2)), Placed(b3, 3))
         == Add(a, Load4(b0, b1, b2, b3))
  {
    hide Add, OfByte, Placed, Load4;
    LoadIsBytes(b0, b1, b2, b3);
    AddAssoc(a, OfByte(b0), Placed(b1, 1));
    AddAssoc(a, Add(OfByte(b0), Placed(b1, 1)), Placed(b2, 2));
    AddAssoc(a, Add(Add(OfByte(b0), Placed(b1, 1)), Placed(b2, 2)), Placed(b3, 3));
  }

  lemma AddBytesDown(a: Word, b0: byte, b1: byte, b2: byte, b3: byte)
    ensures Add(Add(Add(Add(a, Placed(b3, 3)), Placed(b2, 2)), Placed(b1, 1)), OfByte(b0))
         == Add(a, Load4(b0, b1, b2, b3))
  {
    hide Add, OfByte, Placed, Load4;
    LoadIsBytes(b0, b1, b2, b3);
    var x, y, z, w := OfByte(b0), Placed(b1, 1), Placed(b2, 2), Placed(b3, 3);
    AddAssoc(Add(Add(a, w), z), y, x);
    AddAssoc(Add(a, w), z, Add(y, x));
    AddAssoc(a, w, Add(z, Add(y, x)));
    AddComm(y, x);
    AddComm(z, Add(x, y));
    AddComm(w, Add(Add(x, y), z));
  }

  lemma AddHalves(a: Word, b0: byte, b1: byte, b2: byte, b3: byte)
    ensures Add(a, Add(Load16(b0, b1), Up16(Load16(b2, b3)))) == Add(a, Load4(b0, b1, b2, b3))
  {
    LoadIsHalves(b0, b1, b2, b3);
  }

  /** The parts of a last word that are shorter than a word. */
  lemma ShortParts(a: Word, b0: byte, b1: byte, b2: byte)
    ensures Add(Add(a, Placed(b2, 2)), Load16(b0, b1)) == Add(a, Load4(b0, b1, b2, 0))
    ensures Add(a, Load16(b0, b1)) == Add(a, Load4(b0, b1, 0, 0))
    ensures Add(a, OfByte(b0)) == Add(a, Load4(b0, 0, 0, 0))
    ensures Add(a, Load4(0, 0, 0, 0)) == a
  {
    hide Add, OfByte, Placed, Load4, Load16, Up16;
    OfZero();
    Load16Is(b0, b1, b2);
    AddAssoc(a, Placed(b2, 2), Load16(b0, b1));
    AddComm(Placed(b2, 2), Load16(b0, b1));
    AddZero(a);
    LoadIsBytes(b0, 0, 0, 0);
    LoadIsBytes(0, 0, 0, 0);
    AddZero(OfByte(b0));
    AddZero(Zero);
  }

  lemma Load16Is(b0: byte, b1: byte, b2: byte)
    ensures Load4(b0, b1, b2, 0) == Add(Load16(b0, b1), Placed(b2, 2))
    ensures Load4(b0, b1, 0, 0) == Load16(b0, b1)
  {
    hide Add, OfByte, Placed, Load4, Up16;
    OfZero();
    LoadIsHalves(b0, b1, b2, 0);
    LoadIsHalves(b0, b1, 0, 0);
    HalfOfByte(b2);
    HalfOfByte(0);
    AddZero(Load16(b0, b1));
  }

  lemma HalfOfByte(b: byte)
    ensures Up16(Load16(b, 0)) == Placed(b, 2)
  {
    OfZero();
    hide OfByte;
  }
}
