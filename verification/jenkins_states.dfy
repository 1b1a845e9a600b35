/** What mixing keeps of a key: the state the hash is taken from differs for keys that differ in one
    block, and the values of two published keys. */
module JenkinsStates {
  import opened Common
  import opened Words
  import opened Jenkins
  import opened JenkinsHash

  // ----- The final mixing

  /** A line of the final mixing, which then starts over with the next word: the third word is changed
      by the second, the first by the third, and the second by the first in turn. */
  function FinalTurn(m: Mixed, k: nat): Mixed
    requires k <= 32
  {
    Mixed(m.b, FinalLine(m.c, m.b, k), m.a)
  }

  function FinalUnturn(m: Mixed, k: nat): Mixed
    requires k <= 32
  {
    Mixed(m.c, m.a, Xor(Add(m.b, Rot(m.a, k)), m.a))
  }

  lemma FinalTurnInverts(m: Mixed, k: nat)
    requires k <= 32
    ensures FinalUnturn(FinalTurn(m, k), k) == m && FinalTurn(FinalUnturn(m, k), k) == m
  {
    hide Add, Sub, Xor, Rot;
    SubAdd(Xor(m.c, m.b), Rot(m.b, k));
    XorTwice(m.c, m.b);
    XorTwice(Add(m.b, Rot(m.a, k)), m.a);
    AddSub(m.b, Rot(m.a, k));
  }

  function Turns(m: Mixed): Mixed {
    FinalTurn(FinalTurn(FinalTurn(FinalTurn(FinalTurn(FinalTurn(FinalTurn(m, 14), 11), 25), 16), 4), 14), 24)
  }

  function Unturns(m: Mixed): Mixed {
    var half := FinalUnturn(FinalUnturn(FinalUnturn(m, 24), 14), 4);
    FinalUnturn(FinalUnturn(FinalUnturn(FinalUnturn(half, 16), 25), 11), 14)
  }

  lemma TurnsInvert(m: Mixed)
    ensures Unturns(Turns(m)) == m && Turns(Unturns(m)) == m
  {
    hide FinalTurn, FinalUnturn;
    var t1 := FinalTurn(m, 14);
    var t2 := FinalTurn(t1, 11);
    var t3 := FinalTurn(t2, 25);
    var t4 := FinalTurn(t3, 16);
    var t5 := FinalTurn(t4, 4);
    var t6 := FinalTurn(t5, 14);
    FinalTurnInverts(m, 14);
    FinalTurnInverts(t1, 11);
    FinalTurnInverts(t2, 25);
    FinalTurnInverts(t3, 16);
    FinalTurnInverts(t4, 4);
    FinalTurnInverts(t5, 14);
    FinalTurnInverts(t6, 24);
    var u1 := FinalUnturn(m, 24);
    var u2 := FinalUnturn(u1, 14);
    var u3 := FinalUnturn(u2, 4);
    var u4 := FinalUnturn(u3, 16);
    var u5 := FinalUnturn(u4, 25);
    var u6 := FinalUnturn(u5, 11);
    FinalTurnInverts(m, 24);
    FinalTurnInverts(u1, 14);
    FinalTurnInverts(u2, 4);
    FinalTurnInverts(u3, 16);
    FinalTurnInverts(u4, 25);
    FinalTurnInverts(u5, 11);
    FinalTurnInverts(u6, 14);
  }

  /** The three words after the final mixing, and before it. */
  function FinalMix(m: Mixed): Mixed {
    var t := Turns(m);
    Mixed(t.c, t.a, t.b)
  }

  function FinalUnmix(m: Mixed): Mixed {
    Unturns(Mixed(m.b, m.c, m.a))
  }

  /** The final mixing can be undone and reaches every state; its third word is what is returned. */
  lemma FinalInverts(m: Mixed)
    ensures FinalUnmix(FinalMix(m)) == m && FinalMix(FinalUnmix(m)) == m
    ensures Final(m) == FinalMix(m).c
  {
    TurnsInvert(m);
    TurnsInvert(Mixed(m.b, m.c, m.a));
    FinalIsLast(m);
    hide Turns, Unturns;
  }

  lemma FinalIsLast(m: Mixed)
    ensures Final(m) == Turns(m).b
  {
    hide FinalLine;
  }

  // ----- States of whole keys

  /** The state whose third word is the hash. */
  function Stirred(m: Mixed, key: seq<byte>): Mixed
    decreases |key|
  {
    if |key| > 12 then Stirred(Mix(Absorb(m, key[..12])), key[12..])
    else if key == [] then m
    else FinalMix(Absorb(m, key))
  }

  lemma {:induction false} RestIsThird(m: Mixed, key: seq<byte>)
    ensures Rest(m, key) == Stirred(m, key).c
    decreases |key|
  {
    hide Final, FinalMix, Mix, Absorb;
    if |key| > 12 {
      RestIsThird(Mix(Absorb(m, key[..12])), key[12..]);
    } else if key != [] {
      FinalInverts(Absorb(m, key));
    }
  }

  /** The hash is the third word of the state. */
  lemma HashIsThird(key: seq<byte>)
    ensures Hash(key) == Stirred(Start(|key|), key).c
  {
    hide Rest, Stirred;
    RestIsThird(Start(|key|), key);
  }

  lemma AddCancels(a: Word, b: Word, x: Word)
    ensures Add(a, x) == Add(b, x) ==> a == b
    ensures Add(x, a) == Add(x, b) ==> a == b
  {
    hide Add, Sub;
    AddSub(a, x);
    AddSub(b, x);
    AddComm(x, a);
    AddComm(x, b);
  }

  lemma AbsorbKeepsStates(m: Mixed, n: Mixed, s: seq<byte>)
    requires Absorb(m, s) == Absorb(n, s)
    ensures m == n
  {
    hide Add, WordAt;
    AddCancels(m.a, n.a, WordAt(s, 0));
    AddCancels(m.b, n.b, WordAt(s, 1));
    AddCancels(m.c, n.c, WordAt(s, 2));
  }

  lemma MixKeepsStates(m: Mixed, n: Mixed)
    ensures Mix(m) == Mix(n) ==> m == n
    ensures FinalMix(m) == FinalMix(n) ==> m == n
  {
    hide Mix, Unmix, FinalMix, FinalUnmix, Final;
    MixInverts(m);
    MixInverts(n);
    FinalInverts(m);
    FinalInverts(n);
  }

  /** The rest of a key never brings two states together. */
  lemma {:induction false} RestKeepsStates(m: Mixed, n: Mixed, key: seq<byte>)
    requires Stirred(m, key) == Stirred(n, key)
    ensures m == n
    decreases |key|
  {
    hide Mix, FinalMix, Absorb;
    if |key| > 12 {
      var s := key[..12];
      RestKeepsStates(Mix(Absorb(m, s)), Mix(Absorb(n, s)), key[12..]);
      MixKeepsStates(Absorb(m, s), Absorb(n, s));
      AbsorbKeepsStates(m, n, s);
    } else if key != [] {
      MixKeepsStates(Absorb(m, key), Absorb(n, key));
      AbsorbKeepsStates(m, n, key);
    }
  }

  lemma JoinInjective(x0: bv32, x1: bv32, x2: bv32, x3: bv32, y0: bv32, y1: bv32, y2: bv32, y3: bv32)
    requires x0 <= 0xff && x1 <= 0xff && x2 <= 0xff && x3 <= 0xff
    requires y0 <= 0xff && y1 <= 0xff && y2 <= 0xff && y3 <= 0xff
    requires Join4(x0, x1, x2, x3) == Join4(y0, y1, y2, y3)
    ensures x0 == y0 && x1 == y1 && x2 == y2 && x3 == y3
  {}

  lemma NextBits(x: bv8)
    requires x < 255
    ensures (x + 1) as nat == x as nat + 1
  {}

  /** Every byte is the value of some eight bits. */
  lemma {:induction false} HasBits(b: nat) returns (x: bv8)
    requires b < 256
    ensures x as nat == b
  {
    if b == 0 {
      x := 0;
    } else {
      var y := HasBits(b - 1);
      NextBits(y);
      x := y + 1;
    }
  }

  lemma ByteKept(b: byte)
    ensures (b as bv8) as byte == b
  {
    var x := HasBits(b as nat);
    ByteRoundTrip(x);
  }

  lemma Widened(x: bv8, y: bv8)
    requires x as bv32 == y as bv32
    ensures x == y
  {}

  lemma OfByteInjective(a: byte, b: byte)
    requires OfByte(a).bits == OfByte(b).bits
    ensures a == b
  {
    Widened(a as bv8, b as bv8);
    ByteKept(a);
    ByteKept(b);
  }

  lemma LoadInjective(a0: byte, a1: byte, a2: byte, a3: byte, b0: byte, b1: byte, b2: byte, b3: byte)
    requires Load4(a0, a1, a2, a3) == Load4(b0, b1, b2, b3)
    ensures a0 == b0 && a1 == b1 && a2 == b2 && a3 == b3
  {
    hide Load4, Join4, OfByte;
    LoadIsJoin(a0, a1, a2, a3);
    LoadIsJoin(b0, b1, b2, b3);
    JoinInjective(OfByte(a0).bits, OfByte(a1).bits, OfByte(a2).bits, OfByte(a3).bits,
                  OfByte(b0).bits, OfByte(b1).bits, OfByte(b2).bits, OfByte(b3).bits);
    OfByteInjective(a0, b0);
    OfByteInjective(a1, b1);
    OfByteInjective(a2, b2);
    OfByteInjective(a3, b3);
  }

  lemma WordsDiffer(s: seq<byte>, t: seq<byte>, j: nat)
    requires WordAt(s, j) == WordAt(t, j)
    ensures forall i :: 4 * j <= i < 4 * j + 4 ==> Pad(s, i) == Pad(t, i)
  {
    hide Load4, Pad;
    LoadInjective(Pad(s, 4 * j), Pad(s, 4 * j + 1), Pad(s, 4 * j + 2), Pad(s, 4 * j + 3),
                  Pad(t, 4 * j), Pad(t, 4 * j + 1), Pad(t, 4 * j + 2), Pad(t, 4 * j + 3));
  }

  /** From one state, blocks of one length lead to different states. */
  lemma AbsorbKeepsBlocks(m: Mixed, s: seq<byte>, t: seq<byte>)
    requires |s| == |t| <= 12 && Absorb(m, s) == Absorb(m, t)
    ensures s == t
  {
    hide Add, WordAt;
    AddCancels(WordAt(s, 0), WordAt(t, 0), m.a);
    AddCancels(WordAt(s, 1), WordAt(t, 1), m.b);
    AddCancels(WordAt(s, 2), WordAt(t, 2), m.c);
    WordsDiffer(s, t, 0);
    WordsDiffer(s, t, 1);
    WordsDiffer(s, t, 2);
    forall i | 0 <= i < |s|
      ensures s[i] == t[i]
    {
      assert Pad(s, i) == Pad(t, i);
    }
  }

  /** Two keys of one length that are the same but for one of their blocks of twelve bytes never end in
      the same state. */
  lemma {:induction false} BlocksCount(m: Mixed, before: seq<byte>, x: seq<byte>, y: seq<byte>, after: seq<byte>)
    requires |before| % 12 == 0 && |x| == |y| <= 12 && (after == [] || |x| == 12) && x != y
    ensures Stirred(m, before + x + after) != Stirred(m, before + y + after)
    decreases |before|
  {
    hide Mix, FinalMix, Absorb, Stirred;
    if before == [] {
      assert before + x + after == x + after && before + y + after == y + after;
      FirstBlock(m, x, y, after);
    } else {
      WholeBlock(before);
      var rest := before[12..];
      NextStirred(m, before, x, after);
      NextStirred(m, before, y, after);
      BlocksCount(Mix(Absorb(m, before[..12])), rest, x, y, after);
    }
  }

  lemma WholeBlock(s: seq<byte>)
    requires |s| % 12 == 0 && s != []
    ensures |s| >= 12 && |s[12..]| % 12 == 0
  {}

  lemma NextStirred(m: Mixed, before: seq<byte>, x: seq<byte>, after: seq<byte>)
    requires |before| >= 12 && x != []
    ensures Stirred(m, before + x + after) == Stirred(Mix(Absorb(m, before[..12])), before[12..] + x + after)
  {
    hide Mix, FinalMix, Absorb;
    var key := before + x + after;
    assert key[..12] == before[..12] && key[12..] == before[12..] + x + after;
  }

  lemma FirstBlock(m: Mixed, x: seq<byte>, y: seq<byte>, after: seq<byte>)
    requires |x| == |y| <= 12 && (after == [] || |x| == 12) && x != y
    ensures Stirred(m, x + after) != Stirred(m, y + after)
  {
    hide Mix, FinalMix, Absorb;
    if Absorb(m, x) == Absorb(m, y) {
      AbsorbKeepsBlocks(m, x, y);
    }
    MixKeepsStates(Absorb(m, x), Absorb(m, y));
    if after == [] {
      assert x + after == x && y + after == y;
    } else {
      assert (x + after)[..12] == x && (x + after)[12..] == after;
      assert (y + after)[..12] == y && (y + after)[12..] == after;
      if Stirred(m, x + after) == Stirred(m, y + after) {
        RestKeepsStates(Mix(Absorb(m, x)), Mix(Absorb(m, y)), after);
      }
    }
  }

  /** So keys of one length of at most twelve bytes all have states of their own. */
  lemma ShortKeysDiffer(s: seq<byte>, t: seq<byte>)
    requires |s| == |t| <= 12 && s != t
    ensures Stirred(Start(|s|), s) != Stirred(Start(|t|), t)
  {
    hide Stirred, Start;
    assert [] + s + [] == s && [] + t + [] == t;
    BlocksCount(Start(|s|), [], s, t, []);
  }

  // ----- Published values

  const FIRST: seq<byte> := [0x46, 0x6f, 0x75, 0x72, 0x20, 0x73, 0x63, 0x6f, 0x72, 0x65, 0x20, 0x61]
  const SECOND: seq<byte> := [0x6e, 0x64, 0x20, 0x73, 0x65, 0x76, 0x65, 0x6e, 0x20, 0x79, 0x65, 0x61]
  const THIRD: seq<byte> := [0x72, 0x73, 0x20, 0x61, 0x67, 0x6f]

  lemma Loaded()
    ensures Load4(0x46, 0x6f, 0x75, 0x72) == Word(0x72756f46)
    ensures Load4(0x20, 0x73, 0x63, 0x6f) == Word(0x6f637320)
    ensures Load4(0x72, 0x65, 0x20, 0x61) == Word(0x61206572)
    ensures Load4(0x6e, 0x64, 0x20, 0x73) == Word(0x7320646e)
    ensures Load4(0x65, 0x76, 0x65, 0x6e) == Word(0x6e657665)
    ensures Load4(0x20, 0x79, 0x65, 0x61) == Word(0x61657920)
    ensures Load4(0x72, 0x73, 0x20, 0x61) == Word(0x61207372)
    ensures Load4(0x67, 0x6f, 0x00, 0x00) == Word(0x6f67)
    ensures Load4(0, 0, 0, 0) == Zero
  {}

  lemma BlockWords()
    ensures WordAt(FIRST, 0) == Word(0x72756f46) && WordAt(FIRST, 1) == Word(0x6f637320)
    ensures WordAt(FIRST, 2) == Word(0x61206572)
    ensures WordAt(SECOND, 0) == Word(0x7320646e) && WordAt(SECOND, 1) == Word(0x6e657665)
    ensures WordAt(SECOND, 2) == Word(0x61657920)
    ensures WordAt(THIRD, 0) == Word(0x61207372) && WordAt(THIRD, 1) == Word(0x6f67) && WordAt(THIRD, 2) == Zero
  {
    hide Load4;
    Loaded();
  }

  lemma Sums()
    ensures Add(Word(0xdeadbf0d), Word(0x72756f46)) == Word(0x51232e53)
    ensures Add(Word(0xdeadbf0d), Word(0x6f637320)) == Word(0x4e11322d)
    ensures Add(Word(0xdeadbf0d), Word(0x61206572)) == Word(0x3fce247f)
    ensures Add(Word(0xf859ad7a), Word(0x7320646e)) == Word(0x6b7a11e8)
    ensures Add(Word(0x4bc57ae), Word(0x6e657665)) == Word(0x7321ce13)
    ensures Add(Word(0x40dddd7e), Word(0x61657920)) == Word(0xa243569e)
    ensures Add(Word(0x336aded2), Word(0x61207372)) == Word(0x948b5244)
    ensures Add(Word(0x59f2642), Word(0x6f67)) == Word(0x59f95a9)
    ensures Add(Word(0xbd02ebd5), Zero) == Word(0xbd02ebd5)
  {}

  lemma NextRest(m: Mixed, s: seq<byte>, t: seq<byte>)
    requires |s| == 12 && t != []
    ensures Rest(m, s + t) == Rest(Mix(Absorb(m, s)), t)
  {
    hide Mix, Absorb, Final;
    assert (s + t)[..12] == s && (s + t)[12..] == t;
  }

  lemma LastRest(m: Mixed, s: seq<byte>)
    requires 0 < |s| <= 12
    ensures Rest(m, s) == Final(Absorb(m, s))
  {}

  lemma StartsAt()
    ensures Start(0).c == Word(0xdeadbeef)
    ensures Start(30) == Mixed(Word(0xdeadbf0d), Word(0xdeadbf0d), Word(0xdeadbf0d))
  {}

  lemma FirstMix()
    ensures Mix(Mixed(Word(0x51232e53), Word(0x4e11322d), Word(0x3fce247f)))
         == Mixed(Word(0xf859ad7a), Word(0x4bc57ae), Word(0x40dddd7e))
  {}

  lemma SecondMix()
    ensures Mix(Mixed(Word(0x6b7a11e8), Word(0x7321ce13), Word(0xa243569e)))
         == Mixed(Word(0x336aded2), Word(0x59f2642), Word(0xbd02ebd5))
  {}

  lemma LastMix()
    ensures Final(Mixed(Word(0x948b5244), Word(0x59f95a9), Word(0xbd02ebd5))) == Word(0x17770551)
  {}

  /** The hashes of the empty key and of "Four score and seven years ago". */
  lemma PublishedValues()
    ensures Hash([]) == Word(0xdeadbeef)
    ensures Hash(FIRST + SECOND + THIRD) == Word(0x17770551)
  {
    hide Mix, Final, Start, WordAt, Add, Rest;
    StartsAt();
    NoRest(Start(0));
    BlockWords();
    Sums();
    FirstMix();
    SecondMix();
    LastMix();
    assert FIRST + SECOND + THIRD == FIRST + (SECOND + THIRD);
    NextRest(Start(30), FIRST, SECOND + THIRD);
    NextRest(Mix(Absorb(Start(30), FIRST)), SECOND, THIRD);
    LastRest(Mixed(Word(0x336aded2), Word(0x59f2642), Word(0xbd02ebd5)), THIRD);
  }

  lemma NoRest(m: Mixed)
    ensures Rest(m, []) == m.c
  {}
}
