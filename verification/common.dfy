/** Types shared by the models. */
module Common {

  newtype byte = x: int | 0 <= x < 256

  datatype Option<+T> = None | Some(value: T)

  /** A pointer to a numbered item. */
  type Ptr = Option<nat>

  /** A number masked to its low `n` bits is its remainder modulo this. */
  function Pow2(n: nat): (p: nat)
    ensures p >= 1
  {
    if n == 0 then 1 else 2 * Pow2(n - 1)
  }

  /** A list in which nothing occurs twice. */
  ghost predicate NoDup(list: seq<nat>) {
    forall i, j :: 0 <= i < j < |list| ==> list[i] != list[j]
  }

  function Sum(numbers: seq<nat>): nat {
    if numbers == [] then 0 else numbers[0] + Sum(numbers[1..])
  }

  lemma {:induction false} SumUpdate(numbers: seq<nat>, i: nat, v: nat)
    requires i < |numbers|
    ensures Sum(numbers[i := v]) == Sum(numbers) - numbers[i] + v
  {
    if i == 0 {
      assert numbers[0 := v][1..] == numbers[1..];
    } else {
      assert numbers[i := v][1..] == numbers[1..][i - 1 := v];
      SumUpdate(numbers[1..], i - 1, v);
    }
  }
}

/** Division facts used by several models. */
module Division {

  lemma NoSmallMultiple(w: int, d: int, e: int)
    requires w > 0 && w * d == e && -w < e < w
    ensures d == 0
  {
    assert d > 0 ==> w * d >= w;
    assert d < 0 ==> w * d <= -w;
  }

  lemma ModAdd(x: nat, w: nat)
    requires w > 0
    ensures (x + w) % w == x % w && (x + w) / w == x / w + 1
  {
    var q, r, q1, r1 := x / w, x % w, (x + w) / w, (x + w) % w;
    assert w * (q1 - q - 1) == w * q1 - w * q - w;
    NoSmallMultiple(w, q1 - q - 1, r - r1);
  }

  /** Between two multiples of `w` there is room for `w`. */
  lemma RoomBetween(x: nat, y: nat, w: nat)
    requires w > 0 && x % w == 0 && y % w == 0 && x < y
    ensures x + w <= y
  {
    var d := y / w - x / w;
    assert w * d == w * (y / w) - w * (x / w) == y - x;
    assert d <= 0 ==> w * d <= 0;
    assert d > 0 ==> w * d >= w;
  }

  /** Numbers less than `w` apart have different remainders. */
  lemma ModsDiffer(n: nat, m: nat, w: nat)
    requires n < m < n + w
    ensures n % w != m % w
  {
    var d := m / w - n / w;
    assert w * d == w * (m / w) - w * (n / w);
    if n % w == m % w {
      NoSmallMultiple(w, d, m - n);
    }
  }

  lemma SmallMod(x: nat, w: nat)
    requires x < w
    ensures x % w == x && x / w == 0
  {
    NoSmallMultiple(w, x / w, x - x % w);
  }

  /** Remainder and quotient of the next number. */
  lemma ModNext(x: nat, w: nat)
    requires w > 0
    ensures (x + 1) % w == if x % w + 1 == w then 0 else x % w + 1
    ensures (x + 1) / w == if x % w + 1 == w then x / w + 1 else x / w
  {
    var q, q1 := x / w, (x + 1) / w;
    var r := if x % w + 1 == w then 0 else x % w + 1;
    var t := if x % w + 1 == w then q + 1 else q;
    assert w * (q1 - t) == w * q1 - w * t;
    assert w * (q + 1) == w * q + w;
    NoSmallMultiple(w, q1 - t, r - (x + 1) % w);
  }
}
