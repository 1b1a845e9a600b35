/** Doubly linked lists of numbered items, joined by `prev` and `next` links as in `items.c`. */
module LruLists {
  import opened Common

  /** Where a link that reaches `ids` from the left arrives, if `after` follows it. */
  function First(ids: seq<nat>, after: Ptr): Ptr {
    if ids == [] then after else Some(ids[0])
  }

  /** Where a link that reaches `ids` from the right arrives, if `before` precedes it. */
  function Last(ids: seq<nat>, before: Ptr): Ptr {
    if ids == [] then before else Some(ids[|ids| - 1])
  }

  datatype Links = Links(prev: map<nat, Ptr>, next: map<nat, Ptr>)
  {
    function SetPrev(id: nat, p: Ptr): Links {
      Links(prev[id := p], next)
    }

    function SetNext(id: nat, p: Ptr): Links {
      Links(prev, next[id := p])
    }

    ghost predicate Agrees(id: nat, other: Links) {
      && (id in prev ==> id in other.prev && other.prev[id] == prev[id])
      && (id in next ==> id in other.next && other.next[id] == next[id])
    }
  }

  /** The items `ids` are joined in both directions, between `before` and `after`. */
  ghost predicate Seg(k: Links, ids: seq<nat>, before: Ptr, after: Ptr)
    decreases |ids|
  {
    ids != [] ==>
      && ids[0] in k.prev && ids[0] in k.next
      && k.prev[ids[0]] == before && k.next[ids[0]] == First(ids[1..], after)
      && Seg(k, ids[1..], Some(ids[0]), after)
  }

  lemma {:induction false} SegSplit(k: Links, a: seq<nat>, b: seq<nat>, before: Ptr, after: Ptr)
    ensures Seg(k, a + b, before, after) <==>
            Seg(k, a, before, First(b, after)) && Seg(k, b, Last(a, before), after)
    decreases |a|
  {
    if a == [] {
      assert a + b == b;
    } else {
      assert (a + b)[1..] == a[1..] + b;
      SegSplit(k, a[1..], b, Some(a[0]), after);
      assert Last(a[1..], Some(a[0])) == Last(a, before);
      assert First(a[1..] + b, after) == First(a[1..], First(b, after));
    }
  }

  lemma {:induction false} SegFrame(k: Links, k1: Links, ids: seq<nat>, before: Ptr, after: Ptr)
    requires Seg(k, ids, before, after)
    requires forall id :: id in ids ==> k.Agrees(id, k1)
    ensures Seg(k1, ids, before, after)
    decreases |ids|
  {
    if ids != [] {
      assert ids[0] in ids;
      SegFrame(k, k1, ids[1..], Some(ids[0]), after);
    }
  }

  lemma SegAfter(k: Links, ids: seq<nat>, before: Ptr, after: Ptr, to: Ptr)
    requires ids != [] && NoDup(ids) && Seg(k, ids, before, after)
    ensures Seg(k.SetNext(ids[|ids| - 1], to), ids, before, to)
  {
    var n := |ids| - 1;
    var init, last := ids[..n], ids[n..];
    var k1 := k.SetNext(ids[n], to);
    assert ids == init + last;
    SegSplit(k, init, last, before, after);
    SegFrame(k, k1, init, before, First(last, after));
    assert Seg(k1, last[1..], Some(last[0]), to);
    assert Seg(k1, last, Last(init, before), to);
    SegSplit(k1, init, last, before, to);
  }

  lemma SegBefore(k: Links, ids: seq<nat>, before: Ptr, after: Ptr, to: Ptr)
    requires ids != [] && NoDup(ids) && Seg(k, ids, before, after)
    ensures Seg(k.SetPrev(ids[0], to), ids, to, after)
  {
    var k1 := k.SetPrev(ids[0], to);
    assert forall id :: id in ids[1..] ==> k.Agrees(id, k1);
    SegFrame(k, k1, ids[1..], Some(ids[0]), after);
  }

  lemma SegOne(k: Links, id: nat, before: Ptr, after: Ptr)
    ensures Seg(k, [id], before, after) <==>
            id in k.prev && id in k.next && k.prev[id] == before && k.next[id] == after
  {
    assert Seg(k, [id][1..], Some(id), after);
  }

  /** One list: its two ends, and the links of all items. */
  datatype Queue = Queue(links: Links, head: Ptr, tail: Ptr)
  {
    /** `head`, `tail` and the links form the well-formed doubly linked list `ids`. */
    ghost predicate Is(ids: seq<nat>) {
      && NoDup(ids)
      && Seg(links, ids, None, None)
      && head == First(ids, None) && tail == Last(ids, None)
    }
  }

  /** Taking a list apart around one of its items, and putting it together. */
  lemma Around(k: Links, a: seq<nat>, it: nat, b: seq<nat>)
    ensures Seg(k, a + [it] + b, None, None) <==>
            && Seg(k, a, None, Some(it)) && Seg(k, b, Some(it), None)
            && it in k.prev && it in k.next
            && k.prev[it] == Last(a, None) && k.next[it] == First(b, None)
  {
    assert a + [it] + b == a + ([it] + b);
    SegSplit(k, a, [it] + b, None, None);
    SegSplit(k, [it], b, Last(a, None), None);
    SegOne(k, it, Last(a, None), First(b, None));
  }

  ghost predicate Apart(a: seq<nat>, b: seq<nat>) {
    forall id :: id in a ==> id !in b
  }

  lemma NoDupParts(a: seq<nat>, b: seq<nat>)
    ensures NoDup(a + b) <==> NoDup(a) && NoDup(b) && Apart(a, b)
  {
    var c := a + b;
    if NoDup(c) {
      forall i, j | 0 <= i < j < |a| ensures a[i] != a[j] {
        assert c[i] != c[j];
      }
      forall i, j | 0 <= i < j < |b| ensures b[i] != b[j] {
        assert c[|a| + i] != c[|a| + j];
      }
      forall i, j | 0 <= i < |a| && 0 <= j < |b| ensures a[i] != b[j] {
        assert c[i] != c[|a| + j];
      }
    }
    if NoDup(a) && NoDup(b) && Apart(a, b) {
      forall i, j | 0 <= i < j < |c| ensures c[i] != c[j] {
        if i < |a| {
          assert a[i] in a;
        }
      }
    }
  }

  lemma NoDupAround(a: seq<nat>, it: nat, b: seq<nat>)
    ensures NoDup(a + [it] + b) <==>
            NoDup(a) && NoDup(b) && Apart(a, b) && it !in a && it !in b
  {
    NoDupParts(a, [it]);
    NoDupParts(a + [it], b);
    assert Apart(a, [it]) <==> it !in a;
    assert it in a + [it];
    assert Apart(a + [it], b) <==> Apart(a, b) && it !in b;
  }

  /** Making the item before `b` be `to`, while `a` stays as it is. */
  lemma Relink(k: Links, a: seq<nat>, b: seq<nat>, x: Ptr, y: Ptr, to: Ptr)
    requires NoDup(b) && Apart(a, b) && b != []
    requires Seg(k, a, None, x) && Seg(k, b, y, None)
    ensures Seg(k.SetPrev(b[0], to), a, None, x) && Seg(k.SetPrev(b[0], to), b, to, None)
  {
    SegBefore(k, b, y, None, to);
    SegFrame(k, k.SetPrev(b[0], to), a, None, x);
  }

  /** Making the item after `a` be `to`, while `b` stays as it is. */
  lemma RelinkBack(k: Links, a: seq<nat>, b: seq<nat>, x: Ptr, y: Ptr, to: Ptr)
    requires NoDup(a) && Apart(a, b) && a != []
    requires Seg(k, a, None, x) && Seg(k, b, y, None)
    ensures Seg(k.SetNext(a[|a| - 1], to), a, None, to) && Seg(k.SetNext(a[|a| - 1], to), b, y, None)
  {
    SegAfter(k, a, None, x, to);
    SegFrame(k, k.SetNext(a[|a| - 1], to), b, y, None);
  }

  /** Setting links of an item outside both parts. */
  lemma Aside(k: Links, k1: Links, a: seq<nat>, b: seq<nat>, x: Ptr, y: Ptr, it: nat)
    requires it !in a && it !in b
    requires forall id :: id != it ==> k.Agrees(id, k1)
    requires Seg(k, a, None, x) && Seg(k, b, y, None)
    ensures Seg(k1, a, None, x) && Seg(k1, b, y, None)
  {
    SegFrame(k, k1, a, None, x);
    SegFrame(k, k1, b, y, None);
  }

  ghost predicate Outside(k: Links, k1: Links, ids: seq<nat>) {
    forall id :: id !in ids ==> k.Agrees(id, k1)
  }

  /** Puts an item in front of the list. */
  method LinkHead(q: Queue, it: nat, ghost ids: seq<nat>) returns (r: Queue)
    requires q.Is(ids) && it !in ids
    ensures r.Is([it] + ids) && Outside(q.links, r.links, [it] + ids)
  {
    var k, head, tail := q.links, q.head, q.tail;
    k := k.SetPrev(it, None);
    k := k.SetNext(it, head);
    ghost var b := ids;
    Aside(q.links, k, [], b, None, None, it);
    if k.next[it].Some? {
      Relink(k, [], b, None, None, Some(it));
      k := k.SetPrev(k.next[it].value, Some(it));
    }
    head := Some(it);
    if tail.None? {
      tail := Some(it);
    }
    r := Queue(k, head, tail);
    assert [] + [it] + b == [it] + b;
    Around(k, [], it, b);
    NoDupAround([], it, b);
  }

  /** Puts an item behind the list. */
  method LinkTail(q: Queue, it: nat, ghost ids: seq<nat>) returns (r: Queue)
    requires q.Is(ids) && it !in ids
    ensures r.Is(ids + [it]) && Outside(q.links, r.links, ids + [it])
  {
    var k, head, tail := q.links, q.head, q.tail;
    k := k.SetPrev(it, tail);
    k := k.SetNext(it, None);
    ghost var a := ids;
    Aside(q.links, k, a, [], None, None, it);
    if k.prev[it].Some? {
      RelinkBack(k, a, [], None, None, Some(it));
      k := k.SetNext(k.prev[it].value, Some(it));
    }
    tail := Some(it);
    if head.None? {
      head := Some(it);
    }
    r := Queue(k, head, tail);
    assert a + [it] + [] == a + [it];
    Around(k, a, it, []);
    NoDupAround(a, it, []);
  }

  /** A crawler popped off the front of `ids` still points at the first item. */
  ghost predicate Popped(q: Queue, it: nat, ids: seq<nat>) {
    && q.Is(ids) && it !in ids && ids != []
    && it in q.links.prev && q.links.prev[it] == None
    && it in q.links.next && q.links.next[it] == Some(ids[0])
  }

  lemma BeforeUnlink(q: Queue, it: nat, a: seq<nat>, b: seq<nat>) returns (y: Ptr)
    requires q.Is(a + [it] + b) || (a == [] && Popped(q, it, b))
    ensures NoDup(a) && NoDup(b) && Apart(a, b) && it !in a && it !in b
    ensures it in q.links.prev && q.links.prev[it] == Last(a, None)
    ensures it in q.links.next && q.links.next[it] == First(b, None)
    ensures Seg(q.links, a, None, Some(it)) && Seg(q.links, b, y, None)
    ensures (if q.head == Some(it) then First(b, None) else q.head) == First(a + b, None)
    ensures (if q.tail == Some(it) then Last(a, None) else q.tail) == Last(a + b, None)
  {
    if q.Is(a + [it] + b) {
      Around(q.links, a, it, b);
      NoDupAround(a, it, b);
      y := Some(it);
    } else {
      assert a + b == b;
      y := None;
    }
  }

  /** Takes an item out of the list, wherever it is; for a crawler that was popped off already,
      this changes nothing. */
  method Unlink(q: Queue, it: nat, ghost a: seq<nat>, ghost b: seq<nat>) returns (r: Queue)
    requires q.Is(a + [it] + b) || (a == [] && Popped(q, it, b))
    ensures r.Is(a + b) && Outside(q.links, r.links, a + b)
  {
    var k, head, tail := q.links, q.head, q.tail;
    ghost var y := BeforeUnlink(q, it, a, b);
    if head == Some(it) {
      head := k.next[it];
    }
    if tail == Some(it) {
      tail := k.prev[it];
    }
    if k.next[it].Some? {
      Relink(k, a, b, Some(it), y, Last(a, None));
      k := k.SetPrev(k.next[it].value, k.prev[it]);
    }
    if k.prev[it].Some? {
      RelinkBack(k, a, b, Some(it), Last(a, None), First(b, None));
      k := k.SetNext(k.prev[it].value, k.next[it]);
    }
    r := Queue(k, head, tail);
    SegSplit(k, a, b, None, None);
    NoDupParts(a, b);
  }

  /** Moves a crawler over the item in front of it; at the front of the list it is popped off
      instead, keeping its own stale links, unless it is all there is. */
  method Crawl(q: Queue, it: nat, ghost a: seq<nat>, ghost b: seq<nat>) returns (r: Queue, found: Ptr)
    requires q.Is(a + [it] + b)
    ensures found == Last(a, None)
    ensures found.Some? ==> r.Is(a[..|a| - 1] + [it, a[|a| - 1]] + b) && Outside(q.links, r.links, a + [it] + b)
    ensures found.None? && b == [] ==> r == q
    ensures found.None? && b != [] ==> Popped(r, it, b) && Outside(q.links, r.links, b)
  {
    var k, head, tail := q.links, q.head, q.tail;
    Around(k, a, it, b);
    NoDupAround(a, it, b);
    if k.prev[it].None? {
      if k.next[it].Some? {
        head := k.next[it];
        Relink(k, [], b, None, Some(it), None);
        k := k.SetPrev(k.next[it].value, None);
      }
      return Queue(k, head, tail), None;
    }
    var x := k.prev[it].value;
    ghost var front := a[..|a| - 1];
    assert a == front + [x];
    r := Swing(q, it, x, front, b);
    found := r.links.next[it];
    assert front + [it, x] + b == front + [it] + ([x] + b);
  }

  /** Takes the crawler out from behind `x`. */
  method SwingOut(k0: Links, it: nat, x: nat, ghost a: seq<nat>, ghost b: seq<nat>) returns (k: Links)
    requires NoDup(a + [x]) && NoDup(b) && Apart(a + [x], b) && it !in a + [x] && it !in b
    requires Seg(k0, a + [x], None, Some(it)) && Seg(k0, b, Some(it), None)
    requires it in k0.prev && it in k0.next && k0.prev[it] == Some(x) && k0.next[it] == First(b, None)
    ensures Seg(k, a + [x] + b, None, None) && Outside(k0, k, a + [x] + b)
  {
    k := k0;
    ghost var ax := a + [x];
    assert ax[|ax| - 1] == x;
    RelinkBack(k, ax, b, Some(it), Some(it), First(b, None));
    if k.next[it].Some? {
      k := k.SetNext(x, k.next[it]);
      Relink(k, ax, b, First(b, None), Some(it), Some(x));
      k := k.SetPrev(k.next[it].value, k.prev[it]);
    } else {
      k := k.SetNext(x, None);
    }
    SegSplit(k, ax, b, None, None);
  }

  /** Puts the crawler in front of `x`. */
  method SwingIn(k0: Links, it: nat, x: nat, ghost a: seq<nat>, ghost b: seq<nat>) returns (k: Links)
    requires NoDup(a) && NoDup(b) && Apart(a, b) && it !in a && it !in b && x !in a && x !in b && x != it
    requires Seg(k0, a + [x] + b, None, None) && it in k0.prev && k0.prev[it] == Some(x)
    ensures Seg(k, a + [it] + ([x] + b), None, None) && Outside(k0, k, a + [x] + [it] + b)
    ensures it in k.next && k.next[it] == Some(x)
  {
    k := k0;
    Around(k, a, x, b);
    k := k.SetNext(it, k.prev[it]);
    k := k.SetPrev(it, k.prev[x]);
    Aside(k0, k, a, b, Some(x), Some(x), it);
    ghost var k1 := k;
    k := k.SetPrev(x, Some(it));
    Aside(k1, k, a, b, Some(x), Some(x), x);
    if k.prev[it].Some? {
      RelinkBack(k, a, b, Some(x), Some(x), Some(it));
      k := k.SetNext(k.prev[it].value, Some(it));
    }
    SegOne(k, x, Some(it), First(b, None));
    SegSplit(k, [x], b, Some(it), None);
    Around(k, a, it, [x] + b);
  }

  method Swing(q: Queue, it: nat, x: nat, ghost a: seq<nat>, ghost b: seq<nat>) returns (r: Queue)
    requires q.Is(a + [x] + [it] + b)
    ensures r.Is(a + [it] + ([x] + b)) && Outside(q.links, r.links, a + [x] + [it] + b)
    ensures it in r.links.next && r.links.next[it] == Some(x)
  {
    var k, head, tail := q.links, q.head, q.tail;
    Around(k, a + [x], it, b);
    NoDupAround(a + [x], it, b);
    NoDupParts(a, [x]);
    if head == k.prev[it] {
      head := Some(it);
    }
    if tail == Some(it) {
      tail := k.prev[it];
    }
    k := SwingOut(k, it, x, a, b);
    assert it !in a + [x] + b && q.links.Agrees(it, k);
    ghost var k1 := k;
    k := SwingIn(k, it, x, a, b);
    forall id | id !in a + [x] + [it] + b ensures q.links.Agrees(id, k) {
      assert id !in a + [x] + b && q.links.Agrees(id, k1) && k1.Agrees(id, k);
    }
    r := Queue(k, head, tail);
    NoDupAround(a, it, [x] + b);
    NoDupParts([x], b);
  }
}
