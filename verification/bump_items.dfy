/** Asynchronous bumps and the items they hold on to: each entry in a bump buffer stands for one
    reference to its item, taken when the entry went in and given up after the item was updated. */
module BumpItems {
  import opened Common
  import opened Lists
  import opened Items
  import opened ItemCache
  import opened Bip
  import opened Bumps

  /** How many of the entries are of item `x`. */
  function Queued(es: seq<Entry>, x: nat): nat {
    if es == [] then 0 else (if es[0].item == x then 1 else 0) + Queued(es[1..], x)
  }

  lemma {:induction false} QueuedConcat(a: seq<Entry>, b: seq<Entry>, x: nat)
    ensures Queued(a + b, x) == Queued(a, x) + Queued(b, x)
  {
    if a == [] {
      assert a + b == b;
    } else {
      assert (a + b)[1..] == a[1..] + b;
      QueuedConcat(a[1..], b, x);
    }
  }

  /** Every entry has its own reference. */
  ghost predicate Backed(s: Cache, es: seq<Entry>) {
    forall x :: Queued(es, x) <= Extra(s.refs, s.linked, x)
  }

  /** The references other than the entries' are the same for every item. */
  ghost predicate SameOthers(s: Cache, es: seq<Entry>, t: Cache, fs: seq<Entry>) {
    forall x :: Extra(t.refs, t.linked, x) - Queued(fs, x) == Extra(s.refs, s.linked, x) - Queued(es, x)
  }

  /** The item does not sit in a COLD list although it was hit. */
  predicate Bumped(s: Cache, x: nat) {
    x in s.linked && x in s.cls && x in s.active ==> Segment(s.cls[x]) != COLD
  }

  ghost predicate AllBumped(s: Cache, es: seq<Entry>) {
    forall e :: e in es ==> Bumped(s, e.item)
  }

  lemma TakenIsBacked(s: Cache, t: Cache, es: seq<Entry>, e: Entry)
    requires Backed(s, es)
    requires forall x :: Extra(t.refs, t.linked, x) == Extra(s.refs, s.linked, x) + if x == e.item then 1 else 0
    ensures Backed(t, es + [e]) && SameOthers(s, es, t, es + [e])
  {
    hide Extra;
    forall x
      ensures Queued(es + [e], x) == Queued(es, x) + if x == e.item then 1 else 0
    {
      QueuedConcat(es, [e], x);
    }
  }

  lemma HeadIsBacked(s: Cache, es: seq<Entry>)
    requires Backed(s, es) && es != []
    ensures es[0].item in s.refs && Extra(s.refs, s.linked, es[0].item) > 0
  {
    assert Queued(es, es[0].item) <= Extra(s.refs, s.linked, es[0].item);
  }

  /** `do_item_update` and `do_item_remove`. */
  ghost function BumpOne(s: Cache, x: nat): Cache
    requires Items.Inv(s) && x in s.refs && Extra(s.refs, s.linked, x) > 0
  {
    UpdateHolds(s, x);
    Remove(Update(s, x, true, false), x)
  }

  lemma UpdateHolds(s: Cache, x: nat)
    requires Items.Inv(s) && x in s.refs && Extra(s.refs, s.linked, x) > 0
    ensures var t := Update(s, x, true, false);
            && Items.Inv(t) && x in t.refs && t.refs[x] > 0 && SameExtra(s, t) && t.linked == s.linked
  {
    hide Items.Inv;
    UpdateKeeps(s, x, true, false);
    assert Extra(Update(s, x, true, false).refs, s.linked, x) > 0;
  }

  lemma BumpOneKeeps(s: Cache, x: nat)
    requires Items.Inv(s) && x in s.refs && Extra(s.refs, s.linked, x) > 0
    ensures var t := BumpOne(s, x);
            && Items.Inv(t)
            && forall y :: Extra(t.refs, t.linked, y) == Extra(s.refs, s.linked, y) - if y == x then 1 else 0
  {
    hide Items.Inv, Update, Extra, Remove;
    UpdateHolds(s, x);
    RemoveKeeps(Update(s, x, true, false), x);
    RemoveShape(Update(s, x, true, false), x);
  }

  lemma RemoveShape(s: Cache, x: nat)
    requires x in s.refs && s.refs[x] > 0
    ensures var t := Remove(s, x); t.linked == s.linked && t.cls == s.cls && t.active == s.active
  {}

  /** The item has left COLD, and others that had still have. */
  lemma BumpOneBumps(s: Cache, x: nat)
    requires Items.Inv(s) && x in s.refs && Extra(s.refs, s.linked, x) > 0
    ensures Bumped(BumpOne(s, x), x) && forall y :: Bumped(s, y) ==> Bumped(BumpOne(s, x), y)
  {
    hide Items.Inv, Extra, Move, Remove;
    UpdateHolds(s, x);
    RemoveShape(Update(s, x, true, false), x);
    if x in s.linked {
      UpdateMoves(s, x, true, false);
      MoveShape(s, x, Class(s.cls[x]) + WARM);
      WarmIsNotCold(Class(s.cls[x]));
    }
  }

  lemma WarmIsNotCold(k: nat)
    requires k < CLASSES
    ensures Segment(k + WARM) != COLD
  {}

  lemma FreedIsBacked(s: Cache, t: Cache, es: seq<Entry>)
    requires Backed(s, es) && es != []
    requires forall y :: Extra(t.refs, t.linked, y) == Extra(s.refs, s.linked, y) - if y == es[0].item then 1 else 0
    ensures Backed(t, es[1..]) && SameOthers(s, es, t, es[1..])
  {
    hide Extra;
  }

  lemma OthersTrans(s: Cache, es: seq<Entry>, t: Cache, fs: seq<Entry>, u: Cache, gs: seq<Entry>)
    requires SameOthers(s, es, t, fs) && SameOthers(t, fs, u, gs)
    ensures SameOthers(s, es, u, gs)
  {
    hide Extra, Queued;
  }

  /** `lru_bump_async`: a reference is taken, and the entry goes in or, the buffer being full, the
      reference is given back.  Either way nobody else's references have changed. */
  method BumpAsync(b: BipBuffer, store: ItemStore, e: Entry) returns (ok: bool)
    requires b.Valid() && Aligned(b.View()) && e.Fits()
    requires store.Valid() && e.item in store.refs
    requires |b.Queue()| % ENTRY == 0 && Backed(store.View(), Parse(b.Queue()))
    modifies b, b.data, store
    ensures b.Valid() && Aligned(b.View()) && |b.Queue()| % ENTRY == 0 && store.Valid()
    ensures ok <==> ENTRY <= old(b.Room())
    ensures Parse(b.Queue()) == old(Parse(b.Queue())) + if ok then [e] else []
    ensures if ok then store.View() == Incr(old(store.View()), e.item) else store.View() == old(store.View())
    ensures Backed(store.View(), Parse(b.Queue()))
    ensures SameOthers(old(store.View()), old(Parse(b.Queue())), store.View(), Parse(b.Queue()))
  {
    hide Items.Inv, Parse, Contents, Aligned, Backed, SameOthers, Threaded, Entry.Fits;
    ghost var s := store.View();
    ghost var es := Parse(b.Queue());
    IncrKeeps(s, e.item);
    store.refs := store.refs[e.item := store.refs[e.item] + 1];
    ok := Enqueue(b, e);
    if ok {
      TakenIsBacked(s, store.View(), es, e);
    } else {
      store.refs := store.refs[e.item := store.refs[e.item] - 1];
      assert store.refs == s.refs;
      assert es + [] == es;
      OthersSame(s, es);
    }
  }

  lemma OthersSame(s: Cache, es: seq<Entry>)
    ensures SameOthers(s, es, s, es)
  {}

  /** Does to one item what is due for its entry. */
  method UpdateAndRelease(store: ItemStore, x: nat)
    requires store.Valid() && x in store.refs && Extra(store.refs, store.linked, x) > 0
    modifies store
    ensures store.Valid() && store.View() == BumpOne(old(store.View()), x)
  {
    hide Items.Inv, Threaded, Extra, Items.Update, Items.Remove;
    UpdateHolds(store.View(), x);
    BumpOneKeeps(store.View(), x);
    store.Update(x, true, false);
    store.Release(x);
  }

  lemma MoreBumped(s: Cache, t: Cache, es: seq<Entry>, e: Entry)
    requires AllBumped(s, es) && Bumped(t, e.item) && forall y :: Bumped(s, y) ==> Bumped(t, y)
    ensures AllBumped(t, es + [e])
  {
    hide Bumped;
  }

  /** Goes through the entries at `at`, which are the first of `es`. */
  method FreeEntries(data: array<byte>, store: ItemStore, at: nat, size: nat, ghost es: seq<Entry>)
    returns (freed: seq<Entry>)
    requires at + size <= data.Length && size % ENTRY == 0 && Parse(data[at..at + size]) <= es
    requires store.Valid() && Backed(store.View(), es)
    modifies store
    ensures store.Valid() && freed == Parse(data[at..at + size]) && AllBumped(store.View(), freed)
    ensures Backed(store.View(), es[|freed|..]) && SameOthers(old(store.View()), es, store.View(), es[|freed|..])
  {
    hide Items.Inv, Parse, Backed, SameOthers, AllBumped, Bumped, Threaded, Decode, Extra, BumpOne, Queued;
    ghost var window := data[at..at + size];
    ghost var s, win := store.View(), Parse(window);
    var be, todo := at, size;
    freed := [];
    OthersSame(s, es);
    NoneBumped(s);
    assert es[0..] == es;
    while todo != 0
      invariant 0 <= todo <= size && todo % ENTRY == 0 && be == at + size - todo
      invariant ENTRY * |freed| == be - at && freed == win[..|freed|]
      invariant store.Valid() && AllBumped(store.View(), freed)
      invariant Backed(store.View(), es[|freed|..]) && SameOthers(s, es, store.View(), es[|freed|..])
    {
      ghost var k, was := |freed|, store.View();
      var e := Decode(data[be..be + ENTRY]);
      ParseAt(window, k);
      assert window[ENTRY * k..ENTRY * k + ENTRY] == data[be..be + ENTRY];
      assert es[k] == win[k] == e;
      HeadIsBacked(was, es[k..]);
      BumpOneKeeps(was, e.item);
      BumpOneBumps(was, e.item);
      UpdateAndRelease(store, e.item);
      FreedIsBacked(was, store.View(), es[k..]);
      assert es[k..][1..] == es[k + 1..];
      OthersTrans(s, es, was, es[k..], store.View(), es[k + 1..]);
      MoreBumped(was, store.View(), freed, e);
      freed := freed + [e];
      be, todo := be + ENTRY, todo - ENTRY;
    }
  }

  /** One round of `lru_maintainer_bumps` over a buffer: the items of region A are updated and their
      references given up, oldest first.  All of them have then left COLD if they were hit, and
      nobody else's references have changed. */
  method Maintain(b: BipBuffer, store: ItemStore) returns (freed: seq<Entry>)
    requires b.Valid() && Aligned(b.View()) && store.Valid()
    requires |b.Queue()| % ENTRY == 0 && Backed(store.View(), Parse(b.Queue()))
    modifies b, store
    ensures b.Valid() && Aligned(b.View()) && |b.Queue()| % ENTRY == 0 && store.Valid()
    ensures old(Parse(b.Queue())) == freed + Parse(b.Queue())
    ensures freed == [] <==> old(b.Queue()) == []
    ensures AllBumped(store.View(), freed)
    ensures Backed(store.View(), Parse(b.Queue()))
    ensures SameOthers(old(store.View()), old(Parse(b.Queue())), store.View(), Parse(b.Queue()))
  {
    hide Items.Inv, Parse, Contents, Polled, Aligned, Backed, SameOthers, AllBumped, Threaded, Decode;
    ghost var s, q := store.View(), b.Queue();
    freed := [];
    var at, size := b.PeekAll();
    if at.None? {
      ParseNone(q);
      OthersSame(s, Parse(q));
      NoneBumped(s);
      return;
    }
    ContentsAligned(b.View());
    assert q == q[..size] + q[size..];
    ParseConcat(q[..size], q[size..]);
    freed := FreeEntries(b.data, store, at.value, size, Parse(q));
    assert Parse(q)[|freed|..] == Parse(q[size..]);
    StaysAligned(b.View(), size);
    var _ := b.Poll(size);
  }

  lemma NoneBumped(s: Cache)
    ensures AllBumped(s, [])
  {}
}
