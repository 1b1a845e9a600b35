/** Crawlers among the items of the LRU lists: to flags, counts and totals they are not there. */
module CrawlerItems {
  import opened Common
  import L = LruLists
  import opened Items

  lemma {:induction false} CountConcat(weight: map<nat, nat>, a: seq<nat>, b: seq<nat>)
    ensures Count(a + b) == Count(a) + Count(b)
    ensures Weigh(weight, a + b) == Weigh(weight, a) + Weigh(weight, b)
  {
    if a == [] {
      assert a + b == b;
    } else {
      assert (a + b)[1..] == a[1..] + b;
      CountConcat(weight, a[1..], b);
    }
  }

  lemma CountCrawler(weight: map<nat, nat>, a: seq<nat>, c: nat, b: seq<nat>)
    requires !IsReal(c)
    ensures Count(a + [c] + b) == Count(a + b)
    ensures Weigh(weight, a + [c] + b) == Weigh(weight, a + b)
  {
    assert [c][1..] == [];
    CountConcat(weight, a, [c]);
    CountConcat(weight, a + [c], b);
    CountConcat(weight, a, b);
  }

  function SetList(s: Cache, c: nat, ids: seq<nat>): Cache
    requires c < |s.lists|
  {
    s.(lists := s.lists[c := ids])
  }

  lemma SetTwice(s: Cache, c: nat, a: seq<nat>, b: seq<nat>)
    requires c < |s.lists|
    ensures SetList(SetList(s, c, a), c, b) == SetList(s, c, b)
  {
    assert s.lists[c := a][c := b] == s.lists[c := b];
  }

  /** Where a crawler is in its list, or whether it is there at all, makes no difference to the
      items: their flags, counts and totals are still right. */
  lemma CrawlerIsNoItem(s: Cache, c: nat, a: seq<nat>, b: seq<nat>, from: bool, a1: seq<nat>, b1: seq<nat>, to: bool)
    requires Inv(s) && c < LISTS && a + b == a1 + b1
    requires s.lists[c] == Joined(c, a, b, from)
    requires c !in a + b
    ensures Inv(SetList(s, c, Joined(c, a1, b1, to)))
  {
    hide Count, Weigh, Sum, TableOk, RefsOk, FieldsOk, TotalsOk;
    var ids := Joined(c, a1, b1, to);
    CountCrawler(s.weight, a, c, b);
    CountCrawler(s.weight, a1, c, b1);
    CrawlerLists(s.lists, s.cls, s.linked, c, a, b, from, a1, b1, to);
    CountsSame(s.lists, s.sizes, s.bytes, s.weight, c, ids);
  }

  lemma CountsSame(lists: seq<seq<nat>>, sizes: seq<nat>, bytes: seq<nat>, weight: map<nat, nat>, c: nat, ids: seq<nat>)
    requires CountsOk(lists, sizes, bytes, weight) && c < |lists|
    requires Count(ids) == Count(lists[c]) && Weigh(weight, ids) == Weigh(weight, lists[c])
    ensures CountsOk(lists[c := ids], sizes, bytes, weight)
  {
    hide Count, Weigh;
  }

  lemma SameReals(lists: seq<seq<nat>>, cls: map<nat, nat>, linked: set<nat>, c: nat, ids: seq<nat>)
    requires OneList(lists, cls, linked) && c < LISTS && NoDup(ids)
    requires forall x :: IsReal(x) ==> (x in ids <==> x in lists[c])
    requires forall x :: x in ids && !IsReal(x) ==> x == c
    ensures OneList(lists[c := ids], cls, linked)
  {
    hide NoDup;
  }

  function Joined(c: nat, a: seq<nat>, b: seq<nat>, within: bool): seq<nat> {
    if within then a + [c] + b else a + b
  }

  /** The items of a list with and without its crawler. */
  lemma Members(c: nat, a: seq<nat>, b: seq<nat>, within: bool)
    ensures forall x :: x != c ==> (x in Joined(c, a, b, within) <==> x in a + b)
    ensures c !in a + b ==> (NoDup(Joined(c, a, b, within)) <==> NoDup(a + b))
  {
    L.NoDupAround(a, c, b);
    L.NoDupParts(a, b);
  }

  lemma CrawlerLists(lists: seq<seq<nat>>, cls: map<nat, nat>, linked: set<nat>,
                     c: nat, a: seq<nat>, b: seq<nat>, from: bool, a1: seq<nat>, b1: seq<nat>, to: bool)
    requires OneList(lists, cls, linked) && c < LISTS && a + b == a1 + b1
    requires lists[c] == Joined(c, a, b, from) && c !in a + b
    ensures OneList(lists[c := Joined(c, a1, b1, to)], cls, linked)
  {
    Members(c, a, b, from);
    Members(c, a1, b1, to);
    var ids := Joined(c, a1, b1, to);
    var was := lists[c];
    assert NoDup(was);
    assert forall x :: x in ids ==> x == c || x in was;
    SameReals(lists, cls, linked, c, ids);
  }

  lemma CrawlerApart(s: Cache, c: nat, a: seq<nat>, b: seq<nat>)
    requires Inv(s) && c < LISTS && s.lists[c] == a + [c] + b
    ensures c !in a + b
  {
    L.NoDupAround(a, c, b);
  }
}
