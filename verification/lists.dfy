/** Lists, and lists without one of their members. */
module Lists {
  import opened Common

  ghost predicate Nowhere(lists: seq<seq<nat>>, x: nat) {
    forall i :: 0 <= i < |lists| ==> x !in lists[i]
  }

  function Without(ids: seq<nat>, x: nat): (r: seq<nat>)
    ensures forall y :: y in r <==> y in ids && y != x
  {
    if ids == [] then []
    else if ids[0] == x then Without(ids[1..], x)
    else [ids[0]] + Without(ids[1..], x)
  }

  lemma {:induction false} WithoutAbsent(ids: seq<nat>, x: nat)
    requires x !in ids
    ensures Without(ids, x) == ids
  {
    if ids != [] {
      WithoutAbsent(ids[1..], x);
    }
  }

  lemma {:induction false} SplitAt(ids: seq<nat>, k: nat)
    requires NoDup(ids) && k < |ids|
    ensures Without(ids, ids[k]) == ids[..k] + ids[k + 1..]
    ensures ids == ids[..k] + [ids[k]] + ids[k + 1..]
  {
    if k == 0 {
      assert ids[0] !in ids[1..] by {
        assert forall i :: 0 <= i < |ids[1..]| ==> ids[1..][i] == ids[i + 1];
      }
      WithoutAbsent(ids[1..], ids[0]);
    } else {
      assert ids[0] != ids[k];
      SplitAt(ids[1..], k - 1);
      assert ids[1..][..k - 1] == ids[1..k] && ids[1..][k..] == ids[k + 1..];
      assert ids[..k] == [ids[0]] + ids[1..k];
    }
  }

  lemma {:induction false} WithoutNoDup(ids: seq<nat>, x: nat)
    requires NoDup(ids)
    ensures NoDup(Without(ids, x))
  {
    if ids != [] {
      WithoutNoDup(ids[1..], x);
      var rest := Without(ids[1..], x);
      assert ids[0] !in ids[1..] by {
        assert forall i :: 0 <= i < |ids[1..]| ==> ids[1..][i] == ids[i + 1];
      }
      forall i, j | 0 <= i < j < |[ids[0]] + rest|
        ensures ([ids[0]] + rest)[i] != ([ids[0]] + rest)[j]
      {
        assert rest[j - 1] in rest;
      }
    }
  }

  lemma {:induction false} WithoutLength(ids: seq<nat>, x: nat)
    requires NoDup(ids) && x in ids
    ensures |Without(ids, x)| == |ids| - 1
  {
    if ids[0] == x {
      assert x !in ids[1..] by {
        assert forall i :: 0 <= i < |ids[1..]| ==> ids[1..][i] == ids[i + 1];
      }
      WithoutAbsent(ids[1..], x);
    } else {
      assert ids == [ids[0]] + ids[1..];
      WithoutLength(ids[1..], x);
    }
  }

  lemma {:induction false} WithoutConcat(a: seq<nat>, b: seq<nat>, x: nat)
    ensures Without(a + b, x) == Without(a, x) + Without(b, x)
  {
    if a == [] {
      assert a + b == b;
    } else {
      assert (a + b)[1..] == a[1..] + b;
      WithoutConcat(a[1..], b, x);
    }
  }
}

/** Singly linked chains of numbered records, joined by their `next` links. */
module LinkedChains {
  import opened Common

  /** Following the links from `p` visits exactly `ids` and ends. */
  ghost predicate Chain(next: map<nat, Ptr>, p: Ptr, ids: seq<nat>)
    decreases |ids|
  {
    if ids == [] then p.None?
    else p == Some(ids[0]) && ids[0] in next && Chain(next, next[ids[0]], ids[1..])
  }

  /** A chain does not notice changes to links of items that are not on it. */
  lemma {:induction false} ChainFrame(a: map<nat, Ptr>, b: map<nat, Ptr>, p: Ptr, ids: seq<nat>)
    requires Chain(a, p, ids) && forall id :: id in ids && id in a ==> id in b && b[id] == a[id]
    ensures Chain(b, p, ids)
    decreases |ids|
  {
    if ids != [] {
      ChainFrame(a, b, a[ids[0]], ids[1..]);
    }
  }

  lemma {:induction false} ChainUnique(next: map<nat, Ptr>, p: Ptr, a: seq<nat>, b: seq<nat>)
    requires Chain(next, p, a) && Chain(next, p, b)
    ensures a == b
    decreases |a|
  {
    if a != [] && b != [] {
      ChainUnique(next, next[a[0]], a[1..], b[1..]);
    }
  }

  lemma {:induction false} ChainFrom(next: map<nat, Ptr>, p: Ptr, ids: seq<nat>, i: nat)
    requires Chain(next, p, ids) && i < |ids|
    ensures ids[i] in next && Chain(next, Some(ids[i]), ids[i..]) && Chain(next, next[ids[i]], ids[i + 1..])
    decreases |ids|
  {
    if i > 0 {
      ChainFrom(next, next[ids[0]], ids[1..], i - 1);
      assert ids[1..][i - 1..] == ids[i..] && ids[1..][i..] == ids[i + 1..];
    }
  }

  lemma PushChain(next: map<nat, Ptr>, p: Ptr, ids: seq<nat>, id: nat)
    requires Chain(next, p, ids) && id !in ids
    ensures Chain(next[id := p], Some(id), [id] + ids)
  {
    ChainFrame(next, next[id := p], p, ids);
    assert ([id] + ids)[1..] == ids;
  }

  /** Cutting the `i`-th item out of a chain by redirecting the link to it. */
  lemma {:induction false} CutChain(next: map<nat, Ptr>, p: Ptr, ids: seq<nat>, i: nat)
    requires Chain(next, p, ids) && NoDup(ids) && 0 < i < |ids|
    ensures ids[i] in next && ids[i - 1] in next && next[ids[i - 1]] == Some(ids[i])
    ensures Chain(next[ids[i] := None][ids[i - 1] := next[ids[i]]], p, ids[..i] + ids[i + 1..])
    decreases i
  {
    ChainFrom(next, p, ids, i - 1);
    ChainFrom(next, p, ids, i);
    var after := next[ids[i] := None][ids[i - 1] := next[ids[i]]];
    var rest := ids[..i] + ids[i + 1..];
    assert rest[1..] == ids[1..i] + ids[i + 1..];
    if i == 1 {
      ChainFrame(next, after, next[ids[1]], ids[2..]);
      assert rest[1..] == ids[2..];
    } else {
      CutChain(next, next[ids[0]], ids[1..], i - 1);
      CutRest(ids, i);
    }
  }

  lemma CutRest(ids: seq<nat>, i: nat)
    requires 0 < i < |ids|
    ensures ids[1..][..i - 1] + ids[1..][i..] == (ids[..i] + ids[i + 1..])[1..]
  {
    assert ids[1..][..i - 1] == ids[..i][1..];
    assert ids[1..][i..] == ids[i + 1..];
  }

  lemma {:induction false} PopChain(next: map<nat, Ptr>, p: Ptr, ids: seq<nat>)
    requires Chain(next, p, ids) && NoDup(ids) && ids != []
    ensures ids[0] in next && Chain(next[ids[0] := None], next[ids[0]], ids[1..])
  {
    ChainFrame(next, next[ids[0] := None], next[ids[0]], ids[1..]);
  }

  lemma ChainStart(next: map<nat, Ptr>, p: Ptr, ids: seq<nat>)
    requires Chain(next, p, ids)
    ensures if ids == [] then p.None? else p == Some(ids[0])
  {}
}

/** Stacks of numbered records that share one `next` link per record. */
module LinkedStacks {
  import opened Common
  import opened Lists
  import opened LinkedChains

  /** No record is on two stacks, or twice on one. */
  ghost predicate Apart(stacks: seq<seq<nat>>) {
    && (forall k :: 0 <= k < |stacks| ==> NoDup(stacks[k]))
    && (forall j, k, x :: 0 <= j < k < |stacks| && x in stacks[j] ==> x !in stacks[k])
  }

  /** Following the links from each head visits just the records of its stack. */
  ghost predicate Linked(next: map<nat, Ptr>, heads: seq<Ptr>, stacks: seq<seq<nat>>) {
    |heads| == |stacks| && Apart(stacks) && forall k :: 0 <= k < |stacks| ==> Chain(next, heads[k], stacks[k])
  }

  lemma ApartPop(stacks: seq<seq<nat>>, k: nat)
    requires Apart(stacks) && k < |stacks| && stacks[k] != []
    ensures Apart(stacks[k := stacks[k][1..]]) && Nowhere(stacks[k := stacks[k][1..]], stacks[k][0])
  {
    var p, rest := stacks[k][0], stacks[k][1..];
    assert p in stacks[k];
    assert forall i :: 0 <= i < |rest| ==> rest[i] == stacks[k][i + 1];
    assert forall x :: x in rest ==> x in stacks[k];
  }

  /** Taking the top record off a stack by moving the head to the next one. */
  lemma Pop(next: map<nat, Ptr>, heads: seq<Ptr>, stacks: seq<seq<nat>>, k: nat)
    requires Linked(next, heads, stacks) && k < |stacks|
    ensures if stacks[k] == [] then heads[k].None? else
              && var p, rest := stacks[k][0], stacks[k := stacks[k][1..]];
                 heads[k] == Some(p) && p in next && Linked(next, heads[k := next[p]], rest) && Nowhere(rest, p)
  {
    if stacks[k] != [] {
      ApartPop(stacks, k);
      hide Apart, Nowhere;
    }
  }

  lemma ApartPush(stacks: seq<seq<nat>>, k: nat, p: nat)
    requires Apart(stacks) && k < |stacks| && Nowhere(stacks, p)
    ensures Apart(stacks[k := [p] + stacks[k]])
  {
    var more := [p] + stacks[k];
    assert forall x :: x in more ==> x == p || x in stacks[k];
  }

  /** Putting a record that is nowhere on top of a stack. */
  lemma Push(next: map<nat, Ptr>, heads: seq<Ptr>, stacks: seq<seq<nat>>, k: nat, p: nat)
    requires Linked(next, heads, stacks) && k < |stacks| && Nowhere(stacks, p)
    ensures Linked(next[p := heads[k]], heads[k := Some(p)], stacks[k := [p] + stacks[k]])
  {
    ApartPush(stacks, k, p);
    hide Apart, Chain;
    PushChain(next, heads[k], stacks[k], p);
    forall j | 0 <= j < |stacks| && j != k
      ensures Chain(next[p := heads[k]], heads[j], stacks[j])
    {
      ChainFrame(next, next[p := heads[k]], heads[j], stacks[j]);
    }
  }

  /** The links after record `i` of a stack has been unlinked. */
  function Unlinked(next: map<nat, Ptr>, stack: seq<nat>, i: nat): map<nat, Ptr>
    requires i < |stack| && stack[i] in next
  {
    if i == 0 then next[stack[0] := None] else next[stack[i - 1] := next[stack[i]]][stack[i] := None]
  }

  lemma ApartCut(stacks: seq<seq<nat>>, k: nat, p: nat)
    requires Apart(stacks) && k < |stacks| && p in stacks[k]
    ensures Apart(stacks[k := Without(stacks[k], p)]) && Nowhere(stacks[k := Without(stacks[k], p)], p)
  {
    WithoutNoDup(stacks[k], p);
  }

  lemma CutStack(next: map<nat, Ptr>, head: Ptr, stack: seq<nat>, i: nat)
    requires Chain(next, head, stack) && NoDup(stack) && i < |stack|
    ensures stack[i] in next
    ensures Chain(Unlinked(next, stack, i), if i == 0 then next[stack[0]] else head, Without(stack, stack[i]))
  {
    hide Chain, Without;
    SplitAt(stack, i);
    ChainFrom(next, head, stack, i);
    if i == 0 {
      PopChain(next, head, stack);
      assert stack[..0] + stack[1..] == stack[1..];
      ChainStart(next, head, stack);
    } else {
      CutChain(next, head, stack, i);
      assert stack[i - 1] != stack[i];
      assert Unlinked(next, stack, i) == next[stack[i] := None][stack[i - 1] := next[stack[i]]];
    }
  }

  /** Unlinking a record anywhere in a stack. */
  lemma Cut(next: map<nat, Ptr>, heads: seq<Ptr>, stacks: seq<seq<nat>>, k: nat, i: nat)
    requires Linked(next, heads, stacks) && k < |stacks| && i < |stacks[k]|
    ensures var p, stack := stacks[k][i], stacks[k];
      && p in next && Nowhere(stacks[k := Without(stack, p)], p)
      && Linked(Unlinked(next, stack, i), if i == 0 then heads[k := next[p]] else heads, stacks[k := Without(stack, p)])
  {
    var p, stack := stacks[k][i], stacks[k];
    ApartCut(stacks, k, p);
    CutStack(next, heads[k], stack, i);
    forall j | 0 <= j < |stacks| && j != k
      ensures Chain(Unlinked(next, stack, i), heads[j], stacks[j])
    {
      ElsewhereIn(stacks, j, k);
      ChainFrame(next, Unlinked(next, stack, i), heads[j], stacks[j]);
    }
  }

  lemma ElsewhereIn(stacks: seq<seq<nat>>, j: nat, k: nat)
    requires Apart(stacks) && j < |stacks| && k < |stacks| && j != k
    ensures forall i :: 0 <= i < |stacks[k]| ==> stacks[k][i] !in stacks[j]
  {
    forall i | 0 <= i < |stacks[k]|
      ensures stacks[k][i] !in stacks[j]
    {
      assert stacks[k][i] in stacks[k];
    }
  }
}
