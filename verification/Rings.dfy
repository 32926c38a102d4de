/** Circular doubly linked lists with a dummy head (util/cache.cc, LRU_Remove and LRU_Append; db/snapshot.h).

    Nodes are numbers; `next` and `prev` are their links. */
module Rings {

  ghost predicate Once(s: seq<nat>) {
    forall i, j | 0 <= i < j < |s| :: s[i] != s[j]
  }

  ghost predicate Linked(next: seq<nat>, prev: seq<nat>, a: nat, b: nat) {
    a < |next| == |prev| && b < |next| && next[a] == b && prev[b] == a
  }

  /** The node after position `i` on the way round. */
  function After(c: seq<nat>, i: nat): nat
    requires i < |c|
  {
    if i + 1 == |c| then c[0] else c[i + 1]
  }

  ghost predicate Differ(s: seq<nat>, i: nat, j: nat)
    requires i < |s| && j < |s|
  {
    s[i] != s[j]
  }

  /** No node twice. */
  ghost predicate NoRepeat(s: seq<nat>) {
    forall i, j {:trigger Differ(s, i, j)} | 0 <= i < j < |s| :: Differ(s, i, j)
  }

  lemma NoRepeatIsOnce(s: seq<nat>)
    ensures NoRepeat(s) <==> Once(s)
  {
    if NoRepeat(s) {
      forall i, j | 0 <= i < j < |s|
        ensures s[i] != s[j]
      {
        assert Differ(s, i, j);
      }
    }
  }

  ghost predicate Cycle(next: seq<nat>, prev: seq<nat>, c: seq<nat>) {
    NoRepeat(c) && forall i {:trigger After(c, i)} | 0 <= i < |c| :: Linked(next, prev, c[i], After(c, i))
  }

  ghost predicate Ring(next: seq<nat>, prev: seq<nat>, head: nat, list: seq<nat>) {
    Cycle(next, prev, [head] + list)
  }

  function Without(list: seq<nat>, k: nat): seq<nat>
    requires k < |list|
  {
    list[..k] + list[k + 1..]
  }

  lemma WithoutMembers(list: seq<nat>, k: nat, x: nat)
    requires k < |list| && Once(list)
    ensures x in Without(list, k) <==> x in list && x != list[k]
  {
    if x in list && x != list[k] {
      var i :| 0 <= i < |list| && list[i] == x;
      assert i < k ==> Without(list, k)[i] == x;
      assert k < i ==> Without(list, k)[i - 1] == x;
    }
  }

  lemma CycleNode(next: seq<nat>, prev: seq<nat>, c: seq<nat>, k: nat)
    requires Cycle(next, prev, c) && 0 < k < |c|
    ensures c[k] < |next| == |prev| && next[c[k]] == After(c, k) < |next| && prev[c[k]] == c[k - 1] < |next|
  {
    assert Linked(next, prev, c[k - 1], After(c, k - 1));
    assert Linked(next, prev, c[k], After(c, k));
  }

  lemma AfterWithout(c: seq<nat>, k: nat, i: nat, m: nat)
    requires 0 < k < |c| && i < |c| - 1 && m == if i < k then i else i + 1
    ensures Without(c, k)[i] == c[m] && After(Without(c, k), i) == After(c, if i == k - 1 then k else m)
  {
  }

  lemma WithoutOnce(c: seq<nat>, k: nat)
    requires k < |c| && Once(c)
    ensures Once(Without(c, k))
  {
  }

  /** Bypassing node c[k] takes it out of its cycle. */
  lemma CycleRemove(next: seq<nat>, prev: seq<nat>, c: seq<nat>, k: nat, a: nat, b: nat)
    requires Cycle(next, prev, c) && 0 < k < |c| && a == c[k - 1] && b == After(c, k) && a < |next| == |prev| && b < |next|
    ensures Cycle(next[a := b], prev[b := a], Without(c, k))
  {
    var c', next', prev' := Without(c, k), next[a := b], prev[b := a];
    NoRepeatIsOnce(c);
    WithoutOnce(c, k);
    NoRepeatIsOnce(c');
    forall i | 0 <= i < |c'|
      ensures Linked(next', prev', c'[i], After(c', i))
    {
      var m := if i < k then i else i + 1;
      AfterWithout(c, k, i, m);
      if i != k - 1 {
        assert Linked(next, prev, c[m], After(c, m));
        AfterOnce(c, m, k);
      }
    }
  }

  lemma AfterOnce(c: seq<nat>, i: nat, j: nat)
    requires Once(c) && i < |c| && j < |c| && i != j
    ensures After(c, i) != After(c, j)
  {
  }

  /** A node written in just before the head. */
  lemma CycleAppend(next: seq<nat>, prev: seq<nat>, c: seq<nat>, e: nat, last: nat)
    requires Cycle(next, prev, c) && 0 < |c| && e !in c && e < |next| == |prev|
    requires last == c[|c| - 1] && last < |next| && c[0] < |next|
    ensures Cycle(next[e := c[0]][last := e], prev[e := last][c[0] := e], c + [e])
  {
    var c', next', prev' := c + [e], next[e := c[0]][last := e], prev[e := last][c[0] := e];
    NoRepeatIsOnce(c);
    NoRepeatIsOnce(c');
    forall i | 0 <= i < |c'|
      ensures Linked(next', prev', c'[i], After(c', i))
    {
      if i + 1 < |c| {
        assert Linked(next, prev, c[i], After(c, i));
        assert c[i] != last && c[i + 1] != c[0];
      }
    }
  }

  /** A change of links outside a cycle leaves it alone. */
  lemma CycleFrame(next: seq<nat>, prev: seq<nat>, next': seq<nat>, prev': seq<nat>, c: seq<nat>)
    requires Cycle(next, prev, c) && |next| <= |next'| == |prev'|
    requires forall x | x in c && x < |next| && x < |prev| :: next'[x] == next[x] && prev'[x] == prev[x]
    ensures Cycle(next', prev', c)
  {
    forall i | 0 <= i < |c|
      ensures Linked(next', prev', c[i], After(c, i))
    {
      assert Linked(next, prev, c[i], After(c, i));
      assert c[i] in c && After(c, i) in c;
    }
  }
}
