/** One shard of the LRU cache (util/cache.cc, class LRUCache).

    Handles are numbered as they are allocated; numbers 0 and 1 are the dummy heads of the two lists. */
module LruCaches {
  import opened DbFormat
  import opened Coding
  import opened Rings
  import opened HandleTables

  const LRU: nat := 0
  const IN_USE: nat := 1
  const FIRST: nat := 2

  // ----- the two lists -----

  ghost predicate Lists(next: seq<nat>, prev: seq<nat>, lru: seq<nat>, inUse: seq<nat>) {
    && FIRST <= |next| == |prev|
    && Ring(next, prev, LRU, lru) && Ring(next, prev, IN_USE, inUse)
    && (forall h | h in lru :: FIRST <= h && h !in inUse)
    && (forall h | h in inUse :: FIRST <= h)
  }

  lemma RingBounds(next: seq<nat>, prev: seq<nat>, head: nat, list: seq<nat>, k: nat)
    requires Ring(next, prev, head, list) && k < |list|
    ensures list[k] < |next| == |prev| && head < |next|
    ensures prev[list[k]] == ([head] + list)[k] < |next| && next[list[k]] == After([head] + list, k + 1) < |next|
    ensures next[head] == list[0]
  {
    var c := [head] + list;
    CycleNode(next, prev, c, k + 1);
    assert Linked(next, prev, c[0], After(c, 0));
  }

  /** Taking handle number k out of one ring leaves a ring, and the other as it was. */
  lemma RingUnlink(next: seq<nat>, prev: seq<nat>, head: nat, list: seq<nat>, k: nat, head2: nat, list2: seq<nat>)
    requires Ring(next, prev, head, list) && k < |list| && Ring(next, prev, head2, list2) && head != head2
    requires forall h | h in list :: h !in list2 && h != head2
    requires head !in list2
    ensures var e := list[k];
            && e < |next| == |prev| && next[e] < |prev| && prev[e] < |next|
            && var next', prev' := next[prev[e] := next[e]], prev[next[e] := prev[e]];
               Ring(next', prev', head, Without(list, k)) && Ring(next', prev', head2, list2)
  {
    var e, c := list[k], [head] + list;
    RingBounds(next, prev, head, list, k);
    var a, b := c[k], After(c, k + 1);
    CycleRemove(next, prev, c, k + 1, a, b);
    assert Without(c, k + 1) == [head] + Without(list, k);
    OtherRing(next, prev, head, list, head2, list2, a, b);
  }

  lemma OtherRing(next: seq<nat>, prev: seq<nat>, head: nat, list: seq<nat>, head2: nat, list2: seq<nat>, a: nat, b: nat)
    requires Ring(next, prev, head2, list2) && head != head2 && head !in list2
    requires forall h | h in list :: h !in list2 && h != head2
    requires a in [head] + list && b in [head] + list && a < |next| == |prev| && b < |next|
    ensures Ring(next[a := b], prev[b := a], head2, list2)
  {
    var c2 := [head2] + list2;
    assert forall x | x in c2 :: x == head2 || x in list2;
    CycleFrame(next, prev, next[a := b], prev[b := a], c2);
  }

  /** Putting a loose handle at the newest end of one ring leaves the other as it was. */
  lemma RingAppend(next: seq<nat>, prev: seq<nat>, head: nat, list: seq<nat>, e: nat, head2: nat, list2: seq<nat>)
    requires Ring(next, prev, head, list) && Ring(next, prev, head2, list2) && head != head2
    requires forall h | h in list :: h !in list2 && h != head2
    requires head !in list2 && e !in list && e !in list2 && e != head && e != head2 && e < |next| == |prev|
    ensures head < |prev| && prev[head] < |next|
    ensures var last := prev[head];
            var next', prev' := next[e := head][last := e], prev[e := last][head := e];
            Ring(next', prev', head, list + [e]) && Ring(next', prev', head2, list2)
  {
    var c, c2 := [head] + list, [head2] + list2;
    var last := c[|c| - 1];
    assert Linked(next, prev, c[0], After(c, 0)) && Linked(next, prev, last, After(c, |c| - 1));
    assert forall x | x in c :: x == head || x in list;
    assert forall x | x in c2 :: x == head2 || x in list2;
    CycleAppend(next, prev, c, e, last);
    assert c + [e] == [head] + (list + [e]);
    assert last == head || last in list;
    CycleFrame(next, prev, next[e := head][last := e], prev[e := last][head := e], c2);
  }

  // ----- the accounts -----

  function ChargeOf(info: seq<Info>, h: nat): nat {
    if h < |info| then info[h].charge else 0
  }

  function SumUpTo(info: seq<Info>, list: seq<nat>, n: nat): nat
    requires n <= |list|
  {
    if n == 0 then 0 else SumUpTo(info, list, n - 1) + ChargeOf(info, list[n - 1])
  }

  function Sum(info: seq<Info>, list: seq<nat>): nat {
    SumUpTo(info, list, |list|)
  }

  lemma {:induction false} SumSame(info: seq<Info>, info': seq<Info>, a: seq<nat>, b: seq<nat>, n: nat)
    requires n <= |a| && n <= |b| && forall i | 0 <= i < n :: a[i] == b[i] && ChargeOf(info, a[i]) == ChargeOf(info', a[i])
    ensures SumUpTo(info, a, n) == SumUpTo(info', b, n)
  {
    if 0 < n {
      SumSame(info, info', a, b, n - 1);
    }
  }

  lemma {:induction false} SumGap(info: seq<Info>, list: seq<nat>, k: nat, n: nat)
    requires k < n <= |list|
    ensures SumUpTo(info, list, n) == SumUpTo(info, Without(list, k), n - 1) + ChargeOf(info, list[k])
  {
    if n == k + 1 {
      SumSame(info, info, list, Without(list, k), k);
    } else {
      SumGap(info, list, k, n - 1);
    }
  }

  lemma SumWithout(info: seq<Info>, list: seq<nat>, k: nat)
    requires k < |list|
    ensures Sum(info, list) == Sum(info, Without(list, k)) + ChargeOf(info, list[k])
  {
    SumGap(info, list, k, |list|);
  }

  lemma SumSnoc(info: seq<Info>, list: seq<nat>, e: nat)
    ensures Sum(info, list + [e]) == Sum(info, list) + ChargeOf(info, e)
  {
    SumSame(info, info, list, list + [e], |list|);
  }

  lemma SumFrame(info: seq<Info>, info': seq<Info>, list: seq<nat>)
    requires info <= info' && forall h | h in list :: h < |info|
    ensures Sum(info', list) == Sum(info, list)
  {
    assert forall i | 0 <= i < |list| :: list[i] in list;
    SumSame(info, info', list, list, |list|);
  }

  /** References, list membership and deletion agree, handle by handle. */
  ghost predicate Account(refs: nat, inCache: bool, freed: nat, onLru: bool, onInUse: bool) {
    && (onLru <==> inCache && refs == 1)
    && (onInUse <==> inCache && refs >= 2)
    && freed == (if refs == 0 then 1 else 0)
    && (inCache ==> refs > 0)
  }

  ghost predicate Accounts(refs: seq<nat>, inCache: seq<bool>, freed: seq<nat>, lru: seq<nat>, inUse: seq<nat>) {
    && |refs| == |inCache| == |freed|
    && forall h | FIRST <= h < |refs| :: Account(refs[h], inCache[h], freed[h], h in lru, h in inUse)
  }

  ghost predicate NoMatch(info: seq<Info>, members: set<nat>, entry: Info) {
    forall h | h in members :: h < |info| && !Matches(info[h], entry.key, entry.hash)
  }

  /** The table's members once `replaced` has given way to the new handle `e`. */
  ghost function Swapped(caching: bool, members: set<nat>, replaced: int, e: nat): set<nat> {
    if !caching then members else if replaced < 0 then members + {e} else members - {replaced as nat} + {e}
  }

  /** `replaced` is the entry with the key of `e`, if there was one and caching is on. */
  ghost predicate Replaces(caching: bool, info: seq<Info>, members: set<nat>, inUse: seq<nat>, e: nat, replaced: int,
                           inUse': seq<nat>)
    requires e < |info|
  {
    if replaced < 0 then
      && (caching ==> NoMatch(info, members, info[e]))
      && inUse' == if caching then inUse + [e] else inUse
    else
      && caching && replaced in members && replaced < |info| && Matches(info[replaced], info[e].key, info[e].hash)
      && inUse' == Minus(inUse + [e], replaced)
  }

  /** The table holds the cached handles, all but those in `extra`. */
  ghost predicate Cached(inCache: seq<bool>, members: set<nat>, extra: set<nat>) {
    && (forall h | h in members :: FIRST <= h < |inCache| && h !in extra)
    && (forall h | FIRST <= h < |inCache| :: inCache[h] <==> h in members || h in extra)
  }

  lemma CachedSwap(inCache: seq<bool>, members: set<nat>, e: nat, r: nat)
    requires Cached(inCache, members, {e}) && FIRST <= e < |inCache| && r in members
    ensures Cached(inCache, members - {r} + {e}, {r}) && FIRST <= r && r != e && inCache[r]
  {
  }

  lemma CachedAdd(inCache: seq<bool>, members: set<nat>, e: nat)
    requires Cached(inCache, members, {e}) && FIRST <= e < |inCache|
    ensures Cached(inCache, members + {e}, {})
  {
  }

  ghost function IndexOf(list: seq<nat>, e: nat): (k: nat)
    requires e in list
    ensures k < |list| && list[k] == e
  {
    var k :| 0 <= k < |list| && list[k] == e;
    k
  }

  ghost function Minus(list: seq<nat>, e: nat): seq<nat> {
    if e in list then Without(list, IndexOf(list, e)) else list
  }

  /** A set without the first n of a list. */
  function Dropped(members: set<nat>, list: seq<nat>, n: nat): set<nat>
    requires n <= |list|
  {
    if n == 0 then members else Dropped(members, list, n - 1) - {list[n - 1]}
  }

  /** One value written for the first n of a list. */
  function Written(s: seq<nat>, list: seq<nat>, n: nat, v: nat): seq<nat>
    requires n <= |list|
  {
    if n == 0 then s
    else
      var w := Written(s, list, n - 1, v);
      if list[n - 1] < |w| then w[list[n - 1] := v] else w
  }

  lemma {:induction false} WrittenElsewhere(s: seq<nat>, list: seq<nat>, n: nat, v: nat, e: nat)
    requires n <= |list| && e < |s| && e !in list
    ensures |Written(s, list, n, v)| == |s| && Written(s, list, n, v)[e] == s[e]
  {
    if 0 < n {
      WrittenElsewhere(s, list, n - 1, v, e);
    }
  }

  /** The LRU list without the handle a new one replaced. */
  ghost function Kept(list: seq<nat>, replaced: int): seq<nat> {
    if replaced < 0 then list else Minus(list, replaced)
  }

  lemma MinusMembers(list: seq<nat>, e: nat)
    requires Once(list)
    ensures forall h :: h in Minus(list, e) <==> h in list && h != e
  {
    if e in list {
      forall h: nat
        ensures h in Minus(list, e) <==> h in list && h != e
      {
        WithoutMembers(list, IndexOf(list, e), h);
      }
    }
  }

  lemma TailOnce(head: nat, list: seq<nat>)
    requires NoRepeat([head] + list)
    ensures Once(list) && head !in list
  {
    var c := [head] + list;
    NoRepeatIsOnce(c);
    assert forall i | 0 <= i < |list| :: list[i] == c[i + 1];
    assert c[0] == head;
  }

  lemma RingMember(next: seq<nat>, prev: seq<nat>, head: nat, list: seq<nat>, k: nat)
    requires Ring(next, prev, head, list) && k < |list|
    ensures list[k] < |next|
  {
    var c := [head] + list;
    assert Linked(next, prev, c[k + 1], After(c, k + 1));
  }

  lemma RingOnce(next: seq<nat>, prev: seq<nat>, head: nat, list: seq<nat>)
    requires Ring(next, prev, head, list)
    ensures Once(list) && head !in list && forall h | h in list :: h < |next|
  {
    TailOnce(head, list);
    forall k | 0 <= k < |list|
      ensures list[k] < |next|
    {
      RingMember(next, prev, head, list, k);
    }
  }

  /** A handle leaves whichever list it is on. */
  lemma ListsUnlink(next: seq<nat>, prev: seq<nat>, lru: seq<nat>, inUse: seq<nat>, e: nat)
    requires Lists(next, prev, lru, inUse) && (e in lru || e in inUse)
    ensures e < |next| && next[e] < |prev| && prev[e] < |next|
    ensures Lists(next[prev[e] := next[e]], prev[next[e] := prev[e]], Minus(lru, e), Minus(inUse, e))
  {
    RingOnce(next, prev, LRU, lru);
    RingOnce(next, prev, IN_USE, inUse);
    MinusMembers(lru, e);
    MinusMembers(inUse, e);
    if e in lru {
      RingUnlink(next, prev, LRU, lru, IndexOf(lru, e), IN_USE, inUse);
    } else {
      RingUnlink(next, prev, IN_USE, inUse, IndexOf(inUse, e), LRU, lru);
    }
  }

  lemma ListsAppend(next: seq<nat>, prev: seq<nat>, lru: seq<nat>, inUse: seq<nat>, head: nat, e: nat)
    requires Lists(next, prev, lru, inUse) && (head == LRU || head == IN_USE)
    requires FIRST <= e < |next| && e !in lru && e !in inUse
    ensures prev[head] < |next|
    ensures Lists(next[e := head][prev[head] := e], prev[e := prev[head]][head := e],
                  if head == LRU then lru + [e] else lru, if head == LRU then inUse else inUse + [e])
  {
    if head == LRU {
      RingAppend(next, prev, LRU, lru, e, IN_USE, inUse);
    } else {
      RingAppend(next, prev, IN_USE, inUse, e, LRU, lru);
    }
  }

  lemma SumMinus(info: seq<Info>, lru: seq<nat>, inUse: seq<nat>, e: nat)
    requires (e in lru) != (e in inUse)
    ensures Sum(info, lru) + Sum(info, inUse) == Sum(info, Minus(lru, e)) + Sum(info, Minus(inUse, e)) + ChargeOf(info, e)
  {
    if e in lru {
      SumWithout(info, lru, IndexOf(lru, e));
    } else {
      SumWithout(info, inUse, IndexOf(inUse, e));
    }
  }

  lemma AccountsWithout(refs: seq<nat>, inCache: seq<bool>, freed: seq<nat>, lru: seq<nat>, inUse: seq<nat>, e: nat,
                        lru': seq<nat>, inUse': seq<nat>)
    requires Accounts(refs, inCache, freed, lru, inUse) && FIRST <= e < |refs| && inCache[e]
    requires forall h :: (h in lru' <==> h in lru && h != e) && (h in inUse' <==> h in inUse && h != e)
    ensures Accounts(refs, inCache[e := false], freed, lru', inUse')
  {
    assert Account(refs[e], inCache[e], freed[e], e in lru, e in inUse);
  }

  /** Only the accounts of `e` change. */
  lemma AccountsChange(refs: seq<nat>, inCache: seq<bool>, freed: seq<nat>, lru: seq<nat>, inUse: seq<nat>, e: nat,
                       r: nat, f: nat, lru': seq<nat>, inUse': seq<nat>)
    requires Accounts(refs, inCache, freed, lru, inUse) && FIRST <= e < |refs|
    requires forall h | h != e :: (h in lru' <==> h in lru) && (h in inUse' <==> h in inUse)
    requires Account(r, inCache[e], f, e in lru', e in inUse')
    ensures Accounts(refs[e := r], inCache, freed[e := f], lru', inUse')
  {
  }

  /** A freshly allocated handle is on no list and holds one reference. */
  lemma Grown(next: seq<nat>, prev: seq<nat>, refs: seq<nat>, inCache: seq<bool>, freed: seq<nat>,
              lru: seq<nat>, inUse: seq<nat>, e: nat)
    requires Lists(next, prev, lru, inUse) && Accounts(refs, inCache, freed, lru, inUse) && e == |refs| == |next|
    ensures Lists(next + [0], prev + [0], lru, inUse) && e !in lru && e !in inUse
    ensures Accounts(refs + [1], inCache + [false], freed + [0], lru, inUse)
  {
    RingOnce(next, prev, LRU, lru);
    RingOnce(next, prev, IN_USE, inUse);
    CycleFrame(next, prev, next + [0], prev + [0], [LRU] + lru);
    CycleFrame(next, prev, next + [0], prev + [0], [IN_USE] + inUse);
    forall h | FIRST <= h <= e
      ensures Account((refs + [1])[h], (inCache + [false])[h], (freed + [0])[h], h in lru, h in inUse)
    {
      if h < e {
        assert Account(refs[h], inCache[h], freed[h], h in lru, h in inUse);
      }
    }
  }

  /** A handle enters the cache, with a reference for the cache itself. */
  lemma AccountsWith(refs: seq<nat>, inCache: seq<bool>, freed: seq<nat>, lru: seq<nat>, inUse: seq<nat>, e: nat)
    requires Accounts(refs, inCache, freed, lru, inUse) && FIRST <= e < |refs| && refs[e] == 1 && !inCache[e]
    ensures Accounts(refs[e := 2], inCache[e := true], freed, lru, inUse + [e])
  {
    assert Account(refs[e], inCache[e], freed[e], e in lru, e in inUse);
    forall h | FIRST <= h < |refs|
      ensures Account(refs[e := 2][h], inCache[e := true][h], freed[h], h in lru, h in inUse + [e])
    {
      assert Account(refs[h], inCache[h], freed[h], h in lru, h in inUse);
    }
  }

  datatype Before = Before(lru: seq<nat>, inUse: seq<nat>, members: set<nat>, refs: seq<nat>, freed: seq<nat>)

  class LRUCache {
    const table: HandleTable
    const capacity: nat
    var usage: nat
    var info: seq<Info>
    var refs: seq<nat>
    var inCache: seq<bool>
    var next: seq<nat>
    var prev: seq<nat>
    /** How often the deleter of each handle has run. */
    var freed: seq<nat>
    /** The lists, oldest first. */
    ghost var lru: seq<nat>
    ghost var inUse: seq<nat>

    ghost predicate Rings()
      reads this
    {
      |info| == |next| && Lists(next, prev, lru, inUse)
    }

    ghost predicate Shape()
      reads this
    {
      && |refs| == |info| && Rings() && Accounts(refs, inCache, freed, lru, inUse)
      && usage == Sum(info, lru) + Sum(info, inUse)
    }

    ghost predicate Tabled(extra: set<nat>)
      reads this, table
    {
      table.Valid(info) && |inCache| == |info| && Cached(inCache, table.members, extra)
    }

    ghost predicate Valid()
      reads this, table
    {
      Shape() && Tabled({})
    }

    constructor (capacity: nat)
      ensures Valid() && this.capacity == capacity && fresh(table) && table.members == {} && lru == inUse == []
    {
      this.capacity := capacity;
      table := new HandleTable();
      usage := 0;
      info := [Info([], 0, 0, 0), Info([], 0, 0, 0)];
      refs, inCache, freed, next, prev := [0, 0], [false, false], [0, 0], [LRU, IN_USE], [LRU, IN_USE];
      lru, inUse := [], [];
    }

    method LRURemove(e: nat)
      requires e < |next| == |prev| && next[e] < |prev| && prev[e] < |next|
      modifies `next, `prev
      ensures next == old(next)[old(prev[e]) := old(next[e])] && prev == old(prev)[old(next[e]) := old(prev[e])]
    {
      var n, p := next[e], prev[e];
      prev := prev[n := p];
      next := next[p := n];
    }

    method LRUAppend(head: nat, e: nat)
      requires e < |next| == |prev| && head < |prev| && prev[head] < |next| && head != e
      modifies `next, `prev
      ensures next == old(next)[e := head][old(prev[head]) := e]
      ensures prev == old(prev)[e := old(prev[head])][head := e]
    {
      next := next[e := head];
      prev := prev[e := prev[head]];
      next := next[prev[e] := e];
      prev := prev[head := e];
    }

    /** Takes a handle off its list. */
    method Unlist(e: nat)
      requires Rings() && (e in lru || e in inUse)
      modifies `next, `prev, `lru, `inUse
      ensures Rings() && lru == Minus(old(lru), e) && inUse == Minus(old(inUse), e)
      ensures Sum(info, old(lru)) + Sum(info, old(inUse)) == Sum(info, lru) + Sum(info, inUse) + ChargeOf(info, e)
      ensures forall h :: (h in lru <==> h in old(lru) && h != e) && (h in inUse <==> h in old(inUse) && h != e)
    {
      ListsUnlink(next, prev, lru, inUse, e);
      SumMinus(info, lru, inUse, e);
      RingOnce(next, prev, LRU, lru);
      RingOnce(next, prev, IN_USE, inUse);
      MinusMembers(lru, e);
      MinusMembers(inUse, e);
      LRURemove(e);
      lru, inUse := Minus(lru, e), Minus(inUse, e);
    }

    /** Puts a loose handle at the newest end of a list. */
    method Enlist(head: nat, e: nat)
      requires Rings() && (head == LRU || head == IN_USE) && FIRST <= e < |info| && e !in lru && e !in inUse
      modifies `next, `prev, `lru, `inUse
      ensures Rings()
      ensures lru == (if head == LRU then old(lru) + [e] else old(lru))
      ensures inUse == (if head == LRU then old(inUse) else old(inUse) + [e])
      ensures Sum(info, lru) + Sum(info, inUse) == Sum(info, old(lru)) + Sum(info, old(inUse)) + ChargeOf(info, e)
    {
      ListsAppend(next, prev, lru, inUse, head, e);
      SumSnoc(info, lru, e);
      SumSnoc(info, inUse, e);
      LRUAppend(head, e);
      if head == LRU {
        lru := lru + [e];
      } else {
        inUse := inUse + [e];
      }
    }

    /** Moves a handle to the newest end of a list. */
    method Move(e: nat, head: nat)
      requires Rings() && (e in lru || e in inUse) && FIRST <= e < |info| && (head == LRU || head == IN_USE)
      modifies `next, `prev, `lru, `inUse
      ensures Rings() && Sum(info, lru) + Sum(info, inUse) == Sum(info, old(lru)) + Sum(info, old(inUse))
      ensures lru == if head == LRU then Minus(old(lru), e) + [e] else Minus(old(lru), e)
      ensures inUse == if head == IN_USE then Minus(old(inUse), e) + [e] else Minus(old(inUse), e)
      ensures forall h | h != e :: (h in lru <==> h in old(lru)) && (h in inUse <==> h in old(inUse))
      ensures (e in lru <==> head == LRU) && (e in inUse <==> head == IN_USE)
    {
      Unlist(e);
      Enlist(head, e);
    }

    /** Changes the reference count of a handle that stays on its list. */
    method Recount(e: nat, r: nat, f: nat)
      requires Shape() && FIRST <= e < |info| && Account(r, inCache[e], f, e in lru, e in inUse)
      modifies `refs, `freed
      ensures Shape() && refs == old(refs)[e := r] && freed == old(freed)[e := f]
    {
      AccountsChange(refs, inCache, freed, lru, inUse, e, r, f, lru, inUse);
      refs, freed := refs[e := r], freed[e := f];
    }

    /** Changes the reference count of a cached handle and moves it to the list where it now belongs. */
    method Relist(e: nat, r: nat, head: nat)
      requires Shape() && FIRST <= e < |info| && inCache[e] && freed[e] == 0 && refs[e] > 0
      requires (head == LRU && r == 1) || (head == IN_USE && r >= 2)
      modifies `next, `prev, `lru, `inUse, `refs
      ensures Shape() && refs == old(refs)[e := r]
      ensures lru == if head == LRU then Minus(old(lru), e) + [e] else Minus(old(lru), e)
      ensures inUse == if head == IN_USE then Minus(old(inUse), e) + [e] else Minus(old(inUse), e)
    {
      assert Account(refs[e], inCache[e], freed[e], e in lru, e in inUse);
      ghost var lru0, inUse0 := lru, inUse;
      Move(e, head);
      AccountsChange(refs, inCache, freed, lru0, inUse0, e, r, freed[e], lru, inUse);
      assert freed[e := freed[e]] == freed;
      refs := refs[e := r];
    }

    method Ref(e: nat)
      requires Shape() && FIRST <= e < |info| && refs[e] > 0
      modifies `next, `prev, `lru, `inUse, `refs, `freed
      ensures Shape() && refs == old(refs)[e := old(refs[e]) + 1] && freed == old(freed)
      ensures lru == Minus(old(lru), e)
      ensures inUse == if e in old(lru) then Minus(old(inUse), e) + [e] else old(inUse)
    {
      assert Account(refs[e], inCache[e], freed[e], e in lru, e in inUse);
      if refs[e] == 1 && inCache[e] {
        Relist(e, refs[e] + 1, IN_USE);
      } else {
        assert freed[e := freed[e]] == freed;
        Recount(e, refs[e] + 1, freed[e]);
      }
    }

    /** Drops a reference: the last one runs the deleter, the last but the cache's own makes the handle the newest on
        the LRU list. */
    method Unref(e: nat)
      requires Shape() && FIRST <= e < |info| && refs[e] > if inCache[e] then 1 else 0
      modifies `next, `prev, `lru, `inUse, `refs, `freed
      ensures Shape() && refs == old(refs)[e := old(refs[e]) - 1]
      ensures freed == if old(refs[e]) == 1 then old(freed)[e := 1] else old(freed)
      ensures if inCache[e] && old(refs[e]) == 2 then lru == old(lru) + [e] && inUse == Minus(old(inUse), e)
              else lru == old(lru) && inUse == old(inUse)
    {
      assert Account(refs[e], inCache[e], freed[e], e in lru, e in inUse);
      if refs[e] == 1 {
        Recount(e, 0, freed[e] + 1);
      } else if inCache[e] && refs[e] == 2 {
        Relist(e, 1, LRU);
      } else {
        assert freed[e := freed[e]] == freed;
        Recount(e, refs[e] - 1, freed[e]);
      }
    }

    /** Takes a handle out of the lists and the accounts. */
    method Withdraw(e: nat)
      requires FIRST <= e < |info| && Shape() && inCache[e]
      modifies `next, `prev, `lru, `inUse, `inCache, `usage
      ensures Shape() && inCache == old(inCache)[e := false] && refs[e] > 0
      ensures usage == old(usage) - info[e].charge && lru == Minus(old(lru), e) && inUse == Minus(old(inUse), e)
    {
      assert Account(refs[e], inCache[e], freed[e], e in lru, e in inUse);
      ghost var lru0, inUse0 := lru, inUse;
      Unlist(e);
      AccountsWithout(refs, inCache, freed, lru0, inUse0, e, lru, inUse);
      inCache := inCache[e := false];
      usage := usage - info[e].charge;
    }

    /** Takes a handle out of the lists and the accounts, and drops the cache's reference. */
    method Discard(e: nat)
      requires FIRST <= e < |info| && Shape() && inCache[e]
      modifies `next, `prev, `lru, `inUse, `refs, `freed, `inCache, `usage
      ensures Shape() && inCache == old(inCache)[e := false]
      ensures refs == old(refs)[e := old(refs[e]) - 1]
      ensures freed == if old(refs[e]) == 1 then old(freed)[e := 1] else old(freed)
      ensures usage == old(usage) - info[e].charge && lru == Minus(old(lru), e) && inUse == Minus(old(inUse), e)
    {
      Withdraw(e);
      Unref(e);
    }

    /** Finishes taking a handle out of the cache; it has left the table already. */
    method FinishErase(e: int) returns (erased: bool)
      requires e == NULL ==> Valid()
      requires e != NULL ==> FIRST <= e < |info| && Shape() && Tabled({e as nat}) && inCache[e]
      modifies `next, `prev, `lru, `inUse, `refs, `freed, `inCache, `usage
      ensures Valid() && erased == (e != NULL)
      ensures e == NULL ==> refs == old(refs) && freed == old(freed) && inCache == old(inCache) && usage == old(usage)
                            && lru == old(lru) && inUse == old(inUse)
      ensures e != NULL ==> inCache == old(inCache)[e := false] && refs == old(refs)[e := old(refs[e]) - 1]
      ensures e != NULL ==> freed == if old(refs[e]) == 1 then old(freed)[e := 1] else old(freed)
      ensures e != NULL ==> usage == old(usage) - info[e].charge && lru == Minus(old(lru), e) && inUse == Minus(old(inUse), e)
    {
      if e != NULL {
        Discard(e);
      }
      return e != NULL;
    }

    /** The handle of the entry with this key, with one more reference, or NULL. */
    method Lookup(key: Bytes, hash: uint32) returns (r: int)
      requires Valid()
      modifies `next, `prev, `lru, `inUse, `refs, `freed
      ensures Valid() && freed == old(freed)
      ensures r == NULL ==> forall h | h in table.members :: h < |info| && !Matches(info[h], key, hash)
      ensures r != NULL ==> FIRST <= r < |info| && r in table.members && Matches(info[r], key, hash)
                            && refs == old(refs)[r := old(refs[r]) + 1] && r as nat in inUse && lru == Minus(old(lru), r)
      ensures r != NULL ==> inUse == if r as nat in old(lru) then Minus(old(inUse), r) + [r as nat] else old(inUse)
      ensures r == NULL ==> refs == old(refs) && lru == old(lru) && inUse == old(inUse)
    {
      r := table.Lookup(info, key, hash);
      if r != NULL {
        assert Account(refs[r], inCache[r], freed[r], r as nat in lru, r as nat in inUse);
        Ref(r);
        assert Account(refs[r], inCache[r], freed[r], r as nat in lru, r as nat in inUse);
      }
    }

    /** A client gives back a reference of its own. */
    method Release(h: nat)
      requires Valid() && FIRST <= h < |info| && refs[h] > if inCache[h] then 1 else 0
      modifies `next, `prev, `lru, `inUse, `refs, `freed
      ensures Valid() && refs == old(refs)[h := old(refs[h]) - 1]
      ensures freed == if old(refs[h]) == 1 then old(freed)[h := 1] else old(freed)
      ensures if inCache[h] && old(refs[h]) == 2 then lru == old(lru) + [h] && inUse == Minus(old(inUse), h)
              else lru == old(lru) && inUse == old(inUse)
    {
      assert Account(refs[h], inCache[h], freed[h], h in lru, h in inUse);
      Unref(h);
    }

    method Erase(key: Bytes, hash: uint32) returns (ghost erased: int)
      requires Valid()
      modifies this, table
      ensures Valid() && info == old(info)
      ensures erased == NULL ==> table.members == old(table.members)
                                 && forall h | h in table.members :: h < |info| && !Matches(info[h], key, hash)
      ensures erased != NULL ==> 0 <= erased < |info| && erased in old(table.members)
                                 && table.members == old(table.members) - {erased as nat} && Matches(info[erased], key, hash)
      ensures erased == NULL ==> refs == old(refs) && freed == old(freed) && lru == old(lru) && inUse == old(inUse)
      ensures erased != NULL ==> refs == old(refs)[erased := old(refs[erased]) - 1] && lru == Minus(old(lru), erased)
                                 && inUse == Minus(old(inUse), erased) && usage == old(usage) - info[erased].charge
                                 && freed == if old(refs[erased]) == 1 then old(freed)[erased := 1] else old(freed)
    {
      var e := table.Remove(info, key, hash);
      var b := FinishErase(e);
      erased := e;
    }

    /** The oldest handle that no client holds. */
    lemma Oldest()
      requires Valid()
      ensures LRU < |next| && (next[LRU] == LRU <==> lru == [])
      ensures lru != [] ==> next[LRU] == lru[0] && FIRST <= lru[0] < |info| && lru[0] in table.members
                            && refs[lru[0]] == 1 && inCache[lru[0]] && freed[lru[0]] == 0
                            && Minus(lru, lru[0]) == lru[1..] && lru[0] !in inUse
                            && forall h :: h in lru[1..] <==> h in lru && h != lru[0]
    {
      var c := [LRU] + lru;
      assert Linked(next, prev, c[0], After(c, 0));
      RingOnce(next, prev, LRU, lru);
      if lru != [] {
        assert lru[0] in lru;
        assert Account(refs[lru[0]], inCache[lru[0]], freed[lru[0]], lru[0] in lru, lru[0] in inUse);
        assert IndexOf(lru, lru[0]) == 0;
        MinusMembers(lru, lru[0]);
      }
    }

    /** Evicts the oldest handle: nobody holds it, so its deleter runs. */
    method EvictOldest() returns (e: nat)
      requires Valid() && lru != []
      modifies `next, `prev, `lru, `inUse, `refs, `freed, `inCache, `usage, table
      ensures Valid() && e == old(lru)[0] && e < |info| && lru == old(lru)[1..] && inUse == old(inUse)
      ensures table.members == old(table.members) - {e} && old(freed[e]) == 0 && freed == old(freed)[e := 1]
      ensures refs == old(refs)[e := 0] && usage == old(usage) - ChargeOf(info, e)
    {
      Oldest();
      e := next[LRU];
      var r := table.Remove(info, info[e].key, info[e].hash);
      var erased := FinishErase(r);
    }

    ghost predicate HeadKnown()
      reads `next, `lru
    {
      LRU < |next| && (next[LRU] == LRU <==> lru == [])
    }

    /** The loop below stops when the list is empty. */
    lemma HeadTells()
      requires Valid()
      ensures HeadKnown()
    {
      Oldest();
    }

    /** The first `n` handles of the LRU list that there was at `was` are evicted: nobody held them, so their deleters
        have run. */
    ghost predicate Evicted(was: Before, n: nat)
      reads this, table
    {
      && n <= |was.lru| && lru == was.lru[n..] && inUse == was.inUse
      && table.members == Dropped(was.members, was.lru, n)
      && refs == Written(was.refs, was.lru, n, 0) && freed == Written(was.freed, was.lru, n, 1)
    }

    ghost function Now(): Before
      reads this, table
    {
      Before(lru, inUse, table.members, refs, freed)
    }

    lemma NoneEvicted()
      ensures Evicted(Now(), 0)
    {
    }

    /** One round of the loop below. */
    method EvictNext(ghost was: Before, ghost n: nat, ghost n': nat)
      requires Valid() && n < |was.lru| && Evicted(was, n) && n' == n + 1
      modifies `next, `prev, `lru, `inUse, `refs, `freed, `inCache, `usage, table
      ensures Valid() && Evicted(was, n') && HeadKnown() && usage + ChargeOf(info, was.lru[n' - 1]) == old(usage)
    {
      var e := EvictOldest();
      HeadTells();
    }

    /** Evicts, oldest first, while the charges exceed `bound` and there is a handle that nobody holds. */
    method EvictWhileOver(bound: int) returns (ghost evicted: nat)
      requires Valid()
      modifies `next, `prev, `lru, `inUse, `refs, `freed, `inCache, `usage, table
      ensures Valid() && Evicted(old(Now()), evicted) && (usage <= bound || lru == [])
      ensures 0 < evicted ==> usage + ChargeOf(info, old(lru)[evicted - 1]) > bound
    {
      HeadTells();
      NoneEvicted();
      ghost var was := Now();
      evicted := 0;
      while usage > bound && next[LRU] != LRU
        invariant Valid() && Evicted(was, evicted) && HeadKnown()
        invariant 0 < evicted ==> usage + ChargeOf(info, was.lru[evicted - 1]) > bound
        decreases |lru|
      {
        ghost var n' := evicted + 1;
        EvictNext(was, evicted, n');
        evicted := n';
      }
    }

    /** Drops every handle that no client holds, oldest first. */
    method Prune()
      requires Valid()
      modifies `next, `prev, `lru, `inUse, `refs, `freed, `inCache, `usage, table
      ensures Valid() && lru == [] && Evicted(old(Now()), |old(lru)|)
    {
      ghost var n := |lru|;
      ghost var evicted := EvictWhileOver(-1);
      assert evicted == n;
    }

    /** A handle for a new entry, with one reference for the caller. */
    method Allocate(entry: Info) returns (e: nat)
      requires Valid()
      modifies `info, `refs, `inCache, `freed, `next, `prev
      ensures Valid() && e == |old(info)| && info == old(info) + [entry] && e !in lru && e !in inUse && e !in table.members
      ensures refs == old(refs) + [1] && inCache == old(inCache) + [false] && freed == old(freed) + [0]
    {
      e := |info|;
      table.InfoGrows(info, info + [entry]);
      Grown(next, prev, refs, inCache, freed, lru, inUse, e);
      RingOnce(next, prev, LRU, lru);
      RingOnce(next, prev, IN_USE, inUse);
      SumFrame(info, info + [entry], lru);
      SumFrame(info, info + [entry], inUse);
      info := info + [entry];
      refs, inCache, freed, next, prev := refs + [1], inCache + [false], freed + [0], next + [0], prev + [0];
    }

    /** The handle joins the cache; the table does not hold it yet. */
    method Admit(e: nat)
      requires Valid() && FIRST <= e < |info| && refs[e] == 1 && !inCache[e]
      modifies `refs, `inCache, `next, `prev, `lru, `inUse, `usage
      ensures Shape() && Tabled({e}) && inCache == old(inCache)[e := true] && refs == old(refs)[e := 2]
      ensures lru == old(lru) && inUse == old(inUse) + [e] && usage == old(usage) + info[e].charge
    {
      assert Account(refs[e], inCache[e], freed[e], e in lru, e in inUse);
      AccountsWith(refs, inCache, freed, lru, inUse, e);
      refs := refs[e := 2];
      inCache := inCache[e := true];
      Enlist(IN_USE, e);
      usage := usage + info[e].charge;
    }

    /** Puts the admitted handle into the table; the handle it replaces there leaves the cache. */
    method Enter(e: nat) returns (replaced: int)
      requires FIRST <= e < |info| && Shape() && Tabled({e}) && inCache[e]
      modifies `next, `prev, `lru, `inUse, `refs, `freed, `inCache, `usage, table
      ensures Valid() && refs[e] == old(refs[e])
      ensures if replaced == NULL then
                lru == old(lru) && inUse == old(inUse) && table.members == old(table.members) + {e}
                && NoMatch(info, old(table.members), info[e])
              else
                0 <= replaced < |info| && replaced in old(table.members) && Matches(info[replaced], info[e].key, info[e].hash)
                && lru == Minus(old(lru), replaced) && inUse == Minus(old(inUse), replaced)
                && table.members == old(table.members) - {replaced as nat} + {e}
    {
      ghost var members := table.members;
      replaced := table.Insert(info, e);
      if replaced == NULL {
        CachedAdd(inCache, members, e);
      } else {
        CachedSwap(inCache, members, e, replaced);
        assert Tabled({replaced as nat});
      }
      var erased := FinishErase(replaced);
    }

    /** A new handle enters the cache, for a caller that holds it too. */
    method Join(e: nat) returns (replaced: int)
      requires Valid() && FIRST <= e < |info| && refs[e] == 1 && !inCache[e] && e !in lru && e !in table.members
      modifies `refs, `inCache, `freed, `next, `prev, `lru, `inUse, `usage, table
      ensures Valid() && refs[e] == 2 && e !in lru
      ensures if replaced < 0 then
                lru == old(lru) && inUse == old(inUse) + [e] && table.members == old(table.members) + {e}
                && NoMatch(info, old(table.members), info[e])
              else
                replaced < |info| && replaced in old(table.members) && Matches(info[replaced], info[e].key, info[e].hash)
                && lru == Minus(old(lru), replaced) && inUse == Minus(old(inUse) + [e], replaced)
                && table.members == old(table.members) - {replaced as nat} + {e}
    {
      Admit(e);
      replaced := Enter(e);
      assert Account(refs[e], inCache[e], freed[e], e in lru, e in inUse);
    }

    /** A new handle enters the cache, unless caching is off. */
    method Place(e: nat) returns (replaced: int)
      requires Valid() && FIRST <= e < |info| && refs[e] == 1 && !inCache[e] && e !in lru && e !in table.members
      modifies `refs, `inCache, `freed, `next, `prev, `lru, `inUse, `usage, table
      ensures Valid() && refs[e] == (if capacity > 0 then 2 else 1) && e !in lru
      ensures Replaces(capacity > 0, info, old(table.members), old(inUse), e, replaced, inUse)
      ensures table.members == Swapped(capacity > 0, old(table.members), replaced, e) && lru == Kept(old(lru), replaced)
    {
      replaced := NULL;
      if capacity > 0 {
        replaced := Join(e);
      }
    }

    /** Adds an entry, in place of the one with the same key if there is one, and makes room. A capacity of zero turns
        caching off. The returned handle carries a reference for the caller. */
    method Insert(entry: Info) returns (e: nat, ghost replaced: int, ghost evicted: nat)
      requires Valid()
      modifies this, table
      ensures Valid() && (usage <= capacity || lru == [])
      ensures e == |old(info)| && info == old(info) + [entry] && refs[e] == (if capacity > 0 then 2 else 1)
      ensures Replaces(capacity > 0, info, old(table.members), old(inUse), e, replaced, inUse)
      ensures evicted <= |Kept(old(lru), replaced)| && lru == Kept(old(lru), replaced)[evicted..]
      ensures table.members == Dropped(Swapped(capacity > 0, old(table.members), replaced, e), Kept(old(lru), replaced), evicted)
      ensures 0 < evicted ==> usage + ChargeOf(info, Kept(old(lru), replaced)[evicted - 1]) > capacity
    {
      e := Allocate(entry);
      var r := Place(e);
      replaced := r;
      ghost var refs0, lru0 := refs, lru;
      evicted := EvictWhileOver(capacity);
      WrittenElsewhere(refs0, lru0, evicted, 0, e);
    }
  }
}
