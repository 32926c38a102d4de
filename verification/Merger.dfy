/** The merging iterator (table/merger.cc): many sorted children behave as one cursor on their sorted union. */
module Merger {
  import opened DbFormat
  import opened Cursors

  datatype Direction = Forward | Reverse

  // ----- the union -----

  predicate Apart(a: InternalKey, b: InternalKey) {
    Less(a, b) || Less(b, a)
  }

  ghost predicate Disjoint(a: seq<Entry>, b: seq<Entry>) {
    forall x, y | x in a && y in b :: Apart(x.key, y.key)
  }

  ghost predicate Mergeable(lists: seq<seq<Entry>>) {
    && (forall i | 0 <= i < |lists| :: Sorted(lists[i]))
    && (forall i, j | 0 <= i < j < |lists| :: Disjoint(lists[i], lists[j]))
  }

  function MergeTwo(a: seq<Entry>, b: seq<Entry>): seq<Entry> {
    if a == [] then b
    else if b == [] then a
    else if Less(a[0].key, b[0].key) then [a[0]] + MergeTwo(a[1..], b)
    else [b[0]] + MergeTwo(a, b[1..])
  }

  function MergeAll(lists: seq<seq<Entry>>): seq<Entry> {
    if lists == [] then [] else MergeTwo(lists[0], MergeAll(lists[1..]))
  }

  lemma {:induction false} MergeTwoMembers(a: seq<Entry>, b: seq<Entry>, e: Entry)
    ensures e in MergeTwo(a, b) <==> e in a || e in b
  {
    if a != [] && b != [] {
      assert a == [a[0]] + a[1..] && b == [b[0]] + b[1..];
      if Less(a[0].key, b[0].key) {
        MergeTwoMembers(a[1..], b, e);
      } else {
        MergeTwoMembers(a, b[1..], e);
      }
    }
  }

  lemma ConsSorted(e: Entry, rest: seq<Entry>)
    requires Sorted(rest) && forall x | x in rest :: Less(e.key, x.key)
    ensures Sorted([e] + rest)
  {
  }

  lemma {:induction false} MergeTwoSorted(a: seq<Entry>, b: seq<Entry>)
    requires Sorted(a) && Sorted(b) && Disjoint(a, b)
    ensures Sorted(MergeTwo(a, b))
  {
    if a != [] && b != [] {
      var first := if Less(a[0].key, b[0].key) then a[0] else b[0];
      var a', b' := if Less(a[0].key, b[0].key) then a[1..] else a, if Less(a[0].key, b[0].key) then b else b[1..];
      MergeTwoSorted(a', b');
      forall x | x in MergeTwo(a', b')
        ensures Less(first.key, x.key)
      {
        MergeTwoMembers(a', b', x);
        assert a[0] in a && b[0] in b && Apart(a[0].key, b[0].key);
      }
      ConsSorted(first, MergeTwo(a', b'));
    }
  }

  lemma {:induction false} MergeAllMembers(lists: seq<seq<Entry>>, e: Entry)
    ensures e in MergeAll(lists) <==> exists i :: 0 <= i < |lists| && e in lists[i]
  {
    if lists != [] {
      MergeTwoMembers(lists[0], MergeAll(lists[1..]), e);
      MergeAllMembers(lists[1..], e);
      assert forall i | 0 < i < |lists| :: lists[i] == lists[1..][i - 1];
    }
  }

  lemma {:induction false} MergeAllSorted(lists: seq<seq<Entry>>)
    requires Mergeable(lists)
    ensures Sorted(MergeAll(lists))
  {
    if lists != [] {
      var rest := lists[1..];
      forall i, j | 0 <= i < j < |rest|
        ensures Disjoint(rest[i], rest[j])
      {
        assert rest[i] == lists[i + 1] && rest[j] == lists[j + 1];
      }
      MergeAllSorted(rest);
      forall x, y | x in lists[0] && y in MergeAll(rest)
        ensures Apart(x.key, y.key)
      {
        MergeAllMembers(rest, y);
        var i :| 0 <= i < |rest| && y in rest[i];
        assert rest[i] == lists[i + 1];
      }
      MergeTwoSorted(lists[0], MergeAll(rest));
    }
  }

  // ----- where the children stand -----

  ghost predicate Within(es: seq<Entry>, merged: seq<Entry>) {
    forall e | e in es :: e in merged
  }

  /** Going forward at `p`, a child is at its first entry not before merged[p]. */
  ghost predicate ForwardAt(merged: seq<Entry>, p: nat, es: seq<Entry>, q: nat) {
    if p < |merged| then SeekPosition(es, merged[p].key, q) else q == |es|
  }

  /** Going backward at `p`, a child is at its last entry not past merged[p], or nowhere. */
  ghost predicate ReverseAt(merged: seq<Entry>, p: int, es: seq<Entry>, q: nat) {
    && q <= |es|
    && if p < 0 || p >= |merged| then q == |es|
       else
         && (q < |es| ==> AtMost(es[q].key, merged[p].key))
         && (forall j | 0 <= j < |es| && (q < |es| ==> q < j) :: Less(merged[p].key, es[j].key))
  }

  lemma PlaceOf(es: seq<Entry>, merged: seq<Entry>, q: nat) returns (i: nat)
    requires Within(es, merged) && q < |es|
    ensures i < |merged| && merged[i] == es[q]
  {
    assert es[q] in merged;
    i :| 0 <= i < |merged| && merged[i] == es[q];
  }

  lemma ForwardStart(merged: seq<Entry>, es: seq<Entry>)
    requires Sorted(merged) && Within(es, merged)
    ensures ForwardAt(merged, 0, es, 0)
  {
    forall q | 0 <= q < |es|
      ensures merged != [] && AtMost(merged[0].key, es[q].key)
    {
      var i := PlaceOf(es, merged, q);
    }
    assert es != [] ==> es[0] in es;
  }

  lemma ReverseStart(merged: seq<Entry>, es: seq<Entry>)
    requires Sorted(merged) && Within(es, merged)
    ensures ReverseAt(merged, |merged| - 1, es, PreviousPosition(|es|, |es|))
  {
    forall q | 0 <= q < |es|
      ensures merged != [] && AtMost(es[q].key, merged[|merged| - 1].key)
    {
      var i := PlaceOf(es, merged, q);
    }
    assert es != [] ==> es[0] in es;
  }

  lemma ForwardSeek(merged: seq<Entry>, target: InternalKey, p: nat, es: seq<Entry>, q: nat)
    requires Sorted(merged) && Within(es, merged)
    requires SeekPosition(merged, target, p) && SeekPosition(es, target, q)
    ensures ForwardAt(merged, p, es, q)
  {
    forall k | q <= k < |es|
      ensures p < |merged| && AtMost(merged[p].key, es[k].key)
    {
      var i := PlaceOf(es, merged, k);
    }
    assert q < |es| ==> es[q] in es;
  }

  /** The child that supplied merged[p] steps to its next entry. */
  lemma ForwardCurrent(merged: seq<Entry>, p: nat, es: seq<Entry>, q: nat)
    requires Sorted(merged) && Sorted(es) && Within(es, merged)
    requires p < |merged| && q < |es| && es[q] == merged[p]
    ensures ForwardAt(merged, p + 1, es, q + 1)
  {
    forall k | q < k < |es|
      ensures p + 1 < |merged| && AtMost(merged[p + 1].key, es[k].key)
    {
      var i := PlaceOf(es, merged, k);
    }
    assert q + 1 < |es| ==> es[q + 1] in es;
  }

  /** The others are already where they must be. */
  lemma ForwardOther(merged: seq<Entry>, p: nat, es: seq<Entry>, q: nat)
    requires Sorted(merged) && Within(es, merged)
    requires p < |merged| && merged[p] !in es && ForwardAt(merged, p, es, q)
    ensures ForwardAt(merged, p + 1, es, q)
  {
    forall k | q <= k < |es|
      ensures p + 1 < |merged| && AtMost(merged[p + 1].key, es[k].key)
    {
      var i := PlaceOf(es, merged, k);
    }
    assert q < |es| ==> es[q] in es;
  }

  lemma ReverseCurrent(merged: seq<Entry>, p: nat, es: seq<Entry>, q: nat)
    requires Sorted(merged) && Sorted(es) && Within(es, merged)
    requires p < |merged| && q < |es| && es[q] == merged[p]
    ensures ReverseAt(merged, p - 1, es, PreviousPosition(|es|, q))
  {
    forall k | 0 <= k < q
      ensures 0 < p && AtMost(es[k].key, merged[p - 1].key)
    {
      var i := PlaceOf(es, merged, k);
    }
    assert 0 < q ==> es[q - 1] in es;
  }

  lemma ReverseOther(merged: seq<Entry>, p: nat, es: seq<Entry>, q: nat)
    requires Sorted(merged) && Sorted(es) && Within(es, merged)
    requires p < |merged| && merged[p] !in es && ReverseAt(merged, p, es, q)
    ensures ReverseAt(merged, p - 1, es, q)
  {
    if q < |es| {
      var i := PlaceOf(es, merged, q);
    }
  }

  /** `q` is the last entry before `key`, or nowhere when there is none. */
  ghost predicate BeforePosition(es: seq<Entry>, key: InternalKey, q: nat) {
    && q <= |es|
    && (forall i | 0 <= i <= q < |es| :: Less(es[i].key, key))
    && (forall i | 0 <= i < |es| && (q < |es| ==> q < i) :: AtMost(key, es[i].key))
  }

  lemma ReverseAfterBefore(merged: seq<Entry>, p: nat, es: seq<Entry>, q: nat)
    requires p < |merged| && BeforePosition(es, merged[p].key, q)
    requires forall x | x in es :: Apart(x.key, merged[p].key)
    ensures ReverseAt(merged, p, es, q)
  {
    forall i | 0 <= i < |es| && (q < |es| ==> q < i)
      ensures Less(merged[p].key, es[i].key)
    {
      assert es[i] in es;
    }
  }

  /** `q` splits the entries at or before `key` from those past it. */
  ghost predicate PastPosition(es: seq<Entry>, key: InternalKey, q: nat) {
    && q <= |es|
    && (forall i | 0 <= i < q :: AtMost(es[i].key, key))
    && (forall i | q <= i < |es| :: Less(key, es[i].key))
  }

  lemma AtHead(es: seq<Entry>, key: InternalKey, q: nat)
    requires Sorted(es) && SeekPosition(es, key, q) && q < |es|
    ensures PastPosition(es, key, if Apart(key, es[q].key) then q else q + 1)
  {
    forall i | q < i < |es|
      ensures Less(key, es[i].key)
    {
      assert Less(es[q].key, es[i].key);
    }
  }

  lemma ForwardAfterPast(merged: seq<Entry>, p: nat, es: seq<Entry>, q: nat)
    requires p < |merged| && PastPosition(es, merged[p].key, q)
    requires forall x | x in es :: Apart(x.key, merged[p].key)
    ensures ForwardAt(merged, p, es, q)
  {
    forall i | 0 <= i < q
      ensures Less(es[i].key, merged[p].key)
    {
      assert es[i] in es;
    }
  }

  lemma ForwardHead(es: seq<Entry>, k: nat, q: nat)
    requires Sorted(es) && k < |es| && SeekPosition(es, es[k].key, q)
    ensures q == k
  {
    assert q < |es|;
    var head := es[q];
  }

  lemma ReverseHead(merged: seq<Entry>, p: nat, es: seq<Entry>, k: nat, q: nat)
    requires Sorted(es) && p < |merged| && k < |es| && es[k] == merged[p] && ReverseAt(merged, p, es, q)
    ensures q == k
  {
    assert q < |es|;
    var head := es[q];
  }

  lemma EqualRank(a: InternalKey, b: InternalKey)
    requires AtMost(a, b) && AtMost(b, a)
    ensures !Apart(a, b)
  {
  }

  lemma {:induction false} SeekIn(es: seq<Entry>, target: InternalKey) returns (p: nat)
    requires Sorted(es)
    ensures SeekPosition(es, target, p)
  {
    if es == [] || AtMost(target, es[0].key) {
      p := 0;
    } else {
      var q := SeekIn(es[1..], target);
      p := q + 1;
      assert forall i | 0 < i < |es| :: es[i] == es[1..][i - 1];
    }
  }

  // ----- the iterator -----

  class MergingIterator {
    const children: seq<Cursor>
    var current: Option<nat>
    var direction: Direction
    /** The sorted union, and the position in it. */
    ghost const merged: seq<Entry>
    ghost var at: nat

    /** What never changes: the children are distinct cursors over disjoint lists, and `merged` is their union. */
    ghost predicate Family() {
      && (forall i | 0 <= i < |children| :: Sorted(children[i].entries) && Within(children[i].entries, merged))
      && (forall i, j | 0 <= i < j < |children| :: children[i] != children[j])
      && (forall i, j | 0 <= i < j < |children| :: Disjoint(children[i].entries, children[j].entries))
      && Sorted(merged)
      && (forall e | e in merged :: exists i :: 0 <= i < |children| && e in children[i].entries)
    }

    ghost predicate ChildrenOk()
      reads children
    {
      Family() && forall i | 0 <= i < |children| :: children[i].Ok()
    }

    ghost predicate Ok()
      reads this, children
    {
      && ChildrenOk()
      && if current.Some? then
           && current.value < |children| && at < |merged|
           && children[current.value].Valid()
           && children[current.value].entries[children[current.value].pos] == merged[at]
           && (forall i | 0 <= i < |children| ::
                 if direction.Forward? then ForwardAt(merged, at, children[i].entries, children[i].pos)
                 else ReverseAt(merged, at, children[i].entries, children[i].pos))
         else
           at == |merged|
    }

    predicate Valid()
      reads this
    {
      current.Some?
    }

    constructor (children: seq<Cursor>)
      requires forall i | 0 <= i < |children| :: children[i].Ok()
      requires forall i, j | 0 <= i < j < |children| :: children[i] != children[j]
      requires forall i, j | 0 <= i < j < |children| :: Disjoint(children[i].entries, children[j].entries)
      ensures Ok() && this.children == children && !Valid()
      ensures merged == MergeAll(seq(|children|, i requires 0 <= i < |children| => children[i].entries))
    {
      ghost var lists := seq(|children|, i requires 0 <= i < |children| => children[i].entries);
      this.children := children;
      this.current, this.direction := None, Forward;
      this.merged, this.at := MergeAll(lists), |MergeAll(lists)|;
      new;
      MergeAllSorted(lists);
      forall e
        ensures e in merged <==> exists i :: 0 <= i < |children| && e in children[i].entries
      {
        MergeAllMembers(lists, e);
        assert forall i | 0 <= i < |children| :: lists[i] == children[i].entries;
      }
    }

    function Key(): (k: InternalKey)
      requires Ok() && Valid()
      reads this, children
      ensures k == merged[at].key
    {
      children[current.value].Key()
    }

    function Value(): (v: Bytes)
      requires Ok() && Valid()
      reads this, children
      ensures v == merged[at].value
    {
      children[current.value].Value()
    }

    /** The child that supplies an entry is the only one that holds it. */
    lemma OnlyHolder(c: nat, i: nat)
      requires ChildrenOk() && c < |children| && i < |children| && i != c
      requires at < |merged| && merged[at] in children[c].entries
      ensures merged[at] !in children[i].entries
      ensures forall x | x in children[i].entries :: Apart(x.key, merged[at].key)
    {
      var lo, hi := if i < c then i else c, if i < c then c else i;
      assert Disjoint(children[lo].entries, children[hi].entries);
    }

    lemma OnlyRank(c: nat, d: nat)
      requires ChildrenOk() && c < |children| && d < |children| && children[c].Valid() && children[d].Valid()
      ensures c == d || Apart(children[c].Key(), children[d].Key())
    {
      if c != d {
        var lo, hi := if c < d then c else d, if c < d then d else c;
        assert Disjoint(children[lo].entries, children[hi].entries);
        assert children[lo].entries[children[lo].pos] in children[lo].entries;
        assert children[hi].entries[children[hi].pos] in children[hi].entries;
      }
    }

    /** When every child stands at `p` going forward, one of them is at merged[p] and none is before it. */
    lemma ForwardMinimum(p: nat) returns (c: nat)
      requires ChildrenOk() && p < |merged|
      requires forall i | 0 <= i < |children| :: ForwardAt(merged, p, children[i].entries, children[i].pos)
      ensures c < |children| && children[c].Valid() && children[c].entries[children[c].pos] == merged[p]
      ensures forall i | 0 <= i < |children| && children[i].Valid() :: AtMost(merged[p].key, children[i].Key())
    {
      assert merged[p] in merged;
      c :| 0 <= c < |children| && merged[p] in children[c].entries;
      var k :| 0 <= k < |children[c].entries| && children[c].entries[k] == merged[p];
      assert ForwardAt(merged, p, children[c].entries, children[c].pos);
      ForwardHead(children[c].entries, k, children[c].pos);
    }

    lemma ReverseMaximum(p: nat) returns (c: nat)
      requires ChildrenOk() && p < |merged|
      requires forall i | 0 <= i < |children| :: ReverseAt(merged, p, children[i].entries, children[i].pos)
      ensures c < |children| && children[c].Valid() && children[c].entries[children[c].pos] == merged[p]
      ensures forall i | 0 <= i < |children| && children[i].Valid() :: AtMost(children[i].Key(), merged[p].key)
    {
      assert merged[p] in merged;
      c :| 0 <= c < |children| && merged[p] in children[c].entries;
      var k :| 0 <= k < |children[c].entries| && children[c].entries[k] == merged[p];
      assert ReverseAt(merged, p, children[c].entries, children[c].pos);
      ReverseHead(merged, p, children[c].entries, k, children[c].pos);
    }

    method Smallest() returns (r: Option<nat>)
      ensures r.Some? ==> r.value < |children| && children[r.value].Valid()
      ensures forall j | 0 <= j < |children| && children[j].Valid() ::
          r.Some? && AtMost(children[r.value].Key(), children[j].Key())
    {
      r := None;
      for i := 0 to |children|
        invariant r.Some? ==> r.value < i && children[r.value].Valid()
        invariant forall j | 0 <= j < i && children[j].Valid() ::
            r.Some? && AtMost(children[r.value].Key(), children[j].Key())
      {
        if children[i].Valid() {
          if r.None? || Less(children[i].Key(), children[r.value].Key()) {
            r := Some(i);
          }
        }
      }
    }

    method Largest() returns (r: Option<nat>)
      ensures r.Some? ==> r.value < |children| && children[r.value].Valid()
      ensures forall j | 0 <= j < |children| && children[j].Valid() ::
          r.Some? && AtMost(children[j].Key(), children[r.value].Key())
    {
      r := None;
      for i := |children| downto 0
        invariant r.Some? ==> i <= r.value < |children| && children[r.value].Valid()
        invariant forall j | i <= j < |children| && children[j].Valid() ::
            r.Some? && AtMost(children[j].Key(), children[r.value].Key())
      {
        if children[i].Valid() {
          if r.None? || Less(children[r.value].Key(), children[i].Key()) {
            r := Some(i);
          }
        }
      }
    }

    lemma SmallestIsNext(p: nat, r: nat)
      requires ChildrenOk() && p < |merged| && r < |children| && children[r].Valid()
      requires forall i | 0 <= i < |children| :: ForwardAt(merged, p, children[i].entries, children[i].pos)
      requires forall j | 0 <= j < |children| && children[j].Valid() :: AtMost(children[r].Key(), children[j].Key())
      ensures children[r].entries[children[r].pos] == merged[p]
    {
      var c := ForwardMinimum(p);
      EqualRank(children[c].Key(), children[r].Key());
      OnlyRank(c, r);
    }

    lemma LargestIsNext(p: nat, r: nat)
      requires ChildrenOk() && p < |merged| && r < |children| && children[r].Valid()
      requires forall i | 0 <= i < |children| :: ReverseAt(merged, p, children[i].entries, children[i].pos)
      requires forall j | 0 <= j < |children| && children[j].Valid() :: AtMost(children[j].Key(), children[r].Key())
      ensures children[r].entries[children[r].pos] == merged[p]
    {
      var c := ReverseMaximum(p);
      EqualRank(children[c].Key(), children[r].Key());
      OnlyRank(c, r);
    }

    lemma SomeValid(p: nat)
      requires ChildrenOk() && p < |merged|
      requires direction.Forward? ==>
                 forall i | 0 <= i < |children| :: ForwardAt(merged, p, children[i].entries, children[i].pos)
      requires direction.Reverse? ==>
                 forall i | 0 <= i < |children| :: ReverseAt(merged, p, children[i].entries, children[i].pos)
      ensures exists c :: 0 <= c < |children| && children[c].Valid()
    {
      if direction.Forward? {
        var c := ForwardMinimum(p);
      } else {
        var c := ReverseMaximum(p);
      }
    }

    method FindSmallest(ghost p: nat)
      requires ChildrenOk() && p <= |merged| && direction.Forward?
      requires forall i | 0 <= i < |children| :: ForwardAt(merged, p, children[i].entries, children[i].pos)
      modifies this
      ensures Ok() && at == p && direction == old(direction)
    {
      var smallest := Smallest();
      if p < |merged| {
        SomeValid(p);
        SmallestIsNext(p, smallest.value);
      }
      current := smallest;
      at := p;
    }

    method FindLargest(ghost p: int)
      requires ChildrenOk() && -1 <= p < |merged| && direction.Reverse?
      requires forall i | 0 <= i < |children| :: ReverseAt(merged, p, children[i].entries, children[i].pos)
      modifies this
      ensures Ok() && at == (if p < 0 then |merged| else p) && direction == old(direction)
    {
      var largest := Largest();
      if 0 <= p {
        SomeValid(p);
        LargestIsNext(p, largest.value);
      }
      current := largest;
      at := if p < 0 then |merged| else p;
    }

    method SeekToFirst()
      requires Ok()
      modifies this, children
      ensures Ok() && at == 0
    {
      for i := 0 to |children|
        invariant ChildrenOk()
        invariant forall j | 0 <= j < i :: children[j].pos == 0
      {
        children[i].SeekToFirst();
      }
      direction := Forward;
      forall i | 0 <= i < |children|
        ensures ForwardAt(merged, 0, children[i].entries, children[i].pos)
      {
        ForwardStart(merged, children[i].entries);
      }
      FindSmallest(0);
    }

    method SeekToLast()
      requires Ok()
      modifies this, children
      ensures Ok() && at == PreviousPosition(|merged|, |merged|)
    {
      for i := 0 to |children|
        invariant ChildrenOk()
        invariant forall j | 0 <= j < i :: children[j].pos == PreviousPosition(|children[j].entries|, |children[j].entries|)
      {
        children[i].SeekToLast();
      }
      direction := Reverse;
      forall i | 0 <= i < |children|
        ensures ReverseAt(merged, |merged| - 1, children[i].entries, children[i].pos)
      {
        ReverseStart(merged, children[i].entries);
      }
      FindLargest(|merged| as int - 1);
    }

    method Seek(target: InternalKey)
      requires Ok()
      modifies this, children
      ensures Ok() && SeekPosition(merged, target, at)
    {
      for i := 0 to |children|
        invariant ChildrenOk()
        invariant forall j | 0 <= j < i :: SeekPosition(children[j].entries, target, children[j].pos)
      {
        children[i].Seek(target);
      }
      direction := Forward;
      ghost var p := SeekIn(merged, target);
      forall i | 0 <= i < |children|
        ensures ForwardAt(merged, p, children[i].entries, children[i].pos)
      {
        ForwardSeek(merged, target, p, children[i].entries, children[i].pos);
      }
      FindSmallest(p);
    }

    /** Leaves a child at its first entry past `key`. */
    static method SeekPast(child: Cursor, key: InternalKey)
      requires child.Ok()
      modifies child
      ensures child.Ok() && PastPosition(child.entries, key, child.pos)
    {
      child.Seek(key);
      if child.Valid() {
        AtHead(child.entries, key, child.pos);
        if !Apart(key, child.Key()) {
          child.Next();
        }
      }
    }

    method SeekOthersPast(c: nat, key: InternalKey)
      requires c < |children| && forall i | 0 <= i < |children| :: children[i].Ok()
      requires forall i, j | 0 <= i < j < |children| :: children[i] != children[j]
      modifies children
      ensures forall i | 0 <= i < |children| :: children[i].Ok()
      ensures children[c].pos == old(children[c].pos)
      ensures forall j | 0 <= j < |children| && j != c :: PastPosition(children[j].entries, key, children[j].pos)
    {
      for i := 0 to |children|
        invariant forall i | 0 <= i < |children| :: children[i].Ok()
        invariant children[c].pos == old(children[c].pos)
        invariant forall j | 0 <= j < i && j != c :: PastPosition(children[j].entries, key, children[j].pos)
      {
        if i != c {
          SeekPast(children[i], key);
        }
      }
    }

    method SwitchForward()
      requires Ok() && Valid() && direction.Reverse?
      modifies this, children
      ensures Ok() && at == old(at) && current == old(current) && direction.Forward?
    {
      ghost var c := current.value;
      assert merged[at] in children[c].entries;
      SeekOthersPast(current.value, Key());
      direction := Forward;
      forall i | 0 <= i < |children|
        ensures ForwardAt(merged, at, children[i].entries, children[i].pos)
      {
        if i == c {
          assert SeekPosition(children[c].entries, merged[at].key, children[c].pos);
        } else {
          OnlyHolder(c, i);
          ForwardAfterPast(merged, at, children[i].entries, children[i].pos);
        }
      }
    }

    method Next()
      requires Ok() && Valid()
      modifies this, children
      ensures Ok() && at == old(at) + 1
    {
      if direction != Forward {
        SwitchForward();
      }
      ghost var c, p := current.value, at;
      assert merged[at] in children[c].entries;
      children[current.value].Next();
      forall i | 0 <= i < |children|
        ensures ForwardAt(merged, p + 1, children[i].entries, children[i].pos)
      {
        if i == c {
          ForwardCurrent(merged, p, children[c].entries, children[c].pos - 1);
        } else {
          OnlyHolder(c, i);
          ForwardOther(merged, p, children[i].entries, children[i].pos);
        }
      }
      FindSmallest(p + 1);
    }

    /** Leaves a child at its last entry before `key`, or nowhere. */
    static method SeekBefore(child: Cursor, key: InternalKey)
      requires child.Ok()
      modifies child
      ensures child.Ok() && BeforePosition(child.entries, key, child.pos)
    {
      child.Seek(key);
      if child.Valid() {
        child.Prev();
      } else {
        child.SeekToLast();
      }
    }

    method SeekOthersBefore(c: nat, key: InternalKey)
      requires c < |children| && forall i | 0 <= i < |children| :: children[i].Ok()
      requires forall i, j | 0 <= i < j < |children| :: children[i] != children[j]
      modifies children
      ensures forall i | 0 <= i < |children| :: children[i].Ok()
      ensures children[c].pos == old(children[c].pos)
      ensures forall j | 0 <= j < |children| && j != c :: BeforePosition(children[j].entries, key, children[j].pos)
    {
      for i := 0 to |children|
        invariant forall i | 0 <= i < |children| :: children[i].Ok()
        invariant children[c].pos == old(children[c].pos)
        invariant forall j | 0 <= j < i && j != c :: BeforePosition(children[j].entries, key, children[j].pos)
      {
        if i != c {
          SeekBefore(children[i], key);
        }
      }
    }

    method SwitchReverse()
      requires Ok() && Valid() && direction.Forward?
      modifies this, children
      ensures Ok() && at == old(at) && current == old(current) && direction.Reverse?
    {
      ghost var c := current.value;
      assert merged[at] in children[c].entries;
      SeekOthersBefore(current.value, Key());
      direction := Reverse;
      forall i | 0 <= i < |children|
        ensures ReverseAt(merged, at, children[i].entries, children[i].pos)
      {
        if i == c {
          assert ReverseAt(merged, at, children[c].entries, children[c].pos);
        } else {
          OnlyHolder(c, i);
          ReverseAfterBefore(merged, at, children[i].entries, children[i].pos);
        }
      }
    }

    method Prev()
      requires Ok() && Valid()
      modifies this, children
      ensures Ok() && at == PreviousPosition(|merged|, old(at))
    {
      if direction != Reverse {
        SwitchReverse();
      }
      ghost var c := current.value;
      ghost var p: int := at;
      assert merged[at] in children[c].entries;
      ghost var q := children[c].pos;
      children[current.value].Prev();
      forall i | 0 <= i < |children|
        ensures ReverseAt(merged, p - 1, children[i].entries, children[i].pos)
      {
        if i == c {
          ReverseCurrent(merged, p, children[c].entries, q);
        } else {
          OnlyHolder(c, i);
          ReverseOther(merged, p, children[i].entries, children[i].pos);
        }
      }
      FindLargest(p - 1);
    }
  }
}
