/** The snapshots clients hold, oldest first (db/snapshot.h).

    Snapshots are numbered as they are made; number 0 is the dummy head of the circular list. */
module SnapshotLists {
  import opened Rings

  const HEAD: nat := 0

  ghost predicate Increasing(numbers: seq<nat>, list: seq<nat>) {
    && (forall i | 0 <= i < |list| :: list[i] < |numbers|)
    && forall i, j | 0 <= i < j < |list| :: numbers[list[i]] <= numbers[list[j]]
  }

  lemma RingEnds(next: seq<nat>, prev: seq<nat>, list: seq<nat>)
    requires Ring(next, prev, HEAD, list)
    ensures HEAD < |next| == |prev|
    ensures next[HEAD] == (if list == [] then HEAD else list[0])
    ensures prev[HEAD] == (if list == [] then HEAD else list[|list| - 1]) && prev[HEAD] < |next|
  {
    var c := [HEAD] + list;
    assert Linked(next, prev, c[0], After(c, 0)) && Linked(next, prev, c[|c| - 1], After(c, |c| - 1));
  }

  lemma RingGrows(next: seq<nat>, prev: seq<nat>, list: seq<nat>, e: nat, last: nat)
    requires Ring(next, prev, HEAD, list) && e == |next|
    requires last == if list == [] then HEAD else list[|list| - 1]
    ensures last < e && HEAD < e && e !in list
    ensures Ring((next + [HEAD])[last := e], (prev + [last])[HEAD := e], HEAD, list + [e])
  {
    var c := [HEAD] + list;
    forall i | 0 <= i < |c|
      ensures c[i] < e
    {
      assert Linked(next, prev, c[i], After(c, i));
    }
    assert forall i | 0 <= i < |list| :: list[i] == c[i + 1];
    assert Linked(next, prev, c[0], After(c, 0)) && last == c[|c| - 1] && forall x | x in c :: x < e;
    CycleFrame(next, prev, next + [HEAD], prev + [last], c);
    CycleAppend(next + [HEAD], prev + [last], c, e, last);
    assert (next + [HEAD])[e := HEAD] == next + [HEAD] && (prev + [last])[e := last] == prev + [last];
    assert c + [e] == [HEAD] + (list + [e]);
  }

  lemma RingShrinks(next: seq<nat>, prev: seq<nat>, list: seq<nat>, k: nat)
    requires Ring(next, prev, HEAD, list) && k < |list|
    ensures list[k] < |next| == |prev| && next[list[k]] < |prev| && prev[list[k]] < |next|
    ensures Ring(next[prev[list[k]] := next[list[k]]], prev[next[list[k]] := prev[list[k]]], HEAD, Without(list, k))
  {
    var c := [HEAD] + list;
    CycleNode(next, prev, c, k + 1);
    CycleRemove(next, prev, c, k + 1, c[k], After(c, k + 1));
    assert Without(c, k + 1) == [HEAD] + Without(list, k);
  }

  class SnapshotList {
    var next: seq<nat>
    var prev: seq<nat>
    var numbers: seq<nat>
    ghost var list: seq<nat>

    ghost predicate Valid()
      reads this
    {
      |numbers| == |next| && Ring(next, prev, HEAD, list) && Increasing(numbers, list)
    }

    constructor ()
      ensures Valid() && list == []
    {
      next, prev, numbers, list := [HEAD], [HEAD], [0], [];
    }

    method Empty() returns (b: bool)
      requires Valid()
      ensures b == (list == [])
    {
      RingEnds(next, prev, list);
      if list != [] {
        assert Differ([HEAD] + list, 0, 1);
      }
      return next[HEAD] == HEAD;
    }

    /** Nobody holds an older snapshot. */
    method Oldest() returns (h: nat)
      requires Valid() && list != []
      ensures h == list[0] && h < |numbers| && forall g | g in list :: g < |numbers| && numbers[h] <= numbers[g]
    {
      RingEnds(next, prev, list);
      return next[HEAD];
    }

    method Newest() returns (h: nat)
      requires Valid() && list != []
      ensures h == list[|list| - 1] && h < |numbers| && forall g | g in list :: g < |numbers| && numbers[g] <= numbers[h]
    {
      RingEnds(next, prev, list);
      return prev[HEAD];
    }

    /** A snapshot of a sequence number no smaller than the newest goes to the end. */
    method New(sequenceNumber: nat) returns (e: nat)
      requires Valid() && (list != [] ==> numbers[list[|list| - 1]] <= sequenceNumber)
      modifies this
      ensures Valid() && e !in old(list) && list == old(list) + [e] && numbers == old(numbers) + [sequenceNumber]
      ensures e == |old(numbers)|
    {
      e := |next|;
      RingEnds(next, prev, list);
      var last := prev[HEAD];
      RingGrows(next, prev, list, e, last);
      next, prev := (next + [HEAD])[last := e], (prev + [last])[HEAD := e];
      numbers := numbers + [sequenceNumber];
      list := list + [e];
    }

    /** The others stay, in their order. */
    method Delete(e: nat, ghost k: nat)
      requires Valid() && k < |list| && list[k] == e
      modifies this
      ensures Valid() && list == Without(old(list), k) && numbers == old(numbers)
    {
      RingShrinks(next, prev, list, k);
      var n, p := next[e], prev[e];
      next, prev := next[p := n], prev[n := p];
      list := Without(list, k);
    }
  }
}
