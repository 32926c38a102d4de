/** The plain cursor: a position in a sorted sequence of entries (include/leveldb/iterator.h). */
module Cursors {
  import opened DbFormat

  predicate SeekPosition(entries: seq<Entry>, target: InternalKey, p: nat) {
    && p <= |entries|
    && (forall i | 0 <= i < p :: Less(entries[i].key, target))
    && (forall i | p <= i < |entries| :: AtMost(target, entries[i].key))
  }

  function PreviousPosition(n: nat, p: nat): nat {
    if p == 0 then n else p - 1
  }

  /** An iterator that has run off either end is at `|entries|`. */
  class Cursor {
    const entries: seq<Entry>
    var pos: nat

    ghost predicate Ok()
      reads this
    {
      Sorted(entries) && pos <= |entries|
    }

    predicate Valid()
      reads this
    {
      pos < |entries|
    }

    function Key(): InternalKey
      requires Valid()
      reads this
    {
      entries[pos].key
    }

    function Value(): Bytes
      requires Valid()
      reads this
    {
      entries[pos].value
    }

    constructor (entries: seq<Entry>)
      requires Sorted(entries)
      ensures Ok() && this.entries == entries && !Valid()
    {
      this.entries := entries;
      this.pos := |entries|;
    }

    method SeekToFirst()
      requires Ok()
      modifies this
      ensures Ok() && pos == 0
    {
      pos := 0;
    }

    method SeekToLast()
      requires Ok()
      modifies this
      ensures Ok() && pos == PreviousPosition(|entries|, |entries|)
    {
      pos := if entries == [] then 0 else |entries| - 1;
    }

    method Seek(target: InternalKey)
      requires Ok()
      modifies this
      ensures Ok() && SeekPosition(entries, target, pos)
    {
      pos := 0;
      while pos < |entries| && Less(entries[pos].key, target)
        invariant Ok()
        invariant forall i | 0 <= i < pos :: Less(entries[i].key, target)
      {
        pos := pos + 1;
      }
    }

    method Next()
      requires Ok() && Valid()
      modifies this
      ensures Ok() && pos == old(pos) + 1
    {
      pos := pos + 1;
    }

    method Prev()
      requires Ok() && Valid()
      modifies this
      ensures Ok() && pos == PreviousPosition(|entries|, old(pos))
    {
      pos := if pos == 0 then |entries| else pos - 1;
    }
  }
}
