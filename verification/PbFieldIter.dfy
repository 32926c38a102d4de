/** The circular iterator over the fields of a descriptor (nanopb, pb_common.c).

    An empty descriptor is a lone terminator, whose tag is zero. */
module PbFieldIters {
  import opened PbMessages

  class FieldIter {
    const d: Desc
    var pos: nat
    var requiredIndex: nat

    /** In a nonempty descriptor the iterator never stands on the terminator. */
    ghost predicate Valid()
      reads this
    {
      && (if d.fields == [] then pos == 0 else pos < |d.fields|)
      && requiredIndex == RequiredBefore(d, pos)
    }

    constructor (d: Desc)
      ensures Valid() && this.d == d && pos == 0
    {
      this.d, pos, requiredIndex := d, 0, 0;
    }

    method Begin() returns (any: bool)
      modifies this
      ensures Valid() && pos == 0 && any == (d.fields != [])
    {
      pos, requiredIndex := 0, 0;
      return |d.fields| != 0;
    }

    /** One field on; false after going round. */
    method Next() returns (more: bool)
      requires Valid()
      modifies this
      ensures Valid() && more == (old(pos) + 1 < |d.fields|) && pos == if more then old(pos) + 1 else 0
    {
      if d.fields == [] {
        return false;
      }
      var prev := d.fields[pos];
      if pos + 1 == |d.fields| {
        var any := Begin();
        return false;
      }
      pos := pos + 1;
      if prev.rule.Oneof? && d.fields[pos].rule == prev.rule {
        return true;
      }
      if prev.rule.Required? {
        requiredIndex := requiredIndex + 1;
      }
      return true;
    }

    ghost predicate NoneIn(tag: nat, lo: nat, hi: nat) {
      forall j | lo <= j < hi && j < |d.fields| :: d.fields[j].tag != tag
    }

    /** Looks all the way round from where it stands. The tag zero is "found" in an empty descriptor. */
    method Find(tag: nat) returns (found: bool)
      requires Valid()
      modifies this
      ensures Valid()
      ensures d.fields == [] ==> found == (tag == 0)
      ensures d.fields != [] && found ==> d.fields[pos].tag == tag
      ensures d.fields != [] && !found ==> pos == old(pos) && NoneIn(tag, 0, |d.fields|)
    {
      if d.fields == [] {
        return tag == 0;
      }
      var start := pos;
      ghost var wrapped := false;
      while true
        invariant Valid() && start < |d.fields|
        invariant if wrapped then pos < start && NoneIn(tag, start, |d.fields|) && NoneIn(tag, 0, pos)
                  else start <= pos && NoneIn(tag, start, pos)
        decreases !wrapped, |d.fields| - pos
      {
        if d.fields[pos].tag == tag {
          return true;
        }
        var more := Next();
        wrapped := wrapped || !more;
        if pos == start {
          return false;
        }
      }
    }

    /** The number of required fields, found by running on to the end. */
    method CountRequired() returns (count: nat)
      requires Valid()
      modifies this
      ensures count == RequiredBefore(d, |d.fields|)
    {
      if d.fields == [] {
        return 0;
      }
      var more := true;
      var last := pos;
      count := 0;
      while more
        invariant Valid() && last < |d.fields|
        invariant more ==> last <= pos
        invariant !more ==> last + 1 == |d.fields| && count == RequiredBefore(d, last)
        decreases more, |d.fields| - pos
      {
        count, last := requiredIndex, pos;
        more := Next();
      }
      if d.fields[last].rule.Required? {
        count := count + 1;
      }
    }
  }
}
