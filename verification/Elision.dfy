/** What the drop rules do to readers: exactly when a compaction keeps every read. */
module Elision {
  import opened DbFormat
  import opened Version
  import opened Inputs
  import opened CompactionWork

  ghost function Before(rest: set<Entry>, input: seq<Entry>): set<Entry> {
    rest + Contents(input)
  }

  ghost function After(rest: set<Entry>, version: seq<Level>, level: nat, input: seq<Entry>, smallestSnapshot: nat): set<Entry> {
    rest + Contents(Kept(version, level, input, |input|, smallestSnapshot))
  }

  /** A deletion marker the loop throws away although entries outside the inputs still hold a value it hides. */
  ghost predicate Resurfaces(rest: set<Entry>, version: seq<Level>, level: nat, input: seq<Entry>,
                             smallestSnapshot: nat, u: UserKey) {
    && Visible(rest, u, smallestSnapshot).Some?
    && exists t | t in input ::
         && Newest(Before(rest, input), u, smallestSnapshot, t)
         && t.key.kind.TypeDeletion?
         && BaseLevel(version, level, u)
  }

  /** An entry with a newer entry of its user key, both visible to every snapshot, never survives. */
  lemma HiddenIsDropped(version: seq<Level>, level: nat, input: seq<Entry>, i: nat, j: nat, smallestSnapshot: nat)
    requires Sorted(input) && i < j < |input|
    requires input[i].key.user == input[j].key.user && input[i].key.seqno <= smallestSnapshot
    ensures Dropped(version, level, input, j, smallestSnapshot)
  {
    assert Less(input[j - 1].key, input[j].key);
    if i < j - 1 { assert Less(input[i].key, input[j - 1].key); }
  }

  /** Rule (A) alone never removes the entry a reader at or above the smallest snapshot sees. */
  lemma NewestDroppedIsTombstone(rest: set<Entry>, version: seq<Level>, level: nat, input: seq<Entry>,
                                 smallestSnapshot: nat, u: UserKey, s: nat, n: Entry)
    requires Sorted(input) && UniqueVersions(Before(rest, input)) && smallestSnapshot <= s
    requires Newest(Before(rest, input), u, s, n)
    requires n !in After(rest, version, level, input, smallestSnapshot)
    ensures n in input && n.key.kind.TypeDeletion? && n.key.seqno <= smallestSnapshot && BaseLevel(version, level, u)
  {
    KeptMembers(version, level, input, |input|, smallestSnapshot);
    assert n in Contents(input);
    var i :| 0 <= i < |input| && input[i] == n;
    assert Dropped(version, level, input, i, smallestSnapshot);
    if 0 < i && input[i - 1].key.user == u && input[i - 1].key.seqno <= smallestSnapshot {
      var p := input[i - 1];
      assert Less(p.key, n.key) && p in Contents(input) && p in Before(rest, input) && Candidate(p, u, s);
    }
  }

  /** Below a dropped tombstone nothing of the inputs survives. */
  lemma NothingKeptBelow(version: seq<Level>, level: nat, input: seq<Entry>, smallestSnapshot: nat, t: Entry, e: Entry)
    requires Sorted(input) && t in input && t.key.seqno <= smallestSnapshot
    requires t.key.kind.TypeDeletion? && BaseLevel(version, level, t.key.user)
    requires e.key.user == t.key.user && e.key.seqno <= t.key.seqno
    requires e.key.seqno == t.key.seqno ==> e == t
    ensures e !in Kept(version, level, input, |input|, smallestSnapshot)
  {
    KeptMembers(version, level, input, |input|, smallestSnapshot);
    var i :| 0 <= i < |input| && input[i] == t;
    forall j | 0 <= j < |input| && input[j] == e
      ensures Dropped(version, level, input, j, smallestSnapshot)
    {
      if j < i {
        assert Less(e.key, t.key);
      } else if i < j {
        HiddenIsDropped(version, level, input, i, j, smallestSnapshot);
      }
    }
  }

  /** With its tombstone gone, the key reads as the entries outside the inputs say. */
  lemma DroppedTombstoneReads(rest: set<Entry>, version: seq<Level>, level: nat, input: seq<Entry>,
                              smallestSnapshot: nat, u: UserKey, s: nat, t: Entry)
    requires Sorted(input) && UniqueVersions(Before(rest, input)) && smallestSnapshot <= s
    requires t in input && t.key.kind.TypeDeletion? && t.key.seqno <= smallestSnapshot && BaseLevel(version, level, u)
    requires Newest(Before(rest, input), u, s, t)
    ensures Visible(After(rest, version, level, input, smallestSnapshot), u, s) == Visible(rest, u, smallestSnapshot)
  {
    var after := After(rest, version, level, input, smallestSnapshot);
    KeptMembers(version, level, input, |input|, smallestSnapshot);
    assert after <= Before(rest, input);
    assert t in Before(rest, input);
    forall e | e in after && Candidate(e, u, s)
      ensures e in rest && Candidate(e, u, smallestSnapshot)
    {
      assert e in Before(rest, input) && e.key.seqno <= t.key.seqno;
      NothingKeptBelow(version, level, input, smallestSnapshot, t, e);
    }
    if c :| c in rest && Candidate(c, u, smallestSnapshot) {
      NewestExists(rest, u, smallestSnapshot, c);
      var e :| Newest(rest, u, smallestSnapshot, e);
      assert Newest(after, u, s, e);
      VisibleIs(after, u, s, e);
      VisibleIs(rest, u, smallestSnapshot, e);
    } else {
      VisibleNothing(rest, u, smallestSnapshot);
      VisibleNothing(after, u, s);
    }
  }

  lemma ReadsKept(rest: set<Entry>, version: seq<Level>, level: nat, input: seq<Entry>,
                  smallestSnapshot: nat, u: UserKey, s: nat)
    requires Sorted(input) && UniqueVersions(Before(rest, input)) && smallestSnapshot <= s
    requires !Resurfaces(rest, version, level, input, smallestSnapshot, u)
    ensures Visible(After(rest, version, level, input, smallestSnapshot), u, s) == Visible(Before(rest, input), u, s)
  {
    var before, after := Before(rest, input), After(rest, version, level, input, smallestSnapshot);
    KeptMembers(version, level, input, |input|, smallestSnapshot);
    assert after <= before;
    if c :| c in before && Candidate(c, u, s) {
      NewestExists(before, u, s, c);
      var n :| Newest(before, u, s, n);
      VisibleIs(before, u, s, n);
      if n in after {
        assert Newest(after, u, s, n);
        VisibleIs(after, u, s, n);
      } else {
        NewestDroppedIsTombstone(rest, version, level, input, smallestSnapshot, u, s, n);
        DroppedTombstoneReads(rest, version, level, input, smallestSnapshot, u, s, n);
        assert Newest(before, u, smallestSnapshot, n);
      }
    } else {
      VisibleNothing(before, u, s);
      VisibleNothing(after, u, s);
    }
  }

  /** A reader at the smallest snapshot notices: the key was deleted and now has a value. */
  lemma ResurfacedIsSeen(rest: set<Entry>, version: seq<Level>, level: nat, input: seq<Entry>,
                         smallestSnapshot: nat, u: UserKey)
    requires Sorted(input) && UniqueVersions(Before(rest, input))
    requires Resurfaces(rest, version, level, input, smallestSnapshot, u)
    ensures Visible(Before(rest, input), u, smallestSnapshot) == None
    ensures Visible(After(rest, version, level, input, smallestSnapshot), u, smallestSnapshot).Some?
  {
    var t :| t in input && Newest(Before(rest, input), u, smallestSnapshot, t)
             && t.key.kind.TypeDeletion? && BaseLevel(version, level, u);
    DroppedTombstoneReads(rest, version, level, input, smallestSnapshot, u, smallestSnapshot, t);
    VisibleIs(Before(rest, input), u, smallestSnapshot, t);
  }

  /** Main result: a compaction keeps every read at or above the smallest snapshot exactly when
      no dropped tombstone was still hiding a value outside the inputs. */
  lemma CompactionKeepsReads(rest: set<Entry>, version: seq<Level>, level: nat, input: seq<Entry>, smallestSnapshot: nat)
    requires Sorted(input) && UniqueVersions(Before(rest, input))
    ensures (forall u, s: nat | smallestSnapshot <= s ::
               Visible(After(rest, version, level, input, smallestSnapshot), u, s) == Visible(Before(rest, input), u, s))
            <==>
            (forall u :: !Resurfaces(rest, version, level, input, smallestSnapshot, u))
  {
    if forall u :: !Resurfaces(rest, version, level, input, smallestSnapshot, u) {
      forall u, s: nat | smallestSnapshot <= s
        ensures Visible(After(rest, version, level, input, smallestSnapshot), u, s) == Visible(Before(rest, input), u, s)
      {
        ReadsKept(rest, version, level, input, smallestSnapshot, u, s);
      }
    } else {
      var u :| Resurfaces(rest, version, level, input, smallestSnapshot, u);
      ResurfacedIsSeen(rest, version, level, input, smallestSnapshot, u);
    }
  }
}
