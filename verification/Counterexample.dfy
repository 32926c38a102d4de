/** The one way a compaction changes a read: a key split over two next-level files.

    `inputs1` stops after the file that ends in a deletion marker; the marker is dropped as obsolete,
    and the older value the following file still holds becomes visible again. */
module Counterexample {
  import opened DbFormat
  import opened Version
  import opened Inputs
  import opened LsmSteps
  import opened CompactionWork
  import opened CompactionSteps
  import opened Elision

  const TOMBSTONE := Entry(InternalKey(2.0, 20, TypeDeletion), [])
  const OLD_VALUE := Entry(InternalKey(2.0, 5, TypeValue), [7])
  const NEWER := Entry(InternalKey(1.0, 40, TypeValue), [])
  const NEIGHBOUR := Entry(InternalKey(1.0, 10, TypeValue), [])

  function TableOf(number: nat, es: seq<Entry>): FileMetaData
    requires es != []
  {
    FileMetaData(number, 0, es[0].key, es[|es| - 1].key, es)
  }

  const UPPER := TableOf(9, [NEWER])
  const ENDS_IN_TOMBSTONE := TableOf(5, [NEIGHBOUR, TOMBSTONE])
  const HOLDS_OLD_VALUE := TableOf(6, [OLD_VALUE])

  const LEVELS: seq<Level> := [[], [UPPER], [ENDS_IN_TOMBSTONE, HOLDS_OLD_VALUE], [], [], [], []]
  const CHOICE := Choice([UPPER], [ENDS_IN_TOMBSTONE], NEWER.key, NEWER.key, [])
  const INPUT := [NEWER, NEIGHBOUR, TOMBSTONE]

  lemma ExampleEntries(l: nat, f: FileMetaData, e: Entry)
    requires l < NUM_LEVELS && f in LEVELS[l] && e in f.entries
    ensures (l == 1 && f == UPPER && e == NEWER)
         || (l == 2 && f == ENDS_IN_TOMBSTONE && (e == NEIGHBOUR || e == TOMBSTONE))
         || (l == 2 && f == HOLDS_OLD_VALUE && e == OLD_VALUE)
  {
  }

  lemma ExampleIsLsm()
    ensures Lsm(LEVELS)
  {
    forall l, m, f, g | 0 <= l < m < NUM_LEVELS && f in LEVELS[l] && g in LEVELS[m]
      ensures NewerThan(f, g)
    {
      forall d, e | d in f.entries && e in g.entries && d.key.user == e.key.user
        ensures e.key.seqno < d.key.seqno
      {
        ExampleEntries(l, f, d);
        ExampleEntries(m, g, e);
      }
    }
    forall d, e | d in AllEntries(LEVELS) && e in AllEntries(LEVELS) && d.key.user == e.key.user && d.key.seqno == e.key.seqno
      ensures d == e
    {
      ExampleMembers(d);
      ExampleMembers(e);
    }
  }

  lemma ExampleMembers(e: Entry)
    ensures e in AllEntries(LEVELS) ==> e in {NEWER, NEIGHBOUR, TOMBSTONE, OLD_VALUE}
  {
    if e in AllEntries(LEVELS) {
      var l :| 0 <= l < |LEVELS| && e in Entries(LEVELS[l]);
      var f :| f in LEVELS[l] && e in f.entries;
      ExampleEntries(l, f, e);
    }
  }

  lemma ExampleOverlap()
    ensures Overlapping(LEVELS[2], Some(1.0), Some(1.0)) == [ENDS_IN_TOMBSTONE]
  {
    var next := LEVELS[2];
    assert next[..1] == [ENDS_IN_TOMBSTONE] && next[..1][..0] == [];
    assert Overlapping(next[..1], Some(1.0), Some(1.0)) == [ENDS_IN_TOMBSTONE];
  }

  lemma ExampleInput()
    ensures MergedInput(CHOICE, INPUT)
  {
    var files := CHOICE.inputs0 + CHOICE.inputs1;
    assert files == [UPPER, ENDS_IN_TOMBSTONE];
    forall e
      ensures e in Contents(INPUT) <==> e in Entries(files)
    {
      assert UPPER in files && ENDS_IN_TOMBSTONE in files;
      assert NEWER in UPPER.entries && NEIGHBOUR in ENDS_IN_TOMBSTONE.entries && TOMBSTONE in ENDS_IN_TOMBSTONE.entries;
    }
  }

  lemma ExampleIsSelected()
    ensures Selected(LEVELS, 1, CHOICE) && MergedInput(CHOICE, INPUT)
  {
    ExampleInput();
    ExampleOverlap();
    OverlappingMembers(LEVELS[2], Some(1.0), Some(1.0));
    assert CHOICE.inputs0[0] == UPPER;
  }

  lemma EndsInsideAKey()
    ensures !SecondListEndsCleanly(LEVELS, 1, CHOICE)
  {
    assert ENDS_IN_TOMBSTONE in CHOICE.inputs1;
    assert IsLargest(CHOICE.inputs1, TOMBSTONE.key);
    assert HOLDS_OLD_VALUE in LEVELS[2] && Boundary(HOLDS_OLD_VALUE, TOMBSTONE.key);
  }

  lemma OldValueIsUntouched()
    ensures Untouched(LEVELS, 1, CHOICE) == {OLD_VALUE}
  {
    assert HOLDS_OLD_VALUE in LEVELS[2] && OLD_VALUE in HOLDS_OLD_VALUE.entries;
    assert HOLDS_OLD_VALUE.number != ENDS_IN_TOMBSTONE.number;
    assert (2, HOLDS_OLD_VALUE) !in Gone(1, CHOICE);
    forall e | e in Untouched(LEVELS, 1, CHOICE)
      ensures e == OLD_VALUE
    {
      var l, f :| 0 <= l < |LEVELS| && f in LEVELS[l] && (l, f) !in Gone(1, CHOICE) && e in f.entries;
      ExampleEntries(l, f, e);
      assert UPPER in CHOICE.inputs0 && ENDS_IN_TOMBSTONE in CHOICE.inputs1;
    }
  }

  lemma NothingDeeper()
    ensures BaseLevel(LEVELS, 1, 2.0)
  {
    assert LEVELS[3] == [] && LEVELS[4] == [] && LEVELS[5] == [] && LEVELS[6] == [];
  }

  lemma TombstoneIsNewest()
    ensures TOMBSTONE in INPUT && Newest(Elision.Before({OLD_VALUE}, INPUT), 2.0, 100, TOMBSTONE)
    ensures UniqueVersions(Elision.Before({OLD_VALUE}, INPUT))
  {
    assert INPUT[2] == TOMBSTONE;
    forall e
      ensures e in Elision.Before({OLD_VALUE}, INPUT) <==> e == NEWER || e == NEIGHBOUR || e == TOMBSTONE || e == OLD_VALUE
    {
      assert INPUT[0] == NEWER && INPUT[1] == NEIGHBOUR;
    }
  }

  lemma ReadsBeforeAndAfter()
    requires Sorted(INPUT)
    ensures Visible(Elision.Before({OLD_VALUE}, INPUT), 2.0, 100) == None
    ensures Visible(Elision.After({OLD_VALUE}, LEVELS, 1, INPUT, 100), 2.0, 100) == Some([7])
  {
    var before := Elision.Before({OLD_VALUE}, INPUT);
    NothingDeeper();
    TombstoneIsNewest();
    VisibleIs(before, 2.0, 100, TOMBSTONE);
    assert Newest({OLD_VALUE}, 2.0, 100, OLD_VALUE);
    VisibleIs({OLD_VALUE}, 2.0, 100, OLD_VALUE);
    DroppedTombstoneReads({OLD_VALUE}, LEVELS, 1, INPUT, 100, 2.0, 100, TOMBSTONE);
  }

  /** A well-formed version and a legal choice of inputs for which a deleted key comes back. */
  lemma DeletedKeyComesBack()
    ensures Lsm(LEVELS) && Selected(LEVELS, 1, CHOICE) && MergedInput(CHOICE, INPUT)
    ensures !SecondListEndsCleanly(LEVELS, 1, CHOICE)
    ensures Visible(AllEntries(LEVELS), 2.0, 100) == None
    ensures Visible(Elision.After(Untouched(LEVELS, 1, CHOICE), LEVELS, 1, INPUT, 100), 2.0, 100) == Some([7])
  {
    ExampleIsLsm();
    ExampleIsSelected();
    EndsInsideAKey();
    OldValueIsUntouched();
    SplitBefore(LEVELS, 1, CHOICE, INPUT);
    ReadsBeforeAndAfter();
  }
}
