/** From the rewriting loop to the installed version: what a whole compaction does to the files and to readers. */
module CompactionSteps {
  import opened DbFormat
  import opened Version
  import opened Inputs
  import opened VersionEdits
  import opened LsmSteps
  import opened CompactionWork
  import opened Elision

  // ----- the outputs are tables made of inputs -----

  lemma {:induction false} FlattenMembers(files: Level)
    ensures Contents(Flatten(files)) == Entries(files)
  {
    if files != [] {
      var n := |files| - 1;
      FlattenMembers(files[..n]);
      assert files == files[..n] + [files[n]];
      assert forall e :: e in Flatten(files) <==> e in Flatten(files[..n]) || e in files[n].entries;
      forall e
        ensures e in Contents(Flatten(files)) <==> e in Entries(files)
      {
        assert e in Flatten(files[..n]) <==> e in Contents(Flatten(files[..n]));
        assert e in Entries(files) <==> e in Entries(files[..n]) || e in files[n].entries;
      }
    }
  }

  lemma PiecesSorted(a: seq<Entry>, b: seq<Entry>)
    requires Sorted(a + b)
    ensures Sorted(a) && Sorted(b)
    ensures forall d, e | d in a && e in b :: Less(d.key, e.key)
  {
    var ab := a + b;
    assert forall i | 0 <= i < |a| :: a[i] == ab[i];
    assert forall i | 0 <= i < |b| :: b[i] == ab[|a| + i];
  }

  lemma {:induction false} OutputsValid(files: Level, firstNumber: nat)
    requires OutputFiles(files, firstNumber) && Sorted(Flatten(files))
    ensures AllValid(files) && Ordered(files)
  {
    if files != [] {
      var n := |files| - 1;
      PiecesSorted(Flatten(files[..n]), files[n].entries);
      OutputsValid(files[..n], firstNumber);
      assert files[n].Valid();
      FlattenMembers(files[..n]);
      forall i | 0 <= i < n
        ensures files[i].Valid() && Less(files[i].largest, files[n].smallest)
      {
        assert files[i] in files[..n];
        var last := files[i].entries[|files[i].entries| - 1];
        assert last in files[i].entries;
        assert last in Entries(files[..n]) && last in Contents(Flatten(files[..n]));
        assert files[n].entries[0] in files[n].entries;
      }
      forall f | f in files
        ensures f.Valid()
      {
        var i :| 0 <= i < |files| && files[i] == f;
      }
      forall i, j | 0 <= i < j < |files|
        ensures Less(files[i].largest, files[j].smallest)
      {
        if j < n { assert files[..n][i] == files[i] && files[..n][j] == files[j]; }
      }
    }
  }

  /** The input iterator yields the entries of all input files in key order. */
  ghost predicate MergedInput(c: Choice, input: seq<Entry>) {
    Sorted(input) && Contents(input) == Entries(c.inputs0 + c.inputs1)
  }

  lemma WorkIsRewriting(version: seq<Level>, level: nat, c: Choice, input: seq<Entry>, smallestSnapshot: nat,
                        outputs: Level, firstNumber: nat)
    requires MergedInput(c, input) && OutputFiles(outputs, firstNumber)
    requires Flatten(outputs) == Kept(version, level, input, |input|, smallestSnapshot)
    ensures Rewritten(c, outputs)
    ensures Entries(outputs) == Contents(Kept(version, level, input, |input|, smallestSnapshot))
  {
    KeptSorted(version, level, input, |input|, smallestSnapshot);
    KeptMembers(version, level, input, |input|, smallestSnapshot);
    OutputsValid(outputs, firstNumber);
    OrderedIsDisjoint(outputs);
    FlattenMembers(outputs);
    forall o, e | o in outputs && e in o.entries
      ensures e in Entries(c.inputs0 + c.inputs1)
    {
      assert e in Entries(outputs) && e in Contents(Flatten(outputs)) && e in Contents(input);
    }
  }

  // ----- all entries, split into inputs and the rest -----

  ghost function Untouched(levels: seq<Level>, level: nat, c: Choice): set<Entry> {
    set l, f, e | 0 <= l < |levels| && f in levels[l] && (l, f) !in Gone(level, c) && e in f.entries :: e
  }

  lemma SplitBefore(levels: seq<Level>, level: nat, c: Choice, input: seq<Entry>)
    requires level + 1 < |levels| && Selected(levels, level, c) && MergedInput(c, input)
    ensures AllEntries(levels) == Untouched(levels, level, c) + Contents(input)
  {
    forall e
      ensures e in AllEntries(levels) <==> e in Untouched(levels, level, c) + Contents(input)
    {
      if e in AllEntries(levels) {
        var l :| 0 <= l < |levels| && e in Entries(levels[l]);
        var f :| f in levels[l] && e in f.entries;
        if (l, f) in Gone(level, c) { assert f in c.inputs0 + c.inputs1 && e in Contents(input); }
      }
      if e in Untouched(levels, level, c) {
        var l, f :| 0 <= l < |levels| && f in levels[l] && (l, f) !in Gone(level, c) && e in f.entries;
        assert e in Entries(levels[l]);
      }
      if e in Contents(input) {
        var f :| f in c.inputs0 + c.inputs1 && e in f.entries;
        assert e in Entries(levels[level]) || e in Entries(levels[level + 1]);
      }
    }
  }

  lemma SplitAfter(levels: seq<Level>, level: nat, c: Choice, outputs: Level, after: seq<Level>)
    requires level + 1 < NUM_LEVELS && Becomes(levels, after, Gone(level, c), PlacedAt(level + 1, outputs))
    ensures AllEntries(after) == Untouched(levels, level, c) + Entries(outputs)
  {
    forall e
      ensures e in AllEntries(after) <==> e in Untouched(levels, level, c) + Entries(outputs)
    {
      if e in AllEntries(after) {
        var l :| 0 <= l < |after| && e in Entries(after[l]);
        var f :| f in after[l] && e in f.entries;
      }
      if e in Untouched(levels, level, c) {
        var l, f :| 0 <= l < |levels| && f in levels[l] && (l, f) !in Gone(level, c) && e in f.entries;
        assert f in after[l] && e in Entries(after[l]);
      }
      if e in Entries(outputs) {
        var f :| f in outputs && e in f.entries;
        assert (level + 1, f) in PlacedAt(level + 1, outputs);
        assert f in after[level + 1] && e in Entries(after[level + 1]);
      }
    }
  }

  // ----- when no tombstone resurfaces anything -----

  /** No file of the next level continues, past the end of the second input list, the user key that list ends in:
      the check AddBoundaryInputs makes for the first list and nothing makes for the second. */
  ghost predicate SecondListEndsCleanly(levels: seq<Level>, level: nat, c: Choice) {
    level + 1 < |levels|
    && forall key, f | IsLargest(c.inputs1, key) && f in levels[level + 1] :: !Boundary(f, key)
  }

  lemma SecondListIsOldest(levels: seq<Level>, level: nat, c: Choice)
    requires Lsm(levels) && level + 1 < NUM_LEVELS && Selected(levels, level, c)
    requires SecondListEndsCleanly(levels, level, c)
    ensures OldestOfLevel(levels[level + 1], c.inputs1)
  {
    var files := levels[level + 1];
    assert AllValid(files) && Ordered(files);
    ValidRanges(files);
    var a, b := OverlappingIsSlice(files, Some(c.smallest.user), Some(c.largest.user));
    if a < b {
      assert UniqueVersions(Entries(files)) by { assert Entries(files) <= AllEntries(levels); }
      LastOfSliceIsLargest(files, c.inputs1, a, b);
      SliceIsOldest(files, c.inputs1, a, b, files[b - 1].largest);
    }
  }

  /** Down to the level the outputs go to, what stays is newer than what is compacted. */
  lemma UpperIsNewer(levels: seq<Level>, level: nat, c: Choice, h: FileMetaData, l: nat, g: FileMetaData)
    requires Lsm(levels) && level + 1 < NUM_LEVELS && Selected(levels, level, c)
    requires OldestOfLevel(levels[level + 1], c.inputs1)
    requires h in c.inputs0 || h in c.inputs1
    requires l <= level + 1 && g in levels[l] && (l, g) !in Gone(level, c)
    ensures NewerThan(g, h)
  {
    if l == level + 1 && h in c.inputs0 {
      assert AllValid(levels[level]) && AllValid(levels[level + 1]);
      assert g !in c.inputs1;
      forall d, e | d in g.entries && e in h.entries
        ensures d.key.user != e.key.user
      {
        EntryInRange(g, d);
        EntryInRange(h, e);
      }
    } else {
      assert h in levels[level] || h in levels[level + 1];
    }
  }

  /** A newest entry among the inputs whose key has no data deeper down is the oldest version there is outside them. */
  lemma NothingOlderOutside(levels: seq<Level>, level: nat, c: Choice, h: FileMetaData, t: Entry,
                            mem: set<Entry>, e: Entry)
    requires Lsm(levels) && level + 1 < NUM_LEVELS && Selected(levels, level, c)
    requires OldestOfLevel(levels[level + 1], c.inputs1)
    requires NewerThanAll(mem, levels)
    requires (h in c.inputs0 || h in c.inputs1) && t in h.entries && BaseLevel(levels, level, t.key.user)
    requires e in mem + Untouched(levels, level, c) && e.key.user == t.key.user
    ensures t.key.seqno < e.key.seqno
  {
    assert t in AllEntries(levels) by {
      if h in c.inputs0 { assert t in Entries(levels[level]); } else { assert t in Entries(levels[level + 1]); }
    }
    if e !in mem {
      var l, g :| 0 <= l < |levels| && g in levels[l] && (l, g) !in Gone(level, c) && e in g.entries;
      assert AllValid(levels[l]);
      EntryInRange(g, e);
      assert g.MayContain(t.key.user);
      UpperIsNewer(levels, level, c, h, l, g);
    }
  }

  /** Under the clean-end condition no read changes, whatever newer entries sit in the memtables. */
  lemma CleanEndNothingResurfaces(levels: seq<Level>, level: nat, c: Choice, input: seq<Entry>,
                                  mem: set<Entry>, smallestSnapshot: nat, u: UserKey)
    requires Lsm(levels) && level + 1 < NUM_LEVELS && Selected(levels, level, c) && MergedInput(c, input)
    requires SecondListEndsCleanly(levels, level, c) && NewerThanAll(mem, levels)
    ensures !Resurfaces(mem + Untouched(levels, level, c), levels, level, input, smallestSnapshot, u)
  {
    var rest := mem + Untouched(levels, level, c);
    SecondListIsOldest(levels, level, c);
    forall t | t in input && Newest(Elision.Before(rest, input), u, smallestSnapshot, t) && BaseLevel(levels, level, u)
      ensures Visible(rest, u, smallestSnapshot) == None
    {
      assert t in Contents(input);
      var h :| h in c.inputs0 + c.inputs1 && t in h.entries;
      forall e | e in rest
        ensures !Candidate(e, u, smallestSnapshot)
      {
        assert e in Elision.Before(rest, input);
        if e.key.user == u { NothingOlderOutside(levels, level, c, h, t, mem, e); }
      }
      VisibleNothing(rest, u, smallestSnapshot);
    }
  }

  /** The entries a reader can see before and after, split the way the elision result wants them. */
  lemma SplitReaders(levels: seq<Level>, level: nat, c: Choice, input: seq<Entry>, mem: set<Entry>,
                     smallestSnapshot: nat, outputs: Level, after: seq<Level>)
    requires level + 1 < NUM_LEVELS && Selected(levels, level, c) && MergedInput(c, input)
    requires Entries(outputs) == Contents(Kept(levels, level, input, |input|, smallestSnapshot))
    requires Becomes(levels, after, Gone(level, c), PlacedAt(level + 1, outputs))
    ensures var rest := mem + Untouched(levels, level, c);
            && mem + AllEntries(levels) == Elision.Before(rest, input)
            && mem + AllEntries(after) == Elision.After(rest, levels, level, input, smallestSnapshot)
  {
    SplitBefore(levels, level, c, input);
    SplitAfter(levels, level, c, outputs, after);
  }

  /** What the loop wrote is installed: the tree keeps its shape whether or not a read changes. */
  lemma CompactionInstalls(levels: seq<Level>, level: nat, c: Choice, input: seq<Entry>, mem: set<Entry>,
                           smallestSnapshot: nat, outputs: Level, firstNumber: nat, after: seq<Level>)
    requires Lsm(levels) && level + 1 < NUM_LEVELS && Selected(levels, level, c) && MergedInput(c, input)
    requires OutputFiles(outputs, firstNumber)
    requires Flatten(outputs) == Kept(levels, level, input, |input|, smallestSnapshot)
    requires Becomes(levels, after, Gone(level, c), PlacedAt(level + 1, outputs))
    ensures Lsm(after) && AllEntries(after) <= AllEntries(levels)
    ensures var rest := mem + Untouched(levels, level, c);
            && mem + AllEntries(levels) == Elision.Before(rest, input)
            && mem + AllEntries(after) == Elision.After(rest, levels, level, input, smallestSnapshot)
  {
    WorkIsRewriting(levels, level, c, input, smallestSnapshot, outputs, firstNumber);
    CompactionKeepsLsm(levels, level, c, outputs, after);
    EntriesShrink(levels, level, c, outputs, after);
    SplitReaders(levels, level, c, input, mem, smallestSnapshot, outputs, after);
  }

  /** No deletion marker is thrown away while something outside the inputs still holds a value it hides. */
  ghost predicate NothingResurfaces(levels: seq<Level>, level: nat, c: Choice, input: seq<Entry>, mem: set<Entry>,
                                    smallestSnapshot: nat) {
    forall u :: !Resurfaces(mem + Untouched(levels, level, c), levels, level, input, smallestSnapshot, u)
  }

  /** Main result: install what the loop wrote. The tree keeps its shape; every reader at or above the smallest
      snapshot reads what it read exactly when nothing resurfaces, and the smallest snapshot itself is a witness. */
  lemma CompactionStep(levels: seq<Level>, level: nat, c: Choice, input: seq<Entry>, mem: set<Entry>,
                       smallestSnapshot: nat, outputs: Level, firstNumber: nat, after: seq<Level>)
    requires Lsm(levels) && level + 1 < NUM_LEVELS && Selected(levels, level, c) && MergedInput(c, input)
    requires UniqueVersions(mem + AllEntries(levels))
    requires OutputFiles(outputs, firstNumber)
    requires Flatten(outputs) == Kept(levels, level, input, |input|, smallestSnapshot)
    requires Becomes(levels, after, Gone(level, c), PlacedAt(level + 1, outputs))
    ensures Lsm(after) && AllEntries(after) <= AllEntries(levels)
    ensures NothingResurfaces(levels, level, c, input, mem, smallestSnapshot) ==>
              forall u, s: nat | smallestSnapshot <= s ::
                Visible(mem + AllEntries(after), u, s) == Visible(mem + AllEntries(levels), u, s)
    ensures !NothingResurfaces(levels, level, c, input, mem, smallestSnapshot) ==>
              exists u :: Visible(mem + AllEntries(after), u, smallestSnapshot) != Visible(mem + AllEntries(levels), u, smallestSnapshot)
  {
    CompactionInstalls(levels, level, c, input, mem, smallestSnapshot, outputs, firstNumber, after);
    var rest := mem + Untouched(levels, level, c);
    CompactionKeepsReads(rest, levels, level, input, smallestSnapshot);
    if !NothingResurfaces(levels, level, c, input, mem, smallestSnapshot) {
      var u :| Resurfaces(rest, levels, level, input, smallestSnapshot, u);
      ResurfacedIsSeen(rest, levels, level, input, smallestSnapshot, u);
    }
  }

  /** Every compaction whose second list ends cleanly is one of those that change no read. */
  lemma CleanEndKeepsReads(levels: seq<Level>, level: nat, c: Choice, input: seq<Entry>, mem: set<Entry>, smallestSnapshot: nat)
    requires Lsm(levels) && level + 1 < NUM_LEVELS && Selected(levels, level, c) && MergedInput(c, input)
    requires SecondListEndsCleanly(levels, level, c) && NewerThanAll(mem, levels)
    ensures NothingResurfaces(levels, level, c, input, mem, smallestSnapshot)
  {
    forall u
      ensures !Resurfaces(mem + Untouched(levels, level, c), levels, level, input, smallestSnapshot, u)
    {
      CleanEndNothingResurfaces(levels, level, c, input, mem, smallestSnapshot, u);
    }
  }
}
