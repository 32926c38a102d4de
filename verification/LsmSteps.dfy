/** Each change of the file set keeps the log-structured merge invariant
    (db/db_impl.cc WriteLevel0Table, BackgroundCompaction, InstallCompactionResults). */
module LsmSteps {
  import opened DbFormat
  import opened Version
  import opened VersionEdits
  import opened Inputs

  // ----- from sorted and disjoint to ordered -----

  ghost predicate Apart(f: FileMetaData, g: FileMetaData) {
    Less(f.largest, g.smallest) || Less(g.largest, f.smallest)
  }

  ghost predicate Disjoint(files: Level) {
    forall f, g | f in files && g in files && f != g :: Apart(f, g)
  }

  lemma OrderedIsDisjoint(files: Level)
    requires Ordered(files)
    ensures Disjoint(files)
  {
    forall f, g | f in files && g in files && f != g
      ensures Apart(f, g)
    {
      var i :| 0 <= i < |files| && files[i] == f;
      var j :| 0 <= j < |files| && files[j] == g;
      assert i < j ==> Less(files[i].largest, files[j].smallest);
    }
  }

  lemma SortedDisjointIsOrdered(files: Level)
    requires FileSorted(files) && Disjoint(files) && Ranged(files)
    ensures Ordered(files)
  {
    forall i, j | 0 <= i < j < |files|
      ensures Less(files[i].largest, files[j].smallest)
    {
      assert files[i] in files && files[j] in files && FileLess(files[i], files[j]);
    }
  }

  // ----- a change of the file set -----

  type Placed = (nat, FileMetaData)

  /** `after` is `before` without the files `gone` and with the files `come`. */
  ghost predicate Becomes(before: seq<Level>, after: seq<Level>, gone: set<Placed>, come: set<Placed>) {
    && |before| == |after| == NUM_LEVELS
    && (forall l | 0 <= l < NUM_LEVELS :: FileSorted(after[l]))
    && (forall l, f | 0 <= l < NUM_LEVELS ::
          f in after[l] <==> (f in before[l] && (l, f) !in gone) || (l, f) in come)
  }

  /** Every entry of `f` comes from one of `files`. */
  ghost predicate DrawnFrom(f: FileMetaData, files: Level) {
    forall e | e in f.entries :: e in Entries(files)
  }

  /** Outputs of a compaction: sorted disjoint tables made of input entries. */
  ghost predicate Rewritten(c: Choice, outputs: Level) {
    && AllValid(outputs) && Disjoint(outputs)
    && forall o | o in outputs :: DrawnFrom(o, c.inputs0 + c.inputs1)
  }

  ghost function PlacedAt(l: nat, files: Level): set<Placed> {
    set f | f in files :: (l, f)
  }

  ghost function Gone(level: nat, c: Choice): set<Placed> {
    PlacedAt(level, c.inputs0) + PlacedAt(level + 1, c.inputs1)
  }

  /** A next-level file that is not an input lies wholly before or wholly after every input file. */
  lemma OutsiderIsApart(levels: seq<Level>, level: nat, c: Choice, g: FileMetaData)
    requires Lsm(levels) && level + 1 < NUM_LEVELS && Selected(levels, level, c)
    requires g in levels[level + 1] && g !in c.inputs1
    ensures (forall h | h in c.inputs0 || h in c.inputs1 :: Less(g.largest, h.smallest))
         || (forall h | h in c.inputs0 || h in c.inputs1 :: Less(h.largest, g.smallest))
  {
    assert AllValid(levels[level]) && AllValid(levels[level + 1]);
    ValidRanges(levels[level]);
    ValidRanges(levels[level + 1]);
    OrderedIsDisjoint(levels[level + 1]);
    forall h | h in c.inputs1
      ensures Apart(g, h)
    {
      assert h in levels[level + 1];
    }
  }

  lemma DrawnEntry(o: FileMetaData, c: Choice, e: Entry) returns (h: FileMetaData)
    requires DrawnFrom(o, c.inputs0 + c.inputs1) && e in o.entries
    ensures (h in c.inputs0 || h in c.inputs1) && e in h.entries
  {
    h :| h in c.inputs0 + c.inputs1 && e in h.entries;
  }

  lemma OutputApart(levels: seq<Level>, level: nat, c: Choice, outputs: Level, g: FileMetaData, o: FileMetaData)
    requires Lsm(levels) && level + 1 < NUM_LEVELS && Selected(levels, level, c) && Rewritten(c, outputs)
    requires g in levels[level + 1] && g !in c.inputs1 && o in outputs
    ensures Apart(g, o)
  {
    OutsiderIsApart(levels, level, c, g);
    assert AllValid(levels[level]) && AllValid(levels[level + 1]) && o.Valid();
    var first, last := o.entries[0], o.entries[|o.entries| - 1];
    var hf := DrawnEntry(o, c, first);
    var hl := DrawnEntry(o, c, last);
    assert hf.Valid() && hl.Valid();
    EntryInRange(hf, first);
    EntryInRange(hl, last);
  }

  lemma NextLevelOrdered(levels: seq<Level>, level: nat, c: Choice, outputs: Level, after: Level)
    requires Lsm(levels) && level + 1 < NUM_LEVELS && Selected(levels, level, c) && Rewritten(c, outputs)
    requires FileSorted(after)
    requires forall f :: f in after <==> (f in levels[level + 1] && f !in c.inputs1) || f in outputs
    ensures AllValid(after) && Ordered(after)
  {
    assert AllValid(levels[level + 1]);
    OrderedIsDisjoint(levels[level + 1]);
    forall f, g | f in after && g in after && f != g
      ensures Apart(f, g)
    {
      if f in levels[level + 1] && f !in c.inputs1 && g in outputs {
        OutputApart(levels, level, c, outputs, f, g);
      } else if g in levels[level + 1] && g !in c.inputs1 && f in outputs {
        OutputApart(levels, level, c, outputs, g, f);
      }
    }
    ValidRanges(after);
    SortedDisjointIsOrdered(after);
  }

  lemma SubLevelOrdered(before: Level, after: Level)
    requires AllValid(before) && FileSorted(after)
    requires forall f | f in after :: f in before
    ensures AllValid(after)
    ensures Ordered(before) ==> Ordered(after)
    ensures RecencyByNumber(before) ==> RecencyByNumber(after)
  {
    ValidRanges(before);
    if Ordered(before) {
      OrderedIsDisjoint(before);
      SortedDisjointIsOrdered(after);
    }
  }

  /** An output is newer than what its inputs were newer than, and older than what they were older than. */
  lemma OutputBelow(f: FileMetaData, o: FileMetaData, c: Choice)
    requires DrawnFrom(o, c.inputs0 + c.inputs1)
    requires forall h | h in c.inputs0 || h in c.inputs1 :: NewerThan(f, h)
    ensures NewerThan(f, o)
  {
    forall d, e | d in f.entries && e in o.entries && d.key.user == e.key.user
      ensures e.key.seqno < d.key.seqno
    {
      var h := DrawnEntry(o, c, e);
      assert NewerThan(f, h);
    }
  }

  lemma OutputAbove(o: FileMetaData, g: FileMetaData, c: Choice)
    requires DrawnFrom(o, c.inputs0 + c.inputs1)
    requires forall h | h in c.inputs0 || h in c.inputs1 :: NewerThan(h, g)
    ensures NewerThan(o, g)
  {
    forall d, e | d in o.entries && e in g.entries && d.key.user == e.key.user
      ensures e.key.seqno < d.key.seqno
    {
      var h := DrawnEntry(o, c, d);
      assert NewerThan(h, g);
    }
  }

  lemma LevelsStayApart(levels: seq<Level>, level: nat, c: Choice, outputs: Level, after: seq<Level>,
                        l: nat, m: nat, f: FileMetaData, g: FileMetaData)
    requires Lsm(levels) && level + 1 < NUM_LEVELS && Selected(levels, level, c) && Rewritten(c, outputs)
    requires Becomes(levels, after, Gone(level, c), PlacedAt(level + 1, outputs))
    requires l < m < NUM_LEVELS && f in after[l] && g in after[m]
    ensures NewerThan(f, g)
  {
    if (l, f) in PlacedAt(level + 1, outputs) {
      forall h | h in c.inputs0 || h in c.inputs1
        ensures NewerThan(h, g)
      {
        assert h in levels[level] || h in levels[level + 1];
      }
      OutputAbove(f, g, c);
    } else if (m, g) in PlacedAt(level + 1, outputs) {
      forall h | h in c.inputs0 || h in c.inputs1
        ensures NewerThan(f, h)
      {
        if l == level { assert f !in c.inputs0 by { assert (l, f) !in Gone(level, c); } }
      }
      OutputBelow(f, g, c);
    }
  }

  ghost predicate UniqueNumbers(levels: seq<Level>) {
    forall l, m, f, g | 0 <= l < |levels| && 0 <= m < |levels| && f in levels[l] && g in levels[m] && f.number == g.number ::
      l == m && f == g
  }

  lemma EntriesShrink(levels: seq<Level>, level: nat, c: Choice, outputs: Level, after: seq<Level>)
    requires level + 1 < NUM_LEVELS && Selected(levels, level, c) && Rewritten(c, outputs)
    requires Becomes(levels, after, Gone(level, c), PlacedAt(level + 1, outputs))
    ensures AllEntries(after) <= AllEntries(levels)
  {
    forall e | e in AllEntries(after)
      ensures e in AllEntries(levels)
    {
      var l :| 0 <= l < |after| && e in Entries(after[l]);
      var f :| f in after[l] && e in f.entries;
      if f in levels[l] {
        assert e in Entries(levels[l]);
      } else {
        var h := DrawnEntry(f, c, e);
        assert e in Entries(levels[level]) || e in Entries(levels[level + 1]);
      }
    }
  }

  /** Main result: replacing the inputs of a compaction by its outputs keeps the invariant. */
  lemma CompactionKeepsLsm(levels: seq<Level>, level: nat, c: Choice, outputs: Level, after: seq<Level>)
    requires Lsm(levels) && level + 1 < NUM_LEVELS && Selected(levels, level, c) && Rewritten(c, outputs)
    requires Becomes(levels, after, Gone(level, c), PlacedAt(level + 1, outputs))
    ensures Lsm(after)
  {
    forall l | 0 <= l < NUM_LEVELS
      ensures AllValid(after[l]) && (0 < l ==> Ordered(after[l])) && (l == 0 ==> RecencyByNumber(after[l]))
    {
      assert AllValid(levels[l]);
      if l == level + 1 {
        forall f
          ensures f in after[l] <==> (f in levels[l] && f !in c.inputs1) || f in outputs
        {
          assert (l, f) in Gone(level, c) <==> f in c.inputs1;
        }
        NextLevelOrdered(levels, level, c, outputs, after[l]);
      } else {
        SubLevelOrdered(levels[l], after[l]);
      }
    }
    forall l, m, f, g | 0 <= l < m < NUM_LEVELS && f in after[l] && g in after[m]
      ensures NewerThan(f, g)
    {
      LevelsStayApart(levels, level, c, outputs, after, l, m, f, g);
    }
    EntriesShrink(levels, level, c, outputs, after);
  }

  // ----- flushing a memtable -----

  /** Every entry of `es` is newer than every version of its user key in `fs`. */
  ghost predicate NewerSet(es: set<Entry>, fs: set<Entry>) {
    forall d, e | d in es && e in fs && d.key.user == e.key.user :: e.key.seqno < d.key.seqno
  }

  ghost predicate NewerThanAll(es: set<Entry>, levels: seq<Level>) {
    NewerSet(es, AllEntries(levels))
  }

  ghost predicate NoOverlap(files: Level, f: FileMetaData) {
    forall g | g in files :: !Overlaps(g, Some(f.smallest.user), Some(f.largest.user))
  }

  /** More bytes of a level than this overlap the table. */
  predicate TooHeavy(files: Level, f: FileMetaData, limit: nat) {
    limit < TotalFileSize(Overlapping(files, Some(f.smallest.user), Some(f.largest.user)))
  }

  /** One turn of the loop below: whether the table may go on to this level. */
  method MayGoOn(next: Level, afterNext: Level, level: nat, f: FileMetaData, grandparentLimit: nat) returns (ok: bool)
    requires AllValid(next) && Ordered(next) && AllValid(afterNext) && 0 < level && f.Valid()
    requires forall g | g in next :: g.largest.seqno <= MAX_SEQUENCE
    ensures ok <==> NoOverlap(next, f) && !TooHeavy(afterNext, f, grandparentLimit)
  {
    var lo, hi := Some(f.smallest.user), Some(f.largest.user);
    ValidRanges(next);
    var overlap := SomeFileOverlapsRange(true, next, lo, hi);
    if overlap {
      return false;
    }
    var overlaps, _, _ := GetOverlappingInputs(afterNext, level + 1, lo, hi);
    ok := TotalFileSize(overlaps) <= grandparentLimit;
  }

  /** Push a new table past the levels it does not overlap, at most to level 2. `grandparentLimit` bounds the overlap two
      levels down. It goes as far as these rules let it. */
  method PickLevelForMemTableOutput(levels: seq<Level>, f: FileMetaData, grandparentLimit: nat) returns (level: nat)
    requires Lsm(levels) && f.Valid()
    requires forall l, g | 0 <= l < NUM_LEVELS && g in levels[l] :: g.largest.seqno <= MAX_SEQUENCE
    ensures level <= 2
    ensures 0 < level ==> forall l | 0 <= l <= level :: NoOverlap(levels[l], f)
    ensures forall l | 2 <= l < level + 2 :: !TooHeavy(levels[l], f, grandparentLimit)
    ensures level < 2 ==>
              || (level == 0 && !NoOverlap(levels[0], f))
              || !NoOverlap(levels[level + 1], f)
              || TooHeavy(levels[level + 2], f, grandparentLimit)
  {
    level := 0;
    assert forall l | 0 <= l < NUM_LEVELS :: AllValid(levels[l]);
    ValidRanges(levels[0]);
    var lo, hi := Some(f.smallest.user), Some(f.largest.user);
    var overlap := SomeFileOverlapsRange(false, levels[0], lo, hi);
    if !overlap {
      while level < MAX_MEM_COMPACT_LEVEL
        invariant level <= MAX_MEM_COMPACT_LEVEL
        invariant forall l | 0 <= l <= level :: NoOverlap(levels[l], f)
        invariant forall l | 2 <= l < level + 2 :: !TooHeavy(levels[l], f, grandparentLimit)
      {
        var ok := MayGoOn(levels[level + 1], levels[level + 2], level + 1, f, grandparentLimit);
        if !ok {
          break;
        }
        level := level + 1;
      }
    }
  }

  lemma NoOverlapApart(g: FileMetaData, f: FileMetaData)
    requires AtMost(g.smallest, g.largest) && AtMost(f.smallest, f.largest)
    requires !Overlaps(g, Some(f.smallest.user), Some(f.largest.user))
    ensures Apart(g, f)
  {
  }

  lemma FlushedLevelKept(files: Level, f: FileMetaData, after: Level, level: nat)
    requires AllValid(files) && f.Valid() && FileSorted(after)
    requires forall g :: g in after <==> g in files || g == f
    requires level == 0 || NoOverlap(files, f)
    requires forall g | g in files :: NewerThan(f, g) && g.number < f.number
    ensures AllValid(after)
    ensures 0 < level && Ordered(files) ==> Ordered(after)
    ensures RecencyByNumber(files) ==> RecencyByNumber(after)
  {
    ValidRanges(after);
    ValidRanges(files);
    if 0 < level && Ordered(files) {
      OrderedIsDisjoint(files);
      forall g | g in files
        ensures Apart(g, f)
      {
        NoOverlapApart(g, f);
      }
      SortedDisjointIsOrdered(after);
    }
  }

  /** Main result: a table of newest entries, placed where PickLevelForMemTableOutput says, keeps the invariant. */
  lemma FlushKeepsLsm(levels: seq<Level>, f: FileMetaData, level: nat, after: seq<Level>)
    requires Lsm(levels) && f.Valid() && level <= MAX_MEM_COMPACT_LEVEL
    requires 0 < level ==> forall l | 0 <= l <= level :: NoOverlap(levels[l], f)
    requires NewerThanAll(Contents(f.entries), levels)
    requires UniqueVersions(AllEntries(levels) + Contents(f.entries))
    requires forall l, g | 0 <= l < NUM_LEVELS && g in levels[l] :: g.number < f.number
    requires Becomes(levels, after, {}, {(level, f)})
    ensures Lsm(after)
    ensures AllEntries(after) == AllEntries(levels) + Contents(f.entries)
  {
    FlushedIsNewer(levels, f);
    forall l | 0 <= l < NUM_LEVELS
      ensures AllValid(after[l]) && (0 < l ==> Ordered(after[l])) && (l == 0 ==> RecencyByNumber(after[l]))
    {
      assert AllValid(levels[l]);
      if l == level {
        FlushedLevelKept(levels[l], f, after[l], level);
      } else {
        SubLevelOrdered(levels[l], after[l]);
      }
    }
    forall l, m, g, h | 0 <= l < m < NUM_LEVELS && g in after[l] && h in after[m]
      ensures NewerThan(g, h)
    {
      if (m, h) == (level, f) { SharesNoUserKey(levels, l, g, f); }
    }
    FlushedEntries(levels, f, level, after);
  }

  lemma FlushedIsNewer(levels: seq<Level>, f: FileMetaData)
    requires NewerThanAll(Contents(f.entries), levels)
    ensures forall l, g | 0 <= l < |levels| && g in levels[l] :: NewerThan(f, g)
  {
    forall l, g, d, e | 0 <= l < |levels| && g in levels[l] && d in f.entries && e in g.entries && d.key.user == e.key.user
      ensures e.key.seqno < d.key.seqno
    {
      assert e in Entries(levels[l]) && e in AllEntries(levels) && d in Contents(f.entries);
    }
  }

  lemma SharesNoUserKey(levels: seq<Level>, l: nat, g: FileMetaData, f: FileMetaData)
    requires Lsm(levels) && f.Valid() && l < NUM_LEVELS && g in levels[l] && NoOverlap(levels[l], f)
    ensures NewerThan(g, f)
  {
    assert AllValid(levels[l]);
    forall d, e | d in g.entries && e in f.entries
      ensures d.key.user != e.key.user
    {
      EntryInRange(g, d);
      EntryInRange(f, e);
    }
  }

  lemma FlushedEntries(levels: seq<Level>, f: FileMetaData, level: nat, after: seq<Level>)
    requires level < NUM_LEVELS && Becomes(levels, after, {}, {(level, f)})
    ensures AllEntries(after) == AllEntries(levels) + Contents(f.entries)
  {
    forall e
      ensures e in AllEntries(after) <==> e in AllEntries(levels) + Contents(f.entries)
    {
      if e in AllEntries(after) {
        var l :| 0 <= l < |after| && e in Entries(after[l]);
        var g :| g in after[l] && e in g.entries;
        if g in levels[l] { assert e in Entries(levels[l]); }
      }
      if e in AllEntries(levels) {
        var l :| 0 <= l < |levels| && e in Entries(levels[l]);
        var g :| g in levels[l] && e in g.entries;
        assert g in after[l] && e in Entries(after[l]);
      }
      if e in Contents(f.entries) {
        assert f in after[level] && e in Entries(after[level]);
      }
    }
  }
}
