/** Crash and recovery: what DB::Open rebuilds from the disk is what readers saw before. */
module StoreRecovery {
  import opened DbFormat
  import opened Version
  import opened VersionEdits
  import opened LsmSteps
  import opened Store
  import opened StoreFiles
  import opened StoreWrites

  /** A disk from which `levels` and the unflushed entries `mem`, all numbered up to `last`, can be rebuilt. */
  ghost predicate Durable(d: Disk, levels: seq<Level>, mem: set<Entry>, last: nat) {
    && FilesOk(levels) && Describes(d.manifest, levels) && Stored(d.tables, levels)
    && NewerThanAll(mem, levels) && UniqueVersions(AllEntries(levels) + mem)
    && UpTo(mem, last) && UpTo(AllEntries(levels), last) && last < MAX_SEQUENCE
    && var edit := d.manifest[|d.manifest| - 1];
       && LiveLogEntries(d.logs, edit.logNumber) == mem
       && SequenceKept(edit.lastSequence, last, mem)
       && (d.logs == map[] || exists n | n in d.logs :: edit.logNumber <= n)
  }

  lemma LiveLogs(logs: map<nat, seq<Entry>>, logNumber: nat, logfileNumber: nat, mem: set<Entry>, imm: set<Entry>)
    requires LogsOk(logs, logNumber, logfileNumber, mem, imm)
    ensures LiveLogEntries(logs, logNumber) == mem + imm
  {
    forall e
      ensures e in LiveLogEntries(logs, logNumber) <==> e in mem + imm
    {
      if e in LiveLogEntries(logs, logNumber) {
        var n :| n in logs && logNumber <= n && e in logs[n];
        assert e in Contents(logs[n]);
        if n < logfileNumber { assert e in LogEntries(logs, logNumber, logfileNumber); }
      }
      if e in mem {
        assert e in Contents(logs[logfileNumber]);
      }
      if e in imm {
        assert e in LogEntries(logs, logNumber, logfileNumber);
      }
    }
  }

  lemma InvMemory(s: State)
    requires MemLayers(s.mem, ImmEntries(s), AllEntries(s.levels)) && UpTo(All(s), s.lastSequence)
    ensures NewerThanAll(MemEntries(s), s.levels) && UniqueVersions(AllEntries(s.levels) + MemEntries(s))
    ensures UpTo(MemEntries(s), s.lastSequence) && UpTo(AllEntries(s.levels), s.lastSequence)
  {
    UpToUnion(MemEntries(s), AllEntries(s.levels), s.lastSequence);
    assert AllEntries(s.levels) + MemEntries(s) == MemEntries(s) + AllEntries(s.levels);
  }

  /** Every reachable state leaves a durable disk, whenever the crash comes. */
  lemma AlwaysDurable(s: State)
    requires Inv(s)
    ensures Durable(s.disk, s.levels, MemEntries(s), s.lastSequence)
  {
    InvMemory(s);
    LiveLogs(s.disk.logs, s.logNumber, s.logfileNumber, Contents(s.mem), Contents(ImmEntries(s)));
  }

  // ----- the manifest -----

  lemma ReplayedBase(manifest: seq<VersionEdit>, levels: seq<Level>, base: seq<Level>)
    requires Describes(manifest, levels) && |base| == NUM_LEVELS
    requires forall l | 0 <= l < NUM_LEVELS :: base[l] == AllAtOnce([], manifest, l)
    ensures base == levels
  {
    forall l | 0 <= l < NUM_LEVELS
      ensures base[l] == levels[l]
    {
      ReplayAgrees([], manifest, l);
    }
  }

  lemma {:induction false} LevelFilesMembers(levels: seq<Level>, n: nat, l: nat, f: FileMetaData)
    requires n <= |levels|
    ensures (l, f) in LevelFiles(levels, n) <==> l < n && f in levels[l]
  {
    if n > 0 {
      LevelFilesMembers(levels, n - 1, l, f);
      var last := levels[n - 1];
      if l == n - 1 && f in last {
        var i :| 0 <= i < |last| && last[i] == f;
        assert At(n - 1, last)[i] == (l, f);
      }
    }
  }

  lemma LevelNumbersOnce(levels: seq<Level>, l: nat)
    requires UniqueNumbers(levels) && l < |levels| && FileSorted(levels[l])
    ensures DistinctNumbers(At(l, levels[l]))
  {
    var files := levels[l];
    forall i, j | 0 <= i < j < |files|
      ensures files[i].number != files[j].number
    {
      assert FileLess(files[i], files[j]);
      assert files[i] in levels[l] && files[j] in levels[l];
    }
  }

  lemma {:induction false} LevelFilesDistinct(levels: seq<Level>, n: nat)
    requires UniqueNumbers(levels) && n <= |levels|
    requires forall l | 0 <= l < |levels| :: FileSorted(levels[l])
    ensures DistinctNumbers(LevelFiles(levels, n))
  {
    if n > 0 {
      LevelFilesDistinct(levels, n - 1);
      LevelNumbersOnce(levels, n - 1);
      var front, last := LevelFiles(levels, n - 1), At(n - 1, levels[n - 1]);
      forall i, j | 0 <= i < |front| && 0 <= j < |last|
        ensures front[i].1.number != last[j].1.number
      {
        var (l, f) := front[i];
        assert (l, f) in front;
        LevelFilesMembers(levels, n - 1, l, f);
        assert levels[n - 1][j] in levels[n - 1];
      }
    }
  }

  lemma OneEditManifest(edit: VersionEdit, l: nat)
    requires NumbersOnce(AddedAt(edit.newFiles, l))
    ensures FreshAdds([], [edit], l) && OneByOne([], [edit], l) == StepFiles([], edit, l)
  {
    var manifest := [edit];
    assert manifest[..|manifest| - 1] == [];
  }

  lemma SnapshotMembers(levels: seq<Level>, last: VersionEdit, l: nat)
    requires l < |levels| && NumbersOnce(AddedAt(SnapshotEdit(levels, last).newFiles, l))
    ensures FileSorted(StepFiles([], SnapshotEdit(levels, last), l))
    ensures forall f :: f in StepFiles([], SnapshotEdit(levels, last), l) <==> f in levels[l]
  {
    var edit := SnapshotEdit(levels, last);
    StepMembers([], edit, l);
    var st := ApplyLevel(EMPTY_STATE, edit, l);
    SaveSorted([], st.addedFiles, st.deletedFiles);
    forall f
      ensures (l, f) in edit.newFiles <==> f in levels[l]
    {
      LevelFilesMembers(levels, |levels|, l, f);
    }
  }

  lemma SnapshotLevel(levels: seq<Level>, last: VersionEdit, l: nat)
    requires UniqueNumbers(levels) && l < |levels| && forall m | 0 <= m < |levels| :: FileSorted(levels[m])
    ensures FreshAdds([], [SnapshotEdit(levels, last)], l)
    ensures OneByOne([], [SnapshotEdit(levels, last)], l) == levels[l]
  {
    var edit := SnapshotEdit(levels, last);
    LevelFilesDistinct(levels, |levels|);
    AddedAtOnce(edit.newFiles, l);
    OneEditManifest(edit, l);
    SnapshotMembers(levels, last, l);
    SortedListsAgree(StepFiles([], edit, l), levels[l]);
  }

  /** A snapshot record describes the version it was taken of. */
  lemma SnapshotDescribes(levels: seq<Level>, last: VersionEdit)
    requires FilesOk(levels) && NumbersBelow(levels, last.nextFileNumber)
    ensures Describes([SnapshotEdit(levels, last)], levels)
  {
    forall l | 0 <= l < NUM_LEVELS
      ensures FreshAdds([], [SnapshotEdit(levels, last)], l) && levels[l] == OneByOne([], [SnapshotEdit(levels, last)], l)
    {
      SnapshotLevel(levels, last, l);
    }
    forall p | p in SnapshotEdit(levels, last).newFiles
      ensures p.0 < |levels| && p.1 in levels[p.0]
    {
      LevelFilesMembers(levels, |levels|, p.0, p.1);
    }
  }

  // ----- the recovered level-0 tables -----

  lemma RecoveryPlaced(levels: seq<Level>, last: VersionEdit, files: Level, edit: VersionEdit, hi: nat)
    requires NumbersBelow(levels, last.nextFileNumber) && RecoveredNumbers(files, last.nextFileNumber, hi)
    requires edit.newFiles == At(0, files)
    ensures Placeable([SnapshotEdit(levels, last)], levels, edit)
  {
    forall p | p in edit.newFiles
      ensures p.0 == 0 && p.1 in files
    {
      var i :| 0 <= i < |edit.newFiles| && edit.newFiles[i] == p;
      assert p == (0, files[i]);
    }
    forall q | q in SnapshotEdit(levels, last).newFiles
      ensures q.1.number < last.nextFileNumber
    {
      LevelFilesMembers(levels, |levels|, q.0, q.1);
    }
  }

  lemma RecoveredMembers(levels: seq<Level>, after: seq<Level>, edit: VersionEdit, files: Level)
    requires EditMembers(levels, after, edit) && edit.deletedFiles == {} && edit.newFiles == At(0, files)
    ensures forall f :: f in after[0] <==> f in levels[0] || f in files
    ensures forall l, f | 1 <= l < NUM_LEVELS :: f in after[l] <==> f in levels[l]
  {
    forall f
      ensures f in after[0] <==> f in levels[0] || f in files
    {
      AtMembers(0, files, 0, f);
      assert (0, f.number) !in edit.deletedFiles;
    }
    forall l, f | 1 <= l < NUM_LEVELS
      ensures f in after[l] <==> f in levels[l]
    {
      AtMembers(0, files, l, f);
      assert (l, f.number) !in edit.deletedFiles;
    }
  }

  lemma RecoveredEntries(levels: seq<Level>, after: seq<Level>, files: Level)
    requires |levels| == |after| == NUM_LEVELS
    requires forall f :: f in after[0] <==> f in levels[0] || f in files
    requires forall l, f | 1 <= l < NUM_LEVELS :: f in after[l] <==> f in levels[l]
    ensures AllEntries(after) == AllEntries(levels) + Entries(files)
  {
    forall e
      ensures e in AllEntries(after) <==> e in AllEntries(levels) + Entries(files)
    {
      if e in AllEntries(after) {
        var l :| 0 <= l < |after| && e in Entries(after[l]);
        var f :| f in after[l] && e in f.entries;
        if f in levels[l] { assert e in Entries(levels[l]); }
      }
      if e in AllEntries(levels) {
        var l :| 0 <= l < |levels| && e in Entries(levels[l]);
        var f :| f in levels[l] && e in f.entries;
        assert f in after[l] && e in Entries(after[l]);
      }
      if e in Entries(files) {
        var f :| f in files && e in f.entries;
        assert f in after[0] && e in Entries(after[0]);
      }
    }
  }

  lemma RecoveredNewer(levels: seq<Level>, files: Level, f: FileMetaData, l: nat, g: FileMetaData)
    requires NewerThanAll(Entries(files), levels) && f in files && l < |levels| && g in levels[l]
    ensures NewerThan(f, g)
  {
    forall d, e | d in f.entries && e in g.entries && d.key.user == e.key.user
      ensures e.key.seqno < d.key.seqno
    {
      assert d in Entries(files) && e in Entries(levels[l]);
    }
  }

  lemma RecoveredRecency(levels: seq<Level>, files: Level, level0: Level, lo: nat, hi: nat)
    requires |levels| == NUM_LEVELS && RecencyByNumber(levels[0]) && NumbersBelow(levels, lo)
    requires NewerThanAll(Entries(files), levels) && RecoveredNumbers(files, lo, hi) && LaterIsNewer(files)
    requires forall f :: f in level0 <==> f in levels[0] || f in files
    ensures RecencyByNumber(level0)
  {
    forall f, g | f in level0 && g in level0
      ensures f.number == g.number ==> f == g
      ensures g.number < f.number ==> NewerThan(f, g)
    {
      if f in files && g in files {
        var i :| 0 <= i < |files| && files[i] == f;
        var j :| 0 <= j < |files| && files[j] == g;
      } else if f in files {
        RecoveredNewer(levels, files, f, 0, g);
      }
    }
  }

  lemma RecoveredLsm(levels: seq<Level>, files: Level, after: seq<Level>, lo: nat, hi: nat)
    requires FilesOk(levels) && AllValid(files) && NumbersBelow(levels, lo)
    requires NewerThanAll(Entries(files), levels) && UniqueVersions(AllEntries(levels) + Entries(files))
    requires RecoveredNumbers(files, lo, hi) && LaterIsNewer(files)
    requires |after| == NUM_LEVELS && forall l | 0 <= l < NUM_LEVELS :: FileSorted(after[l])
    requires forall f :: f in after[0] <==> f in levels[0] || f in files
    requires forall l, f | 1 <= l < NUM_LEVELS :: f in after[l] <==> f in levels[l]
    ensures Lsm(after) && AllEntries(after) == AllEntries(levels) + Entries(files)
  {
    RecoveredEntries(levels, after, files);
    RecoveredRecency(levels, files, after[0], lo, hi);
    forall l | 0 <= l < NUM_LEVELS
      ensures AllValid(after[l]) && (0 < l ==> Ordered(after[l]))
    {
      RecoveredLevel(levels, files, after, l);
    }
    RecoveredLayers(levels, files, after);
  }

  lemma RecoveredLevel(levels: seq<Level>, files: Level, after: seq<Level>, l: nat)
    requires Lsm(levels) && AllValid(files) && |after| == NUM_LEVELS && l < NUM_LEVELS && FileSorted(after[l])
    requires forall f :: f in after[l] <==> f in levels[l] || (l == 0 && f in files)
    ensures AllValid(after[l]) && (0 < l ==> Ordered(after[l]))
  {
    assert AllValid(levels[l]);
    if 0 < l { SubLevelOrdered(levels[l], after[l]); }
  }

  lemma RecoveredLayers(levels: seq<Level>, files: Level, after: seq<Level>)
    requires Lsm(levels) && NewerThanAll(Entries(files), levels) && |after| == NUM_LEVELS
    requires forall f :: f in after[0] <==> f in levels[0] || f in files
    requires forall l, f | 1 <= l < NUM_LEVELS :: f in after[l] <==> f in levels[l]
    ensures forall l, m, f, g | 0 <= l < m < NUM_LEVELS && f in after[l] && g in after[m] :: NewerThan(f, g)
  {
    forall l, m, f, g | 0 <= l < m < NUM_LEVELS && f in after[l] && g in after[m]
      ensures NewerThan(f, g)
    {
      if f !in levels[l] { RecoveredNewer(levels, files, f, m, g); }
    }
  }

  // ----- the whole recovery -----

  lemma ReopenedMembers(d: Disk, levels: seq<Level>, files: Level, t: State)
    requires FilesOk(levels) && d.manifest != [] && NumbersBelow(levels, LastEdit(d).nextFileNumber)
    requires Reopened(d, levels, files, t)
    ensures Placeable([SnapshotEdit(levels, LastEdit(d))], levels, OpenEdit(files, t))
    ensures EditMembers(levels, t.levels, OpenEdit(files, t)) && UniqueNumbers(t.levels)
    ensures forall f :: f in t.levels[0] <==> f in levels[0] || f in files
    ensures forall l, f | 1 <= l < NUM_LEVELS :: f in t.levels[l] <==> f in levels[l]
  {
    var edit, manifest := OpenEdit(files, t), [SnapshotEdit(levels, LastEdit(d))];
    RecoveryPlaced(levels, LastEdit(d), files, edit, t.nextFile);
    VersionAfterEdit(manifest, levels, edit, t.levels);
    NumbersStayUnique(manifest, levels, edit, t.levels);
    RecoveredMembers(levels, t.levels, edit, files);
  }

  lemma ReopenedNumbers(levels: seq<Level>, files: Level, after: seq<Level>, lo: nat, hi: nat)
    requires NumbersBelow(levels, lo) && RecoveredNumbers(files, lo, hi) && lo <= hi && |after| == |levels| == NUM_LEVELS
    requires forall f :: f in after[0] <==> f in levels[0] || f in files
    requires forall l, f | 1 <= l < NUM_LEVELS :: f in after[l] <==> f in levels[l]
    ensures NumbersBelow(after, hi)
  {
  }

  lemma ReopenedTree(d: Disk, levels: seq<Level>, files: Level, t: State)
    requires FilesOk(levels) && Reopened(d, levels, files, t) && NumbersBelow(levels, LastEdit(d).nextFileNumber)
    requires NewerThanAll(Entries(files), levels) && UniqueVersions(AllEntries(levels) + Entries(files))
    ensures FilesOk(t.levels) && AllEntries(t.levels) == AllEntries(levels) + Entries(files)
  {
    ReopenedMembers(d, levels, files, t);
    RecoveredLsm(levels, files, t.levels, LastEdit(d).nextFileNumber, t.nextFile);
  }

  lemma ReopenedBelow(d: Disk, levels: seq<Level>, files: Level, t: State)
    requires FilesOk(levels) && Reopened(d, levels, files, t) && NumbersBelow(levels, LastEdit(d).nextFileNumber)
    ensures NumbersBelow(t.levels, t.nextFile)
  {
    ReopenedMembers(d, levels, files, t);
    ReopenedNumbers(levels, files, t.levels, LastEdit(d).nextFileNumber, t.nextFile);
  }

  lemma ReopenedFiles(d: Disk, levels: seq<Level>, files: Level, t: State)
    requires FilesOk(levels) && Describes(d.manifest, levels) && Reopened(d, levels, files, t)
    requires NewerThanAll(Entries(files), levels) && UniqueVersions(AllEntries(levels) + Entries(files))
    ensures FilesOk(t.levels) && AllEntries(t.levels) == AllEntries(levels) + Entries(files)
    ensures NumbersBelow(t.levels, t.nextFile)
  {
    ReopenedTree(d, levels, files, t);
    ReopenedBelow(d, levels, files, t);
  }

  lemma ReopenedDescribes(d: Disk, levels: seq<Level>, files: Level, t: State, manifest: seq<VersionEdit>)
    requires FilesOk(levels) && d.manifest != [] && NumbersBelow(levels, LastEdit(d).nextFileNumber)
    requires Reopened(d, levels, files, t) && NumbersBelow(t.levels, t.nextFile)
    requires manifest == [SnapshotEdit(levels, LastEdit(d))] && Describes(manifest, levels)
    ensures Describes(manifest + [OpenEdit(files, t)], t.levels)
  {
    ReopenedMembers(d, levels, files, t);
    DescribesGrows(manifest, levels, OpenEdit(files, t), t.levels);
  }

  lemma ReopenedManifest(d: Disk, levels: seq<Level>, files: Level, t: State)
    requires FilesOk(levels) && Describes(d.manifest, levels) && Reopened(d, levels, files, t)
    requires NumbersBelow(t.levels, t.nextFile)
    ensures Describes(t.disk.manifest, t.levels)
  {
    var manifest := [SnapshotEdit(levels, LastEdit(d))];
    assert t.disk.manifest == manifest + [OpenEdit(files, t)];
    SnapshotDescribes(levels, LastEdit(d));
    ReopenedDescribes(d, levels, files, t, manifest);
  }

  lemma ReopenedNames(d: Disk, levels: seq<Level>, files: Level, t: State)
    requires d.manifest != [] && NumbersBelow(levels, LastEdit(d).nextFileNumber) && Reopened(d, levels, files, t)
    ensures NamesBelow(t.disk.manifest, t.nextFile)
  {
    var snapshot, edit := SnapshotEdit(levels, LastEdit(d)), OpenEdit(files, t);
    forall p | p in snapshot.newFiles
      ensures p.1.number < t.nextFile
    {
      LevelFilesMembers(levels, |levels|, p.0, p.1);
    }
    forall p | p in edit.newFiles
      ensures p.1.number < t.nextFile
    {
      AtMembers(0, files, p.0, p.1);
    }
  }

  lemma ReopenedTables(d: Disk, levels: seq<Level>, files: Level, t: State)
    requires FilesOk(levels) && d.manifest != [] && NumbersBelow(levels, LastEdit(d).nextFileNumber)
    requires Stored(d.tables, levels) && Reopened(d, levels, files, t)
    ensures Stored(t.disk.tables, t.levels)
  {
    ReopenedMembers(d, levels, files, t);
    TablesStay(d.tables, t.disk.tables, files, levels, LastEdit(d).nextFileNumber, t.nextFile);
    forall l, f | 0 <= l < |t.levels| && f in t.levels[l]
      ensures f.number in t.disk.tables && t.disk.tables[f.number] == f.entries
    {
      if f !in levels[l] { assert f in files; }
    }
  }

  lemma SameLastSequence(mem: set<Entry>, recorded: nat, last: nat, m: nat)
    requires SequenceKept(recorded, last, mem) && UpTo(mem, last) && IsMaxSequence(mem, recorded, m)
    ensures m == last
  {
  }

  lemma FreshLog(logs: map<nat, seq<Entry>>, n: nat)
    requires forall m | m in logs :: m <= n
    ensures LogsOk(logs[n := []], n, n, {}, {})
  {
    assert Contents([]) == {};
  }

  lemma OlderLogs(logs: map<nat, seq<Entry>>, logNumber: nat, n: nat)
    requires forall m | m in logs && logNumber <= m :: m < n
    requires logs == map[] || exists m | m in logs :: logNumber <= m
    ensures forall m | m in logs :: m <= n
  {
  }

  lemma EmptyMemory(files: set<Entry>)
    requires UniqueVersions(files)
    ensures MemLayers([], [], files)
  {
    assert Contents([]) == {};
    assert {} + {} + files == files;
  }

  lemma RecoversIsReopened(d: Disk, base: seq<Level>, files: Level, t: State, levels: seq<Level>)
    requires Recovers(d, base, files, t) && Describes(d.manifest, levels)
    ensures base == levels && Reopened(d, levels, files, t)
    ensures Entries(files) == LiveLogEntries(d.logs, LastEdit(d).logNumber)
    ensures IsMaxSequence(Entries(files), LastEdit(d).lastSequence, t.lastSequence)
  {
    ReplayedBase(d.manifest, levels, base);
  }

  lemma RecoveredLogged(d: Disk, base: seq<Level>, files: Level, t: State)
    requires Recovers(d, base, files, t)
    requires d.logs == map[] || exists n | n in d.logs :: LastEdit(d).logNumber <= n
    ensures Logged(t)
  {
    OlderLogs(d.logs, LastEdit(d).logNumber, t.logNumber);
    FreshLog(d.logs, t.logNumber);
    assert Contents(t.mem) == {} && Contents(ImmEntries(t)) == {};
  }

  /** Main result: whatever was durable when the crash came is exactly what readers see after DB::Open. */
  lemma RecoveryRestores(d: Disk, levels: seq<Level>, mem: set<Entry>, last: nat, base: seq<Level>, files: Level, t: State)
    requires Durable(d, levels, mem, last) && Recovers(d, base, files, t)
    ensures Inv(t)
    ensures All(t) == mem + AllEntries(levels) && t.lastSequence == last
  {
    RecoversIsReopened(d, base, files, t, levels);
    SameLastSequence(mem, LastEdit(d).lastSequence, last, t.lastSequence);
    ReopenedFiles(d, levels, files, t);
    ReopenedManifest(d, levels, files, t);
    ReopenedNames(d, levels, files, t);
    ReopenedTables(d, levels, files, t);
    RecoveredLogged(d, base, files, t);
    RecoveredMemory(levels, mem, last, t);
    RecoveredRecorded(d, base, files, t);
  }

  lemma RecoveredMemory(levels: seq<Level>, mem: set<Entry>, last: nat, t: State)
    requires UniqueVersions(AllEntries(levels) + mem) && UpTo(mem, last) && UpTo(AllEntries(levels), last)
    requires AllEntries(t.levels) == AllEntries(levels) + mem
    requires t.mem == [] && t.imm == None && t.lastSequence == last
    ensures MemLayers(t.mem, ImmEntries(t), AllEntries(t.levels))
    ensures All(t) == mem + AllEntries(levels) && UpTo(All(t), last)
  {
    EmptyMemory(AllEntries(t.levels));
    assert Contents([]) == {};
    assert All(t) == mem + AllEntries(levels);
    UpToUnion(mem, AllEntries(levels), last);
  }

  lemma RecoveredRecorded(d: Disk, base: seq<Level>, files: Level, t: State)
    requires Recovers(d, base, files, t) && Describes(t.disk.manifest, t.levels) && NamesBelow(t.disk.manifest, t.nextFile)
    ensures Recorded(t)
  {
    assert t.disk.manifest[|t.disk.manifest| - 1] == OpenEdit(files, t);
  }
}
