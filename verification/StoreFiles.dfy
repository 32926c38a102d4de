/** Steps that change the set of files: what an installed edit does to the levels and to the manifest. */
module StoreFiles {
  import opened DbFormat
  import opened Version
  import opened Inputs
  import opened VersionEdits
  import opened LsmSteps
  import opened Store

  // ----- placing new files -----

  ghost predicate DistinctNumbers(newFiles: seq<(nat, FileMetaData)>) {
    forall i, j | 0 <= i < j < |newFiles| :: newFiles[i].1.number != newFiles[j].1.number
  }

  /** A new file was never recorded at its level or deeper, and replaces any file of its number. */
  ghost predicate Placeable(manifest: seq<VersionEdit>, levels: seq<Level>, edit: VersionEdit) {
    && DistinctNumbers(edit.newFiles)
    && (forall p, i, q | p in edit.newFiles && 0 <= i < |manifest| && q in manifest[i].newFiles && q.1.number == p.1.number ::
          q.0 < p.0)
    && (forall p, l, f | p in edit.newFiles && 0 <= l < |levels| && f in levels[l] && f.number == p.1.number ::
          l < p.0 && (l, f.number) in edit.deletedFiles)
  }

  lemma {:induction false} AddedAtOnce(newFiles: seq<(nat, FileMetaData)>, l: nat)
    requires DistinctNumbers(newFiles)
    ensures NumbersOnce(AddedAt(newFiles, l))
  {
    if newFiles != [] {
      var n := |newFiles| - 1;
      AddedAtOnce(newFiles[..n], l);
      var front := AddedAt(newFiles[..n], l);
      forall i | 0 <= i < |front|
        ensures front[i].number != newFiles[n].1.number
      {
        assert front[i] in front && (l, front[i]) in newFiles[..n];
        var k :| 0 <= k < n && newFiles[..n][k] == (l, front[i]);
        assert newFiles[k].1.number != newFiles[n].1.number;
      }
    }
  }

  lemma AtMembers(level: nat, files: Level, l: nat, f: FileMetaData)
    ensures (l, f) in At(level, files) <==> l == level && f in files
  {
    if l == level && f in files {
      var i :| 0 <= i < |files| && files[i] == f;
      assert At(level, files)[i] == (l, f);
    }
  }

  /** One level after one edit. */
  lemma LevelAfterEdit(manifest: seq<VersionEdit>, levels: seq<Level>, edit: VersionEdit, l: nat)
    requires Placeable(manifest, levels, edit) && l < |levels| && FileSorted(levels[l])
    ensures FileSorted(StepFiles(levels[l], edit, l))
    ensures forall f :: f in StepFiles(levels[l], edit, l) <==>
                        (f in levels[l] && (l, f.number) !in edit.deletedFiles) || (l, f) in edit.newFiles
  {
    AddedAtOnce(edit.newFiles, l);
    StepMembers(levels[l], edit, l);
    var st := ApplyLevel(EMPTY_STATE, edit, l);
    SaveSorted(levels[l], st.addedFiles, st.deletedFiles);
  }

  /** The whole version after one edit. */
  ghost predicate EditMembers(before: seq<Level>, after: seq<Level>, edit: VersionEdit) {
    && |before| == |after| == NUM_LEVELS
    && (forall l | 0 <= l < NUM_LEVELS :: FileSorted(after[l]))
    && (forall l, f | 0 <= l < NUM_LEVELS ::
          f in after[l] <==> (f in before[l] && (l, f.number) !in edit.deletedFiles) || (l, f) in edit.newFiles)
  }

  lemma VersionAfterEdit(manifest: seq<VersionEdit>, before: seq<Level>, edit: VersionEdit, after: seq<Level>)
    requires Placeable(manifest, before, edit) && EditApplied(before, after, edit)
    requires forall l | 0 <= l < NUM_LEVELS :: FileSorted(before[l])
    ensures EditMembers(before, after, edit)
  {
    forall l | 0 <= l < NUM_LEVELS
      ensures FileSorted(after[l])
      ensures forall f :: f in after[l] <==> (f in before[l] && (l, f.number) !in edit.deletedFiles) || (l, f) in edit.newFiles
    {
      LevelAfterEdit(manifest, before, edit, l);
    }
  }

  lemma OneFilePerNumber(newFiles: seq<(nat, FileMetaData)>, p: (nat, FileMetaData), q: (nat, FileMetaData))
    requires DistinctNumbers(newFiles) && p in newFiles && q in newFiles && p.1.number == q.1.number
    ensures p == q
  {
    var i :| 0 <= i < |newFiles| && newFiles[i] == p;
    var j :| 0 <= j < |newFiles| && newFiles[j] == q;
  }

  lemma NumbersStayUnique(manifest: seq<VersionEdit>, before: seq<Level>, edit: VersionEdit, after: seq<Level>)
    requires Placeable(manifest, before, edit) && EditMembers(before, after, edit) && UniqueNumbers(before)
    ensures UniqueNumbers(after)
  {
    forall l, m, f, g | 0 <= l < |after| && 0 <= m < |after| && f in after[l] && g in after[m] && f.number == g.number
      ensures l == m && f == g
    {
      if (l, f) in edit.newFiles && (m, g) in edit.newFiles {
        OneFilePerNumber(edit.newFiles, (l, f), (m, g));
      }
    }
  }

  // ----- the manifest -----

  lemma {:induction false} CollectedFrom(manifest: seq<VersionEdit>, l: nat, f: FileMetaData)
    requires f in Collected(manifest, l).addedFiles
    ensures exists i :: 0 <= i < |manifest| && (l, f) in manifest[i].newFiles
  {
    var front, last := manifest[..|manifest| - 1], manifest[|manifest| - 1];
    InsertAllFrom(Collected(front, l).addedFiles, AddedAt(last.newFiles, l));
    if f in Collected(front, l).addedFiles {
      CollectedFrom(front, l, f);
      var i :| 0 <= i < |front| && (l, f) in front[i].newFiles;
      assert (l, f) in manifest[i].newFiles;
    }
  }

  lemma ManifestGrows(manifest: seq<VersionEdit>, before: seq<Level>, edit: VersionEdit, after: seq<Level>, l: nat)
    requires Placeable(manifest, before, edit) && FreshAdds([], manifest, l)
    ensures FreshAdds([], manifest + [edit], l)
    ensures OneByOne([], manifest + [edit], l) == StepFiles(OneByOne([], manifest, l), edit, l)
  {
    var longer := manifest + [edit];
    assert longer[..|longer| - 1] == manifest;
    AddedAtOnce(edit.newFiles, l);
    forall f, g | f in Collected(manifest, l).addedFiles && g in AddedAt(edit.newFiles, l)
      ensures f.number != g.number
    {
      CollectedFrom(manifest, l, f);
    }
  }

  lemma NeverDeeperGrows(manifest: seq<VersionEdit>, before: seq<Level>, edit: VersionEdit, after: seq<Level>)
    requires Placeable(manifest, before, edit) && EditMembers(before, after, edit) && NeverDeeper(manifest, before)
    ensures NeverDeeper(manifest + [edit], after)
  {
    var longer := manifest + [edit];
    forall i, p, l, f | 0 <= i < |longer| && p in longer[i].newFiles && 0 <= l < |after| && f in after[l] && l < p.0
      ensures p.1.number != f.number
    {
      if (l, f) in edit.newFiles && i == |manifest| && p.1.number == f.number {
        OneFilePerNumber(edit.newFiles, (l, f), p);
      }
    }
  }

  /** Main result of this part: an installed edit leaves a manifest that still describes the version. */
  lemma DescribesGrows(manifest: seq<VersionEdit>, before: seq<Level>, edit: VersionEdit, after: seq<Level>)
    requires Describes(manifest, before) && Placeable(manifest, before, edit)
    requires EditApplied(before, after, edit) && EditMembers(before, after, edit)
    requires NumbersBelow(after, edit.nextFileNumber)
    ensures Describes(manifest + [edit], after)
  {
    forall l | 0 <= l < NUM_LEVELS
      ensures FreshAdds([], manifest + [edit], l) && after[l] == OneByOne([], manifest + [edit], l)
    {
      ManifestGrows(manifest, before, edit, after, l);
    }
    NeverDeeperGrows(manifest, before, edit, after);
  }

  // ----- what every installed edit keeps -----

  /** Every new file is written now or was in the version before. */
  ghost predicate NewOrMoved(before: seq<Level>, edit: VersionEdit, written: Level) {
    forall p | p in edit.newFiles :: p.0 < NUM_LEVELS && (p.1 in written || exists l :: 0 <= l < |before| && p.1 in before[l])
  }

  ghost predicate FreshNumbers(written: Level, lo: nat, hi: nat) {
    forall f | f in written :: lo <= f.number < hi
  }

  lemma TablesStay(before: map<nat, seq<Entry>>, after: map<nat, seq<Entry>>, written: Level, levels: seq<Level>, lo: nat, hi: nat)
    requires TablesWritten(before, after, written) && FreshNumbers(written, lo, hi)
    requires Stored(before, levels) && NumbersBelow(levels, lo)
    ensures Stored(after, levels)
  {
    forall l, f | 0 <= l < |levels| && f in levels[l]
      ensures f.number in after && after[f.number] == f.entries
    {
      assert f.number !in Numbers(written);
    }
  }

  lemma NewLevelsStored(before: seq<Level>, edit: VersionEdit, written: Level, after: seq<Level>, tables: map<nat, seq<Entry>>)
    requires EditMembers(before, after, edit) && NewOrMoved(before, edit, written)
    requires Stored(tables, before) && forall f | f in written :: f.number in tables && tables[f.number] == f.entries
    ensures Stored(tables, after)
  {
    forall l, f | 0 <= l < |after| && f in after[l]
      ensures f.number in tables && tables[f.number] == f.entries
    {
      if (l, f) in edit.newFiles && f !in written {
        var m :| 0 <= m < |before| && (l, f).1 in before[m];
      }
    }
  }

  lemma NewLevelsNumbered(before: seq<Level>, edit: VersionEdit, written: Level, after: seq<Level>, lo: nat, hi: nat)
    requires EditMembers(before, after, edit) && NewOrMoved(before, edit, written)
    requires NumbersBelow(before, lo) && FreshNumbers(written, lo, hi) && lo <= hi
    ensures NumbersBelow(after, hi)
  {
    forall l, f | 0 <= l < |after| && f in after[l]
      ensures f.number < hi
    {
      if (l, f) in edit.newFiles && f !in written {
        var m :| 0 <= m < |before| && (l, f).1 in before[m];
      }
    }
  }

  lemma NamesGrow(manifest: seq<VersionEdit>, before: seq<Level>, edit: VersionEdit, written: Level, lo: nat, hi: nat)
    requires NamesBelow(manifest, lo) && NewOrMoved(before, edit, written)
    requires NumbersBelow(before, lo) && FreshNumbers(written, lo, hi) && lo <= hi
    ensures NamesBelow(manifest + [edit], hi)
  {
    var longer := manifest + [edit];
    forall i, p | 0 <= i < |longer| && p in longer[i].newFiles
      ensures p.1.number < hi
    {
      if i == |manifest| && p.1 !in written {
        var m :| 0 <= m < |before| && p.1 in before[m];
      }
    }
  }

  /** A step that installs `edit`: everything its proof needs besides the invariant. */
  ghost predicate ProperInstall(s: State, edit: VersionEdit, written: Level, t: State) {
    && Installed(s, edit, written, t)
    && Placeable(s.disk.manifest, s.levels, edit)
    && EditMembers(s.levels, t.levels, edit)
    && NewOrMoved(s.levels, edit, written)
    && FreshNumbers(written, s.nextFile, t.nextFile) && s.nextFile <= t.nextFile
  }

  lemma InstallRecorded(s: State, edit: VersionEdit, written: Level, t: State)
    requires ProperInstall(s, edit, written, t)
    requires Describes(s.disk.manifest, s.levels) && NamesBelow(s.disk.manifest, s.nextFile) && NumbersBelow(s.levels, s.nextFile)
    ensures Recorded(t) && NumbersBelow(t.levels, t.nextFile)
  {
    NewLevelsNumbered(s.levels, edit, written, t.levels, s.nextFile, t.nextFile);
    DescribesGrows(s.disk.manifest, s.levels, edit, t.levels);
    NamesGrow(s.disk.manifest, s.levels, edit, written, s.nextFile, t.nextFile);
    assert t.disk.manifest[|t.disk.manifest| - 1] == edit;
  }

  lemma InstallStored(s: State, edit: VersionEdit, written: Level, t: State)
    requires ProperInstall(s, edit, written, t)
    requires Stored(s.disk.tables, s.levels) && NumbersBelow(s.levels, s.nextFile) && PinnedOk(s)
    ensures Stored(t.disk.tables, t.levels) && PinnedOk(t)
  {
    TablesStay(s.disk.tables, t.disk.tables, written, s.levels, s.nextFile, t.nextFile);
    NewLevelsStored(s.levels, edit, written, t.levels, t.disk.tables);
    forall i | 0 <= i < |t.pinned|
      ensures Stored(t.disk.tables, t.pinned[i]) && NumbersBelow(t.pinned[i], t.nextFile)
    {
      TablesStay(s.disk.tables, t.disk.tables, written, s.pinned[i], s.nextFile, t.nextFile);
    }
  }
}
