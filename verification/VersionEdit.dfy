/** Edits to the set of files, and the Builder that applies them (db/version_edit.h, db/version_set.cc Builder). */
module VersionEdits {
  import opened DbFormat
  import opened Version

  datatype VersionEdit = VersionEdit(deletedFiles: set<(nat, nat)>, newFiles: seq<(nat, FileMetaData)>,
                                     logNumber: nat, nextFileNumber: nat, lastSequence: nat)

  // ----- the order of files on a level -----

  /** BySmallestKey: smallest key, ties by file number. */
  predicate FileLess(f: FileMetaData, g: FileMetaData) {
    Less(f.smallest, g.smallest) || (f.smallest == g.smallest && f.number < g.number)
  }

  ghost predicate FileSorted(files: Level) {
    forall i, j | 0 <= i < j < |files| :: FileLess(files[i], files[j])
  }

  /** std::set insertion: nothing happens when an equivalent file is there. */
  function InsertFile(files: Level, f: FileMetaData): (r: Level)
    ensures f in r || exists g | g in files :: !FileLess(f, g) && !FileLess(g, f)
    ensures forall g :: g in files ==> g in r
    ensures forall g :: g in r ==> g in files || g == f
  {
    if files == [] then [f]
    else if FileLess(f, files[0]) then [f] + files
    else if FileLess(files[0], f) then
      assert files == [files[0]] + files[1..];
      [files[0]] + InsertFile(files[1..], f)
    else files
  }

  function InsertAll(files: Level, fs: Level): Level {
    if fs == [] then files else InsertFile(InsertAll(files, fs[..|fs| - 1]), fs[|fs| - 1])
  }

  function Survivors(files: Level, deleted: set<nat>): (r: Level)
    ensures forall f :: f in r <==> f in files && f.number !in deleted
  {
    if files == [] then []
    else
      assert files == files[..|files| - 1] + [files[|files| - 1]];
      Survivors(files[..|files| - 1], deleted)
      + if files[|files| - 1].number in deleted then [] else [files[|files| - 1]]
  }

  /** What SaveTo makes of one level. */
  function Save(base: Level, added: Level, deleted: set<nat>): Level {
    Survivors(InsertAll(base, added), deleted)
  }

  lemma {:induction false} InsertKeepsSorted(files: Level, f: FileMetaData)
    requires FileSorted(files)
    ensures FileSorted(InsertFile(files, f))
  {
    if files != [] && FileLess(files[0], f) {
      InsertKeepsSorted(files[1..], f);
      var rest := InsertFile(files[1..], f);
      forall j | 0 <= j < |rest|
        ensures FileLess(files[0], rest[j])
      {
        assert rest[j] in rest;
      }
    }
  }

  lemma {:induction false} InsertAllSorted(files: Level, fs: Level)
    requires FileSorted(files)
    ensures FileSorted(InsertAll(files, fs))
  {
    if fs != [] {
      InsertAllSorted(files, fs[..|fs| - 1]);
      InsertKeepsSorted(InsertAll(files, fs[..|fs| - 1]), fs[|fs| - 1]);
    }
  }

  lemma {:induction false} SurvivorsSorted(files: Level, deleted: set<nat>)
    requires FileSorted(files)
    ensures FileSorted(Survivors(files, deleted))
  {
    if files != [] {
      var n := |files| - 1;
      SurvivorsSorted(files[..n], deleted);
      var front := Survivors(files[..n], deleted);
      forall j | 0 <= j < |front|
        ensures FileLess(front[j], files[n])
      {
        assert front[j] in front;
      }
    }
  }

  /** No two files of the list share a number. */
  ghost predicate NumbersOnce(files: Level) {
    forall i, j | 0 <= i < j < |files| :: files[i].number != files[j].number
  }

  /** No file of `fs` carries a number some file of `files` carries. */
  ghost predicate NumbersApart(files: Level, fs: Level) {
    forall f, g | f in files && g in fs :: f.number != g.number
  }

  lemma {:induction false} InsertAllMembers(files: Level, fs: Level)
    requires NumbersApart(files, fs) && NumbersOnce(fs)
    ensures forall f :: f in InsertAll(files, fs) <==> f in files || f in fs
  {
    if fs != [] {
      var n := |fs| - 1;
      InsertAllMembers(files, fs[..n]);
      assert fs == fs[..n] + [fs[n]];
      var before := InsertAll(files, fs[..n]);
      assert forall g | g in before :: g.number != fs[n].number;
    }
  }

  /** A sorted list is determined by its members. */
  lemma {:induction false} SortedListsAgree(a: Level, b: Level)
    requires FileSorted(a) && FileSorted(b)
    requires forall f :: f in a <==> f in b
    ensures a == b
  {
    NonEmptyHasMember(a);
    NonEmptyHasMember(b);
    if a != [] && b != [] {
      assert forall j | 0 < j < |a| :: FileLess(a[0], a[j]);
      assert forall j | 0 < j < |b| :: FileLess(b[0], b[j]);
      assert b[0] in a && a[0] in b;
      forall f
        ensures f in a[1..] <==> f in b[1..]
      {
        HeadAndTail(a, f);
        HeadAndTail(b, f);
      }
      SortedListsAgree(a[1..], b[1..]);
    }
  }

  lemma NonEmptyHasMember(a: Level)
    ensures a == [] <==> forall f :: f !in a
  {
    if a != [] { assert a[0] in a; }
  }

  lemma HeadAndTail(a: Level, f: FileMetaData)
    requires FileSorted(a) && a != []
    ensures f in a[1..] <==> f in a && f != a[0]
  {
    assert a == [a[0]] + a[1..];
    assert forall j | 0 < j < |a| :: FileLess(a[0], a[j]);
  }

  // ----- the Builder -----

  ghost predicate Equivalent(f: FileMetaData, g: FileMetaData) {
    !FileLess(f, g) && !FileLess(g, f)
  }

  /** No file of `added` is equivalent to a file of `base`. */
  ghost predicate NoClash(base: Level, added: Level) {
    forall f, g | f in base && g in added :: !Equivalent(f, g)
  }

  lemma {:induction false} InsertAllMembersNoClash(base: Level, added: Level)
    requires FileSorted(added) && NoClash(base, added)
    ensures forall f :: f in InsertAll(base, added) <==> f in base || f in added
  {
    if added != [] {
      var n := |added| - 1;
      InsertAllMembersNoClash(base, added[..n]);
      assert added == added[..n] + [added[n]];
      assert forall g | g in added[..n] :: FileLess(g, added[n]);
    }
  }

  lemma FileLessTransitive(f: FileMetaData, g: FileMetaData, h: FileMetaData)
    requires FileLess(f, g) && FileLess(g, h)
    ensures FileLess(f, h)
  {
  }

  lemma FileLessTotal(f: FileMetaData, g: FileMetaData)
    requires !Equivalent(f, g)
    ensures FileLess(f, g) != FileLess(g, f)
  {
  }

  /** The merge so far: `b` old and `a` added files taken, the rest all larger. */
  ghost predicate Merged(base: Level, b: nat, added: Level, a: nat, deleted: set<nat>, v: Level) {
    && b <= |base| && a <= |added|
    && FileSorted(v)
    && (forall f :: f in v <==> (f in base[..b] || f in added[..a]) && f.number !in deleted)
    && (forall f, j | f in v && b <= j < |base| :: FileLess(f, base[j]))
    && (forall f, j | f in v && a <= j < |added| :: FileLess(f, added[j]))
  }

  function MaybeAddFile(v: Level, deleted: set<nat>, f: FileMetaData): Level {
    if f.number in deleted then v else v + [f]
  }

  lemma TakeBase(base: Level, b: nat, added: Level, a: nat, deleted: set<nat>, v: Level)
    requires FileSorted(base) && FileSorted(added) && NoClash(base, added)
    requires Merged(base, b, added, a, deleted, v) && b < |base|
    requires a < |added| ==> !FileLess(added[a], base[b])
    ensures Merged(base, b + 1, added, a, deleted, MaybeAddFile(v, deleted, base[b]))
  {
    assert base[..b + 1] == base[..b] + [base[b]];
    forall j | a <= j < |added|
      ensures FileLess(base[b], added[j])
    {
      assert base[b] in base && added[a] in added;
      FileLessTotal(base[b], added[a]);
      if a < j { FileLessTransitive(base[b], added[a], added[j]); }
    }
  }

  lemma {:induction false} TakeAdded(base: Level, b: nat, added: Level, a: nat, deleted: set<nat>, v: Level)
    requires FileSorted(base) && FileSorted(added) && NoClash(base, added)
    requires Merged(base, b, added, a, deleted, v) && a < |added|
    requires b < |base| ==> FileLess(added[a], base[b])
    ensures Merged(base, b, added, a + 1, deleted, MaybeAddFile(v, deleted, added[a]))
  {
    assert added[..a + 1] == added[..a] + [added[a]];
    forall j | b <= j < |base|
      ensures FileLess(added[a], base[j])
    {
      if b < j { FileLessTransitive(added[a], base[b], base[j]); }
    }
  }

  /** One level of SaveTo: merge the added files into the old ones, skipping the deleted. */
  method SaveLevel(base: Level, added: Level, deleted: set<nat>) returns (v: Level)
    requires FileSorted(base) && FileSorted(added) && NoClash(base, added)
    ensures v == Save(base, added, deleted)
  {
    v := [];
    var b := 0;
    for a := 0 to |added|
      invariant Merged(base, b, added, a, deleted, v)
    {
      while b < |base| && !FileLess(added[a], base[b])
        invariant Merged(base, b, added, a, deleted, v)
      {
        TakeBase(base, b, added, a, deleted, v);
        v := MaybeAddFile(v, deleted, base[b]);
        b := b + 1;
      }
      TakeAdded(base, b, added, a, deleted, v);
      v := MaybeAddFile(v, deleted, added[a]);
    }
    while b < |base|
      invariant Merged(base, b, added, |added|, deleted, v)
    {
      TakeBase(base, b, added, |added|, deleted, v);
      v := MaybeAddFile(v, deleted, base[b]);
      b := b + 1;
    }
    assert base[..b] == base && added[..|added|] == added;
    InsertAllMembersNoClash(base, added);
    InsertAllSorted(base, added);
    SurvivorsSorted(InsertAll(base, added), deleted);
    SortedListsAgree(v, Save(base, added, deleted));
  }

  /** What the Builder has collected for one level. */
  datatype LevelState = LevelState(deletedFiles: set<nat>, addedFiles: Level)

  function AddedAt(newFiles: seq<(nat, FileMetaData)>, l: nat): (r: Level)
    ensures forall f :: f in r <==> (l, f) in newFiles
  {
    if newFiles == [] then []
    else
      var n := |newFiles| - 1;
      assert newFiles == newFiles[..n] + [newFiles[n]];
      AddedAt(newFiles[..n], l) + if newFiles[n].0 == l then [newFiles[n].1] else []
  }

  function Numbers(files: Level): set<nat> {
    set f | f in files :: f.number
  }

  function DeleteAt(st: LevelState, deletedFiles: set<(nat, nat)>, l: nat): LevelState {
    st.(deletedFiles := st.deletedFiles + set p | p in deletedFiles && p.0 == l :: p.1)
  }

  /** Each new file also undoes a deletion of its number. */
  function AddAt(st: LevelState, newFiles: seq<(nat, FileMetaData)>, l: nat): LevelState {
    var added := AddedAt(newFiles, l);
    LevelState(st.deletedFiles - Numbers(added), InsertAll(st.addedFiles, added))
  }

  function AddOne(st: LevelState, p: (nat, FileMetaData), l: nat): LevelState {
    if p.0 == l then LevelState(st.deletedFiles - {p.1.number}, InsertFile(st.addedFiles, p.1)) else st
  }

  lemma {:induction false} AddAtStep(st: LevelState, newFiles: seq<(nat, FileMetaData)>, i: nat, l: nat)
    requires i < |newFiles|
    ensures AddAt(st, newFiles[..i + 1], l) == AddOne(AddAt(st, newFiles[..i], l), newFiles[i], l)
  {
    assert newFiles[..i + 1][..i] == newFiles[..i];
    var front, all := AddedAt(newFiles[..i], l), AddedAt(newFiles[..i + 1], l);
    if newFiles[i].0 == l {
      assert all == front + [newFiles[i].1] && all[..|all| - 1] == front;
      assert Numbers(all) == Numbers(front) + {newFiles[i].1.number};
      assert st.deletedFiles - Numbers(all) == st.deletedFiles - Numbers(front) - {newFiles[i].1.number};
    } else {
      assert all == front;
    }
  }

  /** Apply, seen from one level: deletions first, then the new files. */
  function ApplyLevel(st: LevelState, edit: VersionEdit, l: nat): LevelState {
    AddAt(DeleteAt(st, edit.deletedFiles, l), edit.newFiles, l)
  }

  class Builder {
    const base: seq<Level>
    var levels: seq<LevelState>

    constructor (base: seq<Level>)
      requires |base| == NUM_LEVELS
      ensures this.base == base && levels == seq(NUM_LEVELS, _ => LevelState({}, []))
    {
      this.base := base;
      levels := seq(NUM_LEVELS, _ => LevelState({}, []));
    }

    method Apply(edit: VersionEdit)
      requires |levels| == NUM_LEVELS
      requires forall p | p in edit.deletedFiles :: p.0 < NUM_LEVELS
      requires forall p | p in edit.newFiles :: p.0 < NUM_LEVELS
      modifies this
      ensures |levels| == NUM_LEVELS
      ensures forall l | 0 <= l < NUM_LEVELS :: levels[l] == ApplyLevel(old(levels[l]), edit, l)
    {
      DeleteFiles(edit.deletedFiles);
      AddFiles(edit.newFiles);
    }

    method DeleteFiles(deletedFiles: set<(nat, nat)>)
      requires |levels| == NUM_LEVELS
      requires forall p | p in deletedFiles :: p.0 < NUM_LEVELS
      modifies this
      ensures |levels| == NUM_LEVELS
      ensures forall l | 0 <= l < NUM_LEVELS :: levels[l] == DeleteAt(old(levels[l]), deletedFiles, l)
    {
      var rest := deletedFiles;
      while rest != {}
        invariant |levels| == NUM_LEVELS && rest <= deletedFiles
        invariant forall l | 0 <= l < NUM_LEVELS :: levels[l] == DeleteAt(old(levels[l]), deletedFiles - rest, l)
        decreases rest
      {
        var p :| p in rest;
        assert deletedFiles - (rest - {p}) == (deletedFiles - rest) + {p};
        var lvl := levels[p.0];
        levels := levels[p.0 := lvl.(deletedFiles := lvl.deletedFiles + {p.1})];
        rest := rest - {p};
      }
      assert deletedFiles - {} == deletedFiles;
    }

    method AddFiles(newFiles: seq<(nat, FileMetaData)>)
      requires |levels| == NUM_LEVELS
      requires forall p | p in newFiles :: p.0 < NUM_LEVELS
      modifies this
      ensures |levels| == NUM_LEVELS
      ensures forall l | 0 <= l < NUM_LEVELS :: levels[l] == AddAt(old(levels[l]), newFiles, l)
    {
      for i := 0 to |newFiles|
        invariant |levels| == NUM_LEVELS
        invariant forall l | 0 <= l < NUM_LEVELS :: levels[l] == AddAt(old(levels[l]), newFiles[..i], l)
      {
        var (level, f) := newFiles[i];
        forall l | 0 <= l < NUM_LEVELS
          ensures AddAt(old(levels[l]), newFiles[..i + 1], l) == AddOne(levels[l], newFiles[i], l)
        {
          AddAtStep(old(levels[l]), newFiles, i, l);
        }
        levels := levels[level := LevelState(levels[level].deletedFiles - {f.number}, InsertFile(levels[level].addedFiles, f))];
      }
      assert newFiles[..|newFiles|] == newFiles;
    }

    method SaveTo() returns (v: seq<Level>)
      requires |levels| == NUM_LEVELS == |base|
      requires forall l | 0 <= l < NUM_LEVELS ::
        FileSorted(base[l]) && FileSorted(levels[l].addedFiles) && NoClash(base[l], levels[l].addedFiles)
      ensures |v| == NUM_LEVELS
      ensures forall l | 0 <= l < NUM_LEVELS :: v[l] == Save(base[l], levels[l].addedFiles, levels[l].deletedFiles)
    {
      v := [];
      for l := 0 to NUM_LEVELS
        invariant |v| == l
        invariant forall m | 0 <= m < l :: v[m] == Save(base[m], levels[m].addedFiles, levels[m].deletedFiles)
      {
        var files := SaveLevel(base[l], levels[l].addedFiles, levels[l].deletedFiles);
        v := v + [files];
      }
    }
  }

  // ----- replaying a manifest -----

  const EMPTY_STATE := LevelState({}, [])

  /** LogAndApply, seen from one level: a Builder of its own for each edit. */
  function StepFiles(files: Level, edit: VersionEdit, l: nat): Level {
    var st := ApplyLevel(EMPTY_STATE, edit, l);
    Save(files, st.addedFiles, st.deletedFiles)
  }

  function OneByOne(base: Level, edits: seq<VersionEdit>, l: nat): Level {
    if edits == [] then base
    else StepFiles(OneByOne(base, edits[..|edits| - 1], l), edits[|edits| - 1], l)
  }

  /** Recover: all edits into one Builder. */
  function Collected(edits: seq<VersionEdit>, l: nat): LevelState {
    if edits == [] then EMPTY_STATE
    else ApplyLevel(Collected(edits[..|edits| - 1], l), edits[|edits| - 1], l)
  }

  function AllAtOnce(base: Level, edits: seq<VersionEdit>, l: nat): Level {
    var st := Collected(edits, l);
    Save(base, st.addedFiles, st.deletedFiles)
  }

  /** No edit adds to the level a number the level has held before. */
  ghost predicate FreshAdds(base: Level, edits: seq<VersionEdit>, l: nat) {
    edits == [] ||
    (&& FreshAdds(base, edits[..|edits| - 1], l)
     && FreshAdd(base, Collected(edits[..|edits| - 1], l).addedFiles, edits[|edits| - 1], l))
  }

  ghost predicate FreshAdd(base: Level, added: Level, edit: VersionEdit, l: nat) {
    var new' := AddedAt(edit.newFiles, l);
    NumbersOnce(new') && NumbersApart(base, new') && NumbersApart(added, new')
  }

  lemma {:induction false} CollectedSorted(edits: seq<VersionEdit>, l: nat)
    ensures FileSorted(Collected(edits, l).addedFiles)
  {
    if edits != [] {
      var front, last := edits[..|edits| - 1], edits[|edits| - 1];
      CollectedSorted(front, l);
      InsertAllSorted(Collected(front, l).addedFiles, AddedAt(last.newFiles, l));
    }
  }

  lemma SaveSorted(base: Level, added: Level, deleted: set<nat>)
    requires FileSorted(base)
    ensures FileSorted(Save(base, added, deleted))
  {
    InsertAllSorted(base, added);
    SurvivorsSorted(InsertAll(base, added), deleted);
  }

  /** One edit with fresh numbers: the deleted files go, the new ones come, nothing else changes. */
  lemma StepMembers(files: Level, edit: VersionEdit, l: nat)
    requires NumbersOnce(AddedAt(edit.newFiles, l)) && NumbersApart(files, AddedAt(edit.newFiles, l))
    ensures forall f :: f in StepFiles(files, edit, l) <==>
                        (f in files && (l, f.number) !in edit.deletedFiles) || (l, f) in edit.newFiles
  {
    var new' := AddedAt(edit.newFiles, l);
    var st := ApplyLevel(EMPTY_STATE, edit, l);
    InsertAllMembers([], new');
    AddedOnce(new', st.addedFiles);
    InsertAllMembers(files, st.addedFiles);
    forall f | f in files
      ensures f.number in st.deletedFiles <==> (l, f.number) in edit.deletedFiles
    {
    }
  }

  /** Sorting files with distinct numbers keeps the numbers distinct. */
  lemma AddedOnce(new': Level, sorted: Level)
    requires NumbersOnce(new') && sorted == InsertAll([], new')
    requires forall f :: f in sorted <==> f in new'
    ensures NumbersOnce(sorted)
  {
    InsertAllSorted([], new');
    forall i, j | 0 <= i < j < |sorted|
      ensures sorted[i].number != sorted[j].number
    {
      assert FileLess(sorted[i], sorted[j]);
      assert sorted[i] in new' && sorted[j] in new';
    }
  }

  lemma StillOnce(added: Level, new': Level)
    requires NumbersOnce(added) && NumbersOnce(new') && NumbersApart(added, new') && FileSorted(added)
    requires forall f :: f in InsertAll(added, new') <==> f in added || f in new'
    ensures NumbersOnce(InsertAll(added, new'))
  {
    var all := InsertAll(added, new');
    InsertAllSorted(added, new');
    forall i, j | 0 <= i < j < |all|
      ensures all[i].number != all[j].number
    {
      assert FileLess(all[i], all[j]);
      assert all[i] in all && all[j] in all;
    }
  }

  /** `files` holds what `st` says of a level that started as `base`. */
  ghost predicate Tracks(files: Level, base: Level, st: LevelState) {
    forall f :: f in files <==> (f in base || f in st.addedFiles) && f.number !in st.deletedFiles
  }

  lemma TracksStep(files: Level, base: Level, st: LevelState, edit: VersionEdit, l: nat)
    requires Tracks(files, base, st) && NumbersApart(base, st.addedFiles)
    requires FreshAdd(base, st.addedFiles, edit, l)
    ensures Tracks(StepFiles(files, edit, l), base, ApplyLevel(st, edit, l))
    ensures NumbersApart(base, ApplyLevel(st, edit, l).addedFiles)
  {
    var new' := AddedAt(edit.newFiles, l);
    StepMembers(files, edit, l);
    InsertAllMembers(st.addedFiles, new');
    var next := ApplyLevel(st, edit, l);
    forall f | f in base || f in st.addedFiles
      ensures f.number in next.deletedFiles <==> f.number in st.deletedFiles || (l, f.number) in edit.deletedFiles
    {
    }
  }

  lemma {:induction false} CollectedMembers(base: Level, edits: seq<VersionEdit>, l: nat)
    requires FileSorted(base) && FreshAdds(base, edits, l)
    ensures FileSorted(OneByOne(base, edits, l))
    ensures Tracks(OneByOne(base, edits, l), base, Collected(edits, l))
    ensures NumbersApart(base, Collected(edits, l).addedFiles) && NumbersOnce(Collected(edits, l).addedFiles)
  {
    if edits != [] {
      var front, last := edits[..|edits| - 1], edits[|edits| - 1];
      var st, before := Collected(front, l), OneByOne(base, front, l);
      CollectedMembers(base, front, l);
      TracksStep(before, base, st, last, l);
      SaveSorted(before, ApplyLevel(EMPTY_STATE, last, l).addedFiles, ApplyLevel(EMPTY_STATE, last, l).deletedFiles);
      InsertAllMembers(st.addedFiles, AddedAt(last.newFiles, l));
      CollectedSorted(front, l);
      StillOnce(st.addedFiles, AddedAt(last.newFiles, l));
    }
  }

  /** Main result: recovering from a manifest with one Builder gives the files LogAndApply gave edit by edit. */
  lemma ReplayAgrees(base: Level, edits: seq<VersionEdit>, l: nat)
    requires FileSorted(base) && FreshAdds(base, edits, l)
    ensures AllAtOnce(base, edits, l) == OneByOne(base, edits, l)
  {
    CollectedMembers(base, edits, l);
    var st := Collected(edits, l);
    InsertAllMembers(base, st.addedFiles);
    SaveSorted(base, st.addedFiles, st.deletedFiles);
    SortedListsAgree(AllAtOnce(base, edits, l), OneByOne(base, edits, l));
  }

  // ----- the two users of the Builder -----

  predicate LevelsInRange(edit: VersionEdit) {
    (forall p | p in edit.deletedFiles :: p.0 < NUM_LEVELS) && (forall p | p in edit.newFiles :: p.0 < NUM_LEVELS)
  }

  lemma {:induction false} InsertAllFrom(files: Level, fs: Level)
    ensures forall f | f in InsertAll(files, fs) :: f in files || f in fs
  {
    if fs != [] {
      InsertAllFrom(files, fs[..|fs| - 1]);
    }
  }

  lemma ApartNoClash(files: Level, added: Level)
    requires NumbersApart(files, added)
    ensures NoClash(files, added)
  {
  }

  lemma StepReady(files: Level, edit: VersionEdit, l: nat)
    requires NumbersApart(files, AddedAt(edit.newFiles, l))
    ensures FileSorted(ApplyLevel(EMPTY_STATE, edit, l).addedFiles)
    ensures NoClash(files, ApplyLevel(EMPTY_STATE, edit, l).addedFiles)
  {
    InsertAllFrom([], AddedAt(edit.newFiles, l));
    InsertAllSorted([], AddedAt(edit.newFiles, l));
    ApartNoClash(files, ApplyLevel(EMPTY_STATE, edit, l).addedFiles);
  }

  /** LogAndApply: a Builder over the current version, for one edit. */
  method LogAndApply(current: seq<Level>, edit: VersionEdit) returns (v: seq<Level>)
    requires |current| == NUM_LEVELS && LevelsInRange(edit)
    requires forall l | 0 <= l < NUM_LEVELS :: FileSorted(current[l]) && NumbersApart(current[l], AddedAt(edit.newFiles, l))
    ensures |v| == NUM_LEVELS && forall l | 0 <= l < NUM_LEVELS :: v[l] == StepFiles(current[l], edit, l)
  {
    var builder := new Builder(current);
    builder.Apply(edit);
    forall l | 0 <= l < NUM_LEVELS
      ensures FileSorted(builder.levels[l].addedFiles) && NoClash(current[l], builder.levels[l].addedFiles)
    {
      StepReady(current[l], edit, l);
    }
    v := builder.SaveTo();
  }

  /** Recover: one Builder over the empty version, for all edits of the manifest. The files are those that LogAndApply
      arrived at edit by edit. */
  method Recover(edits: seq<VersionEdit>) returns (v: seq<Level>)
    requires forall e | e in edits :: LevelsInRange(e)
    requires forall l | 0 <= l < NUM_LEVELS :: FreshAdds([], edits, l)
    ensures |v| == NUM_LEVELS && forall l | 0 <= l < NUM_LEVELS :: v[l] == OneByOne([], edits, l)
  {
    var builder := new Builder(seq(NUM_LEVELS, _ => []));
    for i := 0 to |edits|
      invariant |builder.levels| == NUM_LEVELS
      invariant forall l | 0 <= l < NUM_LEVELS :: builder.levels[l] == Collected(edits[..i], l)
    {
      assert edits[..i + 1][..i] == edits[..i] && LevelsInRange(edits[i]);
      builder.Apply(edits[i]);
    }
    assert edits[..|edits|] == edits;
    forall l | 0 <= l < NUM_LEVELS
      ensures FileSorted(builder.levels[l].addedFiles) && AllAtOnce([], edits, l) == OneByOne([], edits, l)
    {
      CollectedSorted(edits, l);
      ReplayAgrees([], edits, l);
    }
    v := builder.SaveTo();
  }
}
