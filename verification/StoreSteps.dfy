/** Every step of the running database keeps the invariant and what readers see. */
module StoreSteps {
  import opened DbFormat
  import opened Version
  import opened Inputs
  import opened VersionEdits
  import opened LsmSteps
  import opened CompactionWork
  import opened CompactionSteps
  import opened Store
  import opened StoreWrites
  import opened StoreFiles

  // ----- rotating the log -----

  lemma RotatedEntries(logs: map<nat, seq<Entry>>, logNumber: nat, logfileNumber: nat, fresh': nat)
    requires logNumber <= logfileNumber < fresh' && logfileNumber in logs
    requires forall n | n in logs :: n <= logfileNumber
    ensures LogEntries(logs[fresh' := []], logNumber, fresh')
         == LogEntries(logs, logNumber, logfileNumber) + Contents(logs[logfileNumber])
  {
    var logs' := logs[fresh' := []];
    forall e
      ensures e in LogEntries(logs', logNumber, fresh') <==>
              e in LogEntries(logs, logNumber, logfileNumber) + Contents(logs[logfileNumber])
    {
      if e in LogEntries(logs', logNumber, fresh') {
        var n :| n in logs' && logNumber <= n < fresh' && e in logs'[n];
        assert n in logs && e in logs[n];
      }
      if e in LogEntries(logs, logNumber, logfileNumber) {
        var n :| n in logs && logNumber <= n < logfileNumber && e in logs[n];
        assert n in logs' && e in logs'[n];
      }
      if e in Contents(logs[logfileNumber]) {
        assert logfileNumber in logs' && e in logs'[logfileNumber];
      }
    }
  }

  lemma RotatedLogs(logs: map<nat, seq<Entry>>, logNumber: nat, logfileNumber: nat, mem: set<Entry>, fresh': nat)
    requires LogsOk(logs, logNumber, logfileNumber, mem, {}) && logfileNumber < fresh'
    ensures LogsOk(logs[fresh' := []], logNumber, fresh', {}, mem)
  {
    RotatedEntries(logs, logNumber, logfileNumber, fresh');
    var logs' := logs[fresh' := []];
    assert Contents([]) == {};
    forall m, n, d: Entry, e: Entry | m in logs' && n in logs' && logNumber <= m < n && d in logs'[m] && e in logs'[n]
      ensures d.key.seqno < e.key.seqno
    {
      assert m in logs && n in logs;
    }
    forall n | n in logs' && logNumber <= n
      ensures Appended(logs'[n])
    {
    }
  }

  lemma RotateKeepsInv(s: State)
    requires Inv(s) && s.imm.None?
    ensures Inv(Rotated(s)) && All(Rotated(s)) == All(s)
  {
    var t := Rotated(s);
    assert Contents(ImmEntries(s)) == {} && Contents(t.mem) == {};
    RotatedLogs(s.disk.logs, s.logNumber, s.logfileNumber, Contents(s.mem), s.nextFile);
    assert MemEntries(t) == MemEntries(s);
    assert Contents(t.mem) + Contents(ImmEntries(t)) == Contents(s.mem) + Contents(ImmEntries(s));
  }

  // ----- flushing -----

  lemma FlushPlaced(s: State, level: nat, f: FileMetaData, edit: VersionEdit)
    requires NamesBelow(s.disk.manifest, s.nextFile) && NumbersBelow(s.levels, s.nextFile)
    requires f.number == s.nextFile && edit.newFiles == [(level, f)]
    ensures Placeable(s.disk.manifest, s.levels, edit)
  {
  }

  lemma FlushBecomes(levels: seq<Level>, f: FileMetaData, level: nat, edit: VersionEdit, after: seq<Level>)
    requires EditMembers(levels, after, edit) && edit.newFiles == [(level, f)] && edit.deletedFiles == {}
    ensures Becomes(levels, after, {}, {(level, f)})
  {
  }

  lemma FlushFiles(levels: seq<Level>, manifest: seq<VersionEdit>, f: FileMetaData, level: nat, edit: VersionEdit, after: seq<Level>)
    requires FilesOk(levels) && f.Valid() && MayFlushTo(levels, f, level)
    requires Placeable(manifest, levels, edit) && EditApplied(levels, after, edit)
    requires edit.newFiles == [(level, f)] && edit.deletedFiles == {} && NumbersBelow(levels, f.number)
    requires NewerThanAll(Contents(f.entries), levels) && UniqueVersions(AllEntries(levels) + Contents(f.entries))
    ensures FilesOk(after) && EditMembers(levels, after, edit)
    ensures AllEntries(after) == AllEntries(levels) + Contents(f.entries)
  {
    VersionAfterEdit(manifest, levels, edit, after);
    NumbersStayUnique(manifest, levels, edit, after);
    FlushBecomes(levels, f, level, edit, after);
    FlushKeepsLsm(levels, f, level, after);
  }

  /** A layer handed down: the same entries, one layer fewer. */
  lemma LayerDown(mem: seq<Entry>, imm: seq<Entry>, files: set<Entry>, files': set<Entry>)
    requires MemLayers(mem, imm, files) && files' == files + Contents(imm)
    ensures MemLayers(mem, [], files')
    ensures Contents(mem) + Contents([]) + files' == Contents(mem) + Contents(imm) + files
  {
    assert Contents(mem) + Contents([]) == Contents(mem);
    assert Contents(mem) + Contents([]) + files' == Contents(mem) + Contents(imm) + files;
  }

  lemma ImmFacts(mem: seq<Entry>, imm: seq<Entry>, levels: seq<Level>)
    requires MemLayers(mem, imm, AllEntries(levels))
    ensures NewerThanAll(Contents(imm), levels) && UniqueVersions(AllEntries(levels) + Contents(imm))
  {
    assert forall e | e in Contents(imm) :: e in Contents(mem) + Contents(imm);
    assert AllEntries(levels) + Contents(imm) <= Contents(mem) + Contents(imm) + AllEntries(levels);
  }

  lemma TrimmedLogs(logs: map<nat, seq<Entry>>, logNumber: nat, logfileNumber: nat, mem: set<Entry>, imm: set<Entry>)
    requires LogsOk(logs, logNumber, logfileNumber, mem, imm)
    ensures LogsOk(logs, logfileNumber, logfileNumber, mem, {})
  {
  }

  lemma FlushProper(s: State, level: nat, t: State, f: FileMetaData)
    requires FilesOk(s.levels) && NamesBelow(s.disk.manifest, s.nextFile) && NumbersBelow(s.levels, s.nextFile)
    requires f.number == s.nextFile && level < NUM_LEVELS && Installed(s, FlushEdit(s, [(level, f)]), [f], t)
    ensures ProperInstall(s, FlushEdit(s, [(level, f)]), [f], t)
  {
    var edit := FlushEdit(s, [(level, f)]);
    FlushPlaced(s, level, f, edit);
    VersionAfterEdit(s.disk.manifest, s.levels, edit, t.levels);
  }

  lemma EmptyFlushProper(s: State, t: State)
    requires FilesOk(s.levels) && Installed(s, FlushEdit(s, []), [], t)
    ensures ProperInstall(s, FlushEdit(s, []), [], t)
    ensures t.levels == s.levels
  {
    VersionAfterEdit(s.disk.manifest, s.levels, FlushEdit(s, []), t.levels);
    forall l | 0 <= l < NUM_LEVELS
      ensures t.levels[l] == s.levels[l]
    {
      SortedListsAgree(t.levels[l], s.levels[l]);
    }
  }

  lemma FlushLayered(s: State, level: nat, size: nat, t: State)
    requires Layered(s) && NamesBelow(s.disk.manifest, s.nextFile) && NumbersBelow(s.levels, s.nextFile)
    requires Flushed(s, level, size, t)
    ensures FilesOk(t.levels)
    ensures AllEntries(t.levels) == AllEntries(s.levels) + Contents(s.imm.value)
  {
    ImmFacts(s.mem, ImmEntries(s), s.levels);
    if s.imm.value == [] {
      EmptyFlushProper(s, t);
    } else {
      var f := TableFor(s.nextFile, size, s.imm.value);
      var edit := FlushEdit(s, [(level, f)]);
      FlushProper(s, level, t, f);
      FlushFiles(s.levels, s.disk.manifest, f, level, edit, t.levels);
    }
  }

  lemma FlushInstalled(s: State, level: nat, size: nat, t: State)
    requires FilesOk(s.levels) && Recorded(s) && NumbersBelow(s.levels, s.nextFile)
    requires Stored(s.disk.tables, s.levels) && PinnedOk(s)
    requires Flushed(s, level, size, t)
    ensures Recorded(t) && NumbersBelow(t.levels, t.nextFile) && Stored(t.disk.tables, t.levels) && PinnedOk(t)
  {
    if s.imm.value == [] {
      var edit := FlushEdit(s, []);
      EmptyFlushProper(s, t);
      InstallRecorded(s, edit, [], t);
      InstallStored(s, edit, [], t);
    } else {
      var f := TableFor(s.nextFile, size, s.imm.value);
      var edit := FlushEdit(s, [(level, f)]);
      FlushProper(s, level, t, f);
      InstallRecorded(s, edit, [f], t);
      InstallStored(s, edit, [f], t);
    }
  }

  lemma FlushMemory(s: State, level: nat, size: nat, t: State)
    requires MemLayers(s.mem, ImmEntries(s), AllEntries(s.levels)) && Flushed(s, level, size, t)
    requires AllEntries(t.levels) == AllEntries(s.levels) + Contents(s.imm.value)
    ensures MemLayers(t.mem, ImmEntries(t), AllEntries(t.levels)) && All(t) == All(s)
  {
    LayerDown(s.mem, s.imm.value, AllEntries(s.levels), AllEntries(t.levels));
  }

  lemma FlushLogged(s: State, level: nat, size: nat, t: State)
    requires Logged(s) && Flushed(s, level, size, t)
    ensures Logged(t)
  {
    TrimmedLogs(s.disk.logs, s.logNumber, s.logfileNumber, Contents(s.mem), Contents(s.imm.value));
  }

  lemma SameReadersBounded(s: State, t: State)
    requires Bounded(s) && All(t) == All(s) && t.lastSequence == s.lastSequence && t.snapshots == s.snapshots
    ensures Bounded(t)
  {
  }

  lemma FlushKeepsInv(s: State, level: nat, size: nat, t: State)
    requires Inv(s) && Flushed(s, level, size, t)
    ensures Inv(t) && All(t) == All(s)
  {
    FlushLayered(s, level, size, t);
    FlushMemory(s, level, size, t);
    FlushLogged(s, level, size, t);
    FlushInstalled(s, level, size, t);
    SameReadersBounded(s, t);
  }

  // ----- moving and compacting -----

  lemma SetsOfNumbers(levels: seq<Level>, l: nat, files: Level, f: FileMetaData)
    requires UniqueNumbers(levels) && l < |levels| && f in levels[l]
    requires forall g | g in files :: g in levels[l]
    ensures (l, f.number) in NumbersAt(l, files) <==> f in files
  {
    if (l, f.number) in NumbersAt(l, files) {
      var g :| g in files && (l, g.number) == (l, f.number);
      assert g == f;
    }
  }

  /** Deleting by number deletes exactly the inputs. */
  lemma InputsGo(levels: seq<Level>, level: nat, c: Choice, l: nat, f: FileMetaData)
    requires UniqueNumbers(levels) && level + 1 < |levels| && Selected(levels, level, c)
    requires l < |levels| && f in levels[l]
    ensures (l, f.number) in NumbersAt(level, c.inputs0) + NumbersAt(level + 1, c.inputs1) <==> (l, f) in Gone(level, c)
  {
    if l == level {
      SetsOfNumbers(levels, l, c.inputs0, f);
    } else if l == level + 1 {
      SetsOfNumbers(levels, l, c.inputs1, f);
    }
  }

  lemma CompactBecomes(levels: seq<Level>, level: nat, c: Choice, outputs: Level, edit: VersionEdit, after: seq<Level>)
    requires UniqueNumbers(levels) && level + 1 < NUM_LEVELS && Selected(levels, level, c)
    requires EditMembers(levels, after, edit)
    requires edit.deletedFiles == NumbersAt(level, c.inputs0) + NumbersAt(level + 1, c.inputs1)
    requires edit.newFiles == At(level + 1, outputs)
    ensures Becomes(levels, after, Gone(level, c), PlacedAt(level + 1, outputs))
  {
    forall l, f | 0 <= l < NUM_LEVELS
      ensures f in after[l] <==> (f in levels[l] && (l, f) !in Gone(level, c)) || (l, f) in PlacedAt(level + 1, outputs)
    {
      if f in levels[l] { InputsGo(levels, level, c, l, f); }
      AtMembers(level + 1, outputs, l, f);
    }
  }

  lemma OutputsPlaced(s: State, level: nat, outputs: Level, edit: VersionEdit)
    requires NamesBelow(s.disk.manifest, s.nextFile) && NumbersBelow(s.levels, s.nextFile)
    requires OutputFiles(outputs, s.nextFile) && edit.newFiles == At(level + 1, outputs)
    ensures Placeable(s.disk.manifest, s.levels, edit)
    ensures FreshNumbers(outputs, s.nextFile, s.nextFile + |outputs|)
    ensures level + 1 < NUM_LEVELS ==> NewOrMoved(s.levels, edit, outputs)
  {
    forall p | p in edit.newFiles
      ensures p.0 == level + 1 && p.1 in outputs
    {
      var i :| 0 <= i < |edit.newFiles| && edit.newFiles[i] == p;
      assert p == (level + 1, outputs[i]);
    }
  }

  lemma MovePlaced(s: State, level: nat, f: FileMetaData, edit: VersionEdit)
    requires Recorded(s) && UniqueNumbers(s.levels) && level + 1 < |s.levels| && f in s.levels[level]
    requires edit.deletedFiles == {(level, f.number)} && edit.newFiles == [(level + 1, f)]
    ensures Placeable(s.disk.manifest, s.levels, edit)
    ensures level + 1 < NUM_LEVELS ==> NewOrMoved(s.levels, edit, [])
  {
    forall i, q | 0 <= i < |s.disk.manifest| && q in s.disk.manifest[i].newFiles && q.1.number == f.number
      ensures q.0 < level + 1
    {
    }
    forall p | p in edit.newFiles
      ensures p == (level + 1, f)
    {
    }
  }

  lemma FewerFiles(mem: seq<Entry>, imm: seq<Entry>, files: set<Entry>, files': set<Entry>)
    requires MemLayers(mem, imm, files) && files' <= files
    ensures MemLayers(mem, imm, files')
    ensures Contents(mem) + Contents(imm) + files' <= Contents(mem) + Contents(imm) + files
  {
  }

  lemma CompactProper(s: State, level: nat, c: Choice, outputs: Level, t: State)
    requires FilesOk(s.levels) && NamesBelow(s.disk.manifest, s.nextFile) && NumbersBelow(s.levels, s.nextFile)
    requires level + 1 < NUM_LEVELS && OutputFiles(outputs, s.nextFile) && Compacted(s, level, c, outputs, t)
    ensures ProperInstall(s, CompactionEdit(s, level, c, outputs), outputs, t)
  {
    var edit := CompactionEdit(s, level, c, outputs);
    OutputsPlaced(s, level, outputs, edit);
    VersionAfterEdit(s.disk.manifest, s.levels, edit, t.levels);
  }

  lemma CompactShape(s: State, level: nat, c: Choice, outputs: Level, t: State)
    requires FilesOk(s.levels) && NamesBelow(s.disk.manifest, s.nextFile) && NumbersBelow(s.levels, s.nextFile)
    requires level + 1 < NUM_LEVELS && Selected(s.levels, level, c)
    requires OutputFiles(outputs, s.nextFile) && Compacted(s, level, c, outputs, t)
    ensures Becomes(s.levels, t.levels, Gone(level, c), PlacedAt(level + 1, outputs)) && UniqueNumbers(t.levels)
  {
    CompactProper(s, level, c, outputs, t);
    NumbersStayUnique(s.disk.manifest, s.levels, CompactionEdit(s, level, c, outputs), t.levels);
    CompactBecomes(s.levels, level, c, outputs, CompactionEdit(s, level, c, outputs), t.levels);
  }

  lemma LayerFacts(s: State)
    requires MemLayers(s.mem, ImmEntries(s), AllEntries(s.levels))
    ensures NewerThanAll(MemEntries(s), s.levels) && UniqueVersions(MemEntries(s) + AllEntries(s.levels))
  {
  }

  lemma CompactReads(s: State, level: nat, c: Choice, input: seq<Entry>, outputs: Level, t: State)
    requires Layered(s) && NamesBelow(s.disk.manifest, s.nextFile) && NumbersBelow(s.levels, s.nextFile)
    requires |s.levels| == NUM_LEVELS && Next(s, CompactStep(level, c, input, outputs), t)
    ensures Quiet(s, CompactStep(level, c, input, outputs)) ==> forall u, r: nat | SmallestSnapshot(s) <= r ::
              Visible(MemEntries(s) + AllEntries(t.levels), u, r) == Visible(MemEntries(s) + AllEntries(s.levels), u, r)
    ensures !Quiet(s, CompactStep(level, c, input, outputs)) ==>
              exists u :: Visible(MemEntries(s) + AllEntries(t.levels), u, SmallestSnapshot(s))
                       != Visible(MemEntries(s) + AllEntries(s.levels), u, SmallestSnapshot(s))
  {
    CompactShape(s, level, c, outputs, t);
    LayerFacts(s);
    CompactionStep(s.levels, level, c, input, MemEntries(s), SmallestSnapshot(s), outputs, s.nextFile, t.levels);
  }

  lemma CompactLevels(s: State, level: nat, c: Choice, input: seq<Entry>, outputs: Level, t: State)
    requires Layered(s) && NamesBelow(s.disk.manifest, s.nextFile) && NumbersBelow(s.levels, s.nextFile)
    requires |s.levels| == NUM_LEVELS && Next(s, CompactStep(level, c, input, outputs), t)
    ensures FilesOk(t.levels) && AllEntries(t.levels) <= AllEntries(s.levels)
  {
    CompactShape(s, level, c, outputs, t);
    CompactionInstalls(s.levels, level, c, input, MemEntries(s), SmallestSnapshot(s), outputs, s.nextFile, t.levels);
  }

  lemma CompactInstalled(s: State, level: nat, c: Choice, input: seq<Entry>, outputs: Level, t: State)
    requires FilesOk(s.levels) && Recorded(s) && NumbersBelow(s.levels, s.nextFile)
    requires Stored(s.disk.tables, s.levels) && PinnedOk(s)
    requires Next(s, CompactStep(level, c, input, outputs), t)
    ensures Recorded(t) && NumbersBelow(t.levels, t.nextFile) && Stored(t.disk.tables, t.levels) && PinnedOk(t)
  {
    CompactProper(s, level, c, outputs, t);
    var edit := CompactionEdit(s, level, c, outputs);
    InstallRecorded(s, edit, outputs, t);
    InstallStored(s, edit, outputs, t);
  }

  lemma FewerReaders(s: State, t: State)
    requires MemLayers(s.mem, ImmEntries(s), AllEntries(s.levels)) && Bounded(s)
    requires t.mem == s.mem && t.imm == s.imm && AllEntries(t.levels) <= AllEntries(s.levels)
    requires t.lastSequence == s.lastSequence && t.snapshots == s.snapshots
    ensures MemLayers(t.mem, ImmEntries(t), AllEntries(t.levels)) && Bounded(t) && MemEntries(t) == MemEntries(s)
  {
    FewerFiles(s.mem, ImmEntries(s), AllEntries(s.levels), AllEntries(t.levels));
  }

  lemma CompactKeepsInv(s: State, level: nat, c: Choice, input: seq<Entry>, outputs: Level, t: State)
    requires Inv(s) && Next(s, CompactStep(level, c, input, outputs), t)
    ensures Inv(t)
  {
    CompactLevels(s, level, c, input, outputs, t);
    CompactInstalled(s, level, c, input, outputs, t);
    FewerReaders(s, t);
  }

  lemma ReadsCarryOver(before: set<Entry>, after: set<Entry>, snapshots: seq<nat>, last: nat, smallest: nat, sp: Spec)
    requires ReadsAs(before, snapshots, last, sp) && smallest <= last
    requires forall i | 0 <= i < |snapshots| :: smallest <= snapshots[i]
    requires forall u, r: nat | smallest <= r :: Visible(after, u, r) == Visible(before, u, r)
    ensures ReadsAs(after, snapshots, last, sp)
  {
  }

  lemma SmallestIsSmallest(s: State)
    requires SnapshotsOk(s.snapshots, s.lastSequence)
    ensures SmallestSnapshot(s) <= s.lastSequence
    ensures forall i | 0 <= i < |s.snapshots| :: SmallestSnapshot(s) <= s.snapshots[i]
  {
  }

  /** The smallest snapshot is one that somebody reads at. */
  lemma SmallestIsRead(s: State, sp: Spec, after: set<Entry>, u: UserKey)
    requires Refines(s, sp) && ReadsAs(after, s.snapshots, s.lastSequence, sp)
    ensures Visible(after, u, SmallestSnapshot(s)) == Visible(All(s), u, SmallestSnapshot(s))
  {
    assert s.snapshots != [] ==> Visible(All(s), u, s.snapshots[0]) == Lookup(sp.held[0], u);
  }

  /** Readers see no change exactly when the compaction is quiet. */
  lemma CompactRefines(s: State, sp: Spec, step: Step, t: State)
    requires SnapshotsOk(s.snapshots, s.lastSequence) && Refines(s, sp) && |s.levels| == NUM_LEVELS && step.CompactStep?
    requires Quiet(s, step) ==> forall u, r: nat | SmallestSnapshot(s) <= r ::
               Visible(MemEntries(s) + AllEntries(t.levels), u, r) == Visible(MemEntries(s) + AllEntries(s.levels), u, r)
    requires !Quiet(s, step) ==> exists u :: Visible(MemEntries(s) + AllEntries(t.levels), u, SmallestSnapshot(s))
                                         != Visible(MemEntries(s) + AllEntries(s.levels), u, SmallestSnapshot(s))
    requires All(t) == MemEntries(s) + AllEntries(t.levels) && t.snapshots == s.snapshots && t.lastSequence == s.lastSequence
    ensures Refines(t, sp) <==> Quiet(s, step)
  {
    if Quiet(s, step) {
      SmallestIsSmallest(s);
      ReadsCarryOver(All(s), All(t), s.snapshots, s.lastSequence, SmallestSnapshot(s), sp);
    } else if Refines(t, sp) {
      var u :| Visible(MemEntries(s) + AllEntries(t.levels), u, SmallestSnapshot(s))
            != Visible(MemEntries(s) + AllEntries(s.levels), u, SmallestSnapshot(s));
      SmallestIsRead(s, sp, All(t), u);
      assert false;
    }
  }

  lemma MoveProper(s: State, level: nat, f: FileMetaData, t: State)
    requires FilesOk(s.levels) && Recorded(s) && Moved(s, level, f, t)
    requires level + 1 < NUM_LEVELS && f in s.levels[level]
    ensures ProperInstall(s, MoveEdit(s, level, f), [], t)
  {
    MovePlaced(s, level, f, MoveEdit(s, level, f));
    VersionAfterEdit(s.disk.manifest, s.levels, MoveEdit(s, level, f), t.levels);
  }

  lemma OneFileEdit(level: nat, f: FileMetaData)
    ensures {(level, f.number)} == NumbersAt(level, [f]) + NumbersAt(level + 1, [])
    ensures [(level + 1, f)] == At(level + 1, [f])
  {
    assert [f][0] in [f];
  }

  lemma MoveShape(s: State, level: nat, c: Choice, f: FileMetaData, t: State)
    requires FilesOk(s.levels) && Recorded(s) && Moved(s, level, f, t)
    requires level + 1 < NUM_LEVELS && Selected(s.levels, level, c) && c.inputs0 == [f] && c.inputs1 == []
    ensures Becomes(s.levels, t.levels, Gone(level, c), PlacedAt(level + 1, [f])) && UniqueNumbers(t.levels)
  {
    assert f in c.inputs0;
    MoveProper(s, level, f, t);
    NumbersStayUnique(s.disk.manifest, s.levels, MoveEdit(s, level, f), t.levels);
    OneFileEdit(level, f);
    CompactBecomes(s.levels, level, c, [f], MoveEdit(s, level, f), t.levels);
  }

  lemma FilesOkAfter(before: seq<Level>, after: seq<Level>, gone: set<Placed>, come: set<Placed>)
    requires Becomes(before, after, gone, come) && UniqueNumbers(after) && Lsm(after)
    ensures FilesOk(after)
  {
  }

  lemma MoveLevels(s: State, level: nat, c: Choice, f: FileMetaData, t: State)
    requires FilesOk(s.levels) && Recorded(s)
    requires Next(s, MoveStep(level, c, f), t)
    ensures FilesOk(t.levels) && AllEntries(t.levels) == AllEntries(s.levels)
  {
    MovedFile(s, level, c, f, t);
  }

  lemma MovedFile(s: State, level: nat, c: Choice, f: FileMetaData, t: State)
    requires FilesOk(s.levels) && Recorded(s) && Moved(s, level, f, t)
    requires level + 1 < NUM_LEVELS && Selected(s.levels, level, c) && c.inputs0 == [f] && c.inputs1 == []
    ensures FilesOk(t.levels) && AllEntries(t.levels) == AllEntries(s.levels)
  {
    MoveShape(s, level, c, f, t);
    MovedEntries(s.levels, level, c, f, t.levels);
    FilesOkAfter(s.levels, t.levels, Gone(level, c), PlacedAt(level + 1, [f]));
  }

  lemma MovedEntries(levels: seq<Level>, level: nat, c: Choice, f: FileMetaData, after: seq<Level>)
    requires Lsm(levels) && level + 1 < NUM_LEVELS && Selected(levels, level, c) && c.inputs0 == [f] && c.inputs1 == []
    requires Becomes(levels, after, Gone(level, c), PlacedAt(level + 1, [f]))
    ensures Lsm(after) && AllEntries(after) == AllEntries(levels)
  {
    assert AllValid(levels[level]) && f in c.inputs0;
    assert c.inputs0 + c.inputs1 == [f];
    assert Entries([f]) == Contents(f.entries);
    assert Rewritten(c, [f]);
    CompactionKeepsLsm(levels, level, c, [f], after);
    SplitBefore(levels, level, c, f.entries);
    SplitAfter(levels, level, c, [f], after);
  }

  lemma MoveInstalled(s: State, level: nat, c: Choice, f: FileMetaData, t: State)
    requires FilesOk(s.levels) && Recorded(s) && NumbersBelow(s.levels, s.nextFile)
    requires Stored(s.disk.tables, s.levels) && PinnedOk(s)
    requires Next(s, MoveStep(level, c, f), t)
    ensures Recorded(t) && NumbersBelow(t.levels, t.nextFile) && Stored(t.disk.tables, t.levels) && PinnedOk(t)
  {
    assert f in c.inputs0;
    MoveProper(s, level, f, t);
    InstallRecorded(s, MoveEdit(s, level, f), [], t);
    InstallStored(s, MoveEdit(s, level, f), [], t);
  }

  lemma MoveKeepsInv(s: State, level: nat, c: Choice, f: FileMetaData, t: State)
    requires Inv(s) && Next(s, MoveStep(level, c, f), t)
    ensures Inv(t) && All(t) == All(s)
  {
    MoveLevels(s, level, c, f, t);
    MoveInstalled(s, level, c, f, t);
    FewerReaders(s, t);
  }

  // ----- sweeping -----

  lemma SweptLogs(logs: map<nat, seq<Entry>>, logNumber: nat, logfileNumber: nat, mem: set<Entry>, imm: set<Entry>)
    requires LogsOk(logs, logNumber, logfileNumber, mem, imm)
    ensures LogsOk(KeptLogs(logs, logNumber), logNumber, logfileNumber, mem, imm)
  {
    var logs' := KeptLogs(logs, logNumber);
    forall e
      ensures e in LogEntries(logs', logNumber, logfileNumber) <==> e in LogEntries(logs, logNumber, logfileNumber)
    {
      if e in LogEntries(logs, logNumber, logfileNumber) {
        var n :| n in logs && logNumber <= n < logfileNumber && e in logs[n];
        assert n in logs' && e in logs'[n];
      }
    }
  }

  lemma LiveTablesStay(tables: map<nat, seq<Entry>>, live: set<nat>, levels: seq<Level>)
    requires Stored(tables, levels) && LiveNumbers(levels) <= live
    ensures Stored(KeptTables(tables, live), levels)
  {
    forall l, f | 0 <= l < |levels| && f in levels[l]
      ensures f.number in live
    {
      assert f.number in LiveNumbers(levels);
    }
  }

  lemma SweptTables(s: State, t: State)
    requires Stored(s.disk.tables, s.levels) && PinnedOk(s) && Swept(s, t)
    ensures Stored(t.disk.tables, t.levels) && PinnedOk(t)
  {
    LiveTablesStay(s.disk.tables, LiveTables(s), s.levels);
    forall i | 0 <= i < |s.pinned|
      ensures Stored(t.disk.tables, s.pinned[i])
    {
      assert s.pinned[i] in s.pinned;
      LiveTablesStay(s.disk.tables, LiveTables(s), s.pinned[i]);
    }
  }

  lemma SweptLogged(s: State, t: State)
    requires Logged(s) && Swept(s, t)
    ensures Logged(t)
  {
    SweptLogs(s.disk.logs, s.logNumber, s.logfileNumber, Contents(s.mem), Contents(ImmEntries(s)));
  }

  /** A step that touches nothing but logs and tables on disk. */
  lemma DiskOnly(s: State, t: State)
    requires Inv(s) && t == s.(disk := t.disk) && t.disk.manifest == s.disk.manifest
    requires Logged(t) && Stored(t.disk.tables, t.levels) && PinnedOk(t)
    ensures Inv(t) && All(t) == All(s)
  {
    SameMemory(s, t);
    SameRecord(s, t);
  }

  lemma SameMemory(s: State, t: State)
    requires t == s.(disk := t.disk)
    ensures MemEntries(t) == MemEntries(s) && All(t) == All(s)
    ensures MemLayers(s.mem, ImmEntries(s), AllEntries(s.levels)) ==> MemLayers(t.mem, ImmEntries(t), AllEntries(t.levels))
  {
  }

  lemma SameRecord(s: State, t: State)
    requires Recorded(s) && t == s.(disk := t.disk) && t.disk.manifest == s.disk.manifest && MemEntries(t) == MemEntries(s)
    ensures Recorded(t)
  {
  }

  lemma SweptFields(s: State, t: State)
    requires Swept(s, t)
    ensures t == s.(disk := t.disk) && t.disk.manifest == s.disk.manifest
  {
  }

  /** No file a live version needs is deleted, and no log that still holds unflushed writes. */
  lemma SweepKeepsInv(s: State, t: State)
    requires Inv(s) && Swept(s, t)
    ensures Inv(t) && All(t) == All(s)
  {
    SweptTables(s, t);
    SweptLogged(s, t);
    SweptFields(s, t);
    DiskOnly(s, t);
  }

  // ----- snapshots, pinned versions, stray tables -----

  /** A step that touches only what readers hold. */
  lemma HeldOnly(s: State, t: State)
    requires Inv(s) && t == s.(snapshots := t.snapshots, pinned := t.pinned)
    requires SnapshotsOk(t.snapshots, t.lastSequence) && PinnedOk(t)
    ensures Inv(t) && All(t) == All(s)
  {
  }

  lemma SnapshotAdded(snapshots: seq<nat>, last: nat)
    requires SnapshotsOk(snapshots, last)
    ensures SnapshotsOk(snapshots + [last], last)
  {
  }

  lemma SnapshotDropped(snapshots: seq<nat>, i: nat, last: nat)
    requires SnapshotsOk(snapshots, last) && i < |snapshots|
    ensures SnapshotsOk(snapshots[..i] + snapshots[i + 1..], last)
  {
    var rest := snapshots[..i] + snapshots[i + 1..];
    assert forall j | 0 <= j < |rest| :: rest[j] == snapshots[if j < i then j else j + 1];
  }

  lemma SnapshotKeepsInv(s: State, t: State)
    requires Inv(s) && Next(s, SnapshotStep, t)
    ensures Inv(t) && All(t) == All(s)
  {
    SnapshotAdded(s.snapshots, s.lastSequence);
    HeldOnly(s, t);
  }

  lemma ReleaseKeepsInv(s: State, i: nat, t: State)
    requires Inv(s) && Next(s, ReleaseStep(i), t)
    ensures Inv(t) && All(t) == All(s)
  {
    SnapshotDropped(s.snapshots, i, s.lastSequence);
    HeldOnly(s, t);
  }

  lemma PinsAfter(s: State, t: State)
    requires PinnedOk(s) && Stored(s.disk.tables, s.levels) && NumbersBelow(s.levels, s.nextFile)
    requires t.disk == s.disk && t.nextFile == s.nextFile
    requires forall v | v in t.pinned :: v in s.pinned || v == s.levels
    ensures PinnedOk(t)
  {
    forall i | 0 <= i < |t.pinned|
      ensures Stored(t.disk.tables, t.pinned[i]) && NumbersBelow(t.pinned[i], t.nextFile)
    {
      assert t.pinned[i] in t.pinned;
    }
  }

  lemma PinKeepsInv(s: State, t: State)
    requires Inv(s) && Next(s, PinStep, t)
    ensures Inv(t) && All(t) == All(s)
  {
    PinsAfter(s, t);
    HeldOnly(s, t);
  }

  lemma UnpinKeepsInv(s: State, i: nat, t: State)
    requires Inv(s) && Next(s, UnpinStep(i), t)
    ensures Inv(t) && All(t) == All(s)
  {
    PinsAfter(s, t);
    HeldOnly(s, t);
  }

  lemma StrayTable(tables: map<nat, seq<Entry>>, n: nat, es: seq<Entry>, levels: seq<Level>)
    requires Stored(tables, levels) && NumbersBelow(levels, n)
    ensures Stored(tables[n := es], levels)
  {
  }

  lemma OrphanStored(s: State, n: nat, es: seq<Entry>, t: State)
    requires Stored(s.disk.tables, s.levels) && PinnedOk(s) && NumbersBelow(s.levels, s.nextFile) && |s.levels| == NUM_LEVELS
    requires Next(s, OrphanStep(n, es), t)
    ensures Stored(t.disk.tables, t.levels) && PinnedOk(t)
  {
    StrayTable(s.disk.tables, n, es, s.levels);
    forall i | 0 <= i < |s.pinned|
      ensures Stored(t.disk.tables, s.pinned[i])
    {
      StrayTable(s.disk.tables, n, es, s.pinned[i]);
    }
  }

  lemma OrphanKeepsInv(s: State, n: nat, es: seq<Entry>, t: State)
    requires Inv(s) && Next(s, OrphanStep(n, es), t)
    ensures Inv(t) && All(t) == All(s)
  {
    OrphanStored(s, n, es, t);
    DiskOnly(s, t);
  }

  lemma SnapshotReads(es: set<Entry>, snapshots: seq<nat>, last: nat, sp: Spec)
    requires ReadsAs(es, snapshots, last, sp)
    ensures ReadsAs(es, snapshots + [last], last, sp.(held := sp.held + [sp.now]))
  {
  }

  lemma ReleaseReads(es: set<Entry>, snapshots: seq<nat>, last: nat, sp: Spec, i: nat)
    requires ReadsAs(es, snapshots, last, sp) && i < |snapshots|
    ensures ReadsAs(es, snapshots[..i] + snapshots[i + 1..], last, sp.(held := sp.held[..i] + sp.held[i + 1..]))
  {
    var rest, held := snapshots[..i] + snapshots[i + 1..], sp.held[..i] + sp.held[i + 1..];
    forall j, u | 0 <= j < |held|
      ensures Visible(es, u, rest[j]) == Lookup(held[j], u)
    {
      var k := if j < i then j else j + 1;
      assert rest[j] == snapshots[k] && held[j] == sp.held[k];
    }
  }
}
