/** Whole runs: writes, rotations, flushes, moves, compactions, sweeps, snapshots, crashes and recoveries, in any order. */
module StoreRuns {
  import opened DbFormat
  import opened Version
  import opened VersionEdits
  import opened Inputs
  import opened LsmSteps
  import opened CompactionSteps
  import opened Store
  import opened StoreFiles
  import opened StoreWrites
  import opened StoreSteps
  import opened StoreRecovery

  // ----- one step -----

  lemma UniqueAll(s: State)
    requires MemLayers(s.mem, ImmEntries(s), AllEntries(s.levels))
    ensures UniqueVersions(All(s))
  {
  }

  lemma CrashKeepsAll(s: State, base: seq<Level>, files: Level, t: State)
    requires Inv(s) && Next(s, CrashStep(base, files), t)
    ensures Inv(t) && All(t) == All(s) && t.lastSequence == s.lastSequence
  {
    AlwaysDurable(s);
    RecoveryRestores(s.disk, s.levels, MemEntries(s), s.lastSequence, base, files, t);
  }

  lemma FileStepKeepsInv(s: State, step: Step, t: State)
    requires Inv(s) && Next(s, step, t)
    requires step.FlushStep? || step.MoveStep? || step.CompactStep? || step.SweepStep? || step.OrphanStep?
    ensures Inv(t)
  {
    match step {
      case FlushStep(level, size) =>
        FlushKeepsInv(s, level, size, t);
      case MoveStep(level, c, f) =>
        MoveKeepsInv(s, level, c, f, t);
      case CompactStep(level, c, input, outputs) =>
        CompactKeepsInv(s, level, c, input, outputs, t);
      case SweepStep =>
        SweepKeepsInv(s, t);
      case OrphanStep(n, es) =>
        OrphanKeepsInv(s, n, es, t);
    }
  }

  lemma MemoryStepKeepsInv(s: State, step: Step, t: State)
    requires Inv(s) && Next(s, step, t)
    requires step.WriteStep? || step.RotateStep? || step.CrashStep?
    ensures Inv(t)
  {
    match step {
      case WriteStep(ops, batch) =>
        UniqueAll(s);
        WriteKeepsInv(s, ops, batch, t);
      case RotateStep =>
        RotateKeepsInv(s);
      case CrashStep(base, files) =>
        CrashKeepsAll(s, base, files, t);
    }
  }

  lemma ReaderStepKeepsInv(s: State, step: Step, t: State)
    requires Inv(s) && Next(s, step, t)
    requires step.SnapshotStep? || step.ReleaseStep? || step.PinStep? || step.UnpinStep?
    ensures Inv(t)
  {
    match step {
      case SnapshotStep =>
        SnapshotKeepsInv(s, t);
      case ReleaseStep(i) =>
        ReleaseKeepsInv(s, i, t);
      case PinStep =>
        PinKeepsInv(s, t);
      case UnpinStep(i) =>
        UnpinKeepsInv(s, i, t);
    }
  }

  /** Main result: every step keeps the invariant, the shape of the tree and the durability of every write included. */
  lemma StepKeepsInv(s: State, step: Step, t: State)
    requires Inv(s) && Next(s, step, t)
    ensures Inv(t)
  {
    if step.FlushStep? || step.MoveStep? || step.CompactStep? || step.SweepStep? || step.OrphanStep? {
      FileStepKeepsInv(s, step, t);
    } else if step.WriteStep? || step.RotateStep? || step.CrashStep? {
      MemoryStepKeepsInv(s, step, t);
    } else {
      ReaderStepKeepsInv(s, step, t);
    }
  }

  // ----- what readers see of a step -----

  lemma SameReads(s: State, t: State, sp: Spec)
    requires Refines(s, sp) && All(t) == All(s) && t.snapshots == s.snapshots && t.lastSequence == s.lastSequence
    ensures Refines(t, sp)
  {
  }

  lemma ReleaseRefines(s: State, sp: Spec, i: nat, t: State)
    requires Refines(s, sp) && All(t) == All(s) && t.lastSequence == s.lastSequence && i < |s.snapshots|
    requires t.snapshots == s.snapshots[..i] + s.snapshots[i + 1..]
    ensures Refines(t, NextSpec(sp, ReleaseStep(i)))
  {
    ReleaseReads(All(s), s.snapshots, s.lastSequence, sp, i);
  }

  /** The steps that readers do not see at all keep the entries. */
  lemma PlainStepKeepsAll(s: State, step: Step, t: State)
    requires Inv(s) && Next(s, step, t)
    requires step.RotateStep? || step.FlushStep? || step.MoveStep? || step.SweepStep? || step.OrphanStep?
    ensures All(t) == All(s)
  {
    match step {
      case RotateStep =>
        RotateKeepsInv(s);
      case FlushStep(level, size) =>
        FlushKeepsInv(s, level, size, t);
      case MoveStep(level, c, f) =>
        MoveKeepsInv(s, level, c, f, t);
      case SweepStep =>
        SweepKeepsInv(s, t);
      case OrphanStep(n, es) =>
        OrphanKeepsInv(s, n, es, t);
    }
  }

  lemma WriteStepRefines(s: State, sp: Spec, ops: seq<Op>, batch: seq<Entry>, t: State)
    requires Inv(s) && Refines(s, sp) && Next(s, WriteStep(ops, batch), t)
    ensures Refines(t, NextSpec(sp, WriteStep(ops, batch)))
  {
    UniqueAll(s);
    WriteRefines(s, sp, ops, batch, t);
  }

  lemma CompactStepRefines(s: State, sp: Spec, step: Step, t: State)
    requires Inv(s) && Refines(s, sp) && step.CompactStep? && Next(s, step, t) && Inv(t)
    ensures Refines(t, sp) <==> Quiet(s, step)
  {
    CompactReads(s, step.level, step.c, step.input, step.outputs, t);
    CompactRefines(s, sp, step, t);
  }

  lemma CrashStepRefines(s: State, sp: Spec, base: seq<Level>, files: Level, t: State)
    requires Inv(s) && Refines(s, sp) && Next(s, CrashStep(base, files), t)
    ensures Refines(t, NextSpec(sp, CrashStep(base, files)))
  {
    CrashKeepsAll(s, base, files, t);
  }

  lemma SnapshotStepRefines(s: State, sp: Spec, t: State)
    requires Refines(s, sp) && t == s.(snapshots := s.snapshots + [s.lastSequence])
    ensures Refines(t, NextSpec(sp, SnapshotStep))
  {
    SnapshotReads(All(s), s.snapshots, s.lastSequence, sp);
  }

  lemma PlainStepRefines(s: State, sp: Spec, step: Step, t: State)
    requires Inv(s) && Refines(s, sp) && Next(s, step, t)
    requires !step.WriteStep? && !step.CompactStep? && !step.CrashStep? && !step.SnapshotStep? && !step.ReleaseStep?
    ensures Refines(t, sp)
  {
    if !step.PinStep? && !step.UnpinStep? {
      PlainStepKeepsAll(s, step, t);
    }
    SameReads(s, t, sp);
  }

  /** The steps that change the map or the held snapshots. */
  lemma ReaderStepRefines(s: State, sp: Spec, step: Step, t: State)
    requires Inv(s) && Refines(s, sp) && Next(s, step, t)
    requires step.WriteStep? || step.CrashStep? || step.SnapshotStep? || step.ReleaseStep?
    ensures Refines(t, NextSpec(sp, step))
  {
    match step {
      case WriteStep(ops, batch) =>
        WriteStepRefines(s, sp, ops, batch, t);
      case CrashStep(base, files) =>
        CrashStepRefines(s, sp, base, files, t);
      case SnapshotStep =>
        SnapshotStepRefines(s, sp, t);
      case ReleaseStep(i) =>
        ReleaseRefines(s, sp, i, t);
    }
  }

  /** Main result: readers see exactly the step of the map, unless a compaction lets a deleted value resurface: then
      and only then they see something else. */
  lemma StepRefines(s: State, sp: Spec, step: Step, t: State)
    requires Inv(s) && Refines(s, sp) && Next(s, step, t)
    ensures Refines(t, NextSpec(sp, step)) <==> Quiet(s, step)
  {
    if step.CompactStep? {
      StepKeepsInv(s, step, t);
      CompactStepRefines(s, sp, step, t);
    } else if step.WriteStep? || step.CrashStep? || step.SnapshotStep? || step.ReleaseStep? {
      ReaderStepRefines(s, sp, step, t);
    } else {
      PlainStepRefines(s, sp, step, t);
    }
  }

  /** A compaction whose second input list ends cleanly is quiet. */
  lemma CleanStepIsQuiet(s: State, step: Step, t: State)
    requires Inv(s) && Next(s, step, t)
    requires step.CompactStep? ==> SecondListEndsCleanly(s.levels, step.level, step.c)
    ensures Quiet(s, step)
  {
    if step.CompactStep? {
      LayerFacts(s);
      CleanEndKeepsReads(s.levels, step.level, step.c, step.input, MemEntries(s), SmallestSnapshot(s));
    }
  }

  // ----- runs -----

  /** NewDB: a manifest with one record and nothing else. */
  const NEW_DISK := Disk([VersionEdit({}, [], 0, 2, 0)], map[], map[])

  ghost predicate NoFiles(levels: seq<Level>) {
    |levels| == NUM_LEVELS && forall l | 0 <= l < NUM_LEVELS :: levels[l] == []
  }

  ghost predicate Opened(t: State) {
    exists base :: Recovers(NEW_DISK, base, [], t)
  }

  ghost predicate Run(states: seq<State>, steps: seq<Step>) {
    && |states| == |steps| + 1
    && Opened(states[0])
    && forall i | 0 <= i < |steps| :: |states[i].levels| == NUM_LEVELS && Next(states[i], steps[i], states[i + 1])
  }

  /** The map, and its frozen copies, after the first `n` steps. */
  function SpecAfter(steps: seq<Step>, n: nat): Spec
    requires n <= |steps|
  {
    if n == 0 then Spec(map[], []) else NextSpec(SpecAfter(steps, n - 1), steps[n - 1])
  }

  ghost predicate QuietUpTo(states: seq<State>, steps: seq<Step>, n: nat)
    requires Run(states, steps) && n <= |steps|
  {
    forall i | 0 <= i < n :: Quiet(states[i], steps[i])
  }

  lemma NothingReads(es: set<Entry>, last: nat)
    requires es == {}
    ensures ReadsAs(es, [], last, Spec(map[], []))
  {
    forall u
      ensures Visible(es, u, last) == None
    {
      VisibleNothing(es, u, last);
    }
  }

  lemma NoEntries(levels: seq<Level>)
    requires NoFiles(levels)
    ensures AllEntries(levels) == {} && Entries([]) == {}
  {
    forall l | 0 <= l < |levels|
      ensures Entries(levels[l]) == {}
    {
    }
  }

  lemma NewDiskDescribes(levels: seq<Level>)
    requires NoFiles(levels)
    ensures Describes(NEW_DISK.manifest, levels)
  {
    var edit := VersionEdit({}, [], 0, 2, 0);
    forall l | 0 <= l < NUM_LEVELS
      ensures FreshAdds([], [edit], l) && levels[l] == OneByOne([], [edit], l)
    {
      OneEditManifest(edit, l);
    }
  }

  lemma NoFilesOk(levels: seq<Level>)
    requires NoFiles(levels)
    ensures FilesOk(levels) && Stored(map[], levels)
  {
    NoEntries(levels);
  }

  lemma NewDiskDurable(levels: seq<Level>)
    requires NoFiles(levels)
    ensures Durable(NEW_DISK, levels, {}, 0)
  {
    NewDiskDescribes(levels);
    NoFilesOk(levels);
    NoEntries(levels);
    assert LiveLogEntries(map[], 0) == {};
  }

  lemma OpenedOk(t: State)
    requires Opened(t)
    ensures Inv(t) && Refines(t, Spec(map[], []))
  {
    var base :| Recovers(NEW_DISK, base, [], t);
    var levels: seq<Level> := seq(NUM_LEVELS, _ => []);
    NewDiskDurable(levels);
    RecoveryRestores(NEW_DISK, levels, {}, 0, base, [], t);
    NoEntries(levels);
    NothingReads(All(t), t.lastSequence);
  }

  lemma RunStep(states: seq<State>, steps: seq<Step>, i: nat, s: State, t: State)
    requires Run(states, steps) && i < |steps| && s == states[i] && t == states[i + 1] && Inv(s)
    ensures Inv(t)
  {
    StepKeepsInv(s, steps[i], t);
  }

  /** Main result: every state of every run keeps the invariant: the tree is in shape, every acknowledged write is on
      the disk, and no file that is needed has been deleted. */
  lemma {:induction false} RunKeepsInv(states: seq<State>, steps: seq<Step>, n: nat, s: State)
    requires Run(states, steps) && n <= |steps| && s == states[n]
    ensures Inv(s)
  {
    if n == 0 {
      OpenedOk(s);
    } else {
      var before := states[n - 1];
      RunKeepsInv(states, steps, n - 1, before);
      RunStep(states, steps, n - 1, before, s);
    }
  }

  /** Main result: the newest snapshot reads as the map of all writes so far, and every held snapshot as the map of
      the moment it was taken, as long as no compaction let a deleted value resurface. */
  lemma {:induction false} RunRefines(states: seq<State>, steps: seq<Step>, n: nat)
    requires Run(states, steps) && n <= |steps| && QuietUpTo(states, steps, n)
    ensures Refines(states[n], SpecAfter(steps, n))
  {
    if n == 0 {
      OpenedOk(states[0]);
    } else {
      RunRefines(states, steps, n - 1);
      RunKeepsInv(states, steps, n - 1, states[n - 1]);
      StepRefines(states[n - 1], SpecAfter(steps, n - 1), steps[n - 1], states[n]);
    }
  }

  /** Main result: and that is exactly when. A run reads as the map all along if and only if each of its compactions
      is quiet. */
  lemma RunRefinesExactly(states: seq<State>, steps: seq<Step>)
    requires Run(states, steps)
    ensures (forall n | 0 <= n <= |steps| :: Refines(states[n], SpecAfter(steps, n)))
            <==> QuietUpTo(states, steps, |steps|)
  {
    if QuietUpTo(states, steps, |steps|) {
      forall n | 0 <= n <= |steps|
        ensures Refines(states[n], SpecAfter(steps, n))
      {
        RunRefines(states, steps, n);
      }
    }
    if forall n | 0 <= n <= |steps| :: Refines(states[n], SpecAfter(steps, n)) {
      forall i | 0 <= i < |steps|
        ensures Quiet(states[i], steps[i])
      {
        RunKeepsInv(states, steps, i, states[i]);
        MatchIsQuiet(states, steps, i, i + 1);
      }
    }
  }

  lemma MatchIsQuiet(states: seq<State>, steps: seq<Step>, i: nat, n: nat)
    requires Run(states, steps) && i < |steps| && n == i + 1 && Inv(states[i])
    requires forall k | 0 <= k <= |steps| :: Refines(states[k], SpecAfter(steps, k))
    ensures Quiet(states[i], steps[i])
  {
    var s, step, t, sp := states[i], steps[i], states[n], SpecAfter(steps, i);
    assert Refines(states[n], SpecAfter(steps, n)) && Refines(s, sp);
    StepRefines(s, sp, step, t);
  }

  /** All operations written in the first `n` steps, in order. */
  function Written(steps: seq<Step>, n: nat): seq<Op>
    requires n <= |steps|
  {
    if n == 0 then []
    else
      match steps[n - 1]
      case WriteStep(ops, _) => Written(steps, n - 1) + ops
      case _ => Written(steps, n - 1)
  }

  lemma {:induction false} ApplyConcat(m: map<UserKey, Bytes>, a: seq<Op>, b: seq<Op>)
    ensures ApplyOps(m, a + b) == ApplyOps(ApplyOps(m, a), b)
    decreases |b|
  {
    if b == [] {
      assert a + b == a;
    } else {
      var n := |b| - 1;
      assert (a + b)[..|a + b| - 1] == a + b[..|b| - 1];
      ApplyConcat(m, a, b[..|b| - 1]);
    }
  }

  lemma {:induction false} NowIsWritten(steps: seq<Step>, n: nat)
    requires n <= |steps|
    ensures SpecAfter(steps, n).now == ApplyOps(map[], Written(steps, n))
  {
    if n > 0 {
      NowIsWritten(steps, n - 1);
      match steps[n - 1] {
        case WriteStep(ops, _) => ApplyConcat(map[], Written(steps, n - 1), ops);
        case _ =>
      }
    }
  }

  /** Durability, read off the disk alone: after any run and any crash, DB::Open brings back every entry there was. */
  lemma CrashLosesNothing(states: seq<State>, steps: seq<Step>, base: seq<Level>, files: Level, t: State)
    requires Run(states, steps) && Recovers(states[|steps|].disk, base, files, t)
    ensures Inv(t) && All(t) == All(states[|steps|]) && t.lastSequence == states[|steps|].lastSequence
  {
    RunKeepsInv(states, steps, |steps|, states[|steps|]);
    CrashKeepsAll(states[|steps|], base, files, t);
  }

  /** And so every key reads as all acknowledged writes, applied in order, leave it. */
  lemma NoWriteIsLost(states: seq<State>, steps: seq<Step>, base: seq<Level>, files: Level, t: State)
    requires Run(states, steps) && QuietUpTo(states, steps, |steps|) && Recovers(states[|steps|].disk, base, files, t)
    ensures forall u :: Visible(All(t), u, t.lastSequence) == Lookup(ApplyOps(map[], Written(steps, |steps|)), u)
  {
    CrashLosesNothing(states, steps, base, files, t);
    RunRefines(states, steps, |steps|);
    NowIsWritten(steps, |steps|);
  }
}
