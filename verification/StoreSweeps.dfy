/** What collecting obsolete files leaves on disk, and that nothing obsolete stays for ever. */
module StoreSweeps {
  import opened DbFormat
  import opened Version
  import opened Inputs
  import opened VersionEdits
  import opened LsmSteps
  import opened CompactionWork
  import opened Store
  import opened StoreSteps

  /** Some file of the version has this number. */
  ghost predicate NamedBy(levels: seq<Level>, n: nat) {
    exists l, f :: 0 <= l < |levels| && f in levels[l] && f.number == n
  }

  ghost predicate Needed(s: State, n: nat) {
    NamedBy(s.levels, n) || exists v | v in s.pinned :: NamedBy(v, n)
  }

  lemma LiveIsNamed(levels: seq<Level>, n: nat)
    ensures n in LiveNumbers(levels) <==> NamedBy(levels, n)
  {
  }

  lemma LiveIsNeeded(s: State, n: nat)
    ensures n in LiveTables(s) <==> Needed(s, n)
  {
    LiveIsNamed(s.levels, n);
    forall v | v in s.pinned
      ensures n in LiveNumbers(v) <==> NamedBy(v, n)
    {
      LiveIsNamed(v, n);
    }
  }

  /** Main result: a table stays if and only if the current version or a pinned one names it, a log if and only if it is
      not older than the oldest that is needed; what stays is as it was, and nothing else changes. */
  lemma SweepDeletesExactly(s: State, t: State)
    requires Swept(s, t)
    ensures forall n :: n in t.disk.tables <==> n in s.disk.tables && Needed(s, n)
    ensures forall n :: n in t.disk.logs <==> n in s.disk.logs && s.logNumber <= n
    ensures forall n | n in t.disk.tables :: t.disk.tables[n] == s.disk.tables[n]
    ensures forall n | n in t.disk.logs :: t.disk.logs[n] == s.disk.logs[n]
    ensures t == s.(disk := t.disk) && t.disk.manifest == s.disk.manifest
  {
    forall n
      ensures n in t.disk.tables <==> n in s.disk.tables && Needed(s, n)
    {
      if n in s.disk.tables {
        LiveIsNeeded(s, n);
      }
    }
  }

  lemma InputsUnnamed(before: seq<Level>, after: seq<Level>, level: nat, c: Choice, outputs: Level, first: nat, f: FileMetaData)
    requires level + 1 < NUM_LEVELS && Selected(before, level, c) && UniqueNumbers(before) && NumbersBelow(before, first)
    requires OutputFiles(outputs, first) && Becomes(before, after, Gone(level, c), PlacedAt(level + 1, outputs))
    requires f in c.inputs0 + c.inputs1
    ensures !NamedBy(after, f.number)
  {
    var at := if f in c.inputs0 then level else level + 1;
    assert f in before[at] && (at, f) in Gone(level, c);
    forall l, g | 0 <= l < |after| && g in after[l]
      ensures g.number != f.number
    {
      if (l, g) in PlacedAt(level + 1, outputs) {
        var i :| 0 <= i < |outputs| && outputs[i] == g;
      }
    }
  }

  /** After a compaction and a sweep, the tables it read are gone, unless an iterator still holds a version that has them. */
  lemma CompactedInputsGo(s: State, level: nat, c: Choice, input: seq<Entry>, outputs: Level, t: State, u: State, f: FileMetaData)
    requires Inv(s) && Next(s, CompactStep(level, c, input, outputs), t) && Swept(t, u)
    requires f in c.inputs0 + c.inputs1 && forall v | v in t.pinned :: !NamedBy(v, f.number)
    ensures f.number !in u.disk.tables
  {
    CompactUnnames(s, level, c, outputs, t, f);
    SweptUnneeded(t, u, f.number);
  }

  lemma CompactUnnames(s: State, level: nat, c: Choice, outputs: Level, t: State, f: FileMetaData)
    requires FilesOk(s.levels) && NamesBelow(s.disk.manifest, s.nextFile) && NumbersBelow(s.levels, s.nextFile)
    requires level + 1 < NUM_LEVELS && Selected(s.levels, level, c)
    requires OutputFiles(outputs, s.nextFile) && Compacted(s, level, c, outputs, t) && f in c.inputs0 + c.inputs1
    ensures !NamedBy(t.levels, f.number)
  {
    CompactShape(s, level, c, outputs, t);
    InputsUnnamed(s.levels, t.levels, level, c, outputs, s.nextFile, f);
  }

  lemma SweptUnneeded(s: State, t: State, n: nat)
    requires Swept(s, t) && !Needed(s, n)
    ensures n !in t.disk.tables
  {
    SweepDeletesExactly(s, t);
  }

  /** After a flush and a sweep, the log being written is the only one. */
  lemma FlushedLogsGo(s: State, level: nat, size: nat, t: State, u: State)
    requires Inv(s) && Flushed(s, level, size, t) && Swept(t, u)
    ensures forall n :: n in u.disk.logs <==> n == s.logfileNumber
  {
    SweepDeletesExactly(t, u);
  }
}
