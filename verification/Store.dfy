/** The database as a state machine: what is on disk, what is in memory, and every step that changes either
    (db/db_impl.cc).  Reads are measured against a plain map with frozen copies for the held snapshots. */
module Store {
  import opened DbFormat
  import opened Version
  import opened Inputs
  import opened VersionEdits
  import opened LsmSteps
  import opened CompactionWork
  import opened CompactionSteps

  /** The three kinds of file that survive a crash. */
  datatype Disk = Disk(manifest: seq<VersionEdit>, logs: map<nat, seq<Entry>>, tables: map<nat, seq<Entry>>)

  /** `logNumber` is the oldest log still needed, `logfileNumber` the one being written.
      `pinned` are older versions kept alive by iterators; `snapshots` are the held ones, oldest first. */
  datatype State = State(disk: Disk,
                         mem: seq<Entry>, imm: Option<seq<Entry>>, levels: seq<Level>,
                         logNumber: nat, logfileNumber: nat, nextFile: nat, lastSequence: nat,
                         snapshots: seq<nat>, pinned: seq<seq<Level>>)

  function ImmEntries(s: State): seq<Entry> {
    if s.imm.Some? then s.imm.value else []
  }

  ghost function MemEntries(s: State): set<Entry> {
    Contents(s.mem) + Contents(ImmEntries(s))
  }

  /** Every entry a reader can reach. */
  ghost function All(s: State): set<Entry> {
    MemEntries(s) + AllEntries(s.levels)
  }

  // ----- the invariant -----

  /** Memtable over immutable memtable over files. */
  ghost predicate MemLayers(mem: seq<Entry>, imm: seq<Entry>, files: set<Entry>) {
    && Sorted(mem) && Sorted(imm)
    && NewerSet(Contents(mem), Contents(imm))
    && NewerSet(Contents(mem) + Contents(imm), files)
    && UniqueVersions(Contents(mem) + Contents(imm) + files)
  }

  ghost predicate FilesOk(levels: seq<Level>) {
    Lsm(levels) && UniqueNumbers(levels) && forall l | 0 <= l < NUM_LEVELS :: FileSorted(levels[l])
  }

  ghost predicate Layered(s: State) {
    FilesOk(s.levels) && MemLayers(s.mem, ImmEntries(s), AllEntries(s.levels))
  }

  ghost predicate UpTo(es: set<Entry>, last: nat) {
    forall e | e in es :: e.key.seqno <= last
  }

  ghost predicate SnapshotsOk(snapshots: seq<nat>, last: nat) {
    && (forall i | 0 <= i < |snapshots| :: snapshots[i] <= last)
    && (forall i, j | 0 <= i < j < |snapshots| :: snapshots[i] <= snapshots[j])
  }

  ghost predicate Bounded(s: State) {
    s.lastSequence < MAX_SEQUENCE && UpTo(All(s), s.lastSequence) && SnapshotsOk(s.snapshots, s.lastSequence)
  }

  /** Entries of the logs numbered lo up to but not including hi. */
  ghost function LogEntries(logs: map<nat, seq<Entry>>, lo: nat, hi: nat): set<Entry> {
    set n, e | n in logs && lo <= n < hi && e in logs[n] :: e
  }

  ghost predicate Appended(log: seq<Entry>) {
    forall i, j | 0 <= i < j < |log| :: log[i].key.seqno < log[j].key.seqno
  }

  /** The log being written holds `mem`, the older live logs hold `imm`; all in sequence order. */
  ghost predicate LogsOk(logs: map<nat, seq<Entry>>, logNumber: nat, logfileNumber: nat, mem: set<Entry>, imm: set<Entry>) {
    && logNumber <= logfileNumber && logfileNumber in logs
    && Contents(logs[logfileNumber]) == mem
    && LogEntries(logs, logNumber, logfileNumber) == imm
    && (forall n | n in logs :: n <= logfileNumber)
    && (forall n | n in logs && logNumber <= n :: Appended(logs[n]))
    && (forall m, n, d, e | m in logs && n in logs && logNumber <= m < n && d in logs[m] && e in logs[n] ::
          d.key.seqno < e.key.seqno)
  }

  ghost predicate Logged(s: State) {
    && s.logfileNumber < s.nextFile
    && LogsOk(s.disk.logs, s.logNumber, s.logfileNumber, Contents(s.mem), Contents(ImmEntries(s)))
  }

  /** Every table of a version is on disk, whole. */
  ghost predicate Stored(tables: map<nat, seq<Entry>>, levels: seq<Level>) {
    forall l, f | 0 <= l < |levels| && f in levels[l] :: f.number in tables && tables[f.number] == f.entries
  }

  ghost predicate NumbersBelow(levels: seq<Level>, n: nat) {
    forall l, f | 0 <= l < |levels| && f in levels[l] :: f.number < n
  }

  /** The levels LogAndApply built, edit by edit. */
  ghost predicate Replays(manifest: seq<VersionEdit>, levels: seq<Level>) {
    |levels| == NUM_LEVELS && forall l | 0 <= l < NUM_LEVELS :: levels[l] == OneByOne([], manifest, l)
  }

  /** Every table number a manifest names is allocated. */
  ghost predicate NamesBelow(manifest: seq<VersionEdit>, n: nat) {
    forall i, p | 0 <= i < |manifest| && p in manifest[i].newFiles :: p.1.number < n
  }

  /** A manifest that describes `levels`, and that recovery by one Builder reads the same way. */
  ghost predicate Describes(manifest: seq<VersionEdit>, levels: seq<Level>) {
    && manifest != []
    && Replays(manifest, levels)
    && (forall l | 0 <= l < NUM_LEVELS :: FreshAdds([], manifest, l))
    && NeverDeeper(manifest, levels)
    && NumbersBelow(levels, manifest[|manifest| - 1].nextFileNumber)
  }

  /** The sequence number on record is the last one, or the last one is still in memory. */
  ghost predicate SequenceKept(recorded: nat, last: nat, mem: set<Entry>) {
    recorded <= last && (recorded < last ==> exists e | e in mem :: e.key.seqno == last)
  }

  ghost predicate Recorded(s: State) {
    && Describes(s.disk.manifest, s.levels) && NamesBelow(s.disk.manifest, s.nextFile)
    && var last := s.disk.manifest[|s.disk.manifest| - 1];
       && last.logNumber == s.logNumber
       && last.nextFileNumber <= s.nextFile
       && SequenceKept(last.lastSequence, s.lastSequence, MemEntries(s))
  }

  /** A file has never been recorded at a level deeper than the one it is at. */
  ghost predicate NeverDeeper(manifest: seq<VersionEdit>, levels: seq<Level>) {
    forall i, p, l, f | 0 <= i < |manifest| && p in manifest[i].newFiles
                        && 0 <= l < |levels| && f in levels[l] && l < p.0 :: p.1.number != f.number
  }

  ghost predicate Inv(s: State) {
    && |s.levels| == NUM_LEVELS
    && Layered(s) && Bounded(s) && Logged(s) && Recorded(s)
    && NumbersBelow(s.levels, s.nextFile)
    && Stored(s.disk.tables, s.levels)
    && PinnedOk(s)
  }

  /** The tables of every version an iterator pins are still there. */
  ghost predicate PinnedOk(s: State) {
    forall i | 0 <= i < |s.pinned| :: Stored(s.disk.tables, s.pinned[i]) && NumbersBelow(s.pinned[i], s.nextFile)
  }

  // ----- the specification: a map and its frozen copies -----

  datatype Spec = Spec(now: map<UserKey, Bytes>, held: seq<map<UserKey, Bytes>>)

  function Lookup(m: map<UserKey, Bytes>, u: UserKey): Option<Bytes> {
    if u in m then Some(m[u]) else None
  }

  ghost predicate ReadsAs(es: set<Entry>, snapshots: seq<nat>, last: nat, sp: Spec) {
    && |sp.held| == |snapshots|
    && (forall u :: Visible(es, u, last) == Lookup(sp.now, u))
    && (forall i, u | 0 <= i < |sp.held| :: Visible(es, u, snapshots[i]) == Lookup(sp.held[i], u))
  }

  ghost predicate Refines(s: State, sp: Spec) {
    ReadsAs(All(s), s.snapshots, s.lastSequence, sp)
  }

  // ----- writes -----

  datatype Op = Put(key: UserKey, value: Bytes) | Delete(key: UserKey)

  function ApplyOps(m: map<UserKey, Bytes>, ops: seq<Op>): map<UserKey, Bytes> {
    if ops == [] then m
    else
      var front := ApplyOps(m, ops[..|ops| - 1]);
      match ops[|ops| - 1]
      case Put(k, v) => front[k := v]
      case Delete(k) => front - {k}
  }

  function EntryOf(op: Op, seqno: nat): Entry {
    match op
    case Put(k, v) => Entry(InternalKey(k, seqno, TypeValue), v)
    case Delete(k) => Entry(InternalKey(k, seqno, TypeDeletion), [])
  }

  /** The entries of a batch: consecutive sequence numbers from `first` on. */
  ghost predicate IsBatch(ops: seq<Op>, first: nat, batch: seq<Entry>) {
    |batch| == |ops| && forall i | 0 <= i < |batch| :: batch[i] == EntryOf(ops[i], first + i)
  }

  /** A batch goes to the end of the log and, in key order, into the memtable. */
  ghost predicate Wrote(s: State, batch: seq<Entry>, t: State) {
    && s.logfileNumber in s.disk.logs
    && Sorted(t.mem) && Contents(t.mem) == Contents(s.mem) + Contents(batch)
    && t == s.(disk := s.disk.(logs := s.disk.logs[s.logfileNumber := s.disk.logs[s.logfileNumber] + batch]),
               mem := t.mem, lastSequence := s.lastSequence + |batch|)
  }

  // ----- steps that only rearrange -----

  /** MakeRoomForWrite: a fresh log, and the full memtable becomes immutable. */
  function Rotated(s: State): State {
    s.(disk := s.disk.(logs := s.disk.logs[s.nextFile := []]),
       mem := [], imm := Some(s.mem), logfileNumber := s.nextFile, nextFile := s.nextFile + 1)
  }

  /** The tables of `files` are on disk, and no other table has changed. */
  ghost predicate TablesWritten(before: map<nat, seq<Entry>>, after: map<nat, seq<Entry>>, files: Level) {
    && (forall f | f in files :: f.number in after && after[f.number] == f.entries)
    && (forall n | n in before :: n in after && (n in Numbers(files) || after[n] == before[n]))
  }

  ghost predicate EditApplied(before: seq<Level>, after: seq<Level>, edit: VersionEdit) {
    |before| == |after| == NUM_LEVELS && forall l | 0 <= l < NUM_LEVELS :: after[l] == StepFiles(before[l], edit, l)
  }

  /** LogAndApply, the tables of the new files being written already. */
  ghost predicate Installed(s: State, edit: VersionEdit, written: Level, t: State) {
    && edit.lastSequence == s.lastSequence
    && EditApplied(s.levels, t.levels, edit)
    && TablesWritten(s.disk.tables, t.disk.tables, written)
    && t == s.(disk := Disk(s.disk.manifest + [edit], s.disk.logs, t.disk.tables),
               levels := t.levels, logNumber := edit.logNumber, nextFile := edit.nextFileNumber, imm := t.imm)
  }

  function TableFor(number: nat, size: nat, es: seq<Entry>): FileMetaData
    requires es != []
  {
    FileMetaData(number, size, es[0].key, es[|es| - 1].key, es)
  }

  function FlushEdit(s: State, newFiles: seq<(nat, FileMetaData)>): VersionEdit {
    VersionEdit({}, newFiles, s.logfileNumber, s.nextFile + 1, s.lastSequence)
  }

  /** CompactMemTable at the level PickLevelForMemTableOutput picked; an empty memtable leaves no table. */
  ghost predicate Flushed(s: State, level: nat, size: nat, t: State) {
    && s.imm.Some? && t.imm.None?
    && if s.imm.value == [] then
         Installed(s, FlushEdit(s, []), [], t)
       else
         var f := TableFor(s.nextFile, size, s.imm.value);
         MayFlushTo(s.levels, f, level) && Installed(s, FlushEdit(s, [(level, f)]), [f], t)
  }

  ghost predicate MayFlushTo(levels: seq<Level>, f: FileMetaData, level: nat) {
    level <= MAX_MEM_COMPACT_LEVEL < |levels| && (0 < level ==> forall l | 0 <= l <= level :: NoOverlap(levels[l], f))
  }

  function MoveEdit(s: State, level: nat, f: FileMetaData): VersionEdit {
    VersionEdit({(level, f.number)}, [(level + 1, f)], s.logNumber, s.nextFile, s.lastSequence)
  }

  /** A trivial move. */
  ghost predicate Moved(s: State, level: nat, f: FileMetaData, t: State) {
    t.imm == s.imm && Installed(s, MoveEdit(s, level, f), [], t)
  }

  function NumbersAt(level: nat, files: Level): set<(nat, nat)> {
    set f | f in files :: (level, f.number)
  }

  function At(level: nat, files: Level): seq<(nat, FileMetaData)> {
    seq(|files|, i requires 0 <= i < |files| => (level, files[i]))
  }

  function CompactionEdit(s: State, level: nat, c: Choice, outputs: Level): VersionEdit {
    VersionEdit(NumbersAt(level, c.inputs0) + NumbersAt(level + 1, c.inputs1), At(level + 1, outputs),
                s.logNumber, s.nextFile + |outputs|, s.lastSequence)
  }

  /** InstallCompactionResults. */
  ghost predicate Compacted(s: State, level: nat, c: Choice, outputs: Level, t: State) {
    t.imm == s.imm && Installed(s, CompactionEdit(s, level, c, outputs), outputs, t)
  }

  function SmallestSnapshot(s: State): nat {
    if s.snapshots == [] then s.lastSequence else s.snapshots[0]
  }

  function LiveNumbers(levels: seq<Level>): set<nat> {
    set l, f | 0 <= l < |levels| && f in levels[l] :: f.number
  }

  function KeptLogs(logs: map<nat, seq<Entry>>, logNumber: nat): map<nat, seq<Entry>> {
    map n | n in logs && logNumber <= n :: logs[n]
  }

  function KeptTables(tables: map<nat, seq<Entry>>, live: set<nat>): map<nat, seq<Entry>> {
    map n | n in tables && n in live :: tables[n]
  }

  function LiveTables(s: State): set<nat> {
    LiveNumbers(s.levels) + set v, n | v in s.pinned && n in LiveNumbers(v) :: n
  }

  /** DeleteObsoleteFiles: old logs and tables of no live version go. */
  ghost predicate Swept(s: State, t: State) {
    t == s.(disk := Disk(s.disk.manifest, KeptLogs(s.disk.logs, s.logNumber), KeptTables(s.disk.tables, LiveTables(s))))
  }

  // ----- recovery -----

  ghost function LiveLogEntries(logs: map<nat, seq<Entry>>, logNumber: nat): set<Entry> {
    set n, e | n in logs && logNumber <= n && e in logs[n] :: e
  }

  ghost predicate IsMaxSequence(es: set<Entry>, floor: nat, m: nat) {
    && floor <= m
    && (forall e | e in es :: e.key.seqno <= m)
    && (m == floor || exists e | e in es :: e.key.seqno == m)
  }

  function LevelFiles(levels: seq<Level>, l: nat): seq<(nat, FileMetaData)>
    requires l <= |levels|
  {
    if l == 0 then [] else LevelFiles(levels, l - 1) + At(l - 1, levels[l - 1])
  }

  /** WriteSnapshot. */
  function SnapshotEdit(levels: seq<Level>, last: VersionEdit): VersionEdit {
    VersionEdit({}, LevelFiles(levels, |levels|), last.logNumber, last.nextFileNumber, last.lastSequence)
  }

  function LastEdit(d: Disk): VersionEdit
    requires d.manifest != []
  {
    d.manifest[|d.manifest| - 1]
  }

  /** The one edit DB::Open installs. */
  function OpenEdit(files: Level, t: State): VersionEdit {
    VersionEdit({}, At(0, files), t.logNumber, t.nextFile, t.lastSequence)
  }

  /** Recovery numbers its tables upward, past every number on record. */
  ghost predicate RecoveredNumbers(files: Level, lo: nat, hi: nat) {
    && (forall f | f in files :: lo < f.number < hi)
    && (forall i, j | 0 <= i < j < |files| :: files[i].number < files[j].number)
  }

  ghost predicate LaterIsNewer(files: Level) {
    forall i, j, x, y | 0 <= i < j < |files| && x in files[i].entries && y in files[j].entries :: x.key.seqno < y.key.seqno
  }

  /** The replayed version `base` gains the level-0 tables `files`, and a new manifest starts with a snapshot of `base`. */
  ghost predicate Reopened(d: Disk, base: seq<Level>, files: Level, t: State) {
    && d.manifest != []
    && AllValid(files) && LaterIsNewer(files) && RecoveredNumbers(files, LastEdit(d).nextFileNumber, t.nextFile)
    && LastEdit(d).nextFileNumber < t.nextFile
    && EditApplied(base, t.levels, OpenEdit(files, t))
    && TablesWritten(d.tables, t.disk.tables, files)
    && t.disk.manifest == [SnapshotEdit(base, LastEdit(d)), OpenEdit(files, t)]
  }

  /** What DB::Open makes of a disk: the manifest replayed in one go (`base`), the live logs turned into level-0
      tables in order and cut anywhere, a new log, empty memory. */
  ghost predicate Recovers(d: Disk, base: seq<Level>, files: Level, t: State) {
    && |base| == NUM_LEVELS && (forall l | 0 <= l < NUM_LEVELS :: base[l] == AllAtOnce([], d.manifest, l))
    && Reopened(d, base, files, t)
    && Entries(files) == LiveLogEntries(d.logs, LastEdit(d).logNumber)
    && IsMaxSequence(Entries(files), LastEdit(d).lastSequence, t.lastSequence)
    && (forall n | n in d.logs && LastEdit(d).logNumber <= n :: n < t.logNumber)
    && LastEdit(d).nextFileNumber < t.logNumber < t.nextFile
    && t.disk.logs == d.logs[t.logNumber := []]
    && t.mem == [] && t.imm == None && t.snapshots == [] && t.pinned == []
    && t.logfileNumber == t.logNumber
  }

  // ----- all steps -----

  datatype Step =
    | WriteStep(ops: seq<Op>, batch: seq<Entry>)
    | RotateStep
    | FlushStep(level: nat, size: nat)
    | MoveStep(level: nat, c: Choice, f: FileMetaData)
    | CompactStep(level: nat, c: Choice, input: seq<Entry>, outputs: Level)
    | SweepStep
    | SnapshotStep
    | ReleaseStep(index: nat)
    | PinStep
    | UnpinStep(index: nat)
    | OrphanStep(number: nat, es: seq<Entry>)
    | CrashStep(base: seq<Level>, files: Level)

  ghost predicate Next(s: State, step: Step, t: State)
    requires |s.levels| == NUM_LEVELS
  {
    match step
    case WriteStep(ops, batch) =>
      && s.lastSequence + |ops| < MAX_SEQUENCE
      && IsBatch(ops, s.lastSequence + 1, batch) && Wrote(s, batch, t)
    case RotateStep =>
      s.imm.None? && t == Rotated(s)
    case FlushStep(level, size) =>
      Flushed(s, level, size, t)
    case MoveStep(level, c, f) =>
      && level + 1 < NUM_LEVELS && Selected(s.levels, level, c)
      && c.inputs0 == [f] && c.inputs1 == []
      && Moved(s, level, f, t)
    case CompactStep(level, c, input, outputs) =>
      && level + 1 < NUM_LEVELS && Selected(s.levels, level, c) && MergedInput(c, input)
      && OutputFiles(outputs, s.nextFile)
      && Flatten(outputs) == Kept(s.levels, level, input, |input|, SmallestSnapshot(s))
      && Compacted(s, level, c, outputs, t)
    case SweepStep =>
      Swept(s, t)
    case SnapshotStep =>
      t == s.(snapshots := s.snapshots + [s.lastSequence])
    case ReleaseStep(i) =>
      i < |s.snapshots| && t == s.(snapshots := s.snapshots[..i] + s.snapshots[i + 1..])
    case PinStep =>
      t == s.(pinned := s.pinned + [s.levels])
    case UnpinStep(i) =>
      i < |s.pinned| && t == s.(pinned := s.pinned[..i] + s.pinned[i + 1..])
    case OrphanStep(n, es) =>
      s.nextFile <= n && t == s.(disk := s.disk.(tables := s.disk.tables[n := es]))
    case CrashStep(base, files) =>
      Recovers(s.disk, base, files, t)
  }

  /** The one kind of step that can change what a reader sees: a compaction that throws away a deletion marker while
      an entry outside its inputs still holds a value the marker hides. */
  ghost predicate Quiet(s: State, step: Step)
    requires |s.levels| == NUM_LEVELS
  {
    step.CompactStep? ==> NothingResurfaces(s.levels, step.level, step.c, step.input, MemEntries(s), SmallestSnapshot(s))
  }

  function NextSpec(sp: Spec, step: Step): Spec {
    match step
    case WriteStep(ops, _) => sp.(now := ApplyOps(sp.now, ops))
    case SnapshotStep => sp.(held := sp.held + [sp.now])
    case ReleaseStep(i) => if i < |sp.held| then sp.(held := sp.held[..i] + sp.held[i + 1..]) else sp
    case CrashStep(_, _) => sp.(held := [])
    case _ => sp
  }
}
