/** Group commit (DBImpl::Write and BuildBatchGroup in db/db_impl.cc) as a protocol of steps: threads queue up, the front
    one writes for a group of those behind it with the mutex released, and wakes them.

    The deque of waiting threads is only ever pushed at the back and popped at the front, so threads are numbered in the
    order in which they join, and the deque holds those from number `head` on. */
module GroupCommit {
  import opened DbFormat
  import opened Store
  import opened StoreWrites
  import StoreRuns

  datatype Status = Good | Failed

  /** Runnable: about to look at the queue.  Leading: at the front, holding the queue.  Writing: the mutex is released
      and the first `size` of the queue are being written; their record may have been added to the log, and `inserted`
      of their operations are in the memtable. */
  datatype Phase = Runnable | Asleep | Leading | Writing(size: nat, logged: bool, inserted: nat) | Returned

  /** `batch` is None for a writer that only wants the memtable switched. */
  datatype Writer = Writer(batch: Option<seq<Op>>, bytes: nat, sync: bool, phase: Phase, done: bool, status: Status)

  /** A batch that has been applied, from sequence number `first` on. */
  datatype Commit = Commit(writer: nat, first: nat, ops: seq<Op>)

  /** The operations of a group as one record of the log. */
  datatype LogRecord = LogRecord(first: nat, ops: seq<Op>, synced: bool)

  /** `seen` are the entries published so far, `mem` those in the memtable too; the database began with the entries
      `base`, which read as the map `start`. `log` are the records added since, those from number `file` on in the log
      file that is open now. `broken` stands for a background error: all writes from then on fail. */
  datatype Db = Db(writers: seq<Writer>, head: nat, last: nat, mem: set<Entry>, seen: set<Entry>,
                   commits: seq<Commit>, base: set<Entry>, start: map<UserKey, Bytes>,
                   log: seq<LogRecord>, file: nat, broken: bool)

  // ----- groups -----

  function OpsOf(w: Writer): seq<Op> {
    if w.batch.Some? then w.batch.value else []
  }

  function GroupOps(ws: seq<Writer>, n: nat): seq<Op>
    requires n <= |ws|
  {
    if n == 0 then [] else GroupOps(ws, n - 1) + OpsOf(ws[n - 1])
  }

  function GroupBytes(ws: seq<Writer>, n: nat): nat
    requires n <= |ws|
  {
    if n == 0 then 0 else GroupBytes(ws, n - 1) + if ws[n - 1].batch.Some? then ws[n - 1].bytes else 0
  }

  function MaxSize(size: nat): nat {
    if size <= 0x20000 then size + 0x20000 else 0x100000
  }

  predicate CanJoin(ws: seq<Writer>, i: nat)
    requires 0 < i < |ws|
  {
    && !(ws[i].sync && !ws[0].sync)
    && (ws[i].batch.Some? ==> GroupBytes(ws, i + 1) <= MaxSize(ws[0].bytes))
  }

  /** The first `n` of the queue: as many as may join the front one. */
  ghost predicate IsGroup(ws: seq<Writer>, n: nat) {
    && 0 < n <= |ws|
    && (forall i | 0 < i < n :: CanJoin(ws, i))
    && (n < |ws| ==> !CanJoin(ws, n))
  }

  /** The loop of BuildBatchGroup: a group led by a write without sync has none with it; a group of several keeps to
      the size its leader allows; and it ends only where the queue does or the next would break one of these rules. */
  method BuildBatchGroup(ws: seq<Writer>) returns (n: nat, result: seq<Op>)
    requires ws != [] && ws[0].batch.Some?
    ensures IsGroup(ws, n) && result == GroupOps(ws, n)
    ensures 0 < n <= |ws| && forall i | 0 <= i < n :: ws[i].sync ==> ws[0].sync
    ensures var most := if ws[0].bytes <= 0x20000 then ws[0].bytes + 0x20000 else 0x100000;
            && (GroupBytes(ws, n) <= most || GroupBytes(ws, n) == ws[0].bytes)
            && (forall i | 0 < i < n && ws[i].batch.Some? :: ws[0].bytes + ws[i].bytes <= most)
            && (n < |ws| ==>
                  || (ws[n].sync && !ws[0].sync)
                  || (ws[n].batch.Some? && most < GroupBytes(ws, n) + ws[n].bytes))
  {
    result := ws[0].batch.value;
    var size := ws[0].bytes;
    var maxSize := 0x100000;
    if size <= 0x20000 {
      maxSize := size + 0x20000;
    }
    n := 1;
    assert GroupOps(ws, 1) == [] + ws[0].batch.value == ws[0].batch.value;
    while n < |ws|
      invariant 1 <= n <= |ws| && forall i | 0 < i < n :: CanJoin(ws, i)
      invariant result == GroupOps(ws, n) && size == GroupBytes(ws, n)
      invariant ws[0].bytes <= size && (size <= maxSize || size == ws[0].bytes)
      invariant forall i | 0 < i < n && ws[i].batch.Some? :: ws[0].bytes + ws[i].bytes <= maxSize
      invariant forall i | 0 <= i < n :: ws[i].sync ==> ws[0].sync
    {
      var w := ws[n];
      if w.sync && !ws[0].sync {
        break;
      }
      if w.batch.Some? {
        size := size + w.bytes;
        if size > maxSize {
          break;
        }
        result := result + w.batch.value;
      }
      n := n + 1;
    }
  }

  // ----- the protocol -----

  function Queue(s: Db): seq<Writer>
    requires s.head <= |s.writers|
  {
    s.writers[s.head..]
  }

  /** cv.Signal wakes a waiting thread, and no other. */
  function Signalled(w: Writer): Writer {
    if w.phase.Asleep? then w.(phase := Runnable) else w
  }

  function Popped(s: Db, n: nat, status: Status, i: nat): Writer
    requires i < |s.writers|
  {
    var w := s.writers[i];
    if i == s.head then w.(phase := Returned, status := status)
    else if s.head < i < s.head + n then Signalled(w.(done := true, status := status))
    else if i == s.head + n then Signalled(w)
    else w
  }

  /** The leader hands its status to its group, pops it, and signals the new front. */
  function Finish(s: Db, n: nat, status: Status): Db {
    s.(writers := seq(|s.writers|, i requires 0 <= i < |s.writers| => Popped(s, n, status, i)), head := s.head + n)
  }

  function GroupCommits(ws: seq<Writer>, head: nat, first: nat, n: nat): seq<Commit>
    requires n <= |ws|
  {
    if n == 0 then []
    else
      GroupCommits(ws, head, first, n - 1)
      + if ws[n - 1].batch.Some? then [Commit(head + n - 1, first + |GroupOps(ws, n - 1)|, ws[n - 1].batch.value)] else []
  }

  datatype Step =
    | Join(batch: Option<seq<Op>>, bytes: nat, sync: bool)
    | Look(w: nat)
    | Wake(w: nat)
    | Refuse
    | Skip
    | Switch
    | Begin(n: nat)
    | LogFails(last: nat)
    | AddRecord(first: nat)
    | Sync
    | SyncFails(last: nat)
    | Insert(i: nat, e: Entry)
    | Publish(last: nat, first: nat)

  function WithPhase(s: Db, w: nat, p: Phase): Db
    requires w < |s.writers|
  {
    s.(writers := s.writers[w := s.writers[w].(phase := p)])
  }

  /** The operations of the first `n` waiting threads. */
  function FrontOps(s: Db, n: nat): seq<Op>
    requires s.head + n <= |s.writers|
  {
    GroupOps(Queue(s), n)
  }

  /** One more operation of the group is in the memtable, as entry `e`. */
  function Inserted(s: Db, p: Phase, e: Entry): Db
    requires s.head < |s.writers|
  {
    WithPhase(s, s.head, p).(mem := s.mem + {e})
  }

  function Published(s: Db, last: nat, commits: seq<Commit>): Db {
    s.(last := last, seen := s.mem, commits := s.commits + commits)
  }

  /** Sync of the open log file. */
  function Synced(log: seq<LogRecord>, file: nat): (l: seq<LogRecord>)
    ensures |l| == |log|
  {
    seq(|log|, r requires 0 <= r < |log| => if file <= r then log[r].(synced := true) else log[r])
  }

  predicate LastSynced(s: Db) {
    s.log != [] && s.log[|s.log| - 1].synced
  }

  /** The leader has done with the log. */
  predicate LogDone(s: Db)
    requires FrontIn(s, false)
  {
    s.writers[s.head].phase.logged && (s.writers[s.head].sync ==> LastSynced(s))
  }

  predicate FrontIn(s: Db, leading: bool) {
    s.head < |s.writers| && if leading then s.writers[s.head].phase.Leading? else s.writers[s.head].phase.Writing?
  }

  ghost predicate Next(s: Db, step: Step, t: Db) {
    match step
    case Join(batch, bytes, sync) =>
      t == s.(writers := s.writers + [Writer(batch, bytes, sync, Runnable, false, Good)])
    case Look(w) =>
      && w < |s.writers| && s.writers[w].phase.Runnable?
      && t == WithPhase(s, w, if s.writers[w].done then Returned else if w == s.head then Leading else Asleep)
    case Wake(w) =>
      w < |s.writers| && s.writers[w].phase.Asleep? && t == WithPhase(s, w, Runnable)
    case Refuse =>
      FrontIn(s, true) && t == Finish(s, 1, Failed)
    case Skip =>
      FrontIn(s, true) && !s.broken && s.writers[s.head].batch.None? && t == Finish(s, 1, Good)
    case Switch =>
      FrontIn(s, true) && !s.broken && t == s.(file := |s.log|)
    case Begin(n) =>
      && FrontIn(s, true) && !s.broken && s.writers[s.head].batch.Some?
      && IsGroup(Queue(s), n) && t == WithPhase(s, s.head, Writing(n, false, 0))
    case AddRecord(first) =>
      && FrontIn(s, false) && !s.writers[s.head].phase.logged && s.writers[s.head].phase.inserted == 0
      && var n := s.writers[s.head].phase.size;
         && s.head + n <= |s.writers| && first == s.last + 1
         && t == WithPhase(s, s.head, Writing(n, true, 0)).(log := s.log + [LogRecord(first, FrontOps(s, n), false)])
    case Sync =>
      && FrontIn(s, false) && s.writers[s.head].phase.logged && s.writers[s.head].phase.inserted == 0
      && s.writers[s.head].sync && t == s.(log := Synced(s.log, s.file))
    case SyncFails(last) =>
      && FrontIn(s, false) && s.writers[s.head].phase.logged && s.writers[s.head].phase.inserted == 0
      && s.writers[s.head].sync && !LastSynced(s)
      && var n := s.writers[s.head].phase.size;
         && 0 < n && s.head + n <= |s.writers|
         && last == s.last + |FrontOps(s, n)| && t == Finish(s.(last := last, broken := true), n, Failed)
    case LogFails(last) =>
      && FrontIn(s, false) && !s.writers[s.head].phase.logged && s.writers[s.head].phase.inserted == 0
      && var n := s.writers[s.head].phase.size;
         && 0 < n && s.head + n <= |s.writers|
         && last == s.last + |FrontOps(s, n)| && t == Finish(s.(last := last), n, Failed)
    case Insert(i, e) =>
      && FrontIn(s, false) && LogDone(s)
      && var p := s.writers[s.head].phase;
         && s.head + p.size <= |s.writers| && p.inserted < |FrontOps(s, p.size)|
         && i == p.inserted + 1 && e == EntryOf(FrontOps(s, p.size)[p.inserted], s.last + i)
         && t == Inserted(s, Writing(p.size, true, i), e)
    case Publish(last, first) =>
      && FrontIn(s, false) && LogDone(s)
      && var n := s.writers[s.head].phase.size;
         && 0 < n && s.head + n <= |s.writers| && s.writers[s.head].phase.inserted == |FrontOps(s, n)|
         && last == s.last + |FrontOps(s, n)| && first == s.last + 1
         && t == Finish(Published(s, last, GroupCommits(Queue(s), s.head, first, n)), n, Good)
  }

  // ----- the invariant -----

  /** Who may be where: only the front thread leads, and it is never left asleep; nobody who left the queue sleeps. */
  ghost predicate Phases(s: Db) {
    && s.head <= |s.writers|
    && (forall i | 0 <= i < s.head ::
          s.writers[i].phase.Returned? || (s.writers[i].done && s.writers[i].phase.Runnable?))
    && (forall i | s.head <= i < |s.writers| :: !s.writers[i].done && !s.writers[i].phase.Returned?)
    && (forall i | s.head < i < |s.writers| :: s.writers[i].phase.Runnable? || s.writers[i].phase.Asleep?)
    && (s.head < |s.writers| ==> !s.writers[s.head].phase.Asleep?)
  }

  /** Applied batches stand in queue order on disjoint stretches of sequence numbers. */
  ghost predicate InOrder(commits: seq<Commit>, last: nat) {
    && (forall k | 0 <= k < |commits| :: commits[k].first + |commits[k].ops| <= last + 1)
    && (forall k, l | 0 <= k < l < |commits| ::
          commits[k].writer < commits[l].writer && commits[k].first + |commits[k].ops| <= commits[l].first)
  }

  ghost predicate HasCommit(commits: seq<Commit>, w: nat) {
    exists k :: 0 <= k < |commits| && commits[k].writer == w
  }

  ghost predicate AppliedTo(ws: seq<Writer>, head: nat, w: nat)
    requires w < |ws|
  {
    w < head && ws[w].status.Good? && ws[w].batch.Some?
  }

  /** A batch is applied if and only if its writer has been told that it is. */
  ghost predicate Acknowledged(ws: seq<Writer>, head: nat, commits: seq<Commit>) {
    && (forall k | 0 <= k < |commits| ::
          commits[k].writer < |ws| && ws[commits[k].writer].batch == Some(commits[k].ops))
    && (forall w | 0 <= w < |ws| :: HasCommit(commits, w) <==> AppliedTo(ws, head, w))
  }

  function ApplyAll(m: map<UserKey, Bytes>, commits: seq<Commit>): map<UserKey, Bytes> {
    if commits == [] then m else ApplyOps(ApplyAll(m, commits[..|commits| - 1]), commits[|commits| - 1].ops)
  }

  function Numbered(ops: seq<Op>, first: nat): seq<Entry> {
    seq(|ops|, i requires 0 <= i < |ops| => EntryOf(ops[i], first + i))
  }

  ghost function EntriesOf(commits: seq<Commit>): set<Entry> {
    if commits == [] then {}
    else
      var n := |commits| - 1;
      EntriesOf(commits[..n]) + Contents(Numbered(commits[n].ops, commits[n].first))
  }

  ghost predicate Unfinished(ops: seq<Op>, last: nat, inserted: nat, mem: set<Entry>, seen: set<Entry>) {
    exists batch :: IsBatch(ops, last + 1, batch) && inserted <= |batch| && mem == seen + Contents(batch[..inserted])
  }

  /** What the front thread has put into the memtable and not yet published. */
  ghost predicate Partial(s: Db)
    requires s.head <= |s.writers|
  {
    if FrontIn(s, false) then
      var p := s.writers[s.head].phase;
      0 < p.size && s.head + p.size <= |s.writers| && Unfinished(FrontOps(s, p.size), s.last, p.inserted, s.mem, s.seen)
    else
      s.mem == s.seen
  }

  ghost predicate Shows(seen: set<Entry>, last: nat, m: map<UserKey, Bytes>) {
    && UniqueVersions(seen) && UpTo(seen, last)
    && forall u :: Visible(seen, u, last) == Lookup(m, u)
  }

  ghost predicate Contains(s: Db) {
    && Shows(s.seen, s.last, ApplyAll(s.start, s.commits))
    && s.seen == s.base + EntriesOf(s.commits)
    && InOrder(s.commits, s.last)
  }

  ghost predicate Inv(s: Db) {
    Phases(s) && Acknowledged(s.writers, s.head, s.commits) && Partial(s) && Contains(s)
  }

  // ----- the queue -----

  lemma {:induction false} SameGroup(ws: seq<Writer>, ws': seq<Writer>, n: nat)
    requires n <= |ws| && n <= |ws'| && forall i | 0 <= i < n :: ws[i].batch == ws'[i].batch
    ensures GroupOps(ws, n) == GroupOps(ws', n)
  {
    if 0 < n {
      SameGroup(ws, ws', n - 1);
    }
  }

  ghost predicate SameBatches(s: Db, t: Db) {
    |s.writers| <= |t.writers| && forall i | 0 <= i < |s.writers| :: t.writers[i].batch == s.writers[i].batch
  }

  lemma SameFrontOps(s: Db, t: Db, n: nat)
    requires SameBatches(s, t) && t.head == s.head && s.head + n <= |s.writers|
    ensures FrontOps(t, n) == FrontOps(s, n)
  {
    SameGroup(Queue(s), Queue(t), n);
  }

  /** A step that leaves batches, the front of the queue and the memtable alone leaves the unfinished write alone. */
  lemma PartialFrame(s: Db, t: Db)
    requires s.head == t.head <= |s.writers| && Partial(s) && SameBatches(s, t)
    requires t.mem == s.mem && t.seen == s.seen && t.last == s.last
    requires FrontIn(s, false) <==> FrontIn(t, false)
    requires FrontIn(s, false) ==>
               var p, q := s.writers[s.head].phase, t.writers[s.head].phase; q.size == p.size && q.inserted == p.inserted
    ensures Partial(t)
  {
    if FrontIn(s, false) {
      SameFrontOps(s, t, s.writers[s.head].phase.size);
    }
  }

  lemma FinishPhases(s: Db, n: nat, status: Status)
    requires Phases(s) && 0 < n && s.head + n <= |s.writers|
    requires FrontIn(s, true) || FrontIn(s, false)
    ensures var t := Finish(s, n, status); Phases(t) && !FrontIn(t, false)
  {
  }

  ghost predicate StatusesSet(ws: seq<Writer>, ws': seq<Writer>, head: nat, n: nat, status: Status) {
    && |ws'| == |ws|
    && forall i | 0 <= i < |ws| ::
         && ws'[i].batch == ws[i].batch
         && ws'[i].status == (if head <= i < head + n then status else ws[i].status)
  }

  lemma FinishStatuses(s: Db, n: nat, status: Status)
    requires 0 < n && s.head + n <= |s.writers|
    ensures StatusesSet(s.writers, Finish(s, n, status).writers, s.head, n, status)
  {
  }

  // ----- steps of the queue -----

  lemma JoinAcknowledged(ws: seq<Writer>, head: nat, commits: seq<Commit>, w: Writer)
    requires Acknowledged(ws, head, commits) && head <= |ws|
    ensures Acknowledged(ws + [w], head, commits)
  {
    var ws' := ws + [w];
    assert forall k | 0 <= k < |commits| :: commits[k].writer != |ws|;
    forall v | 0 <= v < |ws'|
      ensures HasCommit(commits, v) <==> AppliedTo(ws', head, v)
    {
      assert v < |ws| ==> (HasCommit(commits, v) <==> AppliedTo(ws, head, v));
    }
  }

  lemma JoinKeeps(s: Db, w: Writer, t: Db)
    requires Inv(s) && w.phase.Runnable? && !w.done && t == s.(writers := s.writers + [w])
    ensures Inv(t)
  {
    PartialFrame(s, t);
    JoinAcknowledged(s.writers, s.head, s.commits, w);
  }

  lemma PhaseAcknowledged(s: Db, w: nat, p: Phase)
    requires Acknowledged(s.writers, s.head, s.commits) && w < |s.writers|
    ensures Acknowledged(WithPhase(s, w, p).writers, s.head, s.commits)
  {
    var ws := WithPhase(s, w, p).writers;
    forall v | 0 <= v < |ws|
      ensures HasCommit(s.commits, v) <==> AppliedTo(ws, s.head, v)
    {
      assert AppliedTo(s.writers, s.head, v) <==> AppliedTo(ws, s.head, v);
    }
  }

  lemma MoveKeeps(s: Db, w: nat, p: Phase)
    requires Inv(s) && w < |s.writers| && !p.Writing? && !s.writers[w].phase.Writing?
    requires w < s.head ==> p.Returned? || (p.Runnable? && s.writers[w].done)
    requires s.head <= w ==> !p.Returned? && (p.Leading? ==> w == s.head) && (w == s.head ==> !p.Asleep?)
    ensures Inv(WithPhase(s, w, p))
  {
    PartialFrame(s, WithPhase(s, w, p));
    PhaseAcknowledged(s, w, p);
  }

  lemma NothingInserted(ops: seq<Op>, last: nat, es: set<Entry>)
    ensures Unfinished(ops, last, 0, es, es)
  {
    var batch := Numbered(ops, last + 1);
    assert IsBatch(ops, last + 1, batch) && Contents(batch[..0]) == {};
  }

  lemma BeginKeeps(s: Db, n: nat)
    requires Inv(s) && FrontIn(s, true) && IsGroup(Queue(s), n)
    ensures Inv(WithPhase(s, s.head, Writing(n, false, 0)))
  {
    var t := WithPhase(s, s.head, Writing(n, false, 0));
    PhaseAcknowledged(s, s.head, Writing(n, false, 0));
    NothingInserted(FrontOps(t, n), t.last, t.mem);
  }

  lemma OneMore(ops: seq<Op>, last: nat, inserted: nat, i: nat, e: Entry, mem: set<Entry>, seen: set<Entry>)
    requires Unfinished(ops, last, inserted, mem, seen) && inserted < |ops| && i == inserted + 1
    requires e == EntryOf(ops[inserted], last + i)
    ensures Unfinished(ops, last, i, mem + {e}, seen)
  {
    var batch :| IsBatch(ops, last + 1, batch) && inserted <= |batch| && mem == seen + Contents(batch[..inserted]);
    var front := batch[..inserted];
    assert batch[..i] == front + [e];
    ContentsOfSnoc(front, e);
    AddOne(seen, Contents(front), e);
  }

  lemma InsertPartial(s: Db, n: nat, inserted: nat, i: nat, e: Entry)
    requires s.head < |s.writers| && Partial(s) && s.writers[s.head].phase == Writing(n, true, inserted)
    requires s.head + n <= |s.writers| && inserted < |FrontOps(s, n)| && i == inserted + 1
    requires e == EntryOf(FrontOps(s, n)[inserted], s.last + i)
    ensures Partial(Inserted(s, Writing(n, true, i), e))
  {
    SameFrontOps(s, Inserted(s, Writing(n, true, i), e), n);
    OneMore(FrontOps(s, n), s.last, inserted, i, e, s.mem, s.seen);
  }

  lemma InsertKeeps(s: Db, n: nat, inserted: nat, i: nat, e: Entry)
    requires Inv(s) && s.head < |s.writers| && s.writers[s.head].phase == Writing(n, true, inserted)
    requires s.head + n <= |s.writers| && inserted < |FrontOps(s, n)| && i == inserted + 1
    requires e == EntryOf(FrontOps(s, n)[inserted], s.last + i)
    ensures Inv(Inserted(s, Writing(n, true, i), e))
  {
    InsertPartial(s, n, inserted, i, e);
    PhaseAcknowledged(s, s.head, Writing(n, true, i));
  }

  // ----- steps that pop a group -----

  lemma NoNewCommits(ws: seq<Writer>, ws': seq<Writer>, head: nat, n: nat, status: Status, commits: seq<Commit>)
    requires Acknowledged(ws, head, commits) && 0 < n && head + n <= |ws| && StatusesSet(ws, ws', head, n, status)
    requires status.Failed? || (n == 1 && ws[head].batch.None?)
    ensures Acknowledged(ws', head + n, commits)
  {
    forall w | 0 <= w < |ws'|
      ensures HasCommit(commits, w) <==> AppliedTo(ws', head + n, w)
    {
      assert HasCommit(commits, w) <==> AppliedTo(ws, head, w);
    }
  }

  /** Sequence numbers that nobody used show nothing. */
  lemma ShowsLater(seen: set<Entry>, last: nat, last': nat, m: map<UserKey, Bytes>)
    requires Shows(seen, last, m) && last <= last'
    ensures Shows(seen, last', m)
  {
    forall u
      ensures Visible(seen, u, last') == Visible(seen, u, last)
    {
      SameCandidatesSameRead(seen, seen, u, last', last);
    }
  }

  lemma QuitKeeps(s: Db, n: nat, last: nat, status: Status)
    requires Inv(s) && 0 < n && s.head + n <= |s.writers| && s.last <= last && s.mem == s.seen
    requires FrontIn(s, true) || FrontIn(s, false)
    requires status.Failed? || (n == 1 && s.writers[s.head].batch.None?)
    ensures Inv(Finish(s.(last := last), n, status))
  {
    var u := s.(last := last);
    FinishPhases(u, n, status);
    FinishStatuses(u, n, status);
    NoNewCommits(s.writers, Finish(u, n, status).writers, s.head, n, status, s.commits);
    ShowsLater(s.seen, s.last, last, ApplyAll(s.start, s.commits));
  }

  lemma NothingYet(s: Db)
    requires s.head <= |s.writers| && Partial(s) && FrontIn(s, false) && s.writers[s.head].phase.inserted == 0
    ensures s.mem == s.seen
  {
  }

  lemma LeaderQuits(s: Db, status: Status)
    requires Inv(s) && FrontIn(s, true) && (status.Failed? || s.writers[s.head].batch.None?)
    ensures Inv(Finish(s, 1, status))
  {
    QuitKeeps(s, 1, s.last, status);
    assert s.(last := s.last) == s;
  }

  /** The log takes no part in what is applied. */
  lemma LogApart(s: Db, log: seq<LogRecord>, file: nat, broken: bool)
    requires Inv(s)
    ensures Inv(s.(log := log, file := file, broken := broken))
  {
    PartialFrame(s, s.(log := log, file := file, broken := broken));
  }

  lemma LogFailsKeeps(s: Db, n: nat, last: nat)
    requires Inv(s) && FrontIn(s, false) && s.writers[s.head].phase.inserted == 0
    requires 0 < n && s.head + n <= |s.writers| && last == s.last + |FrontOps(s, n)|
    ensures Inv(Finish(s.(last := last), n, Failed))
  {
    NothingYet(s);
    QuitKeeps(s, n, last, Failed);
  }

  lemma AddRecordKeeps(s: Db, n: nat, log: seq<LogRecord>)
    requires Inv(s) && s.head < |s.writers| && s.writers[s.head].phase == Writing(n, false, 0)
    ensures Inv(WithPhase(s, s.head, Writing(n, true, 0)).(log := log))
  {
    var t := WithPhase(s, s.head, Writing(n, true, 0));
    PartialFrame(s, t);
    PhaseAcknowledged(s, s.head, Writing(n, true, 0));
    LogApart(t, log, t.file, t.broken);
  }

  // ----- publishing -----

  ghost predicate Located(cs: seq<Commit>, ws: seq<Writer>, head: nat, n: nat, first: nat, end: nat)
    requires n <= |ws|
  {
    forall k | 0 <= k < |cs| ::
      && head <= cs[k].writer < head + n && ws[cs[k].writer - head].batch == Some(cs[k].ops)
      && first <= cs[k].first && cs[k].first + |cs[k].ops| <= end
  }

  ghost predicate Increasing(cs: seq<Commit>) {
    forall k, l | 0 <= k < l < |cs| :: cs[k].writer < cs[l].writer && cs[k].first + |cs[k].ops| <= cs[l].first
  }

  lemma {:induction false} GroupCommitsLocated(ws: seq<Writer>, head: nat, first: nat, n: nat)
    requires n <= |ws|
    ensures Located(GroupCommits(ws, head, first, n), ws, head, n, first, first + |GroupOps(ws, n)|)
  {
    if 0 < n {
      GroupCommitsLocated(ws, head, first, n - 1);
    }
  }

  lemma {:induction false} GroupCommitsIncreasing(ws: seq<Writer>, head: nat, first: nat, n: nat)
    requires n <= |ws|
    ensures Increasing(GroupCommits(ws, head, first, n))
  {
    if 0 < n {
      GroupCommitsIncreasing(ws, head, first, n - 1);
      GroupCommitsLocated(ws, head, first, n - 1);
    }
  }

  lemma HasCommitConcat(a: seq<Commit>, b: seq<Commit>, w: nat)
    ensures HasCommit(a + b, w) <==> HasCommit(a, w) || HasCommit(b, w)
  {
    if HasCommit(a, w) {
      var k :| 0 <= k < |a| && a[k].writer == w;
      assert (a + b)[k].writer == w;
    }
    if HasCommit(b, w) {
      var k :| 0 <= k < |b| && b[k].writer == w;
      assert (a + b)[|a| + k].writer == w;
    }
  }

  lemma {:induction false} GroupCommitsComplete(ws: seq<Writer>, head: nat, first: nat, n: nat, w: nat)
    requires n <= |ws|
    ensures HasCommit(GroupCommits(ws, head, first, n), w) <==> head <= w < head + n && ws[w - head].batch.Some?
  {
    if 0 < n {
      GroupCommitsComplete(ws, head, first, n - 1, w);
      var front := GroupCommits(ws, head, first, n - 1);
      if ws[n - 1].batch.Some? {
        var c := Commit(head + n - 1, first + |GroupOps(ws, n - 1)|, ws[n - 1].batch.value);
        HasCommitConcat(front, [c], w);
        assert HasCommit([c], c.writer) by {
          assert [c][0].writer == c.writer;
        }
      } else {
        assert front + [] == front;
      }
    }
  }

  lemma {:induction false} ApplyAllConcat(m: map<UserKey, Bytes>, a: seq<Commit>, b: seq<Commit>)
    ensures ApplyAll(m, a + b) == ApplyAll(ApplyAll(m, a), b)
    decreases |b|
  {
    if b == [] {
      assert a + b == a;
    } else {
      var n := |b| - 1;
      assert (a + b)[..|a + b| - 1] == a + b[..n];
      ApplyAllConcat(m, a, b[..n]);
    }
  }

  lemma ApplyAllSnoc(m: map<UserKey, Bytes>, cs: seq<Commit>, c: Commit)
    ensures ApplyAll(m, cs + [c]) == ApplyOps(ApplyAll(m, cs), c.ops)
  {
    assert (cs + [c])[..|cs|] == cs;
  }

  lemma {:induction false} GroupApplies(m: map<UserKey, Bytes>, ws: seq<Writer>, head: nat, first: nat, n: nat)
    requires n <= |ws|
    ensures ApplyAll(m, GroupCommits(ws, head, first, n)) == ApplyOps(m, GroupOps(ws, n))
  {
    if 0 < n {
      var front := GroupCommits(ws, head, first, n - 1);
      GroupApplies(m, ws, head, first, n - 1);
      StoreRuns.ApplyConcat(m, GroupOps(ws, n - 1), OpsOf(ws[n - 1]));
      if ws[n - 1].batch.Some? {
        ApplyAllSnoc(m, front, Commit(head + n - 1, first + |GroupOps(ws, n - 1)|, ws[n - 1].batch.value));
      } else {
        assert front + [] == front;
      }
    }
  }

  lemma {:induction false} EntriesOfConcat(a: seq<Commit>, b: seq<Commit>)
    ensures EntriesOf(a + b) == EntriesOf(a) + EntriesOf(b)
    decreases |b|
  {
    if b == [] {
      assert a + b == a;
    } else {
      var n := |b| - 1;
      assert (a + b)[..|a + b| - 1] == a + b[..n];
      EntriesOfConcat(a, b[..n]);
      Regroup3(EntriesOf(a), EntriesOf(b[..n]), Contents(Numbered(b[n].ops, b[n].first)));
    }
  }

  lemma EntriesOfOne(c: Commit, batch: seq<Entry>)
    requires IsBatch(c.ops, c.first, batch)
    ensures EntriesOf([c]) == Contents(batch)
  {
    assert Numbered(c.ops, c.first) == batch;
    assert [c][..0] == [];
  }

  lemma {:induction false} EntryOfCommit(commits: seq<Commit>, k: nat, i: nat)
    requires k < |commits| && i < |commits[k].ops|
    ensures EntryOf(commits[k].ops[i], commits[k].first + i) in EntriesOf(commits)
    decreases |commits|
  {
    var n := |commits| - 1;
    if k < n {
      EntryOfCommit(commits[..n], k, i);
    } else {
      assert Numbered(commits[n].ops, commits[n].first)[i] == EntryOf(commits[k].ops[i], commits[k].first + i);
    }
  }

  lemma BatchSplit(a: seq<Op>, b: seq<Op>, first: nat, batch: seq<Entry>)
    requires IsBatch(a + b, first, batch)
    ensures IsBatch(a, first, batch[..|a|]) && IsBatch(b, first + |a|, batch[|a|..])
    ensures Contents(batch) == Contents(batch[..|a|]) + Contents(batch[|a|..])
  {
    forall i | 0 <= i < |b|
      ensures batch[|a|..][i] == EntryOf(b[i], first + |a| + i)
    {
      assert (a + b)[|a| + i] == b[i];
    }
    assert batch == batch[..|a|] + batch[|a|..];
    ContentsOfConcat(batch[..|a|], batch[|a|..]);
  }

  lemma GroupCommitsUnfold(ws: seq<Writer>, head: nat, first: nat, n: nat, c: Commit)
    requires 0 < n <= |ws| && c == Commit(head + n - 1, first + |GroupOps(ws, n - 1)|, OpsOf(ws[n - 1]))
    ensures GroupCommits(ws, head, first, n)
         == GroupCommits(ws, head, first, n - 1) + if ws[n - 1].batch.Some? then [c] else []
  {
  }

  lemma MemberEntries(front: seq<Commit>, w: Writer, c: Commit, batch: seq<Entry>)
    requires c.ops == OpsOf(w) && IsBatch(c.ops, c.first, batch)
    ensures EntriesOf(front + if w.batch.Some? then [c] else []) == EntriesOf(front) + Contents(batch)
  {
    if w.batch.Some? {
      EntriesOfConcat(front, [c]);
      EntriesOfOne(c, batch);
    } else {
      assert batch == [] && front + [] == front;
    }
  }

  lemma {:induction false} GroupEntries(ws: seq<Writer>, head: nat, first: nat, n: nat, batch: seq<Entry>)
    requires n <= |ws| && IsBatch(GroupOps(ws, n), first, batch)
    ensures EntriesOf(GroupCommits(ws, head, first, n)) == Contents(batch)
  {
    if n == 0 {
      assert batch == [];
    } else {
      var front, m := GroupCommits(ws, head, first, n - 1), |GroupOps(ws, n - 1)|;
      BatchSplit(GroupOps(ws, n - 1), OpsOf(ws[n - 1]), first, batch);
      GroupEntries(ws, head, first, n - 1, batch[..m]);
      var c := Commit(head + n - 1, first + m, OpsOf(ws[n - 1]));
      GroupCommitsUnfold(ws, head, first, n, c);
      MemberEntries(front, ws[n - 1], c, batch[m..]);
    }
  }

  lemma CommittersLeft(ws: seq<Writer>, head: nat, commits: seq<Commit>)
    requires Acknowledged(ws, head, commits)
    ensures forall k | 0 <= k < |commits| :: commits[k].writer < head
  {
    forall k | 0 <= k < |commits|
      ensures commits[k].writer < head
    {
      assert HasCommit(commits, commits[k].writer);
    }
  }

  lemma PublishOrder(ws: seq<Writer>, head: nat, commits: seq<Commit>, last: nat, n: nat, cs: seq<Commit>)
    requires head + n <= |ws| && InOrder(commits, last) && Acknowledged(ws, head, commits)
    requires cs == GroupCommits(ws[head..], head, last + 1, n)
    ensures InOrder(commits + cs, last + |GroupOps(ws[head..], n)|)
  {
    GroupCommitsLocated(ws[head..], head, last + 1, n);
    GroupCommitsIncreasing(ws[head..], head, last + 1, n);
    CommittersLeft(ws, head, commits);
  }

  lemma PublishAcknowledges(ws: seq<Writer>, ws': seq<Writer>, head: nat, n: nat, commits: seq<Commit>, first: nat, cs: seq<Commit>)
    requires Acknowledged(ws, head, commits) && 0 < n && head + n <= |ws| && StatusesSet(ws, ws', head, n, Good)
    requires cs == GroupCommits(ws[head..], head, first, n)
    ensures Acknowledged(ws', head + n, commits + cs)
  {
    var all := commits + cs;
    GroupCommitsLocated(ws[head..], head, first, n);
    forall k | 0 <= k < |all|
      ensures all[k].writer < |ws'| && ws'[all[k].writer].batch == Some(all[k].ops)
    {
      assert |commits| <= k ==> all[k] == cs[k - |commits|];
    }
    forall w | 0 <= w < |ws'|
      ensures HasCommit(all, w) <==> AppliedTo(ws', head + n, w)
    {
      HasCommitConcat(commits, cs, w);
      GroupCommitsComplete(ws[head..], head, first, n, w);
      assert HasCommit(commits, w) <==> AppliedTo(ws, head, w);
    }
  }

  lemma WholeBatch(ops: seq<Op>, last: nat, first: nat, count: nat, mem: set<Entry>, seen: set<Entry>) returns (batch: seq<Entry>)
    requires Unfinished(ops, last, count, mem, seen) && count == |ops| && first == last + 1
    ensures IsBatch(ops, first, batch) && mem == seen + Contents(batch)
  {
    batch :| IsBatch(ops, last + 1, batch) && count <= |batch| && mem == seen + Contents(batch[..count]);
    assert batch[..count] == batch;
  }

  lemma PublishReads(seen: set<Entry>, last: nat, m: map<UserKey, Bytes>, ops: seq<Op>, batch: seq<Entry>, last': nat)
    requires Shows(seen, last, m) && IsBatch(ops, last + 1, batch) && last' == last + |ops|
    ensures Shows(seen + Contents(batch), last', ApplyOps(m, ops))
  {
    BatchReads(seen, m, ops, last, last', batch, 0.0);
    forall u
      ensures Visible(seen + Contents(batch), u, last') == Lookup(ApplyOps(m, ops), u)
    {
      BatchReads(seen, m, ops, last, last', batch, u);
    }
  }

  lemma Regroup3(a: set<Entry>, b: set<Entry>, c: set<Entry>)
    ensures a + b + c == a + (b + c)
  {
  }

  lemma PublishShows(s: Db, n: nat, batch: seq<Entry>, last: nat, first: nat, cs: seq<Commit>)
    requires Shows(s.seen, s.last, ApplyAll(s.start, s.commits)) && s.head + n <= |s.writers|
    requires last == s.last + |FrontOps(s, n)| && first == s.last + 1 && cs == GroupCommits(Queue(s), s.head, first, n)
    requires IsBatch(FrontOps(s, n), first, batch)
    ensures Shows(s.seen + Contents(batch), last, ApplyAll(s.start, s.commits + cs))
  {
    PublishReads(s.seen, s.last, ApplyAll(s.start, s.commits), FrontOps(s, n), batch, last);
    ApplyAllConcat(s.start, s.commits, cs);
    GroupApplies(ApplyAll(s.start, s.commits), Queue(s), s.head, first, n);
  }

  /** What is published is the group's batches and nothing else. */
  lemma PublishContains(s: Db, n: nat, batch: seq<Entry>, last: nat, first: nat, cs: seq<Commit>)
    requires Contains(s) && Acknowledged(s.writers, s.head, s.commits) && s.head + n <= |s.writers|
    requires last == s.last + |FrontOps(s, n)| && first == s.last + 1 && cs == GroupCommits(Queue(s), s.head, first, n)
    requires IsBatch(FrontOps(s, n), first, batch) && s.mem == s.seen + Contents(batch)
    ensures Contains(Published(s, last, cs))
  {
    assert Shows(s.mem, last, ApplyAll(s.start, s.commits + cs)) by {
      PublishShows(s, n, batch, last, first, cs);
    }
    assert s.mem == s.base + EntriesOf(s.commits + cs) by {
      GroupEntries(Queue(s), s.head, first, n, batch);
      EntriesOfConcat(s.commits, cs);
      Regroup3(s.base, EntriesOf(s.commits), EntriesOf(cs));
    }
    assert InOrder(s.commits + cs, last) by {
      PublishOrder(s.writers, s.head, s.commits, s.last, n, cs);
    }
  }

  lemma AllInserted(s: Db, n: nat, first: nat) returns (batch: seq<Entry>)
    requires s.head < |s.writers| && Partial(s) && 0 < n && s.head + n <= |s.writers|
    requires s.writers[s.head].phase == Writing(n, true, |FrontOps(s, n)|) && first == s.last + 1
    ensures IsBatch(FrontOps(s, n), first, batch) && s.mem == s.seen + Contents(batch)
  {
    batch := WholeBatch(FrontOps(s, n), s.last, first, |FrontOps(s, n)|, s.mem, s.seen);
  }

  lemma PublishThreads(s: Db, n: nat, last: nat, first: nat, cs: seq<Commit>)
    requires Phases(s) && Acknowledged(s.writers, s.head, s.commits) && FrontIn(s, false)
    requires 0 < n && s.head + n <= |s.writers| && cs == GroupCommits(Queue(s), s.head, first, n)
    ensures var t := Finish(Published(s, last, cs), n, Good);
            Phases(t) && !FrontIn(t, false) && Acknowledged(t.writers, t.head, t.commits)
  {
    var u := Published(s, last, cs);
    FinishPhases(u, n, Good);
    FinishStatuses(u, n, Good);
    PublishAcknowledges(s.writers, Finish(u, n, Good).writers, s.head, n, s.commits, first, cs);
  }

  lemma PublishKeeps(s: Db, n: nat, last: nat, first: nat, cs: seq<Commit>)
    requires Inv(s) && s.head < |s.writers| && 0 < n && s.head + n <= |s.writers|
    requires s.writers[s.head].phase == Writing(n, true, |FrontOps(s, n)|)
    requires last == s.last + |FrontOps(s, n)| && first == s.last + 1 && cs == GroupCommits(Queue(s), s.head, first, n)
    ensures Inv(Finish(Published(s, last, cs), n, Good))
  {
    var batch := AllInserted(s, n, first);
    PublishContains(s, n, batch, last, first, cs);
    PublishThreads(s, n, last, first, cs);
  }

  // ----- runs -----

  lemma LookStepKeeps(s: Db, w: nat, t: Db)
    requires Inv(s) && Next(s, Look(w), t)
    ensures Inv(t)
  {
    MoveKeeps(s, w, if s.writers[w].done then Returned else if w == s.head then Leading else Asleep);
  }

  lemma LogFailsStepKeeps(s: Db, last: nat, t: Db)
    requires Inv(s) && Next(s, LogFails(last), t)
    ensures Inv(t)
  {
    LogFailsKeeps(s, s.writers[s.head].phase.size, last);
  }

  lemma LogStepKeeps(s: Db, step: Step, t: Db)
    requires Inv(s) && Next(s, step, t) && (step.Switch? || step.AddRecord? || step.Sync? || step.SyncFails?)
    ensures Inv(t)
  {
    match step {
      case Switch => LogApart(s, s.log, |s.log|, s.broken);
      case AddRecord(first) => AddRecordKeeps(s, s.writers[s.head].phase.size, t.log);
      case Sync => LogApart(s, t.log, s.file, s.broken);
      case SyncFails(last) =>
        LogApart(s, s.log, s.file, true);
        LogFailsKeeps(s.(broken := true), s.writers[s.head].phase.size, last);
    }
  }

  lemma InsertStepKeeps(s: Db, i: nat, e: Entry, t: Db)
    requires Inv(s) && Next(s, Insert(i, e), t)
    ensures Inv(t)
  {
    InsertKeeps(s, s.writers[s.head].phase.size, s.writers[s.head].phase.inserted, i, e);
  }

  lemma PublishStepKeeps(s: Db, last: nat, first: nat, t: Db)
    requires Inv(s) && Next(s, Publish(last, first), t)
    ensures Inv(t)
  {
    var n := s.writers[s.head].phase.size;
    PublishKeeps(s, n, last, first, GroupCommits(Queue(s), s.head, first, n));
  }

  lemma LeaderStepKeeps(s: Db, step: Step, t: Db)
    requires Inv(s) && Next(s, step, t) && (step.Refuse? || step.Skip? || step.Begin?)
    ensures Inv(t)
  {
    match step {
      case Refuse => LeaderQuits(s, Failed);
      case Skip => LeaderQuits(s, Good);
      case Begin(n) => BeginKeeps(s, n);
    }
  }

  /** Main result: every step of every thread keeps the invariant. */
  lemma StepKeeps(s: Db, step: Step, t: Db)
    requires Inv(s) && Next(s, step, t)
    ensures Inv(t)
  {
    if step.Join? {
      JoinKeeps(s, Writer(step.batch, step.bytes, step.sync, Runnable, false, Good), t);
    } else if step.Look? {
      LookStepKeeps(s, step.w, t);
    } else if step.Wake? {
      MoveKeeps(s, step.w, Runnable);
    } else if step.LogFails? {
      LogFailsStepKeeps(s, step.last, t);
    } else if step.Insert? {
      InsertStepKeeps(s, step.i, step.e, t);
    } else if step.Publish? {
      PublishStepKeeps(s, step.last, step.first, t);
    } else if step.Switch? || step.AddRecord? || step.Sync? || step.SyncFails? {
      LogStepKeeps(s, step, t);
    } else {
      LeaderStepKeeps(s, step, t);
    }
  }

  ghost predicate Opened(s: Db) {
    && s.writers == [] && s.head == 0 && s.commits == [] && s.mem == s.seen == s.base
    && s.log == [] && s.file == 0 && !s.broken
    && Shows(s.base, s.last, s.start)
  }

  ghost predicate Run(states: seq<Db>, steps: seq<Step>) {
    && |states| == |steps| + 1 && Opened(states[0])
    && forall i | 0 <= i < |steps| :: Next(states[i], steps[i], states[i + 1])
  }

  lemma RunPrefix(states: seq<Db>, steps: seq<Step>, n: nat)
    requires Run(states, steps) && |steps| == n + 1
    ensures Run(states[..n + 1], steps[..n]) && Next(states[n], steps[n], states[n + 1])
  {
    var before, front := states[..n + 1], steps[..n];
    assert before[0] == states[0];
    forall i | 0 <= i < n
      ensures Next(before[i], front[i], before[i + 1])
    {
      assert before[i] == states[i] && before[i + 1] == states[i + 1] && front[i] == steps[i];
    }
  }

  /** Main result: the invariant holds in every reachable state. */
  lemma {:induction false} RunKeeps(states: seq<Db>, steps: seq<Step>)
    requires Run(states, steps)
    ensures Inv(states[|steps|])
    decreases |steps|
  {
    if steps == [] {
      assert EntriesOf([]) == {};
    } else {
      var n := |steps| - 1;
      RunPrefix(states, steps, n);
      RunKeeps(states[..n + 1], steps[..n]);
      StepKeeps(states[n], steps[n], states[n + 1]);
    }
  }

  // ----- what the invariant means -----

  lemma UnfinishedUnseen(ops: seq<Op>, last: nat, inserted: nat, mem: set<Entry>, seen: set<Entry>,
                         m: map<UserKey, Bytes>, u: UserKey)
    requires Unfinished(ops, last, inserted, mem, seen) && Shows(seen, last, m)
    ensures Visible(mem, u, last) == Visible(seen, u, last)
  {
    var batch :| IsBatch(ops, last + 1, batch) && inserted <= |batch| && mem == seen + Contents(batch[..inserted]);
    BatchBounds(ops, last, batch);
    BatchReads(seen, m, ops, last, last + |ops|, batch, u);
    assert forall e | e in batch[..inserted] :: e in Contents(batch);
    assert mem <= seen + Contents(batch);
    NewerEntriesUnseen(seen, Contents(batch[..inserted]), u, last);
  }

  /** A reader at LastSequence sees all of every batch published and nothing of the group being written. */
  lemma ReadersSeeWholeBatches(s: Db, u: UserKey)
    requires Inv(s)
    ensures Visible(s.mem, u, s.last) == Lookup(ApplyAll(s.start, s.commits), u)
  {
    if FrontIn(s, false) {
      var p := s.writers[s.head].phase;
      UnfinishedUnseen(FrontOps(s, p.size), s.last, p.inserted, s.mem, s.seen, ApplyAll(s.start, s.commits), u);
    }
  }

  lemma AppliedOnce(s: Db, w: nat) returns (k: nat)
    requires w < |s.writers| && HasCommit(s.commits, w) && Acknowledged(s.writers, s.head, s.commits) && Contains(s)
    ensures k < |s.commits| && s.commits[k].writer == w && s.writers[w].batch == Some(s.commits[k].ops)
    ensures forall l | 0 <= l < |s.commits| && s.commits[l].writer == w :: l == k
    ensures forall i | 0 <= i < |s.commits[k].ops| :: EntryOf(s.commits[k].ops[i], s.commits[k].first + i) in s.seen
  {
    k :| 0 <= k < |s.commits| && s.commits[k].writer == w;
    forall i | 0 <= i < |s.commits[k].ops|
      ensures EntryOf(s.commits[k].ops[i], s.commits[k].first + i) in s.seen
    {
      EntryOfCommit(s.commits, k, i);
    }
  }

  /** A thread whose batch was reported applied finds it applied once, and its operations all there. */
  lemma AppliedExactlyOnce(s: Db, w: nat) returns (k: nat)
    requires Inv(s) && w < |s.writers| && s.writers[w].phase.Returned? && s.writers[w].status.Good?
    requires s.writers[w].batch.Some?
    ensures k < |s.commits| && s.commits[k].writer == w && s.writers[w].batch == Some(s.commits[k].ops)
    ensures forall l | 0 <= l < |s.commits| && s.commits[l].writer == w :: l == k
    ensures forall i | 0 <= i < |s.commits[k].ops| :: EntryOf(s.commits[k].ops[i], s.commits[k].first + i) in s.seen
  {
    assert AppliedTo(s.writers, s.head, w);
    assert HasCommit(s.commits, w);
    k := AppliedOnce(s, w);
  }

  /** Batches are applied in the order in which their writers queued, on disjoint stretches of sequence numbers. */
  lemma AppliedInOrder(s: Db, k: nat, l: nat)
    requires Inv(s) && k < l < |s.commits|
    ensures s.commits[k].writer < s.commits[l].writer
    ensures s.commits[k].first + |s.commits[k].ops| <= s.commits[l].first <= s.last + 1
  {
  }

  /** The queue never stalls: its front thread is running or has been signalled, and so is everyone who left it. */
  lemma NobodyIsForgotten(s: Db, w: nat)
    requires Inv(s) && w < |s.writers| && s.writers[w].phase.Asleep?
    ensures s.head < w && !s.writers[s.head].phase.Asleep? && !s.writers[s.head].phase.Returned?
  {
  }
}
