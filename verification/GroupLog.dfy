/** Group commit and the log: the record of a group is in the log before anything of the group is in the memtable, and
    synced before if a thread of the group asked for it. */
module GroupLogs {
  import opened DbFormat
  import opened GroupCommit
  import Store

  // ----- what the log says -----

  /** The operations of a commit stand in the record, at the sequence numbers they were given. */
  predicate Holds(r: LogRecord, c: Commit) {
    && r.first <= c.first && c.first + |c.ops| <= r.first + |r.ops|
    && r.ops[c.first - r.first..c.first - r.first + |c.ops|] == c.ops
  }

  ghost predicate InLog(log: seq<LogRecord>, c: Commit, sync: bool) {
    exists r :: 0 <= r < |log| && Holds(log[r], c) && (sync ==> log[r].synced)
  }

  /** Every commit is in the log, in a synced record if its thread asked for that. */
  ghost predicate Kept(log: seq<LogRecord>, commits: seq<Commit>, ws: seq<Writer>) {
    forall k | 0 <= k < |commits| ::
      commits[k].writer < |ws| && InLog(log, commits[k], ws[commits[k].writer].sync)
  }

  /** What replaying the log makes of a map. */
  function Replay(m: map<UserKey, Bytes>, log: seq<LogRecord>): map<UserKey, Bytes> {
    if log == [] then m else Store.ApplyOps(Replay(m, log[..|log| - 1]), log[|log| - 1].ops)
  }

  /** The last record stands for no commit yet, or, after a failed sync, never will. */
  predicate Open(s: Db) {
    s.log != [] && (s.broken || (FrontIn(s, false) && s.writers[s.head].phase.logged))
  }

  function Settled(s: Db): seq<LogRecord> {
    if Open(s) then s.log[..|s.log| - 1] else s.log
  }

  ghost predicate Numbers(log: seq<LogRecord>) {
    forall r, q | 0 <= r < q < |log| :: log[r].first + |log[r].ops| <= log[q].first
  }

  ghost predicate NumbersUpTo(log: seq<LogRecord>, end: nat) {
    Numbers(log) && forall r | 0 <= r < |log| :: log[r].first + |log[r].ops| <= end
  }

  // ----- the invariant -----

  /** A thread that asks for a sync is led by one that does. */
  ghost predicate SyncsTogether(ws: seq<Writer>, head: nat, n: nat) {
    0 < n && head + n <= |ws| && forall i | head <= i < head + n :: ws[i].sync ==> ws[head].sync
  }

  ghost predicate IsLastRecord(s: Db, n: nat)
    requires s.head + n <= |s.writers|
  {
    && s.file < |s.log|
    && s.log[|s.log| - 1].first == s.last + 1 && s.log[|s.log| - 1].ops == FrontOps(s, n)
  }

  /** The record of the group being written is the last one of the log, and nothing is in the memtable before. */
  ghost predicate Current(s: Db) {
    FrontIn(s, false) ==>
      var p := s.writers[s.head].phase;
      && !s.broken && SyncsTogether(s.writers, s.head, p.size)
      && (p.logged ==> IsLastRecord(s, p.size))
      && (0 < p.inserted ==> LogDone(s))
  }

  ghost predicate LogInv(s: Db) {
    && s.file <= |s.log| && Kept(s.log, s.commits, s.writers) && Current(s)
    && Replay(s.start, Settled(s)) == ApplyAll(s.start, s.commits)
    && NumbersUpTo(Settled(s), s.last + 1) && Numbers(s.log) && (s.broken ==> s.log != [])
  }

  // ----- steps that leave the log alone -----

  ghost predicate SameSyncs(ws: seq<Writer>, ws': seq<Writer>) {
    |ws| <= |ws'| && forall i | 0 <= i < |ws| :: ws'[i].sync == ws[i].sync
  }

  lemma KeptFrame(log: seq<LogRecord>, commits: seq<Commit>, ws: seq<Writer>, ws': seq<Writer>)
    requires Kept(log, commits, ws) && SameSyncs(ws, ws')
    ensures Kept(log, commits, ws')
  {
    forall k | 0 <= k < |commits|
      ensures commits[k].writer < |ws'| && InLog(log, commits[k], ws'[commits[k].writer].sync)
    {
      assert InLog(log, commits[k], ws[commits[k].writer].sync);
    }
  }

  ghost predicate SameLog(s: Db, t: Db) {
    t.log == s.log && t.file == s.file && t.broken == s.broken && t.commits == s.commits && t.start == s.start
  }

  /** A step of a thread that is not writing. */
  lemma QueueFrame(s: Db, t: Db)
    requires LogInv(s) && SameLog(s, t) && t.head == s.head && t.last == s.last
    requires SameBatches(s, t) && SameSyncs(s.writers, t.writers)
    requires FrontIn(s, false) <==> FrontIn(t, false)
    requires FrontIn(s, false) ==> t.writers[s.head].phase == s.writers[s.head].phase
    ensures LogInv(t)
  {
    KeptFrame(s.log, s.commits, s.writers, t.writers);
    if FrontIn(s, false) {
      SameFrontOps(s, t, s.writers[s.head].phase.size);
    }
  }

  lemma PhaseFrame(s: Db, w: nat, p: Phase)
    requires LogInv(s) && w < |s.writers| && !p.Writing? && !s.writers[w].phase.Writing?
    ensures LogInv(WithPhase(s, w, p))
  {
    QueueFrame(s, WithPhase(s, w, p));
  }

  lemma FinishFrame(s: Db, u: Db, n: nat, status: Status)
    requires s.head < |s.writers| && Kept(s.log, u.commits, s.writers) && u.writers == s.writers
    ensures SameSyncs(s.writers, Finish(u, n, status).writers)
    ensures Kept(s.log, u.commits, Finish(u, n, status).writers)
  {
    KeptFrame(s.log, u.commits, s.writers, Finish(u, n, status).writers);
  }

  /** A group that is given up before anything of it is in the log. */
  lemma QuitLog(s: Db, n: nat, last: nat, status: Status)
    requires LogInv(s) && Phases(s) && 0 < n && s.head + n <= |s.writers| && s.last <= last
    requires FrontIn(s, true) || (FrontIn(s, false) && !s.writers[s.head].phase.logged)
    ensures LogInv(Finish(s.(last := last), n, status))
  {
    var t := Finish(s.(last := last), n, status);
    FinishPhases(s.(last := last), n, status);
    FinishFrame(s, s.(last := last), n, status);
    assert !Open(t) || s.broken;
  }

  // ----- steps of the leader -----

  lemma BeginLog(s: Db, n: nat)
    requires LogInv(s) && FrontIn(s, true) && !s.broken && IsGroup(Queue(s), n)
    ensures LogInv(WithPhase(s, s.head, Writing(n, false, 0)))
  {
    var t := WithPhase(s, s.head, Writing(n, false, 0));
    KeptFrame(s.log, s.commits, s.writers, t.writers);
    forall i | s.head <= i < s.head + n && s.writers[i].sync
      ensures s.writers[s.head].sync
    {
      if s.head < i {
        assert CanJoin(Queue(s), i - s.head);
      }
    }
  }

  /** Records that say the same, and are synced if they were. */
  ghost predicate NoLess(log: seq<LogRecord>, log': seq<LogRecord>) {
    |log| <= |log'|
    && forall r | 0 <= r < |log| ::
         log'[r].first == log[r].first && log'[r].ops == log[r].ops && (log[r].synced ==> log'[r].synced)
  }

  lemma KeptGrows(log: seq<LogRecord>, log': seq<LogRecord>, commits: seq<Commit>, ws: seq<Writer>)
    requires Kept(log, commits, ws) && NoLess(log, log')
    ensures Kept(log', commits, ws)
  {
    forall k | 0 <= k < |commits|
      ensures commits[k].writer < |ws| && InLog(log', commits[k], ws[commits[k].writer].sync)
    {
      var sync := ws[commits[k].writer].sync;
      assert InLog(log, commits[k], sync);
      var r :| 0 <= r < |log| && Holds(log[r], commits[k]) && (sync ==> log[r].synced);
      assert Holds(log'[r], commits[k]);
    }
  }

  lemma AddRecordLog(s: Db, n: nat, first: nat)
    requires LogInv(s) && s.head < |s.writers| && s.writers[s.head].phase == Writing(n, false, 0)
    requires s.head + n <= |s.writers| && first == s.last + 1
    ensures LogInv(WithPhase(s, s.head, Writing(n, true, 0)).(log := s.log + [LogRecord(first, FrontOps(s, n), false)]))
  {
    var log := s.log + [LogRecord(first, FrontOps(s, n), false)];
    var t := WithPhase(s, s.head, Writing(n, true, 0)).(log := log);
    KeptGrows(s.log, log, s.commits, s.writers);
    KeptFrame(log, s.commits, s.writers, t.writers);
    SameFrontOps(s, t, n);
    assert Settled(t) == s.log;
  }

  lemma {:induction false} SameReplay(m: map<UserKey, Bytes>, log: seq<LogRecord>, log': seq<LogRecord>)
    requires NoLess(log, log') && |log| == |log'|
    ensures Replay(m, log) == Replay(m, log')
  {
    if log != [] {
      SameReplay(m, log[..|log| - 1], log'[..|log| - 1]);
    }
  }

  lemma SyncLog(s: Db)
    requires LogInv(s) && FrontIn(s, false) && s.writers[s.head].phase.logged
    ensures LogInv(s.(log := Synced(s.log, s.file)))
  {
    var log := Synced(s.log, s.file);
    var t := s.(log := log);
    KeptGrows(s.log, log, s.commits, s.writers);
    SameFrontOps(s, t, s.writers[s.head].phase.size);
    SameReplay(s.start, Settled(s), Settled(t));
  }

  lemma SyncFailsLog(s: Db, n: nat, last: nat)
    requires LogInv(s) && Phases(s) && FrontIn(s, false) && s.writers[s.head].phase.logged
    requires n == s.writers[s.head].phase.size && last == s.last + |FrontOps(s, n)|
    ensures LogInv(Finish(s.(last := last, broken := true), n, Failed))
  {
    var t := Finish(s.(last := last, broken := true), n, Failed);
    FinishPhases(s.(last := last, broken := true), n, Failed);
    FinishFrame(s, s.(last := last, broken := true), n, Failed);
    assert Settled(t) == Settled(s);
  }

  lemma InsertLog(s: Db, n: nat, inserted: nat, i: nat, e: Entry)
    requires LogInv(s) && s.head < |s.writers| && s.writers[s.head].phase == Writing(n, true, inserted) && LogDone(s)
    ensures LogInv(Inserted(s, Writing(n, true, i), e))
  {
    var t := Inserted(s, Writing(n, true, i), e);
    KeptFrame(s.log, s.commits, s.writers, t.writers);
    SameFrontOps(s, t, n);
  }

  // ----- publishing -----

  lemma {:induction false} GroupPrefix(ws: seq<Writer>, n: nat, m: nat)
    requires n <= m <= |ws|
    ensures GroupOps(ws, n) <= GroupOps(ws, m)
  {
    if n < m {
      GroupPrefix(ws, n, m - 1);
    }
  }

  lemma MemberHeld(ws: seq<Writer>, n: nat, m: nat, r: LogRecord, c: Commit)
    requires 0 < n <= m <= |ws| && r.ops == GroupOps(ws, m)
    requires c.first == r.first + |GroupOps(ws, n - 1)| && c.ops == OpsOf(ws[n - 1])
    ensures Holds(r, c)
  {
    GroupPrefix(ws, n, m);
    var k := |GroupOps(ws, n - 1)|;
    assert GroupOps(ws, n)[k..] == c.ops;
    assert r.ops[k..k + |c.ops|] == GroupOps(ws, n)[k..];
  }

  lemma {:induction false} GroupHeld(ws: seq<Writer>, head: nat, first: nat, n: nat, m: nat, r: LogRecord)
    requires n <= m <= |ws| && r.ops == GroupOps(ws, m) && r.first == first
    ensures forall k | 0 <= k < |GroupCommits(ws, head, first, n)| :: Holds(r, GroupCommits(ws, head, first, n)[k])
  {
    if 0 < n {
      GroupHeld(ws, head, first, n - 1, m, r);
      if ws[n - 1].batch.Some? {
        MemberHeld(ws, n, m, r, Commit(head + n - 1, first + |GroupOps(ws, n - 1)|, ws[n - 1].batch.value));
      }
    }
  }

  lemma GroupKept(s: Db, n: nat, first: nat, cs: seq<Commit>)
    requires FrontIn(s, false) && LogDone(s) && IsLast(s, n, first)
    requires cs == GroupCommits(Queue(s), s.head, first, n)
    ensures Kept(s.log, cs, s.writers)
  {
    var r := |s.log| - 1;
    GroupHeld(Queue(s), s.head, first, n, n, s.log[r]);
    GroupCommitsLocated(Queue(s), s.head, first, n);
    forall k | 0 <= k < |cs|
      ensures cs[k].writer < |s.writers| && InLog(s.log, cs[k], s.writers[cs[k].writer].sync)
    {
      assert Holds(s.log[r], cs[k]);
    }
  }

  lemma KeptConcat(log: seq<LogRecord>, a: seq<Commit>, b: seq<Commit>, ws: seq<Writer>)
    requires Kept(log, a, ws) && Kept(log, b, ws)
    ensures Kept(log, a + b, ws)
  {
    var all := a + b;
    forall k | 0 <= k < |all|
      ensures all[k].writer < |ws| && InLog(log, all[k], ws[all[k].writer].sync)
    {
      assert all[k] == if k < |a| then a[k] else b[k - |a|];
    }
  }

  ghost predicate IsLast(s: Db, n: nat, first: nat) {
    && SyncsTogether(s.writers, s.head, n) && s.log != []
    && s.log[|s.log| - 1].first == first && s.log[|s.log| - 1].ops == FrontOps(s, n)
  }

  lemma PublishReplay(s: Db, n: nat, first: nat, cs: seq<Commit>)
    requires IsLast(s, n, first) && cs == GroupCommits(Queue(s), s.head, first, n)
    requires Replay(s.start, s.log[..|s.log| - 1]) == ApplyAll(s.start, s.commits)
    ensures Replay(s.start, s.log) == ApplyAll(s.start, s.commits + cs)
  {
    ApplyAllConcat(s.start, s.commits, cs);
    GroupApplies(ApplyAll(s.start, s.commits), Queue(s), s.head, first, n);
  }

  lemma PublishLog(s: Db, n: nat, last: nat, first: nat, cs: seq<Commit>)
    requires LogInv(s) && Phases(s) && FrontIn(s, false) && LogDone(s) && n == s.writers[s.head].phase.size
    requires 0 < n && s.head + n <= |s.writers| && last == s.last + |FrontOps(s, n)| && first == s.last + 1
    requires cs == GroupCommits(Queue(s), s.head, first, n)
    ensures LogInv(Finish(Published(s, last, cs), n, Good))
  {
    var u := Published(s, last, cs);
    FinishPhases(u, n, Good);
    GroupKept(s, n, first, cs);
    KeptConcat(s.log, s.commits, cs, s.writers);
    FinishFrame(s, u, n, Good);
    PublishReplay(s, n, first, cs);
    assert !Open(Finish(u, n, Good));
  }

  // ----- runs -----

  lemma QueueStepKeeps(s: Db, step: Step, t: Db)
    requires Inv(s) && LogInv(s) && Next(s, step, t) && (step.Join? || step.Look? || step.Wake?)
    ensures LogInv(t)
  {
    match step {
      case Join(batch, bytes, sync) => QueueFrame(s, t);
      case Look(w) => PhaseFrame(s, w, t.writers[w].phase);
      case Wake(w) => PhaseFrame(s, w, Runnable);
    }
  }

  lemma LeaderStepKeepsLog(s: Db, step: Step, t: Db)
    requires Inv(s) && LogInv(s) && Next(s, step, t)
    requires step.Refuse? || step.Skip? || step.LogFails? || step.Begin? || step.Switch?
    ensures LogInv(t)
  {
    match step {
      case Refuse =>
        QuitLog(s, 1, s.last, Failed);
        assert s.(last := s.last) == s;
      case Skip =>
        QuitLog(s, 1, s.last, Good);
        assert s.(last := s.last) == s;
      case LogFails(last) => QuitLog(s, s.writers[s.head].phase.size, last, Failed);
      case Begin(n) => BeginLog(s, n);
      case Switch =>
    }
  }

  lemma WritingStepKeepsLog(s: Db, step: Step, t: Db)
    requires Inv(s) && LogInv(s) && Next(s, step, t)
    requires step.AddRecord? || step.Sync? || step.SyncFails? || step.Insert? || step.Publish?
    ensures LogInv(t)
  {
    var n := s.writers[s.head].phase.size;
    match step {
      case AddRecord(first) => AddRecordLog(s, n, first);
      case Sync => SyncLog(s);
      case SyncFails(last) => SyncFailsLog(s, n, last);
      case Insert(i, e) => InsertLog(s, n, s.writers[s.head].phase.inserted, i, e);
      case Publish(last, first) => PublishLog(s, n, last, first, GroupCommits(Queue(s), s.head, first, n));
    }
  }

  /** Every step of every thread keeps what is said here of the log. */
  lemma StepKeepsLog(s: Db, step: Step, t: Db)
    requires Inv(s) && LogInv(s) && Next(s, step, t)
    ensures LogInv(t)
  {
    if step.Join? || step.Look? || step.Wake? {
      QueueStepKeeps(s, step, t);
    } else if step.Refuse? || step.Skip? || step.LogFails? || step.Begin? || step.Switch? {
      LeaderStepKeepsLog(s, step, t);
    } else {
      WritingStepKeepsLog(s, step, t);
    }
  }

  lemma {:induction false} RunKeepsLog(states: seq<Db>, steps: seq<Step>)
    requires Run(states, steps)
    ensures Inv(states[|steps|]) && LogInv(states[|steps|])
    decreases |steps|
  {
    RunKeeps(states, steps);
    if steps != [] {
      var n := |steps| - 1;
      RunPrefix(states, steps, n);
      RunKeepsLog(states[..n + 1], steps[..n]);
      StepKeepsLog(states[n], steps[n], states[n + 1]);
    }
  }

  // ----- what it means -----

  /** Main result, over every run: a write with sync that was reported OK was committed, and its operations stand, at
      the sequence numbers they have in the memtable, in a record of the log that was synced. */
  lemma SyncedBeforeReported(states: seq<Db>, steps: seq<Step>, w: nat) returns (k: nat, r: nat)
    requires Run(states, steps)
    requires var s := states[|steps|];
             w < |s.writers| && s.writers[w].phase.Returned? && s.writers[w].status.Good?
             && s.writers[w].batch.Some? && s.writers[w].sync
    ensures var s := states[|steps|];
            && k < |s.commits| && s.commits[k].writer == w && s.writers[w].batch == Some(s.commits[k].ops)
            && r < |s.log| && s.log[r].synced && Holds(s.log[r], s.commits[k])
  {
    RunKeepsLog(states, steps);
    var s := states[|steps|];
    k := AppliedExactlyOnce(s, w);
    assert InLog(s.log, s.commits[k], true);
    r :| 0 <= r < |s.log| && Holds(s.log[r], s.commits[k]) && s.log[r].synced;
  }

  /** Main result, over every run: what readers see is what replaying the log gives. The record of the group being
      written does not count yet, and neither does one whose sync failed. */
  lemma LogReplays(states: seq<Db>, steps: seq<Step>, u: UserKey)
    requires Run(states, steps)
    ensures var s := states[|steps|];
            Visible(s.mem, u, s.last) == Store.Lookup(Replay(s.start, Settled(s)), u) && Numbers(s.log)
  {
    RunKeepsLog(states, steps);
    ReadersSeeWholeBatches(states[|steps|], u);
  }

  /** An entry that one of these operations makes, counted from sequence number `first`. */
  ghost predicate Written(e: Entry, first: nat, ops: seq<Store.Op>) {
    exists i :: 0 <= i < |ops| && e == Store.EntryOf(ops[i], first + i)
  }

  lemma {:induction false} OfSomeCommit(commits: seq<Commit>, e: Entry) returns (k: nat)
    requires e in EntriesOf(commits)
    ensures k < |commits| && Written(e, commits[k].first, commits[k].ops)
  {
    var n := |commits| - 1;
    if e in EntriesOf(commits[..n]) {
      k := OfSomeCommit(commits[..n], e);
    } else {
      k := n;
      var batch := Numbered(commits[n].ops, commits[n].first);
      var i :| 0 <= i < |batch| && batch[i] == e;
    }
  }

  lemma HeldIsWritten(r: LogRecord, c: Commit, e: Entry)
    requires Holds(r, c) && Written(e, c.first, c.ops)
    ensures Written(e, r.first, r.ops)
  {
    var i :| 0 <= i < |c.ops| && e == Store.EntryOf(c.ops[i], c.first + i);
    var d := c.first - r.first;
    assert c.ops[i] == r.ops[d + i];
    assert e == Store.EntryOf(r.ops[d + i], r.first + (d + i));
  }

  lemma UnfinishedIsWritten(ops: seq<Store.Op>, last: nat, inserted: nat, mem: set<Entry>, seen: set<Entry>, e: Entry)
    requires Unfinished(ops, last, inserted, mem, seen) && e in mem && e !in seen
    ensures Written(e, last + 1, ops) && 0 < inserted
  {
    var batch :| Store.IsBatch(ops, last + 1, batch) && inserted <= |batch| && mem == seen + Contents(batch[..inserted]);
    var i :| 0 <= i < inserted && batch[i] == e;
    assert e == Store.EntryOf(ops[i], last + 1 + i);
  }

  lemma SeenIsLogged(log: seq<LogRecord>, commits: seq<Commit>, ws: seq<Writer>, e: Entry) returns (r: nat)
    requires Kept(log, commits, ws) && e in EntriesOf(commits)
    ensures r < |log| && Written(e, log[r].first, log[r].ops)
  {
    var k := OfSomeCommit(commits, e);
    assert InLog(log, commits[k], ws[commits[k].writer].sync);
    r :| 0 <= r < |log| && Holds(log[r], commits[k]);
    HeldIsWritten(log[r], commits[k], e);
  }

  lemma UnseenIsLogged(s: Db, n: nat, e: Entry)
    requires s.head <= |s.writers| && Partial(s) && Current(s) && e in s.mem && e !in s.seen
    requires FrontIn(s, false) ==> n == s.writers[s.head].phase.size
    ensures s.log != [] && Written(e, s.log[|s.log| - 1].first, s.log[|s.log| - 1].ops)
  {
    UnfinishedIsWritten(FrontOps(s, n), s.last, s.writers[s.head].phase.inserted, s.mem, s.seen, e);
  }

  /** Whatever the database has put into the memtable since it was opened was in the log before. */
  lemma LoggedBeforeInserted(s: Db, e: Entry) returns (r: nat)
    requires Inv(s) && LogInv(s) && e in s.mem && e !in s.base
    ensures r < |s.log| && Written(e, s.log[r].first, s.log[r].ops)
  {
    if e in s.seen {
      r := SeenIsLogged(s.log, s.commits, s.writers, e);
    } else {
      UnseenIsLogged(s, if FrontIn(s, false) then s.writers[s.head].phase.size else 0, e);
      r := |s.log| - 1;
    }
  }

  /** Nothing is committed or logged, and everybody who has left since is told that it failed. */
  ghost predicate GivenUp(s: Db, t: Db) {
    && t.broken && s.head <= t.head <= |t.writers| && t.commits == s.commits && t.log == s.log && t.mem == s.mem
    && forall w | s.head <= w < t.head :: t.writers[w].status.Failed?
  }

  lemma GivesUp(s: Db, t: Db, step: Step, u: Db)
    requires Inv(t) && LogInv(t) && GivenUp(s, t) && Next(t, step, u)
    ensures GivenUp(s, u)
  {
  }

  /** After a failed sync nobody is told that a write was done, for the rest of the run. */
  lemma {:induction false} BrokenForGood(states: seq<Db>, steps: seq<Step>, i: nat)
    requires Run(states, steps) && i <= |steps| && states[i].broken
    ensures GivenUp(states[i], states[|steps|])
    decreases |steps|
  {
    if i == |steps| {
      RunKeepsLog(states, steps);
    } else {
      var n := |steps| - 1;
      RunPrefix(states, steps, n);
      RunKeepsLog(states[..n + 1], steps[..n]);
      BrokenForGood(states[..n + 1], steps[..n], i);
      GivesUp(states[i], states[n], steps[n], states[n + 1]);
    }
  }
}
