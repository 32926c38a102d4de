/** Writing a batch: the memtable, its log, and what readers see. */
module StoreWrites {
  import opened DbFormat
  import opened Version
  import opened VersionEdits
  import opened LsmSteps
  import opened Store

  // ----- readers and newer entries -----

  lemma SameCandidatesSameRead(a: set<Entry>, b: set<Entry>, u: UserKey, s: nat, t: nat)
    requires UniqueVersions(a) && UniqueVersions(b)
    requires forall e :: e in a && Candidate(e, u, s) <==> e in b && Candidate(e, u, t)
    ensures Visible(a, u, s) == Visible(b, u, t)
  {
    if c :| c in a && Candidate(c, u, s) {
      NewestExists(a, u, s, c);
      var n :| Newest(a, u, s, n);
      assert Newest(b, u, t, n);
      VisibleIs(a, u, s, n);
      VisibleIs(b, u, t, n);
    } else {
      VisibleNothing(a, u, s);
      assert forall e | e in b :: !Candidate(e, u, t);
      VisibleNothing(b, u, t);
    }
  }

  lemma NewerEntriesUnseen(es: set<Entry>, new': set<Entry>, u: UserKey, s: nat)
    requires UniqueVersions(es + new')
    requires forall e | e in new' :: s < e.key.seqno
    ensures Visible(es + new', u, s) == Visible(es, u, s)
  {
    SameCandidatesSameRead(es + new', es, u, s, s);
  }

  /** One more write: its key reads the new entry, every other key reads what it read. */
  lemma OneWrite(es: set<Entry>, e: Entry, all: set<Entry>, u: UserKey, last: nat, last': nat)
    requires UniqueVersions(es) && UpTo(es, last) && e.key.seqno == last' == last + 1 && all == es + {e}
    ensures UniqueVersions(all) && UpTo(all, last')
    ensures Visible(all, u, last') == if e.key.user == u then Read(e) else Visible(es, u, last)
  {
    if e.key.user == u {
      assert Newest(all, u, last', e);
      VisibleIs(all, u, last', e);
    } else {
      SameCandidatesSameRead(all, es, u, last', last);
    }
  }

  /** The last operation decides its own key and no other. */
  lemma OpReads(m: map<UserKey, Bytes>, ops: seq<Op>, seqno: nat, u: UserKey)
    requires ops != []
    ensures var n := |ops| - 1;
            Lookup(ApplyOps(m, ops), u) == if ops[n].key == u then Read(EntryOf(ops[n], seqno)) else Lookup(ApplyOps(m, ops[..n]), u)
  {
  }

  lemma BatchStep(front: set<Entry>, e: Entry, all: set<Entry>, m: map<UserKey, Bytes>, ops: seq<Op>,
                  last: nat, last': nat, u: UserKey)
    requires ops != [] && UniqueVersions(front) && UpTo(front, last) && last' == last + 1
    requires Visible(front, u, last) == Lookup(ApplyOps(m, ops[..|ops| - 1]), u)
    requires e == EntryOf(ops[|ops| - 1], last') && all == front + {e}
    ensures UniqueVersions(all) && UpTo(all, last')
    ensures Visible(all, u, last') == Lookup(ApplyOps(m, ops), u)
  {
    OneWrite(front, e, all, u, last, last');
    OpReads(m, ops, last', u);
  }

  lemma {:induction false} BatchReads(es: set<Entry>, m: map<UserKey, Bytes>, ops: seq<Op>, last: nat, last': nat,
                                      batch: seq<Entry>, u: UserKey)
    requires UniqueVersions(es) && UpTo(es, last) && IsBatch(ops, last + 1, batch) && last' == last + |ops|
    requires Visible(es, u, last) == Lookup(m, u)
    ensures UniqueVersions(es + Contents(batch)) && UpTo(es + Contents(batch), last')
    ensures Visible(es + Contents(batch), u, last') == Lookup(ApplyOps(m, ops), u)
    decreases |ops|
  {
    if ops == [] {
      assert es + Contents(batch) == es && last' == last;
    } else {
      var front, e := batch[..|ops| - 1], batch[|ops| - 1];
      var before := last' - 1;
      BatchReads(es, m, ops[..|ops| - 1], last, before, front, u);
      assert batch == front + [e];
      ContentsOfSnoc(front, e);
      AddOne(es, Contents(front), e);
      BatchStep(es + Contents(front), e, es + Contents(batch), m, ops, before, last', u);
    }
  }

  lemma AddOne(a: set<Entry>, b: set<Entry>, e: Entry)
    ensures a + (b + {e}) == a + b + {e}
  {
  }

  lemma ContentsOfSnoc(a: seq<Entry>, e: Entry)
    ensures Contents(a + [e]) == Contents(a) + {e}
  {
  }

  lemma ContentsOfConcat(a: seq<Entry>, b: seq<Entry>)
    ensures Contents(a + b) == Contents(a) + Contents(b)
  {
  }

  ghost predicate After(es: set<Entry>, last: nat) {
    forall e | e in es :: last < e.key.seqno
  }

  lemma BatchBounds(ops: seq<Op>, last: nat, batch: seq<Entry>)
    requires IsBatch(ops, last + 1, batch)
    ensures Appended(batch) && After(Contents(batch), last) && UpTo(Contents(batch), last + |ops|)
    ensures ops != [] ==> exists e | e in Contents(batch) :: e.key.seqno == last + |ops|
  {
    if ops != [] { assert batch[|ops| - 1] in Contents(batch); }
  }

  lemma AppendedIsUnique(log: seq<Entry>)
    requires Appended(log)
    ensures UniqueVersions(Contents(log))
  {
    forall d, e | d in log && e in log && d.key.seqno == e.key.seqno
      ensures d == e
    {
      var i :| 0 <= i < |log| && log[i] == d;
      var j :| 0 <= j < |log| && log[j] == e;
      assert i < j ==> log[i].key.seqno < log[j].key.seqno;
      assert j < i ==> log[j].key.seqno < log[i].key.seqno;
    }
  }

  // ----- the step -----

  /** Entries newer than everything slide in on top. */
  lemma TopLayer(mem: set<Entry>, imm: set<Entry>, files: set<Entry>, batch: set<Entry>, last: nat)
    requires UpTo(mem + imm + files, last) && After(batch, last) && UniqueVersions(batch)
    requires NewerSet(mem, imm) && NewerSet(mem + imm, files) && UniqueVersions(mem + imm + files)
    ensures NewerSet(mem + batch, imm) && NewerSet(mem + batch + imm, files) && UniqueVersions(mem + batch + imm + files)
  {
    assert forall e | e in imm :: e in mem + imm + files;
    assert forall e | e in files :: e in mem + imm + files;
    assert forall e | e in mem :: e in mem + imm + files;
  }

  lemma Regroup(mem: set<Entry>, imm: set<Entry>, files: set<Entry>, batch: set<Entry>)
    ensures mem + batch + imm == mem + imm + batch
    ensures mem + batch + imm + files == mem + imm + files + batch
  {
  }

  lemma UpToUnion(a: set<Entry>, b: set<Entry>, last: nat)
    ensures UpTo(a + b, last) <==> UpTo(a, last) && UpTo(b, last)
  {
    if UpTo(a + b, last) {
      assert forall e | e in a :: e in a + b;
      assert forall e | e in b :: e in a + b;
    }
  }

  lemma PartsUpTo(s: State)
    requires UpTo(All(s), s.lastSequence)
    ensures UpTo(Contents(s.mem), s.lastSequence) && UpTo(Contents(ImmEntries(s)), s.lastSequence)
  {
    UpToUnion(MemEntries(s), AllEntries(s.levels), s.lastSequence);
    UpToUnion(Contents(s.mem), Contents(ImmEntries(s)), s.lastSequence);
  }

  lemma AppendedConcat(log: seq<Entry>, batch: seq<Entry>, last: nat)
    requires Appended(log) && Appended(batch)
    requires (forall e | e in log :: e.key.seqno <= last) && forall e | e in batch :: last < e.key.seqno
    ensures Appended(log + batch)
  {
    var all := log + batch;
    forall i, j | 0 <= i < j < |all|
      ensures all[i].key.seqno < all[j].key.seqno
    {
      if i < |log| <= j { assert log[i] in log && batch[j - |log|] in batch; }
    }
  }

  lemma LogGrows(logs: map<nat, seq<Entry>>, logNumber: nat, logfileNumber: nat, batch: seq<Entry>)
    requires logfileNumber in logs
    ensures LogEntries(logs[logfileNumber := logs[logfileNumber] + batch], logNumber, logfileNumber)
         == LogEntries(logs, logNumber, logfileNumber)
  {
    var logs' := logs[logfileNumber := logs[logfileNumber] + batch];
    forall e
      ensures e in LogEntries(logs', logNumber, logfileNumber) <==> e in LogEntries(logs, logNumber, logfileNumber)
    {
      if e in LogEntries(logs', logNumber, logfileNumber) {
        var n :| n in logs' && logNumber <= n < logfileNumber && e in logs'[n];
        assert n in logs && e in logs[n];
      }
      if e in LogEntries(logs, logNumber, logfileNumber) {
        var n :| n in logs && logNumber <= n < logfileNumber && e in logs[n];
        assert n in logs' && e in logs'[n];
      }
    }
  }

  lemma NewLog(logs: map<nat, seq<Entry>>, logNumber: nat, logfileNumber: nat, mem: set<Entry>, imm: set<Entry>,
               batch: seq<Entry>, last: nat)
    requires LogsOk(logs, logNumber, logfileNumber, mem, imm)
    requires UpTo(mem, last) && UpTo(imm, last) && Appended(batch) && After(Contents(batch), last)
    ensures LogsOk(logs[logfileNumber := logs[logfileNumber] + batch], logNumber, logfileNumber, mem + Contents(batch), imm)
  {
    var log := logs[logfileNumber];
    var logs' := logs[logfileNumber := log + batch];
    ContentsOfConcat(log, batch);
    LogGrows(logs, logNumber, logfileNumber, batch);
    forall e | e in log
      ensures e.key.seqno <= last
    {
      assert e in Contents(log);
    }
    forall e | e in batch
      ensures last < e.key.seqno
    {
      assert e in Contents(batch);
    }
    forall m, d | m in logs && logNumber <= m < logfileNumber && d in logs[m]
      ensures d.key.seqno <= last
    {
      assert d in LogEntries(logs, logNumber, logfileNumber);
    }
    AppendedConcat(log, batch, last);
    forall n | n in logs' && logNumber <= n
      ensures Appended(logs'[n])
    {
    }
    forall m, n, d: Entry, e: Entry | m in logs' && n in logs' && logNumber <= m < n && d in logs'[m] && e in logs'[n]
      ensures d.key.seqno < e.key.seqno
    {
      assert m in logs && n in logs && m < logfileNumber;
      if n == logfileNumber && e in log { assert d in logs[m] && e in logs[n]; }
    }
  }

  lemma StillKept(mem: set<Entry>, batch: set<Entry>, recorded: nat, last: nat, n: nat)
    requires SequenceKept(recorded, last, mem)
    requires 0 < n ==> exists e | e in batch :: e.key.seqno == last + n
    ensures SequenceKept(recorded, last + n, mem + batch)
  {
    if 0 < n {
      var e :| e in batch && e.key.seqno == last + n;
      assert e in mem + batch;
    } else if recorded < last {
      var e :| e in mem && e.key.seqno == last;
      assert e in mem + batch;
    }
  }

  lemma WroteSets(s: State, batch: seq<Entry>, t: State)
    requires Wrote(s, batch, t)
    ensures MemEntries(t) == MemEntries(s) + Contents(batch) && All(t) == All(s) + Contents(batch)
  {
    Regroup(Contents(s.mem), Contents(ImmEntries(s)), AllEntries(s.levels), Contents(batch));
  }

  lemma WroteLayers(s: State, ops: seq<Op>, batch: seq<Entry>, t: State)
    requires MemLayers(s.mem, ImmEntries(s), AllEntries(s.levels)) && UpTo(All(s), s.lastSequence)
    requires IsBatch(ops, s.lastSequence + 1, batch) && Wrote(s, batch, t)
    ensures MemLayers(t.mem, ImmEntries(t), AllEntries(t.levels))
  {
    BatchBounds(ops, s.lastSequence, batch);
    AppendedIsUnique(batch);
    TopLayer(Contents(s.mem), Contents(ImmEntries(s)), AllEntries(s.levels), Contents(batch), s.lastSequence);
  }

  lemma WroteLogged(s: State, ops: seq<Op>, batch: seq<Entry>, t: State)
    requires Logged(s) && UpTo(All(s), s.lastSequence)
    requires IsBatch(ops, s.lastSequence + 1, batch) && Wrote(s, batch, t)
    ensures Logged(t)
  {
    BatchBounds(ops, s.lastSequence, batch);
    PartsUpTo(s);
    NewLog(s.disk.logs, s.logNumber, s.logfileNumber, Contents(s.mem), Contents(ImmEntries(s)), batch, s.lastSequence);
  }

  lemma WroteBounded(s: State, ops: seq<Op>, batch: seq<Entry>, t: State)
    requires UpTo(All(s), s.lastSequence) && IsBatch(ops, s.lastSequence + 1, batch) && Wrote(s, batch, t)
    ensures UpTo(All(t), t.lastSequence)
  {
    WroteSets(s, batch, t);
    BatchBounds(ops, s.lastSequence, batch);
    assert UpTo(All(s), t.lastSequence);
    UpToUnion(All(s), Contents(batch), t.lastSequence);
  }

  lemma WroteRecorded(s: State, ops: seq<Op>, batch: seq<Entry>, t: State)
    requires Recorded(s) && IsBatch(ops, s.lastSequence + 1, batch) && Wrote(s, batch, t)
    ensures Recorded(t)
  {
    WroteSets(s, batch, t);
    BatchBounds(ops, s.lastSequence, batch);
    StillKept(MemEntries(s), Contents(batch), s.disk.manifest[|s.disk.manifest| - 1].lastSequence, s.lastSequence, |ops|);
  }

  lemma WriteKeepsInv(s: State, ops: seq<Op>, batch: seq<Entry>, t: State)
    requires Inv(s) && s.lastSequence + |ops| < MAX_SEQUENCE
    requires IsBatch(ops, s.lastSequence + 1, batch) && Wrote(s, batch, t)
    ensures Inv(t)
  {
    WroteLayers(s, ops, batch, t);
    WroteLogged(s, ops, batch, t);
    WroteBounded(s, ops, batch, t);
    WroteRecorded(s, ops, batch, t);
  }

  lemma WriteReads(es: set<Entry>, snapshots: seq<nat>, last: nat, last': nat, sp: Spec, ops: seq<Op>, batch: seq<Entry>)
    requires UniqueVersions(es) && UpTo(es, last) && SnapshotsOk(snapshots, last) && ReadsAs(es, snapshots, last, sp)
    requires IsBatch(ops, last + 1, batch) && last' == last + |ops|
    ensures ReadsAs(es + Contents(batch), snapshots, last', sp.(now := ApplyOps(sp.now, ops)))
  {
    BatchBounds(ops, last, batch);
    forall u
      ensures Visible(es + Contents(batch), u, last') == Lookup(ApplyOps(sp.now, ops), u)
    {
      BatchReads(es, sp.now, ops, last, last', batch, u);
    }
    forall i, u | 0 <= i < |sp.held|
      ensures Visible(es + Contents(batch), u, snapshots[i]) == Lookup(sp.held[i], u)
    {
      BatchReads(es, sp.now, ops, last, last', batch, u);
      NewerEntriesUnseen(es, Contents(batch), u, snapshots[i]);
    }
  }

  lemma WriteRefines(s: State, sp: Spec, ops: seq<Op>, batch: seq<Entry>, t: State)
    requires UniqueVersions(All(s)) && Bounded(s) && Refines(s, sp)
    requires IsBatch(ops, s.lastSequence + 1, batch) && Wrote(s, batch, t)
    ensures Refines(t, sp.(now := ApplyOps(sp.now, ops)))
  {
    WroteSets(s, batch, t);
    WriteReads(All(s), s.snapshots, s.lastSequence, t.lastSequence, sp, ops, batch);
  }
}
