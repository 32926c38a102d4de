/** The rewriting loop of a compaction and the entries it throws away
    (db/db_impl.cc DoCompactionWork; db/version_set.cc IsBaseLevelForKey). */
module CompactionWork {
  import opened DbFormat
  import opened Version
  import opened Inputs

  /** No file two or more levels down may hold the key. */
  ghost predicate BaseLevel(version: seq<Level>, level: nat, u: UserKey) {
    forall l, f | level + 2 <= l < |version| && f in version[l] :: !f.MayContain(u)
  }

  ghost predicate OrderedVersion(version: seq<Level>) {
    forall l | 1 <= l < |version| :: Ranged(version[l]) && Ordered(version[l])
  }

  class Compaction {
    const level: nat
    const inputVersion: seq<Level>
    /** One cursor per level; keys are asked for in increasing order, so a cursor never moves back. */
    var levelPtrs: seq<nat>

    constructor (level: nat, inputVersion: seq<Level>)
      requires |inputVersion| == NUM_LEVELS && level + 1 < NUM_LEVELS
      ensures this.level == level && this.inputVersion == inputVersion && Fresh()
    {
      this.level := level;
      this.inputVersion := inputVersion;
      levelPtrs := seq(NUM_LEVELS, _ => 0);
    }

    ghost predicate Fresh()
      reads this
    {
      level + 1 < NUM_LEVELS == |levelPtrs| == |inputVersion| && forall l | 0 <= l < NUM_LEVELS :: levelPtrs[l] == 0
    }

    /** Every file a cursor has passed ends before `u`. */
    ghost predicate Behind(u: UserKey)
      reads this
    {
      && level + 1 < NUM_LEVELS == |levelPtrs| == |inputVersion|
      && forall l | 0 <= l < NUM_LEVELS :: PtrBehind(inputVersion[l], levelPtrs[l], u)
    }

    static ghost predicate PtrBehind(files: Level, ptr: nat, u: UserKey) {
      ptr <= |files| && forall i | 0 <= i < ptr :: files[i].largest.user < u
    }

    method IsBaseLevelForKey(u: UserKey) returns (base: bool)
      requires Behind(u)
      requires OrderedVersion(inputVersion)
      modifies this
      ensures Behind(u)
      ensures base <==> BaseLevel(inputVersion, level, u)
    {
      for lvl := level + 2 to NUM_LEVELS
        invariant Behind(u)
        invariant forall l, f | level + 2 <= l < lvl && f in inputVersion[l] :: !f.MayContain(u)
      {
        var files := inputVersion[lvl];
        while levelPtrs[lvl] < |files|
          invariant Behind(u)
          decreases |files| - levelPtrs[lvl]
        {
          var f := files[levelPtrs[lvl]];
          if u <= f.largest.user {
            if f.smallest.user <= u {
              assert f in files && f.MayContain(u);
              return false;
            }
            break;
          }
          levelPtrs := levelPtrs[lvl := levelPtrs[lvl] + 1];
        }
        NoFileHolds(files, levelPtrs[lvl], u);
      }
      return true;
    }

    static lemma NoFileHolds(files: Level, ptr: nat, u: UserKey)
      requires Ranged(files) && Ordered(files) && PtrBehind(files, ptr, u)
      requires ptr < |files| ==> u < files[ptr].smallest.user
      ensures forall f | f in files :: !f.MayContain(u)
    {
      forall i | 0 <= i < |files|
        ensures !files[i].MayContain(u)
      {
        if ptr < i { OrderedBounds(files, ptr, i); }
      }
    }
  }

  // ----- which entries are dropped -----

  /** Rule (A): hidden by a newer entry every snapshot can already see.  Rule (B): an obsolete deletion marker. */
  ghost predicate Dropped(version: seq<Level>, level: nat, input: seq<Entry>, i: nat, smallestSnapshot: nat)
    requires i < |input|
  {
    || (0 < i && input[i - 1].key.user == input[i].key.user && input[i - 1].key.seqno <= smallestSnapshot)
    || (input[i].key.kind.TypeDeletion? && input[i].key.seqno <= smallestSnapshot
        && BaseLevel(version, level, input[i].key.user))
  }

  ghost function Kept(version: seq<Level>, level: nat, input: seq<Entry>, n: nat, smallestSnapshot: nat): seq<Entry>
    requires n <= |input|
  {
    if n == 0 then []
    else
      Kept(version, level, input, n - 1, smallestSnapshot)
      + if Dropped(version, level, input, n - 1, smallestSnapshot) then [] else [input[n - 1]]
  }

  lemma {:induction false} KeptMembers(version: seq<Level>, level: nat, input: seq<Entry>, n: nat, smallestSnapshot: nat)
    requires n <= |input|
    ensures forall e :: e in Kept(version, level, input, n, smallestSnapshot) <==>
                        exists i :: 0 <= i < n && input[i] == e && !Dropped(version, level, input, i, smallestSnapshot)
  {
    if n > 0 {
      KeptMembers(version, level, input, n - 1, smallestSnapshot);
    }
  }

  lemma {:induction false} KeptSorted(version: seq<Level>, level: nat, input: seq<Entry>, n: nat, smallestSnapshot: nat)
    requires n <= |input| && Sorted(input)
    ensures Sorted(Kept(version, level, input, n, smallestSnapshot))
  {
    if n > 0 {
      KeptSorted(version, level, input, n - 1, smallestSnapshot);
      KeptMembers(version, level, input, n - 1, smallestSnapshot);
      var front := Kept(version, level, input, n - 1, smallestSnapshot);
      forall k | 0 <= k < |front|
        ensures Less(front[k].key, input[n - 1].key)
      {
        assert front[k] in front;
      }
    }
  }

  // ----- the loop -----

  ghost function Flatten(files: Level): seq<Entry> {
    if files == [] then [] else Flatten(files[..|files| - 1]) + files[|files| - 1].entries
  }

  /** Metadata as FinishCompactionOutputFile leaves it. */
  ghost predicate OutputFiles(files: Level, firstNumber: nat) {
    forall i | 0 <= i < |files| ::
      && files[i].number == firstNumber + i
      && 0 < |files[i].entries|
      && files[i].smallest == files[i].entries[0].key
      && files[i].largest == files[i].entries[|files[i].entries| - 1].key
  }

  method FinishOutputFile(outputs: Level, open: seq<Entry>, firstNumber: nat, size: nat) returns (r: Level)
    requires OutputFiles(outputs, firstNumber) && open != []
    ensures OutputFiles(r, firstNumber) && Flatten(r) == Flatten(outputs) + open
  {
    var f := FileMetaData(firstNumber + |outputs|, size, open[0].key, open[|open| - 1].key, open);
    r := outputs + [f];
    assert r[..|r| - 1] == outputs;
  }

  /** The decision for entry i; `lastSequenceForKey` remembers the entry before it. */
  method Decide(c: Compaction, input: seq<Entry>, i: nat, smallestSnapshot: nat,
                currentUserKey: Option<UserKey>, lastSequenceForKey: nat)
    returns (drop: bool)
    requires i < |input| && smallestSnapshot < MAX_SEQUENCE
    requires i == 0 ==> currentUserKey.None?
    requires 0 < i ==> currentUserKey == Some(input[i - 1].key.user) && lastSequenceForKey == input[i - 1].key.seqno
    requires c.Behind(input[i].key.user)
    requires OrderedVersion(c.inputVersion)
    modifies c
    ensures c.Behind(input[i].key.user)
    ensures drop <==> Dropped(c.inputVersion, c.level, input, i, smallestSnapshot)
  {
    var key := input[i].key;
    var last := if currentUserKey != Some(key.user) then MAX_SEQUENCE else lastSequenceForKey;
    drop := false;
    if last <= smallestSnapshot {
      drop := true;
    } else if key.kind.TypeDeletion? && key.seqno <= smallestSnapshot {
      drop := c.IsBaseLevelForKey(key.user);
    }
  }

  lemma FurtherBehind(c: Compaction, u: UserKey, v: UserKey)
    requires c.Behind(u) && u <= v
    ensures c.Behind(v)
  {
    forall l | 0 <= l < NUM_LEVELS
      ensures Compaction.PtrBehind(c.inputVersion[l], c.levelPtrs[l], v)
    {
      assert Compaction.PtrBehind(c.inputVersion[l], c.levelPtrs[l], u);
    }
  }

  lemma StillBehind(c: Compaction, input: seq<Entry>, i: nat)
    requires Sorted(input) && i < |input|
    requires if i == 0 then c.Fresh() else c.Behind(input[i - 1].key.user)
    ensures c.Behind(input[i].key.user)
  {
    if 0 < i {
      assert Less(input[i - 1].key, input[i].key);
      FurtherBehind(c, input[i - 1].key.user, input[i].key.user);
    }
  }

  /** Close the open output, if there is one and the time has come. */
  method CloseIf(now: bool, outputs: Level, open: seq<Entry>, firstNumber: nat, size: nat)
    returns (outputs': Level, open': seq<Entry>)
    requires OutputFiles(outputs, firstNumber)
    ensures OutputFiles(outputs', firstNumber) && Flatten(outputs') + open' == Flatten(outputs) + open
    ensures now ==> open' == []
  {
    outputs', open' := outputs, open;
    if now && open != [] {
      outputs' := FinishOutputFile(outputs, open, firstNumber, size);
      open' := [];
    }
  }

  lemma {:induction false} KeptStep(c: Compaction, input: seq<Entry>, i: nat, smallestSnapshot: nat, done: seq<Entry>, drop: bool)
    requires i < |input| && done == Kept(c.inputVersion, c.level, input, i, smallestSnapshot)
    requires drop <==> Dropped(c.inputVersion, c.level, input, i, smallestSnapshot)
    ensures Kept(c.inputVersion, c.level, input, i + 1, smallestSnapshot) == done + if drop then [] else [input[i]]
  {
  }

  /** `stops` and `sizes` stand for ShouldStopBefore and for the growing file size: any answers will do. */
  method DoCompactionWork(c: Compaction, input: seq<Entry>, smallestSnapshot: nat,
                          stops: seq<bool>, sizes: seq<nat>, maxOutputFileSize: nat, firstNumber: nat)
    returns (outputs: Level)
    requires |stops| == |input| && |sizes| == |input| + 1
    requires Sorted(input) && smallestSnapshot < MAX_SEQUENCE && c.Fresh()
    requires OrderedVersion(c.inputVersion)
    modifies c
    ensures Flatten(outputs) == Kept(c.inputVersion, c.level, input, |input|, smallestSnapshot)
    ensures OutputFiles(outputs, firstNumber)
  {
    outputs := [];
    var open: seq<Entry> := [];
    var currentUserKey: Option<UserKey> := None;
    var lastSequenceForKey := MAX_SEQUENCE;
    var i := 0;
    while i < |input|
      invariant i <= |input|
      invariant OutputFiles(outputs, firstNumber)
      invariant Flatten(outputs) + open == Kept(c.inputVersion, c.level, input, i, smallestSnapshot)
      invariant i == 0 ==> currentUserKey.None? && c.Fresh()
      invariant 0 < i ==> currentUserKey == Some(input[i - 1].key.user) && lastSequenceForKey == input[i - 1].key.seqno
      invariant 0 < i ==> c.Behind(input[i - 1].key.user)
    {
      outputs, open := CloseIf(stops[i], outputs, open, firstNumber, sizes[i]);
      StillBehind(c, input, i);
      var drop := Decide(c, input, i, smallestSnapshot, currentUserKey, lastSequenceForKey);
      currentUserKey, lastSequenceForKey := Some(input[i].key.user), input[i].key.seqno;
      KeptStep(c, input, i, smallestSnapshot, Flatten(outputs) + open, drop);
      if !drop {
        assert Flatten(outputs) + (open + [input[i]]) == Flatten(outputs) + open + [input[i]];
        open := open + [input[i]];
        outputs, open := CloseIf(maxOutputFileSize <= sizes[i], outputs, open, firstNumber, sizes[i]);
      }
      i := i + 1;
    }
    outputs, open := CloseIf(true, outputs, open, firstNumber, sizes[i]);
  }
}
