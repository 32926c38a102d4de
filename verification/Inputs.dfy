/** Choosing what a compaction reads (db/version_set.cc: GetOverlappingInputs, AddBoundaryInputs,
    SetupOtherInputs). */
module Inputs {
  import opened DbFormat
  import opened Version

  /** The files of a level that overlap a user-key range, in level order. */
  function Overlapping(files: Level, lo: Option<UserKey>, hi: Option<UserKey>): Level {
    if files == [] then []
    else
      var n := |files| - 1;
      Overlapping(files[..n], lo, hi) + if Overlaps(files[n], lo, hi) then [files[n]] else []
  }

  lemma {:induction false} OverlappingMembers(files: Level, lo: Option<UserKey>, hi: Option<UserKey>)
    ensures forall f :: f in Overlapping(files, lo, hi) <==> f in files && Overlaps(f, lo, hi)
  {
    if files != [] {
      var n := |files| - 1;
      assert files == files[..n] + [files[n]];
      OverlappingMembers(files[..n], lo, hi);
    }
  }

  predicate NoLower(a: Option<UserKey>, b: Option<UserKey>) {
    a.None? || (b.Some? && a.value <= b.value)
  }

  predicate NoHigher(a: Option<UserKey>, b: Option<UserKey>) {
    b.None? || (a.Some? && a.value <= b.value)
  }

  /** `lo2..hi2` covers `lo..hi`. */
  predicate Covers(lo2: Option<UserKey>, hi2: Option<UserKey>, lo: Option<UserKey>, hi: Option<UserKey>) {
    NoLower(lo2, lo) && NoHigher(hi, hi2)
  }

  /** Every file that overlaps the range lies inside it. */
  ghost predicate ClosedRange(files: Level, lo: Option<UserKey>, hi: Option<UserKey>) {
    forall f | f in files && Overlaps(f, lo, hi) ::
      NoLower(lo, Some(f.smallest.user)) && NoHigher(Some(f.largest.user), hi)
  }

  /** Every closed range around `begin..end` covers `lo..hi`. */
  ghost predicate UnderEveryClosedRange(files: Level, begin: Option<UserKey>, end: Option<UserKey>,
                                        lo: Option<UserKey>, hi: Option<UserKey>) {
    forall lo2, hi2 | ClosedRange(files, lo2, hi2) && Covers(lo2, hi2, begin, end) :: Covers(lo2, hi2, lo, hi)
  }

  ghost predicate LeastClosedRange(files: Level, begin: Option<UserKey>, end: Option<UserKey>,
                                   lo: Option<UserKey>, hi: Option<UserKey>) {
    && ClosedRange(files, lo, hi)
    && Covers(lo, hi, begin, end)
    && UnderEveryClosedRange(files, begin, end, lo, hi)
  }

  predicate BeforeRange(f: FileMetaData, lo: Option<UserKey>) {
    lo.Some? && f.smallest.user < lo.value
  }

  predicate BeyondRange(f: FileMetaData, hi: Option<UserKey>) {
    hi.Some? && hi.value < f.largest.user
  }

  ghost function Before(files: Level, lo: Option<UserKey>): set<FileMetaData> {
    set f | f in files && BeforeRange(f, lo)
  }

  ghost function Beyond(files: Level, hi: Option<UserKey>): set<FileMetaData> {
    set f | f in files && BeyondRange(f, hi)
  }

  lemma WidenBegin(files: Level, begin: Option<UserKey>, end: Option<UserKey>,
                   lo: Option<UserKey>, hi: Option<UserKey>, f: FileMetaData)
    requires f in files && f.Valid() && Overlaps(f, lo, hi) && BeforeRange(f, lo)
    requires UnderEveryClosedRange(files, begin, end, lo, hi)
    ensures UnderEveryClosedRange(files, begin, end, Some(f.smallest.user), hi)
    ensures Before(files, Some(f.smallest.user)) < Before(files, lo)
  {
    assert f in Before(files, lo) && f !in Before(files, Some(f.smallest.user));
    forall lo2, hi2 | ClosedRange(files, lo2, hi2) && Covers(lo2, hi2, begin, end)
      ensures Covers(lo2, hi2, Some(f.smallest.user), hi)
    {
      assert Covers(lo2, hi2, lo, hi) && Overlaps(f, lo2, hi2);
    }
  }

  lemma {:induction false} WidenEnd(files: Level, begin: Option<UserKey>, end: Option<UserKey>,
                 lo: Option<UserKey>, hi: Option<UserKey>, f: FileMetaData)
    requires f in files && f.Valid() && Overlaps(f, lo, hi) && BeyondRange(f, hi)
    requires UnderEveryClosedRange(files, begin, end, lo, hi)
    ensures UnderEveryClosedRange(files, begin, end, lo, Some(f.largest.user))
    ensures Beyond(files, Some(f.largest.user)) < Beyond(files, hi)
  {
    assert f in Beyond(files, hi) && f !in Beyond(files, Some(f.largest.user));
    forall lo2, hi2 | ClosedRange(files, lo2, hi2) && Covers(lo2, hi2, begin, end)
      ensures Covers(lo2, hi2, lo, Some(f.largest.user))
    {
      assert Covers(lo2, hi2, lo, hi) && Overlaps(f, lo2, hi2);
    }
  }

  /** Level 0 restarts its scan whenever a file widens the range, and still ends with the overlapping
      files of the least range closed under overlap. */
  method GetOverlappingInputs(files: Level, level: nat, begin: Option<UserKey>, end: Option<UserKey>)
    returns (inputs: Level, userBegin: Option<UserKey>, userEnd: Option<UserKey>)
    requires AllValid(files)
    ensures inputs == Overlapping(files, userBegin, userEnd)
    ensures level > 0 ==> userBegin == begin && userEnd == end
    ensures level == 0 ==> LeastClosedRange(files, begin, end, userBegin, userEnd)
  {
    userBegin, userEnd := begin, end;
    inputs := [];
    var i := 0;
    while i < |files|
      invariant i <= |files|
      invariant inputs == Overlapping(files[..i], userBegin, userEnd)
      invariant level > 0 ==> userBegin == begin && userEnd == end
      invariant (userBegin.None? <==> begin.None?) && (userEnd.None? <==> end.None?)
      invariant Covers(userBegin, userEnd, begin, end)
      invariant UnderEveryClosedRange(files, begin, end, userBegin, userEnd)
      invariant level == 0 ==> ClosedRange(files[..i], userBegin, userEnd)
      decreases Before(files, userBegin), Beyond(files, userEnd), |files| - i
    {
      var f := files[i];
      assert f in files && f.Valid();
      assert files[..i + 1][..i] == files[..i];
      i := i + 1;
      if AfterFile(userBegin, f) {
      } else if BeforeFile(userEnd, f) {
      } else {
        inputs := inputs + [f];
        if level == 0 {
          if BeforeRange(f, userBegin) {
            WidenBegin(files, begin, end, userBegin, userEnd, f);
            userBegin := Some(f.smallest.user);
            inputs := [];
            i := 0;
          } else if BeyondRange(f, userEnd) {
            WidenEnd(files, begin, end, userBegin, userEnd, f);
            userEnd := Some(f.largest.user);
            inputs := [];
            i := 0;
          }
        }
      }
    }
    assert files[..i] == files;
  }

  // ----- boundary files -----

  /** `f` begins past `key` but still inside the versions of key's user key. */
  predicate Boundary(f: FileMetaData, key: InternalKey) {
    Less(key, f.smallest) && f.smallest.user == key.user
  }

  ghost predicate IsLargest(files: Level, key: InternalKey) {
    (exists f | f in files :: f.largest == key) && forall f | f in files :: AtMost(f.largest, key)
  }

  method FindLargestKey(files: Level) returns (largest: Option<InternalKey>)
    ensures largest.None? <==> files == []
    ensures largest.Some? ==> IsLargest(files, largest.value)
  {
    if files == [] {
      return None;
    }
    var key := files[0].largest;
    assert files[0] in files;
    for i := 1 to |files|
      invariant exists f | f in files :: f.largest == key
      invariant forall f | f in files[..i] :: AtMost(f.largest, key)
    {
      if Less(key, files[i].largest) {
        key := files[i].largest;
        assert files[i] in files;
      }
    }
    assert files[..|files|] == files;
    return Some(key);
  }

  method FindSmallestBoundaryFile(levelFiles: Level, key: InternalKey) returns (found: Option<FileMetaData>)
    ensures found.None? ==> forall f | f in levelFiles :: !Boundary(f, key)
    ensures found.Some? ==> SmallestBoundary(levelFiles, key, found.value)
  {
    found := None;
    for i := 0 to |levelFiles|
      invariant found.None? ==> forall f | f in levelFiles[..i] :: !Boundary(f, key)
      invariant found.Some? ==> found.value in levelFiles && SmallestBoundary(levelFiles[..i], key, found.value)
    {
      var f := levelFiles[i];
      assert levelFiles[..i + 1] == levelFiles[..i] + [f];
      if Boundary(f, key) {
        if found.None? || Less(f.smallest, found.value.smallest) {
          found := Some(f);
        }
      }
    }
    assert levelFiles[..|levelFiles|] == levelFiles;
  }

  ghost predicate SmallestBoundary(levelFiles: Level, key: InternalKey, f: FileMetaData) {
    f in levelFiles && Boundary(f, key) && forall g | g in levelFiles && Boundary(g, key) :: AtMost(f.smallest, g.smallest)
  }

  /** `r` extends `c` by one boundary file after another, each for the largest key so far. */
  ghost predicate BoundaryChain(levelFiles: Level, c: Level, r: Level) {
    c <= r && forall k | |c| <= k < |r| :: NextBoundary(levelFiles, r[..k], r[k])
  }

  ghost predicate NextBoundary(levelFiles: Level, r: Level, f: FileMetaData) {
    exists key {:trigger IsLargest(r, key)} :: IsLargest(r, key) && SmallestBoundary(levelFiles, key, f)
  }

  method AddBoundaryInputs(levelFiles: Level, compactionFiles: Level) returns (r: Level)
    requires Ranged(levelFiles)
    ensures BoundaryChain(levelFiles, compactionFiles, r)
    ensures forall k | |compactionFiles| <= k < |r| :: r[k] in levelFiles && r[k] !in r[..k]
    ensures forall key, f | IsLargest(r, key) && f in levelFiles :: !Boundary(f, key)
  {
    r := compactionFiles;
    var largest := FindLargestKey(compactionFiles);
    if largest.None? {
      return;
    }
    var key := largest.value;
    var continueSearching := true;
    while continueSearching
      invariant BoundaryChain(levelFiles, compactionFiles, r)
      invariant IsLargest(r, key)
      invariant !continueSearching ==> forall f | f in levelFiles :: !Boundary(f, key)
      decreases continueSearching, Ahead(levelFiles, key)
    {
      var boundary := FindSmallestBoundaryFile(levelFiles, key);
      if boundary.Some? {
        BoundaryStep(levelFiles, compactionFiles, r, key, boundary.value);
        r := r + [boundary.value];
        key := boundary.value.largest;
      } else {
        continueSearching := false;
      }
    }
    ChainAddsNoDuplicate(levelFiles, compactionFiles, r);
  }

  /** A boundary file begins past everything taken so far, so it is not one of them. */
  lemma ChainAddsNoDuplicate(levelFiles: Level, c: Level, r: Level)
    requires Ranged(levelFiles) && BoundaryChain(levelFiles, c, r)
    ensures forall k | |c| <= k < |r| :: r[k] in levelFiles && r[k] !in r[..k]
  {
    forall k | |c| <= k < |r|
      ensures r[k] in levelFiles && r[k] !in r[..k]
    {
      assert NextBoundary(levelFiles, r[..k], r[k]);
      var key :| IsLargest(r[..k], key) && SmallestBoundary(levelFiles, key, r[k]);
      forall g | g in r[..k]
        ensures g != r[k]
      {
        assert AtMost(g.largest, key);
      }
    }
  }

  /** The files a search from `key` on can still find. */
  ghost function Ahead(levelFiles: Level, key: InternalKey): set<FileMetaData> {
    set f | f in levelFiles && Less(key, f.smallest)
  }

  lemma ChainLink(levelFiles: Level, c: Level, r: Level, f: FileMetaData)
    requires BoundaryChain(levelFiles, c, r) && NextBoundary(levelFiles, r, f)
    ensures BoundaryChain(levelFiles, c, r + [f])
  {
    var q := r + [f];
    forall k | |c| <= k < |q|
      ensures NextBoundary(levelFiles, q[..k], q[k])
    {
      assert q[..k] == r[..k];
      assert r[..|r|] == r;
    }
  }

  lemma BoundaryStep(levelFiles: Level, c: Level, r: Level, key: InternalKey, f: FileMetaData)
    requires Ranged(levelFiles) && BoundaryChain(levelFiles, c, r)
    requires IsLargest(r, key) && SmallestBoundary(levelFiles, key, f)
    ensures BoundaryChain(levelFiles, c, r + [f])
    ensures IsLargest(r + [f], f.largest)
    ensures Ahead(levelFiles, f.largest) < Ahead(levelFiles, key)
  {
    ChainLink(levelFiles, c, r, f);
    LargestAfter(r, key, f);
    AheadShrinks(levelFiles, key, f);
  }

  lemma LargestAfter(r: Level, key: InternalKey, f: FileMetaData)
    requires IsLargest(r, key) && Less(key, f.smallest) && AtMost(f.smallest, f.largest)
    ensures IsLargest(r + [f], f.largest)
  {
    var q := r + [f];
    assert f in q;
    forall g | g in q
      ensures AtMost(g.largest, f.largest)
    {
      assert g in r ==> AtMost(g.largest, key);
    }
  }

  lemma AheadShrinks(levelFiles: Level, key: InternalKey, f: FileMetaData)
    requires f in levelFiles && Less(key, f.smallest) && AtMost(f.smallest, f.largest)
    ensures Ahead(levelFiles, f.largest) < Ahead(levelFiles, key)
  {
    assert f in Ahead(levelFiles, key) && f !in Ahead(levelFiles, f.largest);
  }

  // ----- the inputs of a compaction -----

  ghost predicate Slice(files: Level, c: Level, a: nat, b: nat) {
    a <= b <= |files| && |c| == b - a && forall j | 0 <= j < |c| :: c[j] == files[a + j]
  }

  lemma OverlapIsConvex(files: Level, lo: Option<UserKey>, hi: Option<UserKey>, i: nat, j: nat, k: nat)
    requires Ranged(files) && Ordered(files) && i < j < k < |files|
    requires Overlaps(files[i], lo, hi) && Overlaps(files[k], lo, hi)
    ensures Overlaps(files[j], lo, hi)
  {
    OrderedBounds(files, i, j);
    OrderedBounds(files, j, k);
  }

  lemma {:induction false} OverlapInterval(files: Level, lo: Option<UserKey>, hi: Option<UserKey>, n: nat)
    returns (a: nat, b: nat)
    requires Ranged(files) && Ordered(files) && n <= |files|
    ensures a <= b <= n
    ensures forall i | 0 <= i < n :: a <= i < b <==> Overlaps(files[i], lo, hi)
  {
    if n == 0 {
      return 0, 0;
    }
    a, b := OverlapInterval(files, lo, hi, n - 1);
    if Overlaps(files[n - 1], lo, hi) {
      if a == b {
        a := n - 1;
      } else if b < n - 1 {
        OverlapIsConvex(files, lo, hi, b - 1, b, n - 1);
      }
      b := n;
    }
  }

  lemma OverlappingStep(files: Level, lo: Option<UserKey>, hi: Option<UserKey>, n: nat)
    requires n < |files|
    ensures Overlapping(files[..n + 1], lo, hi)
         == Overlapping(files[..n], lo, hi) + if Overlaps(files[n], lo, hi) then [files[n]] else []
  {
    assert files[..n + 1][..n] == files[..n];
  }

  /** A filter whose hits are the indices a..b is the slice a..b. */
  lemma {:induction false} IntervalIsSlice(files: Level, lo: Option<UserKey>, hi: Option<UserKey>, a: nat, b: nat, n: nat)
    requires a <= b <= |files| && n <= |files|
    requires forall i | 0 <= i < |files| :: a <= i < b <==> Overlaps(files[i], lo, hi)
    ensures Overlapping(files[..n], lo, hi) == files[Min(a, n)..Min(b, n)]
  {
    if n != 0 {
      IntervalIsSlice(files, lo, hi, a, b, n - 1);
      OverlappingStep(files, lo, hi, n - 1);
      SliceStep(files, a, b, n - 1);
    }
  }

  function Min(a: nat, b: nat): nat {
    if a < b then a else b
  }

  lemma SliceStep(files: Level, a: nat, b: nat, n: nat)
    requires a <= b <= |files| && n < |files|
    ensures files[Min(a, n + 1)..Min(b, n + 1)]
         == files[Min(a, n)..Min(b, n)] + if a <= n < b then [files[n]] else []
  {
  }

  lemma OverlappingIsSlice(files: Level, lo: Option<UserKey>, hi: Option<UserKey>) returns (a: nat, b: nat)
    requires Ranged(files) && Ordered(files)
    ensures Slice(files, Overlapping(files, lo, hi), a, b)
  {
    a, b := OverlapInterval(files, lo, hi, |files|);
    IntervalIsSlice(files, lo, hi, a, b, |files|);
    assert files[..|files|] == files;
  }

  lemma NextOfSlice(files: Level, c: Level, a: nat, b: nat, key: InternalKey, f: FileMetaData)
    requires Ranged(files) && Ordered(files)
    requires Slice(files, c, a, b) && a < b && IsLargest(c, key) && SmallestBoundary(files, key, f)
    ensures b < |files| && f == files[b]
  {
    LargestOfSlice(files, c, a, b, key);
    var k :| 0 <= k < |files| && files[k] == f;
    assert AtMost(f.smallest, f.largest);
    if k < b - 1 { OrderedBounds(files, k, b - 1); }
    assert b <= k;
    var g := files[b];
    assert g in files && AtMost(g.smallest, g.largest);
    assert b < k ==> Boundary(g, key);
  }

  lemma BoundaryStepIsSlice(files: Level, c: Level, a: nat, b: nat, f: FileMetaData)
    requires Ranged(files) && Ordered(files)
    requires Slice(files, c, a, b) && a < b && NextBoundary(files, c, f)
    ensures b < |files| && f == files[b]
  {
    var key :| IsLargest(c, key) && SmallestBoundary(files, key, f);
    NextOfSlice(files, c, a, b, key, f);
  }

  lemma BoundaryChainIsSlice(files: Level, c: Level, r: Level, a: nat, b: nat)
    requires Ranged(files) && Ordered(files)
    requires Slice(files, c, a, b) && a < b && BoundaryChain(files, c, r)
    ensures Slice(files, r, a, a + |r|)
  {
    var k := |c|;
    while k < |r|
      invariant |c| <= k <= |r| && a + k <= |files|
      invariant forall j | 0 <= j < k :: r[j] == files[a + j]
    {
      assert Slice(files, r[..k], a, a + k);
      BoundaryStepIsSlice(files, r[..k], a, a + k, r[k]);
      k := k + 1;
    }
  }

  lemma LargestOfSlice(files: Level, c: Level, a: nat, b: nat, key: InternalKey)
    requires Ranged(files) && Ordered(files)
    requires Slice(files, c, a, b) && a < b && IsLargest(c, key)
    ensures key == files[b - 1].largest
  {
    var f :| f in c && f.largest == key;
    var k :| a <= k < b && files[k] == f;
    assert files[b - 1] == c[b - 1 - a];
    if k < b - 1 { OrderedBounds(files, k, b - 1); }
  }

  /** What PickCompaction and CompactRange hand to SetupOtherInputs. */
  ghost predicate Picked(files: Level, level: nat, c: Level) {
    && c != []
    && if level == 0
       then exists lo, hi :: ClosedRange(files, lo, hi) && c == Overlapping(files, lo, hi)
       else exists a, b :: Slice(files, c, a, b)
  }

  /** What a picked set leaves behind on its level is newer, user key by user key. */
  ghost predicate OldestOfLevel(files: Level, c: Level) {
    && (forall f | f in c :: f in files)
    && (forall f, g | f in c && g in files && g !in c :: NewerThan(g, f))
  }

  lemma ClosedSetHasNoBoundary(files: Level, lo: Option<UserKey>, hi: Option<UserKey>, c: Level, f: FileMetaData)
    requires Ranged(files) && ClosedRange(files, lo, hi) && c == Overlapping(files, lo, hi)
    ensures !NextBoundary(files, c, f)
  {
    OverlappingMembers(files, lo, hi);
    forall key | IsLargest(c, key) && f in files
      ensures !Boundary(f, key)
    {
      var h :| h in c && h.largest == key;
      assert Overlaps(f, lo, hi) ==> f in c;
    }
  }

  lemma Level0ChainAddsNothing(files: Level, lo: Option<UserKey>, hi: Option<UserKey>, c: Level, r: Level)
    requires Ranged(files) && ClosedRange(files, lo, hi) && c == Overlapping(files, lo, hi)
    requires BoundaryChain(files, c, r)
    ensures r == c
  {
    if |c| < |r| {
      assert r[..|c|] == c;
      ClosedSetHasNoBoundary(files, lo, hi, c, r[|c|]);
    }
  }

  lemma ClosedSetIsOldest(files: Level, lo: Option<UserKey>, hi: Option<UserKey>, c: Level)
    requires AllValid(files) && ClosedRange(files, lo, hi) && c == Overlapping(files, lo, hi)
    ensures OldestOfLevel(files, c)
  {
    OverlappingMembers(files, lo, hi);
    forall f, g | f in c && g in files && g !in c
      ensures NewerThan(g, f)
    {
      forall d, e | d in g.entries && e in f.entries
        ensures d.key.user != e.key.user
      {
        EntryInRange(g, d);
        EntryInRange(f, e);
      }
    }
  }

  /** Entries of one user key in two different files of an ordered level: the earlier file has the newer one. */
  lemma EarlierFileIsNewer(files: Level, i: nat, k: nat)
    requires AllValid(files) && Ordered(files) && UniqueVersions(Entries(files)) && i < k < |files|
    ensures NewerThan(files[i], files[k])
  {
    forall d, e | d in files[i].entries && e in files[k].entries && d.key.user == e.key.user
      ensures e.key.seqno < d.key.seqno
    {
      LaterFileIsAfter(files, i, k, d, e);
      assert files[i] in files && files[k] in files;
      assert d in Entries(files) && e in Entries(files);
    }
  }

  /** With no boundary file after a slice, a later file shares no user key with it. */
  lemma LaterFileSharesNoKey(files: Level, b: nat, i: nat, k: nat, d: Entry, e: Entry)
    requires AllValid(files) && Ordered(files) && i < b <= k < |files|
    requires !Boundary(files[k], files[b - 1].largest)
    requires d in files[i].entries && e in files[k].entries
    ensures d.key.user != e.key.user
  {
    assert files[i] in files && files[k] in files;
    EntryInRange(files[i], d);
    EntryInRange(files[k], e);
    ValidRanges(files);
    if i < b - 1 { OrderedBounds(files, i, b - 1); }
  }

  lemma SliceIsOldest(files: Level, c: Level, a: nat, b: nat, key: InternalKey)
    requires AllValid(files) && Ordered(files) && UniqueVersions(Entries(files))
    requires Slice(files, c, a, b) && a < b && IsLargest(c, key)
    requires forall f | f in files :: !Boundary(f, key)
    ensures OldestOfLevel(files, c)
  {
    ValidRanges(files);
    LargestOfSlice(files, c, a, b, key);
    forall f, g | f in c && g in files && g !in c
      ensures NewerThan(g, f)
    {
      var i :| a <= i < b && files[i] == f;
      var k :| 0 <= k < |files| && files[k] == g;
      assert forall j | a <= j < b :: files[j] == c[j - a];
      if k < a {
        EarlierFileIsNewer(files, k, i);
      } else {
        forall d, e | d in g.entries && e in f.entries
          ensures d.key.user != e.key.user
        {
          LaterFileSharesNoKey(files, b, i, k, e, d);
        }
      }
    }
  }

  ghost predicate IsSmallest(files: Level, key: InternalKey) {
    (exists f | f in files :: f.smallest == key) && forall f | f in files :: AtMost(key, f.smallest)
  }

  method GetRange(inputs: Level) returns (smallest: InternalKey, largest: InternalKey)
    requires inputs != []
    ensures IsSmallest(inputs, smallest) && IsLargest(inputs, largest)
  {
    assert inputs[0] in inputs;
    smallest, largest := inputs[0].smallest, inputs[0].largest;
    for i := 1 to |inputs|
      invariant exists f | f in inputs :: f.smallest == smallest
      invariant exists f | f in inputs :: f.largest == largest
      invariant forall f | f in inputs[..i] :: AtMost(smallest, f.smallest) && AtMost(f.largest, largest)
    {
      var f := inputs[i];
      assert f in inputs;
      if Less(f.smallest, smallest) {
        smallest := f.smallest;
      }
      if Less(largest, f.largest) {
        largest := f.largest;
      }
    }
    assert inputs[..|inputs|] == inputs;
  }

  function TotalFileSize(files: Level): nat {
    if files == [] then 0 else files[0].size + TotalFileSize(files[1..])
  }

  /** Every file counts once, wherever it stands. */
  lemma {:induction false} TotalOfParts(a: Level, f: FileMetaData, b: Level)
    ensures TotalFileSize(a + [f] + b) == TotalFileSize(a) + f.size + TotalFileSize(b)
  {
    var all := a + [f] + b;
    if a == [] {
      assert all[1..] == b;
    } else {
      assert all[1..] == a[1..] + [f] + b;
      TotalOfParts(a[1..], f, b);
    }
  }

  /** The two input lists of a compaction out of `level`, with the range of the first. */
  datatype Choice = Choice(inputs0: Level, inputs1: Level, smallest: InternalKey, largest: InternalKey,
                           grandparents: Level)

  /** What makes a choice safe to compact: nothing older is left behind on `level`, and
      `inputs1` is every file of the next level that overlaps the user keys of `inputs0`. */
  ghost predicate Selected(levels: seq<Level>, level: nat, c: Choice) {
    && level + 1 < |levels|
    && c.inputs0 != []
    && OldestOfLevel(levels[level], c.inputs0)
    && IsSmallest(c.inputs0, c.smallest) && IsLargest(c.inputs0, c.largest)
    && c.inputs1 == Overlapping(levels[level + 1], Some(c.smallest.user), Some(c.largest.user))
    && (forall f :: f in c.inputs1 <==> f in levels[level + 1] && Overlaps(f, Some(c.smallest.user), Some(c.largest.user)))
  }

  lemma PickedSliceNotEmpty(c: Level, r: Level)
    requires c != [] && c <= r
    ensures 0 < |r|
  {
  }

  lemma PickedStaysOldest(levels: seq<Level>, level: nat, c: Level, r: Level)
    requires Lsm(levels) && level < NUM_LEVELS
    requires Picked(levels[level], level, c) && BoundaryChain(levels[level], c, r)
    requires forall key, f | IsLargest(r, key) && f in levels[level] :: !Boundary(f, key)
    ensures r != [] && OldestOfLevel(levels[level], r)
  {
    var files := levels[level];
    assert AllValid(files);
    ValidRanges(files);
    if level == 0 {
      var lo, hi :| ClosedRange(files, lo, hi) && c == Overlapping(files, lo, hi);
      Level0ChainAddsNothing(files, lo, hi, c, r);
      ClosedSetIsOldest(files, lo, hi, c);
    } else {
      var a: nat, b: nat :| Slice(files, c, a, b);
      PickedSliceNotEmpty(c, r);
      BoundaryChainIsSlice(files, c, r, a, b);
      var b' := a + |r|;
      assert UniqueVersions(Entries(files)) by { assert Entries(files) <= AllEntries(levels); }
      assert a < b' && IsLargest(r, files[b' - 1].largest) by { LastOfSliceIsLargest(files, r, a, b'); }
      SliceIsOldest(files, r, a, b', files[b' - 1].largest);
    }
  }

  lemma LastOfSliceIsLargest(files: Level, c: Level, a: nat, b: nat)
    requires Ranged(files) && Ordered(files) && Slice(files, c, a, b) && a < b
    ensures IsLargest(c, files[b - 1].largest)
  {
    assert c[b - 1 - a] == files[b - 1];
    forall f | f in c
      ensures AtMost(f.largest, files[b - 1].largest)
    {
      var k :| a <= k < b && files[k] == f;
      if k < b - 1 { OrderedBounds(files, k, b - 1); }
    }
  }

  /** Any overlapping scan of a level that meets at least one file is a legal pick. */
  lemma OverlappingIsPicked(files: Level, level: nat, lo: Option<UserKey>, hi: Option<UserKey>)
    requires Ranged(files) && (level > 0 ==> Ordered(files)) && (level == 0 ==> ClosedRange(files, lo, hi))
    requires Overlapping(files, lo, hi) != []
    ensures Picked(files, level, Overlapping(files, lo, hi))
  {
    if level > 0 {
      var a, b := OverlappingIsSlice(files, lo, hi);
    }
  }

  /** The range of the inputs reaches every file that has them as a subset. */
  lemma WiderRange(c: Level, d: Level, s: InternalKey, l: InternalKey, s': InternalKey, l': InternalKey)
    requires forall f | f in c :: f in d
    requires IsSmallest(c, s) && IsLargest(c, l) && IsSmallest(d, s') && IsLargest(d, l')
    ensures AtMost(s', s) && AtMost(l, l')
  {
  }

  lemma {:induction false} WiderOverlap(files: Level, lo: UserKey, hi: UserKey, lo2: UserKey, hi2: UserKey)
    requires lo2 <= lo && hi <= hi2
    ensures |Overlapping(files, Some(lo), Some(hi))| <= |Overlapping(files, Some(lo2), Some(hi2))|
    ensures |Overlapping(files, Some(lo), Some(hi))| == |Overlapping(files, Some(lo2), Some(hi2))| ==>
              Overlapping(files, Some(lo), Some(hi)) == Overlapping(files, Some(lo2), Some(hi2))
  {
    if files != [] {
      WiderOverlap(files[..|files| - 1], lo, hi, lo2, hi2);
    }
  }

  lemma {:induction false} ScanCovers(files: Level, c: Level, s: InternalKey, l: InternalKey, lo: Option<UserKey>, hi: Option<UserKey>)
    requires Ranged(files) && (forall f | f in c :: f in files)
    requires (forall f | f in c :: AtMost(s, f.smallest) && AtMost(f.largest, l))
    requires Covers(lo, hi, Some(s.user), Some(l.user))
    ensures forall f | f in c :: f in Overlapping(files, lo, hi)
  {
    OverlappingMembers(files, lo, hi);
  }

  /** No file of the level continues the user key that `c` ends in. */
  ghost predicate EndsCleanly(files: Level, c: Level) {
    forall key, f | IsLargest(c, key) && f in files :: !Boundary(f, key)
  }

  /** `picked` is what a scan of the level for the range lo..hi finds: at level 0 the range grows until it is closed. */
  ghost predicate Scanned(files: Level, level: nat, lo: Option<UserKey>, hi: Option<UserKey>, picked: Level) {
    if level == 0 then exists lo2, hi2 :: LeastClosedRange(files, lo, hi, lo2, hi2) && picked == Overlapping(files, lo2, hi2)
    else picked == Overlapping(files, lo, hi)
  }

  /** The first list grown to all files of its level in the range s..l of both lists, boundary files included. */
  ghost predicate Grown(files: Level, level: nat, c: Choice, g: Level) {
    exists s, l :: IsSmallest(c.inputs0 + c.inputs1, s) && IsLargest(c.inputs0 + c.inputs1, l) && GrownTo(files, level, s, l, g)
  }

  ghost predicate GrownTo(files: Level, level: nat, s: InternalKey, l: InternalKey, g: Level) {
    exists all :: Scanned(files, level, Some(s.user), Some(l.user), all) && BoundaryChain(files, all, g) && EndsCleanly(files, g)
  }

  ghost predicate IsRange(g: Level, s: InternalKey, l: InternalKey) {
    IsSmallest(g, s) && IsLargest(g, l)
  }

  /** The files of the next level in the range are those of the second list. */
  predicate MeetsJust(next: Level, c: Choice, s: InternalKey, l: InternalKey) {
    forall f | f in next :: Overlaps(f, Some(s.user), Some(l.user)) <==> f in c.inputs1
  }

  /** More files, not too many bytes, and no other files of the next level than those of the second list. */
  predicate MayGrow(next: Level, c: Choice, g: Level, s: InternalKey, l: InternalKey, limit: nat) {
    |c.inputs0| < |g| && TotalFileSize(c.inputs1) + TotalFileSize(g) < limit && MeetsJust(next, c, s, l)
  }

  /** `d` is `c` with its first list grown, exactly when it may grow. */
  ghost predicate Expanded(levels: seq<Level>, level: nat, c: Choice, limit: nat, d: Choice)
    requires level + 1 < |levels|
  {
    if c.inputs1 == [] then d == c
    else exists g, s, l {:trigger IsRange(g, s, l)} :: Grown(levels[level], level, c, g) && IsRange(g, s, l)
           && d == if MayGrow(levels[level + 1], c, g, s, l, limit) then Choice(g, c.inputs1, s, l, []) else c
  }

  lemma MeetsExactly(next: Level, c: Choice, s: InternalKey, l: InternalKey, met: Level)
    requires c.inputs1 == Overlapping(next, Some(c.smallest.user), Some(c.largest.user))
    requires s.user <= c.smallest.user && c.largest.user <= l.user && met == Overlapping(next, Some(s.user), Some(l.user))
    ensures MeetsJust(next, c, s, l) <==> |met| == |c.inputs1|
    ensures |met| == |c.inputs1| ==> met == c.inputs1
  {
    WiderOverlap(next, c.smallest.user, c.largest.user, s.user, l.user);
    OverlappingMembers(next, Some(s.user), Some(l.user));
    OverlappingMembers(next, Some(c.smallest.user), Some(c.largest.user));
    if MeetsJust(next, c, s, l) {
      SameFilter(next, c.smallest.user, c.largest.user, s.user, l.user);
    }
  }

  /** Two scans that find the same files find them in the same order. */
  lemma {:induction false} SameFilter(files: Level, lo: UserKey, hi: UserKey, lo2: UserKey, hi2: UserKey)
    requires forall f | f in files :: Overlaps(f, Some(lo), Some(hi)) <==> Overlaps(f, Some(lo2), Some(hi2))
    ensures Overlapping(files, Some(lo), Some(hi)) == Overlapping(files, Some(lo2), Some(hi2))
  {
    if files != [] {
      SameFilter(files[..|files| - 1], lo, hi, lo2, hi2);
    }
  }

  /** All files of the level in the range of both lists, boundary files included. */
  method GrowFirstList(levels: seq<Level>, level: nat, c: Choice) returns (g: Level)
    requires Lsm(levels) && level + 1 < NUM_LEVELS && Selected(levels, level, c)
    ensures g != [] && OldestOfLevel(levels[level], g) && Grown(levels[level], level, c, g)
    ensures forall f | f in c.inputs0 :: f in g
  {
    var files := levels[level];
    assert AllValid(files);
    ValidRanges(files);
    var allStart, allLimit := GetRange(c.inputs0 + c.inputs1);
    var expanded0, lo, hi := GetOverlappingInputs(files, level, Some(allStart.user), Some(allLimit.user));
    ScanCovers(files, c.inputs0, allStart, allLimit, lo, hi);
    assert c.inputs0[0] in expanded0;
    OverlappingIsPicked(files, level, lo, hi);
    g := AddBoundaryInputs(files, expanded0);
    PickedStaysOldest(levels, level, expanded0, g);
    assert Scanned(files, level, Some(allStart.user), Some(allLimit.user), expanded0);
    assert GrownTo(files, level, allStart, allLimit, g);
  }

  /** Growing the first input list: exactly when it leaves the second list as it was. */
  method ExpandInputs(levels: seq<Level>, level: nat, c: Choice, expandedLimit: nat) returns (d: Choice)
    requires Lsm(levels) && level + 1 < NUM_LEVELS && Selected(levels, level, c)
    ensures Selected(levels, level, d)
    ensures (forall f | f in c.inputs0 :: f in d.inputs0) && d.inputs1 == c.inputs1
    ensures Expanded(levels, level, c, expandedLimit, d)
  {
    var next := levels[level + 1];
    assert AllValid(next);
    d := c;
    if c.inputs1 == [] {
      return;
    }
    var bounded0 := GrowFirstList(levels, level, c);
    var newStart, newLimit := GetRange(bounded0);
    var expanded1, _, _ := GetOverlappingInputs(next, level + 1, Some(newStart.user), Some(newLimit.user));
    WiderRange(c.inputs0, bounded0, c.smallest, c.largest, newStart, newLimit);
    MeetsExactly(next, c, newStart, newLimit, expanded1);
    if |c.inputs0| < |bounded0| && TotalFileSize(c.inputs1) + TotalFileSize(bounded0) < expandedLimit {
      if |expanded1| == |c.inputs1| {
        OverlappingMembers(next, Some(newStart.user), Some(newLimit.user));
        d := Choice(bounded0, expanded1, newStart, newLimit, []);
      }
    }
    assert IsRange(bounded0, newStart, newLimit);
  }

  /** Boundary files first, then the overlapped files of the next level. */
  method FirstChoice(levels: seq<Level>, level: nat, picked: Level) returns (c: Choice)
    requires Lsm(levels) && level + 1 < NUM_LEVELS
    requires Picked(levels[level], level, picked)
    ensures Selected(levels, level, c) && c.grandparents == []
    ensures BoundaryChain(levels[level], picked, c.inputs0) && EndsCleanly(levels[level], c.inputs0)
  {
    assert AllValid(levels[level]) && AllValid(levels[level + 1]);
    var inputs0 := AddBoundaryInputs(levels[level], picked);
    PickedStaysOldest(levels, level, picked, inputs0);
    var smallest, largest := GetRange(inputs0);
    var inputs1, _, _ := GetOverlappingInputs(levels[level + 1], level + 1, Some(smallest.user), Some(largest.user));
    OverlappingMembers(levels[level + 1], Some(smallest.user), Some(largest.user));
    c := Choice(inputs0, inputs1, smallest, largest, []);
  }

  method SetupOtherInputs(levels: seq<Level>, level: nat, picked: Level, expandedLimit: nat) returns (c: Choice)
    requires Lsm(levels) && level + 1 < NUM_LEVELS
    requires Picked(levels[level], level, picked)
    ensures Selected(levels, level, c) && SetUp(levels, level, picked, expandedLimit, c)
    ensures forall f | f in picked :: f in c.inputs0
  {
    var first := FirstChoice(levels, level, picked);
    c := ExpandInputs(levels, level, first, expandedLimit);
    ghost var grown := c;
    if level + 2 < NUM_LEVELS {
      c := AddGrandparents(levels[level + 2], level + 2, c);
    }
    assert c.(grandparents := []) == grown;
    assert SetUpFrom(levels, level, picked, first, expandedLimit, c);
  }

  /** What SetupOtherInputs makes of a pick: boundary files, then the files of the next level that meet them, then the
      growth that leaves those as they are, and the files two levels down that meet any of it. */
  ghost predicate SetUp(levels: seq<Level>, level: nat, picked: Level, limit: nat, c: Choice)
    requires level + 1 < |levels|
  {
    exists first :: SetUpFrom(levels, level, picked, first, limit, c)
  }

  ghost predicate SetUpFrom(levels: seq<Level>, level: nat, picked: Level, first: Choice, limit: nat, c: Choice)
    requires level + 1 < |levels|
  {
    && BoundaryChain(levels[level], picked, first.inputs0) && EndsCleanly(levels[level], first.inputs0)
    && Selected(levels, level, first) && Expanded(levels, level, first, limit, c.(grandparents := []))
    && if level + 2 < |levels| then Grandparents(levels[level + 2], c) else c.grandparents == []
  }

  ghost predicate Grandparents(files: Level, c: Choice) {
    exists s, l {:trigger IsRange(c.inputs0 + c.inputs1, s, l)} :: IsRange(c.inputs0 + c.inputs1, s, l)
      && forall f :: f in c.grandparents <==> f in files && Overlaps(f, Some(s.user), Some(l.user))
  }

  method AddGrandparents(files: Level, level: nat, c: Choice) returns (d: Choice)
    requires AllValid(files) && c.inputs0 != [] && level > 0
    ensures d == c.(grandparents := d.grandparents) && Grandparents(files, d)
  {
    var allStart, allLimit := GetRange(c.inputs0 + c.inputs1);
    var grandparents, _, _ := GetOverlappingInputs(files, level, Some(allStart.user), Some(allLimit.user));
    OverlappingMembers(files, Some(allStart.user), Some(allLimit.user));
    d := c.(grandparents := grandparents);
    assert IsRange(d.inputs0 + d.inputs1, allStart, allLimit);
  }

  /** Level 0: the picked file gives way to everything it overlaps. */
  method PickLevel0(files: Level, f: FileMetaData) returns (inputs: Level)
    requires AllValid(files) && f in files
    ensures Picked(files, 0, inputs) && f in inputs
    ensures Scanned(files, 0, Some(f.smallest.user), Some(f.largest.user), inputs)
  {
    var smallest, largest := GetRange([f]);
    var lo, hi;
    inputs, lo, hi := GetOverlappingInputs(files, 0, Some(smallest.user), Some(largest.user));
    OverlappingMembers(files, lo, hi);
    assert [f][0] in [f];
  }

  /** PickCompaction once the level and the first file are chosen. */
  method PickCompaction(levels: seq<Level>, level: nat, f: FileMetaData, expandedLimit: nat) returns (c: Choice)
    requires Lsm(levels) && level + 1 < NUM_LEVELS && f in levels[level]
    ensures Selected(levels, level, c) && f in c.inputs0
    ensures exists picked :: SetUp(levels, level, picked, expandedLimit, c)
              && if level == 0 then Scanned(levels[0], 0, Some(f.smallest.user), Some(f.largest.user), picked) else picked == [f]
  {
    assert AllValid(levels[level]);
    var inputs := [f];
    if level == 0 {
      inputs := PickLevel0(levels[level], f);
    } else {
      ghost var k: nat :| k < |levels[level]| && levels[level][k] == f;
      assert Slice(levels[level], inputs, k, k + 1);
    }
    c := SetupOtherInputs(levels, level, inputs, expandedLimit);
  }

  method LimitInputs(inputs: Level, fileLimit: nat) returns (r: Level)
    requires inputs != []
    ensures r != [] && r <= inputs
    ensures |r| < |inputs| ==> fileLimit <= TotalFileSize(r)
    ensures TotalFileSize(r[..|r| - 1]) < fileLimit || |r| == 1
  {
    var total := 0;
    for i := 0 to |inputs|
      invariant total == TotalFileSize(inputs[..i])
      invariant 0 < i ==> total < fileLimit
    {
      SizeStep(inputs, i);
      total := total + inputs[i].size;
      if fileLimit <= total {
        r := inputs[..i + 1];
        assert r[..i] == inputs[..i];
        return;
      }
    }
    assert inputs[..|inputs|] == inputs;
    SizeStep(inputs, |inputs| - 1);
    r := inputs;
  }

  lemma {:induction false} SizeStep(files: Level, i: nat)
    requires i < |files|
    ensures TotalFileSize(files[..i + 1]) == TotalFileSize(files[..i]) + files[i].size
  {
    if i > 0 {
      SizeStep(files[1..], i - 1);
      assert files[..i + 1][1..] == files[1..][..i] && files[..i][1..] == files[1..][..i - 1];
    }
  }

  /** What a manual compaction of a range starts from: at level 0 all files of the least closed range around it, deeper
      the files that overlap it, in order, up to the first at which their sizes reach the limit. */
  ghost predicate Asked(files: Level, level: nat, begin: Option<UserKey>, end: Option<UserKey>, fileLimit: nat, picked: Level) {
    exists all :: Scanned(files, level, begin, end, all) && picked <= all && picked != []
      && (level == 0 ==> picked == all)
      && (|picked| < |all| ==> fileLimit <= TotalFileSize(picked))
      && (1 < |picked| && level > 0 ==> TotalFileSize(picked[..|picked| - 1]) < fileLimit)
  }

  /** Below level 0 a manual compaction stops at the first file that reaches the size limit. */
  method CompactRange(levels: seq<Level>, level: nat, begin: Option<UserKey>, end: Option<UserKey>,
                      fileLimit: nat, expandedLimit: nat)
    returns (c: Option<Choice>)
    requires Lsm(levels) && level + 1 < NUM_LEVELS
    ensures c.Some? ==> Selected(levels, level, c.value)
    ensures c.Some? ==> exists picked :: Asked(levels[level], level, begin, end, fileLimit, picked)
                          && SetUp(levels, level, picked, expandedLimit, c.value) && forall f | f in picked :: f in c.value.inputs0
    ensures c.None? <==> forall f | f in levels[level] :: !Overlaps(f, begin, end)
  {
    var files := levels[level];
    assert AllValid(files);
    ValidRanges(files);
    var inputs, lo, hi := GetOverlappingInputs(files, level, begin, end);
    if inputs == [] {
      NothingMet(files, level, begin, end, lo, hi);
      return None;
    }
    OverlappingIsPicked(files, level, lo, hi);
    assert Scanned(files, level, begin, end, inputs);
    if level > 0 {
      inputs := LimitInputs(inputs, fileLimit);
      ghost var a, b := OverlappingIsSlice(files, lo, hi);
      assert Slice(files, inputs, a, a + |inputs|);
    }
    assert Asked(files, level, begin, end, fileLimit, inputs);
    var choice := SetupOtherInputs(levels, level, inputs, expandedLimit);
    MeetsRange(files, level, begin, end, lo, hi);
    c := Some(choice);
  }

  lemma NothingMet(files: Level, level: nat, begin: Option<UserKey>, end: Option<UserKey>,
                   lo: Option<UserKey>, hi: Option<UserKey>)
    requires Overlapping(files, lo, hi) == []
    requires level > 0 ==> lo == begin && hi == end
    requires level == 0 ==> Covers(lo, hi, begin, end)
    ensures forall f | f in files :: !Overlaps(f, begin, end)
  {
    OverlappingMembers(files, lo, hi);
    assert forall f :: f !in Overlapping(files, lo, hi);
  }

  /** A widened scan finds a file only if the asked range meets one. */
  lemma MeetsRange(files: Level, level: nat, begin: Option<UserKey>, end: Option<UserKey>,
                   lo: Option<UserKey>, hi: Option<UserKey>)
    requires Overlapping(files, lo, hi) != []
    requires level > 0 ==> lo == begin && hi == end
    requires level == 0 ==> LeastClosedRange(files, begin, end, lo, hi)
    ensures exists f | f in files :: Overlaps(f, begin, end)
  {
    OverlappingMembers(files, lo, hi);
    var g := Overlapping(files, lo, hi)[0];
    assert g in Overlapping(files, lo, hi);
    if forall f | f in files :: !Overlaps(f, begin, end) {
      assert ClosedRange(files, begin, end) && Covers(begin, end, begin, end);
      assert Overlaps(g, begin, end);
    }
  }
}
