/** One immutable view of the table files, level by level, and the lookup over it
    (db/version_set.cc, class Version). */
module Version {
  import opened DbFormat

  /** A file's metadata, together with the entries of the table it names. */
  datatype FileMetaData = FileMetaData(number: nat, size: nat, smallest: InternalKey, largest: InternalKey,
                                       entries: seq<Entry>) {
    ghost predicate Valid() {
      && 0 < |entries|
      && Sorted(entries)
      && smallest == entries[0].key
      && largest == entries[|entries| - 1].key
    }

    predicate MayContain(u: UserKey) {
      smallest.user <= u <= largest.user
    }
  }

  type Level = seq<FileMetaData>

  /** Files in key order with disjoint ranges of internal keys. */
  ghost predicate Ordered(files: Level) {
    forall i, j | 0 <= i < j < |files| :: Less(files[i].largest, files[j].smallest)
  }

  /** Every version in `f` is newer than every version of the same user key in `g`. */
  ghost predicate NewerThan(f: FileMetaData, g: FileMetaData) {
    forall d, e | d in f.entries && e in g.entries && d.key.user == e.key.user :: e.key.seqno < d.key.seqno
  }

  ghost predicate AllValid(files: Level) {
    forall f | f in files :: f.Valid()
  }

  ghost predicate RecencyByNumber(files: Level) {
    && (forall f, g | f in files && g in files && f.number == g.number :: f == g)
    && (forall f, g | f in files && g in files && g.number < f.number :: NewerThan(f, g))
  }

  ghost function Entries(files: Level): set<Entry> {
    set f, e | f in files && e in f.entries :: e
  }

  ghost function AllEntries(levels: seq<Level>): set<Entry> {
    set l, e | 0 <= l < |levels| && e in Entries(levels[l]) :: e
  }

  /** The log-structured merge invariant. */
  ghost predicate Lsm(levels: seq<Level>) {
    && |levels| == NUM_LEVELS
    && (forall l | 0 <= l < NUM_LEVELS :: AllValid(levels[l]))
    && (forall l | 1 <= l < NUM_LEVELS :: Ordered(levels[l]))
    && RecencyByNumber(levels[0])
    && (forall l, m, f, g | 0 <= l < m < NUM_LEVELS && f in levels[l] && g in levels[m] :: NewerThan(f, g))
    && UniqueVersions(AllEntries(levels))
  }

  // ----- binary search over a level -----

  predicate AfterFile(u: Option<UserKey>, f: FileMetaData) {
    u.Some? && f.largest.user < u.value
  }

  predicate BeforeFile(u: Option<UserKey>, f: FileMetaData) {
    u.Some? && u.value < f.smallest.user
  }

  /** Whether some key of `f` may lie in the user-key range `lo..hi`; `None` is an open end. */
  predicate Overlaps(f: FileMetaData, lo: Option<UserKey>, hi: Option<UserKey>) {
    !AfterFile(lo, f) && !BeforeFile(hi, f)
  }

  ghost predicate Ranged(files: Level) {
    forall f | f in files :: AtMost(f.smallest, f.largest)
  }

  lemma ValidRanges(files: Level)
    requires AllValid(files)
    ensures Ranged(files)
  {
    forall f | f in files
      ensures AtMost(f.smallest, f.largest)
    {
      assert f.Valid();
    }
  }

  lemma OrderedBounds(files: Level, i: int, j: int)
    requires Ranged(files) && Ordered(files)
    requires 0 <= i < j < |files|
    ensures Less(files[i].smallest, files[j].smallest) && Less(files[i].largest, files[j].largest)
  {
    assert files[i] in files && files[j] in files;
  }

  lemma EntryInRange(f: FileMetaData, e: Entry)
    requires f.Valid() && e in f.entries
    ensures AtMost(f.smallest, e.key) && AtMost(e.key, f.largest)
  {
  }

  method FindFile(files: Level, key: InternalKey) returns (right: nat)
    requires Ranged(files) && Ordered(files)
    ensures right <= |files|
    ensures forall i | 0 <= i < right :: Less(files[i].largest, key)
    ensures forall i | right <= i < |files| :: !Less(files[i].largest, key)
  {
    var left := 0;
    right := |files|;
    while left < right
      invariant left <= right <= |files|
      invariant forall i | 0 <= i < left :: Less(files[i].largest, key)
      invariant forall i | right <= i < |files| :: !Less(files[i].largest, key)
    {
      var mid := (left + right) / 2;
      forall i | 0 <= i < |files| && i != mid
        ensures i < mid ==> Less(files[i].largest, files[mid].largest)
        ensures mid < i ==> Less(files[mid].largest, files[i].largest)
      {
        if i < mid { OrderedBounds(files, i, mid); } else { OrderedBounds(files, mid, i); }
      }
      if Less(files[mid].largest, key) {
        left := mid + 1;
      } else {
        right := mid;
      }
    }
  }

  method SomeFileOverlapsRange(disjointSortedFiles: bool, files: Level,
                               smallest: Option<UserKey>, largest: Option<UserKey>)
    returns (overlap: bool)
    requires Ranged(files) && (disjointSortedFiles ==> Ordered(files))
    requires forall f | f in files :: f.largest.seqno <= MAX_SEQUENCE
    ensures overlap <==> exists f :: f in files && Overlaps(f, smallest, largest)
  {
    if !disjointSortedFiles {
      for i := 0 to |files|
        invariant forall f | f in files[..i] :: !Overlaps(f, smallest, largest)
      {
        if AfterFile(smallest, files[i]) || BeforeFile(largest, files[i]) {
        } else {
          assert files[i] in files && Overlaps(files[i], smallest, largest);
          return true;
        }
      }
      assert files == files[..|files|];
      return false;
    }
    var index := 0;
    if smallest.Some? {
      index := FindFile(files, InternalKey(smallest.value, MAX_SEQUENCE, TypeValue));
    }
    forall i | 0 <= i < |files|
      ensures i < index <==> AfterFile(smallest, files[i])
    {
      assert files[i] in files;
    }
    if index >= |files| {
      return false;
    }
    forall i | index < i < |files|
      ensures BeforeFile(largest, files[index]) ==> BeforeFile(largest, files[i])
    {
      OrderedBounds(files, index, i);
    }
    overlap := !BeforeFile(largest, files[index]);
    if overlap { assert Overlaps(files[index], smallest, largest); }
  }

  // ----- Version::Get -----

  /** Index of the first entry at or after `key`. */
  function LowerBound(es: seq<Entry>, key: InternalKey): (i: nat)
    ensures i <= |es|
    ensures forall j | 0 <= j < i :: Less(es[j].key, key)
    ensures i < |es| ==> !Less(es[i].key, key)
  {
    if es == [] || !Less(es[0].key, key) then 0 else 1 + LowerBound(es[1..], key)
  }

  datatype Saver = NotFound | Found(value: Bytes) | Deleted

  /** What SaveValue records when the table hands it the entry it sought to, if any. */
  function SaveValue(u: UserKey, hit: Option<Entry>): Saver {
    if hit.None? || hit.value.key.user != u then NotFound
    else if hit.value.key.kind.TypeValue? then Found(hit.value.value) else Deleted
  }

  function SeekEntry(es: seq<Entry>, key: InternalKey): Option<Entry> {
    var i := LowerBound(es, key);
    if i < |es| then Some(es[i]) else None
  }

  ghost predicate NoCandidate(es: set<Entry>, u: UserKey, s: nat) {
    forall e | e in es :: !Candidate(e, u, s)
  }

  /** One probe of a sorted run finds its newest version at or below the snapshot, or shows there is none. */
  lemma SeekFindsNewest(es: seq<Entry>, u: UserKey, s: nat)
    requires Sorted(es)
    ensures var hit := SeekEntry(es, SeekKey(u, s));
            if hit.Some? && hit.value.key.user == u
            then Newest(Contents(es), u, s, hit.value)
            else NoCandidate(Contents(es), u, s)
  {
    var i := LowerBound(es, SeekKey(u, s));
    forall j | 0 <= j < |es| && Candidate(es[j], u, s)
      ensures i <= j && es[i].key.user == u && es[j].key.seqno <= es[i].key.seqno
    {
      assert !Less(es[j].key, SeekKey(u, s));
      assert i <= j;
      if i < j { assert Less(es[i].key, es[j].key); }
    }
  }

  lemma Promote(part: set<Entry>, all: set<Entry>, u: UserKey, s: nat, e: Entry)
    requires Newest(part, u, s, e) && part <= all
    requires forall f | f in all && f !in part && Candidate(f, u, s) :: f.key.seqno <= e.key.seqno
    ensures Newest(all, u, s, e)
  {
  }

  /** The files std::sort puts newest first. */
  function SortNewestFirst(files: Level): (r: Level)
    ensures |r| == |files|
    ensures forall f :: f in r <==> f in files
    ensures forall i, j | 0 <= i < j < |r| :: r[i].number >= r[j].number
  {
    if files == [] then []
    else
      var rest := SortNewestFirst(files[1..]);
      assert files == [files[0]] + files[1..];
      InsertNewestFirst(files[0], rest)
  }

  function InsertNewestFirst(f: FileMetaData, r: Level): (q: Level)
    requires forall i, j | 0 <= i < j < |r| :: r[i].number >= r[j].number
    ensures |q| == |r| + 1
    ensures forall g :: g in q <==> g == f || g in r
    ensures forall i, j | 0 <= i < j < |q| :: q[i].number >= q[j].number
  {
    if r == [] || r[0].number <= f.number then [f] + r
    else
      assert r == [r[0]] + r[1..];
      var rest := InsertNewestFirst(f, r[1..]);
      assert forall g | g in rest :: g.number <= r[0].number;
      [r[0]] + rest
  }

  /** The answer of the newest file that has one outranks every other file of level 0. */
  lemma Level0Hit(files: Level, f: FileMetaData, u: UserKey, s: nat, hit: Entry)
    requires AllValid(files) && RecencyByNumber(files)
    requires f in files && Newest(Contents(f.entries), u, s, hit)
    requires forall g | g in files && g.MayContain(u) && f.number < g.number :: NoCandidate(Contents(g.entries), u, s)
    ensures Newest(Entries(files), u, s, hit)
  {
    forall d | d in Entries(files) && Candidate(d, u, s)
      ensures d.key.seqno <= hit.key.seqno
    {
      var g :| g in files && d in g.entries;
      EntryInRange(g, d);
      assert d in Contents(g.entries) && hit in f.entries;
      assert g == f || NewerThan(f, g);
    }
  }

  lemma {:induction false} Level0Miss(files: Level, u: UserKey, s: nat)
    requires AllValid(files)
    requires forall g | g in files && g.MayContain(u) :: NoCandidate(Contents(g.entries), u, s)
    ensures NoCandidate(Entries(files), u, s)
  {
    forall d | d in Entries(files)
      ensures !Candidate(d, u, s)
    {
      var g :| g in files && d in g.entries;
      EntryInRange(g, d);
      assert d in Contents(g.entries);
    }
  }

  method SearchFile(f: FileMetaData, u: UserKey, s: nat) returns (saver: Saver, ghost hit: Entry)
    requires f.Valid()
    ensures saver == NotFound ==> NoCandidate(Contents(f.entries), u, s)
    ensures saver != NotFound ==> Newest(Contents(f.entries), u, s, hit) && saver == SaveValue(u, Some(hit))
  {
    SeekFindsNewest(f.entries, u, s);
    var found := SeekEntry(f.entries, SeekKey(u, s));
    hit := if found.Some? then found.value else f.entries[0];
    saver := SaveValue(u, found);
  }

  method FilesCovering(files: Level, u: UserKey) returns (tmp: Level)
    ensures forall f :: f in tmp <==> f in files && f.MayContain(u)
  {
    tmp := [];
    for i := 0 to |files|
      invariant forall f :: f in tmp <==> f in files[..i] && f.MayContain(u)
    {
      if files[i].MayContain(u) {
        tmp := tmp + [files[i]];
      }
    }
    assert files == files[..|files|];
  }

  /** Level 0: every file that may hold the key, newest file first, until one answers. */
  method GetFromLevel0(files: Level, u: UserKey, s: nat) returns (r: Saver, ghost e: Option<Entry>)
    requires AllValid(files) && RecencyByNumber(files)
    ensures r == NotFound ==> NoCandidate(Entries(files), u, s)
    ensures r != NotFound ==> e.Some? && Newest(Entries(files), u, s, e.value) && r == SaveValue(u, e)
  {
    var tmp := FilesCovering(files, u);
    tmp := SortNewestFirst(tmp);
    e := None;
    for i := 0 to |tmp|
      invariant forall k | 0 <= k < i :: NoCandidate(Contents(tmp[k].entries), u, s)
    {
      assert tmp[i] in tmp;
      ghost var hit;
      r, hit := SearchFile(tmp[i], u, s);
      if r != NotFound {
        Level0Hit(files, tmp[i], u, s, hit);
        e := Some(hit);
        return;
      }
    }
    Level0Miss(files, u, s);
    r := NotFound;
  }

  /** In a deeper level a version at or below the snapshot can only sit at or past the file FindFile returns. */
  lemma CandidateFile(files: Level, u: UserKey, s: nat, index: nat, k: nat, d: Entry)
    requires AllValid(files) && index <= |files| && k < |files|
    requires forall i | 0 <= i < index :: Less(files[i].largest, SeekKey(u, s))
    requires d in files[k].entries && Candidate(d, u, s)
    ensures index <= k
  {
    assert files[k] in files;
    EntryInRange(files[k], d);
  }

  lemma SortedLevelHit(files: Level, u: UserKey, s: nat, index: nat, hit: Entry)
    requires AllValid(files) && Ordered(files) && index < |files|
    requires forall i | 0 <= i < index :: Less(files[i].largest, SeekKey(u, s))
    requires Newest(Contents(files[index].entries), u, s, hit)
    ensures Newest(Entries(files), u, s, hit)
  {
    assert files[index] in files;
    forall d | d in Entries(files) && Candidate(d, u, s)
      ensures d.key.seqno <= hit.key.seqno
    {
      var g :| g in files && d in g.entries;
      var k :| 0 <= k < |files| && files[k] == g;
      CandidateFile(files, u, s, index, k, d);
      assert d in Contents(g.entries);
      if index < k { LaterFileIsAfter(files, index, k, hit, d); }
    }
  }

  lemma {:induction false} SortedLevelMiss(files: Level, u: UserKey, s: nat, index: nat)
    requires AllValid(files) && Ordered(files) && index < |files|
    requires forall i | 0 <= i < index :: Less(files[i].largest, SeekKey(u, s))
    requires !Less(files[index].largest, SeekKey(u, s))
    requires u < files[index].smallest.user || NoCandidate(Contents(files[index].entries), u, s)
    ensures NoCandidate(Entries(files), u, s)
  {
    var f := files[index];
    assert f in files && f.Valid();
    var last := f.entries[|f.entries| - 1];
    forall d | d in Entries(files)
      ensures !Candidate(d, u, s)
    {
      var g :| g in files && d in g.entries;
      var k :| 0 <= k < |files| && files[k] == g;
      EntryInRange(g, d);
      assert last in Contents(f.entries) && (k == index ==> d in Contents(f.entries));
      if index < k { LaterFileIsAfter(files, index, k, last, d); }
      if Candidate(d, u, s) { CandidateFile(files, u, s, index, k, d); }
    }
  }

  /** A deeper level: at most one file is opened. */
  method GetFromSortedLevel(files: Level, u: UserKey, s: nat) returns (r: Saver, ghost e: Option<Entry>)
    requires AllValid(files) && Ordered(files)
    ensures r == NotFound ==> NoCandidate(Entries(files), u, s)
    ensures r != NotFound ==> e.Some? && Newest(Entries(files), u, s, e.value) && r == SaveValue(u, e)
  {
    e := None;
    ValidRanges(files);
    var index := FindFile(files, SeekKey(u, s));
    if index >= |files| {
      forall d | d in Entries(files)
        ensures !Candidate(d, u, s)
      {
        var g :| g in files && d in g.entries;
        var k :| 0 <= k < |files| && files[k] == g;
        if Candidate(d, u, s) { CandidateFile(files, u, s, index, k, d); }
      }
      return NotFound, None;
    }
    if u < files[index].smallest.user {
      SortedLevelMiss(files, u, s, index);
      return NotFound, None;
    }
    assert files[index] in files;
    ghost var hit;
    r, hit := SearchFile(files[index], u, s);
    if r == NotFound {
      SortedLevelMiss(files, u, s, index);
    } else {
      SortedLevelHit(files, u, s, index, hit);
      e := Some(hit);
    }
  }

  lemma LaterFileIsAfter(files: Level, i: nat, k: nat, d: Entry, e: Entry)
    requires AllValid(files) && Ordered(files) && i < k < |files|
    requires d in files[i].entries && e in files[k].entries
    ensures Less(d.key, e.key)
  {
    assert files[i] in files && files[k] in files;
    EntryInRange(files[i], d);
    EntryInRange(files[k], e);
  }

  /** Level by level, stopping at the first answer, the lookup returns what is visible in the whole version. */
  method Get(levels: seq<Level>, u: UserKey, s: nat) returns (r: Option<Bytes>)
    requires Lsm(levels)
    ensures r == Visible(AllEntries(levels), u, s)
  {
    for l := 0 to NUM_LEVELS
      invariant forall m | 0 <= m < l :: NoCandidate(Entries(levels[m]), u, s)
    {
      assert AllValid(levels[l]);
      var saver;
      ghost var e;
      if l == 0 {
        saver, e := GetFromLevel0(levels[l], u, s);
      } else {
        saver, e := GetFromSortedLevel(levels[l], u, s);
      }
      if saver != NotFound {
        FirstAnswerIsNewest(levels, l, u, s, e.value);
        VisibleIs(AllEntries(levels), u, s, e.value);
        return if saver.Found? then Some(saver.value) else None;
      }
    }
    VisibleNothing(AllEntries(levels), u, s);
    return None;
  }

  lemma FirstAnswerIsNewest(levels: seq<Level>, l: nat, u: UserKey, s: nat, e: Entry)
    requires Lsm(levels) && l < NUM_LEVELS
    requires forall m | 0 <= m < l :: NoCandidate(Entries(levels[m]), u, s)
    requires Newest(Entries(levels[l]), u, s, e)
    ensures Newest(AllEntries(levels), u, s, e)
  {
    var f :| f in levels[l] && e in f.entries;
    forall d | d in AllEntries(levels) && Candidate(d, u, s)
      ensures d.key.seqno <= e.key.seqno
    {
      var m :| 0 <= m < |levels| && d in Entries(levels[m]);
      if l < m {
        var g :| g in levels[m] && d in g.entries;
        assert NewerThan(f, g);
      }
    }
  }
}
