/** The stored form of a version edit (db/version_edit.cc, EncodeTo and DecodeFrom).

    An edit is stored as tagged items. Internal keys are the byte strings they are stored as. */
module EditCodec {
  import opened DbFormat
  import opened Coding

  datatype NewFile = NewFile(level: nat, number: nat, size: nat, smallest: Bytes, largest: Bytes)

  datatype Item =
    | Comparator(name: Bytes)
    | LogNumber(n: nat)
    | NextFileNumber(n: nat)
    | LastSequence(n: nat)
    | CompactPointer(level: nat, key: Bytes)
    | DeletedFile(level: nat, n: nat)
    | AddedFile(f: NewFile)
    | PrevLogNumber(n: nat)

  function Tag(item: Item): (t: nat)
    ensures 0 < t < 0x80
  {
    match item
    case Comparator(_) => 1
    case LogNumber(_) => 2
    case NextFileNumber(_) => 3
    case LastSequence(_) => 4
    case CompactPointer(_, _) => 5
    case DeletedFile(_, _) => 6
    case AddedFile(_) => 7
    case PrevLogNumber(_) => 9
  }

  // ----- encoding -----

  function EncodeFile(f: NewFile): Bytes {
    Varint(f.level) + (Varint(f.number) + (Varint(f.size) + (LengthPrefixed(f.smallest) + LengthPrefixed(f.largest))))
  }

  function EncodeBody(item: Item): Bytes {
    match item
    case Comparator(name) => LengthPrefixed(name)
    case CompactPointer(level, key) => Varint(level) + LengthPrefixed(key)
    case DeletedFile(level, n) => Varint(level) + Varint(n)
    case AddedFile(f) => EncodeFile(f)
    case _ => Varint(item.n)
  }

  function EncodeItem(item: Item): (b: Bytes)
    ensures 0 < |b|
  {
    Varint(Tag(item)) + EncodeBody(item)
  }

  function EncodeItems(items: seq<Item>): Bytes {
    EncodeAll(EncodeItem, items)
  }

  // ----- parsing -----

  function GetVarint64(b: Bytes, p: nat): (r: Option<Parsed>)
    ensures r.Some? ==> p < r.value.next <= |b| && r.value.value < TWO_TO_THE_64
  {
    var r := ParseVarint(b, p, |b|, 10);
    if r.None? then None else Some(Parsed(r.value.value % TWO_TO_THE_64, r.value.next))
  }

  function GetLevel(b: Bytes, p: nat): (r: Option<Parsed>)
    ensures r.Some? ==> p < r.value.next <= |b| && r.value.value < NUM_LEVELS
  {
    var v := GetVarint32(b, p, |b|);
    if v.Some? && v.value.value < NUM_LEVELS then v else None
  }

  datatype Step = End | Bad(msg: string) | Got(item: Item, next: nat)

  function GotNumber(r: Option<Parsed>, f: nat -> Item, msg: string): Step {
    if r.None? then Bad(msg) else Got(f(r.value.value), r.value.next)
  }

  function ParsePointer(b: Bytes, p: nat): (s: Step)
    ensures s.Got? ==> p < s.next <= |b|
  {
    var level := GetLevel(b, p);
    if level.None? then Bad("compaction pointer") else
    var key := GetLengthPrefixedSlice(b, level.value.next);
    if key.None? then Bad("compaction pointer") else Got(CompactPointer(level.value.value, key.value.value), key.value.next)
  }

  function ParseDeleted(b: Bytes, p: nat): (s: Step)
    ensures s.Got? ==> p < s.next <= |b|
  {
    var level := GetLevel(b, p);
    if level.None? then Bad("deleted file") else
    var n := GetVarint64(b, level.value.next);
    if n.None? then Bad("deleted file") else Got(DeletedFile(level.value.value, n.value.value), n.value.next)
  }

  function ParseFile(b: Bytes, p: nat): (s: Step)
    ensures s.Got? ==> p < s.next <= |b|
  {
    var level := GetLevel(b, p);
    if level.None? then Bad("new-file entry") else
    var n := GetVarint64(b, level.value.next);
    if n.None? then Bad("new-file entry") else
    var size := GetVarint64(b, n.value.next);
    if size.None? then Bad("new-file entry") else
    var smallest := GetLengthPrefixedSlice(b, size.value.next);
    if smallest.None? then Bad("new-file entry") else
    var largest := GetLengthPrefixedSlice(b, smallest.value.next);
    if largest.None? then Bad("new-file entry") else
    Got(AddedFile(NewFile(level.value.value, n.value.value, size.value.value, smallest.value.value, largest.value.value)),
        largest.value.next)
  }

  function ParseBody(b: Bytes, tag: nat, p: nat): (s: Step)
    ensures s.Got? ==> p < s.next <= |b|
  {
    if tag == 1 then
      var name := GetLengthPrefixedSlice(b, p);
      if name.None? then Bad("comparator name") else Got(Comparator(name.value.value), name.value.next)
    else if tag == 2 then GotNumber(GetVarint64(b, p), (n: nat) => LogNumber(n), "log number")
    else if tag == 9 then GotNumber(GetVarint64(b, p), (n: nat) => PrevLogNumber(n), "previous log number")
    else if tag == 3 then GotNumber(GetVarint64(b, p), (n: nat) => NextFileNumber(n), "next file number")
    else if tag == 4 then GotNumber(GetVarint64(b, p), (n: nat) => LastSequence(n), "last sequence number")
    else if tag == 5 then ParsePointer(b, p)
    else if tag == 6 then ParseDeleted(b, p)
    else if tag == 7 then ParseFile(b, p)
    else Bad("unknown tag")
  }

  function ParseItem(b: Bytes, p: nat): (s: Step)
    ensures s.Got? ==> p < s.next <= |b|
  {
    var tag := GetVarint32(b, p, |b|);
    if tag.None? then End else ParseBody(b, tag.value.value, tag.value.next)
  }

  /** The items up to the first error, and the error. */
  datatype Outcome = Outcome(items: seq<Item>, error: Option<string>)

  function ParseFrom(b: Bytes, p: nat, done: seq<Item>): Outcome
    requires p <= |b|
    decreases |b| - p
  {
    match ParseItem(b, p)
    case End => Outcome(done, if p < |b| then Some("invalid tag") else None)
    case Bad(msg) => Outcome(done, Some(msg))
    case Got(item, next) => ParseFrom(b, next, done + [item])
  }

  function ParseItems(b: Bytes): Outcome {
    ParseFrom(b, 0, [])
  }

  // ----- parsing undoes encoding -----

  lemma ParsesVarint64(b: Bytes, p: nat, v: nat, next: nat)
    requires v < TWO_TO_THE_64 && Spans(b, p, Varint(v), next)
    ensures GetVarint64(b, p) == Some(Parsed(v, next))
  {
    Capacity10();
    ParsesVarint(b, p, |b|, 10, v, next);
  }

  lemma ParsesLevel(b: Bytes, p: nat, v: nat, next: nat)
    requires v < NUM_LEVELS && Spans(b, p, Varint(v), next)
    ensures GetLevel(b, p) == Some(Parsed(v, next))
  {
    ParsesVarint32(b, p, v, next);
  }

  predicate FileFits(f: NewFile) {
    && f.level < NUM_LEVELS && f.number < TWO_TO_THE_64 && f.size < TWO_TO_THE_64
    && |f.smallest| < TWO_TO_THE_32 && |f.largest| < TWO_TO_THE_32
  }

  /** Fits the fields of the source: 64-bit numbers, 32-bit lengths, seven levels. */
  predicate Fits(item: Item) {
    match item
    case Comparator(name) => |name| < TWO_TO_THE_32
    case CompactPointer(level, key) => level < NUM_LEVELS && |key| < TWO_TO_THE_32
    case DeletedFile(level, n) => level < NUM_LEVELS && n < TWO_TO_THE_64
    case AddedFile(f) => FileFits(f)
    case _ => item.n < TWO_TO_THE_64
  }

  lemma SpanSplitFile(b: Bytes, p: nat, l: Bytes, n: Bytes, s: Bytes, a: Bytes, z: Bytes, next: nat,
                    p1: nat, p2: nat, p3: nat, p4: nat)
    requires Spans(b, p, l + (n + (s + (a + z))), next)
    requires p1 == p + |l| && p2 == p1 + |n| && p3 == p2 + |s| && p4 == p3 + |a|
    ensures Spans(b, p, l, p1) && Spans(b, p1, n, p2) && Spans(b, p2, s, p3) && Spans(b, p3, a, p4) && Spans(b, p4, z, next)
  {
    SpanSplit(b, p, l, n + (s + (a + z)), next);
    SpanSplit(b, p1, n, s + (a + z), next);
    SpanSplit(b, p2, s, a + z, next);
    SpanSplit(b, p3, a, z, next);
  }

  lemma ParsesFile(b: Bytes, p: nat, f: NewFile, next: nat)
    requires FileFits(f) && Spans(b, p, EncodeFile(f), next)
    ensures ParseFile(b, p) == Got(AddedFile(f), next)
  {
    var l, n, s, a, z := Varint(f.level), Varint(f.number), Varint(f.size), LengthPrefixed(f.smallest), LengthPrefixed(f.largest);
    var p1 := p + |l|;
    var p2 := p1 + |n|;
    var p3 := p2 + |s|;
    var p4 := p3 + |a|;
    SpanSplitFile(b, p, l, n, s, a, z, next, p1, p2, p3, p4);
    ParsesLevel(b, p, f.level, p1);
    ParsesVarint64(b, p1, f.number, p2);
    ParsesVarint64(b, p2, f.size, p3);
    ParsesSlice(b, p3, f.smallest, p4);
    ParsesSlice(b, p4, f.largest, next);
  }

  lemma ParsesPointer(b: Bytes, p: nat, level: nat, key: Bytes, next: nat)
    requires level < NUM_LEVELS && |key| < TWO_TO_THE_32 && Spans(b, p, Varint(level) + LengthPrefixed(key), next)
    ensures ParsePointer(b, p) == Got(CompactPointer(level, key), next)
  {
    var p1 := p + |Varint(level)|;
    SpanSplit(b, p, Varint(level), LengthPrefixed(key), next);
    ParsesLevel(b, p, level, p1);
    ParsesSlice(b, p1, key, next);
  }

  lemma ParsesDeleted(b: Bytes, p: nat, level: nat, n: nat, next: nat)
    requires level < NUM_LEVELS && n < TWO_TO_THE_64 && Spans(b, p, Varint(level) + Varint(n), next)
    ensures ParseDeleted(b, p) == Got(DeletedFile(level, n), next)
  {
    var p1 := p + |Varint(level)|;
    SpanSplit(b, p, Varint(level), Varint(n), next);
    ParsesLevel(b, p, level, p1);
    ParsesVarint64(b, p1, n, next);
  }

  lemma ParsesBody(b: Bytes, p: nat, item: Item, next: nat)
    requires Fits(item) && Spans(b, p, EncodeBody(item), next)
    ensures ParseBody(b, Tag(item), p) == Got(item, next)
  {
    match item
    case Comparator(name) =>
      ParsesSlice(b, p, name, next);
    case CompactPointer(level, key) =>
      ParsesPointer(b, p, level, key, next);
    case DeletedFile(level, n) =>
      ParsesDeleted(b, p, level, n, next);
    case AddedFile(f) =>
      ParsesFile(b, p, f, next);
    case _ =>
      ParsesVarint64(b, p, item.n, next);
  }

  lemma ParsesItem(b: Bytes, p: nat, item: Item, next: nat)
    requires Fits(item) && Spans(b, p, EncodeItem(item), next)
    ensures ParseItem(b, p) == Got(item, next)
  {
    var tag := Varint(Tag(item));
    SpanSplit(b, p, tag, EncodeBody(item), next);
    ParsesVarint32(b, p, Tag(item), p + |tag|);
    ParsesBody(b, p + |tag|, item, next);
  }

  lemma {:induction false} ParsesItems(b: Bytes, p: nat, items: seq<Item>, done: seq<Item>)
    requires Spans(b, p, EncodeItems(items), |b|) && forall i | 0 <= i < |items| :: Fits(items[i])
    ensures ParseFrom(b, p, done) == Outcome(done + items, None)
    decreases |items|
  {
    if items == [] {
      assert done + items == done;
    } else {
      var next := p + |EncodeItem(items[0])|;
      SpanSplit(b, p, EncodeItem(items[0]), EncodeItems(items[1..]), |b|);
      ParsesItem(b, p, items[0], next);
      ParsesItems(b, next, items[1..], done + [items[0]]);
      assert done + [items[0]] + items[1..] == done + items;
    }
  }

  // ----- the fields of an edit -----

  datatype Fields = Fields(comparator: Option<Bytes>, logNumber: Option<nat>, prevLogNumber: Option<nat>,
                           nextFileNumber: Option<nat>, lastSequence: Option<nat>,
                           compactPointers: seq<(nat, Bytes)>, deletedFiles: set<(nat, nat)>, newFiles: seq<NewFile>)

  /** Clear leaves the compaction pointers in place. */
  function Cleared(f: Fields): Fields {
    Fields(None, None, None, None, None, f.compactPointers, {}, [])
  }

  function Take(f: Fields, item: Item): Fields {
    match item
    case Comparator(name) => f.(comparator := Some(name))
    case LogNumber(n) => f.(logNumber := Some(n))
    case PrevLogNumber(n) => f.(prevLogNumber := Some(n))
    case NextFileNumber(n) => f.(nextFileNumber := Some(n))
    case LastSequence(n) => f.(lastSequence := Some(n))
    case CompactPointer(level, key) => f.(compactPointers := f.compactPointers + [(level, key)])
    case DeletedFile(level, n) => f.(deletedFiles := f.deletedFiles + {(level, n)})
    case AddedFile(n) => f.(newFiles := f.newFiles + [n])
  }

  function TakeAll(f: Fields, items: seq<Item>): Fields {
    if items == [] then f else Take(TakeAll(f, items[..|items| - 1]), items[|items| - 1])
  }

  lemma {:induction false} TakeAllConcat(f: Fields, a: seq<Item>, b: seq<Item>)
    ensures TakeAll(f, a + b) == TakeAll(TakeAll(f, a), b)
    decreases |b|
  {
    if b == [] {
      assert a + b == a;
    } else {
      TakeAllConcat(f, a, b[..|b| - 1]);
      assert (a + b)[..|a + b| - 1] == a + b[..|b| - 1];
    }
  }

  // ----- the items of an edit, in the order in which they are written -----

  predicate Before(a: (nat, nat), b: (nat, nat)) {
    a.0 < b.0 || (a.0 == b.0 && a.1 < b.1)
  }

  /** The order in which a std::set of pairs is traversed. */
  ghost predicate Traversal(order: seq<(nat, nat)>, s: set<(nat, nat)>) {
    && (forall i, j | 0 <= i < j < |order| :: Before(order[i], order[j]))
    && (forall x :: x in s <==> x in order)
  }

  function Opt<T>(o: Option<T>, f: T -> Item): seq<Item> {
    if o.None? then [] else [f(o.value)]
  }

  function Numbers(f: Fields): seq<Item> {
    Opt(f.comparator, (name: Bytes) => Comparator(name)) + Opt(f.logNumber, (n: nat) => LogNumber(n))
    + Opt(f.prevLogNumber, (n: nat) => PrevLogNumber(n)) + Opt(f.nextFileNumber, (n: nat) => NextFileNumber(n))
    + Opt(f.lastSequence, (n: nat) => LastSequence(n))
  }

  function Pointers(s: seq<(nat, Bytes)>, n: nat): (items: seq<Item>)
    requires n <= |s|
    ensures |items| == n
  {
    if n == 0 then [] else Pointers(s, n - 1) + [CompactPointer(s[n - 1].0, s[n - 1].1)]
  }

  function Deletions(s: seq<(nat, nat)>, n: nat): (items: seq<Item>)
    requires n <= |s|
    ensures |items| == n
  {
    if n == 0 then [] else Deletions(s, n - 1) + [DeletedFile(s[n - 1].0, s[n - 1].1)]
  }

  function Additions(s: seq<NewFile>, n: nat): (items: seq<Item>)
    requires n <= |s|
    ensures |items| == n
  {
    if n == 0 then [] else Additions(s, n - 1) + [AddedFile(s[n - 1])]
  }

  function Items(f: Fields, order: seq<(nat, nat)>): seq<Item> {
    Numbers(f) + Pointers(f.compactPointers, |f.compactPointers|) + Deletions(order, |order|)
    + Additions(f.newFiles, |f.newFiles|)
  }

  lemma {:induction false} TakesPointers(f: Fields, s: seq<(nat, Bytes)>, n: nat)
    requires n <= |s|
    ensures TakeAll(f, Pointers(s, n)) == f.(compactPointers := f.compactPointers + s[..n])
  {
    if n == 0 {
      assert f.compactPointers + s[..n] == f.compactPointers;
    } else {
      TakesPointers(f, s, n - 1);
      assert Pointers(s, n)[..n - 1] == Pointers(s, n - 1);
      assert s[..n] == s[..n - 1] + [s[n - 1]] && s[n - 1] == (s[n - 1].0, s[n - 1].1);
      assert f.compactPointers + s[..n - 1] + [s[n - 1]] == f.compactPointers + s[..n];
    }
  }

  function Elements(s: seq<(nat, nat)>): set<(nat, nat)> {
    set x | x in s
  }

  function Inserted(all: set<(nat, nat)>, s: seq<(nat, nat)>, n: nat): set<(nat, nat)>
    requires n <= |s|
  {
    if n == 0 then all else Inserted(all, s, n - 1) + {(s[n - 1].0, s[n - 1].1)}
  }

  lemma {:induction false} InsertedAll(all: set<(nat, nat)>, s: seq<(nat, nat)>, n: nat)
    requires n <= |s|
    ensures Inserted(all, s, n) == all + Elements(s[..n])
  {
    if n > 0 {
      InsertedAll(all, s, n - 1);
      assert s[..n] == s[..n - 1] + [s[n - 1]];
    }
  }

  lemma {:induction false} TakesDeletions(f: Fields, s: seq<(nat, nat)>, n: nat)
    requires n <= |s|
    ensures TakeAll(f, Deletions(s, n)) == f.(deletedFiles := Inserted(f.deletedFiles, s, n))
  {
    if n > 0 {
      TakesDeletions(f, s, n - 1);
      assert Deletions(s, n)[..n - 1] == Deletions(s, n - 1);
    }
  }

  lemma {:induction false} TakesAdditions(f: Fields, s: seq<NewFile>, n: nat)
    requires n <= |s|
    ensures TakeAll(f, Additions(s, n)) == f.(newFiles := f.newFiles + s[..n])
  {
    if n == 0 {
      assert f.newFiles + s[..n] == f.newFiles;
    } else {
      TakesAdditions(f, s, n - 1);
      assert Additions(s, n)[..n - 1] == Additions(s, n - 1);
      assert f.newFiles + s[..n - 1] + [s[n - 1]] == f.newFiles + s[..n];
    }
  }

  lemma TakesFive(f: Fields, a: seq<Item>, b: seq<Item>, c: seq<Item>, d: seq<Item>, e: seq<Item>)
    ensures TakeAll(f, a + b + c + d + e) == TakeAll(TakeAll(TakeAll(TakeAll(TakeAll(f, a), b), c), d), e)
  {
    TakeAllConcat(f, a + b + c + d, e);
    TakeAllConcat(f, a + b + c, d);
    TakeAllConcat(f, a + b, c);
    TakeAllConcat(f, a, b);
  }

  lemma TakesOption<T>(f: Fields, o: Option<T>, make: T -> Item)
    ensures TakeAll(f, Opt(o, make)) == if o.None? then f else Take(f, make(o.value))
  {
    if o.Some? {
      assert [make(o.value)][..0] == [];
    }
  }

  lemma TakesComparator(f: Fields, o: Option<Bytes>)
    requires f.comparator == None
    ensures TakeAll(f, Opt(o, (name: Bytes) => Comparator(name))) == f.(comparator := o)
  {
    TakesOption(f, o, (name: Bytes) => Comparator(name));
  }

  lemma TakesLogNumber(f: Fields, o: Option<nat>)
    requires f.logNumber == None
    ensures TakeAll(f, Opt(o, (n: nat) => LogNumber(n))) == f.(logNumber := o)
  {
    TakesOption(f, o, (n: nat) => LogNumber(n));
  }

  lemma TakesPrevLogNumber(f: Fields, o: Option<nat>)
    requires f.prevLogNumber == None
    ensures TakeAll(f, Opt(o, (n: nat) => PrevLogNumber(n))) == f.(prevLogNumber := o)
  {
    TakesOption(f, o, (n: nat) => PrevLogNumber(n));
  }

  lemma TakesNextFileNumber(f: Fields, o: Option<nat>)
    requires f.nextFileNumber == None
    ensures TakeAll(f, Opt(o, (n: nat) => NextFileNumber(n))) == f.(nextFileNumber := o)
  {
    TakesOption(f, o, (n: nat) => NextFileNumber(n));
  }

  lemma TakesLastSequence(f: Fields, o: Option<nat>)
    requires f.lastSequence == None
    ensures TakeAll(f, Opt(o, (n: nat) => LastSequence(n))) == f.(lastSequence := o)
  {
    TakesOption(f, o, (n: nat) => LastSequence(n));
  }

  lemma TakesNumbers(f: Fields, g: Fields)
    ensures TakeAll(Cleared(g), Numbers(f)) == f.(compactPointers := g.compactPointers, deletedFiles := {}, newFiles := [])
  {
    var t := Cleared(g);
    TakesFive(t, Opt(f.comparator, (name: Bytes) => Comparator(name)), Opt(f.logNumber, (n: nat) => LogNumber(n)),
              Opt(f.prevLogNumber, (n: nat) => PrevLogNumber(n)), Opt(f.nextFileNumber, (n: nat) => NextFileNumber(n)),
              Opt(f.lastSequence, (n: nat) => LastSequence(n)));
    TakesComparator(t, f.comparator);
    var t1 := t.(comparator := f.comparator);
    TakesLogNumber(t1, f.logNumber);
    var t2 := t1.(logNumber := f.logNumber);
    TakesPrevLogNumber(t2, f.prevLogNumber);
    var t3 := t2.(prevLogNumber := f.prevLogNumber);
    TakesNextFileNumber(t3, f.nextFileNumber);
    TakesLastSequence(t3.(nextFileNumber := f.nextFileNumber), f.lastSequence);
  }

  predicate NumberFits(n: Option<nat>) {
    n.Some? ==> n.value < TWO_TO_THE_64
  }

  predicate FieldsFit(f: Fields) {
    && (f.comparator.Some? ==> |f.comparator.value| < TWO_TO_THE_32)
    && NumberFits(f.logNumber) && NumberFits(f.prevLogNumber) && NumberFits(f.nextFileNumber) && NumberFits(f.lastSequence)
    && (forall c | c in f.compactPointers :: c.0 < NUM_LEVELS && |c.1| < TWO_TO_THE_32)
    && (forall d | d in f.deletedFiles :: d.0 < NUM_LEVELS && d.1 < TWO_TO_THE_64)
    && (forall n | n in f.newFiles :: FileFits(n))
  }

  lemma {:induction false} PointersAt(s: seq<(nat, Bytes)>, n: nat, i: nat)
    requires i < n <= |s|
    ensures Pointers(s, n)[i] == CompactPointer(s[i].0, s[i].1)
  {
    if i < n - 1 {
      PointersAt(s, n - 1, i);
    }
  }

  lemma {:induction false} DeletionsAt(s: seq<(nat, nat)>, n: nat, i: nat)
    requires i < n <= |s|
    ensures Deletions(s, n)[i] == DeletedFile(s[i].0, s[i].1)
  {
    if i < n - 1 {
      DeletionsAt(s, n - 1, i);
    }
  }

  lemma {:induction false} AdditionsAt(s: seq<NewFile>, n: nat, i: nat)
    requires i < n <= |s|
    ensures Additions(s, n)[i] == AddedFile(s[i])
  {
    if i < n - 1 {
      AdditionsAt(s, n - 1, i);
    }
  }

  lemma ItemsFit(f: Fields, order: seq<(nat, nat)>)
    requires FieldsFit(f) && Traversal(order, f.deletedFiles)
    ensures forall i | 0 <= i < |Items(f, order)| :: Fits(Items(f, order)[i])
  {
    forall item | item in Items(f, order)
      ensures Fits(item)
    {
      if item in Pointers(f.compactPointers, |f.compactPointers|) {
        var i :| 0 <= i < |f.compactPointers| && Pointers(f.compactPointers, |f.compactPointers|)[i] == item;
        PointersAt(f.compactPointers, |f.compactPointers|, i);
        assert f.compactPointers[i] in f.compactPointers;
      } else if item in Deletions(order, |order|) {
        var i :| 0 <= i < |order| && Deletions(order, |order|)[i] == item;
        DeletionsAt(order, |order|, i);
        assert order[i] in order;
      } else if item in Additions(f.newFiles, |f.newFiles|) {
        var i :| 0 <= i < |f.newFiles| && Additions(f.newFiles, |f.newFiles|)[i] == item;
        AdditionsAt(f.newFiles, |f.newFiles|, i);
        assert f.newFiles[i] in f.newFiles;
      } else {
        assert item in Numbers(f);
      }
    }
  }

  lemma TakesItems(f: Fields, order: seq<(nat, nat)>, target: Fields)
    requires Traversal(order, f.deletedFiles)
    ensures TakeAll(Cleared(target), Items(f, order)) == f.(compactPointers := target.compactPointers + f.compactPointers)
  {
    var a, b, c, d := Numbers(f), Pointers(f.compactPointers, |f.compactPointers|), Deletions(order, |order|),
                      Additions(f.newFiles, |f.newFiles|);
    var t := Cleared(target);
    TakeAllConcat(t, a + b + c, d);
    TakeAllConcat(t, a + b, c);
    TakeAllConcat(t, a, b);
    TakesNumbers(f, target);
    var t1 := TakeAll(t, a);
    TakesPointers(t1, f.compactPointers, |f.compactPointers|);
    var t2 := TakeAll(t1, b);
    TakesDeletions(t2, order, |order|);
    InsertedAll({}, order, |order|);
    var t3 := TakeAll(t2, c);
    TakesAdditions(t3, f.newFiles, |f.newFiles|);
    assert f.compactPointers[..|f.compactPointers|] == f.compactPointers && order[..|order|] == order;
    assert f.newFiles[..|f.newFiles|] == f.newFiles && [] + f.newFiles == f.newFiles;
    assert {} + Elements(order) == f.deletedFiles;
  }

  /** Decoding the bytes of an edit gives the edit back, after whatever compaction pointers the target already held. */
  lemma RoundTrip(f: Fields, order: seq<(nat, nat)>, target: Fields)
    requires FieldsFit(f) && Traversal(order, f.deletedFiles)
    ensures var parsed := ParseItems(EncodeItems(Items(f, order)));
            && parsed.error == None
            && TakeAll(Cleared(target), parsed.items) == f.(compactPointers := target.compactPointers + f.compactPointers)
            && (TakeAll(Cleared(target), parsed.items) == f <==> target.compactPointers == [])
  {
    var items := Items(f, order);
    ItemsFit(f, order);
    assert EncodeItems(items)[0..|EncodeItems(items)|] == EncodeItems(items);
    ParsesItems(EncodeItems(items), 0, items, []);
    assert [] + items == items;
    TakesItems(f, order, target);
  }

  lemma {:induction false} First(s: set<(nat, nat)>) returns (x: (nat, nat))
    requires s != {}
    ensures x in s && forall y | y in s :: y == x || Before(x, y)
    decreases |s|
  {
    x :| x in s;
    if s - {x} == {} {
      assert s == {x};
    } else {
      var y := First(s - {x});
      assert s == (s - {x}) + {x};
      if Before(y, x) {
        x := y;
      }
    }
  }

  /** The pairs visited so far, and those to come. */
  ghost predicate Visited(order: seq<(nat, nat)>, all: set<(nat, nat)>, rest: set<(nat, nat)>) {
    && Traversal(order, all - rest) && rest <= all
    && forall x, y | x in order && y in rest :: Before(x, y)
  }

  lemma VisitNext(order: seq<(nat, nat)>, all: set<(nat, nat)>, rest: set<(nat, nat)>, x: (nat, nat))
    requires Visited(order, all, rest) && x in rest && forall y | y in rest :: y == x || Before(x, y)
    ensures Visited(order + [x], all, rest - {x})
  {
    var order' := order + [x];
    forall y
      ensures y in all - (rest - {x}) <==> y in order'
    {
      assert y in order' <==> y in order || y == x;
    }
    forall i, j | 0 <= i < j < |order'|
      ensures Before(order'[i], order'[j])
    {
      if j == |order| {
        assert order[i] in order;
      }
    }
  }

  class VersionEdit {
    var comparator: Option<Bytes>
    var logNumber: Option<nat>
    var prevLogNumber: Option<nat>
    var nextFileNumber: Option<nat>
    var lastSequence: Option<nat>
    var compactPointers: seq<(nat, Bytes)>
    var deletedFiles: set<(nat, nat)>
    var newFiles: seq<NewFile>

    ghost function Now(): Fields
      reads this
    {
      Fields(comparator, logNumber, prevLogNumber, nextFileNumber, lastSequence, compactPointers, deletedFiles, newFiles)
    }

    constructor ()
      ensures Now() == Fields(None, None, None, None, None, [], {}, [])
    {
      comparator, logNumber, prevLogNumber, nextFileNumber, lastSequence := None, None, None, None, None;
      compactPointers, deletedFiles, newFiles := [], {}, [];
    }

    method Clear()
      modifies this
      ensures Now() == Cleared(old(Now()))
    {
      comparator, logNumber, prevLogNumber, nextFileNumber, lastSequence := None, None, None, None, None;
      deletedFiles, newFiles := {}, [];
    }

    method EncodeNumbers(dst: Bytes) returns (out: Bytes)
      ensures out == dst + EncodeItems(Numbers(Now()))
    {
      ghost var items := [];
      assert dst + [] == dst;
      out, items := PutOption(EncodeItem, dst, dst, [], comparator, (name: Bytes) => Comparator(name));
      out, items := PutOption(EncodeItem, dst, out, items, logNumber, (n: nat) => LogNumber(n));
      out, items := PutOption(EncodeItem, dst, out, items, prevLogNumber, (n: nat) => PrevLogNumber(n));
      out, items := PutOption(EncodeItem, dst, out, items, nextFileNumber, (n: nat) => NextFileNumber(n));
      out, items := PutOption(EncodeItem, dst, out, items, lastSequence, (n: nat) => LastSequence(n));
      assert [] + Opt(comparator, (name: Bytes) => Comparator(name)) == Opt(comparator, (name: Bytes) => Comparator(name));
    }

    method EncodePointers(enc: Item -> Bytes, ghost dst: Bytes, out: Bytes, ghost items: seq<Item>) returns (out': Bytes, ghost items': seq<Item>)
      requires out == dst + EncodeAll(enc, items)
      ensures items' == items + Pointers(compactPointers, |compactPointers|) && out' == dst + EncodeAll(enc, items')
    {
      out', items' := out, items;
      for i := 0 to |compactPointers|
        invariant items' == items + Pointers(compactPointers, i) && out' == dst + EncodeAll(enc, items')
      {
        out', items' := Put(enc, dst, out', items', CompactPointer(compactPointers[i].0, compactPointers[i].1));
      }
    }

    method EncodeDeleted(enc: Item -> Bytes, ghost dst: Bytes, out: Bytes, ghost items: seq<Item>)
        returns (out': Bytes, ghost items': seq<Item>, ghost order: seq<(nat, nat)>)
      requires out == dst + EncodeAll(enc, items)
      ensures Traversal(order, deletedFiles)
      ensures items' == items + Deletions(order, |order|) && out' == dst + EncodeAll(enc, items')
    {
      out', items', order := out, items, [];
      var rest := deletedFiles;
      while rest != {}
        invariant Visited(order, deletedFiles, rest)
        invariant items' == items + Deletions(order, |order|) && out' == dst + EncodeAll(enc, items')
        decreases rest
      {
        ghost var first := First(rest);
        var x :| x in rest && forall y | y in rest :: y == x || Before(x, y);
        out', items' := Put(enc, dst, out', items', DeletedFile(x.0, x.1));
        DeletionsSnoc(order, x);
        VisitNext(order, deletedFiles, rest, x);
        order := order + [x];
        rest := rest - {x};
      }
      assert deletedFiles - rest == deletedFiles;
    }

    method EncodeAdded(enc: Item -> Bytes, ghost dst: Bytes, out: Bytes, ghost items: seq<Item>) returns (out': Bytes, ghost items': seq<Item>)
      requires out == dst + EncodeAll(enc, items)
      ensures items' == items + Additions(newFiles, |newFiles|) && out' == dst + EncodeAll(enc, items')
    {
      out', items' := out, items;
      for i := 0 to |newFiles|
        invariant items' == items + Additions(newFiles, i) && out' == dst + EncodeAll(enc, items')
      {
        out', items' := Put(enc, dst, out', items', AddedFile(newFiles[i]));
      }
    }

    /** Appends the stored form. The deleted files come in the order of the set. */
    method EncodeTo(dst: Bytes) returns (out: Bytes, ghost order: seq<(nat, nat)>)
      ensures Traversal(order, deletedFiles) && out == dst + EncodeItems(Items(Now(), order))
    {
      out := EncodeNumbers(dst);
      ghost var items := Numbers(Now());
      out, items := EncodePointers(EncodeItem, dst, out, items);
      out, items, order := EncodeDeleted(EncodeItem, dst, out, items);
      out, items := EncodeAdded(EncodeItem, dst, out, items);
    }

    method TakeItem(item: Item)
      modifies this
      ensures Now() == Take(old(Now()), item)
    {
      match item
      case Comparator(name) => comparator := Some(name);
      case LogNumber(n) => logNumber := Some(n);
      case PrevLogNumber(n) => prevLogNumber := Some(n);
      case NextFileNumber(n) => nextFileNumber := Some(n);
      case LastSequence(n) => lastSequence := Some(n);
      case CompactPointer(level, key) => compactPointers := compactPointers + [(level, key)];
      case DeletedFile(level, n) => deletedFiles := deletedFiles + {(level, n)};
      case AddedFile(f) => newFiles := newFiles + [f];
    }

    /** Fills the edit from stored bytes; the result is the message of the corruption, if any. */
    method DecodeFrom(src: Bytes) returns (msg: Option<string>)
      modifies this
      ensures msg == ParseItems(src).error
      ensures Now() == TakeAll(Cleared(old(Now())), ParseItems(src).items)
    {
      Clear();
      var p := 0;
      ghost var start, done := Now(), [];
      while true
        invariant p <= |src| && Now() == TakeAll(start, done) && ParseFrom(src, p, done) == ParseItems(src)
        decreases |src| - p
      {
        match ParseItem(src, p)
        case End =>
          return if p < |src| then Some("invalid tag") else None;
        case Bad(m) =>
          return Some(m);
        case Got(item, next) =>
          TakeItem(item);
          assert (done + [item])[..|done|] == done;
          p, done := next, done + [item];
      }
    }
  }

  lemma {:induction false} DeletionsSnoc(order: seq<(nat, nat)>, x: (nat, nat))
    ensures Deletions(order + [x], |order| + 1) == Deletions(order, |order|) + [DeletedFile(x.0, x.1)]
  {
    DeletionsSame(order, order + [x], |order|);
  }

  lemma {:induction false} DeletionsSame(a: seq<(nat, nat)>, b: seq<(nat, nat)>, n: nat)
    requires n <= |a| && n <= |b| && forall i | 0 <= i < n :: a[i] == b[i]
    ensures Deletions(a, n) == Deletions(b, n)
  {
    if 0 < n {
      DeletionsSame(a, b, n - 1);
    }
  }

  /** Appends a field that is set. */
  method PutOption<T>(enc: Item -> Bytes, ghost dst: Bytes, out: Bytes, ghost items: seq<Item>, o: Option<T>, f: T -> Item)
      returns (out': Bytes, ghost items': seq<Item>)
    requires out == dst + EncodeAll(enc, items)
    ensures items' == items + Opt(o, f) && out' == dst + EncodeAll(enc, items')
  {
    out', items' := out, items;
    if o.Some? {
      out', items' := Put(enc, dst, out, items, f(o.value));
    }
  }

  /** Appends one item to bytes that hold `items` after `dst`. */
  method Put(enc: Item -> Bytes, ghost dst: Bytes, out: Bytes, ghost items: seq<Item>, item: Item) returns (out': Bytes, ghost items': seq<Item>)
    requires out == dst + EncodeAll(enc, items)
    ensures items' == items + [item] && out' == out + enc(item) == dst + EncodeAll(enc, items')
  {
    out' := out + enc(item);
    items' := items + [item];
    EncodeSnoc(enc, items, item);
    Associates(dst, EncodeAll(enc, items), enc(item));
  }
}
