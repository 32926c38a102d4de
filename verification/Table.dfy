/** Tables: building them block by block, and the lookup that reads one block (table/table_builder.cc, table/table.cc,
    db/dbformat.cc).  The user comparator's separators and lengths are parameters; so is the string of a user key.

    A finished table is its index, its data blocks by file offset, and its filter block. */
module Tables {
  import opened DbFormat
  import opened Coding
  import opened Cursors
  import opened Version
  import opened Bloom
  import opened FilterBlock

  const BLOCK_TRAILER_SIZE: nat := 5

  datatype IndexEntry = IndexEntry(key: InternalKey, offset: nat)

  datatype TableFile = TableFile(index: seq<IndexEntry>, blocks: map<nat, seq<Entry>>, filter: Option<Bytes>)

  // ----- index keys -----

  /** What the built-in comparator offers: a separator it changed lies strictly before the limit. */
  datatype UserComparator = UserComparator(separator: (UserKey, UserKey) -> UserKey, successor: UserKey -> UserKey,
                                           shorter: (UserKey, UserKey) -> bool)
  {
    ghost predicate Valid() {
      forall a, b :: separator(a, b) == a || separator(a, b) < b
    }

    function FindShortestSeparator(start: InternalKey, limit: InternalKey): (r: InternalKey)
      requires Valid() && Less(start, limit)
      ensures AtMost(start, r) && Less(r, limit) && (r == start || r.user < limit.user)
    {
      var tmp := separator(start.user, limit.user);
      if shorter(tmp, start.user) && start.user < tmp then InternalKey(tmp, MAX_SEQUENCE, TypeValue) else start
    }

    function FindShortSuccessor(key: InternalKey): (r: InternalKey)
      ensures AtMost(key, r)
    {
      var tmp := successor(key.user);
      if shorter(tmp, key.user) && key.user < tmp then InternalKey(tmp, MAX_SEQUENCE, TypeValue) else key
    }
  }

  // ----- what a table is -----

  function Last(b: seq<Entry>): InternalKey
    requires b != []
  {
    b[|b| - 1].key
  }

  /** Sorted blocks, each before the next. */
  ghost predicate Blocks(bs: seq<seq<Entry>>) {
    && (forall i | 0 <= i < |bs| :: bs[i] != [] && Sorted(bs[i]))
    && (forall i, j | 0 <= i < j < |bs| :: Less(Last(bs[i]), bs[j][0].key))
  }

  lemma WithinBlock(b: seq<Entry>, e: Entry)
    requires b != [] && Sorted(b) && e in b
    ensures AtMost(b[0].key, e.key) && AtMost(e.key, Last(b))
  {
    var m :| 0 <= m < |b| && b[m] == e;
    assert 0 < m ==> Less(b[0].key, b[m].key);
    assert m < |b| - 1 ==> Less(b[m].key, b[|b| - 1].key);
  }

  lemma BlockOrder(bs: seq<seq<Entry>>, i: nat, j: nat, d: Entry, e: Entry)
    requires Blocks(bs) && i < j < |bs| && d in bs[i] && e in bs[j]
    ensures Less(d.key, e.key)
  {
    WithinBlock(bs[i], d);
    WithinBlock(bs[j], e);
  }

  /** An index key for block `b`, when `next` comes after it. */
  ghost predicate Separates(key: InternalKey, b: seq<Entry>, next: InternalKey) {
    b != [] && AtMost(Last(b), key) && Less(key, next) && (key == Last(b) || key.user < next.user)
  }

  ghost predicate SeparatesNext(index: seq<IndexEntry>, bs: seq<seq<Entry>>, i: nat)
    requires i < |index|
  {
    i + 1 < |bs| ==> bs[i + 1] != [] && Separates(index[i].key, bs[i], bs[i + 1][0].key)
  }

  ghost predicate Indexed(index: seq<IndexEntry>, bs: seq<seq<Entry>>) {
    && (forall i | 0 <= i < |index| && i < |bs| :: bs[i] != [] && AtMost(Last(bs[i]), index[i].key))
    && (forall i | 0 <= i < |index| :: SeparatesNext(index, bs, i))
  }

  ghost predicate Placed(index: seq<IndexEntry>, blocks: map<nat, seq<Entry>>, bs: seq<seq<Entry>>) {
    forall i | 0 <= i < |index| && i < |bs| :: index[i].offset in blocks && blocks[index[i].offset] == bs[i]
  }

  ghost function AllOf(bs: seq<seq<Entry>>): set<Entry> {
    set i, e | 0 <= i < |bs| && e in bs[i] :: e
  }

  ghost predicate Filtered(hash: Hash, userBytes: UserKey -> Bytes, t: TableFile, bs: seq<seq<Entry>>) {
    t.filter.Some? ==>
      forall i, e | 0 <= i < |t.index| && i < |bs| && e in bs[i] ::
        MayMatch(hash, LayoutOf(t.filter.value), t.index[i].offset, userBytes(e.key.user))
  }

  ghost predicate TableOk(hash: Hash, userBytes: UserKey -> Bytes, t: TableFile, bs: seq<seq<Entry>>) {
    Blocks(bs) && |t.index| == |bs| && Indexed(t.index, bs) && Placed(t.index, t.blocks, bs)
    && Filtered(hash, userBytes, t, bs)
  }

  // ----- the one-block probe -----

  /** `i` is the first index entry at or past the key sought. */
  ghost predicate SeekIndex(index: seq<IndexEntry>, k: InternalKey, i: nat) {
    && i <= |index|
    && (forall j | 0 <= j < i :: Less(index[j].key, k))
    && (i < |index| ==> AtMost(k, index[i].key))
  }

  /** Wherever a candidate is, the one block probed holds one as well, and it is not before that block. */
  lemma CandidateInProbed(index: seq<IndexEntry>, bs: seq<seq<Entry>>, u: UserKey, s: nat, i: nat, j: nat, e: Entry)
    requires Blocks(bs) && |index| == |bs| && Indexed(index, bs) && SeekIndex(index, SeekKey(u, s), i)
    requires j < |bs| && e in bs[j] && Candidate(e, u, s)
    ensures i <= j && exists d :: d in bs[i] && Candidate(d, u, s)
  {
    WithinBlock(bs[j], e);
    assert AtMost(Last(bs[j]), index[j].key);
    assert i <= j;
    if i < j {
      var first := bs[i + 1][0];
      assert SeparatesNext(index, bs, i);
      var d := bs[i][|bs[i]| - 1];
      BlockOrder(bs, i, j, d, e);
      if i + 1 < j {
        BlockOrder(bs, i + 1, j, first, e);
      }
      assert d in bs[i] && Candidate(d, u, s);
    }
  }

  /** The newest candidate of the probed block is the newest of the table. */
  lemma ProbedIsNewest(index: seq<IndexEntry>, bs: seq<seq<Entry>>, u: UserKey, s: nat, i: nat, hit: Entry)
    requires Blocks(bs) && |index| == |bs| && Indexed(index, bs) && SeekIndex(index, SeekKey(u, s), i)
    requires i < |bs| && Newest(Contents(bs[i]), u, s, hit)
    ensures Newest(AllOf(bs), u, s, hit)
  {
    forall e | e in AllOf(bs) && Candidate(e, u, s)
      ensures e.key.seqno <= hit.key.seqno
    {
      var j :| 0 <= j < |bs| && e in bs[j];
      CandidateInProbed(index, bs, u, s, i, j, e);
      if i < j {
        BlockOrder(bs, i, j, hit, e);
      } else {
        assert e in Contents(bs[i]);
      }
    }
  }

  lemma NothingProbed(index: seq<IndexEntry>, bs: seq<seq<Entry>>, u: UserKey, s: nat, i: nat)
    requires Blocks(bs) && |index| == |bs| && Indexed(index, bs) && SeekIndex(index, SeekKey(u, s), i)
    requires i < |bs| ==> NoCandidate(Contents(bs[i]), u, s)
    ensures NoCandidate(AllOf(bs), u, s)
  {
    forall e | e in AllOf(bs)
      ensures !Candidate(e, u, s)
    {
      if Candidate(e, u, s) {
        var j :| 0 <= j < |bs| && e in bs[j];
        CandidateInProbed(index, bs, u, s, i, j, e);
      }
    }
  }

  /** The probe of one block finds the newest version at or below the snapshot, or shows the table has none. */
  method InternalGet(t: TableFile, policy: BloomFilterPolicy, userBytes: UserKey -> Bytes, u: UserKey, s: nat,
                     ghost bs: seq<seq<Entry>>) returns (hit: Option<Entry>)
    requires TableOk(policy.hash, userBytes, t, bs)
    ensures if hit.Some? && hit.value.key.user == u then Newest(AllOf(bs), u, s, hit.value) else NoCandidate(AllOf(bs), u, s)
  {
    var k := SeekKey(u, s);
    var i := 0;
    while i < |t.index| && Less(t.index[i].key, k)
      invariant i <= |t.index| && forall j | 0 <= j < i :: Less(t.index[j].key, k)
    {
      i := i + 1;
    }
    if i == |t.index| {
      NothingProbed(t.index, bs, u, s, i);
      return None;
    }
    var offset := t.index[i].offset;
    SeekFindsNewest(bs[i], u, s);
    if t.filter.Some? {
      var reader := new FilterBlockReader(policy, t.filter.value);
      var may := reader.KeyMayMatch(offset, userBytes(u));
      if !may {
        NothingProbed(t.index, bs, u, s, i);
        return None;
      }
    }
    hit := SeekEntry(t.blocks[offset], k);
    if hit.Some? && hit.value.key.user == u {
      ProbedIsNewest(t.index, bs, u, s, i, hit.value);
    } else {
      NothingProbed(t.index, bs, u, s, i);
    }
  }

  // ----- building -----

  /** The blocks written and the one being filled. */
  ghost function WithCurrent(bs: seq<seq<Entry>>, current: seq<Entry>): seq<seq<Entry>> {
    if current == [] then bs else bs + [current]
  }

  lemma BlocksGrow(bs: seq<seq<Entry>>, current: seq<Entry>, e: Entry)
    requires var all := WithCurrent(bs, current); Blocks(all) && (all != [] ==> Less(Last(all[|all| - 1]), e.key))
    ensures Blocks(WithCurrent(bs, current + [e]))
  {
    var all, all' := WithCurrent(bs, current), WithCurrent(bs, current + [e]);
    assert forall i | 0 <= i < |bs| :: all[i] == all'[i] == bs[i];
    var last := current + [e];
    assert all'[|bs|] == last;
    assert current != [] ==> all[|bs|] == current;
    forall m | 0 <= m < |current|
      ensures Less(current[m].key, e.key)
    {
      WithinBlock(current, current[m]);
    }
    forall i | 0 <= i < |bs|
      ensures Less(Last(bs[i]), last[0].key)
    {
      if current == [] && i < |bs| - 1 {
        var n := |bs| - 1;
        WithinBlock(bs[n], bs[n][0]);
      }
    }
  }

  lemma AllGrows(bs: seq<seq<Entry>>, current: seq<Entry>, e: Entry)
    ensures AllOf(WithCurrent(bs, current + [e])) == AllOf(WithCurrent(bs, current)) + {e}
  {
    var all, all' := WithCurrent(bs, current), WithCurrent(bs, current + [e]);
    assert all'[|bs|] == current + [e];
    assert forall i | 0 <= i < |bs| :: all[i] == all'[i];
    forall d | d in AllOf(all) + {e}
      ensures d in AllOf(all')
    {
      if d == e {
        assert d in all'[|bs|];
      } else {
        var i :| 0 <= i < |all| && d in all[i];
        assert d in all'[i];
      }
    }
    forall d | d in AllOf(all')
      ensures d in AllOf(all) + {e}
    {
      var i :| 0 <= i < |all'| && d in all'[i];
      if i < |bs| {
        assert d in all[i];
      } else if d != e {
        assert d in current && current == all[|bs|];
      }
    }
  }

  /** A table being built: what is in the builder, and the blocks written with their offsets. */
  datatype Build = Build(offset: nat, current: seq<Entry>, index: seq<IndexEntry>, blocks: map<nat, seq<Entry>>,
                         lastKey: InternalKey, count: nat, pending: bool, handle: nat,
                         bs: seq<seq<Entry>>, order: seq<nat>)

  ghost function Sequence(b: Build): seq<seq<Entry>> {
    WithCurrent(b.bs, b.current)
  }

  /** The filter has been told of every entry, with the offset of its block. */
  ghost predicate Noted(noted: set<Added>, userBytes: UserKey -> Bytes,
                        bs: seq<seq<Entry>>, order: seq<nat>, current: seq<Entry>, offset: nat) {
    && |order| == |bs|
    && (forall i, e | 0 <= i < |bs| && e in bs[i] :: Added(order[i], userBytes(e.key.user)) in noted)
    && (forall e | e in current :: Added(offset, userBytes(e.key.user)) in noted)
  }

  /** Index entries, offsets and blocks belong together. */
  ghost predicate Consistent(b: Build) {
    && |b.order| == |b.bs| == |b.index| + (if b.pending then 1 else 0)
    && (b.pending ==> b.handle == b.order[|b.bs| - 1])
    && (forall i | 0 <= i < |b.index| :: b.index[i].offset == b.order[i])
    && (forall i | 0 <= i < |b.bs| :: b.order[i] in b.blocks && b.blocks[b.order[i]] == b.bs[i])
    && (forall o | o in b.blocks :: o < b.offset)
  }

  /** The order of everything added so far, and of the index keys among it. */
  ghost predicate Keyed(index: seq<IndexEntry>, all: seq<seq<Entry>>, lastKey: InternalKey, count: nat) {
    && Blocks(all) && Indexed(index, all)
    && (count == 0 <==> all == []) && (count > 0 ==> lastKey == Last(all[|all| - 1]))
  }

  ghost predicate BuildOk(b: Build) {
    && Keyed(b.index, Sequence(b), b.lastKey, b.count) && Consistent(b)
    && (b.pending <==> b.bs != [] && b.current == [])
  }

  lemma IndexedNext(index: seq<IndexEntry>, bs: seq<seq<Entry>>, key: InternalKey, offset: nat, e: Entry)
    requires Indexed(index, bs) && |index| + 1 == |bs| && Separates(key, bs[|index|], e.key)
    ensures Indexed(index + [IndexEntry(key, offset)], bs + [[e]])
  {
    var index', bs' := index + [IndexEntry(key, offset)], bs + [[e]];
    forall i | 0 <= i < |index'|
      ensures SeparatesNext(index', bs', i)
    {
      assert i < |index| ==> SeparatesNext(index, bs, i);
    }
  }

  lemma IndexedLast(index: seq<IndexEntry>, bs: seq<seq<Entry>>, key: InternalKey, offset: nat)
    requires Indexed(index, bs) && |index| + 1 == |bs| && bs[|index|] != [] && AtMost(Last(bs[|index|]), key)
    ensures Indexed(index + [IndexEntry(key, offset)], bs)
  {
    var index' := index + [IndexEntry(key, offset)];
    forall i | 0 <= i < |index'|
      ensures SeparatesNext(index', bs, i)
    {
      assert i < |index| ==> SeparatesNext(index, bs, i);
    }
  }

  lemma IndexedGrows(index: seq<IndexEntry>, bs: seq<seq<Entry>>, current: seq<Entry>, e: Entry)
    requires Indexed(index, WithCurrent(bs, current)) && current != [] && |index| == |bs|
    ensures Indexed(index, WithCurrent(bs, current + [e]))
  {
    var all, all' := WithCurrent(bs, current), WithCurrent(bs, current + [e]);
    forall i | 0 <= i < |index|
      ensures SeparatesNext(index, all', i)
    {
      assert SeparatesNext(index, all, i);
    }
  }

  /** The index entry of the last block is written. */
  function IndexAdded(b: Build, key: InternalKey): Build {
    b.(index := b.index + [IndexEntry(key, b.handle)], lastKey := key, pending := false)
  }

  function EntryAdded(b: Build, e: Entry): Build {
    b.(current := b.current + [e], lastKey := e.key, count := b.count + 1)
  }

  /** The current block is written, `size` bytes of it. */
  function Flushed(b: Build, size: nat): Build {
    b.(blocks := b.blocks[b.offset := b.current], handle := b.offset, pending := true,
       bs := b.bs + [b.current], order := b.order + [b.offset], offset := b.offset + size + BLOCK_TRAILER_SIZE, current := [])
  }

  lemma IndexAddedConsistent(b: Build, key: InternalKey)
    requires Consistent(b) && b.pending
    ensures Consistent(IndexAdded(b, key))
  {
  }

  lemma EntryAddedOk(b: Build, e: Entry)
    requires BuildOk(b) && !b.pending && (b.count > 0 ==> Less(b.lastKey, e.key))
    ensures BuildOk(EntryAdded(b, e)) && AllOf(Sequence(EntryAdded(b, e))) == AllOf(Sequence(b)) + {e}
  {
    BlocksGrow(b.bs, b.current, e);
    AllGrows(b.bs, b.current, e);
    if b.current != [] {
      IndexedGrows(b.index, b.bs, b.current, e);
    }
  }

  lemma AfterSeparatorOk(b: Build, key: InternalKey, e: Entry)
    requires BuildOk(b) && b.pending && Separates(key, b.bs[|b.bs| - 1], e.key)
    ensures BuildOk(EntryAdded(IndexAdded(b, key), e))
    ensures AllOf(Sequence(EntryAdded(IndexAdded(b, key), e))) == AllOf(Sequence(b)) + {e}
  {
    assert b.current == [] && [] + [e] == [e];
    assert Less(Last(b.bs[|b.bs| - 1]), e.key);
    BlocksGrow(b.bs, [], e);
    AllGrows(b.bs, [], e);
    IndexedNext(b.index, b.bs, key, b.handle, e);
    IndexAddedConsistent(b, key);
  }

  function NextBuild(cmp: UserComparator, b: Build, e: Entry): Build
    requires b.pending ==> cmp.Valid() && Less(b.lastKey, e.key)
  {
    EntryAdded(if b.pending then IndexAdded(b, cmp.FindShortestSeparator(b.lastKey, e.key)) else b, e)
  }

  lemma NextBuildOk(cmp: UserComparator, b: Build, e: Entry)
    requires cmp.Valid() && BuildOk(b) && (b.count > 0 ==> Less(b.lastKey, e.key))
    ensures b.pending ==> Less(b.lastKey, e.key)
    ensures BuildOk(NextBuild(cmp, b, e)) && AllOf(Sequence(NextBuild(cmp, b, e))) == AllOf(Sequence(b)) + {e}
  {
    if b.pending {
      AfterSeparatorOk(b, cmp.FindShortestSeparator(b.lastKey, e.key), e);
    } else {
      EntryAddedOk(b, e);
    }
  }

  lemma FlushedOk(b: Build, size: nat)
    requires BuildOk(b) && b.current != []
    ensures BuildOk(Flushed(b, size)) && Sequence(Flushed(b, size)) == Sequence(b)
  {
    var f := Flushed(b, size);
    assert Sequence(f) == Sequence(b);
    forall i | 0 <= i < |b.bs|
      ensures b.order[i] != b.offset
    {
      assert b.order[i] in b.blocks;
    }
  }

  lemma LastIndexOk(b: Build, key: InternalKey)
    requires BuildOk(b) && b.pending && AtMost(b.lastKey, key)
    ensures Blocks(b.bs) && Indexed(IndexAdded(b, key).index, b.bs) && Consistent(IndexAdded(b, key))
  {
    IndexedLast(b.index, b.bs, key, b.handle);
    IndexAddedConsistent(b, key);
  }

  lemma NotedAdd(noted: set<Added>, userBytes: UserKey -> Bytes,
                 bs: seq<seq<Entry>>, order: seq<nat>, current: seq<Entry>, offset: nat, e: Entry)
    requires Noted(noted, userBytes, bs, order, current, offset)
    ensures Noted(noted + {Added(offset, userBytes(e.key.user))}, userBytes, bs, order, current + [e], offset)
  {
  }

  lemma NotedFlush(noted: set<Added>, userBytes: UserKey -> Bytes,
                   bs: seq<seq<Entry>>, order: seq<nat>, current: seq<Entry>, offset: nat, offset': nat)
    requires Noted(noted, userBytes, bs, order, current, offset)
    ensures Noted(noted, userBytes, bs + [current], order + [offset], [], offset')
  {
  }

  class TableBuilder {
    const cmp: UserComparator
    const userBytes: UserKey -> Bytes
    const filterBlock: FilterBlockBuilder?
    var offset: nat
    var dataBlock: seq<Entry>
    var indexBlock: seq<IndexEntry>
    var blocks: map<nat, seq<Entry>>
    var lastKey: InternalKey
    var numEntries: nat
    var pendingIndexEntry: bool
    var pendingHandle: nat
    /** The blocks written, their offsets, and what the filter knows. */
    ghost var bs: seq<seq<Entry>>
    ghost var order: seq<nat>
    ghost var noted: set<Added>

    ghost function Now(): Build
      reads `offset, `dataBlock, `indexBlock, `blocks, `lastKey, `numEntries
      reads `pendingIndexEntry, `pendingHandle, `bs, `order
    {
      Build(offset, dataBlock, indexBlock, blocks, lastKey, numEntries, pendingIndexEntry, pendingHandle, bs, order)
    }

    ghost function All(): set<Entry>
      reads `offset, `dataBlock, `indexBlock, `blocks, `lastKey, `numEntries
      reads `pendingIndexEntry, `pendingHandle, `bs, `order
    {
      AllOf(Sequence(Now()))
    }

    ghost predicate FilterKnows()
      reads `noted, `offset, filterBlock
    {
      filterBlock != null ==>
        && filterBlock.Valid() && filterBlock.Started() && filterBlock.blockOffset <= offset
        && forall a | a in noted :: a in filterBlock.added
    }

    ghost predicate Valid()
      reads this, filterBlock
    {
      && cmp.Valid() && BuildOk(Now()) && Noted(noted, userBytes, bs, order, dataBlock, offset)
      && FilterKnows() && (filterBlock != null ==> filterBlock.blockOffset == offset)
    }

    constructor (cmp: UserComparator, userBytes: UserKey -> Bytes, policy: BloomFilterPolicy?)
      requires cmp.Valid() && (policy != null ==> 1 <= policy.k <= 30)
      ensures Valid() && All() == {} && this.userBytes == userBytes
      ensures policy == null ==> filterBlock == null
      ensures policy != null ==> filterBlock != null && fresh(filterBlock) && filterBlock.policy == policy
    {
      this.cmp, this.userBytes := cmp, userBytes;
      if policy == null {
        filterBlock := null;
      } else {
        filterBlock := new FilterBlockBuilder(policy);
      }
      offset, dataBlock, indexBlock, blocks := 0, [], [], map[];
      lastKey, numEntries, pendingIndexEntry, pendingHandle := InternalKey(0.0, 0, TypeDeletion), 0, false, 0;
      bs, order, noted := [], [], {};
      new;
      if filterBlock != null {
        filterBlock.StartBlock(0);
      }
    }

    method NoteKey(e: Entry, ghost block: seq<Entry>)
      requires FilterKnows() && (filterBlock != null ==> filterBlock.blockOffset == offset)
      requires Noted(noted, userBytes, bs, order, block, offset)
      modifies this`noted, filterBlock
      ensures FilterKnows() && (filterBlock != null ==> filterBlock.blockOffset == offset)
      ensures Noted(noted, userBytes, bs, order, block + [e], offset)
    {
      NotedAdd(noted, userBytes, bs, order, block, offset, e);
      if filterBlock != null {
        filterBlock.AddKey(userBytes(e.key.user));
      }
      noted := noted + {Added(offset, userBytes(e.key.user))};
    }

    /** Adds an entry, and before it the index entry of the last block, now that the key after it is known. */
    method AddEntry(e: Entry)
      requires cmp.Valid() && (pendingIndexEntry ==> Less(lastKey, e.key))
      modifies this`lastKey, this`indexBlock, this`pendingIndexEntry, this`numEntries, this`dataBlock
      ensures Now() == NextBuild(cmp, old(Now()), e)
    {
      if pendingIndexEntry {
        lastKey := cmp.FindShortestSeparator(lastKey, e.key);
        indexBlock := indexBlock + [IndexEntry(lastKey, pendingHandle)];
        pendingIndexEntry := false;
      }
      lastKey := e.key;
      numEntries := numEntries + 1;
      dataBlock := dataBlock + [e];
    }

    method AddToBlock(e: Entry)
      requires cmp.Valid() && (pendingIndexEntry ==> Less(lastKey, e.key))
      requires Noted(noted, userBytes, bs, order, dataBlock, offset)
      requires FilterKnows() && (filterBlock != null ==> filterBlock.blockOffset == offset)
      modifies this, filterBlock
      ensures Now() == NextBuild(cmp, old(Now()), e)
      ensures FilterKnows() && (filterBlock != null ==> filterBlock.blockOffset == offset)
      ensures Noted(noted, userBytes, bs, order, dataBlock, offset)
    {
      NoteKey(e, dataBlock);
      AddEntry(e);
    }

    /** Adds an entry; `full` says whether the block has grown to its size. */
    method Add(key: InternalKey, value: Bytes, full: bool, size: nat)
      requires Valid() && (numEntries > 0 ==> Less(lastKey, key))
      modifies this, filterBlock
      ensures Valid() && All() == old(All()) + {Entry(key, value)}
    {
      NextBuildOk(cmp, Now(), Entry(key, value));
      AddToBlock(Entry(key, value));
      FlushIf(full, size);
    }

    method FlushIf(full: bool, size: nat)
      requires Valid()
      modifies this, filterBlock
      ensures Valid() && All() == old(All())
    {
      if full {
        Flush(size);
      }
    }

    method WriteBlock(size: nat)
      modifies this`blocks, this`pendingHandle, this`bs, this`order, this`offset, this`dataBlock, this`pendingIndexEntry
      ensures Now() == Flushed(old(Now()), size)
    {
      blocks := blocks[offset := dataBlock];
      pendingHandle := offset;
      bs, order := bs + [dataBlock], order + [offset];
      offset := offset + size + BLOCK_TRAILER_SIZE;
      dataBlock := [];
      pendingIndexEntry := true;
    }

    method StartFilter()
      requires FilterKnows()
      modifies filterBlock
      ensures FilterKnows() && (filterBlock != null ==> filterBlock.blockOffset == offset)
    {
      if filterBlock != null {
        filterBlock.StartBlock(offset);
      }
    }

    /** Writes the block being filled, `size` bytes of it. */
    method Flush(size: nat)
      requires Valid()
      modifies this, filterBlock
      ensures Valid() && All() == old(All()) && dataBlock == []
    {
      if dataBlock != [] {
        FlushedOk(Now(), size);
        NotedFlush(noted, userBytes, bs, order, dataBlock, offset, offset + size + BLOCK_TRAILER_SIZE);
        WriteBlock(size);
        StartFilter();
      }
    }

    /** The filter block, if there is one: it matches everything noted. */
    method FinishFilter() returns (filter: Option<Bytes>)
      requires FilterKnows()
      modifies filterBlock
      ensures filter.Some? <==> filterBlock != null
      ensures filterBlock != null && |filter.value| < TWO_TO_THE_32 ==>
                forall a | a in noted :: MayMatch(filterBlock.policy.hash, LayoutOf(filter.value), a.offset, a.key)
    {
      filter := None;
      if filterBlock != null {
        var contents := filterBlock.Finish();
        filter := Some(contents);
      }
    }

    method FinishIndex()
      requires BuildOk(Now()) && dataBlock == []
      modifies this`lastKey, this`indexBlock, this`pendingIndexEntry
      ensures Blocks(bs) && Indexed(indexBlock, bs) && Consistent(Now()) && !pendingIndexEntry
    {
      if pendingIndexEntry {
        LastIndexOk(Now(), cmp.FindShortSuccessor(lastKey));
        lastKey := cmp.FindShortSuccessor(lastKey);
        indexBlock := indexBlock + [IndexEntry(lastKey, pendingHandle)];
        pendingIndexEntry := false;
      }
    }

    /** Main result: a finished table holds what was added, and answers every probe right. */
    method Finish(size: nat, ghost hash: Hash) returns (t: TableFile, ghost written: seq<seq<Entry>>)
      requires Valid() && (filterBlock != null ==> hash == filterBlock.policy.hash)
      modifies this, filterBlock
      ensures AllOf(written) == old(All())
      ensures t.filter.Some? <==> filterBlock != null
      ensures (t.filter.Some? ==> |t.filter.value| < TWO_TO_THE_32) ==> TableOk(hash, userBytes, t, written)
    {
      Flush(size);
      written := bs;
      var filter := FinishFilter();
      FinishIndex();
      t := TableFile(indexBlock, blocks, filter);
    }
  }
}
