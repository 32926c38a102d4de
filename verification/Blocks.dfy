/** Building a block and walking it (table/block_builder.cc, table/block.cc). */
module Blocks {
  import opened DbFormat
  import opened Coding
  import opened Streams
  import opened BlockFormat
  import opened Cursors

  // ----- building -----

  function Extended(l: Layout, pair: Pair, shared: nat, restart: bool, end: nat): Layout {
    Layout(l.pairs + [pair], l.offsets + [end], l.shared + [shared], if restart then l.starts + [|l.pairs|] else l.starts)
  }

  lemma EntryAtFrame(data: Bytes, more: Bytes, p: nat, end: nat, before: Bytes, shared: nat, pair: Pair)
    requires EntryAt(data, p, end, before, shared, pair)
    ensures EntryAt(data + more, p, end, before, shared, pair)
  {
    assert (data + more)[p..end] == data[p..end];
  }

  lemma ExtendedEntry(data: Bytes, pairs: seq<Pair>, offsets: seq<nat>, shared: seq<nat>,
                      pair: Pair, s: nat, entry: Bytes, end: nat, i: nat)
    requires Entries(data, pairs, offsets, shared) && i < |pairs|
    ensures EntryOk(data + entry, pairs + [pair], offsets + [end], shared + [s], i)
  {
    assert EntryOk(data, pairs, offsets, shared, i);
    EntryAtFrame(data, entry, offsets[i], offsets[i + 1], KeyBefore(pairs, i), shared[i], pairs[i]);
  }

  lemma NewEntry(data: Bytes, before: Bytes, pair: Pair, shared: nat, entry: Bytes, end: nat)
    requires shared <= |pair.key| && |pair.key| < TWO_TO_THE_32 && |pair.value| < TWO_TO_THE_32
    requires shared <= |before| && pair.key[..shared] == before[..shared]
    requires entry == EncodeEntry(shared, pair.key[shared..], pair.value) && end == |data| + |entry|
    ensures EntryAt(data + entry, |data|, end, before, shared, pair)
  {
    assert (data + entry)[|data|..end] == entry;
  }

  lemma ExtendedEntries(data: Bytes, pairs: seq<Pair>, offsets: seq<nat>, shared: seq<nat>,
                        pair: Pair, s: nat, entry: Bytes, end: nat)
    requires Entries(data, pairs, offsets, shared) && |data| < end == |data + entry|
    requires EntryAt(data + entry, |data|, end, KeyBefore(pairs, |pairs|), s, pair)
    ensures Entries(data + entry, pairs + [pair], offsets + [end], shared + [s])
  {
    forall i | 0 <= i <= |pairs|
      ensures EntryOk(data + entry, pairs + [pair], offsets + [end], shared + [s], i)
    {
      if i < |pairs| {
        ExtendedEntry(data, pairs, offsets, shared, pair, s, entry, end, i);
      }
    }
  }

  lemma ExtendedRestarts(l: Layout, pair: Pair, shared: nat, restart: bool, end: nat)
    requires Restarts(l) && |l.shared| == |l.pairs| && (restart ==> shared == 0 && l.pairs != [])
    requires l.pairs == [] ==> shared == 0
    ensures Restarts(Extended(l, pair, shared, restart, end))
  {
  }

  lemma ExtendedLaidOut(data: Bytes, l: Layout, pair: Pair, shared: nat, restart: bool, entry: Bytes, end: nat)
    requires LaidOut(data, l) && shared <= |pair.key| && |pair.key| < TWO_TO_THE_32 && |pair.value| < TWO_TO_THE_32
    requires var before := KeyBefore(l.pairs, |l.pairs|); shared <= |before| && pair.key[..shared] == before[..shared]
    requires entry == EncodeEntry(shared, pair.key[shared..], pair.value) && end == |data| + |entry|
    requires restart ==> shared == 0 && l.pairs != []
    ensures LaidOut(data + entry, Extended(l, pair, shared, restart, end))
  {
    NewEntry(data, KeyBefore(l.pairs, |l.pairs|), pair, shared, entry, end);
    ExtendedEntries(data, l.pairs, l.offsets, l.shared, pair, shared, entry, end);
    ExtendedRestarts(l, pair, shared, restart, end);
  }

  lemma RestartsGrow(l: Layout, pair: Pair, shared: nat, restart: bool, end: nat)
    requires |l.offsets| == |l.pairs| + 1 && forall j | 0 <= j < |l.starts| :: l.starts[j] < |l.offsets|
    ensures var l' := Extended(l, pair, shared, restart, end);
            RestartOffsets(l') == RestartOffsets(l) + if restart then [l.offsets[|l.pairs|]] else []
  {
  }

  /** A restart point after every `interval` entries, and no others. */
  ghost predicate Spaced(l: Layout, interval: nat) {
    && l.starts != [] && l.starts[0] == 0
    && (forall j | 0 < j < |l.starts| :: l.starts[j] == l.starts[j - 1] + interval)
    && |l.pairs| <= l.starts[|l.starts| - 1] + interval
    && (1 < |l.starts| ==> l.starts[|l.starts| - 1] < |l.pairs|)
  }

  /** The first `k` bytes are all that the keys have in common. */
  predicate Longest(a: Bytes, b: Bytes, k: nat) {
    k <= |a| && k <= |b| && a[..k] == b[..k] && (k == |a| || k == |b| || a[k] != b[k])
  }

  /** Every key but those at restart points leaves out all it shares with the one before. */
  ghost predicate SharesAll(l: Layout) {
    |l.shared| == |l.pairs|
    && forall i | 0 <= i < |l.pairs| && i !in l.starts :: Longest(KeyBefore(l.pairs, i), l.pairs[i].key, l.shared[i])
  }

  lemma ExtendedSpaced(l: Layout, pair: Pair, shared: nat, restart: bool, end: nat, interval: nat)
    requires Spaced(l, interval) && 1 <= interval
    requires restart <==> |l.pairs| == l.starts[|l.starts| - 1] + interval
    ensures Spaced(Extended(l, pair, shared, restart, end), interval)
  {
  }

  lemma ExtendedShares(l: Layout, pair: Pair, shared: nat, restart: bool, end: nat)
    requires SharesAll(l) && (!restart ==> Longest(KeyBefore(l.pairs, |l.pairs|), pair.key, shared))
    ensures SharesAll(Extended(l, pair, shared, restart, end))
  {
    var m := Extended(l, pair, shared, restart, end);
    forall i | 0 <= i < |m.pairs| && i !in m.starts
      ensures Longest(KeyBefore(m.pairs, i), m.pairs[i].key, m.shared[i])
    {
      if i < |l.pairs| {
        assert KeyBefore(m.pairs, i) == KeyBefore(l.pairs, i);
        assert forall j :: j in l.starts ==> j in m.starts;
      } else {
        assert restart ==> |l.pairs| in m.starts;
      }
    }
  }

  ghost predicate Built(interval: nat, buffer: Bytes, restarts: seq<nat>, counter: nat, lastKey: Bytes, l: Layout) {
    && 1 <= interval && counter <= interval && LaidOut(buffer, l) && Spaced(l, interval) && SharesAll(l)
    && restarts == RestartOffsets(l) && lastKey == KeyBefore(l.pairs, |l.pairs|)
    && counter == |l.pairs| - l.starts[|l.starts| - 1]
  }

  lemma AddKeepsBuilt(interval: nat, buffer: Bytes, restarts: seq<nat>, counter: nat, lastKey: Bytes, l: Layout,
                      pair: Pair, shared: nat, restart: bool, entry: Bytes,
                      buffer': Bytes, restarts': seq<nat>, counter': nat, lastKey': Bytes)
    requires Built(interval, buffer, restarts, counter, lastKey, l)
    requires |pair.key| < TWO_TO_THE_32 && |pair.value| < TWO_TO_THE_32
    requires restart <==> counter >= interval
    requires if restart then shared == 0 else Longest(lastKey, pair.key, shared)
    requires shared <= |pair.key| && entry == EncodeEntry(shared, pair.key[shared..], pair.value)
    requires buffer' == buffer + entry && lastKey' == pair.key
    requires restarts' == if restart then restarts + [|buffer|] else restarts
    requires counter' == if restart then 1 else counter + 1
    ensures Built(interval, buffer', restarts', counter', lastKey', Extended(l, pair, shared, restart, |buffer'|))
  {
    var end := |buffer'|;
    ExtendedLaidOut(buffer, l, pair, shared, restart, entry, end);
    RestartsGrow(l, pair, shared, restart, end);
    ExtendedSpaced(l, pair, shared, restart, end, interval);
    ExtendedShares(l, pair, shared, restart, end);
  }

  class BlockBuilder {
    const interval: nat
    var buffer: Bytes
    var restarts: seq<nat>
    var counter: nat
    var lastKey: Bytes
    ghost var layout: Layout

    ghost predicate Valid()
      reads this
    {
      Built(interval, buffer, restarts, counter, lastKey, layout)
    }

    constructor (interval: nat)
      requires 1 <= interval
      ensures Valid() && layout.pairs == [] && this.interval == interval
    {
      this.interval := interval;
      buffer, restarts, counter, lastKey := [], [0], 0, [];
      layout := Layout([], [0], [], [0]);
    }

    method SharedPrefix(key: Bytes) returns (shared: nat)
      ensures Longest(lastKey, key, shared)
    {
      var minLength := if |lastKey| < |key| then |lastKey| else |key|;
      shared := 0;
      while shared < minLength && lastKey[shared] == key[shared]
        invariant shared <= minLength && key[..shared] == lastKey[..shared]
      {
        shared := shared + 1;
      }
    }

    method EncodeDelta(shared: nat, key: Bytes, value: Bytes) returns (entry: Bytes)
      requires shared <= |key| && |key| < TWO_TO_THE_32 && |value| < TWO_TO_THE_32
      ensures entry == EncodeEntry(shared, key[shared..], value)
    {
      Varint32Unrolled(shared);
      Varint32Unrolled(|key| - shared);
      Varint32Unrolled(|value|);
      entry := EncodeVarint32(shared) + EncodeVarint32(|key| - shared) + EncodeVarint32(|value|);
      entry := entry + key[shared..] + value;
    }

    /** Lengths are stored in 32 bits. */
    method Add(key: Bytes, value: Bytes)
      requires Valid() && |key| < TWO_TO_THE_32 && |value| < TWO_TO_THE_32
      modifies this
      ensures Valid() && layout.pairs == old(layout.pairs) + [Pair(key, value)]
    {
      var shared := 0;
      var restart := counter >= interval;
      if !restart {
        shared := SharedPrefix(key);
      }
      var entry := EncodeDelta(shared, key, value);
      ghost var b, r, c, k, l := buffer, restarts, counter, lastKey, layout;
      if restart {
        restarts := restarts + [|buffer|];
        counter := 0;
      }
      buffer := buffer + entry;
      lastKey := lastKey[..shared] + key[shared..];
      assert lastKey == key[..shared] + key[shared..] == key;
      counter := counter + 1;
      layout := Extended(l, Pair(key, value), shared, restart, |buffer|);
      AddKeepsBuilt(interval, b, r, c, k, l, Pair(key, value), shared, restart, entry, buffer, restarts, counter, lastKey);
    }

    method AppendRestarts()
      modifies this`buffer
      ensures buffer == old(buffer) + EncodeWords(restarts + [|restarts|])
    {
      ghost var data := buffer;
      for i := 0 to |restarts|
        invariant buffer == data + EncodeWords(restarts[..i])
      {
        assert restarts[..i + 1][..i] == restarts[..i];
        buffer := buffer + PutFixed32(restarts[i]);
      }
      assert restarts[..|restarts|] == restarts == (restarts + [|restarts|])[..|restarts|];
      buffer := buffer + PutFixed32(|restarts|);
    }

    /** Main result: a finished block of under 4 GiB holds the pairs added, with a restart point after every `interval`
        of them and nothing stored twice that two neighbours share in between. */
    method Finish() returns (contents: Bytes)
      requires Valid()
      modifies this`buffer
      ensures |contents| < TWO_TO_THE_32 ==> IsBlock(contents, old(buffer), layout)
      ensures Spaced(layout, interval) && SharesAll(layout)
    {
      ghost var data, words := buffer, restarts + [|restarts|];
      AppendRestarts();
      contents := buffer;
      if |contents| < TWO_TO_THE_32 {
        RestartsFit(data, layout);
        EncodesWords(words);
        assert contents[|data|..] == EncodeWords(words);
      }
    }
  }

  lemma RestartsFit(data: Bytes, l: Layout)
    requires LaidOut(data, l)
    ensures forall j | 0 <= j < |l.starts| :: RestartOffsets(l)[j] <= |data|
  {
    forall j | 0 <= j < |l.starts|
      ensures RestartOffsets(l)[j] <= |data|
    {
      OffsetsRise(data, l.pairs, l.offsets, l.shared, l.starts[j], |l.pairs|);
    }
  }

  // ----- walking -----

  /** A parsed entry: its key, and where its value lies. */
  datatype Cell = Cell(key: Bytes, valueStart: nat, valueEnd: nat)

  function ParseCell(data: Bytes, limit: nat, before: Bytes, p: nat): (r: Option<Cell>)
    requires limit <= |data|
    ensures r.Some? ==> p < r.value.valueStart <= r.value.valueEnd <= limit
  {
    var d := DecodeEntry(data, p, limit);
    if d.None? || |before| < d.value.shared then None
    else
      var end := d.value.start + d.value.nonShared;
      Some(Cell(before[..d.value.shared] + data[d.value.start..end], end, end + d.value.valueLength))
  }

  lemma InWhole(data: Bytes, limit: nat, p: nat, e: Bytes)
    requires limit <= |data| && At(data[..limit], p, e)
    ensures At(data, p, e)
  {
    assert data[..limit][p..p + |e|] == data[p..p + |e|];
  }

  /** Entry `i` parses to its pair from any key that begins as the key before it does. */
  lemma ParsesCell(data: Bytes, limit: nat, before: Bytes, p: nat, end: nat, prev: Bytes, shared: nat, pair: Pair)
    requires limit <= |data| && EntryAt(data[..limit], p, end, prev, shared, pair) && end <= limit
    requires shared <= |before| && before[..shared] == prev[..shared]
    ensures var c := ParseCell(data, limit, before, p);
            c.Some? && c.value.key == pair.key && c.value.valueEnd == end && data[c.value.valueStart..end] == pair.value
  {
    var suffix := pair.key[shared..];
    InWhole(data, limit, p, EncodeEntry(shared, suffix, pair.value));
    var start := DecodesEntry(data, p, limit, shared, suffix, pair.value, end);
    assert pair.key == pair.key[..shared] + suffix;
  }

  ghost predicate Transitive(less: (Bytes, Bytes) -> bool) {
    forall a, b, c :: less(a, b) && less(b, c) ==> less(a, c)
  }

  ghost predicate Increasing(pairs: seq<Pair>, less: (Bytes, Bytes) -> bool) {
    forall i, j | 0 <= i < j < |pairs| :: less(pairs[i].key, pairs[j].key)
  }

  /** What an iterator walks: a block's bytes up to `limit`, and the restart array after them. */
  ghost predicate Walks(data: Bytes, limit: nat, count: nat, l: Layout) {
    && limit <= |data| && 0 < count == |l.starts| && LaidOut(data[..limit], l)
    && limit + 4 * count <= |data|
    && forall j | 0 <= j < count :: DecodeFixed32(data[limit + 4 * j..limit + 4 * j + 4]) == l.offsets[l.starts[j]]
  }

  lemma BlockWalks(contents: Bytes, data: Bytes, l: Layout)
    requires IsBlock(contents, data, l)
    ensures Walks(contents, |data|, |l.starts|, l)
  {
    var tail, words := contents[|data|..], RestartOffsets(l) + [|l.starts|];
    assert contents[..|data|] == data;
    forall j | 0 <= j < |l.starts|
      ensures DecodeFixed32(contents[|data| + 4 * j..|data| + 4 * j + 4]) == l.offsets[l.starts[j]]
    {
      assert contents[|data| + 4 * j..|data| + 4 * j + 4] == tail[4 * j..4 * j + 4];
      assert words[j] == l.offsets[l.starts[j]];
    }
  }

  lemma Rise(data: Bytes, limit: nat, count: nat, l: Layout, i: nat, j: nat)
    requires Walks(data, limit, count, l) && i <= j <= |l.pairs|
    ensures l.offsets[i] <= l.offsets[j] <= limit && (i < j ==> l.offsets[i] < l.offsets[j])
  {
    OffsetsRise(data[..limit], l.pairs, l.offsets, l.shared, i, j);
    OffsetsRise(data[..limit], l.pairs, l.offsets, l.shared, j, |l.pairs|);
  }

  ghost predicate SamePrefix(a: Bytes, b: Bytes, n: nat) {
    n <= |a| && n <= |b| && a[..n] == b[..n]
  }

  /** With a key that begins as the one before it does, entry `i` can be parsed. */
  ghost predicate CanParse(l: Layout, key: Bytes, i: nat) {
    i < |l.pairs| == |l.shared| ==> SamePrefix(key, KeyBefore(l.pairs, i), l.shared[i])
  }

  lemma WalkParses(data: Bytes, limit: nat, count: nat, l: Layout, key: Bytes, i: nat)
    requires Walks(data, limit, count, l) && i < |l.pairs| && CanParse(l, key, i)
    ensures l.offsets[i] < limit
    ensures var c := ParseCell(data, limit, key, l.offsets[i]);
            && c.Some? && c.value.key == l.pairs[i].key && c.value.valueEnd == l.offsets[i + 1]
            && data[c.value.valueStart..c.value.valueEnd] == l.pairs[i].value
  {
    Rise(data, limit, count, l, i, i + 1);
    assert EntryOk(data[..limit], l.pairs, l.offsets, l.shared, i);
    ParsesCell(data, limit, key, l.offsets[i], l.offsets[i + 1], KeyBefore(l.pairs, i), l.shared[i], l.pairs[i]);
  }

  lemma ParsesOn(data: Bytes, limit: nat, count: nat, l: Layout, i: nat)
    requires Walks(data, limit, count, l) && i < |l.pairs|
    ensures CanParse(l, l.pairs[i].key, i + 1)
  {
    if i + 1 < |l.pairs| {
      assert EntryOk(data[..limit], l.pairs, l.offsets, l.shared, i + 1);
    }
  }

  /** A restart point shares nothing, so it can be parsed from any key. */
  lemma ParsesAtRestart(l: Layout, j: nat, key: Bytes)
    requires Restarts(l) && j < |l.starts|
    ensures CanParse(l, key, l.starts[j])
  {
  }

  lemma RestartKeyReads(data: Bytes, limit: nat, count: nat, l: Layout, j: nat)
    requires Walks(data, limit, count, l) && j < count && l.starts[j] < |l.pairs|
    ensures var d := DecodeEntry(data, l.offsets[l.starts[j]], limit);
            && d.Some? && d.value.shared == 0
            && data[d.value.start..d.value.start + d.value.nonShared] == l.pairs[l.starts[j]].key
  {
    var i := l.starts[j];
    assert EntryOk(data[..limit], l.pairs, l.offsets, l.shared, i);
    assert l.shared[i] == 0;
    var pair := l.pairs[i];
    assert pair.key[0..] == pair.key;
    Rise(data, limit, count, l, i, i + 1);
    InWhole(data, limit, l.offsets[i], EncodeEntry(0, pair.key, pair.value));
    var start := DecodesEntry(data, l.offsets[i], limit, 0, pair.key, pair.value, l.offsets[i + 1]);
  }

  /** Finds the restart array at the end of a block: where it begins, and how long it is. */
  method OpenBlock(contents: Bytes, ghost data: Bytes, ghost l: Layout) returns (r: Option<(nat, nat)>)
    ensures IsBlock(contents, data, l) ==> r == Some((|data|, |l.starts|))
  {
    if IsBlock(contents, data, l) {
      LastWord(contents, data, l);
    }
    var size := |contents|;
    if size < 4 {
      return None;
    }
    var numRestarts := DecodeFixed32(contents[size - 4..]);
    if numRestarts > (size - 4) / 4 {
      return None;
    }
    return Some((size - (1 + numRestarts) * 4, numRestarts));
  }

  lemma LastWord(contents: Bytes, data: Bytes, l: Layout)
    requires IsBlock(contents, data, l)
    ensures |contents| == |data| + 4 * |l.starts| + 4 && DecodeFixed32(contents[|contents| - 4..]) == |l.starts|
  {
    var tail, words, n := contents[|data|..], RestartOffsets(l) + [|l.starts|], |l.starts|;
    assert contents[|contents| - 4..] == tail[4 * n..4 * n + 4];
    assert words[n] == n;
  }

  class Iter {
    const less: (Bytes, Bytes) -> bool
    const data: Bytes
    const restarts: nat
    const numRestarts: nat
    var current: nat
    var restartIndex: nat
    var key: Bytes
    var valueStart: nat
    var valueEnd: nat
    var corrupted: bool
    ghost const layout: Layout
    /** The entry it stands at. */
    ghost var pos: nat

    ghost predicate OnBlock() {
      Walks(data, restarts, numRestarts, layout)
    }

    ghost predicate InBounds()
      reads `valueStart, `valueEnd
    {
      0 < numRestarts && restarts + 4 * numRestarts <= |data| && valueStart <= valueEnd <= restarts
    }

    /** The restart point it counts from is not past entry `i`, and the next one is not before it. */
    ghost predicate CountsFrom(i: nat, last: bool)
      requires OnBlock()
      reads `restartIndex
    {
      && restartIndex < numRestarts && layout.starts[restartIndex] <= i
      && (last && restartIndex + 1 < numRestarts ==> i <= layout.starts[restartIndex + 1])
    }

    ghost predicate StandsAt(i: nat)
      requires OnBlock()
      reads this
    {
      && InBounds() && i < |layout.pairs| && current == layout.offsets[i] && key == layout.pairs[i].key
      && data[valueStart..valueEnd] == layout.pairs[i].value && valueEnd == layout.offsets[i + 1]
      && CountsFrom(i, true)
    }

    /** Parsing on will yield entry `i`. */
    ghost predicate Ready(i: nat)
      requires OnBlock()
      reads this
    {
      InBounds() && i <= |layout.pairs| && valueEnd == layout.offsets[i] && CountsFrom(i, false) && CanParse(layout, key, i)
    }

    ghost predicate Ok()
      reads this
    {
      && OnBlock() && InBounds() && !corrupted && pos <= |layout.pairs|
      && (if pos < |layout.pairs| then StandsAt(pos) else current == restarts)
    }

    predicate Valid()
      reads this
    {
      current < restarts
    }

    lemma ValidMeans()
      requires Ok()
      ensures Valid() <==> pos < |layout.pairs|
    {
      Rise(data, restarts, numRestarts, layout, pos, |layout.pairs|);
    }

    function Value(): Bytes
      requires InBounds()
      reads this
    {
      data[valueStart..valueEnd]
    }

    /** An iterator over the block `contents`, at no entry. */
    constructor (less: (Bytes, Bytes) -> bool, contents: Bytes, ghost entries: Bytes, ghost layout: Layout,
                 restarts: nat, numRestarts: nat)
      requires IsBlock(contents, entries, layout) && restarts == |entries| && numRestarts == |layout.starts|
      ensures Ok() && this.less == less && this.layout == layout && pos == |layout.pairs|
    {
      this.less, this.data, this.layout, this.restarts, this.numRestarts := less, contents, layout, restarts, numRestarts;
      current, restartIndex, corrupted, key, valueStart, valueEnd := restarts, numRestarts, false, [], 0, 0;
      pos := |layout.pairs|;
      new;
      BlockWalks(contents, entries, layout);
    }

    method GetRestartPoint(index: nat) returns (p: nat)
      requires index < numRestarts && restarts + 4 * numRestarts <= |data|
      ensures OnBlock() ==> p == layout.offsets[layout.starts[index]]
    {
      p := DecodeFixed32(data[restarts + 4 * index..restarts + 4 * index + 4]);
    }

    method CorruptionError()
      modifies this`current, this`restartIndex, this`key, this`valueStart, this`valueEnd, this`corrupted
      ensures current == restarts && corrupted && valueStart == valueEnd == 0
    {
      current, restartIndex, corrupted := restarts, numRestarts, true;
      key, valueStart, valueEnd := [], 0, 0;
    }

    lemma RestartOrder(j: nat, i: nat)
      requires OnBlock() && j < numRestarts && i < |layout.pairs|
      ensures layout.offsets[layout.starts[j]] < layout.offsets[i] <==> layout.starts[j] < i
    {
      var k := layout.starts[j];
      if i <= k {
        Rise(data, restarts, numRestarts, layout, i, k);
      } else {
        Rise(data, restarts, numRestarts, layout, k, i);
      }
    }

    /** Moves the restart index up to the last restart point before the current entry. */
    method CatchUp(ghost i: nat)
      requires restarts + 4 * numRestarts <= |data|
      modifies this`restartIndex
      ensures OnBlock() && i < |layout.pairs| && current == layout.offsets[i] && old(CountsFrom(i, false)) ==>
                CountsFrom(i, true)
    {
      ghost var counting := OnBlock() && i < |layout.pairs| && current == layout.offsets[i] && CountsFrom(i, false);
      while restartIndex + 1 < numRestarts
        invariant counting ==> CountsFrom(i, false)
      {
        var p := GetRestartPoint(restartIndex + 1);
        if counting {
          RestartOrder(restartIndex + 1, i);
        }
        if p >= current {
          break;
        }
        restartIndex := restartIndex + 1;
      }
    }

    method ParseNextKey(ghost i: nat) returns (ok: bool)
      requires InBounds()
      modifies this`current, this`restartIndex, this`key, this`valueStart, this`valueEnd, this`corrupted
      ensures InBounds()
      ensures OnBlock() && old(Ready(i)) ==> corrupted == old(corrupted) && ok == (i < |layout.pairs|)
      ensures OnBlock() && old(Ready(i)) && i < |layout.pairs| ==> StandsAt(i)
      ensures OnBlock() && old(Ready(i)) && i == |layout.pairs| ==> current == restarts
    {
      if OnBlock() && Ready(i) && i < |layout.pairs| {
        WalkParses(data, restarts, numRestarts, layout, key, i);
      }
      current := valueEnd;
      if current >= restarts {
        current, restartIndex := restarts, numRestarts;
        return false;
      }
      var c := ParseCell(data, restarts, key, current);
      if c.None? {
        CorruptionError();
        return false;
      }
      key, valueStart, valueEnd := c.value.key, c.value.valueStart, c.value.valueEnd;
      CatchUp(i);
      return true;
    }

    /** Moves from one entry to the next. */
    method Advance(ghost i: nat) returns (ok: bool)
      requires OnBlock() && StandsAt(i) && !corrupted
      modifies this
      ensures Ok() && pos == i + 1 && ok == (i + 1 < |layout.pairs|)
    {
      ParsesOn(data, restarts, numRestarts, layout, i);
      ok := ParseNextKey(i + 1);
      pos := i + 1;
    }

    /** Goes to a restart point and parses its entry. */
    method StartAt(index: nat) returns (ok: bool)
      requires OnBlock() && index < numRestarts && !corrupted
      modifies this
      ensures Ok() && pos == layout.starts[index] && ok == (pos < |layout.pairs|)
    {
      ghost var i := layout.starts[index];
      ParsesAtRestart(layout, index, []);
      Rise(data, restarts, numRestarts, layout, i, |layout.pairs|);
      key := [];
      restartIndex := index;
      var offset := GetRestartPoint(index);
      valueStart, valueEnd := offset, offset;
      ok := ParseNextKey(i);
      pos := i;
    }

    method SeekToFirst()
      requires Ok()
      modifies this
      ensures Ok() && pos == 0
    {
      var ok := StartAt(0);
    }

    method SeekToLast()
      requires Ok()
      modifies this
      ensures Ok() && pos == PreviousPosition(|layout.pairs|, |layout.pairs|)
    {
      var ok := StartAt(numRestarts - 1);
      while ok && valueEnd < restarts
        invariant Ok() && ok == (pos < |layout.pairs|) && (!ok ==> layout.pairs == [])
        decreases |layout.pairs| - pos
      {
        Rise(data, restarts, numRestarts, layout, pos + 1, |layout.pairs|);
        ok := Advance(pos);
      }
      if ok {
        Rise(data, restarts, numRestarts, layout, pos + 1, |layout.pairs|);
      }
    }

    method Next()
      requires Ok() && Valid()
      modifies this
      ensures Ok() && pos == old(pos) + 1
    {
      ValidMeans();
      var ok := Advance(pos);
    }

    /** The last restart point before the current entry, if there is one. */
    method RestartBefore() returns (found: bool)
      requires Ok() && pos < |layout.pairs|
      modifies this`restartIndex
      ensures found ==> restartIndex < numRestarts && layout.starts[restartIndex] < pos
      ensures !found ==> pos == 0
    {
      while true
        invariant OnBlock() && CountsFrom(pos, false)
        decreases restartIndex
      {
        RestartOrder(restartIndex, pos);
        var p := GetRestartPoint(restartIndex);
        if p < current {
          return true;
        }
        if restartIndex == 0 {
          return false;
        }
        restartIndex := restartIndex - 1;
        assert layout.starts[restartIndex] < layout.starts[restartIndex + 1];
      }
    }

    /** Back to a restart point before the entry, then forward to the entry just before it. */
    method Prev()
      requires Ok() && Valid()
      modifies this
      ensures Ok() && pos == PreviousPosition(|layout.pairs|, old(pos))
    {
      ValidMeans();
      var original := current;
      ghost var target := pos;
      var found := RestartBefore();
      if !found {
        current, restartIndex := restarts, numRestarts;
        pos := |layout.pairs|;
        return;
      }
      var ok := StartAt(restartIndex);
      while ok && valueEnd < original
        invariant Ok() && ok && pos < target < |layout.pairs| && original == layout.offsets[target]
        decreases target - pos
      {
        assert pos + 1 != target;
        ok := Advance(pos);
      }
      Rise(data, restarts, numRestarts, layout, pos + 1, target);
    }

    /** The key at a restart point. */
    method KeyAtRestart(index: nat) returns (k: Option<Bytes>)
      requires index < numRestarts && restarts + 4 * numRestarts <= |data|
      ensures OnBlock() && layout.starts[index] < |layout.pairs| ==> k == Some(layout.pairs[layout.starts[index]].key)
    {
      if OnBlock() && layout.starts[index] < |layout.pairs| {
        RestartKeyReads(data, restarts, numRestarts, layout, index);
      }
      var offset := GetRestartPoint(index);
      var d := DecodeEntry(data, offset, restarts);
      if d.None? || d.value.shared != 0 {
        return None;
      }
      return Some(data[d.value.start..d.value.start + d.value.nonShared]);
    }

    /** Binary search for the last restart point with a key before the target; the first will do if there is none. */
    method SearchRestarts(target: Bytes) returns (left: nat)
      requires OnBlock()
      ensures left < numRestarts
      ensures 0 < left ==> layout.starts[left] < |layout.pairs| && less(layout.pairs[layout.starts[left]].key, target)
    {
      left := 0;
      var right := numRestarts - 1;
      while left < right
        invariant 0 <= left <= right < numRestarts
        invariant 0 < left ==> layout.starts[left] < |layout.pairs| && less(layout.pairs[layout.starts[left]].key, target)
      {
        var mid := (left + right + 1) / 2;
        assert layout.starts[0] < layout.starts[mid];
        var midKey := KeyAtRestart(mid);
        if midKey.None? {
          // A restart point of a block built here always decodes, and shares nothing.
          assert false;
        }
        if less(midKey.value, target) {
          left := mid;
        } else {
          right := mid - 1;
        }
      }
    }

    /** The linear scan from a restart point. */
    method ScanFrom(left: nat, target: Bytes)
      requires Ok() && left < numRestarts
      requires forall k | 0 <= k < layout.starts[left] && k < |layout.pairs| :: less(layout.pairs[k].key, target)
      modifies this
      ensures Ok()
      ensures forall k | 0 <= k < pos :: less(layout.pairs[k].key, target)
      ensures pos < |layout.pairs| ==> !less(layout.pairs[pos].key, target)
    {
      var ok := StartAt(left);
      while ok && less(key, target)
        invariant Ok() && ok == (pos < |layout.pairs|)
        invariant forall k | 0 <= k < pos :: less(layout.pairs[k].key, target)
        decreases |layout.pairs| - pos
      {
        ok := Advance(pos);
      }
    }

    /** Lands on the first key that is not before the target. */
    method Seek(target: Bytes)
      requires Ok() && Transitive(less) && Increasing(layout.pairs, less)
      modifies this
      ensures Ok()
      ensures forall k | 0 <= k < pos :: less(layout.pairs[k].key, target)
      ensures pos < |layout.pairs| ==> !less(layout.pairs[pos].key, target)
    {
      var left := SearchRestarts(target);
      AllBefore(layout.pairs, less, target, layout.starts[left]);
      ScanFrom(left, target);
    }
  }

  lemma AllBefore(pairs: seq<Pair>, less: (Bytes, Bytes) -> bool, target: Bytes, i: nat)
    requires Transitive(less) && Increasing(pairs, less)
    requires 0 < i ==> i < |pairs| && less(pairs[i].key, target)
    ensures forall k | 0 <= k < i :: less(pairs[k].key, target)
  {
    forall k | 0 <= k < i
      ensures less(pairs[k].key, target)
    {
      assert less(pairs[k].key, pairs[i].key);
    }
  }
}
