/** The layout of a block (table/block_builder.cc, table/block.cc): prefix-compressed entries, then the restart array. */
module BlockFormat {
  import opened DbFormat
  import opened Coding
  import opened Streams

  datatype Pair = Pair(key: Bytes, value: Bytes)

  // ----- one entry -----

  function EntryHeader(shared: uint32, nonShared: uint32, valueLength: uint32): (h: Bytes)
    ensures 3 <= |h|
  {
    Varint(shared) + Varint(nonShared) + Varint(valueLength)
  }

  function EncodeEntry(shared: uint32, suffix: Bytes, value: Bytes): Bytes
    requires |suffix| < TWO_TO_THE_32 && |value| < TWO_TO_THE_32
  {
    EntryHeader(shared, |suffix|, |value|) + suffix + value
  }

  /** `start` is where the key's own bytes begin. */
  datatype Decoded = Decoded(shared: nat, nonShared: nat, valueLength: nat, start: nat)

  function DecodeLengths(b: Bytes, p: nat, limit: nat): (r: Option<Decoded>)
    requires p + 3 <= limit <= |b|
    ensures r.Some? ==> p < r.value.start <= limit
  {
    if b[p] < 0x80 && b[p + 1] < 0x80 && b[p + 2] < 0x80 then
      Some(Decoded(b[p] as nat, b[p + 1] as nat, b[p + 2] as nat, p + 3))
    else
      var shared := GetVarint32(b, p, limit);
      if shared.None? then None
      else
        var nonShared := GetVarint32(b, shared.value.next, limit);
        if nonShared.None? then None
        else
          var valueLength := GetVarint32(b, nonShared.value.next, limit);
          if valueLength.None? then None
          else Some(Decoded(shared.value.value, nonShared.value.value, valueLength.value.value, valueLength.value.next))
  }

  function DecodeEntry(b: Bytes, p: nat, limit: nat): (r: Option<Decoded>)
    requires limit <= |b|
    ensures r.Some? ==> p < r.value.start && r.value.start + r.value.nonShared + r.value.valueLength <= limit
  {
    if limit < p + 3 then None
    else
      var r := DecodeLengths(b, p, limit);
      if r.None? || limit - r.value.start < r.value.nonShared + r.value.valueLength then None else r
  }

  lemma ThreeParts(b: Bytes, p: nat, x: Bytes, y: Bytes, z: Bytes, q: nat, r: nat)
    requires At(b, p, x + y + z) && q == p + |x| && r == q + |y|
    ensures At(b, p, x) && At(b, q, y) && At(b, r, z)
  {
    AtSplit(b, p, x + y, z);
    AtSplit(b, p, x, y);
  }

  lemma ReadsVarint(b: Bytes, p: nat, limit: nat, v: uint32, next: nat)
    requires next == p + |Varint(v)| && next <= limit <= |b| && At(b, p, Varint(v))
    ensures GetVarint32(b, p, limit) == Some(Parsed(v, next))
    ensures b[p] < 0x80 <==> v < 0x80
    ensures v < 0x80 ==> b[p] as nat == v && next == p + 1
  {
    Varint32Unrolled(v);
    Varint32RoundTrip(b, p, limit, v, next);
    assert b[p] == b[p..next][0];
  }

  /** The fast path for three short lengths and the general one read the same header alike. */
  lemma DecodesLengths(b: Bytes, p: nat, limit: nat, x: uint32, y: uint32, z: uint32, start: nat)
    requires start == p + |EntryHeader(x, y, z)| && start <= limit <= |b| && At(b, p, EntryHeader(x, y, z))
    ensures DecodeLengths(b, p, limit) == Some(Decoded(x, y, z, start))
  {
    var q := p + |Varint(x)|;
    var r := q + |Varint(y)|;
    ThreeParts(b, p, Varint(x), Varint(y), Varint(z), q, r);
    ReadsVarint(b, p, limit, x, q);
    ReadsVarint(b, q, limit, y, r);
    ReadsVarint(b, r, limit, z, start);
  }

  lemma DecodesEntry(b: Bytes, p: nat, limit: nat, shared: uint32, suffix: Bytes, value: Bytes, end: nat) returns (start: nat)
    requires |suffix| < TWO_TO_THE_32 && |value| < TWO_TO_THE_32
    requires end == p + |EncodeEntry(shared, suffix, value)| && end <= limit <= |b| && At(b, p, EncodeEntry(shared, suffix, value))
    ensures DecodeEntry(b, p, limit) == Some(Decoded(shared, |suffix|, |value|, start))
    ensures end == start + |suffix| + |value| && At(b, start, suffix) && At(b, start + |suffix|, value)
  {
    var h := EntryHeader(shared, |suffix|, |value|);
    start := p + |h|;
    AtSplit(b, p, h + suffix, value);
    AtSplit(b, p, h, suffix);
    DecodesLengths(b, p, limit, shared, |suffix|, |value|, start);
  }

  // ----- a block's entries -----

  /** Where the entries of a block lie: entry `i` at offsets[i], sharing shared[i] bytes with the key before it; restart
      point `j` is entry starts[j]. */
  datatype Layout = Layout(pairs: seq<Pair>, offsets: seq<nat>, shared: seq<nat>, starts: seq<nat>)

  function KeyBefore(pairs: seq<Pair>, i: nat): Bytes
    requires i <= |pairs|
  {
    if i == 0 then [] else pairs[i - 1].key
  }

  ghost predicate EntryAt(data: Bytes, p: nat, end: nat, before: Bytes, shared: nat, pair: Pair) {
    && shared <= |pair.key| && shared <= |before| && pair.key[..shared] == before[..shared]
    && |pair.key| < TWO_TO_THE_32 && |pair.value| < TWO_TO_THE_32
    && end == p + |EncodeEntry(shared, pair.key[shared..], pair.value)|
    && At(data, p, EncodeEntry(shared, pair.key[shared..], pair.value))
  }

  ghost predicate EntryOk(data: Bytes, pairs: seq<Pair>, offsets: seq<nat>, shared: seq<nat>, i: nat)
    requires i < |pairs| == |shared| && |offsets| == |pairs| + 1
  {
    EntryAt(data, offsets[i], offsets[i + 1], KeyBefore(pairs, i), shared[i], pairs[i])
  }

  ghost predicate Entries(data: Bytes, pairs: seq<Pair>, offsets: seq<nat>, shared: seq<nat>) {
    && |offsets| == |pairs| + 1 && |shared| == |pairs|
    && offsets[0] == 0 && offsets[|pairs|] == |data|
    && (forall i | 0 <= i < |pairs| :: EntryOk(data, pairs, offsets, shared, i))
  }

  ghost predicate Restarts(l: Layout) {
    && |l.starts| > 0 && l.starts[0] == 0
    && (forall j | 0 <= j < |l.starts| :: l.starts[j] < |l.pairs| || l.starts[j] == |l.pairs| == 0)
    && (forall j, k | 0 <= j < k < |l.starts| :: l.starts[j] < l.starts[k])
    && (forall j | 0 <= j < |l.starts| && l.starts[j] < |l.shared| :: l.shared[l.starts[j]] == 0)
  }

  lemma {:induction false} OffsetsRise(data: Bytes, pairs: seq<Pair>, offsets: seq<nat>, shared: seq<nat>, i: nat, j: nat)
    requires Entries(data, pairs, offsets, shared) && i <= j <= |pairs|
    ensures offsets[i] <= offsets[j] && (i < j ==> offsets[i] < offsets[j])
    decreases j
  {
    if i < j {
      OffsetsRise(data, pairs, offsets, shared, i, j - 1);
      assert EntryOk(data, pairs, offsets, shared, j - 1);
    }
  }

  ghost predicate LaidOut(data: Bytes, l: Layout) {
    Entries(data, l.pairs, l.offsets, l.shared) && Restarts(l)
  }

  function RestartOffsets(l: Layout): seq<nat>
    requires forall j | 0 <= j < |l.starts| :: l.starts[j] < |l.offsets|
  {
    seq(|l.starts|, j requires 0 <= j < |l.starts| => l.offsets[l.starts[j]])
  }

  /** A finished block: its entries, then the restart array and its length. */
  ghost predicate IsBlock(contents: Bytes, data: Bytes, l: Layout) {
    && LaidOut(data, l) && data <= contents
    && Words(contents[|data|..], RestartOffsets(l) + [|l.starts|])
  }
}
