/** The filter block of a table (table/filter_block.cc): one Bloom filter for every 2 KiB of file offsets. */
module FilterBlock {
  import opened DbFormat
  import opened Coding
  import opened Bloom

  const FILTER_BASE_LG: nat := 11
  const FILTER_BASE: nat := 2048

  /** A key added while the block at `offset` was being built. */
  datatype Added = Added(offset: nat, key: Bytes)

  // ----- flattened keys -----

  ghost predicate Flat(keys: Bytes, start: seq<nat>) {
    && (forall i | 0 <= i < |start| :: start[i] <= |keys|)
    && (forall i, j | 0 <= i <= j < |start| :: start[i] <= start[j])
  }

  function KeyAt(keys: Bytes, start: seq<nat>, i: nat): Bytes
    requires i < |start| && start[i] <= |keys|
    requires i + 1 < |start| ==> start[i] <= start[i + 1] <= |keys|
  {
    keys[start[i]..if i + 1 < |start| then start[i + 1] else |keys|]
  }

  lemma AppendKey(keys: Bytes, start: seq<nat>, key: Bytes)
    requires Flat(keys, start)
    ensures Flat(keys + key, start + [|keys|])
    ensures forall i | 0 <= i < |start| :: KeyAt(keys + key, start + [|keys|], i) == KeyAt(keys, start, i)
    ensures KeyAt(keys + key, start + [|keys|], |start|) == key
  {
    var keys', start' := keys + key, start + [|keys|];
    forall i | 0 <= i < |start|
      ensures KeyAt(keys', start', i) == KeyAt(keys, start, i)
    {
      var end := if i + 1 < |start| then start[i + 1] else |keys|;
      assert keys'[start[i]..end] == keys[start[i]..end];
    }
    assert keys'[|keys|..] == key;
  }

  // ----- filters in a row -----

  ghost predicate Offsets(offsets: seq<nat>, size: nat) {
    && (forall i | 0 <= i < |offsets| :: offsets[i] <= size)
    && (forall i, j | 0 <= i <= j < |offsets| :: offsets[i] <= offsets[j])
  }

  /** Filter `i` among the filters laid end to end in `data`. */
  function FilterAt(data: Bytes, offsets: seq<nat>, i: nat): Bytes
    requires i < |offsets| && offsets[i] <= |data|
    requires i + 1 < |offsets| ==> offsets[i] <= offsets[i + 1] <= |data|
  {
    data[offsets[i]..if i + 1 < |offsets| then offsets[i + 1] else |data|]
  }

  lemma AppendFilter(data: Bytes, offsets: seq<nat>, more: Bytes)
    requires Offsets(offsets, |data|)
    ensures Offsets(offsets + [|data|], |data + more|)
    ensures forall i | 0 <= i < |offsets| :: FilterAt(data + more, offsets + [|data|], i) == FilterAt(data, offsets, i)
    ensures FilterAt(data + more, offsets + [|data|], |offsets|) == more
  {
    AppendKey(data, offsets, more);
    forall i | 0 <= i < |offsets|
      ensures FilterAt(data + more, offsets + [|data|], i) == FilterAt(data, offsets, i)
    {
      assert FilterAt(data + more, offsets + [|data|], i) == KeyAt(data + more, offsets + [|data|], i);
    }
  }

  /** The whole block: filters, their offsets, where the offsets begin, and the log of the base. */
  function Block(filters: Bytes, offsets: seq<nat>): Bytes {
    filters + EncodeWords(offsets + [|filters|]) + [FILTER_BASE_LG as byte]
  }

  // ----- the reader -----

  /** What a reader takes a block to be. */
  datatype Layout = Layout(data: Bytes, offsets: Bytes, num: nat, baseLg: nat) {
    predicate Valid() {
      0 < num ==> 4 * num + 4 <= |offsets|
    }

    function OffsetAt(i: nat): uint32
      requires Valid() && i <= num && 0 < num
    {
      DecodeFixed32(offsets[4 * i..4 * i + 4])
    }
  }

  function LayoutOf(contents: Bytes): (l: Layout)
    ensures l.Valid()
  {
    var n := |contents|;
    if n < 5 then Layout([], [], 0, 0)
    else
      var lastWord := DecodeFixed32(contents[n - 5..n - 1]);
      if n - 5 < lastWord then Layout([], [], 0, contents[n - 1] as nat)
      else Layout(contents[..lastWord], contents[lastWord..], (n - 5 - lastWord) / 4, contents[n - 1] as nat)
  }

  /** `blockOffset >> baseLg` */
  function FilterIndex(blockOffset: nat, baseLg: nat): nat {
    if baseLg == 0 then blockOffset else FilterIndex(blockOffset / 2, baseLg - 1)
  }

  lemma ShiftBy11(o: nat)
    ensures FilterIndex(o, FILTER_BASE_LG) == o / FILTER_BASE
  {
    assert FilterIndex(o, 11) == FilterIndex(o / 4, 9) && o / 2 / 2 == o / 4;
    assert FilterIndex(o / 4, 9) == FilterIndex(o / 16, 7) && o / 4 / 2 / 2 == o / 16;
    assert FilterIndex(o / 16, 7) == FilterIndex(o / 64, 5) && o / 16 / 2 / 2 == o / 64;
    assert FilterIndex(o / 64, 5) == FilterIndex(o / 256, 3) && o / 64 / 2 / 2 == o / 256;
    assert FilterIndex(o / 256, 3) == FilterIndex(o / 1024, 1) && o / 256 / 2 / 2 == o / 1024;
    assert FilterIndex(o / 1024, 1) == o / 1024 / 2 == o / 2048;
  }

  lemma LayoutReads(filters: Bytes, tail: Bytes, offsets: seq<nat>)
    requires Words(tail, offsets + [|filters|])
    ensures LayoutOf(filters + tail + [FILTER_BASE_LG as byte])
         == Layout(filters, tail + [FILTER_BASE_LG as byte], |offsets|, FILTER_BASE_LG)
  {
    var n, b := |offsets|, filters + tail + [FILTER_BASE_LG as byte];
    assert (offsets + [|filters|])[n] == |filters|;
    assert b[|b| - 5..|b| - 1] == tail[4 * n..4 * n + 4];
    assert b[..|filters|] == filters && b[|filters|..] == tail + [FILTER_BASE_LG as byte];
  }

  lemma BlockReads(filters: Bytes, offsets: seq<nat>) returns (tail: Bytes)
    requires |filters| < TWO_TO_THE_32 && forall i | 0 <= i < |offsets| :: offsets[i] < TWO_TO_THE_32
    ensures Words(tail, offsets + [|filters|])
    ensures LayoutOf(Block(filters, offsets)) == Layout(filters, tail + [FILTER_BASE_LG as byte], |offsets|, FILTER_BASE_LG)
  {
    tail := EncodeWords(offsets + [|filters|]);
    EncodesWords(offsets + [|filters|]);
    LayoutReads(filters, tail, offsets);
  }

  lemma OffsetAtReads(l: Layout, tail: Bytes, words: seq<nat>, i: nat)
    requires Words(tail, words) && l.offsets == tail + [FILTER_BASE_LG as byte] && l.num + 1 == |words|
    requires i <= l.num && 0 < l.num
    ensures l.OffsetAt(i) == words[i]
  {
    assert (tail + [FILTER_BASE_LG as byte])[4 * i..4 * i + 4] == tail[4 * i..4 * i + 4];
  }

  ghost predicate MayMatch(hash: Hash, l: Layout, blockOffset: nat, key: Bytes)
    requires l.Valid()
  {
    var index := FilterIndex(blockOffset, l.baseLg);
    index < l.num ==>
      var start, limit := l.OffsetAt(index), l.OffsetAt(index + 1);
      if start <= limit <= |l.data| then Matches(hash, key, l.data[start..limit]) else start != limit
  }

  class FilterBlockReader {
    const policy: BloomFilterPolicy
    const layout: Layout

    constructor (policy: BloomFilterPolicy, contents: Bytes)
      ensures this.policy == policy && layout == LayoutOf(contents)
    {
      this.policy := policy;
      var n := |contents|;
      var l := Layout([], [], 0, 0);
      if 5 <= n {
        l := l.(baseLg := contents[n - 1] as nat);
        var lastWord := DecodeFixed32(contents[n - 5..n - 1]);
        if lastWord <= n - 5 {
          l := l.(data := contents[..lastWord], offsets := contents[lastWord..], num := (n - 5 - lastWord) / 4);
        }
      }
      layout := l;
    }

    method KeyMayMatch(blockOffset: nat, key: Bytes) returns (r: bool)
      requires layout.Valid()
      ensures r <==> MayMatch(policy.hash, layout, blockOffset, key)
    {
      var index := FilterIndex(blockOffset, layout.baseLg);
      if index < layout.num {
        var start, limit := layout.OffsetAt(index), layout.OffsetAt(index + 1);
        if start <= limit <= |layout.data| {
          r := policy.KeyMayMatch(key, layout.data[start..limit]);
          return;
        } else if start == limit {
          return false;
        }
      }
      return true;
    }
  }

  /** The filter consulted for an offset is the one at that 2 KiB of the file. */
  lemma ConsultsFilter(hash: Hash, filters: Bytes, offsets: seq<nat>, blockOffset: nat, key: Bytes)
    requires |filters| < TWO_TO_THE_32 && Offsets(offsets, |filters|) && blockOffset / FILTER_BASE < |offsets|
    ensures MayMatch(hash, LayoutOf(Block(filters, offsets)), blockOffset, key)
       <==> Matches(hash, key, FilterAt(filters, offsets, blockOffset / FILTER_BASE))
  {
    var index := blockOffset / FILTER_BASE;
    ShiftBy11(blockOffset);
    var tail := BlockReads(filters, offsets);
    var l := LayoutOf(Block(filters, offsets));
    OffsetAtReads(l, tail, offsets + [|filters|], index);
    OffsetAtReads(l, tail, offsets + [|filters|], index + 1);
  }

  // ----- the builder -----

  /** The keys added for one 2 KiB of the file. */
  ghost function KeysAt(added: seq<Added>, index: nat): seq<Bytes> {
    if added == [] then []
    else
      var a := added[|added| - 1];
      KeysAt(added[..|added| - 1], index) + if a.offset / FILTER_BASE == index then [a.key] else []
  }

  lemma KeysAtAppend(added: seq<Added>, a: Added, index: nat)
    ensures KeysAt(added + [a], index) == KeysAt(added, index) + if a.offset / FILTER_BASE == index then [a.key] else []
  {
    assert (added + [a])[..|added|] == added;
  }

  lemma {:induction false} AddedIsThere(added: seq<Added>, m: nat, index: nat) returns (i: nat)
    requires m < |added| && index == added[m].offset / FILTER_BASE
    ensures i < |KeysAt(added, index)| && KeysAt(added, index)[i] == added[m].key
  {
    var n := |added| - 1;
    if m == n {
      i := |KeysAt(added[..n], index)|;
    } else {
      i := AddedIsThere(added[..n], m, index);
    }
  }

  /** The filter of some keys: nothing at all when there are none. */
  ghost predicate FilterOf(policy: BloomFilterPolicy, ks: seq<Bytes>, filter: Bytes) {
    if ks == [] then filter == [] else IsFilter(policy.hash, policy.k, ks, policy.FilterBytes(|ks|), filter)
  }

  /** What a filter block answers for the keys added in the 2 KiB of an offset: no key matches if there are none, and
      otherwise just those that the filter of them cannot tell from them. */
  ghost predicate Answers(policy: BloomFilterPolicy, ks: seq<Bytes>, key: Bytes) {
    ks != [] && Admitted(policy.hash, policy.k, ks, policy.FilterBytes(|ks|), key)
  }

  lemma FilterAnswers(policy: BloomFilterPolicy, ks: seq<Bytes>, filter: Bytes, key: Bytes)
    requires 1 <= policy.k <= 30 && FilterOf(policy, ks, filter)
    ensures Matches(policy.hash, key, filter) <==> Answers(policy, ks, key)
  {
    if ks != [] {
      MatchesExactly(policy.hash, policy.k, ks, policy.FilterBytes(|ks|), filter, key);
    }
  }

  ghost predicate Filters(policy: BloomFilterPolicy, added: seq<Added>, data: Bytes, offsets: seq<nat>)
    requires Offsets(offsets, |data|)
  {
    forall i | 0 <= i < |offsets| :: FilterOf(policy, KeysAt(added, i), FilterAt(data, offsets, i))
  }

  /** The flattened keys are those of the filter to come, and no key was added beyond that. */
  ghost predicate Pending(added: seq<Added>, keys: Bytes, start: seq<nat>, index: nat)
    requires Flat(keys, start)
  {
    && |start| == |KeysAt(added, index)|
    && (forall i | 0 <= i < |start| :: KeyAt(keys, start, i) == KeysAt(added, index)[i])
    && forall m | 0 <= m < |added| :: added[m].offset / FILTER_BASE <= index
  }

  lemma {:induction false} NoneBeyond(added: seq<Added>, index: nat)
    requires forall m | 0 <= m < |added| :: added[m].offset / FILTER_BASE < index
    ensures KeysAt(added, index) == []
  {
    if added != [] {
      NoneBeyond(added[..|added| - 1], index);
    }
  }

  lemma NonePending(added: seq<Added>, keys: Bytes, start: seq<nat>, index: nat, next: nat)
    requires Flat(keys, start) && Pending(added, keys, start, index) && next == index + 1
    ensures KeysAt(added, next) == [] && Pending(added, [], [], next)
    ensures start == [] ==> KeysAt(added, index) == [] && Pending(added, keys, start, next)
  {
    NoneBeyond(added, next);
  }

  ghost predicate Built(policy: BloomFilterPolicy, added: seq<Added>, keys: Bytes, start: seq<nat>, data: Bytes,
                        offsets: seq<nat>)
  {
    && 1 <= policy.k <= 30 && Flat(keys, start) && Offsets(offsets, |data|)
    && Filters(policy, added, data, offsets) && Pending(added, keys, start, |offsets|)
  }

  lemma NextFilter(policy: BloomFilterPolicy, added: seq<Added>, keys: Bytes, start: seq<nat>, data: Bytes,
                   offsets: seq<nat>, more: Bytes, keys': Bytes, data': Bytes, offsets': seq<nat>)
    requires Built(policy, added, keys, start, data, offsets) && FilterOf(policy, KeysAt(added, |offsets|), more)
    requires if start == [] then keys' == keys else keys' == []
    requires data' == data + more && offsets' == offsets + [|data|]
    ensures Built(policy, added, keys', [], data', offsets')
  {
    AppendFilter(data, offsets, more);
    NonePending(added, keys, start, |offsets|, |offsets'|);
  }

  lemma KeyPending(policy: BloomFilterPolicy, added: seq<Added>, a: Added, keys: Bytes, start: seq<nat>, index: nat,
                   data: Bytes, offsets: seq<nat>)
    requires Flat(keys, start) && Pending(added, keys, start, index) && a.offset / FILTER_BASE == index == |offsets|
    requires Offsets(offsets, |data|) && Filters(policy, added, data, offsets)
    ensures Flat(keys + a.key, start + [|keys|]) && Pending(added + [a], keys + a.key, start + [|keys|], index)
    ensures Filters(policy, added + [a], data, offsets)
  {
    AppendKey(keys, start, a.key);
    KeysAtAppend(added, a, index);
    forall i | 0 <= i < |offsets|
      ensures KeysAt(added + [a], i) == KeysAt(added, i)
    {
      KeysAtAppend(added, a, i);
    }
  }

  class FilterBlockBuilder {
    const policy: BloomFilterPolicy
    var keys: Bytes
    var start: seq<nat>
    var result: Bytes
    var filterOffsets: seq<nat>
    /** Every key added, and the offset of the block being built. */
    ghost var added: seq<Added>
    ghost var blockOffset: nat

    ghost predicate Valid()
      reads this
    {
      Built(policy, added, keys, start, result, filterOffsets)
    }

    /** The block being built belongs to the filter to come. */
    ghost predicate Started()
      reads this
    {
      blockOffset / FILTER_BASE == |filterOffsets|
    }

    constructor (policy: BloomFilterPolicy)
      requires 1 <= policy.k <= 30
      ensures Valid() && this.policy == policy && added == [] && blockOffset == 0 && Started()
    {
      this.policy := policy;
      keys, start, result, filterOffsets, added, blockOffset := [], [], [], [], [], 0;
    }

    /** The list of keys from their flattened form. */
    method Keys() returns (tmpKeys: seq<Bytes>)
      requires Valid()
      ensures tmpKeys == KeysAt(added, |filterOffsets|)
    {
      tmpKeys := [];
      for i := 0 to |start|
        invariant |tmpKeys| == i && forall j | 0 <= j < i :: tmpKeys[j] == KeyAt(keys, start, j)
      {
        tmpKeys := tmpKeys + [KeyAt(keys, start, i)];
      }
    }

    method CreateInto(tmpKeys: seq<Bytes>) returns (ghost more: Bytes)
      requires 1 <= policy.k <= 30 && tmpKeys != []
      modifies this`result
      ensures result == old(result) + more && FilterOf(policy, tmpKeys, more)
    {
      ghost var result0 := result;
      result := policy.CreateFilter(tmpKeys, result);
      more := result[|result0|..];
      assert result == result0 + more;
    }

    method GenerateFilter()
      requires Valid()
      modifies this`keys, this`start, this`result, this`filterOffsets
      ensures Valid() && start == [] && |filterOffsets| == |old(filterOffsets)| + 1
    {
      ghost var keys0, start0, result0, offsets0, more := keys, start, result, filterOffsets, [];
      if start == [] {
        filterOffsets := filterOffsets + [|result|];
      } else {
        var tmpKeys := Keys();
        filterOffsets := filterOffsets + [|result|];
        more := CreateInto(tmpKeys);
        keys, start := [], [];
      }
      assert result == result0 + more;
      NextFilter(policy, added, keys0, start0, result0, offsets0, more, keys, result, filterOffsets);
    }

    /** Data blocks are started at growing offsets. */
    method StartBlock(offset: nat)
      requires Valid() && |filterOffsets| <= offset / FILTER_BASE
      modifies this
      ensures Valid() && Started() && blockOffset == offset && added == old(added)
    {
      var filterIndex := offset / FILTER_BASE;
      while filterIndex > |filterOffsets|
        invariant Valid() && |filterOffsets| <= filterIndex && added == old(added)
        decreases filterIndex - |filterOffsets|
      {
        GenerateFilter();
      }
      blockOffset := offset;
    }

    method AddKey(key: Bytes)
      requires Valid() && Started()
      modifies this
      ensures Valid() && Started() && blockOffset == old(blockOffset) && added == old(added) + [Added(blockOffset, key)]
    {
      KeyPending(policy, added, Added(blockOffset, key), keys, start, |filterOffsets|, result, filterOffsets);
      start := start + [|keys|];
      keys := keys + key;
      added := added + [Added(blockOffset, key)];
    }

    method AppendOffsets()
      modifies this`result
      ensures result == old(result) + EncodeWords(filterOffsets + [|old(result)|])
    {
      var arrayOffset := |result|;
      ghost var filters := result;
      for i := 0 to |filterOffsets|
        invariant result == filters + EncodeWords(filterOffsets[..i])
      {
        assert filterOffsets[..i + 1][..i] == filterOffsets[..i];
        result := result + PutFixed32(filterOffsets[i]);
      }
      assert filterOffsets[..|filterOffsets|] == filterOffsets == (filterOffsets + [arrayOffset])[..|filterOffsets|];
      result := result + PutFixed32(arrayOffset);
    }

    /** Main result: the finished block answers for every key and every offset that has a filter exactly what the keys
        added in that 2 KiB of the file make of it; every key added has a filter, and matches it. */
    method Finish() returns (contents: Bytes)
      requires Valid()
      modifies this
      ensures added == old(added) && forall m | 0 <= m < |added| :: added[m].offset / FILTER_BASE < |filterOffsets|
      ensures |contents| < TWO_TO_THE_32 ==>
                forall offset: nat, key | offset / FILTER_BASE < |filterOffsets| ::
                  MayMatch(policy.hash, LayoutOf(contents), offset, key)
                  <==> Answers(policy, KeysAt(added, offset / FILTER_BASE), key)
      ensures |contents| < TWO_TO_THE_32 ==>
                forall m | 0 <= m < |added| :: MayMatch(policy.hash, LayoutOf(contents), added[m].offset, added[m].key)
    {
      if start != [] {
        GenerateFilter();
      }
      ghost var filters := result;
      AppendOffsets();
      contents := result + [FILTER_BASE_LG as byte];
      assert contents == Block(filters, filterOffsets);
      AllBelow(added, keys, start, |filterOffsets|);
      if |contents| < TWO_TO_THE_32 {
        BlockAnswers(policy, added, filters, filterOffsets);
        EveryKeyMatches(policy, added, filters, filterOffsets);
      }
    }
  }

  lemma AllBelow(added: seq<Added>, keys: Bytes, start: seq<nat>, index: nat)
    requires Flat(keys, start) && Pending(added, keys, start, index) && start == []
    ensures forall m | 0 <= m < |added| :: added[m].offset / FILTER_BASE < index
  {
    forall m | 0 <= m < |added|
      ensures added[m].offset / FILTER_BASE < index
    {
      var i := AddedIsThere(added, m, added[m].offset / FILTER_BASE);
    }
  }

  lemma BlockAnswers(policy: BloomFilterPolicy, added: seq<Added>, filters: Bytes, offsets: seq<nat>)
    requires 1 <= policy.k <= 30 && |filters| < TWO_TO_THE_32
    requires Offsets(offsets, |filters|) && Filters(policy, added, filters, offsets)
    ensures forall offset: nat, key | offset / FILTER_BASE < |offsets| ::
              MayMatch(policy.hash, LayoutOf(Block(filters, offsets)), offset, key)
              <==> Answers(policy, KeysAt(added, offset / FILTER_BASE), key)
  {
    forall offset: nat, key | offset / FILTER_BASE < |offsets|
      ensures MayMatch(policy.hash, LayoutOf(Block(filters, offsets)), offset, key)
              <==> Answers(policy, KeysAt(added, offset / FILTER_BASE), key)
    {
      var index := offset / FILTER_BASE;
      ConsultsFilter(policy.hash, filters, offsets, offset, key);
      FilterAnswers(policy, KeysAt(added, index), FilterAt(filters, offsets, index), key);
    }
  }

  lemma EveryKeyMatches(policy: BloomFilterPolicy, added: seq<Added>, filters: Bytes, offsets: seq<nat>)
    requires |filters| < TWO_TO_THE_32
    requires Offsets(offsets, |filters|) && Filters(policy, added, filters, offsets)
    requires forall m | 0 <= m < |added| :: added[m].offset / FILTER_BASE < |offsets|
    ensures forall m | 0 <= m < |added| ::
              MayMatch(policy.hash, LayoutOf(Block(filters, offsets)), added[m].offset, added[m].key)
  {
    forall m | 0 <= m < |added|
      ensures MayMatch(policy.hash, LayoutOf(Block(filters, offsets)), added[m].offset, added[m].key)
    {
      var index := added[m].offset / FILTER_BASE;
      var ks := KeysAt(added, index);
      var i := AddedIsThere(added, m, index);
      ConsultsFilter(policy.hash, filters, offsets, added[m].offset, added[m].key);
      NoFalseNegative(policy.hash, policy.k, ks, policy.FilterBytes(|ks|), FilterAt(filters, offsets, index), i);
    }
  }
}
