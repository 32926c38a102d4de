/** Decoding undoes encoding, and merges into what is in memory already (nanopb). */
module PbRoundTrips {
  import opened DbFormat
  import opened Coding
  import opened PbWire
  import opened PbMessages
  import opened PbNorms
  import opened PbMerges

  // ----- values -----

  lemma ReadsPrefix(b: Bytes, p: nat, x: Bytes, next: nat, limit: nat) returns (start: nat)
    requires Spans(b, p, Prefixed(x), next) && next <= limit <= |b| < TWO_TO_THE_32
    ensures DecodeVarint32(b, p, limit) == Some(Got(|x|, start)) && Spans(b, start, x, next)
    ensures p < start <= next && Window(b, p, limit) == Some(Got(start, next))
  {
    start := p + |Varint(|x|)|;
    SpanSplit(b, p, Varint(|x|), x, next);
    Varint32RoundTripPb(b, p, limit, |x|, start);
  }

  lemma BytesAt(kind: Kind, v: Value, b: Bytes, p: nat, start: nat, next: nat, limit: nat)
    requires (kind.ByteArray? || kind.FixedBytes?) && Shaped(kind, v) && (kind.ByteArray? ==> |v.b| <= kind.max)
    requires p < start <= next <= limit <= |b| && DecodeVarint32(b, p, limit) == Some(Got(|v.b|, start))
    requires next == start + |v.b| && b[start..next] == v.b
    ensures DecodeBlob(kind, b, p, limit) == Some(Got(v, next))
  {
    if kind.FixedBytes? && v.b == [] {
      assert Zeros(kind.n) == v.b;
    }
  }

  lemma TextAt(size: nat, text: Bytes, b: Bytes, p: nat, start: nat, next: nat, limit: nat)
    requires |text| <= size && 0 !in text
    requires p < start <= next <= limit <= |b| && DecodeVarint32(b, p, limit) == Some(Got(|text|, start))
    requires next == start + |text| && b[start..next] == text
    ensures DecodeBlob(Text(size), b, p, limit) == if |text| == size then None else Some(Got(Blob(text), next))
  {
    if |text| < size {
      var bytes := b[start..start + |text|];
      assert bytes == text;
      assert UpToNul(bytes) == bytes;
    }
  }

  /** A text that fills its array is encoded but does not decode: the terminator has no room. */
  lemma BlobRoundTrip(kind: Kind, v: Value, b: Bytes, p: nat, next: nat, limit: nat)
    requires (kind.ByteArray? || kind.Text? || kind.FixedBytes?) && Shaped(kind, v) && EncodeValue(kind, v).Some?
    requires Spans(b, p, Prefixed(v.b), next) && next <= limit <= |b| < TWO_TO_THE_32
    ensures if kind.Text? && |v.b| == kind.size then DecodeBlob(kind, b, p, limit) == None
            else DecodeBlob(kind, b, p, limit) == Some(Got(v, next))
  {
    var start := ReadsPrefix(b, p, v.b, next, limit);
    if kind.Text? {
      TextAt(kind.size, v.b, b, p, start, next, limit);
    } else {
      BytesAt(kind, v, b, p, start, next, limit);
    }
  }

  lemma ReadsNumber(s: Scalar, b: Bytes, p: nat, limit: nat, items: seq<Value>, k: nat) returns (next: nat)
    requires k < |items| && forall j | 0 <= j < |items| :: Shaped(Number(s), items[j])
    requires Spans(b, p, EncodeNumbers(s, items, k), limit)
    ensures Shaped(Number(s), items[k]) && DecodeScalar(s, b, p, limit) == Some(Got(items[k].i, next)) && p < next <= limit
    ensures Spans(b, next, EncodeNumbers(s, items, k + 1), limit)
  {
    assert Shaped(Number(s), items[k]);
    var x := EncodeScalar(s, items[k].i);
    next := p + |x|;
    SpanSplit(b, p, x, EncodeNumbers(s, items, k + 1), limit);
    ScalarRoundTrip(s, items[k].i, b, p, next, limit);
  }

  lemma ReadsTag(tag: nat, wireType: nat, x: Bytes, b: Bytes, p: nat, q: nat, limit: nat) returns (m: nat)
    requires 0 < tag < 0x2000_0000 && wireType < 8 && q <= limit <= |b| && Spans(b, p, EncodeTag(tag, wireType) + x, q)
    ensures DecodeTag(b, p, limit) == Tag(tag, wireType, m) && p < m && Spans(b, m, x, q)
  {
    var t := EncodeTag(tag, wireType);
    m := p + |t|;
    SpanSplit(b, p, t, x, q);
    TagRoundTrip(b, p, limit, tag, wireType, m);
  }

  /** The numbers from `k` on can be read one after the other, up to the end. */
  ghost predicate Readable(s: Scalar, b: Bytes, p: nat, limit: nat, items: seq<Value>, k: nat)
    requires p <= limit <= |b| && k <= |items| && forall j | 0 <= j < |items| :: Shaped(Number(s), items[j])
    decreases |items| - k
  {
    if k == |items| then p == limit else
    var r := DecodeScalar(s, b, p, limit);
    r.Some? && Int(r.value.value) == items[k] && Readable(s, b, r.value.next, limit, items, k + 1)
  }

  lemma {:induction false} EncodedIsReadable(s: Scalar, b: Bytes, p: nat, limit: nat, items: seq<Value>, k: nat)
    requires k <= |items| && forall j | 0 <= j < |items| :: Shaped(Number(s), items[j])
    requires Spans(b, p, EncodeNumbers(s, items, k), limit)
    ensures Readable(s, b, p, limit, items, k)
    decreases |items| - k
  {
    if k < |items| {
      var next := ReadsNumber(s, b, p, limit, items, k);
      EncodedIsReadable(s, b, next, limit, items, k + 1);
    }
  }

  lemma {:induction false} DecodesPacked(s: Scalar, b: Bytes, p: nat, limit: nat, max: nat, base: seq<Value>,
                                         items: seq<Value>, k: nat, done: seq<Value>)
    requires k <= |items| && forall j | 0 <= j < |items| :: Shaped(Number(s), items[j])
    requires p <= limit <= |b| && Readable(s, b, p, limit, items, k) && done == base + items[..k]
    requires forall j | 0 <= j < |done| :: Shaped(Number(s), done[j])
    requires k < |items| || |base| + |items| <= max
    ensures DecodePacked(s, b, p, limit, max, done) == if |base| + |items| <= max then Some(base + items) else None
    decreases |items| - k
  {
    if k == |items| {
      assert items[..k] == items;
    } else if |done| < max {
      var r := DecodeScalar(s, b, p, limit).value;
      assert done + [Int(r.value)] == base + items[..k + 1];
      DecodesPacked(s, b, r.next, limit, max, base, items, k + 1, done + [Int(r.value)]);
    }
  }

  lemma {:induction false} DecodesValue(kind: Kind, v: Value, b: Bytes, p: nat, next: nat, limit: nat, old': Value)
    requires WellFormedKind(kind) && Shaped(kind, v) && Exclusive(kind, v) && EncodeValue(kind, v).Some?
    requires Spans(b, p, EncodeValue(kind, v).value, next) && next <= limit <= |b| < TWO_TO_THE_32
    requires Shaped(kind, old')
    ensures DecodeValue(kind, b, p, limit, old')
         == if FitsInto(kind, old', v) then Some(Got(MergeValue(kind, old', v), next)) else None
    decreases kind
  {
    match kind
    case Number(s) =>
      ScalarRoundTrip(s, v.i, b, p, next, limit);
    case Submessage(d) =>
      DecodesSubmessage(d, old'.slots, v.slots, b, p, next, limit);
    case _ =>
      BlobRoundTrip(kind, v, b, p, next, limit);
  }

  lemma {:induction false} DecodesSubmessage(d: Desc, old': seq<Slot>, slots: seq<Slot>, b: Bytes, p: nat, next: nat,
                                             limit: nat)
    requires WellFormed(d) && ShapedSlots(d, slots) && ExclusiveSlots(d, slots) && EncodeFields(d, slots, 0).Some?
    requires Spans(b, p, Prefixed(EncodeFields(d, slots, 0).value), next) && next <= limit <= |b| < TWO_TO_THE_32
    requires ShapedSlots(d, old')
    ensures Window(b, p, limit).Some?
    ensures var w := Window(b, p, limit).value;
            w.next == next && DecodeFields(d, b, w.value, next, old', {}) == Expected(d, old', slots)
    decreases d, 6
  {
    var x := EncodeFields(d, slots, 0).value;
    var start := ReadsPrefix(b, p, x, next, limit);
    DecodesInto(d, old', slots, b, start, next);
  }

  /** What decoding the bytes of a message yields. */
  ghost function Expected(d: Desc, old': seq<Slot>, slots: seq<Slot>): Option<seq<Slot>>
    requires ShapedSlots(d, old') && ShapedSlots(d, slots)
  {
    if FitsSlots(d, old', slots, 0) then Some(MergeSlots(d, old', slots, |slots|)) else None
  }

  // ----- one tagged value -----

  lemma FindsField(d: Desc, i: nat)
    requires WellFormed(d) && i < |d.fields|
    ensures IndexOf(d, d.fields[i].tag, 0) == i
  {
  }

  lemma FieldFails(d: Desc, i: nat, b: Bytes, p: nat, m: nat, limit: nat, cur: seq<Slot>, seen: set<nat>, wireType: nat)
    requires WellFormed(d) && ShapedSlots(d, cur) && i < |d.fields| && p < m <= limit <= |b|
    requires DecodeTag(b, p, limit) == Tag(d.fields[i].tag, wireType, m)
    requires DecodeField(d, i, b, m, limit, cur, wireType) == None
    ensures DecodeFields(d, b, p, limit, cur, seen) == None
  {
    FindsField(d, i);
  }

  lemma FieldStep(d: Desc, i: nat, b: Bytes, p: nat, m: nat, limit: nat, cur: seq<Slot>, seen: set<nat>, wireType: nat)
    requires WellFormed(d) && ShapedSlots(d, cur) && i < |d.fields| && p < m <= limit <= |b|
    requires DecodeTag(b, p, limit) == Tag(d.fields[i].tag, wireType, m)
    requires DecodeField(d, i, b, m, limit, cur, wireType).Some?
    ensures var r := DecodeField(d, i, b, m, limit, cur, wireType).value;
            DecodeFields(d, b, p, limit, cur, seen) == DecodeFields(d, b, r.next, limit, r.value, See(d, i, seen))
  {
    FindsField(d, i);
  }

  lemma {:induction false} DecodesTagged(d: Desc, i: nat, v: Value, b: Bytes, p: nat, q: nat, limit: nat,
                                         cur: seq<Slot>, seen: set<nat>, old': Value)
    requires WellFormed(d) && ShapedSlots(d, cur) && i < |d.fields| && q <= limit <= |b| < TWO_TO_THE_32
    requires Shaped(d.fields[i].kind, v) && Exclusive(d.fields[i].kind, v)
    requires EncodeTagged(d.fields[i], v).Some? && Spans(b, p, EncodeTagged(d.fields[i], v).value, q)
    requires ShapedSlot(d.fields[i], cur[i]) && Shaped(d.fields[i].kind, old') && old' == Target(d.fields[i], cur[i])
    requires d.fields[i].rule.Repeated? ==> |cur[i].items| < d.fields[i].rule.max && !d.fields[i].kind.Number?
    ensures p < q && Shaped(d.fields[i].kind, MergeValue(d.fields[i].kind, old', v))
    ensures DecodeFields(d, b, p, limit, cur, seen)
         == if FitsInto(d.fields[i].kind, old', v)
            then DecodeFields(d, b, q, limit, Store(d, i, cur, MergeValue(d.fields[i].kind, old', v)), See(d, i, seen))
            else None
    decreases d, 0
  {
    var f := d.fields[i];
    assert WellFormedField(f);
    var m := ReadsTag(f.tag, WireTypeOf(f.kind), EncodeValue(f.kind, v).value, b, p, q, limit);
    MergeShaped(f.kind, old', v);
    DecodesValue(f.kind, v, b, m, q, limit, old');
    if FitsInto(f.kind, old', v) {
      FieldStep(d, i, b, p, m, limit, cur, seen, WireTypeOf(f.kind));
    } else {
      FieldFails(d, i, b, p, m, limit, cur, seen, WireTypeOf(f.kind));
    }
  }

  // ----- slots -----

  /** An array that is full takes no more items. */
  lemma FullFails(d: Desc, i: nat, v: Value, b: Bytes, p: nat, q: nat, limit: nat, cur: seq<Slot>, seen: set<nat>)
    requires WellFormed(d) && ShapedSlots(d, cur) && i < |d.fields| && q <= limit <= |b|
    requires d.fields[i].rule.Repeated? && !d.fields[i].kind.Number? && Shaped(d.fields[i].kind, v)
    requires EncodeTagged(d.fields[i], v).Some? && Spans(b, p, EncodeTagged(d.fields[i], v).value, q)
    requires ShapedSlot(d.fields[i], cur[i]) && d.fields[i].rule.max <= |cur[i].items|
    ensures DecodeFields(d, b, p, limit, cur, seen) == None
  {
    var f := d.fields[i];
    assert WellFormedField(f);
    var m := ReadsTag(f.tag, WireTypeOf(f.kind), EncodeValue(f.kind, v).value, b, p, q, limit);
    FieldFails(d, i, b, p, m, limit, cur, seen, WireTypeOf(f.kind));
  }

  lemma OneMoreItem(f: Field, base: seq<Value>, items: seq<Value>, k: nat, cur: seq<Slot>, i: nat, v: Value, next: seq<Slot>,
                    last: Slot)
    requires i < |cur| && k < |items| && forall j | 0 <= j < |items| :: Shaped(f.kind, items[j])
    requires cur[i] == Many(base + NormItems(f.kind, items, k)) && v == NormValue(f.kind, items[k])
    requires next == cur[i := Many(cur[i].items + [v])]
    ensures next[i] == Many(base + NormItems(f.kind, items, k + 1))
    ensures next[i := last] == cur[i := last]
    ensures FitsItems(f.kind, items, k) <==> Fits(f.kind, items[k]) && FitsItems(f.kind, items, k + 1)
  {
    assert base + NormItems(f.kind, items, k) + [v] == base + (NormItems(f.kind, items, k) + [v]);
  }

  /** The items from number `k` on, one tagged value each, behind those that were there before. */
  lemma {:induction false} DecodesItems(d: Desc, i: nat, base: seq<Value>, items: seq<Value>, k: nat, b: Bytes, p: nat,
                                        q: nat, limit: nat, cur: seq<Slot>, seen: set<nat>, last: Slot)
    requires WellFormed(d) && ShapedSlots(d, cur) && i < |d.fields| && q <= limit <= |b| < TWO_TO_THE_32
    requires d.fields[i].rule.Repeated? && !d.fields[i].kind.Number? && k <= |items|
    requires forall j | 0 <= j < |items| :: Shaped(d.fields[i].kind, items[j])
    requires forall j | 0 <= j < |items| :: Exclusive(d.fields[i].kind, items[j])
    requires EncodeItems(d.fields[i], items, k).Some? && Spans(b, p, EncodeItems(d.fields[i], items, k).value, q)
    requires cur[i] == Many(base + NormItems(d.fields[i].kind, items, k))
    requires last == Many(base + NormItems(d.fields[i].kind, items, |items|)) && ShapedSlots(d, cur[i := last])
    requires k < |items| || |base| + |items| <= d.fields[i].rule.max
    ensures p <= q
    ensures DecodeFields(d, b, p, limit, cur, seen)
         == if |base| + |items| <= d.fields[i].rule.max && FitsItems(d.fields[i].kind, items, k)
            then DecodeFields(d, b, q, limit, cur[i := last], seen) else None
    decreases d, 1, |items| - k
  {
    if k == |items| {
      assert cur[i := last] == cur;
    } else {
      var m, next := TakesItem(d, i, base, items, k, b, p, q, limit, cur, seen, last);
      if |base| + k < d.fields[i].rule.max && Fits(d.fields[i].kind, items[k]) {
        DecodesItems(d, i, base, items, k + 1, b, m, q, limit, next, seen, last);
      }
    }
  }

  /** One item and its tag, if there is room for it. */
  lemma {:induction false} TakesItem(d: Desc, i: nat, base: seq<Value>, items: seq<Value>, k: nat, b: Bytes, p: nat,
                                     q: nat, limit: nat, cur: seq<Slot>, seen: set<nat>, last: Slot)
      returns (m: nat, next: seq<Slot>)
    requires WellFormed(d) && ShapedSlots(d, cur) && i < |d.fields| && q <= limit <= |b| < TWO_TO_THE_32
    requires d.fields[i].rule.Repeated? && !d.fields[i].kind.Number? && k < |items|
    requires forall j | 0 <= j < |items| :: Shaped(d.fields[i].kind, items[j])
    requires Exclusive(d.fields[i].kind, items[k])
    requires EncodeItems(d.fields[i], items, k).Some? && Spans(b, p, EncodeItems(d.fields[i], items, k).value, q)
    requires cur[i] == Many(base + NormItems(d.fields[i].kind, items, k))
    ensures p <= m <= q
    ensures EncodeItems(d.fields[i], items, k + 1).Some? && Spans(b, m, EncodeItems(d.fields[i], items, k + 1).value, q)
    ensures |next| == |cur| && next[i] == Many(base + NormItems(d.fields[i].kind, items, k + 1))
    ensures next[i := last] == cur[i := last]
    ensures FitsItems(d.fields[i].kind, items, k)
       <==> Fits(d.fields[i].kind, items[k]) && FitsItems(d.fields[i].kind, items, k + 1)
    ensures |base| + k < d.fields[i].rule.max ==> ShapedSlots(d, next)
    ensures DecodeFields(d, b, p, limit, cur, seen)
         == if |base| + k < d.fields[i].rule.max && Fits(d.fields[i].kind, items[k])
            then DecodeFields(d, b, m, limit, next, seen) else None
    decreases d, 1, 0, 1
  {
    var f := d.fields[i];
    assert ShapedSlot(f, cur[i]) && WellFormedField(f);
    var x := EncodeTagged(f, items[k]).value;
    m := p + |x|;
    SpanSplit(b, p, x, EncodeItems(f, items, k + 1).value, q);
    var v := NormValue(f.kind, items[k]);
    next := cur[i := Many(cur[i].items + [v])];
    OneMoreItem(f, base, items, k, cur, i, v, next, last);
    if f.rule.max <= |base| + k {
      FullFails(d, i, items[k], b, p, m, limit, cur, seen);
    } else {
      NextItem(d, i, items[k], b, p, m, limit, cur, seen);
    }
  }

  lemma {:induction false} NextItem(d: Desc, i: nat, v: Value, b: Bytes, p: nat, q: nat, limit: nat, cur: seq<Slot>,
                                    seen: set<nat>)
    requires WellFormed(d) && ShapedSlots(d, cur) && i < |d.fields| && q <= limit <= |b| < TWO_TO_THE_32
    requires d.fields[i].rule.Repeated? && !d.fields[i].kind.Number?
    requires Shaped(d.fields[i].kind, v) && Exclusive(d.fields[i].kind, v) && ShapedSlot(d.fields[i], cur[i])
    requires EncodeTagged(d.fields[i], v).Some? && Spans(b, p, EncodeTagged(d.fields[i], v).value, q)
    requires |cur[i].items| < d.fields[i].rule.max
    ensures var next := cur[i := Many(cur[i].items + [NormValue(d.fields[i].kind, v)])];
            && p < q && ShapedSlots(d, next)
            && DecodeFields(d, b, p, limit, cur, seen)
               == if Fits(d.fields[i].kind, v) then DecodeFields(d, b, q, limit, next, seen) else None
    decreases d, 1, 0, 0
  {
    var f := d.fields[i];
    assert WellFormedField(f) && EncodeValue(f.kind, v).Some?;
    MergeIntoDefault(f.kind, v);
    FitsIntoDefault(f.kind, v);
    DecodesTagged(d, i, v, b, p, q, limit, cur, seen, DefaultValue(f.kind, None));
  }

  lemma PackedWindow(s: Scalar, base: seq<Value>, items: seq<Value>, b: Bytes, m: nat, q: nat, limit: nat, max: nat)
    requires items != [] && forall j | 0 <= j < |items| :: Shaped(Number(s), items[j])
    requires forall j | 0 <= j < |base| :: Shaped(Number(s), base[j])
    requires q <= limit <= |b| < TWO_TO_THE_32 && Spans(b, m, Prefixed(EncodeNumbers(s, items, 0)), q)
    ensures Window(b, m, limit).Some? && Window(b, m, limit).value.next == q
    ensures DecodePacked(s, b, Window(b, m, limit).value.value, q, max, base)
         == if |base| + |items| <= max then Some(base + items) else None
  {
    var x := EncodeNumbers(s, items, 0);
    var start := ReadsPrefix(b, m, x, q, limit);
    EncodedIsReadable(s, b, start, q, items, 0);
    assert base + items[..0] == base;
    DecodesPacked(s, b, start, q, max, base, items, 0, base);
  }

  lemma DecodesPackedArray(d: Desc, i: nat, base: seq<Value>, items: seq<Value>, b: Bytes, p: nat, q: nat, limit: nat,
                           cur: seq<Slot>, seen: set<nat>)
    requires WellFormed(d) && ShapedSlots(d, cur) && i < |d.fields| && p <= q <= limit <= |b| < TWO_TO_THE_32
    requires d.fields[i].rule.Repeated? && d.fields[i].kind.Number? && items != []
    requires forall j | 0 <= j < |items| :: Shaped(d.fields[i].kind, items[j])
    requires Spans(b, p, EncodeTag(d.fields[i].tag, WT_STRING) + Prefixed(EncodeNumbers(d.fields[i].kind.s, items, 0)), q)
    requires cur[i] == Many(base)
    ensures ShapedSlots(d, cur[i := Many(base + items)])
    ensures DecodeFields(d, b, p, limit, cur, seen)
         == if |base| + |items| <= d.fields[i].rule.max then DecodeFields(d, b, q, limit, cur[i := Many(base + items)], seen)
            else None
  {
    var f, s := d.fields[i], d.fields[i].kind.s;
    assert WellFormedField(f) && ShapedSlot(f, cur[i]);
    var m := ReadsTag(f.tag, WT_STRING, Prefixed(EncodeNumbers(s, items, 0)), b, p, q, limit);
    PackedWindow(s, base, items, b, m, q, limit, f.rule.max);
    assert ShapedSlot(f, Many(base + items));
    if |base| + |items| <= f.rule.max {
      assert DecodeField(d, i, b, m, limit, cur, WT_STRING) == Some(Got(cur[i := Many(base + items)], q));
      FieldStep(d, i, b, p, m, limit, cur, seen, WT_STRING);
    } else {
      FieldFails(d, i, b, p, m, limit, cur, seen, WT_STRING);
    }
  }

  lemma ArrayMerge(f: Field, base: seq<Value>, items: seq<Value>, merged: Slot)
    requires f.rule.Repeated? && ShapedSlot(f, Many(base)) && ShapedSlot(f, Many(items))
    requires merged == Many(base + NormItems(f.kind, items, |items|))
    ensures MergeOne(f, Many(base), Many(items)) == merged
    ensures FitsOne(f, Many(base), Many(items))
       <==> items == [] || (|base| + |items| <= f.rule.max && FitsItems(f.kind, items, 0))
  {
  }

  lemma {:induction false} DecodesArray(d: Desc, i: nat, base: seq<Value>, items: seq<Value>, b: Bytes, p: nat, q: nat,
                                        limit: nat, cur: seq<Slot>, seen: set<nat>, cur': seq<Slot>)
    requires WellFormed(d) && ShapedSlots(d, cur) && i < |d.fields| && p <= q <= limit <= |b| < TWO_TO_THE_32
    requires d.fields[i].rule.Repeated? && cur[i] == Many(base)
    requires forall j | 0 <= j < |items| :: Shaped(d.fields[i].kind, items[j])
    requires forall j | 0 <= j < |items| :: Exclusive(d.fields[i].kind, items[j])
    requires EncodeArray(d.fields[i], items, d.fields[i].rule.max).Some?
    requires Spans(b, p, EncodeArray(d.fields[i], items, d.fields[i].rule.max).value, q)
    requires ShapedSlots(d, cur') && cur' == cur[i := Many(base + NormItems(d.fields[i].kind, items, |items|))]
    ensures DecodeFields(d, b, p, limit, cur, seen)
         == if items == [] || (|base| + |items| <= d.fields[i].rule.max && FitsItems(d.fields[i].kind, items, 0))
            then DecodeFields(d, b, q, limit, cur', seen) else None
    decreases d, 2
  {
    var f := d.fields[i];
    assert base + [] == base;
    if items == [] {
      assert cur' == cur;
    } else if f.kind.Number? {
      DecodesPackedArray(d, i, base, items, b, p, q, limit, cur, seen);
      NormNumbers(f.kind.s, items, |items|);
      assert items[..|items|] == items;
    } else {
      DecodesItems(d, i, base, items, 0, b, p, q, limit, cur, seen, cur'[i]);
    }
  }

  /** The slots after the bytes of slot `i`: choosing an alternative of a union gives up the others. */
  ghost function Becomes(d: Desc, cur: seq<Slot>, i: nat, slot: Slot): (s: seq<Slot>)
    requires ShapedSlots(d, cur) && i < |cur| && ShapedSlot(d.fields[i], slot)
    ensures |s| == |cur|
  {
    assert ShapedSlot(d.fields[i], cur[i]);
    seq(|cur|, j requires 0 <= j < |cur| =>
      if j == i then MergeOne(d.fields[i], cur[i], slot)
      else if slot.Alt? && slot != Alt(None) && SameUnion(d, i, j) then Alt(None)
      else cur[j])
  }

  lemma BecomesShaped(d: Desc, cur: seq<Slot>, i: nat, slot: Slot)
    requires WellFormed(d) && ShapedSlots(d, cur) && i < |cur| && ShapedSlot(d.fields[i], slot)
    ensures ShapedSlots(d, Becomes(d, cur, i, slot))
  {
    assert WellFormedField(d.fields[i]) && ShapedSlot(d.fields[i], cur[i]);
    MergeOneShaped(d.fields[i], cur[i], slot);
    forall j | 0 <= j < |cur|
      ensures ShapedSlot(d.fields[j], Becomes(d, cur, i, slot)[j])
    {
      assert ShapedSlot(d.fields[j], cur[j]);
    }
  }

  lemma BecomesPlain(d: Desc, cur: seq<Slot>, i: nat, slot: Slot)
    requires ShapedSlots(d, cur) && i < |cur| && ShapedSlot(d.fields[i], slot) && ShapedSlot(d.fields[i], cur[i])
    requires !slot.Alt? || slot == Alt(None)
    ensures Becomes(d, cur, i, slot) == cur[i := MergeOne(d.fields[i], cur[i], slot)]
  {
  }

  lemma StoresMerged(d: Desc, cur: seq<Slot>, i: nat, slot: Slot, v: Value)
    requires WellFormed(d) && ShapedSlots(d, cur) && i < |cur| && ShapedSlot(d.fields[i], slot)
    requires ShapedSlot(d.fields[i], cur[i]) && Shaped(d.fields[i].kind, v) && !d.fields[i].rule.Repeated?
    requires MergeOne(d.fields[i], cur[i], slot) == match d.fields[i].rule
                                                    case Optional => Maybe(true, v)
                                                    case Oneof(_) => Alt(Some(v))
                                                    case _ => One(v)
    requires d.fields[i].rule.Oneof? ==> slot != Alt(None)
    ensures Store(d, i, cur, v) == Becomes(d, cur, i, slot)
  {
    var s := Store(d, i, cur, v);
    forall j | 0 <= j < |cur|
      ensures s[j] == Becomes(d, cur, i, slot)[j]
    {
    }
  }

  lemma {:induction false} DecodesWritten(d: Desc, slot: Slot, i: nat, b: Bytes, p: nat, q: nat, limit: nat,
                                          cur: seq<Slot>, seen: set<nat>, v: Value)
    requires WellFormed(d) && i < |d.fields| && ShapedSlots(d, cur) && ShapedSlot(d.fields[i], slot)
    requires ExclusiveSlot(d.fields[i], slot) && !d.fields[i].rule.Repeated?
    requires v == match slot case Alt(alt) => (if alt.Some? then alt.value else v) case Many(_) => v case _ => slot.v
    requires Shaped(d.fields[i].kind, v) && EncodeSlot(d.fields[i], slot) == EncodeTagged(d.fields[i], v)
    requires slot.Alt? ==> slot.alt.Some?
    requires slot.Maybe? ==> slot.has
    requires d.fields[i].rule.Singular? ==> !IsZero(d.fields[i].kind, v)
    requires EncodeSlot(d.fields[i], slot).Some? && Spans(b, p, EncodeSlot(d.fields[i], slot).value, q)
    requires q <= limit <= |b| < TWO_TO_THE_32
    ensures ShapedSlot(d.fields[i], cur[i]) && ShapedSlots(d, Becomes(d, cur, i, slot))
    ensures DecodeFields(d, b, p, limit, cur, seen)
         == if FitsOne(d.fields[i], cur[i], slot) then DecodeFields(d, b, q, limit, Becomes(d, cur, i, slot), See(d, i, seen))
            else None
    decreases d, 3, 0
  {
    var f := d.fields[i];
    assert WellFormedField(f) && ShapedSlot(f, cur[i]);
    BecomesShaped(d, cur, i, slot);
    TargetShaped(f, cur[i]);
    var old' := Target(f, cur[i]);
    if f.rule.Oneof? {
      MergeIntoDefault(f.kind, v);
      FitsIntoDefault(f.kind, v);
    }
    DecodesTagged(d, i, v, b, p, q, limit, cur, seen, old');
    StoresMerged(d, cur, i, slot, MergeValue(f.kind, old', v));
  }

  /** What decoding reaches after the bytes of slot `i`, whatever was there before. */
  lemma {:induction false} DecodesSlot(d: Desc, slot: Slot, i: nat, b: Bytes, p: nat, q: nat, limit: nat,
                                       cur: seq<Slot>, seen: set<nat>)
    requires WellFormed(d) && i < |d.fields| && ShapedSlots(d, cur) && ShapedSlot(d.fields[i], slot)
    requires ExclusiveSlot(d.fields[i], slot)
    requires EncodeSlot(d.fields[i], slot).Some? && Spans(b, p, EncodeSlot(d.fields[i], slot).value, q)
    requires q <= limit <= |b| < TWO_TO_THE_32
    ensures ShapedSlot(d.fields[i], cur[i]) && ShapedSlots(d, Becomes(d, cur, i, slot))
    ensures DecodeFields(d, b, p, limit, cur, seen)
         == if FitsOne(d.fields[i], cur[i], slot) then DecodeFields(d, b, q, limit, Becomes(d, cur, i, slot), See(d, i, seen))
            else None
    decreases d, 3, 1
  {
    var f := d.fields[i];
    assert ShapedSlot(f, cur[i]);
    BecomesShaped(d, cur, i, slot);
    if f.rule.Repeated? {
      BecomesPlain(d, cur, i, slot);
      ArrayMerge(f, cur[i].items, slot.items, Many(cur[i].items + NormItems(f.kind, slot.items, |slot.items|)));
      DecodesArray(d, i, cur[i].items, slot.items, b, p, q, limit, cur, seen, Becomes(d, cur, i, slot));
    } else if (slot.Alt? && slot.alt.None?) || (slot.Maybe? && !slot.has) || (f.rule.Singular? && IsZero(f.kind, slot.v)) {
      BecomesPlain(d, cur, i, slot);
      assert cur[i := cur[i]] == cur;
    } else {
      var v := if slot.Alt? then slot.alt.value else slot.v;
      DecodesWritten(d, slot, i, b, p, q, limit, cur, seen, v);
    }
  }

  // ----- messages -----

  /** The required fields before `i` have been seen. */
  ghost predicate SeenUpTo(d: Desc, i: nat, seen: set<nat>)
    requires i <= |d.fields|
  {
    forall k | 0 <= k < RequiredBefore(d, i) && k < MAX_REQUIRED_FIELDS :: k in seen
  }

  lemma SeenNext(d: Desc, i: nat, seen: set<nat>)
    requires i < |d.fields| && SeenUpTo(d, i, seen)
    ensures SeenUpTo(d, i + 1, See(d, i, seen))
  {
  }

  /** The slots before `i` have been read into `old'`. */
  ghost predicate Midway(d: Desc, old': seq<Slot>, slots: seq<Slot>, cur: seq<Slot>, i: nat)
    requires ShapedSlots(d, old') && ShapedSlots(d, slots)
  {
    && |cur| == |slots| && i <= |slots|
    && forall j | 0 <= j < |slots| :: cur[j] == MidwaySlot(d, old', slots, i, j)
  }

  ghost function MidwaySlot(d: Desc, old': seq<Slot>, slots: seq<Slot>, i: nat, j: nat): Slot
    requires ShapedSlots(d, old') && ShapedSlots(d, slots) && i <= |slots| && j < |slots|
  {
    assert ShapedSlot(d.fields[j], old'[j]) && ShapedSlot(d.fields[j], slots[j]);
    if d.fields[j].rule.Oneof? && (slots[j] == Alt(None) || i <= j) then
      if Given(d, slots, j, i) then Alt(None) else old'[j]
    else if j < i then MergeOne(d.fields[j], old'[j], slots[j]) else old'[j]
  }

  lemma MidwayStart(d: Desc, old': seq<Slot>, slots: seq<Slot>)
    requires ShapedSlots(d, old') && ShapedSlots(d, slots)
    ensures Midway(d, old', slots, old', 0)
  {
  }

  lemma MidwayEnd(d: Desc, old': seq<Slot>, slots: seq<Slot>, cur: seq<Slot>)
    requires ShapedSlots(d, old') && ShapedSlots(d, slots) && Midway(d, old', slots, cur, |slots|)
    ensures cur == MergeSlots(d, old', slots, |slots|)
  {
    forall j | 0 <= j < |slots|
      ensures cur[j] == MergeSlots(d, old', slots, |slots|)[j]
    {
      MergedAt(d, old', slots, |slots|, j);
      assert ShapedSlot(d.fields[j], old'[j]) && ShapedSlot(d.fields[j], slots[j]);
    }
  }

  lemma GivenNext(d: Desc, slots: seq<Slot>, j: nat, i: nat)
    requires ShapedSlots(d, slots) && j < |slots| && i < |slots|
    ensures Given(d, slots, j, i + 1) <==> Given(d, slots, j, i) || (SameUnion(d, i, j) && slots[i] != Alt(None))
  {
    if Given(d, slots, j, i) {
      var k :| 0 <= k < i && SameUnion(d, k, j) && slots[k] != Alt(None);
      assert 0 <= k < i + 1;
    }
  }

  lemma ChosenOnce(d: Desc, slots: seq<Slot>, i: nat, j: nat)
    requires ShapedSlots(d, slots) && ExclusiveSlots(d, slots) && i < |slots| && j < |slots| && i != j
    requires SameUnion(d, i, j) && slots[i] != Alt(None)
    ensures slots[j] == Alt(None)
  {
    assert SameUnion(d, j, i);
  }

  lemma NotGivenYet(d: Desc, slots: seq<Slot>, i: nat)
    requires ShapedSlots(d, slots) && ExclusiveSlots(d, slots) && i < |slots| && slots[i] != Alt(None)
    ensures !Given(d, slots, i, i)
  {
    forall k | 0 <= k < i && SameUnion(d, k, i)
      ensures slots[k] == Alt(None)
    {
    }
  }

  lemma MidwayNext(d: Desc, old': seq<Slot>, slots: seq<Slot>, cur: seq<Slot>, i: nat)
    requires ShapedSlots(d, old') && ShapedSlots(d, slots) && ExclusiveSlots(d, slots) && ShapedSlots(d, cur)
    requires Midway(d, old', slots, cur, i) && i < |slots| && ShapedSlot(d.fields[i], slots[i])
    ensures Midway(d, old', slots, Becomes(d, cur, i, slots[i]), i + 1)
  {
    var next := Becomes(d, cur, i, slots[i]);
    forall j | 0 <= j < |slots|
      ensures next[j] == MidwaySlot(d, old', slots, i + 1, j)
    {
      assert ShapedSlot(d.fields[j], slots[j]) && ShapedSlot(d.fields[j], old'[j]) && ShapedSlot(d.fields[j], cur[j]);
      GivenNext(d, slots, j, i);
      if j != i {
        if SameUnion(d, i, j) && slots[i] != Alt(None) {
          ChosenOnce(d, slots, i, j);
        }
      } else if slots[i] != Alt(None) {
        NotGivenYet(d, slots, i);
      }
    }
  }

  lemma MidwayFits(d: Desc, old': seq<Slot>, slots: seq<Slot>, cur: seq<Slot>, i: nat)
    requires ShapedSlots(d, old') && ShapedSlots(d, slots) && ShapedSlots(d, cur)
    requires Midway(d, old', slots, cur, i) && i < |slots|
    ensures ShapedSlot(d.fields[i], cur[i]) && ShapedSlot(d.fields[i], slots[i])
    ensures FitsSlots(d, old', slots, i) <==> FitsOne(d.fields[i], cur[i], slots[i]) && FitsSlots(d, old', slots, i + 1)
  {
    assert ShapedSlot(d.fields[i], cur[i]) && ShapedSlot(d.fields[i], slots[i]) && ShapedSlot(d.fields[i], old'[i]);
    assert FitsOne(d.fields[i], cur[i], slots[i]) <==> FitsOne(d.fields[i], old'[i], slots[i]);
  }

  lemma SplitsSlot(d: Desc, slots: seq<Slot>, i: nat, b: Bytes, p: nat, limit: nat) returns (q: nat)
    requires ShapedSlots(d, slots) && i < |slots|
    requires EncodeFields(d, slots, i).Some? && Spans(b, p, EncodeFields(d, slots, i).value, limit)
    ensures ShapedSlot(d.fields[i], slots[i])
    ensures EncodeSlot(d.fields[i], slots[i]).Some? && Spans(b, p, EncodeSlot(d.fields[i], slots[i]).value, q) && q <= limit
    ensures EncodeFields(d, slots, i + 1).Some? && Spans(b, q, EncodeFields(d, slots, i + 1).value, limit)
  {
    assert ShapedSlot(d.fields[i], slots[i]);
    var x := EncodeSlot(d.fields[i], slots[i]).value;
    q := p + |x|;
    SpanSplit(b, p, x, EncodeFields(d, slots, i + 1).value, limit);
  }

  /** The bytes of the fields from `i` on, up to `end`, whatever comes after them. */
  lemma {:induction false} DecodesFrom(d: Desc, old': seq<Slot>, slots: seq<Slot>, i: nat, b: Bytes, p: nat, end: nat,
                                       limit: nat, cur: seq<Slot>, seen: set<nat>) returns (seen': set<nat>)
    requires WellFormed(d) && ShapedSlots(d, old') && ShapedSlots(d, slots) && ExclusiveSlots(d, slots)
    requires Midway(d, old', slots, cur, i)
    requires ShapedSlots(d, cur) && SeenUpTo(d, i, seen) && end <= limit <= |b| < TWO_TO_THE_32
    requires EncodeFields(d, slots, i).Some? && Spans(b, p, EncodeFields(d, slots, i).value, end)
    ensures ShapedSlots(d, MergeSlots(d, old', slots, |slots|)) && SeenUpTo(d, |slots|, seen')
    ensures DecodeFields(d, b, p, limit, cur, seen)
         == if FitsSlots(d, old', slots, i) then DecodeFields(d, b, end, limit, MergeSlots(d, old', slots, |slots|), seen')
            else None
    decreases d, 4, |slots| - i
  {
    if i == |slots| {
      MidwayEnd(d, old', slots, cur);
      seen' := seen;
    } else {
      var q := SplitsSlot(d, slots, i, b, p, end);
      MidwayFits(d, old', slots, cur, i);
      assert ExclusiveSlot(d.fields[i], slots[i]);
      DecodesSlot(d, slots[i], i, b, p, q, limit, cur, seen);
      SeenNext(d, i, seen);
      MidwayNext(d, old', slots, cur, i);
      seen' := DecodesFrom(d, old', slots, i + 1, b, q, end, limit, Becomes(d, cur, i, slots[i]), See(d, i, seen));
    }
  }

  /** Main result: reading the bytes of a message into memory that holds another merges the two, exactly when there is
      room for what comes; otherwise it fails. */
  lemma {:induction false} DecodesInto(d: Desc, old': seq<Slot>, slots: seq<Slot>, b: Bytes, p: nat, limit: nat)
    requires WellFormed(d) && ShapedSlots(d, old') && ShapedSlots(d, slots) && ExclusiveSlots(d, slots)
    requires limit <= |b| < TWO_TO_THE_32
    requires EncodeFields(d, slots, 0).Some? && Spans(b, p, EncodeFields(d, slots, 0).value, limit)
    ensures DecodeFields(d, b, p, limit, old', {}) == Expected(d, old', slots)
    decreases d, 5
  {
    MidwayStart(d, old', slots);
    var seen := DecodesFrom(d, old', slots, 0, b, p, limit, limit, old', {});
  }

  /** Main result: whatever was encoded decodes to the same message, with unset fields at their defaults, exactly when
      every text that was written leaves room for its terminator; otherwise it does not decode at all. */
  lemma RoundTrip(d: Desc, slots: seq<Slot>)
    requires WellFormed(d) && ShapedSlots(d, slots) && ExclusiveSlots(d, slots)
    requires EncodeFields(d, slots, 0).Some? && |EncodeFields(d, slots, 0).value| < TWO_TO_THE_32
    ensures Decode(d, EncodeFields(d, slots, 0).value)
         == if FitsFrom(d, slots, 0) then Some(NormSlots(d, slots, |slots|)) else None
  {
    var b := EncodeFields(d, slots, 0).value;
    assert b[0..|b|] == b;
    DefaultsShaped(d);
    DecodesInto(d, DefaultSlots(d, |d.fields|), slots, b, 0, |b|);
    MergeIntoDefaults(d, slots);
    FitsIntoDefaults(d, slots);
  }

  /** Main result: the bytes of two messages, one after the other, decode to the second merged into the first. */
  lemma ConcatenationMerges(d: Desc, first: seq<Slot>, second: seq<Slot>)
    requires WellFormed(d) && ShapedSlots(d, first) && ExclusiveSlots(d, first)
    requires ShapedSlots(d, second) && ExclusiveSlots(d, second)
    requires EncodeFields(d, first, 0).Some? && EncodeFields(d, second, 0).Some?
    requires |EncodeFields(d, first, 0).value + EncodeFields(d, second, 0).value| < TWO_TO_THE_32
    ensures ShapedSlots(d, NormSlots(d, first, |first|))
    ensures Decode(d, EncodeFields(d, first, 0).value + EncodeFields(d, second, 0).value)
         == if FitsFrom(d, first, 0) then Expected(d, NormSlots(d, first, |first|), second) else None
  {
    var x, y := EncodeFields(d, first, 0).value, EncodeFields(d, second, 0).value;
    var b, start := x + y, DefaultSlots(d, |d.fields|);
    assert b[0..|x|] == x && b[|x|..|b|] == y;
    DefaultsShaped(d);
    MidwayStart(d, start, first);
    MergeIntoDefaults(d, first);
    FitsIntoDefaults(d, first);
    var seen := DecodesFrom(d, start, first, 0, b, 0, |x|, |b|, start, {});
    var middle := NormSlots(d, first, |first|);
    MidwayStart(d, middle, second);
    if FitsFrom(d, first, 0) {
      SecondHalf(d, middle, second, b, |x|, seen);
    }
  }

  lemma SecondHalf(d: Desc, old': seq<Slot>, slots: seq<Slot>, b: Bytes, p: nat, seen: set<nat>)
    requires WellFormed(d) && ShapedSlots(d, old') && ShapedSlots(d, slots) && ExclusiveSlots(d, slots)
    requires SeenUpTo(d, |slots|, seen) && |b| < TWO_TO_THE_32
    requires EncodeFields(d, slots, 0).Some? && Spans(b, p, EncodeFields(d, slots, 0).value, |b|)
    ensures DecodeFields(d, b, p, |b|, old', seen) == Expected(d, old', slots)
  {
    MidwayStart(d, old', slots);
    var seen' := DecodesFrom(d, old', slots, 0, b, p, |b|, |b|, old', seen);
  }

}
