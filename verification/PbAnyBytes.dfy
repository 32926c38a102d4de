/** What the decoder does with bytes no encoder of this message wrote (nanopb, pb_decode.c): it keeps within the memory
    of the message, and it passes over fields the message does not have. */
module PbAnyBytes {
  import opened DbFormat
  import opened Coding
  import opened PbWire
  import opened PbMessages
  import opened PbNorms
  import opened PbRoundTrips

  // ----- memory -----

  /** The value has its place: byte arrays and repeated fields hold no more than they were declared for, and no union
      has two values. */
  ghost predicate Held(kind: Kind, v: Value)
    requires Shaped(kind, v)
    decreases kind
  {
    match kind
    case ByteArray(max) => |v.b| <= max
    case Submessage(d) => HeldSlots(d, v.slots)
    case _ => true
  }

  ghost predicate HeldSlots(d: Desc, slots: seq<Slot>)
    requires ShapedSlots(d, slots)
    decreases d
  {
    (forall i | 0 <= i < |slots| :: HeldSlot(d.fields[i], slots[i])) && OneEach(d, slots)
  }

  predicate OneEach(d: Desc, slots: seq<Slot>)
    requires |slots| == |d.fields|
  {
    forall i, j | 0 <= i < j < |slots| && SameUnion(d, i, j) :: slots[i] == Alt(None) || slots[j] == Alt(None)
  }

  ghost predicate HeldSlot(f: Field, slot: Slot)
    requires ShapedSlot(f, slot)
    decreases f
  {
    match f.rule
    case Repeated(max) => |slot.items| <= max && forall k | 0 <= k < |slot.items| :: Held(f.kind, slot.items[k])
    case Oneof(_) => slot.alt.Some? ==> Held(f.kind, slot.alt.value)
    case _ => Held(f.kind, slot.v)
  }

  /** Every default has its place, at every depth. */
  ghost predicate RoomForDefaults(d: Desc)
    requires WellFormed(d)
    decreases d
  {
    forall i | 0 <= i < |d.fields| :: WellFormedField(d.fields[i]) && RoomForDefault(d.fields[i])
  }

  ghost predicate RoomForDefault(f: Field)
    requires WellFormedField(f)
    decreases f
  {
    && (f.dflt.Some? ==> Held(f.kind, f.dflt.value))
    && (f.kind.Submessage? ==> (assert WellFormedKind(f.kind); RoomForDefaults(f.kind.desc)))
  }

  lemma {:induction false} DefaultsHeld(d: Desc)
    requires WellFormed(d) && RoomForDefaults(d)
    ensures ShapedSlots(d, DefaultSlots(d, |d.fields|)) && HeldSlots(d, DefaultSlots(d, |d.fields|))
    decreases d, 1
  {
    DefaultsShaped(d);
    forall i | 0 <= i < |d.fields| && d.fields[i].rule.Oneof?
      ensures DefaultSlots(d, |d.fields|)[i] == Alt(None)
    {
      DefaultAt(d, |d.fields|, i);
    }
    forall i | 0 <= i < |d.fields|
      ensures HeldSlot(d.fields[i], DefaultSlots(d, |d.fields|)[i])
    {
      DefaultAt(d, |d.fields|, i);
      assert WellFormedField(d.fields[i]) && RoomForDefault(d.fields[i]);
      DefaultHeld(d.fields[i], d.fields[i].dflt);
    }
  }

  lemma {:induction false} DefaultHeld(f: Field, dflt: Option<Value>)
    requires WellFormedField(f) && RoomForDefault(f) && (dflt.Some? ==> dflt == f.dflt)
    ensures Shaped(f.kind, DefaultValue(f.kind, dflt)) && Held(f.kind, DefaultValue(f.kind, dflt))
    decreases f, 0
  {
    DefaultShaped(f.kind, dflt);
    if f.kind.Submessage? {
      DefaultsHeld(f.kind.desc);
    }
  }

  lemma StoreOneEach(d: Desc, i: nat, slots: seq<Slot>, v: Value)
    requires i < |d.fields| && ShapedSlots(d, slots) && OneEach(d, slots) && Shaped(d.fields[i].kind, v)
    ensures OneEach(d, Store(d, i, slots, v))
  {
    var s := Store(d, i, slots, v);
    forall j, k | 0 <= j < k < |slots| && SameUnion(d, j, k)
      ensures s[j] == Alt(None) || s[k] == Alt(None)
    {
      assert ShapedSlot(d.fields[i], slots[i]);
      assert slots[j] == Alt(None) || slots[k] == Alt(None);
    }
  }

  lemma StoreHeld(d: Desc, i: nat, slots: seq<Slot>, v: Value)
    requires i < |d.fields| && ShapedSlots(d, slots) && HeldSlots(d, slots)
    requires Shaped(d.fields[i].kind, v) && Held(d.fields[i].kind, v)
    requires d.fields[i].rule.Repeated? ==> ShapedSlot(d.fields[i], slots[i]) && |slots[i].items| < d.fields[i].rule.max
    ensures HeldSlots(d, Store(d, i, slots, v))
  {
    var s := Store(d, i, slots, v);
    StoreOneEach(d, i, slots, v);
    forall j | 0 <= j < |s|
      ensures HeldSlot(d.fields[j], s[j])
    {
      assert ShapedSlot(d.fields[j], slots[j]) && HeldSlot(d.fields[j], slots[j]);
      assert ShapedSlot(d.fields[i], slots[i]) && HeldSlot(d.fields[i], slots[i]);
    }
  }

  lemma TargetHeld(f: Field, slot: Slot)
    requires WellFormedField(f) && RoomForDefault(f) && ShapedSlot(f, slot) && HeldSlot(f, slot)
    ensures Shaped(f.kind, Target(f, slot)) && Held(f.kind, Target(f, slot))
  {
    TargetShaped(f, slot);
    DefaultHeld(f, None);
  }

  lemma {:induction false} PackedHeld(s: Scalar, b: Bytes, p: nat, limit: nat, max: nat, items: seq<Value>)
    requires p <= limit <= |b| && (forall k | 0 <= k < |items| :: Shaped(Number(s), items[k])) && |items| <= max
    ensures DecodePacked(s, b, p, limit, max, items).Some? ==> |DecodePacked(s, b, p, limit, max, items).value| <= max
    decreases limit - p
  {
    if p < limit && |items| < max {
      var v := DecodeScalar(s, b, p, limit);
      if v.Some? {
        PackedHeld(s, b, v.value.next, limit, max, items + [Int(v.value.value)]);
      }
    }
  }

  lemma {:induction false} ValueHeld(kind: Kind, b: Bytes, p: nat, limit: nat, old': Value)
    requires p <= limit <= |b| && WellFormedKind(kind) && (kind.Submessage? ==> RoomForDefaults(kind.desc))
    requires Shaped(kind, old') && Held(kind, old')
    ensures var r := DecodeValue(kind, b, p, limit, old'); r.Some? ==> Held(kind, r.value.value)
    decreases limit - p, 0
  {
    if kind.Submessage? {
      var w := Window(b, p, limit);
      if w.Some? {
        StaysInBounds(kind.desc, b, w.value.value, w.value.next, old'.slots, {});
      }
    }
  }

  lemma {:induction false} FieldHeld(d: Desc, i: nat, b: Bytes, p: nat, limit: nat, slots: seq<Slot>, wireType: nat)
    requires p <= limit <= |b| && i < |d.fields| && WellFormed(d) && RoomForDefaults(d)
    requires ShapedSlots(d, slots) && HeldSlots(d, slots)
    ensures var r := DecodeField(d, i, b, p, limit, slots, wireType); r.Some? ==> HeldSlots(d, r.value.value)
    decreases limit - p, 1
  {
    var f, slot := d.fields[i], slots[i];
    assert WellFormedField(f) && RoomForDefault(f) && ShapedSlot(f, slot) && HeldSlot(f, slot);
    if f.rule.Repeated? && wireType == WT_STRING && f.kind.Number? {
      var w := Window(b, p, limit);
      if w.Some? {
        PackedHeld(f.kind.s, b, w.value.value, w.value.next, f.rule.max, slot.items);
        NumbersHeld(d, i, slots, DecodePacked(f.kind.s, b, w.value.value, w.value.next, f.rule.max, slot.items));
      }
    } else if !(f.rule.Repeated? && |slot.items| >= f.rule.max) {
      TargetHeld(f, slot);
      var v := DecodeValue(f.kind, b, p, limit, Target(f, slot));
      ValueHeld(f.kind, b, p, limit, Target(f, slot));
      if v.Some? {
        StoreHeld(d, i, slots, v.value.value);
      }
    }
  }

  lemma NumbersHeld(d: Desc, i: nat, slots: seq<Slot>, items: Option<seq<Value>>)
    requires i < |d.fields| && ShapedSlots(d, slots) && HeldSlots(d, slots)
    requires d.fields[i].rule.Repeated? && d.fields[i].kind.Number? && items.Some? ==>
               |items.value| <= d.fields[i].rule.max
               && forall k | 0 <= k < |items.value| :: Shaped(d.fields[i].kind, items.value[k])
    requires d.fields[i].rule.Repeated? && d.fields[i].kind.Number?
    ensures items.Some? ==> ShapedSlots(d, slots[i := Many(items.value)]) && HeldSlots(d, slots[i := Many(items.value)])
  {
    if items.Some? {
      var s := slots[i := Many(items.value)];
      forall j, k | 0 <= j < k < |s| && SameUnion(d, j, k)
        ensures s[j] == Alt(None) || s[k] == Alt(None)
      {
        assert s[j] == slots[j] && s[k] == slots[k];
      }
      forall j | 0 <= j < |s|
        ensures ShapedSlot(d.fields[j], s[j]) && HeldSlot(d.fields[j], s[j])
      {
        assert ShapedSlot(d.fields[j], slots[j]) && HeldSlot(d.fields[j], slots[j]);
      }
    }
  }

  /** Whatever the bytes, nothing decoded outgrows its place, and no union gets two values. */
  lemma {:induction false} StaysInBounds(d: Desc, b: Bytes, p: nat, limit: nat, slots: seq<Slot>, seen: set<nat>)
    requires p <= limit <= |b| && WellFormed(d) && RoomForDefaults(d) && ShapedSlots(d, slots) && HeldSlots(d, slots)
    ensures var r := DecodeFields(d, b, p, limit, slots, seen); r.Some? ==> HeldSlots(d, r.value)
    decreases limit - p, 2
  {
    if p < limit {
      match DecodeTag(b, p, limit)
      case NoTag(eof) =>
      case Tag(tag, wireType, next) =>
        var i := IndexOf(d, tag, 0);
        if i < |d.fields| {
          var r := DecodeField(d, i, b, next, limit, slots, wireType);
          FieldHeld(d, i, b, next, limit, slots, wireType);
          if r.Some? {
            StaysInBounds(d, b, r.value.next, limit, r.value.value, See(d, i, seen));
          }
        } else {
          var n := SkipField(b, next, limit, wireType);
          if n.Some? && !(|d.fields| == 0 && tag == 0) {
            StaysInBounds(d, b, n.value, limit, slots, seen);
          }
        }
    }
  }

  /** The same of a whole message, from its defaults. */
  lemma DecodedIsHeld(d: Desc, b: Bytes)
    requires WellFormed(d) && RoomForDefaults(d)
    ensures Decode(d, b).Some? ==> ShapedSlots(d, Decode(d, b).value) && HeldSlots(d, Decode(d, b).value)
  {
    DefaultsHeld(d);
    StaysInBounds(d, b, 0, |b|, DefaultSlots(d, |d.fields|), {});
  }

  // ----- fields the message does not have -----

  /** A field on the wire, whoever declared it. */
  datatype Payload = Bits(v: nat) | Four(v: nat) | Eight(v: nat) | Chunk(b: Bytes)

  predicate Sendable(x: Payload) {
    match x
    case Bits(v) => v < TWO_TO_THE_64
    case Four(v) => v < TWO_TO_THE_32
    case Eight(v) => v < TWO_TO_THE_64
    case Chunk(b) => true
  }

  function Wire(tag: nat, x: Payload): Bytes
    requires Sendable(x)
  {
    match x
    case Bits(v) => EncodeTag(tag, WT_VARINT) + Varint(v)
    case Four(v) => EncodeTag(tag, WT_32BIT) + EncodeFixed32(v)
    case Eight(v) => EncodeTag(tag, WT_64BIT) + EncodeFixed64(v)
    case Chunk(b) => EncodeTag(tag, WT_STRING) + Prefixed(b)
  }

  lemma {:induction false} SkipsVarint(b: Bytes, p: nat, limit: nat, v: nat, next: nat)
    requires Spans(b, p, Varint(v), next) && next <= limit <= |b|
    ensures SkipVarint(b, p, limit) == Some(next)
    decreases v
  {
    assert b[p] == b[p..next][0];
    if 0x80 <= v {
      assert b[p + 1..next] == b[p..next][1..] == Varint(v / 0x80);
      SkipsVarint(b, p + 1, limit, v / 0x80, next);
    }
  }

  lemma SkipsOver(d: Desc, tag: nat, wireType: nat, b: Bytes, p: nat, m: nat, q: nat, limit: nat,
                  slots: seq<Slot>, seen: set<nat>)
    requires WellFormed(d) && ShapedSlots(d, slots) && 0 < tag && (forall f | f in d.fields :: f.tag != tag)
    requires p < m <= q <= limit <= |b| && DecodeTag(b, p, limit) == Tag(tag, wireType, m)
    requires SkipField(b, m, limit, wireType) == Some(q)
    ensures DecodeFields(d, b, p, limit, slots, seen) == DecodeFields(d, b, q, limit, slots, seen)
  {
    var i := IndexOf(d, tag, 0);
    forall j | 0 <= j < |d.fields|
      ensures d.fields[j].tag != tag
    {
      assert d.fields[j] in d.fields;
    }
  }

  /** A field the message does not have makes no difference, whatever it holds and wherever it stands. */
  lemma UnknownIsSkipped(d: Desc, tag: nat, x: Payload, b: Bytes, p: nat, q: nat, limit: nat, slots: seq<Slot>,
                         seen: set<nat>)
    requires WellFormed(d) && ShapedSlots(d, slots) && Sendable(x)
    requires 0 < tag < 0x2000_0000 && forall f | f in d.fields :: f.tag != tag
    requires Spans(b, p, Wire(tag, x), q) && q <= limit <= |b| < TWO_TO_THE_32
    ensures DecodeFields(d, b, p, limit, slots, seen) == DecodeFields(d, b, q, limit, slots, seen)
  {
    match x
    case Bits(v) =>
      var m := ReadsTag(tag, WT_VARINT, Varint(v), b, p, q, limit);
      SkipsVarint(b, m, limit, v, q);
      SkipsOver(d, tag, WT_VARINT, b, p, m, q, limit, slots, seen);
    case Four(v) =>
      var m := ReadsTag(tag, WT_32BIT, EncodeFixed32(v), b, p, q, limit);
      SkipsOver(d, tag, WT_32BIT, b, p, m, q, limit, slots, seen);
    case Eight(v) =>
      var m := ReadsTag(tag, WT_64BIT, EncodeFixed64(v), b, p, q, limit);
      SkipsOver(d, tag, WT_64BIT, b, p, m, q, limit, slots, seen);
    case Chunk(c) =>
      var m := ReadsTag(tag, WT_STRING, Prefixed(c), b, p, q, limit);
      var start := ReadsPrefix(b, m, c, q, limit);
      SkipsOver(d, tag, WT_STRING, b, p, m, q, limit, slots, seen);
  }
}
