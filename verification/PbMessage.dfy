/** Messages driven by descriptors (nanopb, pb_encode.c and pb_decode.c), for statically allocated fields.

    A message is one slot per field of its descriptor. The alternatives of a oneof share memory in the source; here at
    most one of their slots is chosen. */
module PbMessages {
  import opened DbFormat
  import opened Coding
  import opened PbWire

  datatype Kind =
    | Number(s: Scalar)
    | ByteArray(max: nat)
    | Text(size: nat)
    | FixedBytes(n: nat)
    | Submessage(desc: Desc)

  /** Optional fields have a `has_` flag, singular ones (proto3) do not. */
  datatype Rule = Required | Optional | Singular | Repeated(max: nat) | Oneof(group: nat)

  datatype Field = Field(tag: nat, kind: Kind, rule: Rule, dflt: Option<Value>)

  datatype Desc = Desc(fields: seq<Field>)

  datatype Value = Int(i: int) | Blob(b: Bytes) | Message(slots: seq<Slot>)

  datatype Slot = One(v: Value) | Maybe(has: bool, v: Value) | Many(items: seq<Value>) | Alt(alt: Option<Value>)

  // ----- what the C types allow -----

  /** A text is what stands before the terminator, if there is one. */
  predicate Shaped(kind: Kind, v: Value)
    decreases kind
  {
    match kind
    case Number(s) => v.Int? && InRange(s, v.i)
    case ByteArray(_) => v.Blob?
    case Text(size) => v.Blob? && |v.b| <= size && 0 !in v.b
    case FixedBytes(n) => v.Blob? && |v.b| == n
    case Submessage(d) => v.Message? && ShapedSlots(d, v.slots)
  }

  predicate ShapedSlots(d: Desc, slots: seq<Slot>)
    decreases d
  {
    |slots| == |d.fields| && forall i | 0 <= i < |slots| :: ShapedSlot(d.fields[i], slots[i])
  }

  predicate ShapedSlot(f: Field, slot: Slot)
    decreases f
  {
    match f.rule
    case Optional => slot.Maybe? && Shaped(f.kind, slot.v)
    case Repeated(_) => slot.Many? && forall k | 0 <= k < |slot.items| :: Shaped(f.kind, slot.items[k])
    case Oneof(_) => slot.Alt? && (slot.alt.Some? ==> Shaped(f.kind, slot.alt.value))
    case _ => slot.One? && Shaped(f.kind, slot.v)
  }

  /** Distinct tags of 29 bits, defaults of the right type, none for submessages and singular fields. */
  ghost predicate WellFormed(d: Desc)
    decreases d
  {
    && (forall i | 0 <= i < |d.fields| :: WellFormedField(d.fields[i]))
    && (forall i, j | 0 <= i < j < |d.fields| :: d.fields[i].tag != d.fields[j].tag)
  }

  ghost predicate WellFormedField(f: Field)
    decreases f
  {
    && 0 < f.tag < 0x2000_0000
    && (f.dflt.Some? ==> !f.kind.Submessage? && !f.rule.Singular? && Shaped(f.kind, f.dflt.value))
    && WellFormedKind(f.kind)
  }

  ghost predicate WellFormedKind(kind: Kind)
    decreases kind
  {
    kind.Submessage? ==> WellFormed(kind.desc)
  }

  // ----- defaults -----

  function Zeros(n: nat): Bytes {
    seq(n, _ => 0)
  }

  /** The initial value of a field that is not an array or in a union. */
  function DefaultValue(kind: Kind, dflt: Option<Value>): Value
    decreases kind, 1
  {
    match kind
    case Submessage(d) => Message(DefaultSlots(d, |d.fields|))
    case Number(_) => if dflt.Some? then dflt.value else Int(0)
    case FixedBytes(n) => if dflt.Some? then dflt.value else Blob(Zeros(n))
    case _ => if dflt.Some? then dflt.value else Blob([])
  }

  function DefaultSlots(d: Desc, n: nat): (slots: seq<Slot>)
    requires n <= |d.fields|
    ensures |slots| == n
    decreases d, n
  {
    if n == 0 then [] else DefaultSlots(d, n - 1) + [DefaultSlot(d.fields[n - 1])]
  }

  function DefaultSlot(f: Field): Slot
    decreases f
  {
    match f.rule
    case Optional => Maybe(false, DefaultValue(f.kind, f.dflt))
    case Repeated(_) => Many([])
    case Oneof(_) => Alt(None)
    case _ => One(DefaultValue(f.kind, f.dflt))
  }

  lemma {:induction false} DefaultAt(d: Desc, n: nat, i: nat)
    requires i < n <= |d.fields|
    ensures DefaultSlots(d, n)[i] == DefaultSlot(d.fields[i])
  {
    if i < n - 1 {
      DefaultAt(d, n - 1, i);
    }
  }

  lemma {:induction false} DefaultsShaped(d: Desc)
    requires WellFormed(d)
    ensures ShapedSlots(d, DefaultSlots(d, |d.fields|))
    decreases d
  {
    forall i | 0 <= i < |d.fields|
      ensures ShapedSlot(d.fields[i], DefaultSlots(d, |d.fields|)[i])
    {
      DefaultAt(d, |d.fields|, i);
      assert WellFormedField(d.fields[i]);
      DefaultShaped(d.fields[i].kind, d.fields[i].dflt);
    }
  }

  lemma {:induction false} DefaultShaped(kind: Kind, dflt: Option<Value>)
    requires WellFormedKind(kind) && (dflt.Some? ==> !kind.Submessage? && Shaped(kind, dflt.value))
    ensures Shaped(kind, DefaultValue(kind, dflt))
    decreases kind
  {
    if kind.Submessage? {
      DefaultsShaped(kind.desc);
    }
  }

  // ----- encoding -----

  /** pb_check_proto3_default_value. */
  predicate IsZero(kind: Kind, v: Value)
    requires Shaped(kind, v)
    decreases kind
  {
    match kind
    case Number(_) => v.i == 0
    case FixedBytes(n) => n == 0
    case Submessage(d) =>
      assert ShapedSlots(d, v.slots);
      forall i | 0 <= i < |v.slots| :: ZeroSlot(d.fields[i], v.slots[i])
    case _ => v.b == []
  }

  predicate ZeroSlot(f: Field, slot: Slot)
    requires ShapedSlot(f, slot)
    decreases f
  {
    match f.rule
    case Required => false
    case Optional => !slot.has
    case Singular => IsZero(f.kind, slot.v)
    case Repeated(_) => slot.items == []
    case Oneof(_) => slot.alt.None?
  }

  function Join(a: Option<Bytes>, b: Option<Bytes>): Option<Bytes> {
    if a.None? || b.None? then None else Some(a.value + b.value)
  }

  function Prefixed(b: Bytes): Bytes {
    Varint(|b|) + b
  }

  function WireTypeOf(kind: Kind): (w: nat)
    ensures w < 8
  {
    if kind.Number? then WireType(kind.s) else WT_STRING
  }

  /** The bytes of a value, or None where the source reports an error. */
  function EncodeValue(kind: Kind, v: Value): Option<Bytes>
    requires Shaped(kind, v)
    decreases kind
  {
    match kind
    case Number(s) => Some(EncodeScalar(s, v.i))
    case ByteArray(max) => if |v.b| > max then None else Some(Prefixed(v.b))
    case Submessage(d) =>
      var m := EncodeFields(d, v.slots, 0);
      if m.None? then None else Some(Prefixed(m.value))
    case _ => Some(Prefixed(v.b))
  }

  function EncodeTagged(f: Field, v: Value): Option<Bytes>
    requires Shaped(f.kind, v)
    decreases f, 0
  {
    Join(Some(EncodeTag(f.tag, WireTypeOf(f.kind))), EncodeValue(f.kind, v))
  }

  function EncodeNumbers(s: Scalar, items: seq<Value>, k: nat): Bytes
    requires k <= |items| && forall j | 0 <= j < |items| :: Shaped(Number(s), items[j])
    decreases |items| - k
  {
    if k == |items| then [] else
    assert Shaped(Number(s), items[k]);
    EncodeScalar(s, items[k].i) + EncodeNumbers(s, items, k + 1)
  }

  function EncodeItems(f: Field, items: seq<Value>, k: nat): Option<Bytes>
    requires k <= |items| && forall j | 0 <= j < |items| :: Shaped(f.kind, items[j])
    decreases f, 1, |items| - k
  {
    if k == |items| then Some([]) else Join(EncodeTagged(f, items[k]), EncodeItems(f, items, k + 1))
  }

  /** Arrays of numbers are always packed. */
  function EncodeArray(f: Field, items: seq<Value>, max: nat): Option<Bytes>
    requires forall j | 0 <= j < |items| :: Shaped(f.kind, items[j])
    decreases f, 2
  {
    if items == [] then Some([])
    else if |items| > max then None
    else if f.kind.Number? then Some(EncodeTag(f.tag, WT_STRING) + Prefixed(EncodeNumbers(f.kind.s, items, 0)))
    else EncodeItems(f, items, 0)
  }

  function EncodeSlot(f: Field, slot: Slot): Option<Bytes>
    requires ShapedSlot(f, slot)
    decreases f, 3
  {
    match f.rule
    case Required => EncodeTagged(f, slot.v)
    case Optional => if slot.has then EncodeTagged(f, slot.v) else Some([])
    case Singular => if IsZero(f.kind, slot.v) then Some([]) else EncodeTagged(f, slot.v)
    case Repeated(max) => EncodeArray(f, slot.items, max)
    case Oneof(_) => if slot.alt.None? then Some([]) else EncodeTagged(f, slot.alt.value)
  }

  /** The fields from number `i` on. */
  function EncodeFields(d: Desc, slots: seq<Slot>, i: nat): Option<Bytes>
    requires ShapedSlots(d, slots) && i <= |slots|
    decreases d, |slots| - i
  {
    if i == |slots| then Some([]) else Join(EncodeSlot(d.fields[i], slots[i]), EncodeFields(d, slots, i + 1))
  }

  // ----- decoding -----

  function SkipVarint(b: Bytes, p: nat, limit: nat): (r: Option<nat>)
    requires limit <= |b|
    ensures r.Some? ==> p < r.value <= limit
    decreases if p < limit then limit - p else 0
  {
    if limit <= p then None else if b[p] < 0x80 then Some(p + 1) else SkipVarint(b, p + 1, limit)
  }

  function SkipField(b: Bytes, p: nat, limit: nat, wireType: nat): (r: Option<nat>)
    requires limit <= |b|
    ensures r.Some? ==> p < r.value <= limit
  {
    if wireType == WT_VARINT then SkipVarint(b, p, limit)
    else if wireType == WT_64BIT then if limit < p + 8 then None else Some(p + 8)
    else if wireType == WT_32BIT then if limit < p + 4 then None else Some(p + 4)
    else if wireType == WT_STRING then
      var n := DecodeVarint32(b, p, limit);
      if n.None? || limit < n.value.next + n.value.value then None else Some(n.value.next + n.value.value)
    else None
  }

  /** The window of a length-delimited value: its start, and its end as `next`. */
  function Window(b: Bytes, p: nat, limit: nat): (r: Option<Got<nat>>)
    requires limit <= |b|
    ensures r.Some? ==> p < r.value.value <= r.value.next <= limit
  {
    var n := DecodeVarint32(b, p, limit);
    if n.None? || limit < n.value.next + n.value.value then None
    else Some(Got(n.value.next, n.value.next + n.value.value))
  }

  function UpToNul(b: Bytes): (t: Bytes)
    ensures 0 !in t && |t| <= |b|
    ensures 0 !in b ==> t == b
    decreases |b|
  {
    if b == [] || b[0] == 0 then [] else [b[0]] + UpToNul(b[1..])
  }

  function DecodeBlob(kind: Kind, b: Bytes, p: nat, limit: nat): (r: Option<Got<Value>>)
    requires limit <= |b| && (kind.ByteArray? || kind.Text? || kind.FixedBytes?)
    ensures r.Some? ==> Shaped(kind, r.value.value) && p < r.value.next <= limit
  {
    var n := DecodeVarint32(b, p, limit);
    if n.None? then None else
    var start, size := n.value.next, n.value.value;
    if kind.FixedBytes? && size == 0 then Some(Got(Blob(Zeros(kind.n)), start))
    else if kind.ByteArray? && kind.max < size then None
    else if kind.Text? && kind.size < size + 1 then None
    else if kind.FixedBytes? && size != kind.n then None
    else if limit < start + size then None
    else
      var bytes := b[start..start + size];
      Some(Got(Blob(if kind.Text? then UpToNul(bytes) else bytes), start + size))
  }

  function DecodePacked(s: Scalar, b: Bytes, p: nat, limit: nat, max: nat, items: seq<Value>): (r: Option<seq<Value>>)
    requires p <= limit <= |b| && forall k | 0 <= k < |items| :: Shaped(Number(s), items[k])
    ensures r.Some? ==> forall k | 0 <= k < |r.value| :: Shaped(Number(s), r.value[k])
    decreases limit - p
  {
    if p == limit then Some(items)
    else if |items| >= max then None
    else
      var v := DecodeScalar(s, b, p, limit);
      if v.None? then None else DecodePacked(s, b, v.value.next, limit, max, items + [Int(v.value.value)])
  }

  /** IndexOf: the field with this tag, or the number of fields. */
  function IndexOf(d: Desc, tag: nat, i: nat): (k: nat)
    requires i <= |d.fields|
    ensures i <= k <= |d.fields| && (k < |d.fields| ==> d.fields[k].tag == tag)
    ensures forall j | i <= j < k :: d.fields[j].tag != tag
    decreases |d.fields| - i
  {
    if i == |d.fields| || d.fields[i].tag == tag then i else IndexOf(d, tag, i + 1)
  }

  function Unchosen(d: Desc, slots: seq<Slot>, group: nat): (s: seq<Slot>)
    requires |slots| == |d.fields|
    ensures |s| == |slots|
  {
    seq(|slots|, j requires 0 <= j < |slots| => if d.fields[j].rule == Oneof(group) then Alt(None) else slots[j])
  }

  /** A decoded value put in its place; choosing an alternative of a union gives up the others. */
  function Store(d: Desc, i: nat, slots: seq<Slot>, v: Value): (s: seq<Slot>)
    requires i < |d.fields| && ShapedSlots(d, slots) && Shaped(d.fields[i].kind, v)
    ensures ShapedSlots(d, s)
  {
    assert ShapedSlot(d.fields[i], slots[i]);
    match d.fields[i].rule
    case Optional => slots[i := Maybe(true, v)]
    case Repeated(_) => slots[i := Many(slots[i].items + [v])]
    case Oneof(group) => Unchosen(d, slots, group)[i := Alt(Some(v))]
    case _ => slots[i := One(v)]
  }

  /** The memory a value is decoded into; only a submessage looks at it. */
  function Target(f: Field, slot: Slot): Value
    requires ShapedSlot(f, slot)
  {
    match f.rule
    case Repeated(_) => DefaultValue(f.kind, None)
    case Oneof(_) => DefaultValue(f.kind, None)
    case _ => slot.v
  }

  lemma TargetShaped(f: Field, slot: Slot)
    requires WellFormedField(f) && ShapedSlot(f, slot)
    ensures Shaped(f.kind, Target(f, slot))
  {
    DefaultShaped(f.kind, None);
  }

  /** How many required fields come before field `i`. */
  function RequiredBefore(d: Desc, i: nat): nat
    requires i <= |d.fields|
  {
    if i == 0 then 0 else RequiredBefore(d, i - 1) + (if d.fields[i - 1].rule.Required? then 1 else 0)
  }

  const MAX_REQUIRED_FIELDS: nat := 64

  /** Only the first 64 required fields are looked after. */
  function See(d: Desc, i: nat, seen: set<nat>): set<nat>
    requires i < |d.fields|
  {
    var r := RequiredBefore(d, i);
    if d.fields[i].rule.Required? && r < MAX_REQUIRED_FIELDS then seen + {r} else seen
  }

  function Finish(d: Desc, slots: seq<Slot>, seen: set<nat>): (r: Option<seq<Slot>>)
    ensures r.Some? ==> r.value == slots
  {
    if forall k | 0 <= k < RequiredBefore(d, |d.fields|) && k < MAX_REQUIRED_FIELDS :: k in seen then Some(slots) else None
  }

  ghost function DecodeValue(kind: Kind, b: Bytes, p: nat, limit: nat, old': Value): (r: Option<Got<Value>>)
    requires p <= limit <= |b| && WellFormedKind(kind) && Shaped(kind, old')
    ensures r.Some? ==> Shaped(kind, r.value.value) && p < r.value.next <= limit
    decreases limit - p, 0
  {
    match kind
    case Number(s) =>
      var v := DecodeScalar(s, b, p, limit);
      if v.None? then None else Some(Got(Int(v.value.value), v.value.next))
    case Submessage(d) =>
      var w := Window(b, p, limit);
      if w.None? then None else
      var m := DecodeFields(d, b, w.value.value, w.value.next, old'.slots, {});
      if m.None? then None else Some(Got(Message(m.value), w.value.next))
    case _ => DecodeBlob(kind, b, p, limit)
  }

  ghost function DecodeField(d: Desc, i: nat, b: Bytes, p: nat, limit: nat, slots: seq<Slot>, wireType: nat)
      : (r: Option<Got<seq<Slot>>>)
    requires p <= limit <= |b| && i < |d.fields| && WellFormed(d) && ShapedSlots(d, slots)
    ensures r.Some? ==> ShapedSlots(d, r.value.value) && p < r.value.next <= limit
    decreases limit - p, 1
  {
    var f, slot := d.fields[i], slots[i];
    assert WellFormedField(f) && ShapedSlot(f, slot);
    if f.rule.Repeated? && wireType == WT_STRING && f.kind.Number? then
      var w := Window(b, p, limit);
      if w.None? then None else
      var items := DecodePacked(f.kind.s, b, w.value.value, w.value.next, f.rule.max, slot.items);
      if items.None? then None else Some(Got(slots[i := Many(items.value)], w.value.next))
    else if f.rule.Repeated? && |slot.items| >= f.rule.max then None
    else
      TargetShaped(f, slot);
      var v := DecodeValue(f.kind, b, p, limit, Target(f, slot));
      if v.None? then None else Some(Got(Store(d, i, slots, v.value.value), v.value.next))
  }

  /** pb_decode_noinit: fields in any order, unknown ones skipped. */
  ghost function DecodeFields(d: Desc, b: Bytes, p: nat, limit: nat, slots: seq<Slot>, seen: set<nat>): (r: Option<seq<Slot>>)
    requires p <= limit <= |b| && WellFormed(d) && ShapedSlots(d, slots)
    ensures r.Some? ==> ShapedSlots(d, r.value)
    decreases limit - p, 2
  {
    if p == limit then Finish(d, slots, seen) else
    match DecodeTag(b, p, limit)
    case NoTag(eof) => if eof then Finish(d, slots, seen) else None
    case Tag(tag, wireType, next) =>
      var i := IndexOf(d, tag, 0);
      if i < |d.fields| then
        var r := DecodeField(d, i, b, next, limit, slots, wireType);
        if r.None? then None else DecodeFields(d, b, r.value.next, limit, r.value.value, See(d, i, seen))
      else if |d.fields| == 0 && tag == 0 then None
      else
        var n := SkipField(b, next, limit, wireType);
        if n.None? then None else DecodeFields(d, b, n.value, limit, slots, seen)
  }

  /** pb_decode. */
  ghost function Decode(d: Desc, b: Bytes): Option<seq<Slot>>
    requires WellFormed(d)
  {
    DefaultsShaped(d);
    DecodeFields(d, b, 0, |b|, DefaultSlots(d, |d.fields|), {})
  }
}
