/** Writing a message to a stream (nanopb, pb_encode.c). */
module PbEncoders {
  import opened DbFormat
  import opened Coding
  import opened PbWire
  import opened PbMessages

  /** The state of an output stream. A sizing stream only counts. */
  datatype Out = Out(sizing: bool, maxSize: nat, count: nat, bytes: Bytes)

  predicate Room(o: Out, n: nat) {
    o.sizing || o.count + n <= o.maxSize
  }

  function After(o: Out, x: Bytes): Out {
    o.(count := o.count + |x|, bytes := if o.sizing then o.bytes else o.bytes + x)
  }

  lemma AfterBoth(o: Out, x: Bytes, y: Bytes)
    ensures After(After(o, x), y) == After(o, x + y) && After(o, []) == o
    ensures Room(o, |x + y|) <==> Room(o, |x|) && Room(After(o, x), |y|)
  {
    assert o.bytes + x + y == o.bytes + (x + y) && o.bytes + [] == o.bytes;
  }

  /** What one encoder does to a stream: all of the bytes, if there are any and they fit. */
  ghost predicate Writes(o: Out, o': Out, ok: bool, x: Option<Bytes>) {
    && ok == (x.Some? && Room(o, |x.value|))
    && (ok ==> o' == After(o, x.value))
  }

  /** Writing `rest` from state `m` is what remains of writing `total` from state `o`. */
  ghost predicate Leads(o: Out, total: Option<Bytes>, m: Out, rest: Option<Bytes>) {
    && total.Some? == rest.Some? && Room(m, 0)
    && (rest.Some? ==> After(m, rest.value) == After(o, total.value)
                       && (Room(m, |rest.value|) <==> Room(o, |total.value|)))
  }

  lemma Start(o: Out, total: Option<Bytes>)
    requires Room(o, 0)
    ensures Leads(o, total, o, total)
  {
  }

  lemma Next(o: Out, total: Option<Bytes>, m: Out, m': Out, ok: bool, x: Option<Bytes>, rest: Option<Bytes>)
    requires Leads(o, total, m, Join(x, rest)) && Writes(m, m', ok, x)
    ensures if ok then Leads(o, total, m', rest) else Writes(o, m', false, total)
  {
    if x.Some? && rest.Some? {
      AfterBoth(m, x.value, rest.value);
    }
  }

  lemma Done(o: Out, total: Option<Bytes>, m: Out)
    requires Leads(o, total, m, Some([]))
    ensures Writes(o, m, true, total)
  {
    AfterBoth(m, [], []);
  }

  lemma Last(o: Out, total: Option<Bytes>, m: Out, m': Out, ok: bool, x: Option<Bytes>)
    requires Leads(o, total, m, x) && Writes(m, m', ok, x)
    ensures Writes(o, m', ok, total)
  {
  }

  /** The last byte without its top bit. */
  function Capped(b: Bytes): Bytes
    requires b != [] && b[|b| - 1] >= 0x80
  {
    b[|b| - 1 := b[|b| - 1] - 0x80]
  }

  lemma Grows(buffer: Bytes, v: nat, next: byte)
    requires 0 < v && next == (v % 0x80 + 0x80) as byte
    ensures if v < 0x80 then Capped(buffer + [next]) == buffer + Varint(v)
            else buffer + [next] + Varint(v / 0x80) == buffer + Varint(v)
  {
    if v < 0x80 {
      assert Varint(v) == [v as byte];
    } else {
      assert Varint(v) == [next] + Varint(v / 0x80);
    }
  }

  class OStream {
    const sizing: bool
    const maxSize: nat
    var bytesWritten: nat
    var out: Bytes

    function Now(): Out
      reads this
    {
      Out(sizing, maxSize, bytesWritten, out)
    }

    constructor (sizing: bool, maxSize: nat, out: Bytes)
      ensures Now() == Out(sizing, maxSize, 0, out)
    {
      this.sizing, this.maxSize, this.bytesWritten, this.out := sizing, maxSize, 0, out;
    }

    method Write(buf: Bytes) returns (ok: bool)
      modifies this
      ensures Writes(old(Now()), Now(), ok, Some(buf))
    {
      if !sizing {
        if bytesWritten + |buf| > maxSize {
          return false;
        }
        out := out + buf;
      }
      bytesWritten := bytesWritten + |buf|;
      return true;
    }

    /** pb_write of no buffer, in a sizing stream. */
    method WriteSize(ghost x: Bytes, size: nat) returns (ok: bool)
      requires sizing && size == |x|
      modifies this
      ensures Writes(old(Now()), Now(), ok, Some(x))
    {
      bytesWritten := bytesWritten + size;
      return true;
    }

    /** Every byte gets its top bit set, and the last one loses it again. */
    method EncodeVarint(value: nat) returns (ok: bool)
      modifies this
      ensures Writes(old(Now()), Now(), ok, Some(Varint(value)))
    {
      if value <= 0x7F {
        ok := Write([value as byte]);
        return;
      }
      var buffer: Bytes := [];
      var v := value;
      while v != 0
        invariant unchanged(this) && (buffer == [] ==> v == value)
        invariant v != 0 ==> buffer + Varint(v) == Varint(value)
        invariant v == 0 ==> buffer != [] && buffer[|buffer| - 1] >= 0x80 && Capped(buffer) == Varint(value)
      {
        var next := (v % 0x80 + 0x80) as byte;
        Grows(buffer, v, next);
        buffer := buffer + [next];
        v := v / 0x80;
      }
      buffer := buffer[|buffer| - 1 := buffer[|buffer| - 1] - 0x80];
      assert buffer == Varint(value);
      ok := Write(buffer);
    }

    method EncodeString(b: Bytes) returns (ok: bool)
      requires Room(Now(), 0)
      modifies this
      ensures Writes(old(Now()), Now(), ok, Some(Prefixed(b)))
    {
      ghost var o, total := Now(), Some(Prefixed(b));
      Start(o, total);
      ok := EncodeVarint(|b|);
      Next(o, total, o, Now(), ok, Some(Varint(|b|)), Some(b));
      if ok {
        ghost var m := Now();
        ok := Write(b);
        Last(o, total, m, Now(), ok, Some(b));
      }
    }
  }

  method WriteScalar(o: OStream, s: Scalar, i: int) returns (ok: bool)
    requires InRange(s, i)
    modifies o
    ensures Writes(old(o.Now()), o.Now(), ok, Some(EncodeScalar(s, i)))
  {
    match s
    case Signed(_) => ok := o.EncodeVarint(i % TWO_TO_THE_64);
    case Unsigned(_) => ok := o.EncodeVarint(i);
    case Zigzagged(_) => ok := o.EncodeVarint(Zigzag(i));
    case Fixed32 => ok := o.Write(EncodeFixed32(i));
    case Fixed64 => ok := o.Write(EncodeFixed64(i));
  }

  lemma {:induction false} FixedSize(s: Scalar, items: seq<Value>, k: nat, size: nat)
    requires k <= |items| && forall j | 0 <= j < |items| :: Shaped(Number(s), items[j])
    requires (s.Fixed32? && size == 4) || (s.Fixed64? && size == 8)
    ensures |EncodeNumbers(s, items, k)| == size * (|items| - k)
    decreases |items| - k
  {
    if k < |items| {
      FixedSize(s, items, k + 1, size);
    }
  }

  method WriteNumbers(o: OStream, s: Scalar, items: seq<Value>) returns (ok: bool)
    requires Room(o.Now(), 0) && forall j | 0 <= j < |items| :: Shaped(Number(s), items[j])
    modifies o
    ensures Writes(old(o.Now()), o.Now(), ok, Some(EncodeNumbers(s, items, 0)))
  {
    ghost var start, total := o.Now(), Some(EncodeNumbers(s, items, 0));
    Start(start, total);
    for k := 0 to |items|
      invariant Leads(start, total, o.Now(), Some(EncodeNumbers(s, items, k)))
    {
      ghost var m := o.Now();
      assert Shaped(Number(s), items[k]);
      ok := WriteScalar(o, s, items[k].i);
      Next(start, total, m, o.Now(), ok, Some(EncodeScalar(s, items[k].i)), Some(EncodeNumbers(s, items, k + 1)));
      if !ok {
        return;
      }
    }
    Done(start, total, o.Now());
    ok := true;
  }

  /** The size of a packed array, found by arithmetic or by a sizing stream. */
  method PackedSize(s: Scalar, items: seq<Value>) returns (size: nat)
    requires forall j | 0 <= j < |items| :: Shaped(Number(s), items[j])
    ensures size == |EncodeNumbers(s, items, 0)|
  {
    if s.Fixed32? {
      FixedSize(s, items, 0, 4);
      size := 4 * |items|;
    } else if s.Fixed64? {
      FixedSize(s, items, 0, 8);
      size := 8 * |items|;
    } else {
      var sizing := new OStream(true, 0, []);
      var ok := WriteNumbers(sizing, s, items);
      size := sizing.bytesWritten;
    }
  }

  method WritePacked(o: OStream, s: Scalar, items: seq<Value>) returns (ok: bool)
    requires Room(o.Now(), 0) && forall j | 0 <= j < |items| :: Shaped(Number(s), items[j])
    modifies o
    ensures Writes(old(o.Now()), o.Now(), ok, Some(Prefixed(EncodeNumbers(s, items, 0))))
  {
    ghost var start, x := o.Now(), EncodeNumbers(s, items, 0);
    ghost var total := Some(Prefixed(x));
    Start(start, total);
    var size := PackedSize(s, items);
    ok := o.EncodeVarint(size);
    Next(start, total, start, o.Now(), ok, Some(Varint(size)), Some(x));
    if !ok {
      return;
    }
    ghost var m := o.Now();
    if o.sizing {
      ok := o.WriteSize(x, size);
    } else {
      ok := WriteNumbers(o, s, items);
    }
    Last(start, total, m, o.Now(), ok, Some(x));
  }

  method WriteValue(o: OStream, kind: Kind, v: Value) returns (ok: bool)
    requires Room(o.Now(), 0) && Shaped(kind, v)
    modifies o
    ensures Writes(old(o.Now()), o.Now(), ok, EncodeValue(kind, v))
    decreases kind
  {
    match kind
    case Number(s) =>
      ok := WriteScalar(o, s, v.i);
    case ByteArray(max) =>
      if |v.b| > max {
        return false;
      }
      ok := o.EncodeString(v.b);
    case Submessage(d) =>
      ok := WriteSubmessage(o, d, v.slots);
    case _ =>
      ok := o.EncodeString(v.b);
  }

  /** The size is found first, with a sizing stream; the message is then written by a stream of just that size, and the
      second pass never disagrees with the first. */
  method WriteSubmessage(o: OStream, d: Desc, slots: seq<Slot>) returns (ok: bool)
    requires Room(o.Now(), 0) && ShapedSlots(d, slots)
    modifies o
    ensures var m := EncodeFields(d, slots, 0);
            Writes(old(o.Now()), o.Now(), ok, if m.None? then None else Some(Prefixed(m.value)))
    decreases d, |slots| + 1
  {
    var sub := new OStream(true, 0, []);
    ok := WriteMessage(sub, d, slots);
    if !ok {
      return;
    }
    var size := sub.bytesWritten;
    ghost var start, x := o.Now(), EncodeFields(d, slots, 0).value;
    ghost var total := Some(Prefixed(x));
    Start(start, total);
    ok := o.EncodeVarint(size);
    Next(start, total, start, o.Now(), ok, Some(Varint(size)), Some(x));
    if !ok {
      return;
    }
    ghost var m := o.Now();
    if o.sizing {
      ok := o.WriteSize(x, size);
    } else if o.bytesWritten + size > o.maxSize {
      ok := false;
    } else {
      sub := new OStream(false, size, o.out);
      var status := WriteMessage(sub, d, slots);
      assert sub.bytesWritten == size;
      o.bytesWritten := o.bytesWritten + sub.bytesWritten;
      o.out := sub.out;
      ok := if sub.bytesWritten != size then false else status;
    }
    Last(start, total, m, o.Now(), ok, Some(x));
  }

  method WriteTagged(o: OStream, f: Field, v: Value) returns (ok: bool)
    requires Room(o.Now(), 0) && Shaped(f.kind, v)
    modifies o
    ensures Writes(old(o.Now()), o.Now(), ok, EncodeTagged(f, v))
    decreases f, 0
  {
    ghost var start, total, x := o.Now(), EncodeTagged(f, v), EncodeTag(f.tag, WireTypeOf(f.kind));
    Start(start, total);
    ok := o.EncodeVarint(8 * f.tag + WireTypeOf(f.kind));
    Next(start, total, start, o.Now(), ok, Some(x), EncodeValue(f.kind, v));
    if ok {
      ghost var m := o.Now();
      ok := WriteValue(o, f.kind, v);
      Last(start, total, m, o.Now(), ok, EncodeValue(f.kind, v));
    }
  }

  method WriteItems(o: OStream, f: Field, items: seq<Value>) returns (ok: bool)
    requires Room(o.Now(), 0) && forall j | 0 <= j < |items| :: Shaped(f.kind, items[j])
    modifies o
    ensures Writes(old(o.Now()), o.Now(), ok, EncodeItems(f, items, 0))
    decreases f, 1
  {
    ghost var start, total := o.Now(), EncodeItems(f, items, 0);
    Start(start, total);
    for k := 0 to |items|
      invariant Leads(start, total, o.Now(), EncodeItems(f, items, k))
    {
      ghost var m := o.Now();
      ok := WriteTagged(o, f, items[k]);
      Next(start, total, m, o.Now(), ok, EncodeTagged(f, items[k]), EncodeItems(f, items, k + 1));
      if !ok {
        return;
      }
    }
    Done(start, total, o.Now());
    ok := true;
  }

  method WriteArray(o: OStream, f: Field, items: seq<Value>, max: nat) returns (ok: bool)
    requires Room(o.Now(), 0) && forall j | 0 <= j < |items| :: Shaped(f.kind, items[j])
    modifies o
    ensures Writes(old(o.Now()), o.Now(), ok, EncodeArray(f, items, max))
    decreases f, 2
  {
    if items == [] {
      AfterBoth(o.Now(), [], []);
      return true;
    }
    if |items| > max {
      return false;
    }
    if f.kind.Number? {
      ghost var start, total, x := o.Now(), EncodeArray(f, items, max), Prefixed(EncodeNumbers(f.kind.s, items, 0));
      Start(start, total);
      ok := o.EncodeVarint(8 * f.tag + WT_STRING);
      Next(start, total, start, o.Now(), ok, Some(EncodeTag(f.tag, WT_STRING)), Some(x));
      if ok {
        ghost var m := o.Now();
        ok := WritePacked(o, f.kind.s, items);
        Last(start, total, m, o.Now(), ok, Some(x));
      }
    } else {
      ok := WriteItems(o, f, items);
    }
  }

  /** encode_basic_field. */
  method WriteField(o: OStream, f: Field, slot: Slot) returns (ok: bool)
    requires Room(o.Now(), 0) && ShapedSlot(f, slot)
    modifies o
    ensures Writes(old(o.Now()), o.Now(), ok, EncodeSlot(f, slot))
    decreases f, 3
  {
    AfterBoth(o.Now(), [], []);
    ok := true;
    match f.rule {
      case Required =>
        ok := WriteTagged(o, f, slot.v);
      case Optional =>
        if slot.has {
          ok := WriteTagged(o, f, slot.v);
        }
      case Singular =>
        if !IsZero(f.kind, slot.v) {
          ok := WriteTagged(o, f, slot.v);
        }
      case Repeated(max) =>
        ok := WriteArray(o, f, slot.items, max);
      case Oneof(_) =>
        if slot.alt.Some? {
          ok := WriteTagged(o, f, slot.alt.value);
        }
    }
  }

  /** pb_encode succeeds exactly when no array is overfull and the stream has room for all of the message; a sizing
      stream then counts the bytes a buffer stream writes. */
  method WriteMessage(o: OStream, d: Desc, slots: seq<Slot>) returns (ok: bool)
    requires Room(o.Now(), 0) && ShapedSlots(d, slots)
    modifies o
    ensures Writes(old(o.Now()), o.Now(), ok, EncodeFields(d, slots, 0))
    decreases d, |slots|
  {
    ghost var start, total := o.Now(), EncodeFields(d, slots, 0);
    Start(start, total);
    for i := 0 to |slots|
      invariant Leads(start, total, o.Now(), EncodeFields(d, slots, i))
    {
      ghost var m := o.Now();
      assert ShapedSlot(d.fields[i], slots[i]);
      ok := WriteField(o, d.fields[i], slots[i]);
      Next(start, total, m, o.Now(), ok, EncodeSlot(d.fields[i], slots[i]), EncodeFields(d, slots, i + 1));
      if !ok {
        return;
      }
    }
    Done(start, total, o.Now());
    ok := true;
  }
}
