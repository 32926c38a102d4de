/** Reading a message from a stream (nanopb, pb_decode.c). */
module PbDecoders {
  import opened DbFormat
  import opened Coding
  import opened PbWire
  import opened PbMessages
  import opened PbFieldIters

  /** What one reader does: its result and the place it leaves the stream at. */
  ghost predicate Reads<T(!new)>(e: Option<Got<T>>, r: Option<T>, pos: nat) {
    r.Some? == e.Some? && (e.Some? ==> r.value == e.value.value && pos == e.value.next)
  }

  class IStream {
    const data: Bytes
    var pos: nat
    var bytesLeft: nat

    ghost predicate Valid()
      reads this
    {
      pos + bytesLeft <= |data|
    }

    function Limit(): nat
      reads this
    {
      pos + bytesLeft
    }

    constructor (data: Bytes, pos: nat, bytesLeft: nat)
      requires pos + bytesLeft <= |data|
      ensures Valid() && this.data == data && this.pos == pos && this.bytesLeft == bytesLeft
    {
      this.data, this.pos, this.bytesLeft := data, pos, bytesLeft;
    }

    method Read(count: nat) returns (r: Option<Bytes>)
      requires Valid()
      modifies this
      ensures Valid() && Limit() == old(Limit())
      ensures r == if count <= old(bytesLeft) then Some(data[old(pos)..old(pos) + count]) else None
      ensures pos == if r.Some? then old(pos) + count else old(pos)
    {
      if bytesLeft < count {
        return None;
      }
      r := Some(data[pos..pos + count]);
      pos, bytesLeft := pos + count, bytesLeft - count;
    }

    method ReadByte() returns (r: Option<byte>)
      requires Valid()
      modifies this
      ensures Valid() && Limit() == old(Limit())
      ensures r == if 0 < old(bytesLeft) then Some(data[old(pos)]) else None
      ensures pos == if r.Some? then old(pos) + 1 else old(pos)
    {
      if bytesLeft == 0 {
        return None;
      }
      r := Some(data[pos]);
      pos, bytesLeft := pos + 1, bytesLeft - 1;
    }

    /** pb_decode_varint32_eof; `eof` says that there was no byte at all. */
    method DecodeVarint32() returns (r: Option<nat>, eof: bool)
      requires Valid()
      modifies this
      ensures Valid() && Limit() == old(Limit()) && eof == (old(bytesLeft) == 0)
      ensures Reads(PbWire.DecodeVarint32(data, old(pos), old(Limit())), r, pos)
    {
      r, eof := None, false;
      var byte := ReadByte();
      if byte.None? {
        eof := true;
        return;
      }
      if byte.value < 0x80 {
        r := Some(byte.value as nat);
        return;
      }
      var n: nat := 1;
      var result: nat := byte.value as int - 0x80;
      ghost var limit := Limit();
      while true
        invariant Valid() && Limit() == limit && result < TWO_TO_THE_32
        invariant PbWire.DecodeVarint32(data, old(pos), limit) == Varint32Rest(data, pos, limit, n, result)
        decreases bytesLeft
      {
        byte := ReadByte();
        if byte.None? {
          return;
        }
        var bits: nat := byte.value as int % 0x80;
        if 5 <= n {
          var extension := if n < 9 then 0xFF else 0x01;
          if bits != 0 && (result < 0x8000_0000 || byte.value != extension) {
            return;
          }
        } else {
          result := (result + bits * Capacity(n)) % TWO_TO_THE_32;
        }
        n := n + 1;
        if byte.value < 0x80 {
          if n == 5 && 0x10 <= bits {
            return;
          }
          r := Some(result);
          return;
        }
      }
    }

    method DecodeVarint64() returns (r: Option<nat>)
      requires Valid()
      modifies this
      ensures Valid() && Limit() == old(Limit())
      ensures Reads(PbWire.DecodeVarint64(data, old(pos), old(Limit())), r, pos)
    {
      r := None;
      var n: nat := 0;
      var result: nat := 0;
      ghost var limit, whole := Limit(), ParseVarint(data, pos, Limit(), 10);
      while true
        invariant Valid() && Limit() == limit && n <= 10
        invariant Continues(whole, ParseVarint(data, pos, limit, 10 - n), Capacity(n), result)
        decreases 10 - n
      {
        if n == 10 {
          return;
        }
        ghost var rest := ParseVarint(data, pos, limit, 10 - n);
        var byte := ReadByte();
        if byte.None? {
          return;
        }
        var bits: nat := byte.value as int % 0x80;
        if byte.value < 0x80 {
          Ends(whole, rest, Capacity(n), result, bits);
        } else {
          Continue(whole, rest, ParseVarint(data, pos, limit, 10 - n - 1), Capacity(n), result, bits);
        }
        result := (result + bits * Capacity(n)) % TWO_TO_THE_64;
        n := n + 1;
        if byte.value < 0x80 {
          r := Some(result);
          return;
        }
      }
    }
  }

  /** With `result` read so far, the rest of the varint counts in units of `unit`; all modulo 64 bits. */
  ghost predicate Continues(whole: Option<Parsed>, rest: Option<Parsed>, unit: nat, result: nat) {
    && whole.Some? == rest.Some?
    && (rest.Some? ==> whole.value.next == rest.value.next
                       && whole.value.value % TWO_TO_THE_64 == (result + unit * rest.value.value) % TWO_TO_THE_64)
  }

  lemma Ends(whole: Option<Parsed>, rest: Option<Parsed>, unit: nat, result: nat, bits: nat)
    requires Continues(whole, rest, unit, result) && rest.Some? && rest.value.value == bits
    ensures whole.Some? && whole.value.value % TWO_TO_THE_64 == (result + bits * unit) % TWO_TO_THE_64
  {
    assert unit * bits == bits * unit;
  }

  lemma Continue(whole: Option<Parsed>, rest: Option<Parsed>, more: Option<Parsed>, unit: nat, result: nat, bits: nat)
    requires Continues(whole, rest, unit, result) && more.Some? == rest.Some?
    requires rest.Some? ==> rest.value == Parsed(bits + 0x80 * more.value.value, more.value.next)
    ensures Continues(whole, more, 0x80 * unit, (result + bits * unit) % TWO_TO_THE_64)
  {
    if rest.Some? {
      var v := more.value.value;
      assert unit * (bits + 0x80 * v) == bits * unit + 0x80 * unit * v;
      SumModulo(result + bits * unit, 0x80 * unit * v);
    }
  }

  lemma SumModulo(a: nat, b: nat)
    ensures (a + b) % TWO_TO_THE_64 == (a % TWO_TO_THE_64 + b) % TWO_TO_THE_64
  {
    var q := a / TWO_TO_THE_64;
    assert a + b == TWO_TO_THE_64 * q + (a % TWO_TO_THE_64 + b);
  }

  method ReadTag(s: IStream) returns (r: TagRead)
    requires s.Valid()
    modifies s
    ensures s.Valid() && s.Limit() == old(s.Limit())
    ensures r == DecodeTag(s.data, old(s.pos), old(s.Limit())) && (r.Tag? ==> s.pos == r.next)
  {
    var v, eof := s.DecodeVarint32();
    if v.None? {
      return NoTag(eof);
    }
    if v.value == 0 {
      return NoTag(true);
    }
    r := Tag(v.value / 8, v.value % 8, s.pos);
  }

  method Skip(s: IStream, wireType: nat) returns (ok: bool)
    requires s.Valid()
    modifies s
    ensures s.Valid() && s.Limit() == old(s.Limit())
    ensures var e := SkipField(s.data, old(s.pos), old(s.Limit()), wireType); ok == e.Some? && (ok ==> s.pos == e.value)
  {
    if wireType == WT_VARINT {
      ghost var start, limit := s.pos, s.Limit();
      var byte := s.ReadByte();
      while byte.Some? && byte.value >= 0x80
        invariant s.Valid() && s.Limit() == limit && start <= s.pos
        invariant if byte.None? then SkipVarint(s.data, start, limit) == None
                  else if byte.value >= 0x80 then SkipVarint(s.data, start, limit) == SkipVarint(s.data, s.pos, limit)
                  else SkipVarint(s.data, start, limit) == Some(s.pos)
        decreases s.bytesLeft, byte.Some?
      {
        byte := s.ReadByte();
      }
      return byte.Some?;
    } else if wireType == WT_64BIT {
      var b := s.Read(8);
      return b.Some?;
    } else if wireType == WT_32BIT {
      var b := s.Read(4);
      return b.Some?;
    } else if wireType == WT_STRING {
      var n, eof := s.DecodeVarint32();
      if n.None? {
        return false;
      }
      var b := s.Read(n.value);
      return b.Some?;
    }
    return false;
  }

  /** A stream of its own for a length-delimited value. The parent keeps what comes after the value, and moves past it
      when the substream is closed. */
  method MakeSubstream(s: IStream) returns (sub: IStream?)
    requires s.Valid()
    modifies s
    ensures var w := Window(s.data, old(s.pos), old(s.Limit()));
            && (sub != null <==> w.Some?) && (sub == null ==> s.Valid() && s.Limit() == old(s.Limit()))
            && (sub != null ==> fresh(sub) && sub.data == s.data && sub.Valid() && sub.pos == w.value.value
                                && sub.Limit() == w.value.next && s.pos == sub.pos
                                && w.value.next + s.bytesLeft == old(s.Limit()))
  {
    var size, eof := s.DecodeVarint32();
    if size.None? || s.bytesLeft < size.value {
      return null;
    }
    sub := new IStream(s.data, s.pos, size.value);
    s.bytesLeft := s.bytesLeft - size.value;
  }

  method CloseSubstream(s: IStream, sub: IStream)
    requires s != sub && s.data == sub.data && sub.Valid() && sub.Limit() + s.bytesLeft <= |s.data|
    modifies s, sub
    ensures s.Valid() && s.pos == old(sub.Limit()) && s.bytesLeft == old(s.bytesLeft)
  {
    if sub.bytesLeft != 0 {
      var b := sub.Read(sub.bytesLeft);
    }
    s.pos := sub.pos;
  }

  method ReadScalar(s: IStream, kind: Scalar) returns (r: Option<int>)
    requires s.Valid()
    modifies s
    ensures s.Valid() && s.Limit() == old(s.Limit())
    ensures Reads(DecodeScalar(kind, s.data, old(s.pos), old(s.Limit())), r, s.pos)
  {
    match kind
    case Fixed32 =>
      var b := s.Read(4);
      r := if b.None? then None else Some(DecodeFixed32(b.value));
    case Fixed64 =>
      var b := s.Read(8);
      r := if b.None? then None else Some(DecodeFixed64(b.value));
    case _ =>
      var v := s.DecodeVarint64();
      r := if v.None? then None else Clamp(kind, v.value);
  }

  method ReadBytes(s: IStream, max: nat) returns (r: Option<Value>)
    requires s.Valid()
    modifies s
    ensures s.Valid() && s.Limit() == old(s.Limit())
    ensures Reads(DecodeBlob(ByteArray(max), s.data, old(s.pos), old(s.Limit())), r, s.pos)
  {
    var size, eof := s.DecodeVarint32();
    if size.None? || max < size.value {
      return None;
    }
    var b := s.Read(size.value);
    r := if b.None? then None else Some(Blob(b.value));
  }

  /** The array must also hold the terminator. */
  method ReadText(s: IStream, room: nat) returns (r: Option<Value>)
    requires s.Valid()
    modifies s
    ensures s.Valid() && s.Limit() == old(s.Limit())
    ensures Reads(DecodeBlob(Text(room), s.data, old(s.pos), old(s.Limit())), r, s.pos)
  {
    var size, eof := s.DecodeVarint32();
    if size.None? || room < size.value + 1 {
      return None;
    }
    var b := s.Read(size.value);
    r := if b.None? then None else Some(Blob(UpToNul(b.value)));
  }

  /** No bytes at all stand for zeros. */
  method ReadFixedBytes(s: IStream, n: nat) returns (r: Option<Value>)
    requires s.Valid()
    modifies s
    ensures s.Valid() && s.Limit() == old(s.Limit())
    ensures Reads(DecodeBlob(FixedBytes(n), s.data, old(s.pos), old(s.Limit())), r, s.pos)
  {
    var size, eof := s.DecodeVarint32();
    if size.None? {
      return None;
    }
    if size.value == 0 {
      return Some(Blob(Zeros(n)));
    }
    if size.value != n {
      return None;
    }
    var b := s.Read(n);
    r := if b.None? then None else Some(Blob(b.value));
  }

  /** Items of a packed array are appended until the substream is used up or the array is full. */
  method ReadPacked(sub: IStream, kind: Scalar, max: nat, items: seq<Value>) returns (r: Option<seq<Value>>)
    requires sub.Valid() && forall k | 0 <= k < |items| :: Shaped(Number(kind), items[k])
    modifies sub
    ensures sub.Valid() && sub.Limit() == old(sub.Limit())
    ensures r == DecodePacked(kind, sub.data, old(sub.pos), old(sub.Limit()), max, items)
  {
    var now := items;
    ghost var limit := sub.Limit();
    while sub.bytesLeft > 0 && |now| < max
      invariant sub.Valid() && sub.Limit() == limit && forall k | 0 <= k < |now| :: Shaped(Number(kind), now[k])
      invariant DecodePacked(kind, sub.data, old(sub.pos), limit, max, items)
             == DecodePacked(kind, sub.data, sub.pos, limit, max, now)
      decreases sub.bytesLeft
    {
      var v := ReadScalar(sub, kind);
      if v.None? {
        return None;
      }
      now := now + [Int(v.value)];
    }
    r := if sub.bytesLeft != 0 then None else Some(now);
  }

  method ReadValue(s: IStream, kind: Kind, old': Value) returns (r: Option<Value>)
    requires s.Valid() && WellFormedKind(kind) && Shaped(kind, old')
    modifies s
    ensures s.Valid() && s.Limit() == old(s.Limit())
    ensures Reads(DecodeValue(kind, s.data, old(s.pos), old(s.Limit()), old'), r, s.pos)
    decreases s.bytesLeft, 0
  {
    match kind
    case Number(n) =>
      var v := ReadScalar(s, n);
      r := if v.None? then None else Some(Int(v.value));
    case Submessage(d) =>
      var sub := MakeSubstream(s);
      if sub == null {
        return None;
      }
      var m := ReadMessage(sub, d, old'.slots);
      CloseSubstream(s, sub);
      r := if m.None? then None else Some(Message(m.value));
    case ByteArray(max) =>
      r := ReadBytes(s, max);
    case Text(size) =>
      r := ReadText(s, size);
    case FixedBytes(n) =>
      r := ReadFixedBytes(s, n);
  }

  /** decode_static_field: the wire type matters to arrays only. */
  method ReadField(s: IStream, d: Desc, i: nat, slots: seq<Slot>, wireType: nat) returns (r: Option<seq<Slot>>)
    requires s.Valid() && i < |d.fields| && WellFormed(d) && ShapedSlots(d, slots)
    modifies s
    ensures s.Valid() && s.Limit() == old(s.Limit())
    ensures Reads(DecodeField(d, i, s.data, old(s.pos), old(s.Limit()), slots, wireType), r, s.pos)
    decreases s.bytesLeft, 1
  {
    var f, slot := d.fields[i], slots[i];
    assert WellFormedField(f) && ShapedSlot(f, slot);
    if f.rule.Repeated? && wireType == WT_STRING && f.kind.Number? {
      var sub := MakeSubstream(s);
      if sub == null {
        return None;
      }
      var items := ReadPacked(sub, f.kind.s, f.rule.max, slot.items);
      CloseSubstream(s, sub);
      r := if items.None? then None else Some(slots[i := Many(items.value)]);
    } else if f.rule.Repeated? && |slot.items| >= f.rule.max {
      r := None;
    } else {
      TargetShaped(f, slot);
      var v := ReadValue(s, f.kind, Target(f, slot));
      r := if v.None? then None else Some(Store(d, i, slots, v.value));
    }
  }

  lemma FoundIsIndex(d: Desc, tag: nat, i: nat)
    requires WellFormed(d) && i < |d.fields| && d.fields[i].tag == tag
    ensures IndexOf(d, tag, 0) == i
  {
  }

  /** pb_decode_noinit. */
  method ReadMessage(s: IStream, d: Desc, slots: seq<Slot>) returns (r: Option<seq<Slot>>)
    requires s.Valid() && WellFormed(d) && ShapedSlots(d, slots)
    modifies s
    ensures s.Valid() && s.Limit() == old(s.Limit())
    ensures r == DecodeFields(d, s.data, old(s.pos), old(s.Limit()), slots, {})
    decreases s.bytesLeft, 2
  {
    var iter := new FieldIter(d);
    var now, seen := slots, {};
    ghost var limit := s.Limit();
    while s.bytesLeft != 0
      invariant s.Valid() && s.Limit() == limit && iter.Valid() && ShapedSlots(d, now)
      invariant DecodeFields(d, s.data, old(s.pos), limit, slots, {}) == DecodeFields(d, s.data, s.pos, limit, now, seen)
      decreases s.bytesLeft
    {
      var t := ReadTag(s);
      if t.NoTag? {
        if t.eof {
          break;
        }
        return None;
      }
      var found := iter.Find(t.tag);
      if !found {
        var ok := Skip(s, t.wireType);
        if !ok {
          return None;
        }
      } else if d.fields == [] {
        return None;
      } else {
        FoundIsIndex(d, t.tag, iter.pos);
        if d.fields[iter.pos].rule.Required? && iter.requiredIndex < MAX_REQUIRED_FIELDS {
          seen := seen + {iter.requiredIndex};
        }
        var f := ReadField(s, d, iter.pos, now, t.wireType);
        if f.None? {
          return None;
        }
        now := f.value;
      }
    }
    var count := iter.CountRequired();
    if forall k | 0 <= k < count && k < MAX_REQUIRED_FIELDS :: k in seen {
      return Some(now);
    }
    return None;
  }

  /** pb_decode: the message starts out with its defaults. */
  method ReadWhole(b: Bytes, d: Desc) returns (r: Option<seq<Slot>>)
    requires WellFormed(d)
    ensures r == Decode(d, b)
  {
    DefaultsShaped(d);
    var s := new IStream(b, 0, |b|);
    r := ReadMessage(s, d, DefaultSlots(d, |d.fields|));
  }
}
