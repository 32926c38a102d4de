/** Scalars of the Protocol Buffers wire format (nanopb, pb_encode.c and pb_decode.c).

    The base 128 varints are those of module Coding; `%` on two's complement values is written out. */
module PbWire {
  import opened DbFormat
  import opened Coding

  const WT_VARINT: nat := 0
  const WT_64BIT: nat := 1
  const WT_STRING: nat := 2
  const WT_32BIT: nat := 5

  /** A value, and where the stream stands after it. */
  datatype Got<+T> = Got(value: T, next: nat)

  /** Size in bytes of an integer field. */
  type Width = n: nat | n == 1 || n == 2 || n == 4 || n == 8 witness 1

  datatype Scalar = Signed(width: Width) | Unsigned(width: Width) | Zigzagged(width: Width) | Fixed32 | Fixed64

  function Half(width: Width): (h: int)
    ensures 0x80 <= h <= 0x8000_0000_0000_0000
  {
    if width == 1 then 0x80 else if width == 2 then 0x8000 else if width == 4 then 0x8000_0000 else 0x8000_0000_0000_0000
  }

  /** A cast to a signed integer of this width. */
  function ToSigned(x: int, width: Width): (r: int)
    ensures -Half(width) <= r < Half(width)
    ensures -Half(width) <= x < Half(width) ==> r == x
  {
    var m: int := x % (2 * Half(width));
    if m < Half(width) then m else m - 2 * Half(width)
  }

  predicate InRange(s: Scalar, i: int) {
    match s
    case Signed(w) => -Half(w) <= i < Half(w)
    case Unsigned(w) => 0 <= i < 2 * Half(w)
    case Zigzagged(w) => -Half(w) <= i < Half(w)
    case Fixed32 => 0 <= i < TWO_TO_THE_32
    case Fixed64 => 0 <= i < TWO_TO_THE_64
  }

  // ----- encoding -----

  /** pb_encode_svarint: the complement of the shifted value, in 64 bits, for a negative one. */
  function Zigzag(i: int): (z: nat)
    requires InRange(Zigzagged(8), i)
    ensures z < TWO_TO_THE_64
  {
    if i < 0 then var shifted: int := 2 * (TWO_TO_THE_64 + i) % TWO_TO_THE_64; TWO_TO_THE_64 - 1 - shifted else 2 * i
  }

  function EncodeScalar(s: Scalar, i: int): (b: Bytes)
    requires InRange(s, i)
    ensures 0 < |b|
  {
    match s
    case Signed(_) => Varint(i % TWO_TO_THE_64)
    case Unsigned(_) => Varint(i)
    case Zigzagged(_) => Varint(Zigzag(i))
    case Fixed32 => EncodeFixed32(i)
    case Fixed64 => EncodeFixed64(i)
  }

  function WireType(s: Scalar): nat {
    match s
    case Fixed32 => WT_32BIT
    case Fixed64 => WT_64BIT
    case _ => WT_VARINT
  }

  function EncodeTag(tag: nat, wireType: nat): Bytes {
    Varint(8 * tag + wireType)
  }

  // ----- decoding -----

  function DecodeVarint64(b: Bytes, p: nat, limit: nat): (r: Option<Got<nat>>)
    requires limit <= |b|
    ensures r.Some? ==> p < r.value.next <= limit && r.value.value < TWO_TO_THE_64
  {
    var r := ParseVarint(b, p, limit, 10);
    if r.None? then None else Some(Got(r.value.value % TWO_TO_THE_64, r.value.next))
  }

  /** pb_decode_varint32_eof after `n` bytes whose bits are in `result`: bits past the 32nd must extend a sign. */
  function Varint32Rest(b: Bytes, p: nat, limit: nat, n: nat, result: nat): (r: Option<Got<nat>>)
    requires limit <= |b| && result < TWO_TO_THE_32
    ensures r.Some? ==> p < r.value.next <= limit && r.value.value < TWO_TO_THE_32
    decreases if p < limit then limit - p else 0
  {
    if limit <= p then None else
    var bits, last := b[p] as nat % 0x80, b[p] < 0x80;
    var extension := if n < 9 then 0xFF else 0x01;
    if 5 <= n && bits != 0 && (result < 0x8000_0000 || b[p] != extension) then None else
    var result' := if 5 <= n then result else (result + bits * Capacity(n)) % TWO_TO_THE_32;
    if !last then Varint32Rest(b, p + 1, limit, n + 1, result')
    else if n == 4 && 0x10 <= bits then None
    else Some(Got(result', p + 1))
  }

  function DecodeVarint32(b: Bytes, p: nat, limit: nat): (r: Option<Got<nat>>)
    requires limit <= |b|
    ensures r.Some? ==> p < r.value.next <= limit && r.value.value < TWO_TO_THE_32
  {
    if limit <= p then None
    else if b[p] < 0x80 then Some(Got(b[p] as nat, p + 1))
    else Varint32Rest(b, p + 1, limit, 1, b[p] as nat - 0x80)
  }

  /** No tag is either a clean end of the message or an error. */
  datatype TagRead = NoTag(eof: bool) | Tag(tag: nat, wireType: nat, next: nat)

  function DecodeTag(b: Bytes, p: nat, limit: nat): (r: TagRead)
    requires limit <= |b|
    ensures r.Tag? ==> p < r.next <= limit
  {
    var v := DecodeVarint32(b, p, limit);
    if v.None? then NoTag(limit <= p)
    else if v.value.value == 0 then NoTag(true)
    else Tag(v.value.value / 8, v.value.value % 8, v.value.next)
  }

  function Unzigzag(v: nat): int
    requires v < TWO_TO_THE_64
  {
    if v % 2 == 1 then ToSigned(TWO_TO_THE_64 - 1 - v / 2, 8) else ToSigned(v / 2, 8)
  }

  /** The integer as stored, unless it does not fit the field. A signed field of up to 32 bits looks at the low 32 bits
      alone. */
  function Clamp(s: Scalar, v: nat): Option<int>
    requires v < TWO_TO_THE_64
  {
    match s
    case Signed(w) =>
      var i := ToSigned(v, if w == 8 then 8 else 4);
      if ToSigned(i, w) != i then None else Some(i)
    case Zigzagged(w) =>
      var i := Unzigzag(v);
      if ToSigned(i, w) != i then None else Some(i)
    case Unsigned(w) => if v % (2 * Half(w)) != v then None else Some(v)
    case _ => Some(v)
  }

  function DecodeScalar(s: Scalar, b: Bytes, p: nat, limit: nat): (r: Option<Got<int>>)
    requires limit <= |b|
    ensures r.Some? ==> p < r.value.next <= limit && InRange(s, r.value.value)
  {
    match s
    case Fixed32 =>
      if limit < p + 4 then None else Some(Got(DecodeFixed32(b[p..p + 4]), p + 4))
    case Fixed64 =>
      if limit < p + 8 then None else Some(Got(DecodeFixed64(b[p..p + 8]), p + 8))
    case _ =>
      var v := DecodeVarint64(b, p, limit);
      if v.None? then None else
      var i := Clamp(s, v.value.value);
      if i.None? then None else Some(Got(i.value, v.value.next))
  }

  // ----- decoding undoes encoding -----

  lemma ZigzagRoundTrip(i: int)
    requires InRange(Zigzagged(8), i)
    ensures Unzigzag(Zigzag(i)) == i
    ensures Zigzag(i) == if i < 0 then -2 * i - 1 else 2 * i
  {
    if i < 0 {
      assert 2 * (TWO_TO_THE_64 + i) == TWO_TO_THE_64 + (TWO_TO_THE_64 + 2 * i);
      assert 2 * (TWO_TO_THE_64 + i) % TWO_TO_THE_64 == (TWO_TO_THE_64 + 2 * i) % TWO_TO_THE_64;
    }
  }

  /** The bits a varint stands for, before and after the cast. */
  function Bits(s: Scalar, i: int): (v: nat)
    requires InRange(s, i) && !s.Fixed32? && !s.Fixed64?
    ensures v < TWO_TO_THE_64
  {
    match s
    case Signed(_) => i % TWO_TO_THE_64
    case Unsigned(_) => i
    case Zigzagged(_) => Zigzag(i)
  }

  /** The low 32 bits of a sign-extended value. */
  lemma LowBits(i: int, m: nat)
    requires -0x8000_0000 <= i < 0x8000_0000 && m == if i < 0 then TWO_TO_THE_64 + i else i
    ensures m % TWO_TO_THE_32 == if i < 0 then TWO_TO_THE_32 + i else i
  {
    if i < 0 {
      assert m == TWO_TO_THE_32 * (TWO_TO_THE_32 - 1) + (TWO_TO_THE_32 + i);
    }
  }

  lemma SignedBits(w: Width, i: int)
    requires InRange(Signed(w), i)
    ensures ToSigned(i % TWO_TO_THE_64, if w == 8 then 8 else 4) == i
  {
    var m := i % TWO_TO_THE_64;
    assert m == if i < 0 then TWO_TO_THE_64 + i else i;
    if w != 8 {
      LowBits(i, m);
    }
  }

  lemma ClampBits(s: Scalar, i: int)
    requires InRange(s, i) && !s.Fixed32? && !s.Fixed64?
    ensures Clamp(s, Bits(s, i)) == Some(i)
  {
    match s
    case Signed(w) =>
      SignedBits(w, i);
    case Unsigned(w) =>
    case Zigzagged(w) =>
      ZigzagRoundTrip(i);
  }

  lemma Varint64RoundTrip(b: Bytes, p: nat, limit: nat, v: nat, next: nat)
    requires v < TWO_TO_THE_64 && Spans(b, p, Varint(v), next) && next <= limit <= |b|
    ensures DecodeVarint64(b, p, limit) == Some(Got(v, next))
  {
    Capacity10();
    ParsesVarint(b, p, limit, 10, v, next);
  }

  lemma ScalarRoundTrip(s: Scalar, i: int, b: Bytes, p: nat, next: nat, limit: nat)
    requires InRange(s, i) && Spans(b, p, EncodeScalar(s, i), next) && next <= limit <= |b|
    ensures DecodeScalar(s, b, p, limit) == Some(Got(i, next))
  {
    match s
    case Fixed32 =>
      Fixed32RoundTrip(i);
    case Fixed64 =>
      Fixed64RoundTrip(i);
    case _ =>
      ClampBits(s, i);
      Varint64RoundTrip(b, p, limit, Bits(s, i), next);
  }

  lemma SplitBits(w: nat, c: nat)
    ensures (w % 0x80) * c + w / 0x80 * (0x80 * c) == w * c
    ensures w / 0x80 * (0x80 * c) >= 0 && (w % 0x80) * c >= 0
  {
    var q, r := w / 0x80, w % 0x80;
    assert w == 0x80 * q + r;
  }

  lemma {:induction false} ReadsRest(b: Bytes, p: nat, limit: nat, n: nat, result: nat, w: nat, next: nat)
    requires 1 <= n <= 4 && result < Capacity(n) && result + w * Capacity(n) < TWO_TO_THE_32
    requires Spans(b, p, Varint(w), next) && next <= limit <= |b| && result < TWO_TO_THE_32
    requires 0 < w
    ensures Varint32Rest(b, p, limit, n, result) == Some(Got(result + w * Capacity(n), next))
    decreases w
  {
    var c := Capacity(n);
    assert Capacity(2) == 0x4000 && Capacity(3) == 0x20_0000 && Capacity(4) == 0x1000_0000;
    assert b[p] == b[p..next][0];
    SplitBits(w, c);
    if 0x80 <= w {
      var result' := result + (w % 0x80) * c;
      assert Spans(b, p + 1, Varint(w / 0x80), next) by {
        assert b[p + 1..next] == b[p..next][1..] == Varint(w / 0x80);
      }
      assert n < 4;
      ReadsRest(b, p + 1, limit, n + 1, result', w / 0x80, next);
    }
  }

  lemma Varint32RoundTripPb(b: Bytes, p: nat, limit: nat, v: nat, next: nat)
    requires v < TWO_TO_THE_32 && Spans(b, p, Varint(v), next) && next <= limit <= |b|
    ensures DecodeVarint32(b, p, limit) == Some(Got(v, next))
  {
    assert b[p] == b[p..next][0];
    if 0x80 <= v {
      assert Spans(b, p + 1, Varint(v / 0x80), next) by {
        assert b[p + 1..next] == b[p..next][1..] == Varint(v / 0x80);
      }
      ReadsRest(b, p + 1, limit, 1, v % 0x80, v / 0x80, next);
    }
  }

  lemma TagRoundTrip(b: Bytes, p: nat, limit: nat, tag: nat, wireType: nat, next: nat)
    requires 0 < tag < 0x2000_0000 && wireType < 8 && Spans(b, p, EncodeTag(tag, wireType), next) && next <= limit <= |b|
    ensures DecodeTag(b, p, limit) == Tag(tag, wireType, next)
  {
    Varint32RoundTripPb(b, p, limit, 8 * tag + wireType, next);
  }
}
