/** Fixed-width integers and checksums as stored (util/coding.cc, util/crc32c.h). */
module Coding {
  import opened DbFormat

  const TWO_TO_THE_32: nat := 0x1_0000_0000

  const TWO_TO_THE_64: nat := 0x1_0000_0000_0000_0000

  type uint32 = i: nat | i < 0x1_0000_0000 witness 0

  function EncodeFixed32(v: uint32): (b: Bytes)
    ensures |b| == 4
  {
    [(v % 0x100) as byte, (v / 0x100 % 0x100) as byte, (v / 0x1_0000 % 0x100) as byte, (v / 0x100_0000) as byte]
  }

  function DecodeFixed32(b: Bytes): uint32
    requires |b| == 4
  {
    b[0] as nat + 0x100 * (b[1] as nat) + 0x1_0000 * (b[2] as nat) + 0x100_0000 * (b[3] as nat)
  }

  lemma Fixed32RoundTrip(v: uint32)
    ensures DecodeFixed32(EncodeFixed32(v)) == v
  {
    var q1, q2 := v / 0x100, v / 0x1_0000;
    assert v == 0x100 * q1 + v % 0x100;
    assert q1 == 0x100 * (q1 / 0x100) + q1 % 0x100;
    assert q2 == 0x100 * (q2 / 0x100) + q2 % 0x100;
    assert q1 / 0x100 == q2 && q2 / 0x100 == v / 0x100_0000;
  }

  /** Bytes `x` stand at position `p`, up to `next`. */
  ghost predicate Spans(b: Bytes, p: nat, x: Bytes, next: nat) {
    next == p + |x| <= |b| && b[p..next] == x
  }

  lemma SpanSplit(b: Bytes, p: nat, x: Bytes, y: Bytes, next: nat)
    requires Spans(b, p, x + y, next)
    ensures Spans(b, p, x, p + |x|) && Spans(b, p + |x|, y, next)
  {
    assert b[p..p + |x|] == b[p..next][..|x|];
    assert b[p + |x|..next] == b[p..next][|x|..];
  }

  function EncodeFixed64(v: nat): (b: Bytes)
    requires v < TWO_TO_THE_64
    ensures |b| == 8
  {
    EncodeFixed32(v % TWO_TO_THE_32) + EncodeFixed32(v / TWO_TO_THE_32)
  }

  function DecodeFixed64(b: Bytes): nat
    requires |b| == 8
  {
    DecodeFixed32(b[..4]) + TWO_TO_THE_32 * DecodeFixed32(b[4..])
  }

  lemma Fixed64RoundTrip(v: nat)
    requires v < TWO_TO_THE_64
    ensures DecodeFixed64(EncodeFixed64(v)) == v
  {
    Fixed32RoundTrip(v % TWO_TO_THE_32);
    Fixed32RoundTrip(v / TWO_TO_THE_32);
    var b := EncodeFixed64(v);
    assert b[..4] == EncodeFixed32(v % TWO_TO_THE_32) && b[4..] == EncodeFixed32(v / TWO_TO_THE_32);
  }

  // ----- arrays of words -----

  /** PutFixed32 of a size_t: cut down to 32 bits. */
  function PutFixed32(v: nat): (b: Bytes)
    ensures |b| == 4
  {
    if v < TWO_TO_THE_32 then EncodeFixed32(v) else EncodeFixed32(v % TWO_TO_THE_32)
  }

  function EncodeWords(words: seq<nat>): (b: Bytes)
    ensures |b| == 4 * |words|
  {
    if words == [] then []
    else EncodeWords(words[..|words| - 1]) + PutFixed32(words[|words| - 1])
  }

  /** The words of `tail`, read back. */
  ghost predicate Words(tail: Bytes, words: seq<nat>) {
    |tail| == 4 * |words| && forall i | 0 <= i < |words| :: DecodeFixed32(tail[4 * i..4 * i + 4]) == words[i]
  }

  lemma WordsAppend(tail: Bytes, words: seq<nat>, b: Bytes, w: nat)
    requires Words(tail, words) && |b| == 4 && DecodeFixed32(b) == w
    ensures Words(tail + b, words + [w])
  {
    var all := tail + b;
    forall i | 0 <= i <= |words|
      ensures DecodeFixed32(all[4 * i..4 * i + 4]) == (words + [w])[i]
    {
      if i < |words| {
        assert all[4 * i..4 * i + 4] == tail[4 * i..4 * i + 4];
        assert DecodeFixed32(tail[4 * i..4 * i + 4]) == words[i];
      } else {
        assert all[4 * i..4 * i + 4] == b;
      }
    }
  }

  lemma {:induction false} EncodesWords(words: seq<nat>)
    requires forall i | 0 <= i < |words| :: words[i] < TWO_TO_THE_32
    ensures Words(EncodeWords(words), words)
    decreases |words|
  {
    if words != [] {
      var n := |words| - 1;
      EncodesWords(words[..n]);
      Fixed32RoundTrip(words[n]);
      WordsAppend(EncodeWords(words[..n]), words[..n], PutFixed32(words[n]), words[n]);
      assert words[..n] + [words[n]] == words;
    }
  }

  // ----- checksums -----

  /** The two shifted halves of a rotation share no bits, so the source's `|` adds them. */
  function RotateRight15(c: uint32): uint32 {
    c / 0x8000 + c % 0x8000 * 0x2_0000
  }

  function RotateRight17(c: uint32): uint32 {
    c / 0x2_0000 + c % 0x2_0000 * 0x8000
  }

  const MASK_DELTA: uint32 := 0xa282ead8

  function Mask(crc: uint32): uint32 {
    (RotateRight15(crc) + MASK_DELTA) % TWO_TO_THE_32
  }

  function Unmask(masked: uint32): uint32 {
    RotateRight17((masked - MASK_DELTA) % TWO_TO_THE_32)
  }

  lemma UnmaskMask(crc: uint32)
    ensures Unmask(Mask(crc)) == crc
  {
    var r := RotateRight15(crc);
    assert (Mask(crc) - MASK_DELTA) % TWO_TO_THE_32 == r;
    var hi, lo := crc / 0x8000, crc % 0x8000;
    assert r == hi + lo * 0x2_0000 && hi < 0x2_0000;
    assert r / 0x2_0000 == lo && r % 0x2_0000 == hi;
  }

  /** A checksum is a fold of some step over the bytes. */
  type Crc = (uint32, byte) -> uint32

  function Extend(crc: Crc, init: uint32, data: Bytes): uint32 {
    if data == [] then init else crc(Extend(crc, init, data[..|data| - 1]), data[|data| - 1])
  }

  function Value(crc: Crc, data: Bytes): uint32 {
    Extend(crc, 0, data)
  }

  lemma {:induction false} ExtendConcat(crc: Crc, init: uint32, a: Bytes, b: Bytes)
    ensures Extend(crc, Extend(crc, init, a), b) == Extend(crc, init, a + b)
    decreases |b|
  {
    if b == [] {
      assert a + b == a;
    } else {
      assert (a + b)[..|a + b| - 1] == a + b[..|b| - 1];
      ExtendConcat(crc, init, a, b[..|b| - 1]);
    }
  }

  // ----- varints -----

  /** Seven bits a byte, low bits first, the top bit saying that more follow. */
  function Varint(v: nat): (b: Bytes)
    ensures 0 < |b|
  {
    if v < 0x80 then [v as byte] else [(v % 0x80 + 0x80) as byte] + Varint(v / 0x80)
  }

  /** EncodeVarint32, unrolled as in the source. */
  function EncodeVarint32(v: uint32): Bytes {
    if v < 0x80 then
      [v as byte]
    else if v < 0x4000 then
      [(v % 0x80 + 0x80) as byte, (v / 0x80) as byte]
    else if v < 0x20_0000 then
      [(v % 0x80 + 0x80) as byte, (v / 0x80 % 0x80 + 0x80) as byte, (v / 0x4000) as byte]
    else if v < 0x1000_0000 then
      [(v % 0x80 + 0x80) as byte, (v / 0x80 % 0x80 + 0x80) as byte, (v / 0x4000 % 0x80 + 0x80) as byte,
       (v / 0x20_0000) as byte]
    else
      [(v % 0x80 + 0x80) as byte, (v / 0x80 % 0x80 + 0x80) as byte, (v / 0x4000 % 0x80 + 0x80) as byte,
       (v / 0x20_0000 % 0x80 + 0x80) as byte, (v / 0x1000_0000) as byte]
  }

  lemma Varint32Unrolled(v: uint32)
    ensures EncodeVarint32(v) == Varint(v)
  {
    if 0x80 <= v {
      var a, b := v / 0x80, v / 0x4000;
      assert a / 0x80 == b;
      if 0x80 <= a {
        var c, d := v / 0x20_0000, v / 0x1000_0000;
        assert b / 0x80 == c && c / 0x80 == d;
        assert Varint(d) == [d as byte];
        assert 0x80 <= b ==> Varint(b) == [(b % 0x80 + 0x80) as byte] + Varint(c);
      }
    }
  }

  datatype Parsed = Parsed(value: nat, next: nat)

  /** The loop of the decoders: at most `bytes` bytes, none at or past `limit`. */
  function ParseVarint(b: Bytes, p: nat, limit: nat, bytes: nat): (r: Option<Parsed>)
    requires limit <= |b|
    ensures r.Some? ==> p < r.value.next <= limit
    decreases if p < limit then limit - p else 0
  {
    if bytes == 0 || limit <= p then None
    else if b[p] < 0x80 then Some(Parsed(b[p] as nat, p + 1))
    else
      var rest := ParseVarint(b, p + 1, limit, bytes - 1);
      if rest.None? then None
      else Some(Parsed(b[p] as nat - 0x80 + 0x80 * rest.value.value, rest.value.next))
  }

  /** GetVarint32Ptr: the bits of the fifth byte that do not fit are lost. */
  function GetVarint32(b: Bytes, p: nat, limit: nat): (r: Option<Parsed>)
    requires limit <= |b|
    ensures r.Some? ==> p < r.value.next <= limit && r.value.value < TWO_TO_THE_32
  {
    var r := ParseVarint(b, p, limit, 5);
    if r.None? then None else Some(Parsed(r.value.value % TWO_TO_THE_32, r.value.next))
  }

  /** Seven bits a byte for `bytes` bytes. */
  function Capacity(bytes: nat): nat {
    if bytes == 0 then 1 else 0x80 * Capacity(bytes - 1)
  }

  lemma {:induction false} ParsesVarint(b: Bytes, p: nat, limit: nat, bytes: nat, v: nat, next: nat)
    requires 0 < bytes && v < Capacity(bytes) && next == p + |Varint(v)| && next <= limit <= |b| && b[p..next] == Varint(v)
    ensures ParseVarint(b, p, limit, bytes) == Some(Parsed(v, next))
    decreases bytes
  {
    assert b[p] == b[p..next][0];
    if 0x80 <= v {
      assert b[p + 1..next] == b[p..next][1..] == Varint(v / 0x80);
      ParsesVarint(b, p + 1, limit, bytes - 1, v / 0x80, next);
    }
  }

  lemma Varint32RoundTrip(b: Bytes, p: nat, limit: nat, v: uint32, next: nat)
    requires next == p + |EncodeVarint32(v)| && next <= limit <= |b| && b[p..next] == EncodeVarint32(v)
    ensures GetVarint32(b, p, limit) == Some(Parsed(v, next))
  {
    Varint32Unrolled(v);
    assert Capacity(2) == 0x4000 && Capacity(4) == 0x1000_0000 && TWO_TO_THE_32 <= Capacity(5);
    ParsesVarint(b, p, limit, 5, v, next);
  }

  lemma Capacity10()
    ensures TWO_TO_THE_64 <= Capacity(10)
  {
    assert Capacity(5) == 0x8_0000_0000;
    assert Capacity(7) == 0x80 * (0x80 * Capacity(5));
    assert Capacity(9) == 0x80 * (0x80 * Capacity(7));
    assert Capacity(10) == 0x80 * Capacity(9);
  }

  // ----- length-prefixed slices -----

  function LengthPrefixed(s: Bytes): Bytes {
    Varint(|s| % TWO_TO_THE_32) + s
  }

  datatype SliceRead = SliceRead(value: Bytes, next: nat)

  function GetLengthPrefixedSlice(b: Bytes, p: nat): (r: Option<SliceRead>)
    ensures r.Some? ==> p < r.value.next <= |b|
  {
    var n := GetVarint32(b, p, |b|);
    if n.None? || |b| - n.value.next < n.value.value then None
    else Some(SliceRead(b[n.value.next..n.value.next + n.value.value], n.value.next + n.value.value))
  }

  lemma ParsesVarint32(b: Bytes, p: nat, v: nat, next: nat)
    requires v < TWO_TO_THE_32 && Spans(b, p, Varint(v), next)
    ensures GetVarint32(b, p, |b|) == Some(Parsed(v, next))
  {
    Varint32Unrolled(v);
    Varint32RoundTrip(b, p, |b|, v, next);
  }

  lemma ParsesSlice(b: Bytes, p: nat, s: Bytes, next: nat)
    requires |s| < TWO_TO_THE_32 && Spans(b, p, LengthPrefixed(s), next)
    ensures GetLengthPrefixedSlice(b, p) == Some(SliceRead(s, next))
  {
    var len := Varint(|s|);
    SpanSplit(b, p, len, s, next);
    ParsesVarint32(b, p, |s|, p + |len|);
  }

  // ----- items one after the other -----

  function EncodeAll<T>(enc: T -> Bytes, items: seq<T>): Bytes {
    if items == [] then [] else enc(items[0]) + EncodeAll(enc, items[1..])
  }

  lemma Associates(x: Bytes, y: Bytes, z: Bytes)
    ensures x + (y + z) == x + y + z
  {
  }

  lemma {:induction false} EncodeSnoc<T>(enc: T -> Bytes, a: seq<T>, x: T)
    ensures EncodeAll(enc, a + [x]) == EncodeAll(enc, a) + enc(x)
  {
    if a == [] {
      assert enc(x) + [] == [] + enc(x);
    } else {
      EncodeSnoc(enc, a[1..], x);
      assert (a + [x])[1..] == a[1..] + [x];
      Associates(enc(a[0]), EncodeAll(enc, a[1..]), enc(x));
    }
  }
}
