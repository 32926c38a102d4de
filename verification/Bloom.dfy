/** The Bloom filter policy (util/bloom.cc).  The hash of a key is a parameter. */
module Bloom {
  import opened DbFormat
  import opened Coding

  type Hash = Bytes -> uint32

  // ----- bits -----

  /** `x >> b & 1` */
  predicate TestBit(x: nat, b: nat) {
    if b == 0 then x % 2 == 1 else TestBit(x / 2, b - 1)
  }

  /** `x | 1 << b` */
  function SetBit(x: nat, b: nat): nat {
    if b == 0 then x / 2 * 2 + 1 else SetBit(x / 2, b - 1) * 2 + x % 2
  }

  lemma {:induction false} BitsAfterSet(x: nat, b: nat, c: nat)
    ensures TestBit(SetBit(x, b), c) <==> c == b || TestBit(x, c)
    decreases b
  {
    var y := SetBit(x, b);
    if b == 0 {
      assert y / 2 == x / 2 && y % 2 == 1;
    } else {
      assert y / 2 == SetBit(x / 2, b - 1) && y % 2 == x % 2;
      if 0 < c {
        BitsAfterSet(x / 2, b - 1, c - 1);
      }
    }
  }

  function Pow2(n: nat): nat {
    if n == 0 then 1 else 2 * Pow2(n - 1)
  }

  lemma {:induction false} SetStaysBelow(x: nat, b: nat, n: nat)
    requires b < n && x < Pow2(n)
    ensures SetBit(x, b) < Pow2(n)
    decreases n
  {
    assert x / 2 < Pow2(n - 1);
    if 0 < b {
      SetStaysBelow(x / 2, b - 1, n - 1);
    }
  }

  predicate BitOf(bits: Bytes, b: nat)
    requires b < 8 * |bits|
  {
    TestBit(bits[b / 8] as nat, b % 8)
  }

  // ----- probes -----

  function Delta(h: uint32): uint32 {
    RotateRight17(h)
  }

  /** The `j`-th value of `h`, in wrapping 32-bit arithmetic. */
  function Probe(h: uint32, j: nat): uint32 {
    if j == 0 then h else (Probe(h, j - 1) + Delta(h)) % TWO_TO_THE_32
  }

  ghost predicate Hit(h: uint32, k: nat, size: nat, b: nat)
    requires size > 0
  {
    exists j :: 0 <= j < k && Probe(h, j) % size == b
  }

  ghost predicate AnyHit(hash: Hash, keys: seq<Bytes>, k: nat, size: nat, b: nat)
    requires size > 0
  {
    exists i :: 0 <= i < |keys| && Hit(hash(keys[i]), k, size, b)
  }

  /** The filter of some keys: `bytes` bytes in which exactly the bits probed by some key are set, then the count of probes. */
  ghost predicate IsFilter(hash: Hash, k: nat, keys: seq<Bytes>, bytes: nat, filter: Bytes) {
    && 0 < bytes && |filter| == bytes + 1 && filter[bytes] as nat == k
    && forall b | 0 <= b < 8 * bytes :: BitOf(filter[..bytes], b) <==> AnyHit(hash, keys, k, 8 * bytes, b)
  }

  /** A filter that `key` may match: all its probes are set. */
  ghost predicate Matches(hash: Hash, key: Bytes, filter: Bytes) {
    && 2 <= |filter|
    && var k, data := filter[|filter| - 1] as nat, filter[..|filter| - 1];
       30 < k || forall j | 0 <= j < k :: BitOf(data, Probe(hash(key), j) % (8 * |data|))
  }

  class BloomFilterPolicy {
    const hash: Hash
    const bitsPerKey: nat
    const k: nat

    /** The source computes the number of probes as 0.69 bitsPerKey, kept between 1 and 30; any such number will do. */
    constructor (hash: Hash, bitsPerKey: nat, k: nat)
      requires 1 <= k <= 30
      ensures this.hash == hash && this.bitsPerKey == bitsPerKey && this.k == k
    {
      this.hash, this.bitsPerKey, this.k := hash, bitsPerKey, k;
    }

    /** Room for the bits of all keys, and for 64 at least; less than a byte more. */
    function FilterBytes(n: nat): (bytes: nat)
      ensures 64 <= 8 * bytes && n * bitsPerKey <= 8 * bytes
      ensures 8 * bytes < n * bitsPerKey + 8 || bytes == 8
    {
      var bits := n * bitsPerKey;
      ((if bits < 64 then 64 else bits) + 7) / 8
    }

    /** Sets the bits of one key. */
    method SetProbes(data: array<byte>, key: Bytes)
      requires k <= 30 && 0 < data.Length
      modifies data
      ensures forall b | 0 <= b < 8 * data.Length ::
          BitOf(data[..], b) <==> old(BitOf(data[..], b)) || Hit(hash(key), k, 8 * data.Length, b)
    {
      var h := hash(key);
      var delta := Delta(h);
      var bits := 8 * data.Length;
      for j := 0 to k
        invariant h == Probe(hash(key), j)
        invariant forall b | 0 <= b < bits ::
            BitOf(data[..], b) <==> old(BitOf(data[..], b)) || Hit(hash(key), j, bits, b)
      {
        var bitpos := h % bits;
        ghost var before := data[..];
        SetStaysBelow(data[bitpos / 8] as nat, bitpos % 8, 8);
        data[bitpos / 8] := SetBit(data[bitpos / 8] as nat, bitpos % 8) as byte;
        OneMoreBit(before, data[..], bitpos);
        h := (h + delta) % TWO_TO_THE_32;
      }
    }

    /** Appends a filter: exactly the bits some key probes are set. */
    method CreateFilter(keys: seq<Bytes>, dst: Bytes) returns (r: Bytes)
      requires 1 <= k <= 30
      ensures dst <= r && IsFilter(hash, k, keys, FilterBytes(|keys|), r[|dst|..])
    {
      var bytes := FilterBytes(|keys|);
      var data := new byte[bytes](_ => 0);
      NoBits(data[..]);
      for i := 0 to |keys|
        invariant forall b | 0 <= b < 8 * bytes ::
            BitOf(data[..], b) <==> AnyHit(hash, keys[..i], k, 8 * bytes, b)
      {
        SetProbes(data, keys[i]);
        assert keys[..i + 1] == keys[..i] + [keys[i]];
      }
      r := dst + data[..] + [k as byte];
      assert r[|dst|..][..bytes] == data[..] && keys[..|keys|] == keys;
    }

    method KeyMayMatch(key: Bytes, filter: Bytes) returns (r: bool)
      ensures r <==> Matches(hash, key, filter)
    {
      var len := |filter|;
      if len < 2 {
        return false;
      }
      var bits := (len - 1) * 8;
      var probes := filter[len - 1] as nat;
      if probes > 30 {
        return true;
      }
      var h := hash(key);
      var delta := Delta(h);
      for j := 0 to probes
        invariant h == Probe(hash(key), j)
        invariant forall i | 0 <= i < j :: BitOf(filter[..len - 1], Probe(hash(key), i) % bits)
      {
        var bitpos := h % bits;
        if !TestBit(filter[bitpos / 8] as nat, bitpos % 8) {
          assert !BitOf(filter[..len - 1], Probe(hash(key), j) % bits);
          return false;
        }
        h := (h + delta) % TWO_TO_THE_32;
      }
      return true;
    }
  }

  lemma NoBits(bits: Bytes)
    requires forall i | 0 <= i < |bits| :: bits[i] == 0
    ensures forall b | 0 <= b < 8 * |bits| :: !BitOf(bits, b)
  {
    forall b | 0 <= b < 8 * |bits|
      ensures !BitOf(bits, b)
    {
      ZeroBits(b % 8);
    }
  }

  lemma {:induction false} ZeroBits(b: nat)
    ensures !TestBit(0, b)
  {
    if 0 < b {
      ZeroBits(b - 1);
    }
  }

  lemma OneMoreBit(before: Bytes, after: Bytes, p: nat)
    requires |after| == |before| && p < 8 * |before| && SetBit(before[p / 8] as nat, p % 8) == after[p / 8] as nat
    requires forall i | 0 <= i < |before| && i != p / 8 :: after[i] == before[i]
    ensures forall b | 0 <= b < 8 * |before| :: BitOf(after, b) <==> b == p || BitOf(before, b)
  {
    forall b | 0 <= b < 8 * |before|
      ensures BitOf(after, b) <==> b == p || BitOf(before, b)
    {
      if b / 8 == p / 8 {
        BitsAfterSet(before[p / 8] as nat, p % 8, b % 8);
      }
    }
  }

  /** No false negatives: a filter made for some keys matches each of them. */
  lemma NoFalseNegative(hash: Hash, k: nat, keys: seq<Bytes>, bytes: nat, filter: Bytes, i: nat)
    requires i < |keys| && IsFilter(hash, k, keys, bytes, filter)
    ensures Matches(hash, keys[i], filter)
  {
    forall j | 0 <= j < k
      ensures BitOf(filter[..bytes], Probe(hash(keys[i]), j) % (8 * bytes))
    {
      assert Hit(hash(keys[i]), k, 8 * bytes, Probe(hash(keys[i]), j) % (8 * bytes));
    }
  }

  /** Just the keys all of whose probes are probes of keys of the filter match it. */
  ghost predicate Admitted(hash: Hash, k: nat, keys: seq<Bytes>, bytes: nat, key: Bytes)
    requires 0 < bytes
  {
    forall j | 0 <= j < k :: AnyHit(hash, keys, k, 8 * bytes, Probe(hash(key), j) % (8 * bytes))
  }

  lemma MatchesExactly(hash: Hash, k: nat, keys: seq<Bytes>, bytes: nat, filter: Bytes, key: Bytes)
    requires 1 <= k <= 30 && IsFilter(hash, k, keys, bytes, filter)
    ensures Matches(hash, key, filter) <==> Admitted(hash, k, keys, bytes, key)
  {
    var data := filter[..bytes];
    forall j: nat
      ensures BitOf(data, Probe(hash(key), j) % (8 * bytes))
              <==> AnyHit(hash, keys, k, 8 * bytes, Probe(hash(key), j) % (8 * bytes))
    {
    }
  }

  /** A filter of no keys matches nothing. */
  lemma EmptyMatchesNothing(hash: Hash, k: nat, bytes: nat, filter: Bytes, key: Bytes)
    requires 1 <= k <= 30 && IsFilter(hash, k, [], bytes, filter)
    ensures !Matches(hash, key, filter)
  {
    MatchesExactly(hash, k, [], bytes, filter, key);
    assert 0 <= 0 < k && !AnyHit(hash, [], k, 8 * bytes, Probe(hash(key), 0) % (8 * bytes));
  }
}
