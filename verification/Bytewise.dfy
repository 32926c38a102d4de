/** The built-in bytewise comparator (util/comparator.cc) and its place in the reals. */
module Bytewise {
  import opened DbFormat

  /** Lexicographic order of unsigned bytes, a proper prefix being smaller. */
  predicate LessBytes(a: Bytes, b: Bytes) {
    b != [] && (a == [] || a[0] < b[0] || (a[0] == b[0] && LessBytes(a[1..], b[1..])))
  }

  // ----- byte strings as reals -----

  /** A byte string as a fraction in base 257, the digit 0 standing for the end of the string. */
  function Rank(s: Bytes): (r: real)
    ensures 0.0 <= r < 1.0
  {
    if s == [] then 0.0 else (s[0] as int as real + 1.0 + Rank(s[1..])) / 257.0
  }

  /** Byte strings under the bytewise comparator are ordered as their ranks are. */
  lemma {:induction false} RankKeepsOrder(a: Bytes, b: Bytes)
    ensures LessBytes(a, b) <==> Rank(a) < Rank(b)
    ensures Rank(a) == Rank(b) ==> a == b
  {
    if a != [] && b != [] {
      RankKeepsOrder(a[1..], b[1..]);
      assert a == [a[0]] + a[1..] && b == [b[0]] + b[1..];
      var x, y := a[0] as int, b[0] as int;
      assert x < y ==> x as real + 1.0 <= y as real;
      assert y < x ==> y as real + 1.0 <= x as real;
    }
  }

  // ----- separators -----

  predicate Agree(a: Bytes, b: Bytes, n: nat) {
    n <= |a| && n <= |b| && forall i | 0 <= i < n :: a[i] == b[i]
  }

  lemma {:induction false} PrefixThenLess(a: Bytes, b: Bytes, n: nat)
    requires Agree(a, b, n) && n < |a| && n < |b| && a[n] < b[n]
    ensures LessBytes(a, b)
    decreases n
  {
    if 0 < n {
      PrefixThenLess(a[1..], b[1..], n - 1);
    }
  }

  /** Shortens `start` to a key before `limit`, or leaves it alone. */
  method FindShortestSeparator(start: Bytes, limit: Bytes) returns (r: Bytes)
    ensures r == start || (|r| <= |start| && LessBytes(start, r) && LessBytes(r, limit))
    ensures r != start <==> exists n ::
        && 0 <= n < |start| && n < |limit| && Agree(start, limit, n)
        && start[n] as int + 1 < limit[n] as int
  {
    var minLength := if |start| < |limit| then |start| else |limit|;
    var diffIndex := 0;
    while diffIndex < minLength && start[diffIndex] == limit[diffIndex]
      invariant diffIndex <= minLength && Agree(start, limit, diffIndex)
    {
      diffIndex := diffIndex + 1;
    }
    r := start;
    if diffIndex < minLength {
      var diffByte := start[diffIndex];
      if diffByte < 0xff && diffByte + 1 < limit[diffIndex] {
        r := r[diffIndex := diffByte + 1];
        r := r[..diffIndex + 1];
        PrefixThenLess(start, r, diffIndex);
        PrefixThenLess(r, limit, diffIndex);
        assert r[diffIndex] != start[diffIndex];
      }
    }
  }

  /** Shortens `key` to a key at or after it; a run of 0xff stays as it is. */
  method FindShortSuccessor(key: Bytes) returns (r: Bytes)
    ensures r == key || (|r| <= |key| && LessBytes(key, r))
    ensures r == key <==> forall i | 0 <= i < |key| :: key[i] == 0xff
  {
    r := key;
    for i := 0 to |key|
      invariant r == key && forall j | 0 <= j < i :: key[j] == 0xff
    {
      var b := key[i];
      if b != 0xff {
        r := r[i := b + 1];
        r := r[..i + 1];
        assert r[i] != key[i];
        PrefixThenLess(key, r, i);
        return;
      }
    }
  }

  /** Read off the ranks: a separator lies in [start, limit), a successor at or after its key. */
  lemma SeparatorRanks(start: Bytes, limit: Bytes, r: Bytes)
    requires r == start || (LessBytes(start, r) && LessBytes(r, limit))
    ensures Rank(r) == Rank(start) || Rank(start) < Rank(r) < Rank(limit)
  {
    RankKeepsOrder(start, r);
    RankKeepsOrder(r, limit);
  }
}
