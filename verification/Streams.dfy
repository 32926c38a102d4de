/** Files that are streams of records, whatever the format of a record: if a reader finds every record that is
    there whole and nothing where one is cut off, then reading a cut stream finds exactly the whole records. */
module Streams {
  import opened DbFormat

  /** What is appended for a record when the file is so long already. */
  type Encoder = (nat, Bytes) -> Bytes

  datatype Answer = Answer(record: Option<Bytes>, next: nat, reports: seq<nat>)

  /** What a reader of some file finds at an offset. */
  type Decoder = nat -> Answer

  // ----- bytes in a file -----

  /** The bytes `e` stand at offset `p` of the file. */
  predicate At(file: Bytes, p: nat, e: Bytes) {
    p + |e| <= |file| && file[p..p + |e|] == e
  }

  /** The file breaks off inside the bytes `e`, which would start at offset `p`. */
  predicate Torn(file: Bytes, p: nat, e: Bytes) {
    p <= |file| < p + |e| && file[p..] == e[..|file| - p]
  }

  /** The file holds the bytes `e` from offset `p` on, all of them or cut off somewhere. */
  predicate Cut(file: Bytes, p: nat, e: Bytes) {
    p <= |file| <= p + |e| && file[p..] == e[..|file| - p]
  }

  lemma AtSplit(file: Bytes, p: nat, a: Bytes, b: Bytes)
    requires At(file, p, a + b)
    ensures At(file, p, a) && At(file, p + |a|, b)
  {
    var m := file[p..p + |a + b|];
    assert m[..|a|] == a && m[|a|..] == b;
  }

  lemma TornSplit(file: Bytes, p: nat, a: Bytes, b: Bytes)
    requires Torn(file, p, a + b)
    ensures if |file| < p + |a| then Torn(file, p, a) else At(file, p, a) && Torn(file, p + |a|, b)
  {
    var m := file[p..];
    if |file| < p + |a| {
      assert m == a[..|file| - p];
    } else {
      assert m[..|a|] == a && m[|a|..] == b[..|file| - p - |a|];
    }
  }

  lemma CutSplit(file: Bytes, p: nat, a: Bytes, b: Bytes)
    requires Cut(file, p, a + b)
    ensures if |file| < p + |a| then Torn(file, p, a) else At(file, p, a) && Cut(file, p + |a|, b)
  {
    var m := file[p..];
    if |file| < p + |a| {
      assert m == a[..|file| - p];
    } else {
      assert m[..|a|] == a && m[|a|..] == b[..|file| - p - |a|];
    }
  }

  // ----- streams -----

  function StreamOf(write: Encoder, pos: nat, records: seq<Bytes>): Bytes
    decreases |records|
  {
    if records == [] then []
    else
      var first := write(pos, records[0]);
      first + StreamOf(write, pos + |first|, records[1..])
  }

  ghost predicate Progresses(read: Decoder, size: nat) {
    forall p: nat :: read(p).record.Some? ==> p < read(p).next <= size
  }

  /** All records read from offset `p` on, and everything reported on the way. */
  ghost function ReadAll(read: Decoder, size: nat, p: nat): (seq<Bytes>, seq<nat>)
    requires Progresses(read, size)
    decreases size - p
  {
    var a := read(p);
    if a.record.None? then ([], a.reports)
    else
      var rest := ReadAll(read, size, a.next);
      ([a.record.value] + rest.0, a.reports + rest.1)
  }

  ghost predicate Faithful(write: Encoder, read: Decoder, file: Bytes) {
    && read(|file|) == Answer(None, |file|, [])
    && forall p: nat, d: Bytes ::
         && (At(file, p, write(p, d)) ==> read(p) == Answer(Some(d), p + |write(p, d)|, []))
         && (Torn(file, p, write(p, d)) ==> read(p) == Answer(None, |file|, []))
  }

  lemma StreamOfUnfold(write: Encoder, pos: nat, records: seq<Bytes>, next: nat)
    requires records != [] && next == pos + |write(pos, records[0])|
    ensures StreamOf(write, pos, records) == write(pos, records[0]) + StreamOf(write, next, records[1..])
    ensures |StreamOf(write, pos, records)| == |write(pos, records[0])| + |StreamOf(write, next, records[1..])|
  {
  }

  /** Streams compose: a writer reopened at the end of a stream continues it. */
  lemma {:induction false} StreamOfConcat(write: Encoder, pos: nat, a: seq<Bytes>, b: seq<Bytes>, middle: nat)
    requires middle == pos + |StreamOf(write, pos, a)|
    ensures StreamOf(write, pos, a + b) == StreamOf(write, pos, a) + StreamOf(write, middle, b)
    decreases |a|
  {
    if a == [] {
      assert a + b == b;
    } else {
      var next := pos + |write(pos, a[0])|;
      assert (a + b)[1..] == a[1..] + b;
      StreamOfUnfold(write, pos, a, next);
      StreamOfUnfold(write, pos, a + b, next);
      StreamOfConcat(write, next, a[1..], b, middle);
    }
  }

  /** One more record at the end of a stream. */
  lemma StreamOfAppend(write: Encoder, records: seq<Bytes>, record: Bytes)
    ensures var s := StreamOf(write, 0, records); StreamOf(write, 0, records + [record]) == s + write(|s|, record)
  {
    var s := StreamOf(write, 0, records);
    StreamOfConcat(write, 0, records, [record], |s|);
    StreamOfUnfold(write, |s|, [record], |s| + |write(|s|, record)|);
  }

  /** Exactly the first `k` records lie wholly in a file of `size` bytes. */
  ghost predicate WhollyIn(write: Encoder, p: nat, records: seq<Bytes>, k: nat, size: nat) {
    && k <= |records| && p + |StreamOf(write, p, records[..k])| <= size
    && (k < |records| ==> size < p + |StreamOf(write, p, records[..k + 1])|)
  }

  lemma WhollyInRest(write: Encoder, p: nat, records: seq<Bytes>, k: nat, size: nat, next: nat)
    requires records != [] && next == p + |write(p, records[0])| && WhollyIn(write, p, records, k, size)
    ensures if k == 0 then size < next else next <= size && WhollyIn(write, next, records[1..], k - 1, size)
  {
    if k < |records| {
      assert records[..k + 1][1..] == records[1..][..k];
    }
    if 0 < k {
      assert records[..k][1..] == records[1..][..k - 1];
    }
  }

  lemma ReadAllUnfold(read: Decoder, size: nat, p: nat, record: Bytes, next: nat)
    requires Progresses(read, size) && read(p) == Answer(Some(record), next, [])
    ensures ReadAll(read, size, p) == ([record] + ReadAll(read, size, next).0, ReadAll(read, size, next).1)
  {
    var rest := ReadAll(read, size, next);
    assert [] + rest.1 == rest.1;
  }

  /** A faithful reader of a stream cut off anywhere returns its whole records, in order, and reports nothing. */
  lemma {:induction false} TornTail(write: Encoder, read: Decoder, file: Bytes, p: nat, records: seq<Bytes>, k: nat)
    requires Progresses(read, |file|) && Faithful(write, read, file)
    requires Cut(file, p, StreamOf(write, p, records)) && WhollyIn(write, p, records, k, |file|)
    ensures ReadAll(read, |file|, p) == (records[..k], [])
    decreases |records|
  {
    if records != [] {
      var first := write(p, records[0]);
      var next := p + |first|;
      CutSplit(file, p, first, StreamOf(write, next, records[1..]));
      WhollyInRest(write, p, records, k, |file|, next);
      if k == 0 {
        assert Torn(file, p, first);
      } else {
        assert At(file, p, first);
        ReadAllUnfold(read, |file|, p, records[0], next);
        TornTail(write, read, file, next, records[1..], k - 1);
        assert [records[0]] + records[1..][..k - 1] == records[..k];
      }
    }
  }
}
