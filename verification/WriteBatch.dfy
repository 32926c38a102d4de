/** The stored form of a write batch (db/write_batch.cc).

    Twelve bytes of header, the sequence number and the count, then one record for each operation. */
module WriteBatches {
  import opened DbFormat
  import opened Coding

  datatype BatchOp = Put(key: Bytes, value: Bytes) | Delete(key: Bytes)

  const HEADER: nat := 12
  const TWO_TO_THE_31: nat := 0x8000_0000

  function EncodeOp(op: BatchOp): Bytes {
    match op
    case Put(key, value) => [1] + (LengthPrefixed(key) + LengthPrefixed(value))
    case Delete(key) => [0] + LengthPrefixed(key)
  }

  function Encode(sequence: nat, ops: seq<BatchOp>): Bytes
    requires sequence < TWO_TO_THE_64
  {
    EncodeFixed64(sequence) + PutFixed32(|ops|) + EncodeAll(EncodeOp, ops)
  }

  // ----- reading -----

  /** The operations handed out before the end or the first error. */
  datatype Outcome = Outcome(ops: seq<BatchOp>, error: Option<string>)

  datatype OpRead = BadOp(msg: string) | GotOp(op: BatchOp, next: nat)

  function ReadOp(b: Bytes, p: nat): (r: OpRead)
    requires p < |b|
    ensures r.GotOp? ==> p < r.next <= |b|
  {
    if b[p] == 1 then
      var key := GetLengthPrefixedSlice(b, p + 1);
      if key.None? then BadOp("bad WriteBatch Put") else
      var value := GetLengthPrefixedSlice(b, key.value.next);
      if value.None? then BadOp("bad WriteBatch Put") else GotOp(Put(key.value.value, value.value.value), value.value.next)
    else if b[p] == 0 then
      var key := GetLengthPrefixedSlice(b, p + 1);
      if key.None? then BadOp("bad WriteBatch Delete") else GotOp(Delete(key.value.value), key.value.next)
    else BadOp("unknown WriteBatch tag")
  }

  function ReadFrom(b: Bytes, p: nat, done: seq<BatchOp>): Outcome
    requires HEADER <= p <= |b|
    decreases |b| - p
  {
    if p == |b| then Outcome(done, if |done| != DecodeFixed32(b[8..12]) then Some("WriteBatch has wrong count") else None)
    else
      match ReadOp(b, p)
      case BadOp(msg) => Outcome(done, Some(msg))
      case GotOp(op, next) => ReadFrom(b, next, done + [op])
  }

  function ReadBatch(b: Bytes): Outcome {
    if |b| < HEADER then Outcome([], Some("malformed WriteBatch (too small)")) else ReadFrom(b, HEADER, [])
  }

  // ----- reading undoes writing -----

  predicate OpFits(op: BatchOp) {
    |op.key| < TWO_TO_THE_32 && (op.Put? ==> |op.value| < TWO_TO_THE_32)
  }

  lemma ReadsOp(b: Bytes, p: nat, op: BatchOp, next: nat)
    requires OpFits(op) && Spans(b, p, EncodeOp(op), next)
    ensures p < |b| && ReadOp(b, p) == GotOp(op, next)
  {
    match op
    case Put(key, value) =>
      var k, v := LengthPrefixed(key), LengthPrefixed(value);
      var m := p + 1 + |k|;
      SpanSplit(b, p, [1], k + v, next);
      SpanSplit(b, p + 1, k, v, next);
      ParsesSlice(b, p + 1, key, m);
      ParsesSlice(b, m, value, next);
      assert b[p] == b[p..p + 1][0];
    case Delete(key) =>
      SpanSplit(b, p, [0], LengthPrefixed(key), next);
      ParsesSlice(b, p + 1, key, next);
      assert b[p] == b[p..p + 1][0];
  }

  lemma {:induction false} ReadsOps(b: Bytes, p: nat, ops: seq<BatchOp>, done: seq<BatchOp>)
    requires HEADER <= p <= |b| && Spans(b, p, EncodeAll(EncodeOp, ops), |b|)
    requires forall i | 0 <= i < |ops| :: OpFits(ops[i])
    requires DecodeFixed32(b[8..12]) == |done + ops|
    ensures ReadFrom(b, p, done) == Outcome(done + ops, None)
    decreases |ops|
  {
    if ops == [] {
      assert done + ops == done;
    } else {
      var next := p + |EncodeOp(ops[0])|;
      SpanSplit(b, p, EncodeOp(ops[0]), EncodeAll(EncodeOp, ops[1..]), |b|);
      ReadsOp(b, p, ops[0], next);
      assert done + [ops[0]] + ops[1..] == done + ops;
      ReadsOps(b, next, ops[1..], done + [ops[0]]);
    }
  }

  /** Reading a batch gives its operations in order. */
  lemma RoundTrip(sequence: nat, ops: seq<BatchOp>)
    requires sequence < TWO_TO_THE_64 && |ops| < TWO_TO_THE_32 && forall i | 0 <= i < |ops| :: OpFits(ops[i])
    ensures ReadBatch(Encode(sequence, ops)) == Outcome(ops, None)
    ensures DecodeFixed64(Encode(sequence, ops)[..8]) == sequence
  {
    var b := Encode(sequence, ops);
    assert b[..8] == EncodeFixed64(sequence) && b[8..12] == PutFixed32(|ops|);
    assert b[HEADER..|b|] == EncodeAll(EncodeOp, ops);
    Fixed64RoundTrip(sequence);
    Fixed32RoundTrip(|ops|);
    ReadsOps(b, HEADER, ops, []);
    assert [] + ops == ops;
  }

  // ----- what a batch writes -----

  /** Each operation takes the next sequence number, beginning with that of the batch. */
  function Numbered(ops: seq<BatchOp>, sequence: nat): (s: seq<(nat, BatchOp)>)
    ensures |s| == |ops| && forall i | 0 <= i < |ops| :: s[i] == (sequence + i, ops[i])
  {
    seq(|ops|, i requires 0 <= i < |ops| => (sequence + i, ops[i]))
  }

  lemma {:induction false} EncodeConcat(enc: BatchOp -> Bytes, a: seq<BatchOp>, b: seq<BatchOp>)
    ensures EncodeAll(enc, a + b) == EncodeAll(enc, a) + EncodeAll(enc, b)
  {
    if a == [] {
      assert a + b == b;
    } else {
      EncodeConcat(enc, a[1..], b);
      assert (a + b)[1..] == a[1..] + b;
      Associates(enc(a[0]), EncodeAll(enc, a[1..]), EncodeAll(enc, b));
    }
  }

  // ----- the bytes of a batch, part by part -----

  /** `rep` is a header for `sequence` and `n` operations, and then `records`. */
  ghost predicate Parts(rep: Bytes, sequence: nat, n: nat, records: Bytes)
    requires sequence < TWO_TO_THE_64
  {
    rep == EncodeFixed64(sequence) + PutFixed32(n) + records
  }

  lemma PartsOf(rep: Bytes, sequence: nat, n: nat, records: Bytes)
    requires sequence < TWO_TO_THE_64 && n < TWO_TO_THE_32 && Parts(rep, sequence, n, records)
    ensures |rep| >= HEADER && rep[..8] == EncodeFixed64(sequence) && rep[8..12] == EncodeFixed32(n) && rep[12..] == records
    ensures DecodeFixed32(rep[8..12]) == n && DecodeFixed64(rep[..8]) == sequence
  {
    HeaderSlices(EncodeFixed64(sequence), PutFixed32(n), records);
    Fixed32RoundTrip(n);
    Fixed64RoundTrip(sequence);
  }

  lemma HeaderSlices(a: Bytes, b: Bytes, c: Bytes)
    requires |a| == 8 && |b| == 4
    ensures (a + b + c)[..8] == a && (a + b + c)[8..12] == b && (a + b + c)[12..] == c
  {
  }

  /** A new count patched in, and records appended. */
  lemma PartsGrow(rep: Bytes, sequence: nat, n: nat, records: Bytes, n': nat, more: Bytes)
    requires sequence < TWO_TO_THE_64 && n < TWO_TO_THE_32 && n' < TWO_TO_THE_32 && Parts(rep, sequence, n, records)
    ensures |rep| >= HEADER && Parts(rep[..8] + EncodeFixed32(n') + rep[12..] + more, sequence, n', records + more)
  {
    PartsOf(rep, sequence, n, records);
    Associates(EncodeFixed64(sequence) + EncodeFixed32(n'), records, more);
  }

  lemma PartsResequence(rep: Bytes, sequence: nat, n: nat, records: Bytes, s: nat)
    requires sequence < TWO_TO_THE_64 && n < TWO_TO_THE_32 && s < TWO_TO_THE_64 && Parts(rep, sequence, n, records)
    ensures |rep| >= HEADER && Parts(EncodeFixed64(s) + rep[8..], s, n, records)
  {
    PartsOf(rep, sequence, n, records);
    assert rep[8..] == PutFixed32(n) + records;
    Associates(EncodeFixed64(s), PutFixed32(n), records);
  }

  class WriteBatch {
    var rep: Bytes
    ghost var sequence: nat
    ghost var ops: seq<BatchOp>

    /** Counts are ints. */
    ghost predicate Valid()
      reads this
    {
      sequence < TWO_TO_THE_64 && |ops| < TWO_TO_THE_31 && Parts(rep, sequence, |ops|, EncodeAll(EncodeOp, ops))
    }

    constructor ()
      ensures Valid() && ops == [] && sequence == 0
    {
      rep, sequence, ops := seq(HEADER, _ => 0), 0, [];
      new;
      EmptyBatch(rep);
    }

    method Clear()
      modifies this
      ensures Valid() && ops == [] && sequence == 0
    {
      rep, sequence, ops := seq(HEADER, _ => 0), 0, [];
      EmptyBatch(rep);
    }

    method Count() returns (n: nat)
      requires Valid()
      ensures n == |ops|
    {
      PartsOf(rep, sequence, |ops|, EncodeAll(EncodeOp, ops));
      n := DecodeFixed32(rep[8..12]);
    }

    method SetCount(n: nat)
      requires |rep| >= HEADER && n < TWO_TO_THE_32
      modifies `rep
      ensures rep == old(rep)[..8] + EncodeFixed32(n) + old(rep)[12..]
    {
      rep := rep[..8] + EncodeFixed32(n) + rep[12..];
    }

    /** The sequence number is patched in place: the operations stay. */
    method SetSequence(s: nat)
      requires Valid() && s < TWO_TO_THE_64
      modifies this
      ensures Valid() && sequence == s && ops == old(ops)
    {
      PartsResequence(rep, sequence, |ops|, EncodeAll(EncodeOp, ops), s);
      rep := EncodeFixed64(s) + rep[8..];
      sequence := s;
    }

    /** The count is patched and the records are appended. */
    method AddRecords(ghost enc: BatchOp -> Bytes, ghost added: seq<BatchOp>, n: nat, records: Bytes)
      requires sequence < TWO_TO_THE_64 && |ops| + |added| < TWO_TO_THE_31
      requires Parts(rep, sequence, |ops|, EncodeAll(enc, ops))
      requires n == |ops + added| && EncodeAll(enc, ops + added) == EncodeAll(enc, ops) + records
      modifies this
      ensures ops == old(ops) + added && sequence == old(sequence) && Parts(rep, sequence, |ops|, EncodeAll(enc, ops))
    {
      PartsGrow(rep, sequence, |ops|, EncodeAll(enc, ops), n, records);
      SetCount(n);
      rep := rep + records;
      ops := ops + added;
    }

    method Put(key: Bytes, value: Bytes)
      requires Valid() && |ops| + 1 < TWO_TO_THE_31
      modifies this
      ensures Valid() && ops == old(ops) + [BatchOp.Put(key, value)] && sequence == old(sequence)
    {
      var n := Count();
      EncodeSnoc(EncodeOp, ops, BatchOp.Put(key, value));
      AddRecords(EncodeOp, [BatchOp.Put(key, value)], n + 1, [1] + (LengthPrefixed(key) + LengthPrefixed(value)));
    }

    method Delete(key: Bytes)
      requires Valid() && |ops| + 1 < TWO_TO_THE_31
      modifies this
      ensures Valid() && ops == old(ops) + [BatchOp.Delete(key)] && sequence == old(sequence)
    {
      var n := Count();
      EncodeSnoc(EncodeOp, ops, BatchOp.Delete(key));
      AddRecords(EncodeOp, [BatchOp.Delete(key)], n + 1, [0] + LengthPrefixed(key));
    }

    /** The records of another batch follow, without its header. */
    method Append(src: WriteBatch)
      requires Valid() && src.Valid() && |ops| + |src.ops| < TWO_TO_THE_31
      modifies this
      ensures Valid() && ops == old(ops) + old(src.ops) && sequence == old(sequence)
    {
      var n := Count();
      var m := src.Count();
      EncodeConcat(EncodeOp, ops, src.ops);
      PartsOf(src.rep, src.sequence, |src.ops|, EncodeAll(EncodeOp, src.ops));
      AddRecords(EncodeOp, src.ops, n + m, src.rep[12..]);
    }

    /** Hands out the operations, up to the first error. */
    method Iterate() returns (found: seq<BatchOp>, error: Option<string>)
      ensures Outcome(found, error) == ReadBatch(rep)
    {
      found := [];
      if |rep| < HEADER {
        return found, Some("malformed WriteBatch (too small)");
      }
      var p := HEADER;
      while p < |rep|
        invariant HEADER <= p <= |rep| && ReadFrom(rep, p, found) == ReadBatch(rep)
        decreases |rep| - p
      {
        match ReadOp(rep, p)
        case BadOp(msg) =>
          return found, Some(msg);
        case GotOp(op, next) =>
          found, p := found + [op], next;
      }
      error := if |found| != DecodeFixed32(rep[8..12]) then Some("WriteBatch has wrong count") else None;
    }

    /** What goes into the memtable: every operation once, in order, with consecutive sequence numbers. */
    method InsertInto() returns (added: seq<(nat, BatchOp)>, error: Option<string>)
      requires Valid() && forall i | 0 <= i < |ops| :: OpFits(ops[i])
      ensures error == None && added == Numbered(ops, sequence)
    {
      assert |rep| >= HEADER && DecodeFixed64(rep[..8]) == sequence by {
        PartsOf(rep, sequence, |ops|, EncodeAll(EncodeOp, ops));
      }
      assert ReadBatch(rep) == Outcome(ops, None) by {
        RoundTrip(sequence, ops);
      }
      var first := DecodeFixed64(rep[..8]);
      var found;
      found, error := Iterate();
      added := Number(found, first);
    }
  }

  lemma EmptyBatch(rep: Bytes)
    requires rep == seq(HEADER, _ => 0)
    ensures Parts(rep, 0, 0, EncodeAll(EncodeOp, []))
  {
  }

  /** The handler of InsertInto: one addition an operation, the sequence number stepping by one. */
  method Number(found: seq<BatchOp>, first: nat) returns (added: seq<(nat, BatchOp)>)
    ensures added == Numbered(found, first)
  {
    added := [];
    var next := first;
    for i := 0 to |found|
      invariant |added| == i && next == first + i && forall j | 0 <= j < i :: added[j] == (first + j, found[j])
    {
      added := added + [(next, found[i])];
      next := next + 1;
    }
  }
}
