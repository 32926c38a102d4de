/** The log format (db/log_format.h): what the writer lays down for a list of records, and what a reader makes of
    any file, written as functions of the bytes. */
module LogFormat {
  import opened DbFormat
  import opened Coding
  import opened Streams

  const BLOCK_SIZE: nat := 32768
  const HEADER_SIZE: nat := 7

  const ZERO_TYPE: byte := 0
  const FULL_TYPE: byte := 1
  const FIRST_TYPE: byte := 2
  const MIDDLE_TYPE: byte := 3
  const LAST_TYPE: byte := 4

  /** What ReadPhysicalRecord answers instead of a type; a stored type with the same number is taken for it. */
  const EOF_TYPE: byte := 5
  const BAD_RECORD: byte := 6

  // ----- writing -----

  /** Where the next physical record goes when the file is `pos` long: too short a rest of a block is filled up. */
  function SkipTrailer(pos: nat): (q: nat)
    ensures pos <= q < pos + HEADER_SIZE && q % BLOCK_SIZE + HEADER_SIZE <= BLOCK_SIZE
    ensures q != pos ==> q % BLOCK_SIZE == 0
  {
    var leftover := BLOCK_SIZE - pos % BLOCK_SIZE;
    if leftover < HEADER_SIZE then pos + leftover else pos
  }

  function Zeros(n: nat): Bytes {
    seq(n, _ => 0 as byte)
  }

  function Header(crc: Crc, kind: byte, payload: Bytes): (h: Bytes)
    requires |payload| <= 0xffff
    ensures |h| == HEADER_SIZE
  {
    EncodeFixed32(Mask(Extend(crc, Value(crc, [kind]), payload)))
    + [(|payload| % 0x100) as byte, (|payload| / 0x100) as byte, kind]
  }

  function FragmentLength(pos: nat, left: nat): (n: nat)
    ensures n <= left && SkipTrailer(pos) % BLOCK_SIZE + HEADER_SIZE + n <= BLOCK_SIZE
  {
    var avail := BLOCK_SIZE - SkipTrailer(pos) % BLOCK_SIZE - HEADER_SIZE;
    if left < avail then left else avail
  }

  function RecordType(begin: bool, end: bool): byte {
    if begin && end then FULL_TYPE else if begin then FIRST_TYPE else if end then LAST_TYPE else MIDDLE_TYPE
  }

  /** One physical record, with the trailer before it. */
  function Physical(crc: Crc, pos: nat, kind: byte, payload: Bytes): (b: Bytes)
    requires |payload| <= 0xffff
    ensures |b| == SkipTrailer(pos) - pos + HEADER_SIZE + |payload|
  {
    Zeros(SkipTrailer(pos) - pos) + Header(crc, kind, payload) + payload
  }

  function FirstFragment(crc: Crc, pos: nat, data: Bytes, begin: bool): Bytes {
    var n := FragmentLength(pos, |data|);
    Physical(crc, pos, RecordType(begin, n == |data|), data[..n])
  }

  lemma BlockEnds(q: nat, n: nat)
    requires q % BLOCK_SIZE + n == BLOCK_SIZE
    ensures (q + n) % BLOCK_SIZE == 0
  {
  }

  /** A record that goes on after a fragment goes on at the start of a block. */
  lemma FragmentEnds(pos: nat, left: nat, n: nat)
    requires n == FragmentLength(pos, left) < left
    ensures (SkipTrailer(pos) + HEADER_SIZE + n) % BLOCK_SIZE == 0
    ensures n == 0 ==> pos % BLOCK_SIZE != 0
  {
    BlockEnds(SkipTrailer(pos), HEADER_SIZE + n);
  }

  /** Everything appended for one record, from file length `pos` on. */
  function Fragments(crc: Crc, pos: nat, data: Bytes, begin: bool): Bytes
    decreases |data|, if pos % BLOCK_SIZE == 0 then 0 else 1
  {
    var n := FragmentLength(pos, |data|);
    var first := FirstFragment(crc, pos, data, begin);
    if n == |data| then first
    else
      FragmentEnds(pos, |data|, n);
      first + Fragments(crc, pos + |first|, data[n..], false)
  }

  // ----- reading -----

  datatype Outcome = Good(kind: byte, payload: Bytes, next: nat) | Eof | Bad(next: nat, reports: seq<nat>)

  function Min(a: nat, b: nat): nat {
    if a < b then a else b
  }

  /** What ReadPhysicalRecord finds at an offset that leaves room for a header in its block. */
  function ParseAt(crc: Crc, checksum: bool, file: Bytes, q: nat): (o: Outcome)
    requires q % BLOCK_SIZE + HEADER_SIZE <= BLOCK_SIZE
    ensures !o.Eof? ==> q < o.next <= |file|
  {
    if q + HEADER_SIZE > |file| then Eof
    else
      var blockEnd := q - q % BLOCK_SIZE + BLOCK_SIZE;
      var end := Min(|file|, blockEnd);
      var length := file[q + 4] as nat + 0x100 * (file[q + 5] as nat);
      var kind := file[q + 6];
      if q + HEADER_SIZE + length > end then
        if |file| < blockEnd then Eof else Bad(end, [end - q])
      else if kind == ZERO_TYPE && length == 0 then
        Bad(end, [])
      else if checksum && Unmask(DecodeFixed32(file[q..q + 4])) != Value(crc, file[q + 6..q + 7 + length]) then
        Bad(end, [end - q])
      else
        Good(kind, file[q + 7..q + 7 + length], q + 7 + length)
  }

  /** What ReadPhysicalRecord finds at any offset. */
  function Parse(crc: Crc, checksum: bool, file: Bytes, p: nat): (o: Outcome)
    ensures !o.Eof? ==> p < o.next <= |file|
  {
    ParseAt(crc, checksum, file, SkipTrailer(p))
  }

  datatype Progress = Stop(answer: Answer) | Go(partial: Option<Bytes>, next: nat, reports: seq<nat>)

  /** What ReadRecord does with one physical record; `partial` is the record being put together. */
  function Absorb(o: Outcome, partial: Option<Bytes>, size: nat): (r: Progress)
    ensures r.Go? ==> !o.Eof? && r.next == o.next
    ensures r.Stop? && r.answer.record.Some? ==> !o.Eof? && r.answer.next == o.next
  {
    match o
    case Eof => Stop(Answer(None, size, []))
    case Bad(next, reports) =>
      Go(None, next, reports + if partial.Some? then [|partial.value|] else [])
    case Good(kind, payload, next) =>
      var unfinished := if partial.Some? && partial.value != [] then [|partial.value|] else [];
      if kind == FULL_TYPE then Stop(Answer(Some(payload), next, unfinished))
      else if kind == FIRST_TYPE then Go(Some(payload), next, unfinished)
      else if kind == MIDDLE_TYPE then
        if partial.None? then Go(None, next, [|payload|]) else Go(Some(partial.value + payload), next, [])
      else if kind == LAST_TYPE then
        if partial.None? then Go(None, next, [|payload|]) else Stop(Answer(Some(partial.value + payload), next, []))
      else if kind == EOF_TYPE then Stop(Answer(None, next, []))
      else if kind == BAD_RECORD then Go(None, next, if partial.Some? then [|partial.value|] else [])
      else
        Go(None, next, [|payload| + if partial.Some? then |partial.value| else 0])
  }

  /** What ReadRecord makes of the file from offset `p` on. */
  function Assemble(crc: Crc, checksum: bool, file: Bytes, p: nat, partial: Option<Bytes>): (a: Answer)
    ensures a.record.Some? ==> p < a.next <= |file|
    decreases |file| - p
  {
    var r := Absorb(Parse(crc, checksum, file, p), partial, |file|);
    match r
    case Stop(a) => a
    case Go(partial', next, reports) =>
      var a := Assemble(crc, checksum, file, next, partial');
      a.(reports := reports + a.reports)
  }

  // ----- round trip -----

  lemma HeaderReads(crc: Crc, kind: byte, payload: Bytes)
    requires |payload| <= 0xffff
    ensures var h := Header(crc, kind, payload);
            && h[4] as nat + 0x100 * (h[5] as nat) == |payload| && h[6] == kind
            && Unmask(DecodeFixed32(h[..4])) == Value(crc, [kind] + payload)
  {
    var c := Extend(crc, Value(crc, [kind]), payload);
    assert Header(crc, kind, payload)[..4] == EncodeFixed32(Mask(c));
    Fixed32RoundTrip(Mask(c));
    UnmaskMask(c);
    ExtendConcat(crc, 0, [kind], payload);
  }

  function Text(partial: Option<Bytes>): Bytes {
    if partial.Some? then partial.value else []
  }

  lemma HeaderBytes(file: Bytes, q: nat)
    requires q + 7 <= |file|
    ensures var h := file[q..q + 7]; file[q + 4] == h[4] && file[q + 5] == h[5] && file[q + 6] == h[6]
    ensures file[q..q + 4] == file[q..q + 7][..4]
  {
  }

  lemma ChecksumReads(crc: Crc, file: Bytes, q: nat, kind: byte, payload: Bytes)
    requires |payload| <= 0xffff && At(file, q, Header(crc, kind, payload)) && At(file, q + 7, payload)
    ensures file[q + 4] as nat + 0x100 * (file[q + 5] as nat) == |payload| && file[q + 6] == kind
    ensures Unmask(DecodeFixed32(file[q..q + 4])) == Value(crc, file[q + 6..q + 7 + |payload|])
  {
    HeaderReads(crc, kind, payload);
    HeaderBytes(file, q);
    assert file[q + 6..q + 7 + |payload|] == [kind] + file[q + 7..q + 7 + |payload|];
  }

  lemma ParsesHere(crc: Crc, checksum: bool, file: Bytes, q: nat, kind: byte, payload: Bytes)
    requires q % BLOCK_SIZE + HEADER_SIZE + |payload| <= BLOCK_SIZE && kind != ZERO_TYPE
    requires At(file, q, Header(crc, kind, payload)) && At(file, q + 7, payload)
    ensures ParseAt(crc, checksum, file, q) == Good(kind, payload, q + 7 + |payload|)
  {
    ChecksumReads(crc, file, q, kind, payload);
  }

  lemma PhysicalSplits(crc: Crc, file: Bytes, p: nat, kind: byte, payload: Bytes)
    requires |payload| <= 0xffff && At(file, p, Physical(crc, p, kind, payload))
    ensures At(file, SkipTrailer(p), Header(crc, kind, payload)) && At(file, SkipTrailer(p) + 7, payload)
  {
    var q, h := SkipTrailer(p), Header(crc, kind, payload);
    AtSplit(file, p, Zeros(q - p) + h, payload);
    AtSplit(file, p, Zeros(q - p), h);
  }

  /** A physical record that fits its block parses to what was written, wherever the file goes on from there. */
  lemma ParsesPhysical(crc: Crc, checksum: bool, file: Bytes, p: nat, kind: byte, payload: Bytes, next: nat)
    requires SkipTrailer(p) % BLOCK_SIZE + HEADER_SIZE + |payload| <= BLOCK_SIZE && kind != ZERO_TYPE
    requires At(file, p, Physical(crc, p, kind, payload)) && next == p + |Physical(crc, p, kind, payload)|
    ensures Parse(crc, checksum, file, p) == Good(kind, payload, next)
  {
    PhysicalSplits(crc, file, p, kind, payload);
    ParsesHere(crc, checksum, file, SkipTrailer(p), kind, payload);
  }

  /** A file that breaks off inside a physical record just ends there. */
  lemma ParsesTorn(crc: Crc, checksum: bool, file: Bytes, p: nat, kind: byte, payload: Bytes)
    requires SkipTrailer(p) % BLOCK_SIZE + HEADER_SIZE + |payload| <= BLOCK_SIZE
    requires Torn(file, p, Physical(crc, p, kind, payload))
    ensures Parse(crc, checksum, file, p) == Eof
  {
    var q, h := SkipTrailer(p), Header(crc, kind, payload);
    HeaderReads(crc, kind, payload);
    if q + HEADER_SIZE <= |file| {
      TornSplit(file, p, Zeros(q - p) + h, payload);
      AtSplit(file, p, Zeros(q - p), h);
      HeaderBytes(file, q);
    }
  }

  lemma FragmentsUnfold(crc: Crc, pos: nat, data: Bytes, begin: bool, n: nat, next: nat)
    requires n == FragmentLength(pos, |data|) && next == pos + |FirstFragment(crc, pos, data, begin)|
    ensures Fragments(crc, pos, data, begin)
         == FirstFragment(crc, pos, data, begin) + if n == |data| then [] else Fragments(crc, next, data[n..], false)
  {
  }

  lemma FragmentsNext(crc: Crc, pos: nat, data: Bytes, begin: bool, n: nat, next: nat)
    requires n == FragmentLength(pos, |data|) < |data| && next == pos + |FirstFragment(crc, pos, data, begin)|
    ensures next % BLOCK_SIZE == 0 && (n == 0 ==> pos % BLOCK_SIZE != 0)
  {
    FragmentEnds(pos, |data|, n);
  }

  lemma AbsorbsFragment(payload: Bytes, data: Bytes, partial: Option<Bytes>, next: nat, size: nat)
    requires payload <= data
    ensures Absorb(Good(RecordType(partial.None?, payload == data), payload, next), partial, size)
         == if payload == data then Stop(Answer(Some(Text(partial) + data), next, []))
            else Go(Some(Text(partial) + payload), next, [])
  {
    assert [] + payload == payload;
  }

  lemma AssembleUnfold(crc: Crc, checksum: bool, file: Bytes, p: nat, partial: Option<Bytes>, o: Outcome)
    requires Parse(crc, checksum, file, p) == o
    ensures Absorb(o, partial, |file|).Stop? ==>
              Assemble(crc, checksum, file, p, partial) == Absorb(o, partial, |file|).answer
    ensures Absorb(o, partial, |file|).Go? ==>
              var r := Absorb(o, partial, |file|);
              var a := Assemble(crc, checksum, file, r.next, r.partial);
              Assemble(crc, checksum, file, p, partial) == a.(reports := r.reports + a.reports)
  {
  }

  /** The first fragment of a record, found whole. */
  lemma AssemblesFirst(crc: Crc, checksum: bool, file: Bytes, p: nat, data: Bytes, partial: Option<Bytes>, n: nat, next: nat)
    requires n == FragmentLength(p, |data|) && next == p + |FirstFragment(crc, p, data, partial.None?)|
    requires At(file, p, FirstFragment(crc, p, data, partial.None?))
    ensures Assemble(crc, checksum, file, p, partial)
         == if n == |data| then Answer(Some(Text(partial) + data), next, [])
            else Assemble(crc, checksum, file, next, Some(Text(partial) + data[..n]))
  {
    var kind, payload := RecordType(partial.None?, n == |data|), data[..n];
    ParsesPhysical(crc, checksum, file, p, kind, payload, next);
    AssembleUnfold(crc, checksum, file, p, partial, Good(kind, payload, next));
    AbsorbsFragment(payload, data, partial, next, |file|);
    assert payload == data <==> n == |data|;
    if n < |data| {
      var a := Assemble(crc, checksum, file, next, Some(Text(partial) + payload));
      assert [] + a.reports == a.reports;
    }
  }

  lemma TextGrows(partial: Option<Bytes>, data: Bytes, n: nat)
    requires n <= |data|
    ensures Text(Some(Text(partial) + data[..n])) + data[n..] == Text(partial) + data
  {
    assert data[..n] + data[n..] == data;
  }

  lemma WholeStep(crc: Crc, checksum: bool, file: Bytes, p: nat, data: Bytes, partial: Option<Bytes>, end: nat) returns (next: nat)
    requires At(file, p, Fragments(crc, p, data, partial.None?)) && end == p + |Fragments(crc, p, data, partial.None?)|
    ensures var n := FragmentLength(p, |data|);
            if n == |data| then
              Assemble(crc, checksum, file, p, partial) == Answer(Some(Text(partial) + data), end, [])
            else
              && At(file, next, Fragments(crc, next, data[n..], false))
              && end == next + |Fragments(crc, next, data[n..], false)|
              && Assemble(crc, checksum, file, p, partial) == Assemble(crc, checksum, file, next, Some(Text(partial) + data[..n]))
              && next % BLOCK_SIZE == 0 && (n == 0 ==> p % BLOCK_SIZE != 0)
  {
    var n, first := FragmentLength(p, |data|), FirstFragment(crc, p, data, partial.None?);
    next := p + |first|;
    FragmentsUnfold(crc, p, data, partial.None?, n, next);
    AtSplit(file, p, first, if n == |data| then [] else Fragments(crc, next, data[n..], false));
    AssemblesFirst(crc, checksum, file, p, data, partial, n, next);
    if n < |data| {
      FragmentsNext(crc, p, data, partial.None?, n, next);
    }
  }

  /** The fragments of a record, read in whatever state their writer left: nothing before the first, or a part of it. */
  lemma {:induction false} AssemblesWhole(crc: Crc, checksum: bool, file: Bytes, p: nat, data: Bytes, partial: Option<Bytes>,
                                          end: nat)
    requires At(file, p, Fragments(crc, p, data, partial.None?)) && end == p + |Fragments(crc, p, data, partial.None?)|
    ensures Assemble(crc, checksum, file, p, partial) == Answer(Some(Text(partial) + data), end, [])
    decreases |data|, if p % BLOCK_SIZE == 0 then 0 else 1
  {
    var n := FragmentLength(p, |data|);
    var next := WholeStep(crc, checksum, file, p, data, partial, end);
    if n < |data| {
      AssemblesWhole(crc, checksum, file, next, data[n..], Some(Text(partial) + data[..n]), end);
      TextGrows(partial, data, n);
    }
  }

  /** A file that breaks off inside the fragments of a record yields nothing for it, and no complaint. */
  lemma {:induction false} AssemblesTorn(crc: Crc, checksum: bool, file: Bytes, p: nat, data: Bytes, partial: Option<Bytes>)
    requires Torn(file, p, Fragments(crc, p, data, partial.None?))
    ensures Assemble(crc, checksum, file, p, partial) == Answer(None, |file|, [])
    decreases |data|, if p % BLOCK_SIZE == 0 then 0 else 1
  {
    var n, first := FragmentLength(p, |data|), FirstFragment(crc, p, data, partial.None?);
    var next := p + |first|;
    FragmentsUnfold(crc, p, data, partial.None?, n, next);
    var rest := if n == |data| then [] else Fragments(crc, next, data[n..], false);
    TornSplit(file, p, first, rest);
    if |file| < next {
      ParsesTorn(crc, checksum, file, p, RecordType(partial.None?, n == |data|), data[..n]);
    } else {
      AssemblesFirst(crc, checksum, file, p, data, partial, n, next);
      FragmentsNext(crc, p, data, partial.None?, n, next);
      AssemblesTorn(crc, checksum, file, next, data[n..], Some(Text(partial) + data[..n]));
    }
  }

  // ----- the log as a stream of records -----

  function RecordWriter(crc: Crc): Encoder {
    (p: nat, data: Bytes) => Fragments(crc, p, data, true)
  }

  function RecordReader(crc: Crc, checksum: bool, file: Bytes): Decoder {
    (p: nat) => Assemble(crc, checksum, file, p, None)
  }

  lemma ReaderProgresses(crc: Crc, checksum: bool, file: Bytes)
    ensures Progresses(RecordReader(crc, checksum, file), |file|)
  {
  }

  lemma ReaderIsFaithful(crc: Crc, checksum: bool, file: Bytes)
    ensures Faithful(RecordWriter(crc), RecordReader(crc, checksum, file), file)
  {
    var write, read := RecordWriter(crc), RecordReader(crc, checksum, file);
    assert read(|file|) == Answer(None, |file|, []);
    forall p: nat, d: Bytes
      ensures At(file, p, write(p, d)) ==> read(p) == Answer(Some(d), p + |write(p, d)|, [])
      ensures Torn(file, p, write(p, d)) ==> read(p) == Answer(None, |file|, [])
    {
      assert write(p, d) == Fragments(crc, p, d, true) && [] + d == d;
      if At(file, p, write(p, d)) {
        AssemblesWhole(crc, checksum, file, p, d, None, p + |write(p, d)|);
      }
      if Torn(file, p, write(p, d)) {
        AssemblesTorn(crc, checksum, file, p, d, None);
      }
    }
  }

  /** All records a reader returns from a file, and everything it reports. */
  ghost function ReadLog(crc: Crc, checksum: bool, file: Bytes): (seq<Bytes>, seq<nat>) {
    ReaderProgresses(crc, checksum, file);
    ReadAll(RecordReader(crc, checksum, file), |file|, 0)
  }

  /** Main result: of a log cut off after any number of bytes, a reader returns exactly the records that lie wholly
      before the cut, in order, and reports no corruption. */
  lemma TornLog(crc: Crc, checksum: bool, records: seq<Bytes>, size: nat, k: nat)
    requires size <= |StreamOf(RecordWriter(crc), 0, records)|
    requires WhollyIn(RecordWriter(crc), 0, records, k, size)
    ensures ReadLog(crc, checksum, StreamOf(RecordWriter(crc), 0, records)[..size]) == (records[..k], [])
  {
    var file := StreamOf(RecordWriter(crc), 0, records)[..size];
    ReaderProgresses(crc, checksum, file);
    ReaderIsFaithful(crc, checksum, file);
    assert file[0..] == file;
    TornTail(RecordWriter(crc), RecordReader(crc, checksum, file), file, 0, records, k);
  }
}
