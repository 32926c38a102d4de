/** The log writer and reader as the objects they are (db/log_writer.cc, db/log_reader.cc), proved against the format. */
module LogFiles {
  import opened DbFormat
  import opened Coding
  import opened Streams
  import opened LogFormat

  class Writer {
    const crc: Crc
    var dest: Bytes
    var blockOffset: nat

    ghost predicate Valid()
      reads this
    {
      blockOffset <= BLOCK_SIZE && blockOffset % BLOCK_SIZE == |dest| % BLOCK_SIZE
    }

    /** A writer on a file that already holds `dest`. */
    constructor (crc: Crc, dest: Bytes)
      ensures Valid() && this.crc == crc && this.dest == dest
    {
      this.crc, this.dest, this.blockOffset := crc, dest, |dest| % BLOCK_SIZE;
    }

    method EmitPhysicalRecord(kind: byte, payload: Bytes)
      requires Valid() && blockOffset + HEADER_SIZE + |payload| <= BLOCK_SIZE
      modifies this
      ensures Valid() && dest == old(dest) + Header(crc, kind, payload) + payload
      ensures blockOffset == old(blockOffset) + HEADER_SIZE + |payload|
    {
      SameOffset(|dest|, blockOffset, HEADER_SIZE + |payload|);
      var sum := Mask(Extend(crc, Value(crc, [kind]), payload));
      dest := dest + (EncodeFixed32(sum) + [(|payload| % 0x100) as byte, (|payload| / 0x100) as byte, kind]);
      dest := dest + payload;
      blockOffset := blockOffset + HEADER_SIZE + |payload|;
    }

    /** Fills up a rest of a block that is too short for a header. */
    method SwitchBlock()
      requires Valid()
      modifies this
      ensures Valid() && dest == old(dest) + Zeros(SkipTrailer(|old(dest)|) - |old(dest)|)
      ensures blockOffset == SkipTrailer(|old(dest)|) % BLOCK_SIZE
    {
      var leftover := BLOCK_SIZE - blockOffset;
      if leftover < HEADER_SIZE {
        if leftover > 0 {
          dest := dest + Zeros(leftover);
        }
        blockOffset := 0;
      }
    }

    /** Writes one fragment, as long as the block has room for. */
    method EmitFragment(left: Bytes, begin: bool) returns (n: nat)
      requires Valid()
      modifies this
      ensures Valid() && n == FragmentLength(|old(dest)|, |left|)
      ensures dest == old(dest) + FirstFragment(crc, |old(dest)|, left, begin)
    {
      ghost var before := dest;
      SwitchBlock();
      var avail := BLOCK_SIZE - blockOffset - HEADER_SIZE;
      n := if |left| < avail then |left| else avail;
      var kind := if begin && n == |left| then FULL_TYPE else if begin then FIRST_TYPE
                  else if n == |left| then LAST_TYPE else MIDDLE_TYPE;
      EmitPhysicalRecord(kind, left[..n]);
      Join(before, Zeros(SkipTrailer(|before|) - |before|), Header(crc, kind, left[..n]), left[..n]);
    }

    method AddRecord(slice: Bytes)
      requires Valid()
      modifies this
      ensures Valid() && dest == old(dest) + RecordWriter(crc)(|old(dest)|, slice)
    {
      var left, begin := slice, true;
      ghost var all := dest + Fragments(crc, |dest|, slice, true);
      while true
        invariant Valid() && all == dest + Fragments(crc, |dest|, left, begin)
        decreases |left|, if |dest| % BLOCK_SIZE == 0 then 0 else 1
      {
        ghost var before := dest;
        var n := EmitFragment(left, begin);
        Emitted(crc, before, dest, left, begin, n, all);
        left, begin := left[n..], false;
        if left == [] {
          break;
        }
      }
    }
  }

  lemma SameOffset(a: nat, b: nat, n: nat)
    requires a % BLOCK_SIZE == b % BLOCK_SIZE
    ensures (a + n) % BLOCK_SIZE == (b + n) % BLOCK_SIZE
  {
  }

  lemma Join(a: Bytes, b: Bytes, c: Bytes, d: Bytes)
    ensures a + b + c + d == a + (b + c + d)
  {
  }

  lemma Regroup(a: Bytes, b: Bytes, c: Bytes)
    ensures a + (b + c) == (a + b) + c && a + (b + []) == a + b
  {
  }

  /** One turn of AddRecord's loop: what is written and what is left still make up the record. */
  lemma Emitted(crc: Crc, before: Bytes, after: Bytes, left: Bytes, begin: bool, n: nat, all: Bytes)
    requires n == FragmentLength(|before|, |left|) && all == before + Fragments(crc, |before|, left, begin)
    requires after == before + FirstFragment(crc, |before|, left, begin)
    ensures n == |left| ==> all == after
    ensures n < |left| ==> all == after + Fragments(crc, |after|, left[n..], false)
    ensures n < |left| ==> |after| % BLOCK_SIZE == 0 && (n == 0 ==> |before| % BLOCK_SIZE != 0)
  {
    var first := FirstFragment(crc, |before|, left, begin);
    FragmentsUnfold(crc, |before|, left, begin, n, |after|);
    Regroup(before, first, Fragments(crc, |after|, left[n..], false));
    if n < |left| {
      FragmentsNext(crc, |before|, left, begin, n, |after|);
    }
  }

  /** What ReadPhysicalRecord returns for an outcome. */
  function TypeOf(o: Outcome): byte {
    match o
    case Good(kind, _, _) => kind
    case Eof => EOF_TYPE
    case Bad(_, _) => BAD_RECORD
  }

  function PayloadOf(o: Outcome): Bytes {
    if o.Good? then o.payload else []
  }

  function NextOf(o: Outcome, size: nat): nat {
    if o.Eof? then size else o.next
  }

  function ReportsOf(o: Outcome): seq<nat> {
    if o.Bad? then o.reports else []
  }

  /** The block a buffer was read from ends where the buffer does, or the file ends inside it. */
  ghost predicate Buffered(size: nat, p: nat, readPos: nat, eof: bool) {
    && p <= readPos <= size
    && (if eof then readPos == size else readPos % BLOCK_SIZE == 0)
    && (p < readPos ==>
          var blockEnd := p - p % BLOCK_SIZE + BLOCK_SIZE;
          if eof then size < blockEnd else readPos == blockEnd)
  }

  /** Too little left in a buffer whose block was read whole is a trailer. */
  lemma TrailerSkipped(size: nat, p: nat, readPos: nat)
    requires Buffered(size, p, readPos, false) && readPos - p < HEADER_SIZE
    ensures SkipTrailer(p) == readPos && SkipTrailer(readPos) == readPos
  {
  }

  lemma BlockRead(size: nat, readPos: nat, end: nat)
    requires readPos <= size && readPos % BLOCK_SIZE == 0 && end == Min(size, readPos + BLOCK_SIZE)
    ensures Buffered(size, readPos, end, end - readPos < BLOCK_SIZE)
  {
  }

  lemma TruncatedHeader(crc: Crc, checksum: bool, file: Bytes, q: nat, p: nat)
    requires p <= q && |file| < p + HEADER_SIZE && q % BLOCK_SIZE + HEADER_SIZE <= BLOCK_SIZE
    ensures ParseAt(crc, checksum, file, q) == Eof
  {
  }

  lemma WholeHeader(size: nat, p: nat, readPos: nat, eof: bool)
    requires Buffered(size, p, readPos, eof) && HEADER_SIZE <= readPos - p
    ensures SkipTrailer(p) == p && readPos == Min(size, p - p % BLOCK_SIZE + BLOCK_SIZE)
    ensures eof <==> size < p - p % BLOCK_SIZE + BLOCK_SIZE
  {
  }

  lemma SliceOfSlice(file: Bytes, p: nat, r: nat, i: nat, j: nat)
    requires p <= r <= |file| && i <= j <= r - p
    ensures file[p..r][i..j] == file[p + i..p + j]
  {
    var a, b := file[p..r][i..j], file[p + i..p + j];
    assert |a| == |b| && forall k | 0 <= k < |a| :: a[k] == b[k];
  }

  /** Parse, seen from the buffer. */
  function ParseFront(crc: Crc, checksum: bool, buffer: Bytes, p: nat, eof: bool): Outcome
    requires HEADER_SIZE <= |buffer|
  {
    var length := buffer[4] as nat + 0x100 * (buffer[5] as nat);
    if HEADER_SIZE + length > |buffer| then
      if eof then Eof else Bad(p + |buffer|, [|buffer|])
    else if buffer[6] == ZERO_TYPE && length == 0 then
      Bad(p + |buffer|, [])
    else if checksum && Unmask(DecodeFixed32(buffer[0..4])) != Coding.Value(crc, buffer[6..7 + length]) then
      Bad(p + |buffer|, [|buffer|])
    else
      Good(buffer[6], buffer[7..7 + length], p + 7 + length)
  }

  lemma FrontBytes(file: Bytes, p: nat, readPos: nat, buffer: Bytes)
    requires p + HEADER_SIZE <= readPos <= |file| && buffer == file[p..readPos]
    ensures buffer[4] == file[p + 4] && buffer[5] == file[p + 5] && buffer[6] == file[p + 6]
    ensures buffer[0..4] == file[p..p + 4]
  {
    SliceOfSlice(file, p, readPos, 0, 4);
  }

  lemma ParsesFront(crc: Crc, checksum: bool, file: Bytes, p: nat, readPos: nat, eof: bool, buffer: Bytes)
    requires Buffered(|file|, p, readPos, eof) && HEADER_SIZE <= readPos - p && buffer == file[p..readPos]
    ensures Parse(crc, checksum, file, p) == ParseFront(crc, checksum, buffer, p, eof)
  {
    WholeHeader(|file|, p, readPos, eof);
    ParsesFrontAt(crc, checksum, file, p, readPos, eof, buffer);
  }

  lemma ParsesFrontAt(crc: Crc, checksum: bool, file: Bytes, p: nat, readPos: nat, eof: bool, buffer: Bytes)
    requires p % BLOCK_SIZE + HEADER_SIZE <= BLOCK_SIZE && readPos == Min(|file|, p - p % BLOCK_SIZE + BLOCK_SIZE)
    requires eof <==> |file| < p - p % BLOCK_SIZE + BLOCK_SIZE
    requires HEADER_SIZE <= readPos - p && buffer == file[p..readPos]
    ensures ParseAt(crc, checksum, file, p) == ParseFront(crc, checksum, buffer, p, eof)
  {
    FrontBytes(file, p, readPos, buffer);
    var length := file[p + 4] as nat + 0x100 * (file[p + 5] as nat);
    if HEADER_SIZE + length <= readPos - p {
      SliceOfSlice(file, p, readPos, 6, 7 + length);
      SliceOfSlice(file, p, readPos, 7, 7 + length);
    }
  }

  lemma EofAtEnd(crc: Crc, checksum: bool, buffer: Bytes, p: nat, readPos: nat, eof: bool)
    requires HEADER_SIZE <= |buffer|
    ensures ParseFront(crc, checksum, buffer, p, eof).Eof? ==> eof
  {
  }

  lemma RestBuffered(size: nat, p: nat, n: nat, readPos: nat, eof: bool)
    requires Buffered(size, p, readPos, eof) && p + n <= readPos
    ensures Buffered(size, p + n, readPos, eof)
  {
    if p + n < readPos {
      SameBlock(p, n);
    }
  }

  lemma SameBlock(p: nat, n: nat)
    requires p % BLOCK_SIZE + n < BLOCK_SIZE
    ensures (p + n) % BLOCK_SIZE == p % BLOCK_SIZE + n
  {
  }

  class Reader {
    const crc: Crc
    const checksum: bool
    const file: Bytes
    var readPos: nat
    var buffer: Bytes
    var eof: bool
    /** Bytes dropped, one number for every corruption reported. */
    var reports: seq<nat>

    ghost predicate Valid()
      reads this
    {
      && |buffer| <= readPos && Buffered(|file|, readPos - |buffer|, readPos, eof)
      && buffer == file[readPos - |buffer|..readPos]
    }

    ghost function Position(): nat
      requires Valid()
      reads this
    {
      readPos - |buffer|
    }

    constructor (crc: Crc, checksum: bool, file: Bytes)
      ensures Valid() && Position() == 0 && reports == []
      ensures this.crc == crc && this.checksum == checksum && this.file == file
    {
      this.crc, this.checksum, this.file := crc, checksum, file;
      readPos, buffer, eof, reports := 0, [], false, [];
    }

    /** The next block, or as much of it as there is. */
    method ReadBlock()
      requires Valid() && |buffer| < HEADER_SIZE && !eof
      modifies this`readPos, this`buffer, this`eof
      ensures Valid() && SkipTrailer(Position()) == SkipTrailer(old(Position()))
      ensures eof || |buffer| == BLOCK_SIZE
    {
      TrailerSkipped(|file|, Position(), readPos);
      var end := Min(|file|, readPos + BLOCK_SIZE);
      buffer := file[readPos..end];
      eof := |buffer| < BLOCK_SIZE;
      BlockRead(|file|, readPos, end);
      readPos := end;
    }

    /** Drops the rest of the block, reporting it or not. */
    method DropBuffer(report: bool)
      requires Valid()
      modifies this`buffer, this`reports
      ensures Valid() && Position() == readPos
      ensures reports == old(reports) + if report then [|old(buffer)|] else []
    {
      if report {
        reports := reports + [|buffer|];
      }
      buffer := [];
    }

    method RemovePrefix(n: nat)
      requires Valid() && n <= |buffer|
      modifies this`buffer
      ensures Valid() && Position() == old(Position()) + n
    {
      RestBuffered(|file|, Position(), n, readPos, eof);
      SliceOfSlice(file, Position(), readPos, n, |buffer|);
      buffer := buffer[n..];
    }

    /** Parses the physical record at the front of the buffer. */
    method ParseBuffer() returns (kind: byte, fragment: Bytes, ghost o: Outcome)
      requires Valid() && HEADER_SIZE <= |buffer|
      modifies this`buffer, this`reports
      ensures Valid() && o == ParseFront(crc, checksum, old(buffer), old(Position()), eof)
      ensures kind == TypeOf(o) && fragment == PayloadOf(o) && Position() == if o.Eof? then readPos else o.next
      ensures reports == old(reports) + ReportsOf(o)
    {
      o := ParseFront(crc, checksum, buffer, Position(), eof);
      var length := buffer[4] as nat + 0x100 * (buffer[5] as nat);
      kind := buffer[6];
      if HEADER_SIZE + length > |buffer| {
        DropBuffer(!eof);
        return if eof then EOF_TYPE else BAD_RECORD, [], o;
      }
      if kind == ZERO_TYPE && length == 0 {
        DropBuffer(false);
        return BAD_RECORD, [], o;
      }
      if checksum {
        var expected := Unmask(DecodeFixed32(buffer[0..4]));
        var actual := Coding.Value(crc, buffer[6..7 + length]);
        if actual != expected {
          DropBuffer(true);
          return BAD_RECORD, [], o;
        }
      }
      fragment := buffer[7..7 + length];
      RemovePrefix(HEADER_SIZE + length);
    }

    method ReadPhysicalRecord() returns (kind: byte, fragment: Bytes, ghost o: Outcome)
      requires Valid()
      modifies this`readPos, this`buffer, this`eof, this`reports
      ensures Valid() && o == Parse(crc, checksum, file, old(Position()))
      ensures kind == TypeOf(o) && fragment == PayloadOf(o) && Position() == NextOf(o, |file|)
      ensures reports == old(reports) + ReportsOf(o)
    {
      ghost var q := SkipTrailer(Position());
      while |buffer| < HEADER_SIZE
        invariant Valid() && SkipTrailer(Position()) == q && reports == old(reports)
        decreases !eof, HEADER_SIZE - |buffer|
      {
        if !eof {
          ReadBlock();
        } else {
          TruncatedHeader(crc, checksum, file, q, Position());
          buffer := [];
          return EOF_TYPE, [], Eof;
        }
      }
      ParsesFront(crc, checksum, file, Position(), readPos, eof, buffer);
      EofAtEnd(crc, checksum, buffer, Position(), readPos, eof);
      kind, fragment, o := ParseBuffer();
    }

    /** Adds a physical record to the record being put together. */
    method TakeFragment(kind: byte, fragment: Bytes, scratch: Option<Bytes>, ghost o: Outcome, ghost base: seq<nat>)
        returns (done: bool, record: Option<Bytes>, scratch': Option<Bytes>)
      requires kind == TypeOf(o) && fragment == PayloadOf(o) && reports == base + ReportsOf(o)
      modifies this`reports
      ensures var r := Absorb(o, scratch, |file|);
              && done == r.Stop?
              && (done ==> record == r.answer.record && reports == base + r.answer.reports && r.answer.next == NextOf(o, |file|))
              && (!done ==> scratch' == r.partial && reports == base + r.reports && r.next == NextOf(o, |file|))
    {
      done, record, scratch' := false, None, scratch;
      if kind == FULL_TYPE {
        if scratch.Some? && scratch.value != [] {
          reports := reports + [|scratch.value|];
        }
        return true, Some(fragment), None;
      } else if kind == FIRST_TYPE {
        if scratch.Some? && scratch.value != [] {
          reports := reports + [|scratch.value|];
        }
        scratch' := Some(fragment);
      } else if kind == MIDDLE_TYPE {
        if scratch.None? {
          reports := reports + [|fragment|];
        } else {
          scratch' := Some(scratch.value + fragment);
        }
      } else if kind == LAST_TYPE {
        if scratch.None? {
          reports := reports + [|fragment|];
        } else {
          return true, Some(scratch.value + fragment), None;
        }
      } else if kind == EOF_TYPE {
        return true, None, None;
      } else if kind == BAD_RECORD {
        if scratch.Some? {
          reports := reports + [|scratch.value|];
        }
        scratch' := None;
      } else {
        reports := reports + [|fragment| + if scratch.Some? then |scratch.value| else 0];
        scratch' := None;
      }
    }

    /** One turn of ReadRecord's loop: `r` is what the record makes of the next physical record. */
    method ReadFragment(scratch: Option<Bytes>)
        returns (done: bool, record: Option<Bytes>, scratch': Option<Bytes>, ghost r: Progress)
      requires Valid()
      modifies this`readPos, this`buffer, this`eof, this`reports
      ensures Valid() && r == Absorb(Parse(crc, checksum, file, old(Position())), scratch, |file|)
      ensures done == r.Stop?
      ensures done ==> r.answer == Answer(record, Position(), r.answer.reports) && reports == old(reports) + r.answer.reports
      ensures !done ==> r == Go(scratch', Position(), r.reports) && reports == old(reports) + r.reports
    {
      ghost var base := reports;
      var kind, fragment, o := ReadPhysicalRecord();
      done, record, scratch' := TakeFragment(kind, fragment, scratch, o, base);
      r := Absorb(o, scratch, |file|);
    }

    /** The next record, and everything reported on the way to it. */
    method ReadRecord() returns (record: Option<Bytes>)
      requires Valid()
      modifies this`readPos, this`buffer, this`eof, this`reports
      ensures Valid()
      ensures var a := Assemble(crc, checksum, file, old(Position()), None);
              record == a.record && Position() == a.next && reports == old(reports) + a.reports
    {
      var scratch: Option<Bytes> := None;
      ghost var answer := Assemble(crc, checksum, file, Position(), None);
      ghost var before := reports;
      while true
        invariant Valid()
        invariant Pending(answer, Assemble(crc, checksum, file, Position(), scratch), before, reports)
        decreases |file| - Position()
      {
        ghost var p, partial, now := Position(), scratch, reports;
        ghost var r;
        var done;
        done, record, scratch, r := ReadFragment(scratch);
        PendingMoves(crc, checksum, file, p, partial, answer, before, now, r);
        if done {
          return;
        }
      }
    }
  }

  /** `whole` is still to be answered: what has been reported since `before`, and then `rest`. */
  ghost predicate Pending(whole: Answer, rest: Answer, before: seq<nat>, now: seq<nat>) {
    whole.record == rest.record && whole.next == rest.next && before + whole.reports == now + rest.reports
  }

  lemma PendingMoves(crc: Crc, checksum: bool, file: Bytes, p: nat, partial: Option<Bytes>,
                     whole: Answer, before: seq<nat>, now: seq<nat>, r: Progress)
    requires Pending(whole, Assemble(crc, checksum, file, p, partial), before, now)
    requires r == Absorb(Parse(crc, checksum, file, p), partial, |file|)
    ensures r.Stop? ==> Pending(whole, r.answer, before, now) && before + whole.reports == now + r.answer.reports
    ensures r.Go? ==> p < r.next <= |file|
                      && Pending(whole, Assemble(crc, checksum, file, r.next, r.partial), before, now + r.reports)
  {
    AssembleUnfold(crc, checksum, file, p, partial, Parse(crc, checksum, file, p));
    if r.Go? {
      var rest := Assemble(crc, checksum, file, r.next, r.partial);
      assert now + (r.reports + rest.reports) == now + r.reports + rest.reports;
    }
  }

  /** Writes records one after the other to an empty file. */
  method WriteLog(crc: Crc, records: seq<Bytes>) returns (file: Bytes)
    ensures file == StreamOf(RecordWriter(crc), 0, records)
  {
    var writer := new Writer(crc, []);
    for i := 0 to |records|
      invariant writer.Valid() && writer.crc == crc && fresh(writer)
      invariant writer.dest == StreamOf(RecordWriter(crc), 0, records[..i])
    {
      StreamOfAppend(RecordWriter(crc), records[..i], records[i]);
      assert records[..i + 1] == records[..i] + [records[i]];
      writer.AddRecord(records[i]);
    }
    assert records[..|records|] == records;
    file := writer.dest;
  }

  /** The loop of RecoverLogFile: all records of a log, and everything reported. */
  method ReplayLog(crc: Crc, checksum: bool, file: Bytes) returns (records: seq<Bytes>, reports: seq<nat>)
    ensures (records, reports) == ReadLog(crc, checksum, file)
  {
    var reader := new Reader(crc, checksum, file);
    ghost var read := RecordReader(crc, checksum, file);
    ReaderProgresses(crc, checksum, file);
    ghost var all := ReadAll(read, |file|, 0);
    assert [] + all.0 == all.0 && [] + all.1 == all.1;
    records := [];
    while true
      invariant reader.Valid() && fresh(reader) && reader.crc == crc && reader.checksum == checksum && reader.file == file
      invariant ReadLog(crc, checksum, file) == Joined(records, reader.reports, ReadAll(read, |file|, reader.Position()))
      decreases |file| - reader.Position()
    {
      ghost var p, before := reader.Position(), reader.reports;
      var record := reader.ReadRecord();
      assert read(p) == Assemble(crc, checksum, file, p, None);
      JoinedMoves(read, |file|, p, records, before);
      if record.None? {
        return records, reader.reports;
      }
      records := records + [record.value];
    }
  }

  ghost function Joined(records: seq<Bytes>, reports: seq<nat>, rest: (seq<Bytes>, seq<nat>)): (seq<Bytes>, seq<nat>) {
    (records + rest.0, reports + rest.1)
  }

  lemma JoinedMoves(read: Decoder, size: nat, p: nat, records: seq<Bytes>, reports: seq<nat>)
    requires Progresses(read, size)
    ensures var a := read(p);
            Joined(records, reports, ReadAll(read, size, p))
            == if a.record.None? then (records, reports + a.reports)
               else Joined(records + [a.record.value], reports + a.reports, ReadAll(read, size, a.next))
  {
    var a := read(p);
    if a.record.Some? {
      var rest := ReadAll(read, size, a.next);
      assert records + ([a.record.value] + rest.0) == records + [a.record.value] + rest.0;
      assert reports + (a.reports + rest.1) == reports + a.reports + rest.1;
    } else {
      assert records + [] == records;
    }
  }
}
