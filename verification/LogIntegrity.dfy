/** What a reader that checks checksums makes of any file, however damaged (db/log_reader.cc): it returns nothing but
    what sealed physical records say, and it drops and reports the rest of a block that has a broken seal. */
module LogIntegrity {
  import opened DbFormat
  import opened Coding
  import opened Streams
  import opened LogFormat

  /** A stretch of the file read as a physical record: a header of seven bytes at `q`, and the payload after it. */
  datatype Piece = Piece(q: nat, length: nat)

  function End(x: Piece): nat {
    x.q + 7 + x.length
  }

  /** It lies in the file and in one block, and the header gives its length. */
  predicate Stands(file: Bytes, x: Piece) {
    && End(x) <= |file| && x.q % 32768 + 7 + x.length <= 32768
    && x.length == file[x.q + 4] as nat + 0x100 * (file[x.q + 5] as nat)
  }

  function Kind(file: Bytes, x: Piece): byte
    requires Stands(file, x)
  {
    file[x.q + 6]
  }

  function Payload(file: Bytes, x: Piece): Bytes
    requires Stands(file, x)
  {
    file[x.q + 7..End(x)]
  }

  /** The stored word is the masked checksum of the type and the payload. */
  predicate Sealed(crc: Crc, file: Bytes, x: Piece) {
    Stands(file, x) && Unmask(DecodeFixed32(file[x.q..x.q + 4])) == Value(crc, [Kind(file, x)] + Payload(file, x))
  }

  predicate Chain(crc: Crc, file: Bytes, xs: seq<Piece>) {
    && (forall i | 0 <= i < |xs| :: Sealed(crc, file, xs[i]))
    && forall i | 0 < i < |xs| :: xs[i].q == SkipTrailer(End(xs[i - 1]))
  }

  function Payloads(crc: Crc, file: Bytes, xs: seq<Piece>): Bytes
    requires Chain(crc, file, xs)
  {
    if xs == [] then [] else Payloads(crc, file, xs[..|xs| - 1]) + Payload(file, xs[|xs| - 1])
  }

  /** A first fragment and middle ones, one right after the other, ending at `p`. */
  predicate Begun(crc: Crc, file: Bytes, text: Bytes, xs: seq<Piece>, p: nat) {
    && xs != [] && Chain(crc, file, xs) && Payloads(crc, file, xs) == text && p == End(xs[|xs| - 1])
    && forall i | 0 <= i < |xs| :: Kind(file, xs[i]) == if i == 0 then FIRST_TYPE else MIDDLE_TYPE
  }

  /** The record is what these sealed physical records say: one full one, or a first, middle ones and a last. */
  predicate MadeOf(crc: Crc, file: Bytes, record: Bytes, xs: seq<Piece>) {
    && xs != [] && Chain(crc, file, xs) && Payloads(crc, file, xs) == record
    && if |xs| == 1 then Kind(file, xs[0]) == FULL_TYPE
       else forall i | 0 <= i < |xs| ::
         Kind(file, xs[i]) == if i == 0 then FIRST_TYPE else if i < |xs| - 1 then MIDDLE_TYPE else LAST_TYPE
  }

  /** Each record is made of pieces of its own, and they follow each other in the file from offset `start` on. */
  predicate Accounted(crc: Crc, file: Bytes, records: seq<Bytes>, pieces: seq<seq<Piece>>, start: nat)
    decreases |records|
  {
    if records == [] then pieces == [] else
    && pieces != [] && MadeOf(crc, file, records[0], pieces[0]) && start <= pieces[0][0].q
    && Accounted(crc, file, records[1..], pieces[1..], End(pieces[0][|pieces[0]| - 1]))
  }

  // ----- what is returned is sealed -----

  lemma GoodIsSealed(crc: Crc, file: Bytes, q: nat)
    requires q % BLOCK_SIZE + HEADER_SIZE <= BLOCK_SIZE
    ensures var o := ParseAt(crc, true, file, q);
            o.Good? ==> var x := Piece(q, |o.payload|);
                        Sealed(crc, file, x) && o.kind == Kind(file, x) && o.payload == Payload(file, x) && o.next == End(x)
  {
    var o := ParseAt(crc, true, file, q);
    if o.Good? {
      var x := Piece(q, file[q + 4] as nat + 0x100 * (file[q + 5] as nat));
      assert file[q + 6..q + 7 + x.length] == [file[q + 6]] + file[q + 7..q + 7 + x.length];
    }
  }

  lemma ChainGrows(crc: Crc, file: Bytes, xs: seq<Piece>, x: Piece)
    requires Chain(crc, file, xs) && Sealed(crc, file, x)
    requires xs != [] ==> x.q == SkipTrailer(End(xs[|xs| - 1]))
    ensures Chain(crc, file, xs + [x]) && Payloads(crc, file, xs + [x]) == Payloads(crc, file, xs) + Payload(file, x)
  {
    var ys := xs + [x];
    forall i | 0 <= i < |ys|
      ensures Sealed(crc, file, ys[i]) && (0 < i ==> ys[i].q == SkipTrailer(End(ys[i - 1])))
    {
      if i < |xs| {
        assert ys[i] == xs[i];
      }
    }
    assert ys[..|xs|] == xs;
  }

  /** The record being put together: nothing, or what has been begun, all of it from `start` on. */
  predicate Underway(crc: Crc, file: Bytes, partial: Option<Bytes>, xs: seq<Piece>, p: nat, start: nat) {
    && start <= p
    && if partial.None? then xs == []
       else Begun(crc, file, partial.value, xs, p) && start <= xs[0].q
  }

  lemma StartsWith(crc: Crc, file: Bytes, x: Piece)
    requires Sealed(crc, file, x)
    ensures Kind(file, x) == FULL_TYPE ==> MadeOf(crc, file, Payload(file, x), [x])
    ensures Kind(file, x) == FIRST_TYPE ==> Begun(crc, file, Payload(file, x), [x], End(x))
  {
    ChainGrows(crc, file, [], x);
    assert [] + [x] == [x] && [] + Payload(file, x) == Payload(file, x);
  }

  lemma GoesOn(crc: Crc, file: Bytes, text: Bytes, xs: seq<Piece>, p: nat, x: Piece)
    requires Begun(crc, file, text, xs, p) && Sealed(crc, file, x) && x.q == SkipTrailer(p)
    ensures Kind(file, x) == MIDDLE_TYPE ==> Begun(crc, file, text + Payload(file, x), xs + [x], End(x))
    ensures Kind(file, x) == LAST_TYPE ==> MadeOf(crc, file, text + Payload(file, x), xs + [x])
  {
    ChainGrows(crc, file, xs, x);
  }

  /** One physical record: the pieces of the record that is finished with it, or of the one underway after it. */
  lemma OnePiece(crc: Crc, file: Bytes, p: nat, partial: Option<Bytes>, xs: seq<Piece>, start: nat) returns (ys: seq<Piece>)
    requires Underway(crc, file, partial, xs, p, start)
    ensures var r := Absorb(Parse(crc, true, file, p), partial, |file|);
            match r
            case Stop(a) => a.record.Some? ==>
                MadeOf(crc, file, a.record.value, ys) && start <= ys[0].q && End(ys[|ys| - 1]) == a.next
            case Go(partial', next, _) => Underway(crc, file, partial', ys, next, start)
  {
    var q := SkipTrailer(p);
    GoodIsSealed(crc, file, q);
    var o := ParseAt(crc, true, file, q);
    ys := [];
    if o.Good? {
      var x := Piece(q, |o.payload|);
      if o.kind == FULL_TYPE || o.kind == FIRST_TYPE {
        StartsWith(crc, file, x);
        ys := [x];
      } else if partial.Some? && (o.kind == MIDDLE_TYPE || o.kind == LAST_TYPE) {
        GoesOn(crc, file, partial.value, xs, p, x);
        ys := xs + [x];
      }
    }
  }

  lemma {:induction false} RecordIsSealed(crc: Crc, file: Bytes, p: nat, partial: Option<Bytes>, xs: seq<Piece>, start: nat)
      returns (ys: seq<Piece>)
    requires Underway(crc, file, partial, xs, p, start)
    ensures var a := Assemble(crc, true, file, p, partial);
            a.record.Some? ==>
              MadeOf(crc, file, a.record.value, ys) && start <= ys[0].q && End(ys[|ys| - 1]) == a.next
    decreases |file| - p
  {
    ys := OnePiece(crc, file, p, partial, xs, start);
    var r := Absorb(Parse(crc, true, file, p), partial, |file|);
    AssembleUnfold(crc, true, file, p, partial, Parse(crc, true, file, p));
    if r.Go? {
      ys := RecordIsSealed(crc, file, r.next, r.partial, ys, start);
    }
  }

  lemma AccountedGrows(crc: Crc, file: Bytes, record: Bytes, ys: seq<Piece>, next: nat, records: seq<Bytes>,
                       pieces: seq<seq<Piece>>, start: nat)
    requires MadeOf(crc, file, record, ys) && start <= ys[0].q && End(ys[|ys| - 1]) == next && start <= next
    requires Accounted(crc, file, records, pieces, next)
    ensures Accounted(crc, file, [record] + records, [ys] + pieces, start)
  {
    assert ([record] + records)[1..] == records && ([ys] + pieces)[1..] == pieces;
  }

  lemma {:induction false} AllSealed(crc: Crc, file: Bytes, p: nat) returns (pieces: seq<seq<Piece>>)
    requires Progresses(RecordReader(crc, true, file), |file|)
    ensures Accounted(crc, file, ReadAll(RecordReader(crc, true, file), |file|, p).0, pieces, p)
    decreases |file| - p
  {
    var a := Assemble(crc, true, file, p, None);
    assert RecordReader(crc, true, file)(p) == a;
    pieces := [];
    if a.record.Some? {
      var ys := RecordIsSealed(crc, file, p, None, [], p);
      var rest := AllSealed(crc, file, a.next);
      pieces := [ys] + rest;
      AccountedGrows(crc, file, a.record.value, ys, a.next, ReadAll(RecordReader(crc, true, file), |file|, a.next).0, rest, p);
    }
  }

  /** Main result: whatever the file holds, every record a checking reader returns is the concatenation of the payloads
      of physical records with unbroken seals, of the right types and one right after the other; no byte of the file is
      used twice, and the records come in the order of the file. */
  lemma RecordsAreSealed(crc: Crc, file: Bytes) returns (pieces: seq<seq<Piece>>)
    ensures Accounted(crc, file, ReadLog(crc, true, file).0, pieces, 0)
  {
    ReaderProgresses(crc, true, file);
    pieces := AllSealed(crc, file, 0);
  }

  // ----- what is dropped -----

  /** Where the block of an offset ends, or the file before it. */
  function BlockEnd(file: Bytes, q: nat): nat {
    var e := q - q % 32768 + 32768;
    if |file| < e then |file| else e
  }

  /** A physical record whose seal is broken; those of type and length zero have none. */
  predicate Broken(crc: Crc, file: Bytes, x: Piece) {
    Stands(file, x) && !Sealed(crc, file, x) && (Kind(file, x) != 0 || x.length != 0)
  }

  function LostWith(partial: Option<Bytes>): seq<nat> {
    if partial.Some? then [|partial.value|] else []
  }

  lemma DropsBlock(crc: Crc, file: Bytes, p: nat, partial: Option<Bytes>, end: nat, reports: seq<nat>)
    requires Parse(crc, true, file, p) == Bad(end, reports)
    ensures var a := Assemble(crc, true, file, end, None);
            Assemble(crc, true, file, p, partial) == a.(reports := reports + LostWith(partial) + a.reports)
  {
    AssembleUnfold(crc, true, file, p, partial, Bad(end, reports));
  }

  lemma ParsesBroken(crc: Crc, file: Bytes, q: nat, length: nat)
    requires q % BLOCK_SIZE + HEADER_SIZE <= BLOCK_SIZE && Broken(crc, file, Piece(q, length))
    ensures ParseAt(crc, true, file, q) == Bad(BlockEnd(file, q), [BlockEnd(file, q) - q])
  {
    assert file[q + 6..q + 7 + length] == [file[q + 6]] + file[q + 7..q + 7 + length];
  }

  lemma ParsesOverlong(crc: Crc, file: Bytes, q: nat)
    requires q % BLOCK_SIZE + HEADER_SIZE <= BLOCK_SIZE && Overlong(file, q)
    ensures ParseAt(crc, true, file, q) == Bad(BlockEnd(file, q), [BlockEnd(file, q) - q])
  {
  }

  lemma ParsesZeros(crc: Crc, file: Bytes, q: nat)
    requires q % BLOCK_SIZE + HEADER_SIZE <= BLOCK_SIZE && Zeroed(file, q)
    ensures ParseAt(crc, true, file, q) == Bad(BlockEnd(file, q), [])
  {
  }

  /** A reader that comes to a broken seal drops the rest of the block, and with it the record being put together, and
      reports both; it goes on with the next block as if nothing had been before. */
  lemma BrokenIsDropped(crc: Crc, file: Bytes, p: nat, partial: Option<Bytes>, q: nat, length: nat)
    requires q == SkipTrailer(p) && Broken(crc, file, Piece(q, length))
    ensures var rest := Assemble(crc, true, file, BlockEnd(file, q), None);
            Assemble(crc, true, file, p, partial)
            == rest.(reports := [BlockEnd(file, q) - q] + LostWith(partial) + rest.reports)
  {
    ParsesBroken(crc, file, q, length);
    DropsBlock(crc, file, p, partial, BlockEnd(file, q), [BlockEnd(file, q) - q]);
  }

  /** The length leads out of a block that is there whole. */
  predicate Overlong(file: Bytes, q: nat) {
    && q + 7 <= q - q % 32768 + 32768 <= |file|
    && 32768 < q % 32768 + 7 + file[q + 4] as nat + 0x100 * (file[q + 5] as nat)
  }

  /** The same of a length that is wrong. */
  lemma OverlongIsDropped(crc: Crc, file: Bytes, p: nat, partial: Option<Bytes>, q: nat)
    requires q == SkipTrailer(p) && Overlong(file, q)
    ensures var rest := Assemble(crc, true, file, BlockEnd(file, q), None);
            Assemble(crc, true, file, p, partial)
            == rest.(reports := [BlockEnd(file, q) - q] + LostWith(partial) + rest.reports)
  {
    ParsesOverlong(crc, file, q);
    DropsBlock(crc, file, p, partial, BlockEnd(file, q), [BlockEnd(file, q) - q]);
  }

  predicate Zeroed(file: Bytes, q: nat) {
    q + 7 <= |file| && file[q + 4] == 0 && file[q + 5] == 0 && file[q + 6] == 0
  }

  /** Zeros where a header should be are passed over with the rest of the block; nobody reports them. */
  lemma ZerosArePassedOver(crc: Crc, file: Bytes, p: nat, partial: Option<Bytes>, q: nat)
    requires q == SkipTrailer(p) && Zeroed(file, q)
    ensures var rest := Assemble(crc, true, file, BlockEnd(file, q), None);
            Assemble(crc, true, file, p, partial) == rest.(reports := LostWith(partial) + rest.reports)
  {
    ParsesZeros(crc, file, q);
    DropsBlock(crc, file, p, partial, BlockEnd(file, q), []);
    assert [] + LostWith(partial) == LostWith(partial);
  }

  // ----- over a whole log -----

  /** Where a reader stands, and what it has of the record it is putting together. */
  datatype Stand = Stand(p: nat, partial: Option<Bytes>)

  /** Where it stands after one more physical record, if the log does not end there. */
  function Moved(crc: Crc, file: Bytes, s: Stand): Option<Stand> {
    match Absorb(Parse(crc, true, file, s.p), s.partial, |file|)
    case Go(partial, next, _) => Some(Stand(next, partial))
    case Stop(a) => if a.record.Some? then Some(Stand(a.next, None)) else None
  }

  /** Where it stands after `n` physical records. */
  ghost function After(move: Stand -> Option<Stand>, n: nat): Option<Stand> {
    if n == 0 then Some(Stand(0, None)) else
    var s := After(move, n - 1);
    if s.None? then None else move(s.value)
  }

  function Mover(crc: Crc, file: Bytes): Stand -> Option<Stand> {
    (s: Stand) => Moved(crc, file, s)
  }

  /** Everything reported by the records from offset `p` on. */
  ghost function Later(crc: Crc, file: Bytes, p: nat): seq<nat> {
    ReaderProgresses(crc, true, file);
    ReadAll(RecordReader(crc, true, file), |file|, p).1
  }

  /** Everything reported from an answer on, when `later` is what follows if it has a record. */
  ghost function Rest(a: Answer, later: seq<nat>): seq<nat> {
    a.reports + if a.record.Some? then later else []
  }

  lemma LaterUnfold(crc: Crc, file: Bytes, p: nat, a: Answer)
    requires a == Assemble(crc, true, file, p, None)
    ensures Later(crc, file, p) == Rest(a, Later(crc, file, a.next))
  {
    ReaderProgresses(crc, true, file);
    assert RecordReader(crc, true, file)(p) == a;
    assert a.reports + [] == a.reports;
  }

  lemma RestSplits(a: Answer, later: seq<nat>, reports: seq<nat>)
    ensures Rest(a.(reports := reports + a.reports), later) == reports + Rest(a, later)
  {
    var end := if a.record.Some? then later else [];
    assert (reports + a.reports) + end == reports + (a.reports + end);
  }

  ghost function ReportsFrom(crc: Crc, file: Bytes, s: Stand): seq<nat> {
    var a := Assemble(crc, true, file, s.p, s.partial);
    Rest(a, Later(crc, file, a.next))
  }

  predicate EndsWith(a: seq<nat>, b: seq<nat>) {
    |b| <= |a| && a[|a| - |b|..] == b
  }

  lemma EndsWithPlus(a: seq<nat>, b: seq<nat>)
    ensures EndsWith(a + b, b)
  {
  }

  lemma ReportsStep(crc: Crc, file: Bytes, s: Stand, t: Stand)
    requires Moved(crc, file, s) == Some(t)
    ensures EndsWith(ReportsFrom(crc, file, s), ReportsFrom(crc, file, t))
  {
    var o := Parse(crc, true, file, s.p);
    var r := Absorb(o, s.partial, |file|);
    AssembleUnfold(crc, true, file, s.p, s.partial, o);
    if r.Go? {
      var a := Assemble(crc, true, file, t.p, t.partial);
      RestSplits(a, Later(crc, file, a.next), r.reports);
      EndsWithPlus(r.reports, ReportsFrom(crc, file, t));
    } else {
      LaterUnfold(crc, file, t.p, Assemble(crc, true, file, t.p, None));
      EndsWithPlus(r.answer.reports, ReportsFrom(crc, file, t));
    }
  }

  ghost function Teller(crc: Crc, file: Bytes): Stand -> seq<nat> {
    (s: Stand) => ReportsFrom(crc, file, s)
  }

  lemma {:induction false} StillToTell(move: Stand -> Option<Stand>, tell: Stand -> seq<nat>, n: nat)
    requires forall s: Stand :: move(s).Some? ==> EndsWith(tell(s), tell(move(s).value))
    requires After(move, n).Some?
    ensures EndsWith(tell(Stand(0, None)), tell(After(move, n).value))
  {
    if n > 0 {
      StillToTell(move, tell, n - 1);
    }
  }

  lemma BrokenReports(crc: Crc, file: Bytes, s: Stand, q: nat, length: nat, lost: seq<nat>)
    requires q == SkipTrailer(s.p) && Broken(crc, file, Piece(q, length))
    requires lost == [BlockEnd(file, q) - q] + LostWith(s.partial)
    ensures lost <= ReportsFrom(crc, file, s)
  {
    BrokenIsDropped(crc, file, s.p, s.partial, q, length);
    var a := Assemble(crc, true, file, BlockEnd(file, q), None);
    RestSplits(a, Later(crc, file, a.next), lost);
  }

  lemma FromTheStart(crc: Crc, file: Bytes)
    ensures Later(crc, file, 0) == ReportsFrom(crc, file, Stand(0, None))
  {
    LaterUnfold(crc, file, 0, Assemble(crc, true, file, 0, None));
  }

  lemma Within(all: seq<nat>, rest: seq<nat>, lost: seq<nat>) returns (i: nat)
    requires EndsWith(all, rest) && lost <= rest
    ensures i + |lost| <= |all| && all[i..i + |lost|] == lost
  {
    i := |all| - |rest|;
    assert all[i..i + |lost|] == rest[..|lost|];
  }

  lemma TellsOn(crc: Crc, file: Bytes, n: nat, s: Stand)
    requires After(Mover(crc, file), n) == Some(s)
    ensures EndsWith(ReadLog(crc, true, file).1, ReportsFrom(crc, file, s))
  {
    var move, tell := Mover(crc, file), Teller(crc, file);
    forall a: Stand | move(a).Some?
      ensures EndsWith(tell(a), tell(move(a).value))
    {
      ReportsStep(crc, file, a, move(a).value);
    }
    StillToTell(move, tell, n);
    FromTheStart(crc, file);
  }

  /** Main result: a broken seal anywhere a reader gets to is reported, with the number of bytes to the end of its
      block; and what was underway of a record is reported next. */
  lemma DamageIsReported(crc: Crc, file: Bytes, n: nat, s: Stand, q: nat, length: nat) returns (i: nat)
    requires After(Mover(crc, file), n) == Some(s) && q == SkipTrailer(s.p) && Broken(crc, file, Piece(q, length))
    ensures var lost, reports := [BlockEnd(file, q) - q] + LostWith(s.partial), ReadLog(crc, true, file).1;
            i + |lost| <= |reports| && reports[i..i + |lost|] == lost
  {
    var lost := [BlockEnd(file, q) - q] + LostWith(s.partial);
    TellsOn(crc, file, n, s);
    BrokenReports(crc, file, s, q, length, lost);
    i := Within(ReadLog(crc, true, file).1, ReportsFrom(crc, file, s), lost);
  }
}
