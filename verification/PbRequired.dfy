/** Missing required fields (nanopb, pb_decode.c): a message decodes if and only if its bytes can be read field by field
    and, among the tags read, there is the one of every required field that is looked after. */
module PbRequireds {
  import opened DbFormat
  import opened Coding
  import opened PbWire
  import opened PbMessages
  import opened PbNorms
  import opened PbRoundTrips

  /** A required field with fewer than 64 required fields before it. */
  ghost predicate LookedAfter(d: Desc, i: nat) {
    && i < |d.fields| && d.fields[i].rule.Required?
    && |set j | 0 <= j < i && d.fields[j].rule.Required?| < 64
  }

  /** Every such field has its tag among these. */
  ghost predicate Complete(d: Desc, tags: set<nat>) {
    forall i: nat | LookedAfter(d, i) :: d.fields[i].tag in tags
  }

  /** What the bytes of a message hold at its top level, read field by field without asking which fields are there: the
      slots, and the tags in front of them. */
  datatype Walked = Walked(slots: seq<Slot>, tags: set<nat>)

  ghost function Walk(d: Desc, b: Bytes, p: nat, limit: nat, slots: seq<Slot>): (r: Option<Walked>)
    requires p <= limit <= |b| && WellFormed(d) && ShapedSlots(d, slots)
    ensures r.Some? ==> ShapedSlots(d, r.value.slots)
    decreases limit - p
  {
    if p == limit then Some(Walked(slots, {})) else
    match DecodeTag(b, p, limit)
    case NoTag(eof) => if eof then Some(Walked(slots, {})) else None
    case Tag(tag, wireType, next) =>
      if d.fields == [] && tag == 0 then None else
      var at := WalkField(d, b, next, limit, slots, tag, wireType);
      if at.None? then None else
      var rest := Walk(d, b, at.value.next, limit, at.value.value);
      if rest.None? then None else Some(Walked(rest.value.slots, {tag} + rest.value.tags))
  }

  /** The slots after the payload of one field, and where it ends; a field the message does not have changes nothing. */
  ghost function WalkField(d: Desc, b: Bytes, p: nat, limit: nat, slots: seq<Slot>, tag: nat, wireType: nat)
      : (r: Option<Got<seq<Slot>>>)
    requires p <= limit <= |b| && WellFormed(d) && ShapedSlots(d, slots)
    ensures r.Some? ==> ShapedSlots(d, r.value.value) && p < r.value.next <= limit
  {
    var i := IndexOf(d, tag, 0);
    if i < |d.fields| then DecodeField(d, i, b, p, limit, slots, wireType) else
    var n := SkipField(b, p, limit, wireType);
    if n.None? then None else Some(Got(slots, n.value))
  }

  // ----- counting required fields -----


  lemma {:induction false} CountsRequired(d: Desc, i: nat)
    requires i <= |d.fields|
    ensures |set j | 0 <= j < i && d.fields[j].rule.Required?| == RequiredBefore(d, i)
  {
    var s := set j | 0 <= j < i && d.fields[j].rule.Required?;
    if i == 0 {
      assert s == {};
    } else {
      CountsRequired(d, i - 1);
      var t := set j | 0 <= j < i - 1 && d.fields[j].rule.Required?;
      assert s == if d.fields[i - 1].rule.Required? then t + {i - 1} else t;
    }
  }

  lemma {:induction false} CountGrows(d: Desc, i: nat, j: nat)
    requires i <= j <= |d.fields|
    ensures RequiredBefore(d, i) <= RequiredBefore(d, j)
    ensures i < j && d.fields[i].rule.Required? ==> RequiredBefore(d, i) < RequiredBefore(d, j)
  {
    if i < j {
      CountGrows(d, i, j - 1);
    }
  }

  lemma {:induction false} FindsRequired(d: Desc, k: nat, n: nat) returns (i: nat)
    requires n <= |d.fields| && k < RequiredBefore(d, n)
    ensures i < n && d.fields[i].rule.Required? && RequiredBefore(d, i) == k
  {
    if d.fields[n - 1].rule.Required? && k == RequiredBefore(d, n - 1) {
      i := n - 1;
    } else {
      i := FindsRequired(d, k, n - 1);
    }
  }

  // ----- the seen-set says which tags were read -----

  /** Every field that is looked after was seen before, or has its tag among these. */
  ghost predicate Covered(d: Desc, tags: set<nat>, seen: set<nat>) {
    forall i: nat | LookedAfter(d, i) :: d.fields[i].tag in tags || RequiredBefore(d, i) in seen
  }

  lemma FinishIfCovered(d: Desc, slots: seq<Slot>, seen: set<nat>)
    ensures Finish(d, slots, seen) == if Covered(d, {}, seen) then Some(slots) else None
  {
    var n := |d.fields|;
    if Covered(d, {}, seen) {
      forall k | 0 <= k < RequiredBefore(d, n) && k < MAX_REQUIRED_FIELDS
        ensures k in seen
      {
        var i := FindsRequired(d, k, n);
        CountsRequired(d, i);
        assert LookedAfter(d, i);
      }
    } else {
      var i: nat :| LookedAfter(d, i) && RequiredBefore(d, i) !in seen;
      CountsRequired(d, i);
      CountGrows(d, i, n);
    }
  }

  lemma SeeOne(d: Desc, i: nat, j: nat, seen: set<nat>)
    requires i < |d.fields| && LookedAfter(d, j)
    ensures RequiredBefore(d, j) in See(d, i, seen) <==> RequiredBefore(d, j) in seen || i == j
  {
    CountsRequired(d, i);
    CountsRequired(d, j);
    if i < j {
      CountGrows(d, i, j);
    } else if j < i {
      CountGrows(d, j, i);
    }
  }

  lemma CoveredNext(d: Desc, i: nat, tags: set<nat>, seen: set<nat>)
    requires WellFormed(d) && i < |d.fields|
    ensures Covered(d, {d.fields[i].tag} + tags, seen) <==> Covered(d, tags, See(d, i, seen))
  {
    forall j: nat | LookedAfter(d, j)
      ensures d.fields[j].tag in {d.fields[i].tag} + tags || RequiredBefore(d, j) in seen
         <==> d.fields[j].tag in tags || RequiredBefore(d, j) in See(d, i, seen)
    {
      SeeOne(d, i, j, seen);
      assert d.fields[j].tag == d.fields[i].tag <==> i == j;
    }
  }

  lemma CoveredUnknown(d: Desc, tag: nat, tags: set<nat>, seen: set<nat>)
    requires IndexOf(d, tag, 0) == |d.fields|
    ensures Covered(d, {tag} + tags, seen) <==> Covered(d, tags, seen)
  {
    forall j: nat | LookedAfter(d, j)
      ensures d.fields[j].tag in {tag} + tags <==> d.fields[j].tag in tags
    {
      assert d.fields[j].tag != tag;
    }
  }

  ghost function Checked(d: Desc, w: Option<Walked>, seen: set<nat>): Option<seq<Slot>> {
    if w.Some? && Covered(d, w.value.tags, seen) then Some(w.value.slots) else None
  }

  lemma {:induction false} WalkDecides(d: Desc, b: Bytes, p: nat, limit: nat, slots: seq<Slot>, seen: set<nat>)
    requires p <= limit <= |b| && WellFormed(d) && ShapedSlots(d, slots)
    ensures DecodeFields(d, b, p, limit, slots, seen) == Checked(d, Walk(d, b, p, limit, slots), seen)
    decreases limit - p
  {
    FinishIfCovered(d, slots, seen);
    if p < limit {
      match DecodeTag(b, p, limit)
      case NoTag(eof) =>
      case Tag(tag, wireType, next) =>
        var i := IndexOf(d, tag, 0);
        var at := WalkField(d, b, next, limit, slots, tag, wireType);
        if at.Some? {
          var q, now := at.value.next, at.value.value;
          var rest := Walk(d, b, q, limit, now);
          if i < |d.fields| {
            WalkDecides(d, b, q, limit, now, See(d, i, seen));
            if rest.Some? {
              CoveredNext(d, i, rest.value.tags, seen);
            }
          } else {
            WalkDecides(d, b, q, limit, now, seen);
            if rest.Some? {
              CoveredUnknown(d, tag, rest.value.tags, seen);
            }
          }
        }
    }
  }

  /** Main result, for any bytes: a message decodes exactly when it can be read field by field and each required field
      that is looked after has its tag among those read. */
  lemma DecodesIffComplete(d: Desc, b: Bytes, p: nat, limit: nat, slots: seq<Slot>)
    requires p <= limit <= |b| && WellFormed(d) && ShapedSlots(d, slots)
    ensures var w := Walk(d, b, p, limit, slots);
            DecodeFields(d, b, p, limit, slots, {})
            == if w.Some? && Complete(d, w.value.tags) then Some(w.value.slots) else None
  {
    WalkDecides(d, b, p, limit, slots, {});
    var w := Walk(d, b, p, limit, slots);
    assert w.Some? ==> (Covered(d, w.value.tags, {}) <==> Complete(d, w.value.tags));
  }

  ghost predicate WalksComplete(d: Desc, b: Bytes, p: nat, limit: nat, slots: seq<Slot>)
    requires p <= limit <= |b| && WellFormed(d) && ShapedSlots(d, slots)
  {
    var w := Walk(d, b, p, limit, slots);
    w.Some? && Complete(d, w.value.tags)
  }

  /** The same inside a submessage. */
  lemma SubmessageIffComplete(d: Desc, b: Bytes, p: nat, limit: nat, old': seq<Slot>)
    requires p <= limit <= |b| && WellFormed(d) && ShapedSlots(d, old')
    ensures var v, window := DecodeValue(Submessage(d), b, p, limit, Message(old')), Window(b, p, limit);
            v.Some? <==> (window.Some? && WalksComplete(d, b, window.value.value, window.value.next, old'))
  {
    var window := Window(b, p, limit);
    if window.Some? {
      DecodesIffComplete(d, b, window.value.value, window.value.next, old');
    }
  }

  // ----- messages without a required field -----

  /** The bytes of a message from field `i` on, without those of field `gone`. */
  function EncodeWithout(d: Desc, slots: seq<Slot>, i: nat, gone: nat): Option<Bytes>
    requires ShapedSlots(d, slots) && i <= |slots|
    decreases |slots| - i
  {
    if i == |slots| then Some([])
    else if i == gone then EncodeWithout(d, slots, i + 1, gone)
    else
      assert ShapedSlot(d.fields[i], slots[i]);
      Join(EncodeSlot(d.fields[i], slots[i]), EncodeWithout(d, slots, i + 1, gone))
  }

  lemma SplitsWithout(d: Desc, slots: seq<Slot>, i: nat, gone: nat, b: Bytes, p: nat, limit: nat) returns (q: nat)
    requires ShapedSlots(d, slots) && i < |slots| && i != gone
    requires EncodeWithout(d, slots, i, gone).Some? && Spans(b, p, EncodeWithout(d, slots, i, gone).value, limit)
    ensures ShapedSlot(d.fields[i], slots[i])
    ensures EncodeSlot(d.fields[i], slots[i]).Some? && Spans(b, p, EncodeSlot(d.fields[i], slots[i]).value, q) && q <= limit
    ensures EncodeWithout(d, slots, i + 1, gone).Some? && Spans(b, q, EncodeWithout(d, slots, i + 1, gone).value, limit)
  {
    assert ShapedSlot(d.fields[i], slots[i]);
    var x := EncodeSlot(d.fields[i], slots[i]).value;
    q := p + |x|;
    SpanSplit(b, p, x, EncodeWithout(d, slots, i + 1, gone).value, limit);
  }

  /** Whatever is in memory, and whatever else has been seen. */
  lemma {:induction false} FailsFrom(d: Desc, slots: seq<Slot>, i: nat, gone: nat, b: Bytes, p: nat, limit: nat,
                                     cur: seq<Slot>, seen: set<nat>)
    requires WellFormed(d) && ShapedSlots(d, slots) && ExclusiveSlots(d, slots) && LookedAfter(d, gone)
    requires i <= |slots| && ShapedSlots(d, cur) && limit <= |b| < TWO_TO_THE_32
    requires EncodeWithout(d, slots, i, gone).Some? && Spans(b, p, EncodeWithout(d, slots, i, gone).value, limit)
    requires RequiredBefore(d, gone) !in seen
    ensures DecodeFields(d, b, p, limit, cur, seen) == None
    decreases |slots| - i
  {
    if i == |slots| {
      FinishIfCovered(d, cur, seen);
    } else if i == gone {
      FailsFrom(d, slots, i + 1, gone, b, p, limit, cur, seen);
    } else {
      var q := SplitsWithout(d, slots, i, gone, b, p, limit);
      assert ExclusiveSlot(d.fields[i], slots[i]);
      DecodesSlot(d, slots[i], i, b, p, q, limit, cur, seen);
      SeeOne(d, i, gone, seen);
      FailsFrom(d, slots, i + 1, gone, b, q, limit, Becomes(d, cur, i, slots[i]), See(d, i, seen));
    }
  }

  /** Whatever the message, its bytes without those of one required field that is looked after do not decode. */
  lemma MissingRequiredFails(d: Desc, slots: seq<Slot>, gone: nat)
    requires WellFormed(d) && ShapedSlots(d, slots) && ExclusiveSlots(d, slots) && LookedAfter(d, gone)
    requires EncodeWithout(d, slots, 0, gone).Some? && |EncodeWithout(d, slots, 0, gone).value| < TWO_TO_THE_32
    ensures Decode(d, EncodeWithout(d, slots, 0, gone).value) == None
  {
    var b := EncodeWithout(d, slots, 0, gone).value;
    assert b[0..|b|] == b;
    DefaultsShaped(d);
    FailsFrom(d, slots, 0, gone, b, 0, |b|, DefaultSlots(d, |d.fields|), {});
  }

  /** Nor does a message with such bytes in a submessage, wherever they stand, whatever comes before or after them. */
  lemma MissingInsideFails(d: Desc, i: nat, slots: seq<Slot>, gone: nat, b: Bytes, p: nat, q: nat, limit: nat,
                           cur: seq<Slot>, seen: set<nat>)
    requires WellFormed(d) && ShapedSlots(d, cur) && i < |d.fields| && d.fields[i].kind.Submessage?
    requires var inner := d.fields[i].kind.desc;
             WellFormed(inner) && ShapedSlots(inner, slots) && ExclusiveSlots(inner, slots) && LookedAfter(inner, gone)
             && EncodeWithout(inner, slots, 0, gone).Some?
             && Spans(b, p, EncodeTag(d.fields[i].tag, WT_STRING) + Prefixed(EncodeWithout(inner, slots, 0, gone).value), q)
    requires q <= limit <= |b| < TWO_TO_THE_32
    ensures DecodeFields(d, b, p, limit, cur, seen) == None
  {
    var f, inner := d.fields[i], d.fields[i].kind.desc;
    var x := EncodeWithout(inner, slots, 0, gone).value;
    assert WellFormedField(f) && ShapedSlot(f, cur[i]);
    var m := ReadsTag(f.tag, WT_STRING, Prefixed(x), b, p, q, limit);
    var start := ReadsPrefix(b, m, x, q, limit);
    TargetShaped(f, cur[i]);
    FailsFrom(inner, slots, 0, gone, b, start, q, Target(f, cur[i]).slots, {});
    assert DecodeValue(f.kind, b, m, limit, Target(f, cur[i])) == None;
    FieldFails(d, i, b, p, m, limit, cur, seen, WT_STRING);
  }
}
