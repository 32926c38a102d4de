/** What a message read into memory that holds another leaves there (nanopb, pb_decode_noinit). */
module PbMerges {
  import opened DbFormat
  import opened Coding
  import opened PbWire
  import opened PbMessages
  import opened PbNorms

  // ----- what is there already -----

  /** A value read into memory that holds another: submessages are merged, everything else is replaced. */
  ghost function MergeValue(kind: Kind, old': Value, v: Value): Value
    requires Shaped(kind, old') && Shaped(kind, v)
    decreases kind
  {
    if kind.Submessage? then Message(MergeSlots(kind.desc, old'.slots, v.slots, |v.slots|)) else v
  }

  ghost function MergeSlots(d: Desc, old': seq<Slot>, slots: seq<Slot>, n: nat): (s: seq<Slot>)
    requires ShapedSlots(d, old') && ShapedSlots(d, slots) && n <= |slots|
    ensures |s| == n
    decreases d, 1, n
  {
    if n == 0 then [] else MergeSlots(d, old', slots, n - 1) + [MergeSlot(d, old', slots, n - 1)]
  }

  /** Another alternative of the union, among the first `n` fields, has a value. */
  ghost predicate Given(d: Desc, slots: seq<Slot>, j: nat, n: nat)
    requires j < |d.fields| == |slots| && n <= |slots|
  {
    exists k :: 0 <= k < n && SameUnion(d, k, j) && slots[k] != Alt(None)
  }

  ghost function MergeSlot(d: Desc, old': seq<Slot>, slots: seq<Slot>, j: nat): Slot
    requires ShapedSlots(d, old') && ShapedSlots(d, slots) && j < |slots|
    decreases d, 0
  {
    assert ShapedSlot(d.fields[j], old'[j]) && ShapedSlot(d.fields[j], slots[j]);
    if d.fields[j].rule.Oneof? && slots[j] == Alt(None) && Given(d, slots, j, |slots|) then Alt(None)
    else MergeOne(d.fields[j], old'[j], slots[j])
  }

  /** What is not written leaves the slot as it was; items are added to an array. */
  ghost function MergeOne(f: Field, old': Slot, slot: Slot): Slot
    requires ShapedSlot(f, old') && ShapedSlot(f, slot)
    decreases f
  {
    match f.rule
    case Required => One(MergeValue(f.kind, old'.v, slot.v))
    case Singular => if IsZero(f.kind, slot.v) then old' else One(MergeValue(f.kind, old'.v, slot.v))
    case Optional => if slot.has then Maybe(true, MergeValue(f.kind, old'.v, slot.v)) else old'
    case Repeated(_) => Many(old'.items + NormItems(f.kind, slot.items, |slot.items|))
    case Oneof(_) => if slot.alt.Some? then Alt(Some(NormValue(f.kind, slot.alt.value))) else old'
  }

  lemma {:induction false} MergedAt(d: Desc, old': seq<Slot>, slots: seq<Slot>, n: nat, j: nat)
    requires ShapedSlots(d, old') && ShapedSlots(d, slots) && j < n <= |slots|
    ensures MergeSlots(d, old', slots, n)[j] == MergeSlot(d, old', slots, j)
  {
    if j < n - 1 {
      MergedAt(d, old', slots, n - 1, j);
    }
  }

  lemma {:induction false} MergeShaped(kind: Kind, old': Value, v: Value)
    requires WellFormedKind(kind) && Shaped(kind, old') && Shaped(kind, v)
    ensures Shaped(kind, MergeValue(kind, old', v))
    decreases kind
  {
    if kind.Submessage? {
      MergeSlotsShaped(kind.desc, old'.slots, v.slots);
    }
  }

  lemma {:induction false} MergeSlotsShaped(d: Desc, old': seq<Slot>, slots: seq<Slot>)
    requires WellFormed(d) && ShapedSlots(d, old') && ShapedSlots(d, slots)
    ensures ShapedSlots(d, MergeSlots(d, old', slots, |slots|))
    decreases d
  {
    forall j | 0 <= j < |slots|
      ensures ShapedSlot(d.fields[j], MergeSlots(d, old', slots, |slots|)[j])
    {
      assert WellFormedField(d.fields[j]) && ShapedSlot(d.fields[j], old'[j]) && ShapedSlot(d.fields[j], slots[j]);
      MergedAt(d, old', slots, |slots|, j);
      MergeOneShaped(d.fields[j], old'[j], slots[j]);
    }
  }

  lemma {:induction false} MergeOneShaped(f: Field, old': Slot, slot: Slot)
    requires WellFormedField(f) && ShapedSlot(f, old') && ShapedSlot(f, slot)
    ensures ShapedSlot(f, MergeOne(f, old', slot))
    decreases f
  {
    if f.rule.Repeated? || f.rule.Oneof? {
      NormSlotShaped(f, slot);
      assert f.rule.Repeated? ==> NormSlot(f, slot).items == NormItems(f.kind, slot.items, |slot.items|);
    } else {
      MergeShaped(f.kind, old'.v, slot.v);
    }
  }

  /** Every text that is written leaves room for its terminator, and every array has room for the items that come. */
  ghost predicate FitsInto(kind: Kind, old': Value, v: Value)
    requires Shaped(kind, old') && Shaped(kind, v)
    decreases kind
  {
    match kind
    case Text(size) => |v.b| < size
    case Submessage(d) => FitsSlots(d, old'.slots, v.slots, 0)
    case _ => true
  }

  ghost predicate FitsSlots(d: Desc, old': seq<Slot>, slots: seq<Slot>, i: nat)
    requires ShapedSlots(d, old') && ShapedSlots(d, slots)
    decreases d
  {
    forall j | i <= j < |slots| :: FitsOne(d.fields[j], old'[j], slots[j])
  }

  ghost predicate FitsOne(f: Field, old': Slot, slot: Slot)
    requires ShapedSlot(f, old') && ShapedSlot(f, slot)
    decreases f
  {
    match f.rule
    case Required => FitsInto(f.kind, old'.v, slot.v)
    case Optional => slot.has ==> FitsInto(f.kind, old'.v, slot.v)
    case Singular => IsZero(f.kind, slot.v) || FitsInto(f.kind, old'.v, slot.v)
    case Repeated(max) => slot.items == [] || (|old'.items| + |slot.items| <= max && FitsItems(f.kind, slot.items, 0))
    case Oneof(_) => slot.alt.Some? ==> Fits(f.kind, slot.alt.value)
  }

  // ----- into the defaults -----

  lemma {:induction false} MergeIntoDefault(kind: Kind, v: Value)
    requires WellFormedKind(kind) && Shaped(kind, v)
    ensures Shaped(kind, DefaultValue(kind, None)) && MergeValue(kind, DefaultValue(kind, None), v) == NormValue(kind, v)
    decreases kind
  {
    DefaultShaped(kind, None);
    if kind.Submessage? {
      MergeIntoDefaults(kind.desc, v.slots);
    }
  }

  lemma {:induction false} MergeIntoDefaults(d: Desc, slots: seq<Slot>)
    requires WellFormed(d) && ShapedSlots(d, slots)
    ensures ShapedSlots(d, DefaultSlots(d, |d.fields|))
    ensures MergeSlots(d, DefaultSlots(d, |d.fields|), slots, |slots|) == NormSlots(d, slots, |slots|)
    decreases d
  {
    DefaultsShaped(d);
    var old', n := DefaultSlots(d, |d.fields|), |slots|;
    forall j | 0 <= j < n
      ensures MergeSlots(d, old', slots, n)[j] == NormSlots(d, slots, n)[j]
    {
      MergedAt(d, old', slots, n, j);
      NormAt(d, slots, n, j);
      DefaultAt(d, n, j);
      assert WellFormedField(d.fields[j]) && ShapedSlot(d.fields[j], slots[j]) && ShapedSlot(d.fields[j], old'[j]);
      MergeOneIntoDefault(d.fields[j], slots[j]);
    }
  }

  lemma {:induction false} MergeOneIntoDefault(f: Field, slot: Slot)
    requires WellFormedField(f) && ShapedSlot(f, DefaultSlot(f)) && ShapedSlot(f, slot)
    ensures MergeOne(f, DefaultSlot(f), slot) == NormSlot(f, slot)
    decreases f
  {
    if f.rule.Repeated? {
      assert [] + NormItems(f.kind, slot.items, |slot.items|) == NormItems(f.kind, slot.items, |slot.items|);
    } else if !f.rule.Oneof? {
      MergeIntoDefault(f.kind, slot.v);
      if f.rule.Singular? && IsZero(f.kind, slot.v) {
        ZeroIsDefault(f.kind, slot.v);
      }
    }
  }

  lemma {:induction false} FitsIntoDefault(kind: Kind, v: Value)
    requires WellFormedKind(kind) && Shaped(kind, v) && EncodeValue(kind, v).Some?
    ensures Shaped(kind, DefaultValue(kind, None)) && (FitsInto(kind, DefaultValue(kind, None), v) <==> Fits(kind, v))
    decreases kind
  {
    DefaultShaped(kind, None);
    if kind.Submessage? {
      FitsIntoDefaults(kind.desc, v.slots);
    }
  }

  lemma {:induction false} EncodedSlot(d: Desc, slots: seq<Slot>, i: nat, j: nat)
    requires ShapedSlots(d, slots) && i <= j < |slots| && EncodeFields(d, slots, i).Some?
    ensures ShapedSlot(d.fields[j], slots[j]) && EncodeSlot(d.fields[j], slots[j]).Some?
    decreases j - i
  {
    assert ShapedSlot(d.fields[i], slots[i]);
    if i < j {
      EncodedSlot(d, slots, i + 1, j);
    }
  }

  lemma {:induction false} FitsIntoDefaults(d: Desc, slots: seq<Slot>)
    requires WellFormed(d) && ShapedSlots(d, slots) && EncodeFields(d, slots, 0).Some?
    ensures ShapedSlots(d, DefaultSlots(d, |d.fields|))
    ensures FitsSlots(d, DefaultSlots(d, |d.fields|), slots, 0) <==> FitsFrom(d, slots, 0)
    decreases d
  {
    DefaultsShaped(d);
    var old' := DefaultSlots(d, |d.fields|);
    forall j | 0 <= j < |slots|
      ensures FitsOne(d.fields[j], old'[j], slots[j]) <==> FitsSlot(d.fields[j], slots[j])
    {
      DefaultAt(d, |d.fields|, j);
      EncodedSlot(d, slots, 0, j);
      assert WellFormedField(d.fields[j]) && ShapedSlot(d.fields[j], slots[j]) && ShapedSlot(d.fields[j], old'[j]);
      FitsOneIntoDefault(d.fields[j], slots[j]);
    }
  }

  lemma {:induction false} FitsOneIntoDefault(f: Field, slot: Slot)
    requires WellFormedField(f) && ShapedSlot(f, DefaultSlot(f)) && ShapedSlot(f, slot) && EncodeSlot(f, slot).Some?
    ensures FitsOne(f, DefaultSlot(f), slot) <==> FitsSlot(f, slot)
    decreases f
  {
    if f.rule.Required? || (f.rule.Optional? && slot.has) || (f.rule.Singular? && !IsZero(f.kind, slot.v)) {
      FitsIntoDefault(f.kind, slot.v);
    }
  }
}
