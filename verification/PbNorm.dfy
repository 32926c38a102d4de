/** What a message comes back as, and when it does (nanopb). */
module PbNorms {
  import opened DbFormat
  import opened Coding
  import opened PbWire
  import opened PbMessages

  // ----- what comes back -----

  /** A message with every unset field at its default. */
  function NormSlots(d: Desc, slots: seq<Slot>, n: nat): (s: seq<Slot>)
    requires n <= |slots| == |d.fields| && ShapedSlots(d, slots)
    ensures |s| == n
    decreases d, n
  {
    if n == 0 then [] else
    assert ShapedSlot(d.fields[n - 1], slots[n - 1]);
    NormSlots(d, slots, n - 1) + [NormSlot(d.fields[n - 1], slots[n - 1])]
  }

  function NormSlot(f: Field, slot: Slot): Slot
    requires ShapedSlot(f, slot)
    decreases f
  {
    match f.rule
    case Optional => if slot.has then Maybe(true, NormValue(f.kind, slot.v)) else DefaultSlot(f)
    case Repeated(_) => Many(NormItems(f.kind, slot.items, |slot.items|))
    case Oneof(_) => if slot.alt.Some? then Alt(Some(NormValue(f.kind, slot.alt.value))) else slot
    case _ => One(NormValue(f.kind, slot.v))
  }

  function NormItems(kind: Kind, items: seq<Value>, n: nat): (s: seq<Value>)
    requires n <= |items| && forall k | 0 <= k < |items| :: Shaped(kind, items[k])
    ensures |s| == n
    decreases kind, 1, n
  {
    if n == 0 then [] else NormItems(kind, items, n - 1) + [NormValue(kind, items[n - 1])]
  }

  function NormValue(kind: Kind, v: Value): Value
    requires Shaped(kind, v)
    decreases kind, 0
  {
    if kind.Submessage? then
      assert ShapedSlots(kind.desc, v.slots);
      Message(NormSlots(kind.desc, v.slots, |v.slots|))
    else v
  }

  lemma {:induction false} NormAt(d: Desc, slots: seq<Slot>, n: nat, i: nat)
    requires i < n <= |slots| == |d.fields| && ShapedSlots(d, slots)
    ensures NormSlots(d, slots, n)[i] == NormSlot(d.fields[i], slots[i])
  {
    if i < n - 1 {
      NormAt(d, slots, n - 1, i);
    }
  }

  lemma {:induction false} NormShaped(kind: Kind, v: Value)
    requires Shaped(kind, v) && WellFormedKind(kind)
    ensures Shaped(kind, NormValue(kind, v))
    decreases kind
  {
    if kind.Submessage? {
      NormSlotsShaped(kind.desc, v.slots);
    }
  }

  lemma {:induction false} NormSlotsShaped(d: Desc, slots: seq<Slot>)
    requires ShapedSlots(d, slots) && WellFormed(d)
    ensures ShapedSlots(d, NormSlots(d, slots, |slots|))
    decreases d
  {
    forall i | 0 <= i < |slots|
      ensures ShapedSlot(d.fields[i], NormSlots(d, slots, |slots|)[i])
    {
      NormAt(d, slots, |slots|, i);
      NormSlotShaped(d.fields[i], slots[i]);
    }
  }

  lemma {:induction false} NormSlotShaped(f: Field, slot: Slot)
    requires ShapedSlot(f, slot) && WellFormedField(f)
    ensures ShapedSlot(f, NormSlot(f, slot))
    decreases f
  {
    match f.rule
    case Optional =>
      NormShaped(f.kind, slot.v);
      DefaultShaped(f.kind, f.dflt);
    case Repeated(_) =>
      forall k | 0 <= k < |slot.items|
        ensures Shaped(f.kind, NormItems(f.kind, slot.items, |slot.items|)[k])
      {
        NormItemAt(f.kind, slot.items, |slot.items|, k);
        NormShaped(f.kind, slot.items[k]);
      }
    case Oneof(_) =>
      if slot.alt.Some? {
        NormShaped(f.kind, slot.alt.value);
      }
    case _ =>
      NormShaped(f.kind, slot.v);
  }

  lemma {:induction false} NormItemAt(kind: Kind, items: seq<Value>, n: nat, i: nat)
    requires i < n <= |items| && forall k | 0 <= k < |items| :: Shaped(kind, items[k])
    ensures NormItems(kind, items, n)[i] == NormValue(kind, items[i])
  {
    if i < n - 1 {
      NormItemAt(kind, items, n - 1, i);
    }
  }

  /** A value the encoder leaves out as zero is, up to unset fields, the default. */
  lemma {:induction false} ZeroIsDefault(kind: Kind, v: Value)
    requires WellFormedKind(kind) && Shaped(kind, v) && IsZero(kind, v)
    ensures NormValue(kind, v) == DefaultValue(kind, None)
    decreases kind
  {
    match kind
    case Submessage(d) =>
      var n := |d.fields|;
      assert ShapedSlots(d, v.slots);
      forall i | 0 <= i < n
        ensures NormSlots(d, v.slots, n)[i] == DefaultSlots(d, n)[i]
      {
        NormAt(d, v.slots, n, i);
        DefaultAt(d, n, i);
        var f := d.fields[i];
        assert WellFormedField(f) && ZeroSlot(f, v.slots[i]);
        if f.rule.Singular? {
          ZeroIsDefault(f.kind, v.slots[i].v);
        }
      }
      assert NormSlots(d, v.slots, n) == DefaultSlots(d, n);
    case FixedBytes(n) =>
      assert v.b == Zeros(n);
    case _ =>
  }

  // ----- messages that survive -----

  /** No union has two values: its alternatives share their memory, and one number says which of them is there. */
  ghost predicate Exclusive(kind: Kind, v: Value)
    requires Shaped(kind, v)
    decreases kind
  {
    kind.Submessage? ==> ExclusiveSlots(kind.desc, v.slots)
  }

  ghost predicate ExclusiveSlots(d: Desc, slots: seq<Slot>)
    requires ShapedSlots(d, slots)
    decreases d
  {
    && (forall i | 0 <= i < |slots| :: ExclusiveSlot(d.fields[i], slots[i]))
    && forall i, j | 0 <= i < j < |slots| && SameUnion(d, i, j) :: slots[i] == Alt(None) || slots[j] == Alt(None)
  }

  predicate SameUnion(d: Desc, i: nat, j: nat)
    requires i < |d.fields| && j < |d.fields|
  {
    d.fields[i].rule.Oneof? && d.fields[i].rule == d.fields[j].rule
  }

  ghost predicate ExclusiveSlot(f: Field, slot: Slot)
    requires ShapedSlot(f, slot)
    decreases f
  {
    match f.rule
    case Repeated(_) => forall k | 0 <= k < |slot.items| :: Exclusive(f.kind, slot.items[k])
    case Oneof(_) => slot.alt.Some? ==> Exclusive(f.kind, slot.alt.value)
    case _ => Exclusive(f.kind, slot.v)
  }

  /** Every text that is written leaves room for its terminator. */
  ghost predicate Fits(kind: Kind, v: Value)
    requires Shaped(kind, v)
    decreases kind, 0
  {
    match kind
    case Text(size) => |v.b| < size
    case Submessage(d) => FitsFrom(d, v.slots, 0)
    case _ => true
  }

  ghost predicate FitsFrom(d: Desc, slots: seq<Slot>, i: nat)
    requires ShapedSlots(d, slots)
    decreases d
  {
    forall j | i <= j < |slots| :: FitsSlot(d.fields[j], slots[j])
  }

  ghost predicate FitsItems(kind: Kind, items: seq<Value>, k: nat)
    requires forall j | 0 <= j < |items| :: Shaped(kind, items[j])
    decreases kind, 1
  {
    forall j | k <= j < |items| :: Fits(kind, items[j])
  }

  ghost predicate FitsSlot(f: Field, slot: Slot)
    requires ShapedSlot(f, slot)
    decreases f
  {
    match f.rule
    case Required => Fits(f.kind, slot.v)
    case Optional => slot.has ==> Fits(f.kind, slot.v)
    case Singular => IsZero(f.kind, slot.v) || Fits(f.kind, slot.v)
    case Repeated(_) => FitsItems(f.kind, slot.items, 0)
    case Oneof(_) => slot.alt.Some? ==> Fits(f.kind, slot.alt.value)
  }

  // ----- the unset fields do not matter -----

  lemma {:induction false} NormNumbers(s: Scalar, items: seq<Value>, n: nat)
    requires n <= |items| && forall k | 0 <= k < |items| :: Shaped(Number(s), items[k])
    ensures NormItems(Number(s), items, n) == items[..n]
  {
    if n > 0 {
      NormNumbers(s, items, n - 1);
    }
  }

  lemma {:induction false} NormZero(kind: Kind, v: Value)
    requires WellFormedKind(kind) && Shaped(kind, v)
    ensures Shaped(kind, NormValue(kind, v)) && IsZero(kind, NormValue(kind, v)) == IsZero(kind, v)
    decreases kind
  {
    NormShaped(kind, v);
    if kind.Submessage? {
      var d, n := kind.desc, |v.slots|;
      assert ShapedSlots(d, v.slots);
      NormSlotsShaped(d, v.slots);
      forall i | 0 <= i < n
        ensures ZeroSlot(d.fields[i], NormSlots(d, v.slots, n)[i]) == ZeroSlot(d.fields[i], v.slots[i])
      {
        NormAt(d, v.slots, n, i);
        assert WellFormedField(d.fields[i]) && ShapedSlot(d.fields[i], v.slots[i]);
        if d.fields[i].rule.Singular? {
          NormZero(d.fields[i].kind, v.slots[i].v);
        }
      }
    }
  }

  lemma {:induction false} SameValue(kind: Kind, v: Value)
    requires WellFormedKind(kind) && Shaped(kind, v)
    ensures Shaped(kind, NormValue(kind, v)) && EncodeValue(kind, NormValue(kind, v)) == EncodeValue(kind, v)
    decreases kind
  {
    NormShaped(kind, v);
    if kind.Submessage? {
      NormSlotsShaped(kind.desc, v.slots);
      SameFields(kind.desc, v.slots, 0);
    }
  }

  lemma {:induction false} SameItems(f: Field, items: seq<Value>, k: nat)
    requires WellFormedKind(f.kind) && k <= |items| && forall j | 0 <= j < |items| :: Shaped(f.kind, items[j])
    ensures forall j | 0 <= j < |items| :: Shaped(f.kind, NormItems(f.kind, items, |items|)[j])
    ensures EncodeItems(f, NormItems(f.kind, items, |items|), k) == EncodeItems(f, items, k)
    decreases f, 0, |items| - k
  {
    forall j | 0 <= j < |items|
      ensures Shaped(f.kind, NormItems(f.kind, items, |items|)[j])
    {
      NormItemAt(f.kind, items, |items|, j);
      NormShaped(f.kind, items[j]);
    }
    if k < |items| {
      NormItemAt(f.kind, items, |items|, k);
      SameValue(f.kind, items[k]);
      SameItems(f, items, k + 1);
    }
  }

  lemma {:induction false} SameSlot(f: Field, slot: Slot)
    requires WellFormedField(f) && ShapedSlot(f, slot)
    ensures ShapedSlot(f, NormSlot(f, slot)) && EncodeSlot(f, NormSlot(f, slot)) == EncodeSlot(f, slot)
    decreases f, 1
  {
    NormSlotShaped(f, slot);
    match f.rule
    case Repeated(_) =>
      if f.kind.Number? {
        NormNumbers(f.kind.s, slot.items, |slot.items|);
        assert slot.items[..|slot.items|] == slot.items;
      } else {
        SameItems(f, slot.items, 0);
      }
    case Oneof(_) =>
      if slot.alt.Some? {
        SameValue(f.kind, slot.alt.value);
      }
    case _ =>
      NormZero(f.kind, slot.v);
      SameValue(f.kind, slot.v);
  }

  /** The decoded message encodes to the same bytes again. */
  lemma {:induction false} SameFields(d: Desc, slots: seq<Slot>, i: nat)
    requires WellFormed(d) && ShapedSlots(d, slots) && i <= |slots|
    ensures ShapedSlots(d, NormSlots(d, slots, |slots|))
    ensures EncodeFields(d, NormSlots(d, slots, |slots|), i) == EncodeFields(d, slots, i)
    decreases d, |slots| - i
  {
    NormSlotsShaped(d, slots);
    if i < |slots| {
      NormAt(d, slots, |slots|, i);
      assert WellFormedField(d.fields[i]) && ShapedSlot(d.fields[i], slots[i]);
      SameSlot(d.fields[i], slots[i]);
      SameFields(d, slots, i + 1);
    }
  }
}
