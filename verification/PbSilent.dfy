/** Which messages take no bytes at all (nanopb, pb_encode.c): in one without required fields, those that are up to unset
    fields the default message. */
module PbSilents {
  import opened DbFormat
  import opened Coding
  import opened PbWire
  import opened PbMessages
  import opened PbNorms

  /** Nothing in it is always written: no required field, no bytes of fixed length in a singular field. */
  ghost predicate Quiet(d: Desc)
    decreases d
  {
    forall i | 0 <= i < |d.fields| :: QuietField(d.fields[i])
  }

  ghost predicate QuietField(f: Field)
    decreases f
  {
    !f.rule.Required? && (f.rule.Singular? ==> QuietKind(f.kind))
  }

  ghost predicate QuietKind(kind: Kind)
    decreases kind
  {
    match kind
    case FixedBytes(n) => n == 0
    case Submessage(d) => Quiet(d)
    case _ => true
  }

  lemma {:induction false} ZeroIff(kind: Kind, v: Value)
    requires WellFormedKind(kind) && QuietKind(kind) && Shaped(kind, v)
    ensures IsZero(kind, v) <==> NormValue(kind, v) == DefaultValue(kind, None)
    decreases kind, 0
  {
    if IsZero(kind, v) {
      ZeroIsDefault(kind, v);
    } else if kind.Submessage? && NormValue(kind, v) == DefaultValue(kind, None) {
      var d := kind.desc;
      assert ShapedSlots(d, v.slots);
      forall i | 0 <= i < |v.slots|
        ensures ZeroSlot(d.fields[i], v.slots[i])
      {
        NormAt(d, v.slots, |v.slots|, i);
        DefaultAt(d, |v.slots|, i);
        assert ShapedSlot(d.fields[i], v.slots[i]) && QuietField(d.fields[i]) && WellFormedField(d.fields[i]);
        ZeroSlotIff(d.fields[i], v.slots[i]);
      }
    }
  }

  lemma {:induction false} ZeroSlotIff(f: Field, slot: Slot)
    requires WellFormedField(f) && QuietField(f) && ShapedSlot(f, slot)
    ensures ZeroSlot(f, slot) <==> NormSlot(f, slot) == DefaultSlot(f)
    decreases f, 1
  {
    if f.rule.Singular? {
      ZeroIff(f.kind, slot.v);
    } else if f.rule.Repeated? {
      assert NormSlot(f, slot) == DefaultSlot(f) <==> |NormItems(f.kind, slot.items, |slot.items|)| == 0;
    }
  }

  lemma SilentSlot(f: Field, slot: Slot)
    requires WellFormedField(f) && QuietField(f) && ShapedSlot(f, slot)
    ensures EncodeSlot(f, slot) == Some([]) <==> NormSlot(f, slot) == DefaultSlot(f)
  {
    ZeroSlotIff(f, slot);
    assert |EncodeTag(f.tag, WireTypeOf(f.kind))| > 0 && |EncodeTag(f.tag, WT_STRING)| > 0;
    if f.rule.Repeated? && slot.items != [] {
      assert !f.kind.Number? && |slot.items| <= f.rule.max ==>
          EncodeArray(f, slot.items, f.rule.max) == Join(EncodeTagged(f, slot.items[0]), EncodeItems(f, slot.items, 1));
    }
  }

  lemma {:induction false} SilentFrom(d: Desc, slots: seq<Slot>, i: nat)
    requires WellFormed(d) && Quiet(d) && ShapedSlots(d, slots) && i <= |slots|
    ensures EncodeFields(d, slots, i) == Some([])
       <==> forall j | i <= j < |slots| :: NormSlots(d, slots, |slots|)[j] == DefaultSlot(d.fields[j])
    decreases |slots| - i
  {
    if i < |slots| {
      assert ShapedSlot(d.fields[i], slots[i]) && QuietField(d.fields[i]) && WellFormedField(d.fields[i]);
      SilentSlot(d.fields[i], slots[i]);
      NormAt(d, slots, |slots|, i);
      SilentFrom(d, slots, i + 1);
    }
  }

  /** Main result: a message without required fields takes no bytes exactly when it reads back as the default one. */
  lemma SilentIffDefault(d: Desc, slots: seq<Slot>)
    requires WellFormed(d) && Quiet(d) && ShapedSlots(d, slots)
    ensures EncodeFields(d, slots, 0) == Some([]) <==> NormSlots(d, slots, |slots|) == DefaultSlots(d, |d.fields|)
  {
    SilentFrom(d, slots, 0);
    forall j | 0 <= j < |d.fields|
      ensures DefaultSlots(d, |d.fields|)[j] == DefaultSlot(d.fields[j])
    {
      DefaultAt(d, |d.fields|, j);
    }
    assert (forall j | 0 <= j < |slots| :: NormSlots(d, slots, |slots|)[j] == DefaultSlots(d, |d.fields|)[j])
      ==> NormSlots(d, slots, |slots|) == DefaultSlots(d, |d.fields|);
  }
}
