/** Which messages survive encoding and decoding, exactly (pb_encode.c, pb_decode.c). */
module MessageLimits {
  import opened InternalKeys
  import opened LogFormat
  import opened Coding
  import opened MessageSchemas
  import opened WireFormat
  import opened MessageEncoder
  import opened MessageDecoder
  import opened MessageRoundTrip

  // ---------- the plain encoding is one of the padded ones ----------

  lemma ValueIsPadded(k: Kind, v: Value)
    requires TypedValue(k, v) && Restorable(k, v)
    ensures Encoded(k, v).Ok? && PaddedValue(k, v, Encoded(k, v).value)
    decreases k, 1
  {
    if k.Message? {
      var s, slots := k.schema, v.slots;
      MessageIsPadded(s, slots);
      var body := EncodedFields(s, slots, |slots|).value;
      assert Encoded(k, v) == Ok(Varint(|body|) + body);
    }
  }

  lemma MessageIsPadded(s: Schema, slots: seq<Slot>)
    requires TypedSlots(s, slots) && RestorableFields(s, slots)
    ensures EncodedFields(s, slots, |slots|).Ok? && PaddedMessage(s, slots, EncodedFields(s, slots, |slots|).value)
    decreases s, |s.fields| + 1
  {
    var records := FieldsArePadded(s, slots, |slots|);
  }

  lemma FieldsArePadded(s: Schema, slots: seq<Slot>, n: nat) returns (records: seq<seq<Byte>>)
    requires TypedSlots(s, slots) && n <= |slots|
    requires forall i :: 0 <= i < n ==> RestorableSlot(s.fields[i], slots[i])
    ensures PaddedFields(s, slots, n, records) && EncodedFields(s, slots, n) == Ok(Joined(records))
    decreases s, n
  {
    hide TypedSlot, RestorableSlot, EncodedField, PaddedSlot, UnionsApart;
    if n == 0 {
      return [];
    }
    var a := FieldsArePadded(s, slots, n - 1);
    var b := SlotIsPadded(s, s.fields[n - 1], slots[n - 1]);
    records := a + b + [];
    assert records == a + b;
    JoinedConcat(a, b);
  }

  lemma SlotIsPadded(s: Schema, f: Field, slot: Slot) returns (b: seq<seq<Byte>>)
    requires TypedSlot(f, slot) && RestorableSlot(f, slot)
    ensures PaddedSlot(s, f, slot, b) && EncodedField(f, slot) == Ok(Joined(b))
    decreases f, 4
  {
    hide TypedValue, ClearedValue, Restorable, RestorableItems;
    if f.rule.Repeated? || f.rule.FixedCount? {
      b := ArrayIsPadded(s, f, slot.items, MaxItems(f));
    } else if slot.Absent? || (f.rule.Singular? && ClearedValue(f.kind, slot.value)) {
      b := [];
    } else {
      b := TaggedIsPadded(f, slot.value);
    }
  }

  lemma TaggedIsPadded(f: Field, v: Value) returns (b: seq<seq<Byte>>)
    requires TypedValue(f.kind, v) && Restorable(f.kind, v)
    ensures |b| == 1 && PaddedTagged(f, v, b[0]) && Tagged(f, v) == Ok(b[0]) && Joined(b) == b[0]
    decreases f, 0
  {
    hide TypedValue, Restorable, Encoded, PaddedValue;
    ValueIsPadded(f.kind, v);
    var bytes := Encoded(f.kind, v).value;
    var record := Key(f.tag, WireType(f.kind)) + bytes;
    b := [record];
    assert PaddedTagged(f, v, record);
    JoinedOne(record);
  }

  lemma JoinedOne(record: seq<Byte>)
    ensures Joined([record]) == record
  {
    assert [record][..0] == [];
    assert [] + record == record;
  }

  lemma ArrayIsPadded(s: Schema, f: Field, items: seq<Value>, max: nat) returns (b: seq<seq<Byte>>)
    requires (forall i :: 0 <= i < |items| ==> TypedValue(f.kind, items[i])) && |items| <= max
    requires RestorableItems(f.kind, items)
    ensures PaddedArray(s, f, items, b) && EncodedArray(f, items, max) == Ok(Joined(b))
    decreases f, 3
  {
    hide TypedValue, Restorable, Encoded;
    if items == [] {
      b := [];
    } else if Packable(f.kind) {
      var run := Packed(f.kind, items, |items|);
      var record := Key(f.tag, 2) + (Varint(|run.value|) + run.value);
      b := [record];
      JoinedOne(record);
    } else {
      b := ItemsArePadded(s, f, items, |items|);
    }
  }

  lemma ItemsArePadded(s: Schema, f: Field, items: seq<Value>, n: nat) returns (b: seq<seq<Byte>>)
    requires (forall i :: 0 <= i < |items| ==> TypedValue(f.kind, items[i])) && n <= |items|
    requires forall i :: 0 <= i < n ==> Restorable(f.kind, items[i])
    ensures PaddedItems(s, f, items, n, b) && Unpacked(f, items, n) == Ok(Joined(b))
    decreases f, 2, n
  {
    hide TypedValue, Restorable, Tagged, PaddedTagged;
    if n == 0 {
      return [];
    }
    var a := ItemsArePadded(s, f, items, n - 1);
    var r := TaggedIsPadded(f, items[n - 1]);
    b := a + [r[0]] + [];
    assert AllUnknown(s, []);
    assert b == a + r;
    JoinedConcat(a, r);
  }

  // ---------- valid messages ----------

  /** What fits the struct can be given to the encoder. */
  lemma ValidIsTyped(k: Kind, v: Value)
    requires ValidValue(k, v)
    ensures TypedValue(k, v)
    decreases k, 1
  {
    if k.Message? {
      SlotsAreTyped(k.schema, v.slots);
    }
  }

  lemma SlotsAreTyped(s: Schema, slots: seq<Slot>)
    requires ValidSlots(s, slots)
    ensures TypedSlots(s, slots)
    decreases s
  {
    forall i | 0 <= i < |slots| ensures TypedSlot(s.fields[i], slots[i]) {
      SlotIsTyped(s.fields[i], slots[i]);
    }
  }

  lemma SlotIsTyped(f: Field, slot: Slot)
    requires ValidSlot(f, slot)
    ensures TypedSlot(f, slot)
    decreases f
  {
    hide ValidValue, TypedValue;
    if slot.One? || slot.Present? {
      ValidIsTyped(f.kind, slot.value);
    } else if slot.Many? {
      forall i | 0 <= i < |slot.items| ensures TypedValue(f.kind, slot.items[i]) {
        ValidIsTyped(f.kind, slot.items[i]);
      }
    }
  }

  /** What fits the struct is encoded, whatever its size. */
  lemma ValidEncodes(k: Kind, v: Value)
    requires ValidValue(k, v)
    ensures TypedValue(k, v) && Encoded(k, v).Ok?
    decreases k, 1
  {
    ValidIsTyped(k, v);
    if k.Message? {
      FieldsEncode(k.schema, v.slots, |v.slots|);
    }
  }

  lemma FieldsEncode(s: Schema, slots: seq<Slot>, n: nat)
    requires ValidSlots(s, slots) && n <= |slots|
    ensures TypedSlots(s, slots) && EncodedFields(s, slots, n).Ok?
    decreases s, n
  {
    SlotsAreTyped(s, slots);
    if n > 0 {
      FieldsEncode(s, slots, n - 1);
      SlotEncodes(s.fields[n - 1], slots[n - 1]);
    }
  }

  lemma SlotEncodes(f: Field, slot: Slot)
    requires ValidSlot(f, slot)
    ensures TypedSlot(f, slot) && EncodedField(f, slot).Ok?
    decreases f, 1
  {
    hide ValidValue, TypedValue, ClearedValue;
    SlotIsTyped(f, slot);
    if slot.One? || slot.Present? {
      ValidEncodes(f.kind, slot.value);
    } else if slot.Many? {
      ItemsEncode(f, slot.items, |slot.items|);
    }
  }

  lemma ItemsEncode(f: Field, items: seq<Value>, n: nat)
    requires (forall i :: 0 <= i < |items| ==> ValidValue(f.kind, items[i])) && n <= |items|
    ensures forall i :: 0 <= i < |items| ==> TypedValue(f.kind, items[i])
    ensures Packed(f.kind, items, n).Ok? && Unpacked(f, items, n).Ok?
    decreases f, 0, n
  {
    hide ValidValue, TypedValue, Encoded;
    forall i | 0 <= i < |items| ensures TypedValue(f.kind, items[i]) {
      ValidIsTyped(f.kind, items[i]);
    }
    if n > 0 {
      ItemsEncode(f, items, n - 1);
      ValidEncodes(f.kind, items[n - 1]);
    }
  }

  /** A valid value whose bytes number less than four billion is restored. */
  lemma SmallIsRestorable(k: Kind, v: Value)
    requires ValidValue(k, v) && TypedValue(k, v) && Short(Encoded(k, v))
    ensures Restorable(k, v)
    decreases k, 1
  {
    if k.Message? {
      SmallFields(k.schema, v.slots, |v.slots|);
    }
  }

  lemma SmallFields(s: Schema, slots: seq<Slot>, n: nat)
    requires ValidSlots(s, slots) && TypedSlots(s, slots) && n <= |slots| && Short(EncodedFields(s, slots, n))
    ensures forall i :: 0 <= i < n ==> RestorableSlot(s.fields[i], slots[i])
    decreases s, n
  {
    hide ValidSlot, TypedSlot, RestorableSlot, EncodedField, UnionsApart;
    if n > 0 {
      SmallFields(s, slots, n - 1);
      SmallSlot(s.fields[n - 1], slots[n - 1]);
    }
  }

  lemma SmallSlot(f: Field, slot: Slot)
    requires ValidSlot(f, slot) && TypedSlot(f, slot) && Short(EncodedField(f, slot))
    ensures RestorableSlot(f, slot)
    decreases f, 1
  {
    hide ValidValue, TypedValue, ClearedValue, Restorable, RestorableItems;
    if slot.Many? {
      SmallArray(f, slot.items, MaxItems(f));
    } else if !slot.Absent? && !(f.rule.Singular? && ClearedValue(f.kind, slot.value)) {
      SmallIsRestorable(f.kind, slot.value);
    }
  }

  lemma SmallArray(f: Field, items: seq<Value>, max: nat)
    requires (forall i :: 0 <= i < |items| ==> ValidValue(f.kind, items[i])) && |items| <= max
    requires forall i :: 0 <= i < |items| ==> TypedValue(f.kind, items[i])
    requires Short(EncodedArray(f, items, max))
    ensures RestorableItems(f.kind, items)
    decreases f, 0, |items| + 1
  {
    hide ValidValue, TypedValue, Encoded, Restorable;
    if items != [] && !Packable(f.kind) {
      SmallItems(f, items, |items|);
    }
  }

  lemma SmallItems(f: Field, items: seq<Value>, n: nat)
    requires (forall i :: 0 <= i < |items| ==> ValidValue(f.kind, items[i])) && n <= |items|
    requires forall i :: 0 <= i < |items| ==> TypedValue(f.kind, items[i])
    requires Short(Unpacked(f, items, n))
    ensures forall i :: 0 <= i < n ==> Restorable(f.kind, items[i])
    decreases f, 0, n
  {
    hide ValidValue, TypedValue, Encoded, Restorable;
    if n > 0 {
      SmallItems(f, items, n - 1);
      SmallIsRestorable(f.kind, items[n - 1]);
    }
  }

  /** Every message that fits its struct is encoded, and read back if it is smaller than four gigabytes. */
  lemma RoundTrip(s: Schema, slots: seq<Slot>)
    requires WfSchema(s) && ValidSlots(s, slots)
    ensures TypedSlots(s, slots) && EncodedFields(s, slots, |slots|).Ok?
    ensures var bytes := EncodedFields(s, slots, |slots|).value;
            |bytes| < TWO_32 ==> DecodedFresh(s, bytes) == Ok(slots)
  {
    hide WfSchema, ValidSlot, DecodedFresh, EncodedFields, PaddedMessage;
    assert |slots| == |s.fields|;
    FieldsEncode(s, slots, |slots|);
    if Short(EncodedFields(s, slots, |slots|)) {
      SmallFields(s, slots, |slots|);
      MessageIsPadded(s, slots);
      MessageDecodes(s, slots, EncodedFields(s, slots, |slots|).value);
    }
  }

  // ---------- messages cut off between fields ----------

  lemma {:induction false} SeenIs(s: Schema, n: nat, k: nat)
    requires n <= |s.fields|
    ensures k in SeenBefore(s, n) <==> k < RequiredBefore(s, n) && k < MAX_REQUIRED
  {
    if n > 0 {
      SeenIs(s, n - 1, k);
    }
  }

  lemma {:induction false} FewerRequired(s: Schema, n: nat, m: nat)
    requires n <= m <= |s.fields|
    ensures RequiredBefore(s, n) <= RequiredBefore(s, m)
    decreases m
  {
    if n < m {
      FewerRequired(s, n, m - 1);
    }
  }

  /** Encoding may stop after any field. What was written is accepted, with defaults for the rest,
      exactly when it covers the first sixty-four required fields: a required field beyond those is not
      missed. */
  lemma CutMessageIsAcceptedIff(s: Schema, slots: seq<Slot>, n: nat)
    requires WfSchema(s) && TypedSlots(s, slots) && RestorableFields(s, slots) && n <= |slots|
    ensures EncodedFields(s, slots, n).Ok?
    ensures DecodedFresh(s, EncodedFields(s, slots, n).value) ==
            if RequiredBefore(s, n) >= TrackedRequired(s) then Ok(slots[..n] + DefaultSlots(s)[n..])
            else Err("missing required field")
  {
    hide WfSchema, TypedSlot, RestorableSlot, AfterFields, Walks, DecodedTurn, PaddedFields, Joined, EncodedField, UnionsApart;
    var records := FieldsArePadded(s, slots, n);
    FieldsWalk(s, slots, n, records);
    LoopWalks(s, AfterFields(s, slots, 0), records, AfterFields(s, slots, n), []);
    assert Joined(records) + [] == EncodedFields(s, slots, n).value;
    CutEnds(s, slots, n);
    Ends(s, slots);
  }

  lemma CutEnds(s: Schema, slots: seq<Slot>, n: nat)
    requires TypedSlots(s, slots) && n <= |slots|
    ensures var m := AfterFields(s, slots, n);
            && DecodedLoop(s, m, []) == Ok(m)
            && Finished(s, Ok(m)) == if RequiredBefore(s, n) >= TrackedRequired(s) then Ok(slots[..n] + DefaultSlots(s)[n..])
                                     else Err("missing required field")
  {
    hide TypedSlot, DefaultSlots, SeenBefore, RequiredBefore, UnionsApart;
    FewerRequired(s, n, |s.fields|);
    EarlierArraysDone(s, slots, n);
    forall k: nat ensures k in SeenBefore(s, n) <==> k < RequiredBefore(s, n) && k < MAX_REQUIRED {
      SeenIs(s, n, k);
    }
    if RequiredBefore(s, n) < TrackedRequired(s) {
      assert RequiredBefore(s, n) !in AfterFields(s, slots, n).seen;
    }
  }

  // ---------- what is not restored is refused ----------

  const TWO_63: nat := 0x8000_0000_0000_0000

  function Room(bitpos: nat): nat {
    if bitpos == 35 then 0x1000_0000 else if bitpos == 42 then 0x20_0000 else if bitpos == 49 then 0x4000 else 0x80
  }

  /** Bits from the thirty-second up that are not a sign. */
  lemma {:induction false} HighBitsRefused(v: nat, rest: seq<Byte>, bitpos: nat, result: nat)
    requires bitpos == 35 || bitpos == 42 || bitpos == 49 || bitpos == 56
    requires 0 < v < Room(bitpos) && result < TWO_32
    ensures Varint32From(Varint(v) + rest, bitpos, result).Err?
    decreases v
  {
    if v >= 128 {
      VarintContinues(v, rest);
      assert ([v % 128 + 128] + (Varint(v / 128) + rest))[1..] == Varint(v / 128) + rest;
      HighBitsRefused(v / 128, rest, bitpos + 7, result);
    }
  }

  lemma FifthGroupRefused(v: nat, rest: seq<Byte>, result: nat)
    requires 16 <= v < 0x8_0000_0000 && result < Shifted(1, 28)
    ensures Varint32From(Varint(v) + rest, 28, result).Err?
  {
    if v >= 128 {
      VarintContinues(v, rest);
      var tail := Varint(v / 128) + rest;
      assert ([v % 128 + 128] + tail)[1..] == tail;
      HighBitsRefused(v / 128, rest, 35, (result + Shifted(v % 128, 28)) % 0x1_0000_0000);
    }
  }

  function Least(bitpos: nat): nat {
    if bitpos == 0 then TWO_32 else if bitpos == 7 then 0x200_0000 else if bitpos == 14 then 0x4_0000
    else if bitpos == 21 then 0x800 else 16
  }

  function Bound(bitpos: nat): nat {
    if bitpos == 0 then TWO_63 else if bitpos == 7 then 0x100_0000_0000_0000 else if bitpos == 14 then 0x2_0000_0000_0000
    else if bitpos == 21 then 0x400_0000_0000 else 0x8_0000_0000
  }

  lemma BoundsStep(v: nat, bitpos: nat)
    requires GroupStart(bitpos) && bitpos < 28 && Least(bitpos) <= v < Bound(bitpos)
    ensures v >= 128 && Least(bitpos + 7) <= v / 128 < Bound(bitpos + 7)
  {
  }

  lemma {:induction false} LongRefusedFrom(v: nat, rest: seq<Byte>, bitpos: nat, result: nat)
    requires GroupStart(bitpos) && Least(bitpos) <= v < Bound(bitpos) && result < Shifted(1, bitpos)
    ensures Varint32From(Varint(v) + rest, bitpos, result).Err?
    decreases 28 - bitpos
  {
    hide Shifted;
    if bitpos < 28 {
      hide Least, Bound;
      BoundsStep(v, bitpos);
      VarintContinues(v, rest);
      SameTotal(v, bitpos, result);
      NextGroup(v % 128 + 128, Varint(v / 128) + rest, bitpos, result);
      LongRefusedFrom(v / 128, rest, bitpos + 7, result + Shifted(v % 128, bitpos));
    } else {
      assert 16 == Least(28) && 0x8_0000_0000 == Bound(28);
      FifthGroupRefused(v, rest, result);
    }
  }

  /** A length of thirty-three to sixty-three bits is no 32-bit varint. */
  lemma LongRefused(v: nat, rest: seq<Byte>)
    requires TWO_32 <= v < TWO_63
    ensures DecodeVarint32(Varint(v) + rest).Err?
  {
    LongRefusedFrom(v, rest, 0, 0);
  }

  ghost predicate Unlimited(r: Result<seq<Byte>>) {
    r.Ok? && |r.value| < TWO_63
  }

  lemma DelimitedRefused(body: seq<Byte>, rest: seq<Byte>)
    requires TWO_32 <= |body| < TWO_63
    ensures TakeDelimited(Varint(|body|) + body + rest, "parent stream too short").Err?
    ensures DecodeVarint32(Varint(|body|) + body + rest).Err?
  {
    Associate(Varint(|body|), body, rest);
    LongRefused(|body|, body + rest);
  }

  /** A value that is not restorable makes decoding fail. */
  lemma ValueRefused(k: Kind, v: Value, rest: seq<Byte>, into: Value)
    requires WfKind(k) && TypedValue(k, v) && Unlimited(Encoded(k, v)) && !Restorable(k, v)
    requires k.Message? ==> into == ZeroValue(k)
    ensures DecodedValue(k, Encoded(k, v).value + rest, into).Err?
    decreases k, 0
  {
    if k.Message? {
      var body := EncodedFields(k.schema, v.slots, |v.slots|).value;
      if |body| >= TWO_32 {
        DelimitedRefused(body, rest);
      } else {
        DelimitedReads(body, rest, "parent stream too short");
        MessageRefused(k.schema, v.slots);
      }
    } else {
      BlobRefused(k, v, rest);
    }
  }

  lemma BlobRefused(k: Kind, v: Value, rest: seq<Byte>)
    requires (k.Bytes? || k.Text? || k.FixedBytes?) && TypedValue(k, v) && Unlimited(Encoded(k, v)) && !Restorable(k, v)
    ensures DecodedBlob(k, Encoded(k, v).value + rest).Err?
  {
    var n := |v.bytes|;
    if n >= TWO_32 {
      DelimitedRefused(v.bytes, rest);
    } else {
      Associate(Varint(n), v.bytes, rest);
      Varint32Decodes(n, v.bytes + rest);
    }
  }

  lemma MessageRefused(s: Schema, slots: seq<Slot>)
    requires WfSchema(s) && TypedSlots(s, slots) && Unlimited(EncodedFields(s, slots, |slots|)) && !RestorableFields(s, slots)
    ensures DecodedFresh(s, EncodedFields(s, slots, |slots|).value).Err?
    decreases s, |s.fields| + 1
  {
    hide WfSchema, TypedSlot, RestorableSlot, AfterFields, Walks, DecodedLoop, PaddedFields, Joined, EncodedFields,
         EncodedField, UnionsApart;
    var i := FirstRefused(s, slots, 0);
    var tail := FieldsSplit(s, slots, i, |slots|);
    var records := FieldsArePadded(s, slots, i);
    FieldsWalk(s, slots, i, records);
    var start, bytes := AfterFields(s, slots, 0), EncodedField(s.fields[i], slots[i]).value;
    LoopWalks(s, start, records, AfterFields(s, slots, i), bytes + tail);
    SlotRefused(s, slots, i, tail);
    Associate(Joined(records), bytes, tail);
    Ends(s, slots);
  }

  lemma FirstRefused(s: Schema, slots: seq<Slot>, from: nat) returns (i: nat)
    requires TypedSlots(s, slots) && !RestorableFields(s, slots) && from <= |slots|
    requires forall j :: 0 <= j < from ==> RestorableSlot(s.fields[j], slots[j])
    ensures i < |slots| && !RestorableSlot(s.fields[i], slots[i])
    ensures forall j :: 0 <= j < i ==> RestorableSlot(s.fields[j], slots[j])
    decreases |slots| - from
  {
    if RestorableSlot(s.fields[from], slots[from]) {
      i := FirstRefused(s, slots, from + 1);
    } else {
      i := from;
    }
  }

  lemma {:induction false} FieldsSplit(s: Schema, slots: seq<Slot>, i: nat, n: nat) returns (tail: seq<Byte>)
    requires TypedSlots(s, slots) && i < n <= |slots| && Unlimited(EncodedFields(s, slots, n))
    ensures EncodedFields(s, slots, i).Ok? && TypedSlot(s.fields[i], slots[i])
    ensures Unlimited(EncodedField(s.fields[i], slots[i]))
    ensures EncodedFields(s, slots, n).value ==
            EncodedFields(s, slots, i).value + EncodedField(s.fields[i], slots[i]).value + tail
    decreases n
  {
    hide TypedSlot, EncodedField, UnionsApart;
    if n == i + 1 {
      tail := [];
    } else {
      tail := FieldsSplit(s, slots, i, n - 1);
      Associate(EncodedFields(s, slots, i).value + EncodedField(s.fields[i], slots[i]).value, tail,
                EncodedField(s.fields[n - 1], slots[n - 1]).value);
      tail := tail + EncodedField(s.fields[n - 1], slots[n - 1]).value;
    }
  }

  lemma TurnFails(s: Schema, m: Filling, i: nat, wireType: nat, value: seq<Byte>, rest: seq<Byte>)
    requires WfSchema(s) && |m.slots| == |s.fields| && i < |s.fields| && wireType < 8
    requires DecodedField(s, i, wireType, value + rest, m).Err?
    ensures DecodedLoop(s, m, Key(s.fields[i].tag, wireType) + value + rest).Err?
  {
    hide WfSchema, DecodedField, DecodedTurn, Key;
    TaggedTurn(s, m, i, wireType, value, rest);
    KeyNonEmpty(s.fields[i].tag, wireType);
    assert Key(s.fields[i].tag, wireType) + value + rest != [];
  }

  lemma KeyNonEmpty(tag: nat, wireType: nat)
    ensures Key(tag, wireType) != []
  {
  }

  lemma SlotRefused(s: Schema, slots: seq<Slot>, i: nat, tail: seq<Byte>)
    requires WfSchema(s) && TypedSlots(s, slots) && i < |slots| && TypedSlot(s.fields[i], slots[i])
    requires Unlimited(EncodedField(s.fields[i], slots[i])) && !RestorableSlot(s.fields[i], slots[i])
    ensures DecodedLoop(s, AfterFields(s, slots, i), EncodedField(s.fields[i], slots[i]).value + tail).Err?
    decreases s, i, 2
  {
    hide WfSchema, AfterFields, DecodedLoop, UnionsApart, TypedValue, Restorable, ClearedValue, RestorableItems;
    var f, slot := s.fields[i], slots[i];
    if slot.Many? {
      ArrayRefused(s, slots, i, tail);
    } else {
      TaggedRefused(s, slots, i, tail);
    }
  }

  lemma TaggedRefused(s: Schema, slots: seq<Slot>, i: nat, tail: seq<Byte>)
    requires WfSchema(s) && TypedSlots(s, slots) && i < |slots| && TypedSlot(s.fields[i], slots[i])
    requires !s.fields[i].rule.Repeated? && !s.fields[i].rule.FixedCount? && !slots[i].Absent?
    requires Unlimited(Tagged(s.fields[i], slots[i].value)) && !Restorable(s.fields[i].kind, slots[i].value)
    ensures DecodedLoop(s, AfterFields(s, slots, i), Tagged(s.fields[i], slots[i].value).value + tail).Err?
    decreases s, i, 1
  {
    hide AfterFields, DecodedLoop, TypedValue, Restorable, Encoded, DecodedValue;
    var f, v, m := s.fields[i], slots[i].value, AfterFields(s, slots, i);
    var bytes := Encoded(f.kind, v).value;
    FreshBase(s, slots, i);
    ValueRefused(f.kind, v, tail, Current(f, m.slots[i]));
    TurnFails(s, m, i, WireType(f.kind), bytes, tail);
  }

  lemma ArrayRefused(s: Schema, slots: seq<Slot>, i: nat, tail: seq<Byte>)
    requires WfSchema(s) && TypedSlots(s, slots) && i < |slots| && TypedSlot(s.fields[i], slots[i])
    requires s.fields[i].rule.Repeated? || s.fields[i].rule.FixedCount?
    requires Unlimited(EncodedField(s.fields[i], slots[i])) && !RestorableItems(s.fields[i].kind, slots[i].items)
    ensures DecodedLoop(s, AfterFields(s, slots, i), EncodedField(s.fields[i], slots[i]).value + tail).Err?
    decreases s, i, 1
  {
    hide AfterFields, DecodedLoop, TypedValue, Encoded, Restorable, Walks;
    var f, items := s.fields[i], slots[i].items;
    if Packable(f.kind) {
      PackedRefused(s, slots, i, tail);
    } else {
      var n := FirstItemRefused(f, items, 0);
      var more := ItemsSplit(f, items, n, |items|);
      var b := ItemsArePadded(s, f, items, n);
      ItemsWalk(s, slots, i, n, b);
      var record := Tagged(f, items[n]).value;
      LoopWalks(s, AfterFields(s, slots, i), b, WithItems(s, slots, i, n), record + (more + tail));
      ItemRefused(s, slots, i, n, more + tail);
      Regroup(Joined(b), record, more, tail);
    }
  }

  lemma Regroup(a: seq<Byte>, b: seq<Byte>, c: seq<Byte>, d: seq<Byte>)
    ensures a + b + c + d == a + (b + (c + d))
  {
  }

  lemma FirstItemRefused(f: Field, items: seq<Value>, from: nat) returns (n: nat)
    requires (forall j :: 0 <= j < |items| ==> TypedValue(f.kind, items[j])) && from <= |items|
    requires !Packable(f.kind) && !RestorableItems(f.kind, items)
    requires forall j :: 0 <= j < from ==> Restorable(f.kind, items[j])
    ensures n < |items| && !Restorable(f.kind, items[n])
    ensures forall j :: 0 <= j < n ==> Restorable(f.kind, items[j])
    decreases |items| - from
  {
    hide Restorable, TypedValue;
    if Restorable(f.kind, items[from]) {
      n := FirstItemRefused(f, items, from + 1);
    } else {
      n := from;
    }
  }

  lemma {:induction false} ItemsSplit(f: Field, items: seq<Value>, i: nat, n: nat) returns (tail: seq<Byte>)
    requires (forall j :: 0 <= j < |items| ==> TypedValue(f.kind, items[j])) && i < n <= |items|
    requires Unlimited(Unpacked(f, items, n))
    ensures Unpacked(f, items, i).Ok? && Unlimited(Tagged(f, items[i]))
    ensures Unpacked(f, items, n).value == Unpacked(f, items, i).value + Tagged(f, items[i]).value + tail
    decreases n
  {
    hide TypedValue, Tagged;
    if n == i + 1 {
      tail := [];
    } else {
      tail := ItemsSplit(f, items, i, n - 1);
      Associate(Unpacked(f, items, i).value + Tagged(f, items[i]).value, tail, Tagged(f, items[n - 1]).value);
      tail := tail + Tagged(f, items[n - 1]).value;
    }
  }

  lemma ItemRefused(s: Schema, slots: seq<Slot>, i: nat, n: nat, tail: seq<Byte>)
    requires WfSchema(s) && TypedSlots(s, slots) && i < |slots| && TypedSlot(s.fields[i], slots[i])
    requires (s.fields[i].rule.Repeated? || s.fields[i].rule.FixedCount?) && !Packable(s.fields[i].kind)
    requires n < |slots[i].items|
    requires Unlimited(Tagged(s.fields[i], slots[i].items[n])) && !Restorable(s.fields[i].kind, slots[i].items[n])
    ensures DecodedLoop(s, WithItems(s, slots, i, n), Tagged(s.fields[i], slots[i].items[n]).value + tail).Err?
    decreases s, i, 0
  {
    hide WithItems, DecodedLoop, TypedValue, Restorable, Encoded, DecodedValue, DecodedField;
    var f, v := s.fields[i], slots[i].items[n];
    var bytes := Encoded(f.kind, v).value;
    ValueRefused(f.kind, v, tail, ZeroValue(f.kind));
    ArrayField(s, slots, i, n, WireType(f.kind), bytes + tail);
    TurnFails(s, WithItems(s, slots, i, n), i, WireType(f.kind), bytes, tail);
  }

  lemma PackedRefused(s: Schema, slots: seq<Slot>, i: nat, tail: seq<Byte>)
    requires WfSchema(s) && TypedSlots(s, slots) && i < |slots| && TypedSlot(s.fields[i], slots[i])
    requires (s.fields[i].rule.Repeated? || s.fields[i].rule.FixedCount?) && Packable(s.fields[i].kind)
    requires Unlimited(EncodedField(s.fields[i], slots[i])) && !RestorableItems(s.fields[i].kind, slots[i].items)
    ensures DecodedLoop(s, AfterFields(s, slots, i), EncodedField(s.fields[i], slots[i]).value + tail).Err?
  {
    hide AfterFields, DecodedLoop, TypedValue, Encoded, DecodedField, WithItems;
    var f, items := s.fields[i], slots[i].items;
    var run := Packed(f.kind, items, |items|).value;
    NoItemsIn(s, slots, i);
    DelimitedRefused(run, tail);
    ArrayField(s, slots, i, 0, 2, Varint(|run|) + run + tail);
    TurnFails(s, AfterFields(s, slots, i), i, 2, Varint(|run|) + run, tail);
  }

  /** A message the encoder has written is read back exactly when no text fills its buffer to the last
      byte and no length needs more than 32 bits; otherwise decoding fails. */
  lemma RoundTripIff(s: Schema, slots: seq<Slot>)
    requires WfSchema(s) && TypedSlots(s, slots) && Unlimited(EncodedFields(s, slots, |slots|))
    ensures var r := DecodedFresh(s, EncodedFields(s, slots, |slots|).value);
            if RestorableFields(s, slots) then r == Ok(slots) else r.Err?
  {
    hide WfSchema, TypedSlot, EncodedFields, DecodedFresh, PaddedMessage, RestorableFields, UnionsApart;
    if RestorableFields(s, slots) {
      MessageIsPadded(s, slots);
      MessageDecodes(s, slots, EncodedFields(s, slots, |slots|).value);
    } else {
      MessageRefused(s, slots);
    }
  }

  lemma {:induction false} VarintLength(v: nat, limit: nat)
    requires v < Power128(limit) && limit > 0
    ensures |Varint(v)| <= limit
    decreases limit
  {
    if v >= 128 {
      Halves(v, limit);
      VarintLength(v / 128, limit - 1);
    }
  }

  /** A text that fills its buffer is written and then refused, in every message. */
  lemma FullTextRefused(tag: nat, size: nat, text: seq<Byte>)
    requires 0 < tag < 0x2000_0000 && |text| == size < TWO_32 && 0 !in text
    ensures var s := Schema([Field(tag, Text(size), Required, None)]);
            && TypedSlots(s, [One(Blob(text))]) && EncodedFields(s, [One(Blob(text))], 1).Ok?
            && DecodedFresh(s, EncodedFields(s, [One(Blob(text))], 1).value).Err?
  {
    var s, slots := Schema([Field(tag, Text(size), Required, None)]), [One(Blob(text))];
    assert TypedSlot(s.fields[0], slots[0]);
    assert EncodedFields(s, slots, 0) == Ok([]);
    var bytes := Key(tag, 2) + (Varint(size) + text);
    assert Encoded(Text(size), Blob(text)) == Ok(Varint(size) + text);
    assert EncodedField(s.fields[0], slots[0]) == Ok(bytes);
    assert EncodedFields(s, slots, 1) == Ok([] + bytes);
    assert !RestorableSlot(s.fields[0], slots[0]);
    Widths();
    VarintLength(8 * tag + 2, 5);
    VarintLength(size, 5);
    RoundTripIff(s, slots);
  }
}
