/** Decoding what was encoded, with unknown fields in between (pb_encode.c, pb_decode.c). */
module MessageRoundTrip {
  import opened InternalKeys
  import opened LogFormat
  import opened Coding
  import opened MessageSchemas
  import opened WireFormat
  import opened MessageEncoder
  import opened MessageDecoder

  // ---------- what can be restored ----------

  predicate Short(r: Result<seq<Byte>>) {
    r.Ok? && |r.value| < TWO_32
  }

  /** Encodable, with lengths that are read back as 32 bits and room for a text's terminator. */
  predicate Restorable(k: Kind, v: Value)
    requires TypedValue(k, v)
    decreases k, 0
  {
    match k
    case Bytes(capacity) => |v.bytes| <= capacity && |v.bytes| < TWO_32
    case Text(size) => |v.bytes| < size && |v.bytes| < TWO_32
    case FixedBytes(_) => |v.bytes| < TWO_32
    case Message(schema) =>
      RestorableFields(schema, v.slots) && Short(EncodedFields(schema, v.slots, |v.slots|))
    case _ => true
  }

  predicate RestorableFields(s: Schema, slots: seq<Slot>)
    requires TypedSlots(s, slots)
    decreases s
  {
    forall i :: 0 <= i < |slots| ==> RestorableSlot(s.fields[i], slots[i])
  }

  /** A cleared singular field and an absent one are not written, so they need nothing. */
  predicate RestorableSlot(f: Field, slot: Slot)
    requires TypedSlot(f, slot)
    decreases f
  {
    match f.rule
    case Required => Restorable(f.kind, slot.value)
    case Singular => ClearedValue(f.kind, slot.value) || Restorable(f.kind, slot.value)
    case Optional => slot.Absent? || Restorable(f.kind, slot.value)
    case Oneof(_) => slot.Absent? || Restorable(f.kind, slot.value)
    case Repeated(max) => |slot.items| <= max && RestorableItems(f.kind, slot.items)
    case FixedCount(_) => RestorableItems(f.kind, slot.items)
  }

  predicate RestorableItems(k: Kind, items: seq<Value>)
    requires forall i :: 0 <= i < |items| ==> TypedValue(k, items[i])
    decreases k, 1
  {
    if Packable(k) then Short(Packed(k, items, |items|))
    else forall i :: 0 <= i < |items| ==> Restorable(k, items[i])
  }

  // ---------- the decoding loop, record by record ----------

  /** The record takes the decoder from one state to the next, whatever follows it. */
  ghost predicate StepsTo(s: Schema, m: Filling, record: seq<Byte>, m': Filling) {
    && |m.slots| == |s.fields| && record != []
    && forall rest: seq<Byte> :: DecodedTurn(s, m, record + rest) == Go(m', rest)
  }

  /** No field of the message has this key's tag, and the value is complete. */
  ghost predicate Unknown(s: Schema, record: seq<Byte>) {
    exists tag: nat, wireType: nat, value: seq<Byte> ::
      && 0 < tag < 0x2000_0000 && FindField(s, tag, 0) == |s.fields|
      && Skippable(wireType, value) && record == Key(tag, wireType) + value
  }

  ghost predicate Skippable(wireType: nat, value: seq<Byte>) {
    || (wireType == 0 && value != [] && value[|value| - 1] < 128 && forall i :: 0 <= i < |value| - 1 ==> value[i] >= 128)
    || (wireType == 1 && |value| == 8)
    || (wireType == 2 && exists body: seq<Byte> :: |body| < TWO_32 && value == Varint(|body|) + body)
    || (wireType == 5 && |value| == 4)
  }

  lemma KeyReads(tag: nat, wireType: nat, rest: seq<Byte>)
    requires tag < 0x2000_0000 && wireType < 8
    ensures DecodeVarint32(Key(tag, wireType) + rest) == Ok(Read(8 * tag + wireType, rest))
    ensures (8 * tag + wireType) / 8 == tag && (8 * tag + wireType) % 8 == wireType
  {
    Varint32Decodes(8 * tag + wireType, rest);
  }

  lemma DelimitedReads(body: seq<Byte>, rest: seq<Byte>, shortage: string)
    requires |body| < TWO_32
    ensures TakeDelimited(Varint(|body|) + body + rest, shortage) == Ok(Read(body, rest))
  {
    Associate(Varint(|body|), body, rest);
    Varint32Decodes(|body|, body + rest);
    assert (body + rest)[..|body|] == body && (body + rest)[|body|..] == rest;
  }

  lemma Associate(x: seq<Byte>, y: seq<Byte>, z: seq<Byte>)
    ensures x + y + z == x + (y + z)
  {
  }

  lemma {:induction false} VarintSkips(value: seq<Byte>, rest: seq<Byte>)
    requires Skippable(0, value)
    ensures SkipVarint(value + rest) == Ok(rest)
    decreases |value|
  {
    assert (value + rest)[1..] == value[1..] + rest;
    if |value| > 1 {
      VarintSkips(value[1..], rest);
    } else {
      assert value[1..] + rest == rest;
    }
  }

  lemma ValueSkips(wireType: nat, value: seq<Byte>, rest: seq<Byte>)
    requires Skippable(wireType, value)
    ensures SkipField(value + rest, wireType) == Ok(rest)
  {
    if wireType == 0 {
      VarintSkips(value, rest);
    } else if wireType == 2 {
      var body: seq<Byte> :| |body| < TWO_32 && value == Varint(|body|) + body;
      DelimitedReads(body, rest, "end-of-stream");
    } else {
      assert (value + rest)[|value|..] == rest;
    }
  }

  /** An unknown field leaves the state of the decoder as it was, whatever it is. */
  lemma UnknownIsSkipped(s: Schema, m: Filling, record: seq<Byte>)
    requires |m.slots| == |s.fields| && Unknown(s, record)
    ensures StepsTo(s, m, record, m)
  {
    var tag: nat, wireType: nat, value: seq<Byte> :|
      && 0 < tag < 0x2000_0000 && FindField(s, tag, 0) == |s.fields|
      && Skippable(wireType, value) && record == Key(tag, wireType) + value;
    forall rest: seq<Byte> ensures DecodedTurn(s, m, record + rest) == Go(m, rest) {
      Associate(Key(tag, wireType), value, rest);
      KeyReads(tag, wireType, value + rest);
      ValueSkips(wireType, value, rest);
    }
  }

  /** A sequence of records that take the decoder from one state to another. */
  ghost predicate Walks(s: Schema, m: Filling, records: seq<seq<Byte>>, m': Filling) {
    if records == [] then m == m' && |m.slots| == |s.fields|
    else
      var init, last := records[..|records| - 1], records[|records| - 1];
      exists mid :: Walks(s, m, init, mid) && StepsTo(s, mid, last, m')
  }

  lemma WalkOne(s: Schema, m: Filling, record: seq<Byte>, m': Filling)
    requires StepsTo(s, m, record, m')
    ensures Walks(s, m, [record], m')
  {
    WalkSnoc(s, m, [], m, record, m');
    assert [] + [record] == [record];
  }

  lemma WalkSnoc(s: Schema, m: Filling, records: seq<seq<Byte>>, mid: Filling, record: seq<Byte>, m': Filling)
    requires Walks(s, m, records, mid) && StepsTo(s, mid, record, m')
    ensures Walks(s, m, records + [record], m')
  {
    assert (records + [record])[..|records|] == records;
  }

  lemma {:induction false} WalkConcat(s: Schema, m: Filling, a: seq<seq<Byte>>, mid: Filling, b: seq<seq<Byte>>, m': Filling)
    requires Walks(s, m, a, mid) && Walks(s, mid, b, m')
    ensures Walks(s, m, a + b, m')
    decreases |b|
  {
    if b == [] {
      assert a + b == a;
    } else {
      var c, last := b[..|b| - 1], b[|b| - 1];
      var before :| Walks(s, mid, c, before) && StepsTo(s, before, last, m');
      WalkConcat(s, m, a, mid, c, before);
      WalkSnoc(s, m, a + c, before, last, m');
      assert a + c + [last] == a + b;
    }
  }

  function Joined(records: seq<seq<Byte>>): seq<Byte> {
    if records == [] then [] else Joined(records[..|records| - 1]) + records[|records| - 1]
  }

  lemma {:induction false} JoinedConcat(a: seq<seq<Byte>>, b: seq<seq<Byte>>)
    ensures Joined(a + b) == Joined(a) + Joined(b)
    decreases |b|
  {
    if b == [] {
      assert a + b == a;
    } else {
      var c, last := b[..|b| - 1], b[|b| - 1];
      JoinedConcat(a, c);
      assert (a + b)[..|a + b| - 1] == a + c && (a + b)[|a + b| - 1] == last;
      Associate(Joined(a), Joined(c), last);
    }
  }

  /** The loop follows a walk. */
  lemma {:induction false} LoopWalks(s: Schema, m: Filling, records: seq<seq<Byte>>, m': Filling, rest: seq<Byte>)
    requires Walks(s, m, records, m')
    ensures |m.slots| == |m'.slots| == |s.fields|
    ensures DecodedLoop(s, m, Joined(records) + rest) == DecodedLoop(s, m', rest)
    decreases |records|
  {
    if records == [] {
      assert Joined(records) + rest == rest;
    } else {
      var init, last := records[..|records| - 1], records[|records| - 1];
      var mid :| Walks(s, m, init, mid) && StepsTo(s, mid, last, m');
      Associate(Joined(init), last, rest);
      LoopWalks(s, m, init, mid, last + rest);
      StepSlots(s, mid, last, m');
      assert DecodedTurn(s, mid, last + rest) == Go(m', rest);
    }
  }

  lemma StepSlots(s: Schema, m: Filling, record: seq<Byte>, m': Filling)
    requires StepsTo(s, m, record, m')
    ensures |m'.slots| == |s.fields|
  {
    assert DecodedTurn(s, m, record + []) == Go(m', []);
  }

  // ---------- encodings with unknown fields in between, at every depth ----------

  ghost predicate AllUnknown(s: Schema, records: seq<seq<Byte>>) {
    forall i :: 0 <= i < |records| ==> Unknown(s, records[i])
  }

  ghost predicate PaddedValue(k: Kind, v: Value, bytes: seq<Byte>)
    requires TypedValue(k, v)
    decreases k, 4
  {
    if k.Message? then
      exists body: seq<Byte> :: |body| < TWO_32 && bytes == Varint(|body|) + body && PaddedMessage(k.schema, v.slots, body)
    else
      Restorable(k, v) && Encoded(k, v) == Ok(bytes)
  }

  ghost predicate PaddedMessage(s: Schema, slots: seq<Slot>, body: seq<Byte>)
    requires TypedSlots(s, slots)
    decreases s, |s.fields| + 1
  {
    exists records :: PaddedFields(s, slots, |slots|, records) && body == Joined(records)
  }

  ghost predicate PaddedFields(s: Schema, slots: seq<Slot>, n: nat, records: seq<seq<Byte>>)
    requires TypedSlots(s, slots) && n <= |slots|
    decreases s, n
  {
    if n == 0 then AllUnknown(s, records)
    else
      exists a, b, c ::
        PaddedFields(s, slots, n - 1, a) && PaddedSlot(s, s.fields[n - 1], slots[n - 1], b) && AllUnknown(s, c) &&
        records == a + b + c
  }

  ghost predicate PaddedSlot(s: Schema, f: Field, slot: Slot, b: seq<seq<Byte>>)
    requires TypedSlot(f, slot)
    decreases f, 6
  {
    match f.rule
    case Required => |b| == 1 && PaddedTagged(f, slot.value, b[0])
    case Singular => if ClearedValue(f.kind, slot.value) then b == [] else |b| == 1 && PaddedTagged(f, slot.value, b[0])
    case Optional => if slot.Absent? then b == [] else |b| == 1 && PaddedTagged(f, slot.value, b[0])
    case Oneof(_) => if slot.Absent? then b == [] else |b| == 1 && PaddedTagged(f, slot.value, b[0])
    case Repeated(max) => |slot.items| <= max && PaddedArray(s, f, slot.items, b)
    case FixedCount(_) => PaddedArray(s, f, slot.items, b)
  }

  ghost predicate PaddedArray(s: Schema, f: Field, items: seq<Value>, b: seq<seq<Byte>>)
    requires forall i :: 0 <= i < |items| ==> TypedValue(f.kind, items[i])
    decreases f, 5
  {
    if items == [] then b == []
    else if Packable(f.kind) then
      var run := Packed(f.kind, items, |items|);
      Short(run) && b == [Key(f.tag, 2) + (Varint(|run.value|) + run.value)]
    else PaddedItems(s, f, items, |items|, b)
  }

  ghost predicate PaddedItems(s: Schema, f: Field, items: seq<Value>, n: nat, b: seq<seq<Byte>>)
    requires (forall i :: 0 <= i < |items| ==> TypedValue(f.kind, items[i])) && n <= |items|
    decreases f, 4, n
  {
    if n == 0 then b == []
    else exists a, r, c ::
      PaddedItems(s, f, items, n - 1, a) && PaddedTagged(f, items[n - 1], r) && AllUnknown(s, c) && b == a + [r] + c
  }

  ghost predicate PaddedTagged(f: Field, v: Value, record: seq<Byte>)
    requires TypedValue(f.kind, v)
    decreases f, 3
  {
    exists bytes :: PaddedValue(f.kind, v, bytes) && record == Key(f.tag, WireType(f.kind)) + bytes
  }

  // ---------- where the decoder stands after the first fields ----------

  function LastFixed(s: Schema, slots: seq<Slot>, n: nat): (r: Option<nat>)
    requires TypedSlots(s, slots) && n <= |slots|
    ensures r.Some? ==> r.value < n && s.fields[r.value].rule.FixedCount? && TypedSlot(s.fields[r.value], slots[r.value])
  {
    if n == 0 then None
    else if s.fields[n - 1].rule.FixedCount? && slots[n - 1] != Many([]) then Some(n - 1)
    else LastFixed(s, slots, n - 1)
  }

  function SeenBefore(s: Schema, n: nat): set<nat>
    requires n <= |s.fields|
  {
    if n == 0 then {}
    else SeenBefore(s, n - 1) + (if s.fields[n - 1].rule.Required? && RequiredBefore(s, n - 1) < MAX_REQUIRED
                                 then {RequiredBefore(s, n - 1)} else {})
  }

  function AfterFields(s: Schema, slots: seq<Slot>, n: nat): (m: Filling)
    requires TypedSlots(s, slots) && n <= |slots|
    ensures |m.slots| == |s.fields|
  {
    var fixed := LastFixed(s, slots, n);
    Filling(slots[..n] + DefaultSlots(s)[n..], SeenBefore(s, n), fixed,
            if fixed.Some? then |slots[fixed.value].items| else 0)
  }

  // ---------- values ----------

  lemma ScalarDecodes(k: Kind, v: Value, rest: seq<Byte>)
    requires WfKind(k) && Packable(k) && TypedValue(k, v)
    ensures Encoded(k, v).Ok? && DecodedScalar(k, Encoded(k, v).value + rest) == Ok(Read(v, rest))
  {
    var bytes := Encoded(k, v).value;
    if k.Word32? {
      Fixed32RoundTrip(v.n);
      assert (bytes + rest)[..4] == bytes && (bytes + rest)[4..] == rest;
    } else if k.Word64? {
      Fixed64RoundTrip(v.n);
      assert (bytes + rest)[..8] == bytes && (bytes + rest)[8..] == rest;
    } else {
      ScalarReadsBack(k, v.n);
      if k.Bool? { Varint32Decodes(v.n, rest); } else { VarintDecodes(Written(k, v.n), rest); }
    }
  }

  lemma {:induction false} CutKeeps(bytes: seq<Byte>)
    requires 0 !in bytes
    ensures Cut(bytes) == bytes
  {
    if bytes != [] { CutKeeps(bytes[1..]); }
  }

  lemma BlobDecodes(k: Kind, v: Value, rest: seq<Byte>)
    requires (k.Bytes? || k.Text? || k.FixedBytes?) && TypedValue(k, v) && Restorable(k, v)
    ensures Encoded(k, v).Ok? && DecodedBlob(k, Encoded(k, v).value + rest) == Ok(Read(v, rest))
  {
    var n := |v.bytes|;
    Associate(Varint(n), v.bytes, rest);
    Varint32Decodes(n, v.bytes + rest);
    assert (v.bytes + rest)[..n] == v.bytes && (v.bytes + rest)[n..] == rest;
    if k.Text? { CutKeeps(v.bytes); }
  }

  /** Any encoding of a value, padded or not, is read back as the value. */
  lemma ValueDecodes(k: Kind, v: Value, bytes: seq<Byte>, rest: seq<Byte>, into: Value)
    requires WfKind(k) && TypedValue(k, v) && PaddedValue(k, v, bytes)
    requires k.Message? ==> into == ZeroValue(k)
    ensures DecodedValue(k, bytes + rest, into) == Ok(Read(v, rest))
    decreases k, 0
  {
    if k.Message? {
      var body: seq<Byte> :| |body| < TWO_32 && bytes == Varint(|body|) + body && PaddedMessage(k.schema, v.slots, body);
      DelimitedReads(body, rest, "parent stream too short");
      MessageDecodes(k.schema, v.slots, body);
    } else if Packable(k) {
      ScalarDecodes(k, v, rest);
    } else {
      BlobDecodes(k, v, rest);
    }
  }

  lemma MessageDecodes(s: Schema, slots: seq<Slot>, body: seq<Byte>)
    requires WfSchema(s) && TypedSlots(s, slots) && PaddedMessage(s, slots, body)
    ensures DecodedFresh(s, body) == Ok(slots)
    decreases s, |s.fields| + 1
  {
    hide WfSchema, TypedSlot, DefaultSlots, AfterFields, Walks, DecodedTurn, AllSeen, Unfinished, Joined;
    var records :| PaddedFields(s, slots, |slots|, records) && body == Joined(records);
    FieldsWalk(s, slots, |slots|, records);
    var start, end := AfterFields(s, slots, 0), AfterFields(s, slots, |slots|);
    LoopWalks(s, start, records, end, []);
    assert Joined(records) + [] == body;
    Ends(s, slots);
  }

  lemma Ends(s: Schema, slots: seq<Slot>)
    requires TypedSlots(s, slots)
    ensures AfterFields(s, slots, 0) == Filling(DefaultSlots(s), {}, None, 0)
    ensures AfterFields(s, slots, |slots|).slots == slots
    ensures DecodedLoop(s, AfterFields(s, slots, |slots|), []) == Ok(AfterFields(s, slots, |slots|))
    ensures Finished(s, Ok(AfterFields(s, slots, |slots|))) == Ok(slots)
  {
    hide TypedSlot, DefaultSlot;
    assert slots[..0] + DefaultSlots(s)[0..] == DefaultSlots(s);
    assert slots[..|slots|] + DefaultSlots(s)[|slots|..] == slots;
    EverythingSeen(s, slots);
  }

  /** At the end nothing is missing. */
  lemma EverythingSeen(s: Schema, slots: seq<Slot>)
    requires TypedSlots(s, slots)
    ensures AllSeen(s, AfterFields(s, slots, |slots|)) && !Unfinished(s, AfterFields(s, slots, |slots|))
  {
    SeenAll(s, |s.fields|);
  }

  lemma {:induction false} SeenAll(s: Schema, n: nat)
    requires n <= |s.fields|
    ensures forall k :: 0 <= k < RequiredBefore(s, n) && k < MAX_REQUIRED ==> k in SeenBefore(s, n)
  {
    if n > 0 { SeenAll(s, n - 1); }
  }

  lemma FieldsWalk(s: Schema, slots: seq<Slot>, n: nat, records: seq<seq<Byte>>)
    requires WfSchema(s) && TypedSlots(s, slots) && n <= |slots| && PaddedFields(s, slots, n, records)
    ensures Walks(s, AfterFields(s, slots, 0), records, AfterFields(s, slots, n))
    decreases s, n
  {
    hide WfSchema, TypedSlot, AfterFields, Walks, PaddedSlot, AllUnknown;
    if n == 0 {
      UnknownsWalk(s, AfterFields(s, slots, 0), records);
    } else {
      var a, b, c :|
        PaddedFields(s, slots, n - 1, a) && PaddedSlot(s, s.fields[n - 1], slots[n - 1], b) && AllUnknown(s, c) &&
        records == a + b + c;
      FieldsWalk(s, slots, n - 1, a);
      SlotWalks(s, slots, n - 1, b);
      UnknownsWalk(s, AfterFields(s, slots, n), c);
      WalkConcat(s, AfterFields(s, slots, 0), a, AfterFields(s, slots, n - 1), b, AfterFields(s, slots, n));
      WalkConcat(s, AfterFields(s, slots, 0), a + b, AfterFields(s, slots, n), c, AfterFields(s, slots, n));
    }
  }

  lemma {:induction false} UnknownsWalk(s: Schema, m: Filling, records: seq<seq<Byte>>)
    requires |m.slots| == |s.fields| && AllUnknown(s, records)
    ensures Walks(s, m, records, m)
    decreases |records|
  {
    if records != [] {
      var init, last := records[..|records| - 1], records[|records| - 1];
      UnknownsWalk(s, m, init);
      UnknownIsSkipped(s, m, last);
      WalkSnoc(s, m, init, m, last, m);
      assert init + [last] == records;
    }
  }

  lemma SlotWalks(s: Schema, slots: seq<Slot>, i: nat, b: seq<seq<Byte>>)
    requires WfSchema(s) && TypedSlots(s, slots) && i < |slots| && PaddedSlot(s, s.fields[i], slots[i], b)
    ensures Walks(s, AfterFields(s, slots, i), b, AfterFields(s, slots, i + 1))
    decreases s, i, 1
  {
    var f, slot := s.fields[i], slots[i];
    if f.rule.Repeated? || f.rule.FixedCount? {
      if slot.items == [] {
        NothingWritten(s, slots, i);
      } else if Packable(f.kind) {
        PackedSteps(s, slots, i, b[0]);
        WalkOne(s, AfterFields(s, slots, i), b[0], AfterFields(s, slots, i + 1));
        assert b == [b[0]];
      } else {
        ItemsWalk(s, slots, i, |slot.items|, b);
        AllItemsIn(s, slots, i);
      }
    } else if b == [] {
      NothingWritten(s, slots, i);
    } else {
      TaggedSteps(s, slots, i, b[0]);
      WalkOne(s, AfterFields(s, slots, i), b[0], AfterFields(s, slots, i + 1));
      assert b == [b[0]];
    }
  }

  /** A cleared value is the default one. */
  lemma ClearedIsZero(k: Kind, v: Value)
    requires WfKind(k) && TypedValue(k, v) && ClearedValue(k, v)
    ensures v == ZeroValue(k)
    decreases k, 0
  {
    if k.Message? {
      var s := k.schema;
      forall i | 0 <= i < |s.fields| ensures v.slots[i] == DefaultSlots(s)[i] {
        assert TypedSlots(s, v.slots);
        ClearedIsDefault(s.fields[i], v.slots[i]);
      }
      assert v.slots == DefaultSlots(s);
    } else if k.FixedBytes? {
      assert v.bytes == Zeros(0);
    }
  }

  lemma ClearedIsDefault(f: Field, slot: Slot)
    requires WfKind(f.kind) && (f.rule.Singular? ==> f.initial.None?) && TypedSlot(f, slot) && Cleared(f, slot)
    ensures slot == DefaultSlot(f)
    decreases f
  {
    hide WfKind, TypedValue, ZeroValue, ClearedValue;
    if f.rule.Singular? { ClearedIsZero(f.kind, slot.value); }
  }

  /** A field that is not written already holds its value. */
  lemma NothingWritten(s: Schema, slots: seq<Slot>, i: nat)
    requires WfSchema(s) && TypedSlots(s, slots) && i < |slots|
    requires PaddedSlot(s, s.fields[i], slots[i], [])
    ensures AfterFields(s, slots, i + 1) == AfterFields(s, slots, i)
    ensures Walks(s, AfterFields(s, slots, i), [], AfterFields(s, slots, i + 1))
  {
    hide AfterFields, PaddedSlot, TypedSlot;
    NotWritten(s, s.fields[i], slots[i], []);
    NothingStored(s, slots, i);
  }

  lemma NothingStored(s: Schema, slots: seq<Slot>, i: nat)
    requires TypedSlots(s, slots) && i < |slots| && slots[i] == DefaultSlot(s.fields[i])
    requires !s.fields[i].rule.Required? && (s.fields[i].rule.FixedCount? ==> slots[i] == Many([]))
    ensures AfterFields(s, slots, i + 1) == AfterFields(s, slots, i)
  {
    hide TypedSlot, DefaultSlot;
    assert DefaultSlots(s)[i..] == [slots[i]] + DefaultSlots(s)[i + 1..];
    assert slots[..i + 1] == slots[..i] + [slots[i]];
  }

  lemma NotWritten(s: Schema, f: Field, slot: Slot, b: seq<seq<Byte>>)
    requires WfKind(f.kind) && (f.rule.Singular? ==> f.initial.None?)
    requires TypedSlot(f, slot) && PaddedSlot(s, f, slot, b) && b == []
    ensures slot == DefaultSlot(f)
    ensures !f.rule.Required? && (f.rule.FixedCount? ==> slot == Many([]))
  {
    hide WfKind, TypedValue, ZeroValue, ClearedValue, PaddedTagged;
    if f.rule.Singular? {
      ClearedIsZero(f.kind, slot.value);
    } else if f.rule.Repeated? || f.rule.FixedCount? {
      if slot.items != [] && !Packable(f.kind) {
        ItemsWritten(s, f, slot.items, |slot.items|, b);
      }
    }
  }

  lemma ItemsWritten(s: Schema, f: Field, items: seq<Value>, n: nat, b: seq<seq<Byte>>)
    requires (forall i :: 0 <= i < |items| ==> TypedValue(f.kind, items[i])) && 0 < n <= |items|
    requires PaddedItems(s, f, items, n, b)
    ensures b != []
  {
    var a, r, c :| PaddedItems(s, f, items, n - 1, a) && PaddedTagged(f, items[n - 1], r) && AllUnknown(s, c) &&
                   b == a + [r] + c;
    assert b[|a|] == r;
  }

  // ---------- one value behind its key ----------

  /** What storing a value at field `i` makes of the struct. */
  function Stored(s: Schema, m: Filling, i: nat, v: Value): Filling
    requires i < |s.fields| == |m.slots| && !s.fields[i].rule.Repeated? && !s.fields[i].rule.FixedCount?
  {
    match s.fields[i].rule
    case Oneof(_) => m.(slots := Selected(s, m.slots, i)[i := Present(v)])
    case Optional => m.(slots := m.slots[i := Present(v)])
    case Singular => m.(slots := m.slots[i := One(v)])
    case _ => m.(slots := m.slots[i := One(v)],
                 seen := if RequiredBefore(s, i) < MAX_REQUIRED then m.seen + {RequiredBefore(s, i)} else m.seen)
  }

  lemma StoredIsAfter(s: Schema, slots: seq<Slot>, i: nat)
    requires WfSchema(s) && TypedSlots(s, slots) && i < |slots|
    requires !s.fields[i].rule.Repeated? && !s.fields[i].rule.FixedCount? && !slots[i].Absent?
    requires TypedSlot(s.fields[i], slots[i])
    ensures Stored(s, AfterFields(s, slots, i), i, slots[i].value) == AfterFields(s, slots, i + 1)
  {
    hide WfSchema, TypedValue, ZeroValue;
    var m, m' := AfterFields(s, slots, i), AfterFields(s, slots, i + 1);
    forall j | 0 <= j < |slots| ensures Stored(s, m, i, slots[i].value).slots[j] == m'.slots[j] {
      if s.fields[i].rule.Oneof? && j != i && s.fields[j].rule == s.fields[i].rule {
        assert j < i ==> slots[j].Absent?;
        assert j > i ==> DefaultSlots(s)[j] == Absent;
      }
    }
    assert Stored(s, m, i, slots[i].value).slots == m'.slots;
  }

  /** The struct's content before field `i` is decoded for the first time. */
  lemma FreshBase(s: Schema, slots: seq<Slot>, i: nat)
    requires WfSchema(s) && TypedSlots(s, slots) && i < |slots|
    ensures AfterFields(s, slots, i).slots[i] == DefaultSlot(s.fields[i])
    ensures s.fields[i].kind.Message? ==> Current(s.fields[i], DefaultSlot(s.fields[i])) == ZeroValue(s.fields[i].kind)
  {
    hide WfSchema, TypedValue, TypedSlot, ZeroValue, SeenBefore, LastFixed;
  }

  lemma TaggedTurn(s: Schema, m: Filling, i: nat, wireType: nat, value: seq<Byte>, rest: seq<Byte>)
    requires WfSchema(s) && |m.slots| == |s.fields| && i < |s.fields| && wireType < 8
    ensures var r := DecodedField(s, i, wireType, value + rest, m);
            DecodedTurn(s, m, Key(s.fields[i].tag, wireType) + value + rest) ==
            if r.Err? then Fail(r.message) else Go(r.value.value, r.value.rest)
  {
    Associate(Key(s.fields[i].tag, wireType), value, rest);
    KeyReads(s.fields[i].tag, wireType, value + rest);
    FindsIts(s, i);
  }

  lemma FindsIts(s: Schema, i: nat)
    requires WfSchema(s) && i < |s.fields|
    ensures FindField(s, s.fields[i].tag, 0) == i
  {
    var j := FindField(s, s.fields[i].tag, 0);
    if j < i { assert false; }
  }

  lemma TaggedSteps(s: Schema, slots: seq<Slot>, i: nat, record: seq<Byte>)
    requires WfSchema(s) && TypedSlots(s, slots) && i < |slots|
    requires !s.fields[i].rule.Repeated? && !s.fields[i].rule.FixedCount? && !slots[i].Absent?
    requires TypedSlot(s.fields[i], slots[i]) && PaddedTagged(s.fields[i], slots[i].value, record)
    ensures StepsTo(s, AfterFields(s, slots, i), record, AfterFields(s, slots, i + 1))
    decreases s, i, 0
  {
    var f, v, m := s.fields[i], slots[i].value, AfterFields(s, slots, i);
    var bytes :| PaddedValue(f.kind, v, bytes) && record == Key(f.tag, WireType(f.kind)) + bytes;
    FreshBase(s, slots, i);
    StoredIsAfter(s, slots, i);
    forall rest: seq<Byte> ensures DecodedTurn(s, m, record + rest) == Go(AfterFields(s, slots, i + 1), rest) {
      TaggedTurn(s, m, i, WireType(f.kind), bytes, rest);
      ValueDecodes(f.kind, v, bytes, rest, Current(f, m.slots[i]));
    }
  }

  // ---------- arrays ----------

  lemma {:induction false} RunDecodes(k: Kind, items: seq<Value>, n: nat, max: nat, rest: seq<Byte>)
    requires WfKind(k) && Packable(k) && (forall i :: 0 <= i < |items| ==> TypedValue(k, items[i]))
    requires n <= |items| <= max
    ensures Packed(k, items, n).Ok?
    ensures DecodedRun(k, Packed(k, items, n).value + rest, [], max) == DecodedRun(k, rest, items[..n], max)
  {
    if n == 0 {
      assert Packed(k, items, 0).value + rest == rest;
    } else {
      hide DecodedRun, Encoded, TypedValue, WfKind;
      NonEmpty(k, items[n - 1]);
      var last := Encoded(k, items[n - 1]).value;
      RunDecodes(k, items, n - 1, max, last + rest);
      Associate(Packed(k, items, n - 1).value, last, rest);
      ItemOfRun(k, items, n, max, rest);
    }
  }

  lemma ItemOfRun(k: Kind, items: seq<Value>, n: nat, max: nat, rest: seq<Byte>)
    requires WfKind(k) && Packable(k) && (forall i :: 0 <= i < |items| ==> TypedValue(k, items[i]))
    requires 0 < n <= |items| <= max
    ensures Encoded(k, items[n - 1]).Ok?
    ensures DecodedRun(k, Encoded(k, items[n - 1]).value + rest, items[..n - 1], max) == DecodedRun(k, rest, items[..n], max)
  {
    hide Encoded, DecodedScalar, TypedValue, WfKind;
    NonEmpty(k, items[n - 1]);
    ScalarDecodes(k, items[n - 1], rest);
    assert items[..n - 1] + [items[n - 1]] == items[..n];
  }

  lemma NonEmpty(k: Kind, v: Value)
    requires WfKind(k) && Packable(k) && TypedValue(k, v)
    ensures Encoded(k, v).Ok? && Encoded(k, v).value != []
  {
  }

  function MaxItems(f: Field): nat {
    match f.rule
    case Repeated(max) => max
    case FixedCount(count) => count
    case _ => 0
  }

  /** The state after the first `n` items of an array. */
  function WithItems(s: Schema, slots: seq<Slot>, i: nat, n: nat): (m: Filling)
    requires TypedSlots(s, slots) && i < |slots| && slots[i].Many? && n <= |slots[i].items|
    ensures |m.slots| == |s.fields|
  {
    var m := AfterFields(s, slots, i);
    var m' := m.(slots := m.slots[i := Many(slots[i].items[..n])]);
    if s.fields[i].rule.FixedCount? && n > 0 then m'.(fixed := Some(i), fixedSize := n) else m'
  }

  lemma NoItemsIn(s: Schema, slots: seq<Slot>, i: nat)
    requires WfSchema(s) && TypedSlots(s, slots) && i < |slots| && TypedSlot(s.fields[i], slots[i])
    requires s.fields[i].rule.Repeated? || s.fields[i].rule.FixedCount?
    ensures WithItems(s, slots, i, 0) == AfterFields(s, slots, i)
  {
    var m := AfterFields(s, slots, i);
    FreshBase(s, slots, i);
    assert slots[i].items[..0] == [];
    assert m.slots[i := Many([])] == m.slots;
  }

  lemma AllItemsIn(s: Schema, slots: seq<Slot>, i: nat)
    requires WfSchema(s) && TypedSlots(s, slots) && i < |slots| && TypedSlot(s.fields[i], slots[i])
    requires (s.fields[i].rule.Repeated? || s.fields[i].rule.FixedCount?) && slots[i].items != []
    ensures WithItems(s, slots, i, |slots[i].items|) == AfterFields(s, slots, i + 1)
  {
    var m, n := AfterFields(s, slots, i), |slots[i].items|;
    assert slots[i].items[..n] == slots[i].items;
    assert slots[..i + 1] + DefaultSlots(s)[i + 1..] == m.slots[i := slots[i]];
  }

  /** An array of fixed count met earlier has been filled. */
  lemma EarlierArraysDone(s: Schema, slots: seq<Slot>, i: nat)
    requires TypedSlots(s, slots) && i <= |slots|
    ensures !Unfinished(s, AfterFields(s, slots, i)) && AfterFields(s, slots, i).fixed != Some(i)
  {
  }

  /** What decoding more items at field `i` makes of the struct. */
  lemma ArrayField(s: Schema, slots: seq<Slot>, i: nat, n: nat, wireType: nat, input: seq<Byte>)
    requires WfSchema(s) && TypedSlots(s, slots) && i < |slots| && TypedSlot(s.fields[i], slots[i])
    requires (s.fields[i].rule.Repeated? || s.fields[i].rule.FixedCount?) && n <= |slots[i].items|
    ensures var f, m := s.fields[i], WithItems(s, slots, i, n);
            var r := DecodedItems(f, wireType, input, slots[i].items[..n], MaxItems(f));
            var d := DecodedField(s, i, wireType, input, m);
            if r.Err? then d.Err?
            else d.Ok? && d.value.rest == r.value.rest && d.value.value ==
                 if f.rule.FixedCount? then Filling(m.slots[i := Many(r.value.value)], m.seen, Some(i), |r.value.value|)
                 else m.(slots := m.slots[i := Many(r.value.value)])
  {
    EarlierArraysDone(s, slots, i);
    assert WithItems(s, slots, i, n).slots[i] == Many(slots[i].items[..n]);
    assert slots[i].items[..0] == [];
  }

  lemma ItemsStored(s: Schema, slots: seq<Slot>, i: nat, n: nat, k: nat)
    requires TypedSlots(s, slots) && i < |slots| && slots[i].Many? && n <= k <= |slots[i].items| && k > 0
    ensures var m := WithItems(s, slots, i, n);
            WithItems(s, slots, i, k) ==
            if s.fields[i].rule.FixedCount? then Filling(m.slots[i := Many(slots[i].items[..k])], m.seen, Some(i), k)
            else m.(slots := m.slots[i := Many(slots[i].items[..k])])
  {
    var m := AfterFields(s, slots, i);
    assert m.slots[i := Many(slots[i].items[..n])][i := Many(slots[i].items[..k])] == m.slots[i := Many(slots[i].items[..k])];
  }

  lemma PackedSteps(s: Schema, slots: seq<Slot>, i: nat, record: seq<Byte>)
    requires WfSchema(s) && TypedSlots(s, slots) && i < |slots| && TypedSlot(s.fields[i], slots[i])
    requires (s.fields[i].rule.Repeated? || s.fields[i].rule.FixedCount?) && Packable(s.fields[i].kind)
    requires slots[i].items != [] && |slots[i].items| <= MaxItems(s.fields[i])
    requires var run := Packed(s.fields[i].kind, slots[i].items, |slots[i].items|);
             Short(run) && record == Key(s.fields[i].tag, 2) + (Varint(|run.value|) + run.value)
    ensures StepsTo(s, AfterFields(s, slots, i), record, AfterFields(s, slots, i + 1))
  {
    var f, items, m := s.fields[i], slots[i].items, AfterFields(s, slots, i);
    var run := Packed(f.kind, items, |items|).value;
    NoItemsIn(s, slots, i);
    AllItemsIn(s, slots, i);
    ItemsStored(s, slots, i, 0, |items|);
    assert items[..|items|] == items && items[..0] == [] && run + [] == run;
    forall rest: seq<Byte> ensures DecodedTurn(s, m, record + rest) == Go(AfterFields(s, slots, i + 1), rest) {
      TaggedTurn(s, m, i, 2, Varint(|run|) + run, rest);
      ArrayField(s, slots, i, 0, 2, Varint(|run|) + run + rest);
      DelimitedReads(run, rest, "parent stream too short");
      RunDecodes(f.kind, items, |items|, MaxItems(f), []);
    }
  }

  lemma WalksNowhere(s: Schema, m: Filling)
    requires |m.slots| == |s.fields|
    ensures Walks(s, m, [], m)
  {
  }

  lemma {:induction false} ItemsWalk(s: Schema, slots: seq<Slot>, i: nat, n: nat, b: seq<seq<Byte>>)
    requires WfSchema(s) && TypedSlots(s, slots) && i < |slots| && TypedSlot(s.fields[i], slots[i])
    requires (s.fields[i].rule.Repeated? || s.fields[i].rule.FixedCount?) && !Packable(s.fields[i].kind)
    requires n <= |slots[i].items| <= MaxItems(s.fields[i])
    requires PaddedItems(s, s.fields[i], slots[i].items, n, b)
    ensures Walks(s, AfterFields(s, slots, i), b, WithItems(s, slots, i, n))
    decreases s, i, 0, n
  {
    hide WfSchema, PaddedTagged, AllUnknown, Walks, WithItems, AfterFields, TypedValue;
    var f, items, start := s.fields[i], slots[i].items, AfterFields(s, slots, i);
    if n == 0 {
      NoItemsIn(s, slots, i);
      WalksNowhere(s, start);
    } else {
      var a, r, c :|
        PaddedItems(s, f, items, n - 1, a) && PaddedTagged(f, items[n - 1], r) && AllUnknown(s, c) && b == a + [r] + c;
      ItemsWalk(s, slots, i, n - 1, a);
      OneMoreItem(s, slots, i, n, start, a, r, c);
    }
  }

  lemma {:induction false} OneMoreItem(s: Schema, slots: seq<Slot>, i: nat, n: nat, start: Filling, a: seq<seq<Byte>>,
                                       r: seq<Byte>, c: seq<seq<Byte>>)
    requires WfSchema(s) && TypedSlots(s, slots) && i < |slots| && TypedSlot(s.fields[i], slots[i])
    requires (s.fields[i].rule.Repeated? || s.fields[i].rule.FixedCount?) && !Packable(s.fields[i].kind)
    requires 0 < n <= |slots[i].items| <= MaxItems(s.fields[i])
    requires Walks(s, start, a, WithItems(s, slots, i, n - 1)) && PaddedTagged(s.fields[i], slots[i].items[n - 1], r)
    requires AllUnknown(s, c)
    ensures Walks(s, start, a + [r] + c, WithItems(s, slots, i, n))
    decreases s, i, 0, n, 1
  {
    hide WfSchema, TypedSlots, PaddedTagged, AllUnknown, Walks, WithItems, TypedValue, StepsTo;
    ItemSteps(s, slots, i, n, r);
    WalkSnoc(s, start, a, WithItems(s, slots, i, n - 1), r, WithItems(s, slots, i, n));
    UnknownsWalk(s, WithItems(s, slots, i, n), c);
    WalkConcat(s, start, a + [r], WithItems(s, slots, i, n), c, WithItems(s, slots, i, n));
  }

  lemma ItemSteps(s: Schema, slots: seq<Slot>, i: nat, n: nat, record: seq<Byte>)
    requires WfSchema(s) && TypedSlots(s, slots) && i < |slots| && TypedSlot(s.fields[i], slots[i])
    requires (s.fields[i].rule.Repeated? || s.fields[i].rule.FixedCount?) && !Packable(s.fields[i].kind)
    requires 0 < n <= |slots[i].items| <= MaxItems(s.fields[i])
    requires PaddedTagged(s.fields[i], slots[i].items[n - 1], record)
    ensures StepsTo(s, WithItems(s, slots, i, n - 1), record, WithItems(s, slots, i, n))
    decreases s, i, 0, n, 0
  {
    var f, items, m, v := s.fields[i], slots[i].items, WithItems(s, slots, i, n - 1), slots[i].items[n - 1];
    var bytes :| PaddedValue(f.kind, v, bytes) && record == Key(f.tag, WireType(f.kind)) + bytes;
    ItemsStored(s, slots, i, n - 1, n);
    assert items[..n - 1] + [v] == items[..n];
    forall rest: seq<Byte> ensures DecodedTurn(s, m, record + rest) == Go(WithItems(s, slots, i, n), rest) {
      TaggedTurn(s, m, i, WireType(f.kind), bytes, rest);
      ArrayField(s, slots, i, n - 1, WireType(f.kind), bytes + rest);
      ValueDecodes(f.kind, v, bytes, rest, ZeroValue(f.kind));
    }
  }
}
