/** Message descriptions and messages (GMM/Pods/nanopb/pb.h), for statically allocated fields. */
module MessageSchemas {
  import opened InternalKeys
  import opened LogFormat

  /** The scalar type of a field. Widths are in bits; `Bytes` and `Text` carry the room in the struct. */
  datatype Kind =
    | Bool
    | Int(bits: nat)
    | Uint(bits: nat)
    | Sint(bits: nat)
    | Word32
    | Word64
    | Bytes(capacity: nat)
    | Text(size: nat)
    | Message(schema: Schema)
    | FixedBytes(length: nat)

  /** How often a field occurs. `Singular` has no has-flag: absence is the default value. Members of a
      union share its number. */
  datatype Rule = Required | Optional | Singular | Repeated(max: nat) | FixedCount(count: nat) | Oneof(union: nat)

  datatype Field = Field(tag: nat, kind: Kind, rule: Rule, initial: Option<Value>)

  datatype Schema = Schema(fields: seq<Field>)

  /** Numbers, byte strings and nested messages. */
  datatype Value = Scalar(n: int) | Blob(bytes: seq<Byte>) | Nested(slots: seq<Slot>)

  /** What a struct holds for one field. A cleared has-flag or an unselected union member is `Absent`. */
  datatype Slot = One(value: Value) | Absent | Present(value: Value) | Many(items: seq<Value>)

  datatype Result<+T> = Ok(value: T) | Err(message: string)

  datatype Read<+T> = Read(value: T, rest: seq<Byte>)

  /** Half the range of a width: the bound of its signed values. */
  function Half(bits: nat): (r: int)
    ensures r >= 0x80
  {
    if bits == 8 then 0x80 else if bits == 16 then 0x8000 else if bits == 32 then 0x8000_0000
    else 0x8000_0000_0000_0000
  }

  predicate IsWidth(bits: nat) {
    bits == 8 || bits == 16 || bits == 32 || bits == 64
  }

  /** The first six kinds can be packed. */
  predicate Packable(k: Kind) {
    k.Bool? || k.Int? || k.Uint? || k.Sint? || k.Word32? || k.Word64?
  }

  predicate InRange(k: Kind, n: int) {
    match k
    case Bool => n == 0 || n == 1
    case Int(bits) => -Half(bits) <= n < Half(bits)
    case Uint(bits) => 0 <= n < 2 * Half(bits)
    case Sint(bits) => -Half(bits) <= n < Half(bits)
    case Word32 => 0 <= n < 0x1_0000_0000
    case Word64 => 0 <= n < 0x1_0000_0000_0000_0000
    case _ => false
  }

  // ---------- well-formed descriptions ----------

  predicate WfKind(k: Kind)
    decreases k
  {
    match k
    case Int(bits) => IsWidth(bits)
    case Uint(bits) => IsWidth(bits)
    case Sint(bits) => IsWidth(bits)
    case Message(schema) => WfSchema(schema)
    case _ => true
  }

  /** Distinct positive tags that fit a 32-bit key, and no default of its own where a cleared value
      means absence. */
  predicate WfSchema(s: Schema)
    decreases s
  {
    && (forall i :: 0 <= i < |s.fields| ==> WfKind(s.fields[i].kind))
    && (forall i :: 0 <= i < |s.fields| ==> 0 < s.fields[i].tag < 0x2000_0000)
    && (forall i, j :: 0 <= i < j < |s.fields| ==> s.fields[i].tag != s.fields[j].tag)
    && (forall i :: 0 <= i < |s.fields| && s.fields[i].rule.Singular? ==> s.fields[i].initial.None?)
  }

  // ---------- default messages ----------

  function ZeroValue(k: Kind): Value
    decreases k, 1
  {
    match k
    case Message(schema) => Nested(DefaultSlots(schema))
    case Bytes(_) => Blob([])
    case Text(_) => Blob([])
    case FixedBytes(length) => Blob(Zeros(length))
    case _ => Scalar(0)
  }

  /** The value a field has before anything is decoded into it. */
  function DefaultValue(f: Field): Value
    decreases f, 0
  {
    if f.initial.Some? && !f.kind.Message? then f.initial.value else ZeroValue(f.kind)
  }

  function DefaultSlot(f: Field): Slot
    decreases f, 1
  {
    match f.rule
    case Required => One(DefaultValue(f))
    case Singular => One(DefaultValue(f))
    case Optional => Absent
    case Oneof(_) => Absent
    case _ => Many([])
  }

  function DefaultSlots(s: Schema): (slots: seq<Slot>)
    ensures |slots| == |s.fields|
    decreases s
  {
    seq(|s.fields|, i requires 0 <= i < |s.fields| => DefaultSlot(s.fields[i]))
  }

  // ---------- valid messages ----------

  predicate ValidValue(k: Kind, v: Value)
    decreases k, 1
  {
    match k
    case Message(schema) => v.Nested? && ValidSlots(schema, v.slots)
    case Bytes(capacity) => v.Blob? && |v.bytes| <= capacity
    case Text(size) => v.Blob? && |v.bytes| < size && 0 !in v.bytes
    case FixedBytes(length) => v.Blob? && |v.bytes| == length
    case _ => v.Scalar? && InRange(k, v.n)
  }

  predicate ValidSlot(f: Field, slot: Slot)
    decreases f
  {
    match f.rule
    case Required => slot.One? && ValidValue(f.kind, slot.value)
    case Singular => slot.One? && ValidValue(f.kind, slot.value)
    case Optional => slot.Absent? || (slot.Present? && ValidValue(f.kind, slot.value))
    case Oneof(_) => slot.Absent? || (slot.Present? && ValidValue(f.kind, slot.value))
    case Repeated(max) =>
      slot.Many? && |slot.items| <= max && forall i :: 0 <= i < |slot.items| ==> ValidValue(f.kind, slot.items[i])
    case FixedCount(count) =>
      slot.Many? && |slot.items| == count && forall i :: 0 <= i < |slot.items| ==> ValidValue(f.kind, slot.items[i])
  }

  /** At most one member of a union is selected. */
  predicate UnionsApart(s: Schema, slots: seq<Slot>)
    requires |slots| == |s.fields|
  {
    forall i, j :: 0 <= i < j < |s.fields| && s.fields[i].rule.Oneof? && s.fields[j].rule == s.fields[i].rule ==>
      slots[i].Absent? || slots[j].Absent?
  }

  predicate ValidSlots(s: Schema, slots: seq<Slot>)
    decreases s
  {
    && |slots| == |s.fields|
    && (forall i :: 0 <= i < |slots| ==> ValidSlot(s.fields[i], slots[i]))
    && UnionsApart(s, slots)
  }
}

/** Base-128 varints and the conversions around them (pb_encode.c, pb_decode.c). */
module WireFormat {
  import opened InternalKeys
  import opened LogFormat
  import opened Coding
  import opened MessageSchemas

  /** The number written for a scalar of a varint kind: sign-extended to 64 bits, or zigzagged. */
  function Written(k: Kind, n: int): nat
    requires InRange(k, n) && (k.Bool? || k.Int? || k.Uint? || k.Sint?)
  {
    match k
    case Int(_) => if n < 0 then n + TWO_64 else n
    case Sint(_) => if n < 0 then -2 * n - 1 else 2 * n
    case _ => n
  }

  function Signed(w: nat, bits: nat): int {
    if w < Half(bits) then w else w - 2 * Half(bits)
  }

  /** The scalar read from a 64-bit varint; what the field's width cannot hold is refused. Narrow
      signed fields look at the low 32 bits only. */
  function Taken(k: Kind, w: nat): Result<int>
    requires w < TWO_64 && (k.Int? || k.Uint? || k.Sint?)
  {
    var n := match k
             case Int(bits) => if bits == 64 then Signed(w, 64) else Signed(w % 0x1_0000_0000, 32)
             case Sint(_) => if w % 2 == 1 then -(w / 2) - 1 else w / 2
             case _ => w;
    if InRange(k, n) then Ok(n) else Err("integer too large")
  }

  lemma SignExtends(bits: nat, n: int)
    requires IsWidth(bits) && -Half(bits) <= n < Half(bits)
    ensures Written(Int(bits), n) < TWO_64 && Taken(Int(bits), Written(Int(bits), n)) == Ok(n)
  {
    if bits != 64 {
      LowHalf(n);
    }
  }

  lemma LowHalf(n: int)
    requires -0x8000_0000 <= n < 0x8000_0000
    ensures n >= 0 ==> n % 0x1_0000_0000 == n
    ensures n < 0 ==> (n + TWO_64) % 0x1_0000_0000 == n + 0x1_0000_0000
  {
    if n < 0 {
      assert n + TWO_64 == 0x1_0000_0000 * 0xFFFF_FFFF + (n + 0x1_0000_0000);
    }
  }

  lemma ZigZags(bits: nat, n: int)
    requires IsWidth(bits) && -Half(bits) <= n < Half(bits)
    ensures Written(Sint(bits), n) < TWO_64 && Taken(Sint(bits), Written(Sint(bits), n)) == Ok(n)
  {
  }

  /** Conversion there and back, for every width and every value in range. */
  lemma ScalarReadsBack(k: Kind, n: int)
    requires WfKind(k) && InRange(k, n) && (k.Bool? || k.Int? || k.Uint? || k.Sint?)
    ensures Written(k, n) < TWO_64
    ensures !k.Bool? ==> Taken(k, Written(k, n)) == Ok(n)
  {
    if k.Int? {
      SignExtends(k.bits, n);
    } else if k.Sint? {
      ZigZags(k.bits, n);
    }
  }

  /** pb_decode_varint: ten bytes at most, bits beyond the sixty-fourth fall off. */
  function DecodeVarint(input: seq<Byte>): (r: Result<Read<nat>>)
    ensures r.Ok? ==> |r.value.rest| < |input| && r.value.value < TWO_64
  {
    var r := GetVarint64(input);
    if r.None? then Err(if |input| < 10 then "end-of-stream" else "varint overflow")
    else Ok(Read(r.value.value, r.value.rest))
  }

  lemma VarintDecodes(v: nat, rest: seq<Byte>)
    requires v < TWO_64
    ensures DecodeVarint(Varint(v) + rest) == Ok(Read(v, rest))
  {
    Varint64ReadsBack(v, rest);
  }

  /** A group of bits moved to its place in a 32-bit number. */
  function Shifted(v: nat, bitpos: nat): nat {
    if bitpos == 0 then v else if bitpos == 7 then 0x80 * v else if bitpos == 14 then 0x4000 * v
    else if bitpos == 21 then 0x20_0000 * v else 0x1000_0000 * v
  }

  /** pb_decode_varint32_eof from one byte on: `bitpos` is where its bits go in the 32-bit result.
      Later bytes may only be padding: zeros, or the sign extension of a negative number. */
  function Varint32From(input: seq<Byte>, bitpos: nat, result: nat): (r: Result<Read<nat>>)
    requires result < TWO_32
    ensures r.Ok? ==> |r.value.rest| < |input| && r.value.value < TWO_32
    decreases |input|
  {
    if input == [] then Err("end-of-stream")
    else
      var byte := input[0];
      var extension := if bitpos < 63 then 0xFF else 0x01;
      if bitpos >= 32 && byte % 128 != 0 && (result < 0x8000_0000 || byte != extension) then Err("varint overflow")
      else
        var result' := if bitpos >= 32 then result else (result + Shifted(byte % 128, bitpos)) % 0x1_0000_0000;
        if byte >= 128 then Varint32From(input[1..], bitpos + 7, result')
        else if bitpos == 28 && byte / 16 % 8 != 0 then Err("varint overflow")
        else Ok(Read(result', input[1..]))
  }

  function DecodeVarint32(input: seq<Byte>): (r: Result<Read<nat>>)
    ensures r.Ok? ==> |r.value.rest| < |input| && r.value.value < TWO_32
  {
    Varint32From(input, 0, 0)
  }

  predicate GroupStart(bitpos: nat) {
    bitpos == 0 || bitpos == 7 || bitpos == 14 || bitpos == 21 || bitpos == 28
  }

  lemma LastGroup(byte: Byte, rest: seq<Byte>, bitpos: nat, result: nat)
    requires GroupStart(bitpos) && byte < 128 && result < Shifted(1, bitpos) && result + Shifted(byte, bitpos) < TWO_32
    ensures Varint32From([byte] + rest, bitpos, result) == Ok(Read(result + Shifted(byte, bitpos), rest))
  {
    assert ([byte] + rest)[1..] == rest;
  }

  /** One seven-bit group moved from the number still to come into the number read. */
  lemma SameTotal(v: nat, bitpos: nat, result: nat)
    requires GroupStart(bitpos) && bitpos < 28 && result < Shifted(1, bitpos)
    ensures result + Shifted(v, bitpos) == result + Shifted(v % 128, bitpos) + Shifted(v / 128, bitpos + 7)
    ensures result + Shifted(v % 128, bitpos) < Shifted(1, bitpos + 7) <= 0x1000_0000
  {
    assert v == v % 128 + 128 * (v / 128);
  }

  lemma NextGroup(byte: Byte, tail: seq<Byte>, bitpos: nat, result: nat)
    requires GroupStart(bitpos) && bitpos < 28 && byte >= 128 && result + Shifted(byte - 128, bitpos) < TWO_32
    ensures Varint32From([byte] + tail, bitpos, result) ==
            Varint32From(tail, bitpos + 7, result + Shifted(byte - 128, bitpos))
  {
    hide Shifted;
    assert ([byte] + tail)[1..] == tail;
    assert byte % 128 == byte - 128;
  }

  lemma {:induction false} Varint32FromDecodes(v: nat, rest: seq<Byte>, bitpos: nat, result: nat)
    requires GroupStart(bitpos) && result < Shifted(1, bitpos) && result + Shifted(v, bitpos) < TWO_32
    ensures Varint32From(Varint(v) + rest, bitpos, result) == Ok(Read(result + Shifted(v, bitpos), rest))
    decreases 28 - bitpos
  {
    if v < 128 {
      LastGroup(v, rest, bitpos, result);
    } else if bitpos < 28 {
      hide Shifted;
      VarintContinues(v, rest);
      SameTotal(v, bitpos, result);
      NextGroup(v % 128 + 128, Varint(v / 128) + rest, bitpos, result);
      Varint32FromDecodes(v / 128, rest, bitpos + 7, result + Shifted(v % 128, bitpos));
    }
  }

  /** Every 32-bit number written as a varint is read back. */
  lemma Varint32Decodes(v: nat, rest: seq<Byte>)
    requires v < TWO_32
    ensures DecodeVarint32(Varint(v) + rest) == Ok(Read(v, rest))
  {
    Varint32FromDecodes(v, rest, 0, 0);
  }
}

/** The encoder (pb_encode.c): what a message's bytes are, and the stream that counts or writes them. */
module MessageEncoder {
  import opened InternalKeys
  import opened LogFormat
  import opened Coding
  import opened MessageSchemas
  import opened WireFormat

  // ---------- structs the encoder can be given ----------

  /** What the C types alone guarantee: array counts and byte counts may still be too large, and a
      text may fill its buffer to the last byte; a union selects one member. */
  predicate TypedValue(k: Kind, v: Value)
    decreases k, 1
  {
    match k
    case Message(schema) => v.Nested? && TypedSlots(schema, v.slots)
    case Bytes(_) => v.Blob?
    case Text(size) => v.Blob? && |v.bytes| <= size && 0 !in v.bytes
    case FixedBytes(length) => v.Blob? && |v.bytes| == length
    case _ => v.Scalar? && InRange(k, v.n)
  }

  predicate TypedSlot(f: Field, slot: Slot)
    decreases f
  {
    match f.rule
    case Required => slot.One? && TypedValue(f.kind, slot.value)
    case Singular => slot.One? && TypedValue(f.kind, slot.value)
    case Optional => slot.Absent? || (slot.Present? && TypedValue(f.kind, slot.value))
    case Oneof(_) => slot.Absent? || (slot.Present? && TypedValue(f.kind, slot.value))
    case Repeated(_) => slot.Many? && forall i :: 0 <= i < |slot.items| ==> TypedValue(f.kind, slot.items[i])
    case FixedCount(count) =>
      slot.Many? && |slot.items| == count && forall i :: 0 <= i < |slot.items| ==> TypedValue(f.kind, slot.items[i])
  }

  predicate TypedSlots(s: Schema, slots: seq<Slot>)
    decreases s
  {
    && |slots| == |s.fields|
    && (forall i :: 0 <= i < |slots| ==> TypedSlot(s.fields[i], slots[i]))
    && UnionsApart(s, slots)
  }

  // ---------- values that stand for absence ----------

  /** pb_check_proto3_default_value. */
  predicate Cleared(f: Field, slot: Slot)
    requires TypedSlot(f, slot)
    decreases f
  {
    match f.rule
    case Required => false
    case Repeated(_) => slot.items == []
    case FixedCount(_) => false
    case Oneof(_) => slot.Absent?
    case Optional => slot.Absent?
    case Singular => ClearedValue(f.kind, slot.value)
  }

  predicate ClearedValue(k: Kind, v: Value)
    requires TypedValue(k, v)
    decreases k, 1
  {
    match k
    case Bytes(_) => v.bytes == []
    case Text(_) => v.bytes == []
    case FixedBytes(length) => length == 0
    case Message(schema) =>
      assert TypedSlots(schema, v.slots);
      forall i :: 0 <= i < |schema.fields| ==> Cleared(schema.fields[i], v.slots[i])
    case _ => v.n == 0
  }

  // ---------- the bytes of a message ----------

  function WireType(k: Kind): nat {
    match k
    case Word32 => 5
    case Word64 => 1
    case Bytes(_) => 2
    case Text(_) => 2
    case Message(_) => 2
    case FixedBytes(_) => 2
    case _ => 0
  }

  function Key(tag: nat, wireType: nat): seq<Byte> {
    Varint(8 * tag + wireType)
  }

  function Then(a: Result<seq<Byte>>, b: Result<seq<Byte>>): Result<seq<Byte>> {
    if a.Err? then a else if b.Err? then b else Ok(a.value + b.value)
  }

  function Delimited(body: Result<seq<Byte>>): Result<seq<Byte>> {
    if body.Err? then body else Ok(Varint(|body.value|) + body.value)
  }

  function Encoded(k: Kind, v: Value): Result<seq<Byte>>
    requires TypedValue(k, v)
    decreases k, 3
  {
    match k
    case Word32 => Ok(Fixed32(v.n))
    case Word64 => Ok(Fixed64(v.n))
    case Bytes(capacity) => if |v.bytes| > capacity then Err("bytes size exceeded") else Delimited(Ok(v.bytes))
    case Text(_) => Delimited(Ok(v.bytes))
    case FixedBytes(_) => Delimited(Ok(v.bytes))
    case Message(schema) => Delimited(EncodedFields(schema, v.slots, |schema.fields|))
    case _ => Ok(Varint(Written(k, v.n)))
  }

  /** The first `n` items, one after the other: the payload of a packed array. */
  function Packed(k: Kind, items: seq<Value>, n: nat): Result<seq<Byte>>
    requires n <= |items| && forall i :: 0 <= i < |items| ==> TypedValue(k, items[i])
    decreases k, 4, n
  {
    if n == 0 then Ok([]) else Then(Packed(k, items, n - 1), Encoded(k, items[n - 1]))
  }

  /** The first `n` items, each behind its own key. */
  function Unpacked(f: Field, items: seq<Value>, n: nat): Result<seq<Byte>>
    requires n <= |items| && forall i :: 0 <= i < |items| ==> TypedValue(f.kind, items[i])
    decreases f, 1, n
  {
    if n == 0 then Ok([]) else Then(Unpacked(f, items, n - 1), Tagged(f, items[n - 1]))
  }

  function Tagged(f: Field, v: Value): Result<seq<Byte>>
    requires TypedValue(f.kind, v)
    decreases f, 0
  {
    Then(Ok(Key(f.tag, WireType(f.kind))), Encoded(f.kind, v))
  }

  function EncodedArray(f: Field, items: seq<Value>, max: nat): Result<seq<Byte>>
    requires forall i :: 0 <= i < |items| ==> TypedValue(f.kind, items[i])
    decreases f, 2
  {
    if items == [] then Ok([])
    else if |items| > max then Err("array max size exceeded")
    else if Packable(f.kind) then Then(Ok(Key(f.tag, 2)), Delimited(Packed(f.kind, items, |items|)))
    else Unpacked(f, items, |items|)
  }

  function EncodedField(f: Field, slot: Slot): Result<seq<Byte>>
    requires TypedSlot(f, slot)
    decreases f, 3
  {
    match f.rule
    case Required => Tagged(f, slot.value)
    case Singular => if ClearedValue(f.kind, slot.value) then Ok([]) else Tagged(f, slot.value)
    case Optional => if slot.Absent? then Ok([]) else Tagged(f, slot.value)
    case Oneof(_) => if slot.Absent? then Ok([]) else Tagged(f, slot.value)
    case Repeated(max) => EncodedArray(f, slot.items, max)
    case FixedCount(count) => EncodedArray(f, slot.items, count)
  }

  function EncodedFields(s: Schema, slots: seq<Slot>, n: nat): Result<seq<Byte>>
    requires TypedSlots(s, slots) && n <= |slots|
    decreases s, n
  {
    if n == 0 then Ok([]) else Then(EncodedFields(s, slots, n - 1), EncodedField(s.fields[n - 1], slots[n - 1]))
  }
}

/** The encoder at work on an output stream. */
module MessageWriter {
  import opened InternalKeys
  import opened LogFormat
  import opened Coding
  import opened MessageSchemas
  import opened WireFormat
  import opened MessageEncoder

  /** An encoder that owes `r` succeeds exactly when there is something to write and room for it, and
      then has written, or on a sizing stream counted, just that. */
  predicate Did(sizing: bool, maxSize: nat, r: Result<seq<Byte>>, ok: bool,
                written0: nat, out0: seq<Byte>, written: nat, out: seq<Byte>)
  {
    && (ok <==> r.Ok? && (sizing || written0 + |r.value| <= maxSize))
    && (ok ==> written == written0 + |r.value| && out == (if sizing then out0 else out0 + r.value))
  }

  lemma DidThen(sizing: bool, maxSize: nat, a: Result<seq<Byte>>, b: Result<seq<Byte>>, ok: bool, w0: nat, o0: seq<Byte>,
                w1: nat, o1: seq<Byte>, w2: nat, o2: seq<Byte>)
    requires Did(sizing, maxSize, a, true, w0, o0, w1, o1) && Did(sizing, maxSize, b, ok, w1, o1, w2, o2)
    ensures Did(sizing, maxSize, Then(a, b), ok, w0, o0, w2, o2)
  {
    if ok && !sizing {
      assert o0 + a.value + b.value == o0 + (a.value + b.value);
    }
  }

  lemma DidNot(sizing: bool, maxSize: nat, a: Result<seq<Byte>>, b: Result<seq<Byte>>, w0: nat, o0: seq<Byte>,
               w1: nat, o1: seq<Byte>, w2: nat, o2: seq<Byte>)
    requires Did(sizing, maxSize, a, false, w0, o0, w1, o1)
    ensures Did(sizing, maxSize, Then(a, b), false, w0, o0, w2, o2)
  {
  }

  /** The loop of pb_encode_varint: seven bits at a time, the top bit set on all but the last. */
  method VarintGroups(value: nat) returns (buffer: seq<Byte>)
    ensures buffer == Varint(value)
  {
    if value <= 0x7F {
      return [value];
    }
    buffer := [];
    var v: nat := value;
    while v > 0
      invariant v == 0 ==> buffer != [] && buffer[|buffer| - 1] >= 128 &&
                           Varint(value) == buffer[..|buffer| - 1] + [buffer[|buffer| - 1] - 128]
      invariant v > 0 ==> Varint(value) == buffer + Varint(v)
      decreases v
    {
      ghost var before := buffer;
      buffer := buffer + [v % 128 + 128];
      assert buffer[..|buffer| - 1] == before;
      MoreGroups(before, v);
      v := v / 128;
    }
    ghost var n := |buffer| - 1;
    assert buffer[n := buffer[n] - 128] == buffer[..n] + [buffer[n] - 128];
    buffer := buffer[|buffer| - 1 := buffer[|buffer| - 1] - 128];
  }

  lemma MoreGroups(before: seq<Byte>, v: nat)
    ensures v >= 128 ==> before + Varint(v) == before + [v % 128 + 128] + Varint(v / 128)
  {
  }

  class OStream {
    const sizing: bool
    const maxSize: nat
    var out: seq<Byte>
    var written: nat
    var errmsg: Option<string>

    constructor (sizing: bool, maxSize: nat)
      ensures Valid() && out == [] && written == 0 && errmsg.None?
      ensures this.sizing == sizing && this.maxSize == maxSize
    {
      this.sizing, this.maxSize, out, written, errmsg := sizing, maxSize, [], 0, None;
    }

    predicate Valid()
      reads this
    {
      if sizing then out == [] else |out| == written <= maxSize
    }

    ghost predicate Owes(r: Result<seq<Byte>>, ok: bool, written0: nat, out0: seq<Byte>)
      reads this
    {
      Did(sizing, maxSize, r, ok, written0, out0, written, out) && (!ok ==> errmsg.Some?)
    }

    /** PB_SET_ERROR keeps the first message. */
    method SetError(message: string)
      modifies this`errmsg
      ensures errmsg.Some?
    {
      if errmsg.None? {
        errmsg := Some(message);
      }
    }

    method Write(buf: seq<Byte>) returns (ok: bool)
      requires Valid()
      modifies this
      ensures Valid() && Owes(Ok(buf), ok, old(written), old(out))
    {
      if |buf| > 0 && !sizing {
        if written + |buf| > maxSize {
          SetError("stream full");
          return false;
        }
        out := out + buf;
      }
      written := written + |buf|;
      ok := true;
    }

    /** Writing without a buffer, on a sizing stream only. */
    method Advance(count: nat)
      requires Valid() && sizing
      modifies this`written
      ensures Valid() && written == old(written) + count
    {
      written := written + count;
    }

    method EncodeVarint(value: nat) returns (ok: bool)
      requires Valid()
      modifies this
      ensures Valid() && Owes(Ok(Varint(value)), ok, old(written), old(out))
    {
      var buffer := VarintGroups(value);
      ok := Write(buffer);
    }

    method EncodeTag(tag: nat, wireType: nat) returns (ok: bool)
      requires Valid()
      modifies this
      ensures Valid() && Owes(Ok(Key(tag, wireType)), ok, old(written), old(out))
    {
      ok := EncodeVarint(8 * tag + wireType);
    }

    method EncodeString(buffer: seq<Byte>) returns (ok: bool)
      requires Valid()
      modifies this
      ensures Valid() && Owes(Delimited(Ok(buffer)), ok, old(written), old(out))
    {
      ghost var w0, o0 := written, out;
      ok := EncodeVarint(|buffer|);
      ghost var w1, o1 := written, out;
      if !ok {
        DidNot(sizing, maxSize, Ok(Varint(|buffer|)), Ok(buffer), w0, o0, w1, o1, w1, o1);
        return;
      }
      ok := Write(buffer);
      DidThen(sizing, maxSize, Ok(Varint(|buffer|)), Ok(buffer), ok, w0, o0, w1, o1, written, out);
    }

    // ---------- one field ----------

    /** pb_encode_submessage: a sizing pass over the message, its length, and then the message again
        through a substream of exactly that size. */
    method EncodeSubmessage(schema: Schema, slots: seq<Slot>) returns (ok: bool)
      requires Valid() && WfSchema(schema) && TypedSlots(schema, slots)
      modifies this
      ensures Valid() && Owes(Delimited(EncodedFields(schema, slots, |slots|)), ok, old(written), old(out))
      decreases schema, 5
    {
      ghost var body := EncodedFields(schema, slots, |slots|);
      var sizestream := new OStream(true, 0);
      ok := sizestream.Encode(schema, slots);
      if !ok {
        errmsg := sizestream.errmsg;
        return;
      }
      var size := sizestream.written;
      ghost var w0, o0 := written, out;
      ok := EncodeVarint(size);
      ghost var w1, o1 := written, out;
      if !ok {
        DidNot(sizing, maxSize, Ok(Varint(size)), body, w0, o0, w1, o1, w1, o1);
        return;
      }
      if sizing {
        Advance(size);
        DidThen(sizing, maxSize, Ok(Varint(size)), body, true, w0, o0, w1, o1, written, out);
        return true;
      }
      if written + size > maxSize {
        SetError("stream full");
        DidThen(sizing, maxSize, Ok(Varint(size)), body, false, w0, o0, w1, o1, written, out);
        return false;
      }
      var substream := new OStream(false, size);
      ok := substream.Encode(schema, slots);
      written := written + substream.written;
      out := out + substream.out;
      errmsg := substream.errmsg;
      DidThen(sizing, maxSize, Ok(Varint(size)), body, ok, w0, o0, w1, o1, written, out);
      // "submsg size changed" cannot happen.
      if substream.written != size {
        assert false;
      }
    }

    /** The encoder of the field's kind. */
    method EncodeValue(k: Kind, v: Value) returns (ok: bool)
      requires Valid() && WfKind(k) && TypedValue(k, v)
      modifies this
      ensures Valid() && Owes(Encoded(k, v), ok, old(written), old(out))
      decreases k, 0
    {
      match k
      case Word32 => ok := Write(Fixed32(v.n));
      case Word64 => ok := Write(Fixed64(v.n));
      case Bytes(capacity) =>
        if |v.bytes| > capacity {
          SetError("bytes size exceeded");
          return false;
        }
        ok := EncodeString(v.bytes);
      case Text(_) => ok := EncodeString(v.bytes);
      case FixedBytes(_) => ok := EncodeString(v.bytes);
      case Message(schema) => ok := EncodeSubmessage(schema, v.slots);
      case _ =>
        ok := EncodeVarint(Written(k, v.n));
    }

    method EncodeTagged(f: Field, v: Value) returns (ok: bool)
      requires Valid() && WfKind(f.kind) && TypedValue(f.kind, v)
      modifies this
      ensures Valid() && Owes(Tagged(f, v), ok, old(written), old(out))
      decreases f, 0
    {
      ghost var w0, o0 := written, out;
      ok := EncodeTag(f.tag, WireType(f.kind));
      ghost var w1, o1, key := written, out, Ok(Key(f.tag, WireType(f.kind)));
      if !ok {
        DidNot(sizing, maxSize, key, Encoded(f.kind, v), w0, o0, w1, o1, w1, o1);
        return;
      }
      ok := EncodeValue(f.kind, v);
      DidThen(sizing, maxSize, key, Encoded(f.kind, v), ok, w0, o0, w1, o1, written, out);
    }

    /** encode_array: packable kinds become one length-delimited run, sized by its own pass. */
    method EncodeArray(f: Field, items: seq<Value>, max: nat) returns (ok: bool)
      requires Valid() && WfKind(f.kind) && forall i :: 0 <= i < |items| ==> TypedValue(f.kind, items[i])
      modifies this
      ensures Valid() && Owes(EncodedArray(f, items, max), ok, old(written), old(out))
      decreases f, 2
    {
      if |items| == 0 {
        return true;
      }
      if |items| > max {
        SetError("array max size exceeded");
        return false;
      }
      if Packable(f.kind) {
        ok := EncodePacked(f, items);
      } else {
        ok := EncodeUnpacked(f, items);
      }
    }

    method EncodePacked(f: Field, items: seq<Value>) returns (ok: bool)
      requires Valid() && WfKind(f.kind) && Packable(f.kind)
      requires forall i :: 0 <= i < |items| ==> TypedValue(f.kind, items[i])
      modifies this
      ensures Valid()
      ensures Owes(Then(Ok(Key(f.tag, 2)), Delimited(Packed(f.kind, items, |items|))), ok, old(written), old(out))
      decreases f, 1
    {
      ghost var payload := Packed(f.kind, items, |items|);
      PackedSize(f.kind, items, |items|);
      ghost var w0, o0 := written, out;
      ok := EncodeTag(f.tag, 2);
      ghost var w1, o1 := written, out;
      if !ok {
        DidNot(sizing, maxSize, Ok(Key(f.tag, 2)), Delimited(payload), w0, o0, w1, o1, w1, o1);
        return;
      }
      var size: nat;
      if f.kind.Word32? {
        size := 4 * |items|;
      } else if f.kind.Word64? {
        size := 8 * |items|;
      } else {
        var sizestream := new OStream(true, 0);
        ok := sizestream.EncodeItems(f.kind, items);
        assert ok;
        size := sizestream.written;
      }
      ok := EncodeVarint(size);
      ghost var w2, o2 := written, out;
      if !ok {
        DidNot(sizing, maxSize, Ok(Varint(size)), payload, w1, o1, w2, o2, w2, o2);
      } else if sizing {
        Advance(size);
        DidThen(sizing, maxSize, Ok(Varint(size)), payload, true, w1, o1, w2, o2, written, out);
      } else {
        ok := EncodeItems(f.kind, items);
        DidThen(sizing, maxSize, Ok(Varint(size)), payload, ok, w1, o1, w2, o2, written, out);
      }
      DidThen(sizing, maxSize, Ok(Key(f.tag, 2)), Delimited(payload), ok, w0, o0, w1, o1, written, out);
    }

    /** The items of a packed array, one after the other. */
    method EncodeItems(k: Kind, items: seq<Value>) returns (ok: bool)
      requires Valid() && WfKind(k) && forall i :: 0 <= i < |items| ==> TypedValue(k, items[i])
      modifies this
      ensures Valid() && Owes(Packed(k, items, |items|), ok, old(written), old(out))
      decreases k, 1
    {
      ghost var w0, o0 := written, out;
      ok := true;
      var i := 0;
      while i < |items|
        invariant 0 <= i <= |items| && Valid()
        invariant Did(sizing, maxSize, Packed(k, items, i), true, w0, o0, written, out)
      {
        ghost var w1, o1 := written, out;
        ok := EncodeValue(k, items[i]);
        DidThen(sizing, maxSize, Packed(k, items, i), Encoded(k, items[i]), ok, w0, o0, w1, o1, written, out);
        if !ok {
          PackedStops(sizing, maxSize, k, items, i + 1, w0, o0, written, out);
          return;
        }
        i := i + 1;
      }
    }

    method EncodeUnpacked(f: Field, items: seq<Value>) returns (ok: bool)
      requires Valid() && WfKind(f.kind) && forall i :: 0 <= i < |items| ==> TypedValue(f.kind, items[i])
      modifies this
      ensures Valid() && Owes(Unpacked(f, items, |items|), ok, old(written), old(out))
      decreases f, 1
    {
      ghost var w0, o0 := written, out;
      ok := true;
      var i := 0;
      while i < |items|
        invariant 0 <= i <= |items| && Valid()
        invariant Did(sizing, maxSize, Unpacked(f, items, i), true, w0, o0, written, out)
      {
        ghost var w1, o1 := written, out;
        ok := EncodeTagged(f, items[i]);
        DidThen(sizing, maxSize, Unpacked(f, items, i), Tagged(f, items[i]), ok, w0, o0, w1, o1, written, out);
        if !ok {
          UnpackedStops(sizing, maxSize, f, items, i + 1, w0, o0, written, out);
          return;
        }
        i := i + 1;
      }
    }

    /** encode_basic_field: presence decides, then the key and the value. */
    method EncodeField(f: Field, slot: Slot) returns (ok: bool)
      requires Valid() && WfKind(f.kind) && TypedSlot(f, slot)
      modifies this
      ensures Valid() && Owes(EncodedField(f, slot), ok, old(written), old(out))
      decreases f, 3
    {
      ok := true;
      match f.rule
      case Required => ok := EncodeTagged(f, slot.value);
      case Singular =>
        if !ClearedValue(f.kind, slot.value) {
          ok := EncodeTagged(f, slot.value);
        }
      case Optional =>
        if slot.Present? {
          ok := EncodeTagged(f, slot.value);
        }
      case Oneof(_) =>
        if slot.Present? {
          ok := EncodeTagged(f, slot.value);
        }
      case Repeated(max) => ok := EncodeArray(f, slot.items, max);
      case FixedCount(count) => ok := EncodeArray(f, slot.items, count);
    }

    /** pb_encode: every field in the order of the description. */
    method Encode(schema: Schema, slots: seq<Slot>) returns (ok: bool)
      requires Valid() && WfSchema(schema) && TypedSlots(schema, slots)
      modifies this
      ensures Valid() && Owes(EncodedFields(schema, slots, |slots|), ok, old(written), old(out))
      decreases schema, 4
    {
      ghost var w0, o0 := written, out;
      ok := true;
      var i := 0;
      while i < |schema.fields|
        invariant 0 <= i <= |slots| && Valid()
        invariant Did(sizing, maxSize, EncodedFields(schema, slots, i), true, w0, o0, written, out)
      {
        ghost var w1, o1 := written, out;
        ok := EncodeField(schema.fields[i], slots[i]);
        DidThen(sizing, maxSize, EncodedFields(schema, slots, i), EncodedField(schema.fields[i], slots[i]), ok,
                w0, o0, w1, o1, written, out);
        if !ok {
          FieldsStop(sizing, maxSize, schema, slots, i + 1, w0, o0, written, out);
          return;
        }
        i := i + 1;
      }
    }
  }

  /** pb_get_encoded_size: the sizing pass alone. */
  method GetEncodedSize(schema: Schema, slots: seq<Slot>) returns (ok: bool, size: nat)
    requires WfSchema(schema) && TypedSlots(schema, slots)
    ensures ok <==> EncodedFields(schema, slots, |slots|).Ok?
    ensures ok ==> size == |EncodedFields(schema, slots, |slots|).value|
  {
    var stream := new OStream(true, 0);
    ok := stream.Encode(schema, slots);
    size := stream.written;
  }

  // ---------- what a failure part-way means for the whole ----------

  lemma {:induction false} PackedStops(sizing: bool, maxSize: nat, k: Kind, items: seq<Value>, n: nat,
                                       w0: nat, o0: seq<Byte>, w: nat, o: seq<Byte>)
    requires n <= |items| && forall i :: 0 <= i < |items| ==> TypedValue(k, items[i])
    requires Did(sizing, maxSize, Packed(k, items, n), false, w0, o0, w, o)
    ensures Did(sizing, maxSize, Packed(k, items, |items|), false, w0, o0, w, o)
    decreases |items| - n
  {
    if n < |items| {
      DidNot(sizing, maxSize, Packed(k, items, n), Encoded(k, items[n]), w0, o0, w, o, w, o);
      PackedStops(sizing, maxSize, k, items, n + 1, w0, o0, w, o);
    }
  }

  lemma {:induction false} UnpackedStops(sizing: bool, maxSize: nat, f: Field, items: seq<Value>, n: nat,
                                         w0: nat, o0: seq<Byte>, w: nat, o: seq<Byte>)
    requires n <= |items| && forall i :: 0 <= i < |items| ==> TypedValue(f.kind, items[i])
    requires Did(sizing, maxSize, Unpacked(f, items, n), false, w0, o0, w, o)
    ensures Did(sizing, maxSize, Unpacked(f, items, |items|), false, w0, o0, w, o)
    decreases |items| - n
  {
    if n < |items| {
      DidNot(sizing, maxSize, Unpacked(f, items, n), Tagged(f, items[n]), w0, o0, w, o, w, o);
      UnpackedStops(sizing, maxSize, f, items, n + 1, w0, o0, w, o);
    }
  }

  lemma {:induction false} FieldsStop(sizing: bool, maxSize: nat, s: Schema, slots: seq<Slot>, n: nat,
                                      w0: nat, o0: seq<Byte>, w: nat, o: seq<Byte>)
    requires TypedSlots(s, slots) && n <= |slots|
    requires Did(sizing, maxSize, EncodedFields(s, slots, n), false, w0, o0, w, o)
    ensures Did(sizing, maxSize, EncodedFields(s, slots, |slots|), false, w0, o0, w, o)
    decreases |slots| - n
  {
    if n < |slots| {
      DidNot(sizing, maxSize, EncodedFields(s, slots, n), EncodedField(s.fields[n], slots[n]), w0, o0, w, o, w, o);
      FieldsStop(sizing, maxSize, s, slots, n + 1, w0, o0, w, o);
    }
  }

  /** Packable items always encode, the fixed-width ones to a fixed number of bytes each. */
  lemma {:induction false} PackedSize(k: Kind, items: seq<Value>, n: nat)
    requires Packable(k) && n <= |items| && forall i :: 0 <= i < |items| ==> TypedValue(k, items[i])
    ensures Packed(k, items, n).Ok?
    ensures k.Word32? ==> |Packed(k, items, n).value| == 4 * n
    ensures k.Word64? ==> |Packed(k, items, n).value| == 8 * n
  {
    if n > 0 {
      PackedSize(k, items, n - 1);
    }
  }
}

/** The decoder (pb_decode.c): what an input means for a message being filled in. */
module MessageDecoder {
  import opened InternalKeys
  import opened LogFormat
  import opened Coding
  import opened MessageSchemas
  import opened WireFormat

  const MAX_REQUIRED: nat := 64

  // ---------- reading and skipping ----------

  /** pb_make_string_substream and pb_close_string_substream: the bytes of a length-delimited value. */
  function TakeDelimited(input: seq<Byte>, shortage: string): (r: Result<Read<seq<Byte>>>)
    ensures r.Ok? ==> |r.value.rest| < |input| && |r.value.value| < |input|
  {
    var size := DecodeVarint32(input);
    if size.Err? then Err(size.message)
    else if |size.value.rest| < size.value.value then Err(shortage)
    else Ok(Read(size.value.rest[..size.value.value], size.value.rest[size.value.value..]))
  }

  function SkipVarint(input: seq<Byte>): (r: Result<seq<Byte>>)
    ensures r.Ok? ==> |r.value| < |input|
  {
    if input == [] then Err("end-of-stream")
    else if input[0] < 128 then Ok(input[1..])
    else SkipVarint(input[1..])
  }

  /** pb_skip_field: past the value of a field nobody knows. */
  function SkipField(input: seq<Byte>, wireType: nat): (r: Result<seq<Byte>>)
    ensures r.Ok? ==> |r.value| <= |input|
  {
    if wireType == 0 then SkipVarint(input)
    else if wireType == 1 then (if |input| < 8 then Err("end-of-stream") else Ok(input[8..]))
    else if wireType == 2 then
      var r := TakeDelimited(input, "end-of-stream");
      if r.Err? then Err(r.message) else Ok(r.value.rest)
    else if wireType == 5 then (if |input| < 4 then Err("end-of-stream") else Ok(input[4..]))
    else Err("invalid wire_type")
  }

  // ---------- a message being decoded ----------

  /** The position of a tag in the description, or the number of fields. */
  function FindField(s: Schema, tag: nat, from: nat): (i: nat)
    requires from <= |s.fields|
    ensures i <= |s.fields| && (i < |s.fields| ==> s.fields[i].tag == tag)
    ensures forall j :: from <= j < i ==> s.fields[j].tag != tag
    decreases |s.fields| - from
  {
    if from == |s.fields| then from
    else if s.fields[from].tag == tag then from
    else FindField(s, tag, from + 1)
  }

  /** How many required fields come before position `i`. */
  function RequiredBefore(s: Schema, i: nat): nat
    requires i <= |s.fields|
  {
    if i == 0 then 0 else RequiredBefore(s, i - 1) + if s.fields[i - 1].rule.Required? then 1 else 0
  }

  /** The struct, the required fields seen, and the array of fixed count being filled. */
  datatype Filling = Filling(slots: seq<Slot>, seen: set<nat>, fixed: Option<nat>, fixedSize: nat)

  function Cut(bytes: seq<Byte>): seq<Byte> {
    if bytes == [] || bytes[0] == 0 then [] else [bytes[0]] + Cut(bytes[1..])
  }

  /** The value's old content matters only for a message, whose fields are merged into. */
  function Base(k: Kind, v: Value): Value {
    if k.Message? && !(v.Nested? && |v.slots| == |k.schema.fields|) then ZeroValue(k) else v
  }

  function DecodedScalar(k: Kind, input: seq<Byte>): (r: Result<Read<Value>>)
    requires Packable(k)
    ensures r.Ok? ==> |r.value.rest| < |input| && r.value.value.Scalar?
  {
    match k
    case Bool =>
      var r := DecodeVarint32(input);
      if r.Err? then Err(r.message) else Ok(Read(Scalar(if r.value.value == 0 then 0 else 1), r.value.rest))
    case Word32 =>
      if |input| < 4 then Err("end-of-stream") else Ok(Read(Scalar(DecodeFixed32(input[..4])), input[4..]))
    case Word64 =>
      if |input| < 8 then Err("end-of-stream") else Ok(Read(Scalar(DecodeFixed64(input[..8])), input[8..]))
    case _ =>
      var r := DecodeVarint(input);
      if r.Err? then Err(r.message)
      else
        var n := Taken(k, r.value.value);
        if n.Err? then Err(n.message) else Ok(Read(Scalar(n.value), r.value.rest))
  }

  function DecodedBlob(k: Kind, input: seq<Byte>): (r: Result<Read<Value>>)
    requires k.Bytes? || k.Text? || k.FixedBytes?
    ensures r.Ok? ==> |r.value.rest| < |input| && r.value.value.Blob?
  {
    var size := DecodeVarint32(input);
    if size.Err? then Err(size.message)
    else
      var n, rest := size.value.value, size.value.rest;
      if k.Bytes? && n > k.capacity then Err("bytes overflow")
      else if k.Text? && n + 1 > k.size then Err("string overflow")
      else if k.FixedBytes? && n == 0 then Ok(Read(Blob(Zeros(k.length)), rest))
      else if k.FixedBytes? && n != k.length then Err("incorrect fixed length bytes size")
      else if |rest| < n then Err("end-of-stream")
      else Ok(Read(Blob(if k.Text? then Cut(rest[..n]) else rest[..n]), rest[n..]))
  }

  function DecodedValue(k: Kind, input: seq<Byte>, into: Value): (r: Result<Read<Value>>)
    ensures r.Ok? ==> |r.value.rest| < |input|
    decreases k, 0
  {
    if Packable(k) then DecodedScalar(k, input)
    else if !k.Message? then DecodedBlob(k, input)
    else
      var body := TakeDelimited(input, "parent stream too short");
      if body.Err? then Err(body.message)
      else
        var m := Decoded(k.schema, Base(k, into).slots, body.value.value);
        if m.Err? then Err(m.message) else Ok(Read(Nested(m.value), body.value.rest))
  }

  /** The loop over a packed array. */
  function DecodedRun(k: Kind, input: seq<Byte>, items: seq<Value>, max: nat): Result<seq<Value>>
    requires Packable(k)
    decreases |input|
  {
    if input == [] then Ok(items)
    else if |items| >= max then Err("array overflow")
    else
      var r := DecodedScalar(k, input);
      if r.Err? then Err(r.message) else DecodedRun(k, r.value.rest, items + [r.value.value], max)
  }

  function DecodedItems(f: Field, wireType: nat, input: seq<Byte>, items: seq<Value>, max: nat): (r: Result<Read<seq<Value>>>)
    ensures r.Ok? ==> |r.value.rest| < |input|
    decreases f, 0
  {
    if wireType == 2 && Packable(f.kind) then
      var body := TakeDelimited(input, "parent stream too short");
      if body.Err? then Err(body.message)
      else
        var run := DecodedRun(f.kind, body.value.value, items, max);
        if run.Err? then Err(run.message) else Ok(Read(run.value, body.value.rest))
    else if |items| >= max then Err("array overflow")
    else
      var r := DecodedValue(f.kind, input, ZeroValue(f.kind));
      if r.Err? then Err(r.message) else Ok(Read(items + [r.value.value], r.value.rest))
  }

  /** A member of a union is selected: the others are gone. */
  function Selected(s: Schema, slots: seq<Slot>, i: nat): (r: seq<Slot>)
    requires i < |s.fields| == |slots|
    ensures |r| == |slots|
  {
    seq(|slots|, j requires 0 <= j < |slots| => if j != i && s.fields[j].rule == s.fields[i].rule then Absent else slots[j])
  }

  function Current(f: Field, slot: Slot): Value {
    if slot.One? || slot.Present? then slot.value else ZeroValue(f.kind)
  }

  function Items(slot: Slot): seq<Value> {
    if slot.Many? then slot.items else []
  }

  /** decode_static_field for the field at position `i`. */
  function DecodedField(s: Schema, i: nat, wireType: nat, input: seq<Byte>, m: Filling): (r: Result<Read<Filling>>)
    requires i < |s.fields| == |m.slots|
    ensures r.Ok? ==> |r.value.rest| < |input| && |r.value.value.slots| == |s.fields|
    decreases s, 0
  {
    var f, slot := s.fields[i], m.slots[i];
    match f.rule
    case Repeated(max) =>
      var r := DecodedItems(f, wireType, input, Items(slot), max);
      if r.Err? then Err(r.message) else Ok(Read(m.(slots := m.slots[i := Many(r.value.value)]), r.value.rest))
    case FixedCount(count) =>
      if m.fixed.Some? && m.fixed != Some(i) && Unfinished(s, m) then Err("wrong size for fixed count field")
      else
        var items := if m.fixed == Some(i) then Items(slot) else [];
        var r := DecodedItems(f, wireType, input, items, count);
        if r.Err? then Err(r.message)
        else Ok(Read(Filling(m.slots[i := Many(r.value.value)], m.seen, Some(i), |r.value.value|), r.value.rest))
    case Oneof(_) =>
      var r := DecodedValue(f.kind, input, Current(f, slot));
      if r.Err? then Err(r.message)
      else Ok(Read(m.(slots := Selected(s, m.slots, i)[i := Present(r.value.value)]), r.value.rest))
    case Optional =>
      var r := DecodedValue(f.kind, input, Current(f, slot));
      if r.Err? then Err(r.message) else Ok(Read(m.(slots := m.slots[i := Present(r.value.value)]), r.value.rest))
    case Singular =>
      var r := DecodedValue(f.kind, input, Current(f, slot));
      if r.Err? then Err(r.message) else Ok(Read(m.(slots := m.slots[i := One(r.value.value)]), r.value.rest))
    case Required =>
      var r := DecodedValue(f.kind, input, Current(f, slot));
      if r.Err? then Err(r.message)
      else
        var nth := RequiredBefore(s, i);
        Ok(Read(m.(slots := m.slots[i := One(r.value.value)], seen := if nth < MAX_REQUIRED then m.seen + {nth} else m.seen),
                r.value.rest))
  }

  predicate Unfinished(s: Schema, m: Filling) {
    m.fixed.Some? && m.fixed.value < |s.fields| && s.fields[m.fixed.value].rule.FixedCount? &&
    m.fixedSize != s.fields[m.fixed.value].rule.count
  }

  /** One turn of the decoding loop: a key and its value, known or skipped. A zero key ends the message. */
  datatype Turn = Stop | Fail(message: string) | Go(m: Filling, rest: seq<Byte>)

  function DecodedTurn(s: Schema, m: Filling, input: seq<Byte>): (t: Turn)
    requires |m.slots| == |s.fields| && input != []
    ensures t.Go? ==> |t.m.slots| == |s.fields| && |t.rest| < |input|
    ensures t.Stop? ==> DecodeVarint32(input).Ok?
    decreases s, 1
  {
    var key := DecodeVarint32(input);
    if key.Err? then Fail(key.message)
    else if key.value.value == 0 then Stop
    else
      var tag, wireType := key.value.value / 8, key.value.value % 8;
      var i := FindField(s, tag, 0);
      if i == |s.fields| then
        var r := SkipField(key.value.rest, wireType);
        if r.Err? then Fail(r.message) else Go(m, r.value)
      else
        var r := DecodedField(s, i, wireType, key.value.rest, m);
        if r.Err? then Fail(r.message) else Go(r.value.value, r.value.rest)
  }

  function DecodedLoop(s: Schema, m: Filling, input: seq<Byte>): (r: Result<Filling>)
    requires |m.slots| == |s.fields|
    ensures r.Ok? ==> |r.value.slots| == |s.fields|
    decreases s, 2, |input|
  {
    if input == [] then Ok(m)
    else match DecodedTurn(s, m, input)
      case Stop => Ok(m)
      case Fail(message) => Err(message)
      case Go(m', rest) => DecodedLoop(s, m', rest)
  }

  /** What the loop leaves of the input: nothing, or what is behind the zero key that ended it. */
  function Unread(s: Schema, m: Filling, input: seq<Byte>): seq<Byte>
    requires |m.slots| == |s.fields|
    decreases |input|
  {
    if input == [] then []
    else match DecodedTurn(s, m, input)
      case Stop => DecodeVarint32(input).value.rest
      case Fail(_) => input
      case Go(m', rest) => Unread(s, m', rest)
  }

  function TrackedRequired(s: Schema): nat {
    var n := RequiredBefore(s, |s.fields|);
    if n > MAX_REQUIRED then MAX_REQUIRED else n
  }

  predicate AllSeen(s: Schema, m: Filling) {
    forall n :: 0 <= n < TrackedRequired(s) ==> n in m.seen
  }

  function Finished(s: Schema, r: Result<Filling>): Result<seq<Slot>> {
    if r.Err? then Err(r.message)
    else if Unfinished(s, r.value) then Err("wrong size for fixed count field")
    else if !AllSeen(s, r.value) then Err("missing required field")
    else Ok(r.value.slots)
  }

  /** pb_decode_noinit: fields are merged into what the struct already holds. */
  function Decoded(s: Schema, slots: seq<Slot>, input: seq<Byte>): (r: Result<seq<Slot>>)
    requires |slots| == |s.fields|
    ensures r.Ok? ==> |r.value| == |s.fields|
    decreases s, 3
  {
    Finished(s, DecodedLoop(s, Filling(slots, {}, None, 0), input))
  }

  /** pb_decode: defaults first. */
  function DecodedFresh(s: Schema, input: seq<Byte>): Result<seq<Slot>> {
    Decoded(s, DefaultSlots(s), input)
  }
}
