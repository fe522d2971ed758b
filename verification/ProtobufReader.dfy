/** The decoder at work on an input stream (pb_decode.c, pb_common.c). */
module MessageReader {
  import opened InternalKeys
  import opened LogFormat
  import opened Coding
  import opened MessageSchemas
  import opened WireFormat
  import opened MessageDecoder

  /** The field iterator: it walks the description in a circle and counts the required fields passed. */
  class FieldIter {
    const schema: Schema
    var pos: nat
    var requiredIndex: nat

    constructor (schema: Schema)
      ensures Valid() && this.schema == schema && pos == 0
    {
      this.schema, pos, requiredIndex := schema, 0, 0;
    }

    ghost predicate Valid()
      reads this
    {
      (pos < |schema.fields| || pos == 0 == |schema.fields|) && requiredIndex == RequiredBefore(schema, pos)
    }

    /** pb_field_iter_next: false when it wraps round, or when there are no fields. */
    method Next() returns (more: bool)
      requires Valid()
      modifies this
      ensures Valid() && more == (old(pos) + 1 < |schema.fields|)
      ensures pos == if more then old(pos) + 1 else 0
    {
      if schema.fields == [] {
        return false;
      }
      var wasRequired := schema.fields[pos].rule.Required?;
      pos := pos + 1;
      if pos == |schema.fields| {
        pos, requiredIndex := 0, 0;
        return false;
      }
      if wasRequired {
        requiredIndex := requiredIndex + 1;
      }
      more := true;
    }

    /** The number of required fields, found by walking to the end of the description. */
    method CountRequired() returns (count: nat)
      requires Valid()
      modifies this
      ensures count == RequiredBefore(schema, |schema.fields|)
    {
      if schema.fields == [] {
        return 0;
      }
      count := 0;
      var more, last := true, false;
      while more
        invariant Valid() && schema.fields != []
        invariant !more ==> count == RequiredBefore(schema, |schema.fields| - 1) &&
                            last == schema.fields[|schema.fields| - 1].rule.Required?
        decreases more, |schema.fields| - pos
      {
        count := requiredIndex;
        last := schema.fields[pos].rule.Required?;
        more := Next();
      }
      if last {
        count := count + 1;
      }
    }

    /** pb_field_iter_find: from where it stands, once around. */
    method Find(tag: nat) returns (found: bool)
      requires Valid() && WfSchema(schema)
      modifies this
      ensures Valid()
      ensures found <==> FindField(schema, tag, 0) < |schema.fields|
      ensures found ==> pos == FindField(schema, tag, 0)
    {
      if schema.fields == [] {
        return false;
      }
      ghost var start := pos;
      var left := |schema.fields|;
      while left > 0
        invariant 0 <= left <= |schema.fields| && Valid() && schema.fields != []
        invariant pos == if start + (|schema.fields| - left) < |schema.fields| then start + (|schema.fields| - left)
                         else start - left
        invariant forall j :: 0 <= j < |schema.fields| && Passed(start, |schema.fields| - left, j) ==>
                    schema.fields[j].tag != tag
      {
        if schema.fields[pos].tag == tag {
          TagIsFound(schema, tag, pos);
          return true;
        }
        var more := Next();
        left := left - 1;
      }
      NoTagFound(schema, tag);
      found := false;
    }

    /** Position `j` is among the first `n` visited from `start`. */
    ghost predicate Passed(start: nat, n: nat, j: nat) {
      start <= j < start + n || j + |schema.fields| < start + n
    }
  }

  lemma TagIsFound(s: Schema, tag: nat, i: nat)
    requires WfSchema(s) && i < |s.fields| && s.fields[i].tag == tag
    ensures FindField(s, tag, 0) == i
  {
    var j := FindField(s, tag, 0);
    if j < i { assert false; }
  }

  lemma NoTagFound(s: Schema, tag: nat)
    requires forall j :: 0 <= j < |s.fields| ==> s.fields[j].tag != tag
    ensures FindField(s, tag, 0) == |s.fields|
  {
  }

  /** `n` groups have been read into `value`, and `rest` is still to come. */
  ghost predicate Follows(input: seq<Byte>, rest: seq<Byte>, value: nat, n: nat) {
    n <= 10 &&
    var r := GetVarint(rest, 10 - n);
    GetVarint(input, 10) == if r.None? then None
                            else Some(Parsed(value + Power128(n) * r.value.value, r.value.rest))
  }

  lemma FirstGroups(input: seq<Byte>)
    ensures Follows(input, input, 0, 0) && Power128(0) == 1
  {
  }

  lemma Distribute(value: nat, p: nat, group: nat, v: nat)
    ensures value + p * (group + 128 * v) == value + group * p + 128 * p * v
  {
  }

  lemma GroupRoom(value: nat, p: nat, group: nat)
    requires value < p && group < 128
    ensures value + group * p < 128 * p
  {
  }

  lemma NextGroup(input: seq<Byte>, rest: seq<Byte>, value: nat, n: nat, value': nat)
    requires Follows(input, rest, value, n) && n < 10 && value < Power128(n) && rest != [] && rest[0] >= 128
    requires value' == value + (rest[0] - 128) * Power128(n)
    ensures Follows(input, rest[1..], value', n + 1) && value' < Power128(n + 1)
  {
    hide Power128, GetVarint;
    var p, group := Power128(n), rest[0] - 128;
    assert [rest[0]] + rest[1..] == rest;
    TakeByte(rest[0], rest[1..], 10 - n);
    GroupRoom(value, p, group);
    NextPower(n);
    var r := GetVarint(rest[1..], 10 - (n + 1));
    if r.Some? {
      Distribute(value, p, group, r.value.value);
    }
  }

  lemma NextPower(n: nat)
    ensures Power128(n + 1) == 128 * Power128(n)
  {
  }

  lemma SmallPower(n: nat)
    requires n < 10
    ensures Power128(n) < TWO_64
  {
    assert Power128(3) == 0x20_0000;
    assert Power128(6) == 0x20_0000 * 0x20_0000;
    assert Power128(9) == 0x20_0000 * 0x20_0000 * 0x20_0000;
  }

  /** One more byte: the last of the varint, or a group of seven bits with more to come. */
  lemma NextGroups(input: seq<Byte>, rest: seq<Byte>, value: nat, n: nat)
    requires Follows(input, rest, value, n) && n < 10 && value < Power128(n) && rest != []
    ensures var value' := (value + rest[0] % 128 * Power128(n)) % TWO_64;
            if rest[0] < 128 then GetVarint64(input) == Some(Parsed(value', rest[1..]))
            else Follows(input, rest[1..], value', n + 1) && (n + 1 < 10 ==> value' < Power128(n + 1))
  {
    hide Power128, GetVarint, Follows;
    LowBits(rest[0]);
    if rest[0] >= 128 {
      NextGroup(input, rest, value, n, value + (rest[0] - 128) * Power128(n));
      if n + 1 < 10 {
        SmallPower(n + 1);
      } else {
        TenGroups(input, rest[1..], value + (rest[0] - 128) * Power128(n));
      }
    } else {
      LastGroup(input, rest, value, n);
    }
  }

  lemma LowBits(byte: Byte)
    ensures byte % 128 == if byte < 128 then byte else byte - 128
  {
  }

  lemma TenGroups(input: seq<Byte>, rest: seq<Byte>, value: nat)
    requires Follows(input, rest, value, 10)
    ensures forall other: nat :: Follows(input, rest, other, 10)
  {
  }

  lemma LastGroup(input: seq<Byte>, rest: seq<Byte>, value: nat, n: nat)
    requires Follows(input, rest, value, n) && n < 10 && rest != [] && rest[0] < 128
    ensures GetVarint64(input) == Some(Parsed((value + rest[0] * Power128(n)) % TWO_64, rest[1..]))
  {
    hide Power128;
    assert GetVarint(rest, 10 - n) == Some(Parsed(rest[0], rest[1..]));
    assert Power128(n) * rest[0] == rest[0] * Power128(n);
  }

  /** Neither an end of input nor an eleventh byte leaves a number. */
  lemma NoNumber(input: seq<Byte>, rest: seq<Byte>, value: nat, n: nat)
    requires Follows(input, rest, value, n) && (n == 10 || rest == [])
    ensures GetVarint64(input).None?
  {
  }

  class IStream {
    var rest: seq<Byte>
    var errmsg: Option<string>

    constructor (bytes: seq<Byte>)
      ensures rest == bytes && errmsg.None?
    {
      rest, errmsg := bytes, None;
    }

    method SetError(message: string)
      modifies this`errmsg
      ensures errmsg.Some?
    {
      if errmsg.None? {
        errmsg := Some(message);
      }
    }

    method ReadBytes(count: nat) returns (ok: bool, bytes: seq<Byte>)
      modifies this
      ensures ok <==> |old(rest)| >= count
      ensures ok ==> bytes == old(rest)[..count] && rest == old(rest)[count..] && errmsg == old(errmsg)
      ensures !ok ==> rest == old(rest) && errmsg.Some?
    {
      if |rest| < count {
        SetError("end-of-stream");
        return false, [];
      }
      ok, bytes, rest := true, rest[..count], rest[count..];
    }

    method ReadByte() returns (ok: bool, byte: Byte)
      modifies this
      ensures ok <==> old(rest) != []
      ensures ok ==> byte == old(rest)[0] && rest == old(rest)[1..]
      ensures !ok ==> rest == old(rest) && errmsg.Some?
    {
      if |rest| == 0 {
        SetError("end-of-stream");
        return false, 0;
      }
      ok, byte, rest := true, rest[0], rest[1..];
    }

    /** pb_decode_varint32_eof: `eof` says that there was nothing at all to read. */
    method DecodeVarint32Eof() returns (ok: bool, value: nat, eof: bool)
      modifies this
      ensures var r := WireFormat.DecodeVarint32(old(rest));
              && (ok <==> r.Ok?)
              && (ok ==> value == r.value.value && rest == r.value.rest)
      ensures eof <==> old(rest) == []
      ensures !ok ==> errmsg.Some?
    {
      ghost var input := rest;
      value, eof := 0, false;
      var bitpos := 0;
      var more := true;
      while more
        invariant value < TWO_32 && !eof
        invariant more ==> Varint32From(input, 0, 0) == Varint32From(rest, bitpos, value)
        invariant more ==> (bitpos == 0 <==> rest == input) && |rest| <= |input|
        invariant !more ==> Varint32From(input, 0, 0) == Ok(Read(value, rest)) && input != []
        decreases |rest|, more
      {
        var byte;
        ok, byte := ReadByte();
        if !ok {
          eof := bitpos == 0;
          return;
        }
        if bitpos >= 32 {
          // Only padding may follow: zeros, or the sign of a negative number.
          var extension := if bitpos < 63 then 0xFF else 0x01;
          if byte % 128 != 0 && (value / 0x8000_0000 == 0 || byte != extension) {
            SetError("varint overflow");
            return false, 0, false;
          }
        } else {
          value := (value + Shifted(byte % 128, bitpos)) % 0x1_0000_0000;
        }
        if byte >= 128 {
          bitpos := bitpos + 7;
        } else if bitpos == 28 && byte / 16 % 8 != 0 {
          SetError("varint overflow");
          return false, 0, false;
        } else {
          more := false;
        }
      }
      ok := true;
    }

    method DecodeVarint32() returns (ok: bool, value: nat)
      modifies this
      ensures var r := WireFormat.DecodeVarint32(old(rest));
              (ok <==> r.Ok?) && (ok ==> value == r.value.value && rest == r.value.rest)
      ensures !ok ==> errmsg.Some?
    {
      var eof;
      ok, value, eof := DecodeVarint32Eof();
    }

    /** pb_decode_varint: bits beyond the sixty-fourth fall off. */
    method DecodeVarint() returns (ok: bool, value: nat)
      modifies this
      ensures var r := WireFormat.DecodeVarint(old(rest));
              (ok <==> r.Ok?) && (ok ==> value == r.value.value && rest == r.value.rest)
      ensures !ok ==> errmsg.Some?
    {
      hide Follows, Power128, GetVarint;
      ghost var input := rest;
      value := 0;
      var bitpos := 0;
      var more := true;
      FirstGroups(input);
      while more
        invariant bitpos % 7 == 0 && 0 <= bitpos <= 70
        invariant more ==> Follows(input, rest, value, bitpos / 7) && (bitpos < 70 ==> value < Power128(bitpos / 7))
        invariant !more ==> GetVarint64(input) == Some(Parsed(value, rest))
        decreases more, 70 - bitpos
      {
        if bitpos >= 64 {
          NoNumber(input, rest, value, bitpos / 7);
          SetError("varint overflow");
          return false, 0;
        }
        var byte;
        ghost var before := rest;
        ok, byte := ReadByte();
        if !ok {
          NoNumber(input, before, value, bitpos / 7);
          return;
        }
        NextGroups(input, before, value, bitpos / 7);
        value := (value + byte % 128 * Power128(bitpos / 7)) % TWO_64;
        bitpos := bitpos + 7;
        more := byte >= 128;
      }
      ok := true;
    }

    method SkipVarint() returns (ok: bool)
      modifies this
      ensures var r := MessageDecoder.SkipVarint(old(rest)); (ok <==> r.Ok?) && (ok ==> rest == r.value)
      ensures !ok ==> errmsg.Some?
    {
      ghost var input := rest;
      var more := true;
      while more
        invariant more ==> MessageDecoder.SkipVarint(input) == MessageDecoder.SkipVarint(rest)
        invariant !more ==> MessageDecoder.SkipVarint(input) == Ok(rest)
        decreases more, |rest|
      {
        var byte;
        ok, byte := ReadByte();
        if !ok {
          return;
        }
        more := byte >= 128;
      }
      ok := true;
    }

    method SkipString() returns (ok: bool)
      modifies this
      ensures var r := TakeDelimited(old(rest), "end-of-stream"); (ok <==> r.Ok?) && (ok ==> rest == r.value.rest)
      ensures !ok ==> errmsg.Some?
    {
      var length, bytes;
      ok, length := DecodeVarint32();
      if ok {
        ok, bytes := ReadBytes(length);
      }
    }

    /** pb_skip_field. */
    method SkipField(wireType: nat) returns (ok: bool)
      modifies this
      ensures var r := MessageDecoder.SkipField(old(rest), wireType); (ok <==> r.Ok?) && (ok ==> rest == r.value)
      ensures !ok ==> errmsg.Some?
    {
      var bytes;
      if wireType == 0 {
        ok := SkipVarint();
      } else if wireType == 1 {
        ok, bytes := ReadBytes(8);
      } else if wireType == 2 {
        ok := SkipString();
      } else if wireType == 5 {
        ok, bytes := ReadBytes(4);
      } else {
        SetError("invalid wire_type");
        ok := false;
      }
    }

    /** pb_decode_tag: a zero key ends the message. */
    method DecodeTag() returns (ok: bool, tag: nat, wireType: nat, eof: bool)
      modifies this
      ensures var r := WireFormat.DecodeVarint32(old(rest));
              && (ok <==> r.Ok? && r.value.value != 0)
              && (eof <==> old(rest) == [] || (r.Ok? && r.value.value == 0))
              && (ok ==> tag == r.value.value / 8 && wireType == r.value.value % 8 && rest == r.value.rest)
              && (eof && old(rest) != [] ==> rest == r.value.rest)
      ensures !ok && !eof ==> errmsg.Some?
    {
      tag, wireType := 0, 0;
      var key;
      ok, key, eof := DecodeVarint32Eof();
      if !ok {
        return;
      }
      if key == 0 {
        return false, 0, 0, true;
      }
      tag, wireType := key / 8, key % 8;
    }

    /** pb_make_string_substream. */
    method MakeSubstream() returns (ok: bool, substream: IStream)
      modifies this
      ensures fresh(substream)
      ensures var r := TakeDelimited(old(rest), "parent stream too short");
              (ok <==> r.Ok?) && (ok ==> substream.rest == r.value.value && rest == r.value.rest)
      ensures !ok ==> errmsg.Some?
    {
      var size;
      ok, size := DecodeVarint32();
      substream := new IStream(rest);
      substream.errmsg := errmsg;
      if !ok {
        return;
      }
      if |substream.rest| < size {
        SetError("parent stream too short");
        return false, substream;
      }
      substream.rest := rest[..size];
      rest := rest[size..];
    }

    /** pb_close_string_substream: what was left unread is passed over. */
    method CloseSubstream(substream: IStream)
      requires substream != this
      modifies this`errmsg, substream
      ensures errmsg == old(substream.errmsg)
    {
      if |substream.rest| > 0 {
        var _, _ := substream.ReadBytes(|substream.rest|);
      }
      errmsg := substream.errmsg;
    }

    // ---------- values ----------

    method DecodeScalar(k: Kind) returns (ok: bool, v: Value)
      requires Packable(k)
      modifies this
      ensures var r := DecodedScalar(k, old(rest)); (ok <==> r.Ok?) && (ok ==> v == r.value.value && rest == r.value.rest)
      ensures !ok ==> errmsg.Some?
    {
      v := Scalar(0);
      if k.Bool? {
        var n;
        ok, n := DecodeVarint32();
        v := Scalar(if n != 0 then 1 else 0);
      } else if k.Word32? {
        var bytes;
        ok, bytes := ReadBytes(4);
        if ok {
          v := Scalar(DecodeFixed32(bytes));
        }
      } else if k.Word64? {
        var bytes;
        ok, bytes := ReadBytes(8);
        if ok {
          v := Scalar(DecodeFixed64(bytes));
        }
      } else {
        var w;
        ok, w := DecodeVarint();
        if ok {
          var n := Taken(k, w);
          if n.Err? {
            SetError(n.message);
            return false, v;
          }
          v := Scalar(n.value);
        }
      }
    }

    /** pb_dec_bytes, pb_dec_string, pb_dec_fixed_length_bytes. */
    method DecodeBlob(k: Kind) returns (ok: bool, v: Value)
      requires k.Bytes? || k.Text? || k.FixedBytes?
      modifies this
      ensures var r := DecodedBlob(k, old(rest)); (ok <==> r.Ok?) && (ok ==> v == r.value.value && rest == r.value.rest)
      ensures !ok ==> errmsg.Some?
    {
      v := Blob([]);
      var size, bytes;
      ok, size := DecodeVarint32();
      if !ok {
        return;
      }
      if k.Bytes? && size > k.capacity {
        SetError("bytes overflow");
        return false, v;
      }
      if k.Text? && size + 1 > k.size {
        SetError("string overflow");
        return false, v;
      }
      if k.FixedBytes? && size == 0 {
        return true, Blob(Zeros(k.length));
      }
      if k.FixedBytes? && size != k.length {
        SetError("incorrect fixed length bytes size");
        return false, v;
      }
      ok, bytes := ReadBytes(size);
      if ok {
        v := Blob(if k.Text? then Cut(bytes) else bytes);
      }
    }

    /** The decoder of the field's kind. */
    method DecodeValue(k: Kind, into: Value) returns (ok: bool, v: Value)
      requires WfKind(k)
      modifies this
      ensures var r := DecodedValue(k, old(rest), into);
              (ok <==> r.Ok?) && (ok ==> v == r.value.value && rest == r.value.rest)
      ensures !ok ==> errmsg.Some?
      decreases k, 0
    {
      if Packable(k) {
        ok, v := DecodeScalar(k);
      } else if k.Message? {
        ok, v := DecodeSubmessage(k.schema, Base(k, into).slots);
      } else {
        ok, v := DecodeBlob(k);
      }
    }

    /** pb_dec_submessage: the message is merged into what is there. */
    method DecodeSubmessage(schema: Schema, slots: seq<Slot>) returns (ok: bool, v: Value)
      requires WfSchema(schema) && |slots| == |schema.fields|
      modifies this
      ensures var body := TakeDelimited(old(rest), "parent stream too short");
              && (ok <==> body.Ok? && Decoded(schema, slots, body.value.value).Ok?)
              && (ok ==> v == Nested(Decoded(schema, slots, body.value.value).value) && rest == body.value.rest)
      ensures !ok ==> errmsg.Some?
      decreases schema, 5
    {
      var substream;
      ok, substream := MakeSubstream();
      if !ok {
        return false, Nested(slots);
      }
      var slots';
      ok, slots' := substream.DecodeNoInit(schema, slots);
      v := Nested(slots');
      CloseSubstream(substream);
    }

    // ---------- fields ----------

    /** One record of an array: a packed run of items, or the next item. */
    method DecodeItems(f: Field, wireType: nat, items: seq<Value>, max: nat) returns (ok: bool, items': seq<Value>)
      requires WfKind(f.kind)
      modifies this
      ensures var r := DecodedItems(f, wireType, old(rest), items, max);
              (ok <==> r.Ok?) && (ok ==> items' == r.value.value && rest == r.value.rest)
      ensures !ok ==> errmsg.Some?
      decreases f, 0
    {
      items' := items;
      if wireType == 2 && Packable(f.kind) {
        ok, items' := DecodePacked(f.kind, items, max);
      } else if |items| >= max {
        SetError("array overflow");
        ok := false;
      } else {
        var v;
        ok, v := DecodeValue(f.kind, ZeroValue(f.kind));
        items' := items + [v];
      }
    }

    method DecodePacked(k: Kind, items: seq<Value>, max: nat) returns (ok: bool, items': seq<Value>)
      requires Packable(k)
      modifies this
      ensures var body := TakeDelimited(old(rest), "parent stream too short");
              && (ok <==> body.Ok? && DecodedRun(k, body.value.value, items, max).Ok?)
              && (ok ==> items' == DecodedRun(k, body.value.value, items, max).value && rest == body.value.rest)
      ensures !ok ==> errmsg.Some?
    {
      items' := items;
      var substream;
      ok, substream := MakeSubstream();
      if !ok {
        return;
      }
      ghost var run, rest0 := substream.rest, rest;
      while |substream.rest| > 0 && |items'| < max && ok
        invariant fresh(substream) && rest == rest0
        invariant ok ==> DecodedRun(k, run, items, max) == DecodedRun(k, substream.rest, items', max)
        invariant !ok ==> DecodedRun(k, run, items, max).Err? && substream.errmsg.Some?
        decreases ok, |substream.rest|
      {
        var v;
        ok, v := substream.DecodeScalar(k);
        if ok {
          items' := items' + [v];
        }
      }
      if |substream.rest| != 0 {
        SetError("array overflow");
        return false, items';
      }
      CloseSubstream(substream);
    }

    /** decode_static_field, and what pb_decode_noinit does for the field before it. */
    method DecodeField(s: Schema, i: nat, requiredIndex: nat, wireType: nat, m: Filling) returns (ok: bool, m': Filling)
      requires WfSchema(s) && i < |s.fields| == |m.slots| && requiredIndex == RequiredBefore(s, i)
      modifies this
      ensures var r := DecodedField(s, i, wireType, old(rest), m);
              (ok <==> r.Ok?) && (ok ==> m' == r.value.value && rest == r.value.rest)
      ensures !ok ==> errmsg.Some?
      decreases s, 1
    {
      var f, slot := s.fields[i], m.slots[i];
      m' := m;
      if f.rule.Repeated? {
        var items;
        ok, items := DecodeItems(f, wireType, Items(slot), f.rule.max);
        m' := m.(slots := m.slots[i := Many(items)]);
      } else if f.rule.FixedCount? {
        var items := [];
        if m.fixed != Some(i) {
          if m.fixed.Some? && Unfinished(s, m) {
            SetError("wrong size for fixed count field");
            return false, m;
          }
        } else {
          items := Items(slot);
        }
        ok, items := DecodeItems(f, wireType, items, f.rule.count);
        m' := Filling(m.slots[i := Many(items)], m.seen, Some(i), |items|);
      } else {
        var seen := m.seen;
        if f.rule.Required? && requiredIndex < MAX_REQUIRED {
          seen := seen + {requiredIndex};
        }
        var v;
        ok, v := DecodeValue(f.kind, Current(f, slot));
        var slots := if f.rule.Oneof? then Selected(s, m.slots, i) else m.slots;
        var filled := if f.rule.Oneof? || f.rule.Optional? then Present(v) else One(v);
        m' := m.(slots := slots[i := filled], seen := seen);
      }
    }

    // ---------- messages ----------

    /** One turn of the loop: the field with this tag, or past it when there is none. */
    method DecodeRecord(iter: FieldIter, tag: nat, wireType: nat, m: Filling) returns (ok: bool, m': Filling)
      requires iter.Valid() && WfSchema(iter.schema) && |m.slots| == |iter.schema.fields|
      modifies this, iter
      ensures iter.Valid()
      ensures var i := FindField(iter.schema, tag, 0);
              if i == |iter.schema.fields| then
                var r := MessageDecoder.SkipField(old(rest), wireType);
                (ok <==> r.Ok?) && (ok ==> m' == m && rest == r.value)
              else
                var r := DecodedField(iter.schema, i, wireType, old(rest), m);
                (ok <==> r.Ok?) && (ok ==> m' == r.value.value && rest == r.value.rest)
      ensures !ok ==> errmsg.Some?
      decreases iter.schema, 2
    {
      m' := m;
      var found := iter.Find(tag);
      if found {
        ok, m' := DecodeField(iter.schema, iter.pos, iter.requiredIndex, wireType, m);
      } else {
        ok := SkipField(wireType);
      }
    }

    /** The loop of pb_decode_noinit: records until the input or a zero key ends the message. */
    method DecodeRecords(iter: FieldIter, m: Filling) returns (ok: bool, m': Filling)
      requires iter.Valid() && WfSchema(iter.schema) && |m.slots| == |iter.schema.fields|
      modifies this, iter
      ensures iter.Valid()
      ensures var r := DecodedLoop(iter.schema, m, old(rest)); (ok <==> r.Ok?) && (ok ==> m' == r.value)
      ensures ok ==> rest == Unread(iter.schema, m, old(rest))
      ensures !ok ==> errmsg.Some?
      decreases iter.schema, 3
    {
      m', ok := m, true;
      var more := true;
      while more && |rest| > 0
        invariant iter.Valid() && |m'.slots| == |iter.schema.fields|
        invariant DecodedLoop(iter.schema, m, old(rest)) == if more then DecodedLoop(iter.schema, m', rest) else Ok(m')
        invariant Unread(iter.schema, m, old(rest)) == if more then Unread(iter.schema, m', rest) else rest
        decreases more, |rest|
      {
        var tag, wireType, eof;
        ghost var before, m0 := rest, m';
        ok, tag, wireType, eof := DecodeTag();
        if ok {
          ok, m' := DecodeRecord(iter, tag, wireType, m');
          if !ok {
            return;
          }
        } else if eof {
          more := false;
        } else {
          return;
        }
      }
      ok := true;
    }

    /** pb_decode_noinit: the records, and then the checks that nothing is missing. */
    method DecodeNoInit(schema: Schema, slots: seq<Slot>) returns (ok: bool, slots': seq<Slot>)
      requires WfSchema(schema) && |slots| == |schema.fields|
      modifies this
      ensures var r := Decoded(schema, slots, old(rest)); (ok <==> r.Ok?) && (ok ==> slots' == r.value)
      ensures ok ==> rest == Unread(schema, Filling(slots, {}, None, 0), old(rest))
      ensures !ok ==> errmsg.Some?
      decreases schema, 4
    {
      var iter := new FieldIter(schema);
      var m;
      ok, m := DecodeRecords(iter, Filling(slots, {}, None, 0));
      slots' := m.slots;
      if !ok {
        return;
      }
      if Unfinished(schema, m) {
        SetError("wrong size for fixed count field");
        return false, slots';
      }
      var count := iter.CountRequired();
      if count > MAX_REQUIRED {
        count := MAX_REQUIRED;
      }
      var i := 0;
      while i < count
        invariant 0 <= i <= count && forall n :: 0 <= n < i ==> n in m.seen
      {
        if i !in m.seen {
          SetError("missing required field");
          return false, slots';
        }
        i := i + 1;
      }
    }

    /** pb_decode: defaults first. */
    method Decode(schema: Schema) returns (ok: bool, slots: seq<Slot>)
      requires WfSchema(schema)
      modifies this
      ensures var r := DecodedFresh(schema, old(rest)); (ok <==> r.Ok?) && (ok ==> slots == r.value)
      ensures ok ==> rest == Unread(schema, Filling(DefaultSlots(schema), {}, None, 0), old(rest))
      ensures !ok ==> errmsg.Some?
    {
      ok, slots := DecodeNoInit(schema, DefaultSlots(schema));
    }
  }
}
