/** Bytes written out in full, one for each case of a format: they fix its constants. */
module LogSamples {
  import opened LogFormat
  import opened LogWriter

  /** The first fragment, and what follows it. */
  lemma First(c: Crc, pos: nat, data: seq<Byte>, begin: bool)
    requires WfCrc(c) && pos % BLOCK_SIZE == 0
    ensures var n := if |data| < 32761 then |data| else 32761;
            var e := Emit(c, pos, data, begin);
            && n <= |data| && |e| >= 7 + n
            && e[..4] == Fixed32(c.mask(c.sum([e[6]] + data[..n]))) && e[4] == n % 256 && e[5] == n / 256
            && e[6] == (if begin && n == |data| then 1 else if begin then 2 else if n == |data| then 4 else 3)
            && (if n == |data| then |e| == 7 + n else e[7+n..] == Emit(c, pos + 7 + n, data[n..], false))
  {
    hide Physical, Emit, Fixed32;
    var n := FragmentLength(pos, |data|);
    assert PadLength(pos) == 0 && n == if |data| < 32761 then |data| else 32761;
    var t := FragmentType(begin, n == |data|);
    HeaderBytes(c, t, data[..n]);
    EmitsOne(c, pos, data, begin);
    assert Zeros(0) + Physical(c, t, data[..n]) == Physical(c, t, data[..n]);
  }

  lemma HeaderBytes(c: Crc, t: Byte, payload: seq<Byte>)
    requires WfCrc(c) && |payload| <= 0xffff
    ensures var p := Physical(c, t, payload);
            && p[..4] == Fixed32(c.mask(c.sum([t] + payload)))
            && p[4] == |payload| % 256 && p[5] == |payload| / 256 && p[6] == t
  {
  }

  lemma EmitsOne(c: Crc, pos: nat, data: seq<Byte>, begin: bool)
    requires WfCrc(c)
    ensures var n, head := FragmentLength(pos, |data|), Head(c, pos, data, begin);
            Emit(c, pos, data, begin) == head + if n == |data| then [] else Emit(c, pos + |head|, data[n..], false)
  {
    hide Head;
  }

  /** A record in one block is one fragment of type 1. The type is the seventh byte of a header, the length the fifth and
      sixth, low byte first. */
  lemma OneFragment(c: Crc)
    requires WfCrc(c)
    ensures var e := Emit(c, 0, Zeros(700), true); |e| == 707 && e[4] == 188 && e[5] == 2 && e[6] == 1
  {
    hide Emit;
    First(c, 0, Zeros(700), true);
  }

  /** A longer one begins with type 2, goes on with type 3 and ends with type 4. */
  lemma ThreeFragments(c: Crc)
    requires WfCrc(c)
    ensures var e := Emit(c, 0, Zeros(70000), true); |e| == 70021 && e[6] == 2 && e[32774] == 3 && e[65542] == 4
  {
    hide Emit;
    var a := Zeros(70000);
    var b := a[32761..];
    var d := b[32761..];
    var x, y, z := Emit(c, 0, a, true), Emit(c, 32768, b, false), Emit(c, 65536, d, false);
    First(c, 0, a, true);
    First(c, 32768, b, false);
    First(c, 65536, d, false);
    assert x[32768..] == y && y[32768..] == z;
    assert x[32774] == y[6] && x[65542] == y[32774] == z[6];
  }
}

module BatchSamples {
  import opened LogFormat
  import opened Coding
  import opened BatchFormat

  lemma TwoPrinted()
    ensures Records([Put([107], [118]), Delete([107])]) == [1, 1, 107, 1, 118, 0, 1, 107]
  {
    var put, delete := Put([107], [118]), Delete([107]);
    assert LengthPrefixed([107]) == [1, 107] && LengthPrefixed([118]) == [1, 118];
    assert Printed(put) == [1, 1, 107, 1, 118] && Printed(delete) == [0, 1, 107];
    RecordsOne(put);
    RecordsSnoc([put], delete);
    assert [put] + [delete] == [put, delete];
    assert [1, 1, 107, 1, 118] + [0, 1, 107] == [1, 1, 107, 1, 118, 0, 1, 107];
  }

  lemma HeaderReads(rep: seq<Byte>)
    requires |rep| >= HEADER && rep[..HEADER] == [2, 1, 0, 0, 0, 0, 0, 0, 2, 0, 0, 0]
    ensures Sequence(rep) == 258 && Count(rep) == 2
  {
    var head: seq<Byte> := [2, 1, 0, 0, 0, 0, 0, 0, 2, 0, 0, 0];
    assert rep[..8] == head[..8] == [2, 1, 0, 0, 0, 0, 0, 0] && rep[8..HEADER] == head[8..] == [2, 0, 0, 0];
  }

  /** Put("k", "v") and Delete("k") under sequence number 258. */
  lemma TwoOperations()
    ensures IsBatch([2, 1, 0, 0, 0, 0, 0, 0, 2, 0, 0, 0, 1, 1, 107, 1, 118, 0, 1, 107], 258, [Put([107], [118]), Delete([107])])
  {
    hide Records, Sequence, Count;
    var rep: seq<Byte> := [2, 1, 0, 0, 0, 0, 0, 0, 2, 0, 0, 0, 1, 1, 107, 1, 118, 0, 1, 107];
    assert rep[..HEADER] == [2, 1, 0, 0, 0, 0, 0, 0, 2, 0, 0, 0] && rep[HEADER..] == [1, 1, 107, 1, 118, 0, 1, 107];
    TwoPrinted();
    HeaderReads(rep);
  }
}

module EditSamples {
  import opened InternalKeys
  import opened LogFormat
  import opened Coding
  import E = VersionEditFields
  import P = VersionEditRoundTrip

  /** One field of each kind, behind its tag. */
  lemma FieldTags()
    ensures E.Printed(E.Comparator([99])) == [1, 1, 99]
    ensures E.Printed(E.LogNumber(300)) == [2, 172, 2]
    ensures E.Printed(E.NextFileNumber(7)) == [3, 7]
    ensures E.Printed(E.LastSequence(9)) == [4, 9]
    ensures E.Printed(E.CompactPointer(1, [107])) == [5, 1, 1, 107]
    ensures E.Printed(E.DeletedFile(2, 5)) == [6, 2, 5]
    ensures E.Printed(E.NewFile(3, E.FileEntry(6, 100, [97], [122]))) == [7, 3, 6, 100, 1, 97, 1, 122]
    ensures E.Printed(E.PrevLogNumber(4)) == [9, 4]
  {
  }
}

module MessageSamples {
  import opened InternalKeys
  import opened LogFormat
  import opened Coding
  import opened MessageSchemas
  import opened WireFormat
  import opened MessageEncoder

  lemma Behind(f: Field, v: Value, key: seq<Byte>, bytes: seq<Byte>, all: seq<Byte>)
    requires TypedValue(f.kind, v) && Key(f.tag, WireType(f.kind)) == key && Encoded(f.kind, v) == Ok(bytes) && all == key + bytes
    ensures Tagged(f, v) == Ok(all)
  {
  }

  lemma SmallWord64()
    ensures Fixed64(258) == [2, 1, 0, 0, 0, 0, 0, 0]
  {
    assert Fixed32(258) == [2, 1, 0, 0] && Fixed32(0) == [0, 0, 0, 0];
  }

  function Of(tag: nat, kind: Kind): Field {
    Field(tag, kind, Required, None)
  }

  /** One field of each kind, behind its key. */
  lemma VarintKeys()
    ensures Tagged(Of(1, Int(32)), Scalar(150)) == Ok([0x08, 0x96, 0x01])
    ensures Tagged(Of(1, Bool), Scalar(1)) == Ok([0x08, 1])
    ensures Tagged(Of(1, Sint(32)), Scalar(-2)) == Ok([0x08, 3])
  {
    assert Key(1, 0) == [0x08] && Varint(150) == [0x96, 0x01];
    Behind(Of(1, Int(32)), Scalar(150), [0x08], [0x96, 0x01], [0x08, 0x96, 0x01]);
    Behind(Of(1, Bool), Scalar(1), [0x08], [1], [0x08, 1]);
    Behind(Of(1, Sint(32)), Scalar(-2), [0x08], [3], [0x08, 3]);
  }

  lemma Word64Key()
    ensures Tagged(Of(1, Word64), Scalar(258)) == Ok([0x09, 2, 1, 0, 0, 0, 0, 0, 0])
  {
    assert Key(1, 1) == [0x09];
    SmallWord64();
    Behind(Of(1, Word64), Scalar(258), [0x09], [2, 1, 0, 0, 0, 0, 0, 0], [0x09, 2, 1, 0, 0, 0, 0, 0, 0]);
  }

  lemma TextKey()
    ensures Tagged(Of(2, Text(8)), Blob([116, 101, 115, 116])) == Ok([0x12, 4, 116, 101, 115, 116])
  {
    assert Key(2, 2) == [0x12] && Varint(4) == [4];
    assert [4] + [116, 101, 115, 116] == [4, 116, 101, 115, 116];
    Behind(Of(2, Text(8)), Blob([116, 101, 115, 116]), [0x12], [4, 116, 101, 115, 116], [0x12, 4, 116, 101, 115, 116]);
  }

  lemma Word32Key()
    ensures Tagged(Of(3, Word32), Scalar(258)) == Ok([0x1d, 2, 1, 0, 0])
  {
    assert Key(3, 5) == [0x1d];
    Behind(Of(3, Word32), Scalar(258), [0x1d], [2, 1, 0, 0], [0x1d, 2, 1, 0, 0]);
  }

  lemma BytesKeys()
    ensures Tagged(Of(2, Bytes(8)), Blob([7, 9])) == Ok([0x12, 2, 7, 9])
    ensures Tagged(Of(2, FixedBytes(2)), Blob([7, 9])) == Ok([0x12, 2, 7, 9])
  {
    assert Key(2, 2) == [0x12] && Varint(2) == [2];
    assert [2] + [7, 9] == [2, 7, 9];
    Behind(Of(2, Bytes(8)), Blob([7, 9]), [0x12], [2, 7, 9], [0x12, 2, 7, 9]);
    Behind(Of(2, FixedBytes(2)), Blob([7, 9]), [0x12], [2, 7, 9], [0x12, 2, 7, 9]);
  }

  /** A message of one field stands behind its length. */
  lemma MessageKey()
    ensures Tagged(Of(3, Message(Schema([Of(1, Int(32))]))), Nested([One(Scalar(150))])) == Ok([0x1a, 3, 0x08, 0x96, 0x01])
  {
    VarintKeys();
    assert Key(3, 2) == [0x1a] && Varint(3) == [3];
    var inner := Schema([Of(1, Int(32))]);
    var body: seq<Byte> := [0x08, 0x96, 0x01];
    assert [] + body == body && [3] + body == [3, 0x08, 0x96, 0x01];
    assert EncodedField(inner.fields[0], One(Scalar(150))) == Ok(body);
    assert EncodedFields(inner, [One(Scalar(150))], 0) == Ok([]);
    assert EncodedFields(inner, [One(Scalar(150))], 1) == Ok(body);
    Behind(Of(3, Message(Schema([Of(1, Int(32))]))), Nested([One(Scalar(150))]),
           [0x1a], [3, 0x08, 0x96, 0x01], [0x1a, 3, 0x08, 0x96, 0x01]);
  }

  lemma SevenOnes(n: nat, m: nat, bytes: seq<Byte>)
    requires n == 128 * m + 127 && m > 0 && Varint(m) == bytes
    ensures Varint(n) == [255] + bytes
  {
  }

  lemma HalfOnes()
    ensures Varint(0x1fff_ffff) == [255, 255, 255, 255, 1]
  {
    assert Varint(1) == [1];
    hide Varint;
    SevenOnes(0xff, 0x1, [1]);
    SevenOnes(0x7fff, 0xff, [255, 1]);
    SevenOnes(0x3f_ffff, 0x7fff, [255, 255, 1]);
    SevenOnes(0x1fff_ffff, 0x3f_ffff, [255, 255, 255, 1]);
  }

  lemma AllOnes()
    ensures Varint(0xffff_ffff_ffff_ffff) == [255, 255, 255, 255, 255, 255, 255, 255, 255, 1]
  {
    hide Varint;
    HalfOnes();
    SevenOnes(0xf_ffff_ffff, 0x1fff_ffff, [255, 255, 255, 255, 1]);
    SevenOnes(0x7ff_ffff_ffff, 0xf_ffff_ffff, [255, 255, 255, 255, 255, 1]);
    SevenOnes(0x3_ffff_ffff_ffff, 0x7ff_ffff_ffff, [255, 255, 255, 255, 255, 255, 1]);
    SevenOnes(0x1ff_ffff_ffff_ffff, 0x3_ffff_ffff_ffff, [255, 255, 255, 255, 255, 255, 255, 1]);
    SevenOnes(0xffff_ffff_ffff_ffff, 0x1ff_ffff_ffff_ffff, [255, 255, 255, 255, 255, 255, 255, 255, 1]);
  }

  /** A negative number takes ten bytes, a zigzag one few. */
  lemma NegativeKeys()
    ensures Tagged(Of(1, Int(32)), Scalar(-1)) == Ok([0x08, 255, 255, 255, 255, 255, 255, 255, 255, 255, 1])
    ensures Tagged(Of(1, Sint(32)), Scalar(-1)) == Ok([0x08, 1])
  {
    assert Key(1, 0) == [0x08] && Varint(1) == [1];
    AllOnes();
    hide Varint, Key;
    Behind(Of(1, Int(32)), Scalar(-1), [0x08], [255, 255, 255, 255, 255, 255, 255, 255, 255, 1],
           [0x08, 255, 255, 255, 255, 255, 255, 255, 255, 255, 1]);
    Behind(Of(1, Sint(32)), Scalar(-1), [0x08], [1], [0x08, 1]);
  }

  lemma OneMore(items: seq<Value>, n: nat, front: seq<Byte>, last: seq<Byte>, all: seq<Byte>)
    requires 0 < n <= |items| && forall i :: 0 <= i < |items| ==> TypedValue(Int(32), items[i])
    requires Packed(Int(32), items, n - 1) == Ok(front) && Encoded(Int(32), items[n-1]) == Ok(last) && all == front + last
    ensures Packed(Int(32), items, n) == Ok(all)
  {
  }

  /** The items of a numeric array in one record. */
  lemma PackedArray()
    ensures EncodedField(Field(4, Int(32), Repeated(5), None), Many([Scalar(3), Scalar(270), Scalar(86942)]))
         == Ok([0x22, 6, 3, 0x8e, 0x02, 0x9e, 0xa7, 0x05])
  {
    var items := [Scalar(3), Scalar(270), Scalar(86942)];
    assert Varint(270) == [0x8e, 0x02] && Varint(679) == [0xa7, 0x05];
    assert Varint(86942) == [0x9e] + Varint(679) == [0x9e, 0xa7, 0x05];
    OneMore(items, 1, [], [3], [3]);
    OneMore(items, 2, [3], [0x8e, 0x02], [3, 0x8e, 0x02]);
    OneMore(items, 3, [3, 0x8e, 0x02], [0x9e, 0xa7, 0x05], [3, 0x8e, 0x02, 0x9e, 0xa7, 0x05]);
    var run: seq<Byte> := [3, 0x8e, 0x02, 0x9e, 0xa7, 0x05];
    assert Packed(Int(32), items, 3) == Ok(run);
    assert Delimited(Ok(run)) == Ok([6] + run) && Key(4, 2) == [0x22];
    assert [0x22] + ([6] + run) == [0x22, 6, 3, 0x8e, 0x02, 0x9e, 0xa7, 0x05];
  }

  /** A singular zero is not written, an optional one that is set is. */
  lemma ZerosWritten()
    ensures EncodedField(Field(1, Int(32), Singular, None), One(Scalar(0))) == Ok([])
    ensures EncodedField(Field(1, Int(32), Singular, None), One(Scalar(5))) == Ok([0x08, 5])
    ensures EncodedField(Field(1, Int(32), Optional, None), Present(Scalar(0))) == Ok([0x08, 0])
    ensures EncodedField(Field(1, Int(32), Optional, None), Absent) == Ok([])
    ensures EncodedField(Field(1, Text(8), Singular, None), One(Blob([]))) == Ok([])
    ensures EncodedField(Field(1, Bytes(8), Singular, None), One(Blob([]))) == Ok([])
    ensures EncodedField(Field(1, Message(Schema([Field(1, Int(32), Singular, None)])), Singular, None),
                         One(Nested([One(Scalar(0))]))) == Ok([])
  {
    assert Key(1, 0) == [0x08];
    Behind(Field(1, Int(32), Singular, None), Scalar(5), [0x08], [5], [0x08, 5]);
    Behind(Field(1, Int(32), Optional, None), Scalar(0), [0x08], [0], [0x08, 0]);
  }
}

module NameSamples {
  import opened InternalKeys
  import opened UvResults
  import opened PunycodeText
  import opened DomainNames

  /** A letter, and a full stop of some kind behind it. */
  lemma LetterAndStop(c: CodePoint, stop: CodePoint, rest: seq<CodePoint>, cs: seq<CodePoint>)
    requires 97 <= c < 123 && (stop == 46 || stop == 0x3002 || stop == 0xFF0E || stop == 0xFF61) && cs == [c, stop] + rest
    ensures HostText(cs) == Cat([c, 46], HostText(rest))
  {
    hide LabelText;
    OneLetter(c);
    assert cs[1..][0] == stop && FirstOf(Dots, cs[1..]) == 0;
    assert FirstOf(Dots, cs) == 1;
    assert cs[..1] == [c] && cs[2..] == rest;
    assert [c] + [DOT] == [c, 46];
  }

  lemma OneLetter(c: CodePoint)
    requires 97 <= c < 123
    ensures LabelText([c]) == Ok([c])
  {
  }

  lemma LastLetter(c: CodePoint)
    requires 97 <= c < 123
    ensures HostText([c]) == Ok([c])
  {
    hide LabelText;
    OneLetter(c);
    assert [c][1..] == [] && FirstOf(Dots, []) == 0;
    assert FirstOf(Dots, [c]) == 1 && [c][..1] == [c];
  }

  /** A name without any of them is one label. */
  lemma OneLabel(cs: seq<CodePoint>)
    requires cs != [] && forall i :: 0 <= i < |cs| ==> cs[i] != 46 && cs[i] != 0x3002 && cs[i] != 0xFF0E && cs[i] != 0xFF61
    ensures HostText(cs) == LabelText(cs)
  {
    hide LabelText;
    assert FirstOf(Dots, cs) == |cs| && cs[..|cs|] == cs;
  }

  /** Four kinds of full stop between the letters a to e. */
  lemma FullStops()
    ensures HostText([97, 46, 98, 0x3002, 99, 0xFF0E, 100, 0xFF61, 101]) == Ok([97, 46, 98, 46, 99, 46, 100, 46, 101])
  {
    hide HostText;
    LastLetter(101);
    LetterAndStop(100, 0xFF61, [101], [100, 0xFF61, 101]);
    LetterAndStop(99, 0xFF0E, [100, 0xFF61, 101], [99, 0xFF0E, 100, 0xFF61, 101]);
    LetterAndStop(98, 0x3002, [99, 0xFF0E, 100, 0xFF61, 101], [98, 0x3002, 99, 0xFF0E, 100, 0xFF61, 101]);
    LetterAndStop(97, 46, [98, 0x3002, 99, 0xFF0E, 100, 0xFF61, 101], [97, 46, 98, 0x3002, 99, 0xFF0E, 100, 0xFF61, 101]);
    assert [100, 46] + [101] == [100, 46, 101];
    assert [99, 46] + [100, 46, 101] == [99, 46, 100, 46, 101];
    assert [98, 46] + [99, 46, 100, 46, 101] == [98, 46, 99, 46, 100, 46, 101];
    assert [97, 46] + [98, 46, 99, 46, 100, 46, 101] == [97, 46, 98, 46, 99, 46, 100, 46, 101];
  }
}
