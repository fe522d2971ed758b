/** What the decoder reads a value from, on any bytes: the numbers a varint may stand for, texts, byte strings and records to
    be skipped (pb_decode.c). */
module ValueGrammar {
  import opened InternalKeys
  import opened LogFormat
  import opened Coding
  import opened CodingGrammar
  import opened MessageSchemas
  import opened WireFormat
  import opened MessageDecoder

  // ---------- varints ----------

  /** Ten bytes at most; bits beyond the sixty-fourth are lost. */
  lemma Number64Iff(b: seq<Byte>, rest: seq<Byte>, v: nat)
    ensures DecodeVarint(b + rest) == Ok(Read(v, rest)) <==> Spells64(b, v)
  {
    hide GetVarint64, Spells64;
    Varint64Iff(b, rest, v);
  }

  /** Behind the first 32 bits, from the `i`th byte on: nothing, or the extension of a sign. */
  predicate Extends(c: seq<Byte>, i: nat, v: nat) {
    c == [] || ((c[0] % 128 == 0 || (v >= 0x8000_0000 && c[0] == if i < 9 then 0xff else 0x01)) && Extends(c[1..], i + 1, v))
  }

  /** Any length; bits 32 to 34 of five bytes must be zero, and of longer ones are lost. */
  predicate Reads32(b: seq<Byte>, v: nat) {
    && IsVarint(b) && v == GroupsValue(b) % TWO_32
    && (|b| == 5 ==> b[4] < 16) && (|b| > 5 ==> Extends(b[5..], 5, v))
  }

  lemma {:induction false} ExtensionIff(c: seq<Byte>, rest: seq<Byte>, i: nat, result: nat, v: nat)
    requires i >= 5 && result < TWO_32
    ensures Varint32From(c + rest, 7 * i, result) == Ok(Read(v, rest)) <==> IsVarint(c) && v == result && Extends(c, i, v)
    decreases |c|
  {
    if c == [] {
      assert c + rest == rest;
    } else {
      IsVarintFrom(c);
      OneByte(c, rest);
      if c[0] >= 128 {
        ExtensionIff(c[1..], rest, i + 1, result, v);
      }
    }
  }

  lemma OneByte(c: seq<Byte>, rest: seq<Byte>)
    requires c != []
    ensures c + rest != [] && (c + rest)[0] == c[0] && (c + rest)[1..] == c[1..] + rest
    ensures c[1..] + rest == rest <==> |c| == 1
  {
    assert (c + rest)[1..] == c[1..] + rest;
    if c[1..] + rest == rest {
      assert |c[1..] + rest| == |rest|;
    }
  }

  /** Adding group by group, and losing what exceeds 32 bits at every step. */
  function Total(c: seq<Byte>, i: nat, result: nat): nat
    requires i < 5
  {
    (result + Shifted(GroupsValue(c), 7 * i)) % TWO_32
  }

  lemma ModAdd(a: nat, b: nat)
    ensures (a % TWO_32 + b) % TWO_32 == (a + b) % TWO_32
  {
  }

  lemma TotalStep(c: seq<Byte>, i: nat, result: nat)
    requires c != [] && i < 5
    ensures var next := (result + Shifted(c[0] % 128, 7 * i)) % TWO_32;
            Total(c, i, result) == if i < 4 then Total(c[1..], i + 1, next) else next
  {
    hide Shifted, GroupsValue;
    LowGroup(c);
    if i < 4 {
      SumBelow(result, c[0] % 128, GroupsValue(c[1..]), 7 * i);
    } else {
      SumAbove(result, c[0] % 128, GroupsValue(c[1..]));
    }
  }

  lemma NothingMore(i: nat, result: nat)
    requires i < 5 && result < TWO_32
    ensures Total([], i, result) == result
  {
  }

  lemma SumBelow(result: nat, low: nat, high: nat, bitpos: nat)
    requires bitpos == 0 || bitpos == 7 || bitpos == 14 || bitpos == 21
    ensures (result + Shifted(low + 128 * high, bitpos)) % TWO_32
         == ((result + Shifted(low, bitpos)) % TWO_32 + Shifted(high, bitpos + 7)) % TWO_32
  {
    ShiftedSum(low, high, bitpos);
    hide Shifted;
    ModAdd(result + Shifted(low, bitpos), Shifted(high, bitpos + 7));
  }

  lemma SumAbove(result: nat, low: nat, high: nat)
    ensures (result + Shifted(low + 128 * high, 28)) % TWO_32 == (result + Shifted(low, 28)) % TWO_32
  {
    assert Shifted(low + 128 * high, 28) == Shifted(low, 28) + TWO_32 * (8 * high);
    hide Shifted;
    Multiple(result + Shifted(low, 28), 8 * high);
  }

  lemma ShiftedSum(low: nat, high: nat, bitpos: nat)
    requires bitpos == 0 || bitpos == 7 || bitpos == 14 || bitpos == 21
    ensures Shifted(low + 128 * high, bitpos) == Shifted(low, bitpos) + Shifted(high, bitpos + 7)
  {
  }

  lemma Multiple(a: nat, q: nat)
    ensures (a + TWO_32 * q) % TWO_32 == a % TWO_32
  {
  }

  lemma {:induction false} Number32From(c: seq<Byte>, rest: seq<Byte>, i: nat, result: nat, v: nat)
    requires i < 5 && result < TWO_32
    ensures Varint32From(c + rest, 7 * i, result) == Ok(Read(v, rest)) <==>
            && IsVarint(c) && v == Total(c, i, result)
            && (|c| == 5 - i ==> c[4-i] < 16) && (|c| > 5 - i ==> Extends(c[5-i..], 5, v))
    decreases |c|
  {
    hide Extends, Shifted, GroupsValue, Total;
    if c == [] {
      assert c + rest == rest;
    } else {
      IsVarintFrom(c);
      OneByte(c, rest);
      TotalStep(c, i, result);
      var next := (result + Shifted(c[0] % 128, 7 * i)) % TWO_32;
      if c[0] < 128 {
        if i < 4 {
          NothingMore(i + 1, next);
        }
      } else {
        if i < 4 {
          Number32From(c[1..], rest, i + 1, next, v);
          assert |c| > 5 - i ==> c[1..][4-i..] == c[5-i..];
        } else {
          ExtensionIff(c[1..], rest, 5, next, v);
        }
      }
    }
  }

  /** The 32-bit numbers of keys, lengths and booleans. */
  lemma Number32Iff(b: seq<Byte>, rest: seq<Byte>, v: nat)
    ensures DecodeVarint32(b + rest) == Ok(Read(v, rest)) <==> Reads32(b, v)
  {
    hide Varint32From, Extends, GroupsValue;
    Number32From(b, rest, 0, 0, v);
  }

  // ---------- numbers ----------

  function Width(bits: nat): nat {
    if bits == 64 then TWO_64 else TWO_32
  }

  /** A signed number of 64 bits is the one that differs from the varint by a multiple of 2^64; narrower ones look at the low
      32 bits only. An unsigned one is the varint itself, a zigzag one is folded. */
  predicate Denotes(k: Kind, w: nat, n: int)
    requires k.Int? || k.Uint? || k.Sint?
  {
    match k
    case Int(bits) => (n - w) % Width(bits) == 0
    case Uint(_) => n == w
    case Sint(_) => w == if n >= 0 then 2 * n else -2 * n - 1
  }

  predicate Holds(k: Kind, n: int)
    requires k.Int? || k.Uint? || k.Sint?
  {
    match k
    case Int(bits) => -(Limit(bits) / 2) <= n < Limit(bits) / 2
    case Uint(bits) => 0 <= n < Limit(bits)
    case Sint(bits) => -(Limit(bits) / 2) <= n < Limit(bits) / 2
  }

  function Limit(bits: nat): int {
    if bits == 8 then 256 else if bits == 16 then 65536 else Width(bits)
  }

  lemma {:induction false} TakenIff(k: Kind, w: nat, n: int)
    requires WfKind(k) && (k.Int? || k.Uint? || k.Sint?) && w < TWO_64
    ensures Taken(k, w) == Ok(n) <==> Denotes(k, w, n) && Holds(k, n)
  {
    if k.Int? {
      if k.bits == 64 {
        Congruent(w, TWO_64, n);
      } else {
        LowBits(w);
        Congruent(w % TWO_32, TWO_32, n);
        SameClass(w, n);
      }
    }
  }

  lemma Congruent(w: nat, m: nat, n: int)
    requires w < m && (m == TWO_32 || m == TWO_64)
    ensures -(m / 2) <= n < m / 2 ==> ((n - w) % m == 0 <==> n == if w < m / 2 then w else w - m)
  {
  }

  lemma LowBits(w: nat)
    ensures w == w % TWO_32 + TWO_32 * (w / TWO_32)
  {
  }

  lemma SameClass(w: nat, n: int)
    ensures (n - w) % TWO_32 == 0 <==> (n - w % TWO_32) % TWO_32 == 0
  {
    var q := w / TWO_32;
    LowBits(w);
    assert n - w == n - w % TWO_32 - TWO_32 * q;
    assert (n - w % TWO_32 - TWO_32 * q) % TWO_32 == (n - w % TWO_32) % TWO_32;
  }

  /** The bytes a scalar may be read from. */
  ghost predicate SpellsScalar(k: Kind, b: seq<Byte>, n: int)
    requires Packable(k)
  {
    match k
    case Bool => exists w: nat :: Reads32(b, w) && n == if w == 0 then 0 else 1
    case Word32 => |b| == 4 && n == LowFirst(b)
    case Word64 => |b| == 8 && n == LowFirst(b)
    case _ => exists w: nat :: Spells64(b, w) && Denotes(k, w, n) && Holds(k, n)
  }

  function LowFirst(b: seq<Byte>): nat {
    if b == [] then 0 else b[0] as int + 256 * LowFirst(b[1..])
  }

  lemma WordsLowFirst(b: seq<Byte>)
    ensures |b| == 4 ==> LowFirst(b) == DecodeFixed32(b)
    ensures |b| == 8 ==> LowFirst(b) == DecodeFixed64(b)
  {
    if |b| == 4 {
      FourLowFirst(b);
    }
    if |b| == 8 {
      FourLowFirst(b[..4]);
      FourLowFirst(b[4..]);
      Joined(b[..4], b[4..]);
      assert b == b[..4] + b[4..];
    }
  }

  lemma FourLowFirst(b: seq<Byte>)
    requires |b| == 4
    ensures LowFirst(b) == DecodeFixed32(b)
  {
    assert b[1..][1..] == b[2..] && b[2..][1..] == b[3..] && b[3..][1..] == [];
    assert LowFirst(b[3..]) == b[3] && LowFirst(b[2..]) == b[2] as int + 256 * LowFirst(b[3..]);
    assert LowFirst(b[1..]) == b[1] as int + 256 * LowFirst(b[2..]);
  }

  lemma Joined(a: seq<Byte>, b: seq<Byte>)
    requires |a| == 4
    ensures LowFirst(a + b) == LowFirst(a) + TWO_32 * LowFirst(b)
  {
    assert a + b == [a[0]] + ([a[1]] + ([a[2]] + ([a[3]] + b)));
    Front(a[3], b);
    Front(a[2], [a[3]] + b);
    Front(a[1], [a[2]] + ([a[3]] + b));
    Front(a[0], [a[1]] + ([a[2]] + ([a[3]] + b)));
    FourLowFirst(a);
  }

  lemma Front(x: Byte, b: seq<Byte>)
    ensures LowFirst([x] + b) == x as int + 256 * LowFirst(b)
  {
    assert ([x] + b)[1..] == b;
  }

  /** A scalar is read exactly from the bytes that spell it. */
  lemma ScalarIff(k: Kind, b: seq<Byte>, rest: seq<Byte>, n: int)
    requires WfKind(k) && Packable(k)
    ensures DecodedScalar(k, b + rest) == Ok(Read(Scalar(n), rest)) <==> SpellsScalar(k, b, n)
  {
    match k
    case Bool => BoolIff(b, rest, n);
    case Word32 => WordIff(4, b, rest);
    case Word64 => WordIff(8, b, rest);
    case _ => VarintScalarIff(k, b, rest, n);
  }

  lemma BoolIff(b: seq<Byte>, rest: seq<Byte>, n: int)
    ensures DecodedScalar(Bool, b + rest) == Ok(Read(Scalar(n), rest)) <==> SpellsScalar(Bool, b, n)
  {
    hide DecodeVarint32, GroupsValue, IsVarint, Extends;
    Number32Iff(b, rest, 0);
    Number32Iff(b, rest, GroupsValue(b) % TWO_32);
    var r := DecodeVarint32(b + rest);
    if r.Ok? {
      Number32Iff(b, rest, r.value.value);
    }
  }

  lemma WordIff(size: nat, b: seq<Byte>, rest: seq<Byte>)
    requires size == 4 || size == 8
    ensures |b + rest| >= size && (b + rest)[size..] == rest <==> |b| == size
    ensures |b| == size ==> (b + rest)[..size] == b
    ensures |b| == 4 ==> DecodeFixed32(b) == LowFirst(b)
    ensures |b| == 8 ==> DecodeFixed64(b) == LowFirst(b)
  {
    WordsLowFirst(b);
    if |b + rest| >= size && (b + rest)[size..] == rest {
      assert |(b + rest)[size..]| == |b| + |rest| - size;
    }
    if |b| == size {
      assert (b + rest)[..size] == b && (b + rest)[size..] == rest;
    }
  }

  lemma VarintScalarIff(k: Kind, b: seq<Byte>, rest: seq<Byte>, n: int)
    requires WfKind(k) && (k.Int? || k.Uint? || k.Sint?)
    ensures DecodedScalar(k, b + rest) == Ok(Read(Scalar(n), rest)) <==> SpellsScalar(k, b, n)
  {
    hide DecodeVarint, Spells64, Taken, Denotes, Holds;
    var r := DecodeVarint(b + rest);
    if r.Ok? {
      Number64Iff(b, rest, r.value.value);
      TakenIff(k, r.value.value, n);
    }
    if SpellsScalar(k, b, n) {
      var w: nat :| Spells64(b, w) && Denotes(k, w, n) && Holds(k, n);
      Number64Iff(b, rest, w);
      TakenIff(k, w, n);
    }
  }

  // ---------- texts and byte strings ----------

  /** A text is what is before the first zero byte. */
  predicate TextOf(payload: seq<Byte>, text: seq<Byte>) {
    text <= payload && 0 !in text && (text == payload || payload[|text|] == 0)
  }

  /** A length and as many bytes, which must fit; an empty one stands for zeros where the length is fixed. */
  predicate SpellsBlob(k: Kind, b: seq<Byte>, bytes: seq<Byte>)
    requires k.Bytes? || k.Text? || k.FixedBytes?
  {
    exists m: nat :: m <= |b| && Reads32(b[..m], |b| - m) &&
      match k
      case Bytes(capacity) => |b| - m <= capacity && bytes == b[m..]
      case Text(size) => |b| - m < size && TextOf(b[m..], bytes)
      case FixedBytes(length) =>
        |bytes| == length && if m == |b| then forall i :: 0 <= i < length ==> bytes[i] == 0 else bytes == b[m..]
  }

  lemma {:induction false} CutIff(payload: seq<Byte>, text: seq<Byte>)
    ensures Cut(payload) == text <==> TextOf(payload, text)
  {
    if payload != [] && payload[0] != 0 {
      if text != [] && text[0] == payload[0] {
        CutIff(payload[1..], text[1..]);
        assert payload == [payload[0]] + payload[1..] && text == [text[0]] + text[1..];
      }
      if Cut(payload) == text {
        CutIff(payload[1..], text[1..]);
      }
    }
  }

  lemma BlobIff(k: Kind, b: seq<Byte>, rest: seq<Byte>, bytes: seq<Byte>)
    requires k.Bytes? || k.Text? || k.FixedBytes?
    ensures DecodedBlob(k, b + rest) == Ok(Read(Blob(bytes), rest)) <==> SpellsBlob(k, b, bytes)
  {
    hide DecodeVarint32, Reads32, Cut, TextOf;
    if SpellsBlob(k, b, bytes) {
      BlobIsRead(k, b, rest, bytes);
    }
    if DecodedBlob(k, b + rest) == Ok(Read(Blob(bytes), rest)) {
      ReadIsBlob(k, b, rest, bytes);
    }
  }

  lemma BlobIsRead(k: Kind, b: seq<Byte>, rest: seq<Byte>, bytes: seq<Byte>)
    requires (k.Bytes? || k.Text? || k.FixedBytes?) && SpellsBlob(k, b, bytes)
    ensures DecodedBlob(k, b + rest) == Ok(Read(Blob(bytes), rest))
  {
    hide DecodeVarint32, Reads32, Cut, TextOf;
    var m: nat :| m <= |b| && Reads32(b[..m], |b| - m) &&
      match k
      case Bytes(capacity) => |b| - m <= capacity && bytes == b[m..]
      case Text(size) => |b| - m < size && TextOf(b[m..], bytes)
      case FixedBytes(length) =>
        |bytes| == length && if m == |b| then forall i :: 0 <= i < length ==> bytes[i] == 0 else bytes == b[m..];
    var n := |b| - m;
    Two(b, m, rest);
    Number32Iff(b[..m], b[m..] + rest, n);
    assert (b[m..] + rest)[..n] == b[m..] && (b[m..] + rest)[n..] == rest;
    CutIff(b[m..], bytes);
    if k.FixedBytes? && m == |b| {
      assert b[m..] + rest == rest && bytes == Zeros(k.length);
    }
  }

  lemma ReadIsBlob(k: Kind, b: seq<Byte>, rest: seq<Byte>, bytes: seq<Byte>)
    requires k.Bytes? || k.Text? || k.FixedBytes?
    requires DecodedBlob(k, b + rest) == Ok(Read(Blob(bytes), rest))
    ensures SpellsBlob(k, b, bytes)
  {
    hide DecodeVarint32, Reads32, Cut, TextOf;
    var size := DecodeVarint32(b + rest).value;
    Number32Leaves(b + rest);
    Splits(b, rest, size.rest);
    var m := |b| + |rest| - |size.rest|;
    Number32Iff(b[..m], size.rest, size.value);
    assert size.rest[..|b|-m] == b[m..] && |b| - m == size.value;
    CutIff(b[m..], bytes);
  }

  lemma {:induction false} Number32FromLeaves(input: seq<Byte>, bitpos: nat, result: nat)
    requires result < TWO_32 && Varint32From(input, bitpos, result).Ok?
    ensures var rest := Varint32From(input, bitpos, result).value.rest; input == input[..|input|-|rest|] + rest
    decreases |input|
  {
    var byte := input[0];
    if byte >= 128 {
      var result' := if bitpos >= 32 then result else (result + Shifted(byte % 128, bitpos)) % 0x1_0000_0000;
      Number32FromLeaves(input[1..], bitpos + 7, result');
      OneMore(input, Varint32From(input, bitpos, result).value.rest);
    }
  }

  lemma Number32Leaves(input: seq<Byte>)
    requires DecodeVarint32(input).Ok?
    ensures var rest := DecodeVarint32(input).value.rest; input == input[..|input|-|rest|] + rest
  {
    Number32FromLeaves(input, 0, 0);
  }

  // ---------- records nobody knows ----------

  /** What may be skipped: a varint of any length, eight bytes, a length and as many bytes, or four; no other wire type. */
  predicate Skippable(wireType: nat, b: seq<Byte>) {
    match wireType
    case 0 => IsVarint(b)
    case 1 => |b| == 8
    case 2 => exists m: nat :: m <= |b| && Reads32(b[..m], |b| - m)
    case 5 => |b| == 4
    case _ => false
  }

  lemma {:induction false} SkipVarintIff(b: seq<Byte>, rest: seq<Byte>)
    ensures SkipVarint(b + rest) == Ok(rest) <==> IsVarint(b)
    decreases |b|
  {
    if b == [] {
      assert b + rest == rest;
    } else {
      IsVarintFrom(b);
      OneByte(b, rest);
      if b[0] >= 128 {
        SkipVarintIff(b[1..], rest);
      }
    }
  }

  /** A record with an unknown tag is skipped exactly as its wire type says. */
  lemma SkipIff(wireType: nat, b: seq<Byte>, rest: seq<Byte>)
    ensures SkipField(b + rest, wireType) == Ok(rest) <==> Skippable(wireType, b)
  {
    hide SkipVarint, IsVarint, Reads32, DecodeVarint32;
    if wireType == 0 {
      SkipVarintIff(b, rest);
    } else if wireType == 1 {
      WordIff(8, b, rest);
    } else if wireType == 5 {
      WordIff(4, b, rest);
    } else if wireType == 2 {
      DelimitedIff(b, rest);
    }
  }

  lemma DelimitedIff(b: seq<Byte>, rest: seq<Byte>)
    ensures SkipField(b + rest, 2) == Ok(rest) <==> Skippable(2, b)
  {
    hide Reads32, DecodeVarint32;
    if Skippable(2, b) {
      var m: nat :| m <= |b| && Reads32(b[..m], |b| - m);
      Two(b, m, rest);
      Number32Iff(b[..m], b[m..] + rest, |b| - m);
      assert (b[m..] + rest)[|b| - m..] == rest;
    }
    if SkipField(b + rest, 2) == Ok(rest) {
      var size := DecodeVarint32(b + rest).value;
      Number32Leaves(b + rest);
      Splits(b, rest, size.rest);
      var m := |b| + |rest| - |size.rest|;
      Number32Iff(b[..m], size.rest, size.value);
      assert |size.rest[size.value..]| == |rest|;
    }
  }
}
