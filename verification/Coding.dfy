/** Base-128 varints and length-prefixed strings, as the manifest and the write batches use them. */
module Coding {
  import opened InternalKeys
  import opened LogFormat

  datatype Parsed<+T> = Parsed(value: T, rest: seq<Byte>)

  const TWO_64: nat := 0x1_0000_0000_0000_0000

  /** Eight bytes, low first. */
  function Fixed64(v: nat): (bs: seq<Byte>)
    ensures |bs| == 8
  {
    Fixed32(v % 0x1_0000_0000) + Fixed32(v / 0x1_0000_0000 % 0x1_0000_0000)
  }

  function DecodeFixed64(bs: seq<Byte>): nat
    requires |bs| == 8
  {
    DecodeFixed32(bs[..4]) + 0x1_0000_0000 * DecodeFixed32(bs[4..])
  }

  lemma Fixed64RoundTrip(v: nat)
    requires v < TWO_64
    ensures DecodeFixed64(Fixed64(v)) == v
  {
    Fixed32RoundTrip(v % 0x1_0000_0000);
    Fixed32RoundTrip(v / 0x1_0000_0000 % 0x1_0000_0000);
  }

  function Varint(v: nat): (bs: seq<Byte>)
    ensures bs != []
  {
    if v < 128 then [v] else [v % 128 + 128] + Varint(v / 128)
  }

  /** At most `limit` bytes are looked at; a missing end or a longer code is a failure. */
  function GetVarint(input: seq<Byte>, limit: nat): (r: Option<Parsed<nat>>)
    ensures r.Some? ==> |r.value.rest| < |input|
    decreases limit
  {
    if input == [] || limit == 0 then None
    else if input[0] < 128 then Some(Parsed(input[0], input[1..]))
    else
      var r := GetVarint(input[1..], limit - 1);
      if r.None? then None else Some(Parsed(input[0] - 128 + 128 * r.value.value, r.value.rest))
  }

  /** Bits beyond the width fall off, as they do in the shifts of the source. */
  function GetVarint32(input: seq<Byte>): (r: Option<Parsed<nat>>)
    ensures r.Some? ==> |r.value.rest| < |input| && r.value.value < TWO_32
  {
    var r := GetVarint(input, 5);
    if r.None? then None else Some(Parsed(r.value.value % TWO_32, r.value.rest))
  }

  function GetVarint64(input: seq<Byte>): (r: Option<Parsed<nat>>)
    ensures r.Some? ==> |r.value.rest| < |input| && r.value.value < TWO_64
  {
    var r := GetVarint(input, 10);
    if r.None? then None else Some(Parsed(r.value.value % TWO_64, r.value.rest))
  }

  function Power128(n: nat): nat {
    if n == 0 then 1 else 128 * Power128(n - 1)
  }

  lemma Halves(v: nat, limit: nat)
    requires 128 <= v < Power128(limit)
    ensures limit > 0 && v / 128 < Power128(limit - 1) && v == v % 128 + 128 * (v / 128)
  {
  }

  lemma VarintContinues(v: nat, rest: seq<Byte>)
    requires v >= 128
    ensures Varint(v) + rest == [v % 128 + 128] + (Varint(v / 128) + rest)
  {
  }

  lemma TakeByte(b: Byte, tail: seq<Byte>, limit: nat)
    requires b >= 128 && limit > 0
    ensures GetVarint([b] + tail, limit) ==
            var r := GetVarint(tail, limit - 1);
            if r.None? then None else Some(Parsed(b - 128 + 128 * r.value.value, r.value.rest))
  {
    assert ([b] + tail)[1..] == tail;
  }

  lemma {:induction false} VarintReadsBack(v: nat, limit: nat, rest: seq<Byte>)
    requires v < Power128(limit) && limit > 0
    ensures GetVarint(Varint(v) + rest, limit) == Some(Parsed(v, rest))
    decreases limit
  {
    if v < 128 {
      assert (Varint(v) + rest)[1..] == rest;
    } else {
      Halves(v, limit);
      VarintContinues(v, rest);
      VarintReadsBack(v / 128, limit - 1, rest);
      TakeByte(v % 128 + 128, Varint(v / 128) + rest, limit);
    }
  }

  lemma Widths()
    ensures TWO_32 <= Power128(5) && TWO_64 <= Power128(10)
  {
    assert Power128(2) == 0x4000;
    assert Power128(4) == 0x1000_0000;
    assert Power128(6) == 128 * (128 * Power128(4));
    assert Power128(8) == 128 * (128 * Power128(6));
    assert Power128(10) == 128 * (128 * Power128(8));
  }

  lemma Varint32ReadsBack(v: nat, rest: seq<Byte>)
    requires v < TWO_32
    ensures GetVarint32(Varint(v) + rest) == Some(Parsed(v, rest))
  {
    Widths();
    VarintReadsBack(v, 5, rest);
  }

  lemma Varint64ReadsBack(v: nat, rest: seq<Byte>)
    requires v < TWO_64
    ensures GetVarint64(Varint(v) + rest) == Some(Parsed(v, rest))
  {
    Widths();
    VarintReadsBack(v, 10, rest);
  }

  function LengthPrefixed(s: seq<Byte>): seq<Byte> {
    Varint(|s|) + s
  }

  function GetLengthPrefixed(input: seq<Byte>): (r: Option<Parsed<seq<Byte>>>)
    ensures r.Some? ==> |r.value.rest| < |input|
  {
    var n := GetVarint32(input);
    if n.None? || |n.value.rest| < n.value.value then None
    else Some(Parsed(n.value.rest[..n.value.value], n.value.rest[n.value.value..]))
  }

  lemma LengthPrefixedReadsBack(s: seq<Byte>, rest: seq<Byte>)
    requires |s| < TWO_32
    ensures GetLengthPrefixed(LengthPrefixed(s) + rest) == Some(Parsed(s, rest))
  {
    assert LengthPrefixed(s) + rest == Varint(|s|) + (s + rest);
    Varint32ReadsBack(|s|, s + rest);
    assert (s + rest)[..|s|] == s && (s + rest)[|s|..] == rest;
  }
}
