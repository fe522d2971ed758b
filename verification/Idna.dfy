/** What a domain name is converted to (src/idna.c), and how it is read back. */
module DomainNames {
  import opened InternalKeys
  import opened UvResults
  import opened PunycodeText

  const DOT: nat := 46
  const MAX_POINT: nat := 0x10FFFF

  /** "xn--" */
  const Prefix: Text := [120, 110, HYPHEN, HYPHEN]

  predicate Ascii(cs: seq<CodePoint>) {
    forall i :: 0 <= i < |cs| ==> cs[i] < 128
  }

  function Basics(cs: seq<CodePoint>): seq<CodePoint> {
    Handled(cs, 128, 0, |cs|)
  }

  /** Only what begins with the prefix needs decoding. An ill-formed input byte decodes to MAX_UINT. */
  function LabelText(cs: seq<CodePoint>): Result<Text> {
    if MAX_UINT in cs then Err(EINVAL)
    else if Ascii(cs) then Ok(cs)
    else
      var basics := Basics(cs);
      Cat(Prefix + basics + if basics == [] then [] else [HYPHEN], FromRound(cs, 128, 0, |basics|, 72, true))
  }

  /** The prefix in any case: names are compared without it. */
  predicate HasPrefix(text: Text) {
    |text| >= 4 && text[0] in {88, 120} && text[1] in {78, 110} && text[2] == HYPHEN && text[3] == HYPHEN
  }

  function ReadLabel(text: Text): Result<seq<CodePoint>> {
    if HasPrefix(text) then Decoded(text[4..]) else Ok(text)
  }

  // ---------- a label reads back ----------

  /** Lower-case letters and digits: neither a hyphen nor a dot. */
  predicate Plain(text: Text) {
    forall i :: 0 <= i < |text| ==> 97 <= text[i] < 123 || 48 <= text[i] < 58
  }

  lemma {:induction false} NumeralIsPlain(q: nat, k: nat, bias: nat)
    ensures Plain(Numeral(q, k, bias))
  {
    var t := Threshold(k, bias);
    if q >= t {
      NumeralIsPlain(High(q, t), k + 36, bias);
    }
  }

  lemma {:induction false} ScanIsPlain(cs: seq<CodePoint>, n: CodePoint, j: nat, delta: nat, h: nat, bias: nat,
                                       first: bool)
    requires j <= |cs| && n in cs
    ensures var r := FromScan(cs, n, j, delta, h, bias, first); r.Ok? ==> Plain(r.value)
    decreases Left(cs, n, |cs|), 0, |cs| - j
  {
    hide Numeral, Adapt, FromRound, Left, LeastFrom;
    if j == |cs| {
      FewerLeft(cs, n, n, |cs|);
      assert cs[..|cs|] == cs;
      RoundIsPlain(cs, n + 1, delta + 1, h, bias, first);
    } else if cs[j] == n {
      NumeralIsPlain(delta, 36, bias);
      ScanIsPlain(cs, n, j + 1, 0, h + 1, Adapt(delta, h + 1, first), false);
    } else {
      ScanIsPlain(cs, n, j + 1, if cs[j] < n then delta + 1 else delta, h, bias, first);
    }
  }

  lemma {:induction false} RoundIsPlain(cs: seq<CodePoint>, n: CodePoint, delta: nat, h: nat, bias: nat, first: bool)
    ensures var r := FromRound(cs, n, delta, h, bias, first); r.Ok? ==> Plain(r.value)
    decreases Left(cs, n, |cs|), 1, 0
  {
    hide Left, FromScan, Ahead, Overflows;
    var m := LeastFrom(cs, n, |cs|);
    if m.Some? {
      LeftAtLeast(cs, n, m.value, |cs|);
      ScanIsPlain(cs, m.value, 0, Ahead(delta, m.value - n, h + 1), h, bias, first);
    }
  }

  lemma {:induction false} LastHyphenIs(text: Text, p: nat)
    requires p < |text| && text[p] == HYPHEN && HYPHEN !in text[p + 1..]
    ensures LastHyphen(text) == p
  {
    forall i | p < i < |text| ensures text[i] != HYPHEN {
      assert text[i] == text[p + 1..][i - p - 1];
    }
  }

  lemma {:induction false} HandledAreLess(cs: seq<CodePoint>, n: CodePoint, len: nat)
    requires len <= |cs|
    ensures forall c :: c in Handled(cs, n, 0, len) ==> c < n && c in cs
  {
    if len > 0 {
      HandledAreLess(cs, n, len - 1);
    }
  }

  /** What stands behind the prefix decodes to the label. */
  lemma EncodedDecodes(cs: seq<CodePoint>)
    requires !Ascii(cs) && LabelText(cs).Ok?
    ensures Prefix <= LabelText(cs).value && Decoded(LabelText(cs).value[4..]) == Ok(cs)
  {
    hide Handled, FromRound, DecodeFrom, LastHyphen;
    var basics, ext := Basics(cs), FromRound(cs, 128, 0, |Basics(cs)|, 72, true).value;
    var text := LabelText(cs).value[4..];
    HandledNowhere(cs, 128);
    RoundIsPlain(cs, 128, 0, |basics|, 72, true);
    RoundDecodes(cs, 128, 0, |basics|, 72, 128, 0);
    HandledAreLess(cs, 128, |cs|);
    if basics == [] {
      assert text == ext;
    } else {
      assert text == basics + [HYPHEN] + ext;
      LastHyphenIs(text, |basics|);
      assert text[..|basics|] == basics && text[|basics| + 1..] == ext;
      assert forall i :: 0 <= i < |basics| ==> text[i] == basics[i] && basics[i] in basics;
    }
  }

  lemma HandledNowhere(cs: seq<CodePoint>, n: CodePoint)
    ensures Handled(cs, n, 0, 0) == []
  {
  }

  /** Decoding never makes a text longer: each numeral has at least one digit. */
  lemma {:induction false} DecodedFromIsShort(text: Text, n: CodePoint, i: nat, bias: nat, output: seq<CodePoint>)
    ensures var r := DecodeFrom(text, n, i, bias, output); r.Ok? ==> |r.value| <= |text| + |output|
    decreases |text|
  {
    hide ReadNumeral, Adapt, Quotient, Rest;
    if text != [] && ReadNumeral(text, 36, bias, 1).Ok? {
      var r := ReadNumeral(text, 36, bias, 1).value;
      var points, sum := |output| + 1, i + r.value;
      var n', at := n + Quotient(sum, points), Rest(sum, points);
      DecodedFromIsShort(r.rest, n', at + 1, Adapt(r.value, points, i == 0), output[..at] + [n'] + output[at..]);
    }
  }

  lemma DecodedIsShort(text: Text)
    ensures Decoded(text).Ok? ==> |Decoded(text).value| <= |text|
  {
    var p := LastHyphen(text);
    if 0 < p < |text| {
      DecodedFromIsShort(text[p + 1..], 128, 0, 72, text[..p]);
    } else {
      DecodedFromIsShort(text, 128, 0, 72, []);
    }
  }

  /** A label that is all ASCII and begins like an encoded one, in either case, is passed through, and then misread. */
  predicate Mistakable(cs: seq<CodePoint>) {
    Ascii(cs) && HasPrefix(cs)
  }

  lemma LabelReadsBackIff(cs: seq<CodePoint>)
    requires LabelText(cs).Ok?
    ensures ReadLabel(LabelText(cs).value) == Ok(cs) <==> !Mistakable(cs)
    ensures ReadLabel(LabelText(cs).value).Ok? ==>
            |ReadLabel(LabelText(cs).value).value| <= |cs| - if Mistakable(cs) then 4 else 0
  {
    hide FromRound, Handled, Decoded;
    if Ascii(cs) {
      if HasPrefix(cs) {
        DecodedIsShort(cs[4..]);
      }
    } else {
      EncodedDecodes(cs);
    }
  }

  // ---------- a whole name ----------

  /** The full stops of three scripts and the ASCII one. */
  const Dots: set<CodePoint> := {DOT, 0x3002, 0xFF0E, 0xFF61}

  function FirstOf(stops: set<CodePoint>, cs: seq<CodePoint>): (p: nat)
    ensures p <= |cs| && (p < |cs| ==> cs[p] in stops)
    ensures forall i :: 0 <= i < p ==> cs[i] !in stops
  {
    if cs == [] || cs[0] in stops then 0 else 1 + FirstOf(stops, cs[1..])
  }

  function HostText(cs: seq<CodePoint>): Result<Text>
    decreases |cs|
  {
    if cs == [] then Ok([])
    else
      var p := FirstOf(Dots, cs);
      var part := LabelText(cs[..p]);
      if part.Err? || p == |cs| then part else Cat(part.value + [DOT], HostText(cs[p + 1..]))
  }

  function ReadHost(text: Text): Result<seq<CodePoint>>
    decreases |text|
  {
    if text == [] then Ok([])
    else
      var p := FirstOf({DOT}, text);
      var part := ReadLabel(text[..p]);
      if part.Err? || p == |text| then part else Cat(part.value + [DOT], ReadHost(text[p + 1..]))
  }

  /** The name with every full stop as the ASCII one. */
  function Normal(cs: seq<CodePoint>): (r: seq<CodePoint>)
    ensures |r| == |cs|
  {
    seq(|cs|, i requires 0 <= i < |cs| => if cs[i] in Dots then DOT else cs[i])
  }

  predicate SomeMistakable(cs: seq<CodePoint>)
    decreases |cs|
  {
    && cs != []
    && var p := FirstOf(Dots, cs);
       Mistakable(cs[..p]) || (p < |cs| && SomeMistakable(cs[p + 1..]))
  }

  lemma LabelHasNoDot(cs: seq<CodePoint>)
    requires LabelText(cs).Ok? && forall i :: 0 <= i < |cs| ==> cs[i] !in Dots
    ensures DOT !in LabelText(cs).value && (cs != [] ==> LabelText(cs).value != [])
  {
    hide FromRound, Handled;
    if !Ascii(cs) {
      HandledAreLess(cs, 128, |cs|);
      RoundIsPlain(cs, 128, 0, |Basics(cs)|, 72, true);
    }
  }

  lemma FirstOfIs(stops: set<CodePoint>, before: seq<CodePoint>, rest: seq<CodePoint>)
    requires forall c :: c in before ==> c !in stops
    requires rest == [] || rest[0] in stops
    ensures FirstOf(stops, before + rest) == |before|
  {
    assert forall i :: 0 <= i < |before| ==> (before + rest)[i] == before[i] && before[i] in before;
    assert rest != [] ==> (before + rest)[|before|] == rest[0];
  }

  lemma ReadLast(part: Text)
    requires part != [] && DOT !in part
    ensures ReadHost(part) == ReadLabel(part)
  {
    hide ReadLabel;
    FirstOfIs({DOT}, part, []);
    assert part + [] == part && part[..|part|] == part;
  }

  lemma ReadFirst(part: Text, rest: Text)
    requires DOT !in part
    ensures var read := ReadLabel(part);
            ReadHost(part + [DOT] + rest) == if read.Err? then read else Cat(read.value + [DOT], ReadHost(rest))
  {
    hide ReadLabel;
    var text := part + [DOT] + rest;
    FirstOfIs({DOT}, part, [DOT] + rest);
    assert text == part + ([DOT] + rest);
    assert text[..|part|] == part && text[|part| + 1..] == rest;
  }

  /** The reader splits the text where the writer split the name. */
  lemma HostParts(cs: seq<CodePoint>)
    requires cs != [] && HostText(cs).Ok?
    ensures var p := FirstOf(Dots, cs);
            var read := ReadLabel(LabelText(cs[..p]).value);
            && LabelText(cs[..p]).Ok? && (p < |cs| ==> HostText(cs[p + 1..]).Ok?)
            && ReadHost(HostText(cs).value)
            == if read.Err? || p == |cs| then read else Cat(read.value + [DOT], ReadHost(HostText(cs[p + 1..]).value))
  {
    hide LabelText, ReadLabel, FirstOf, ReadHost;
    var p := FirstOf(Dots, cs);
    LabelHasNoDot(cs[..p]);
    if p == |cs| {
      ReadLast(LabelText(cs[..p]).value);
    } else {
      ReadFirst(LabelText(cs[..p]).value, HostText(cs[p + 1..]).value);
    }
  }

  lemma EmptyHost()
    ensures HostText([]) == Ok([]) && ReadHost([]) == Ok([])
  {
  }

  lemma {:induction false} HostReadsBackIff(cs: seq<CodePoint>)
    requires HostText(cs).Ok?
    ensures ReadHost(HostText(cs).value) == Ok(Normal(cs)) <==> !SomeMistakable(cs)
    ensures ReadHost(HostText(cs).value).Ok? ==>
            |ReadHost(HostText(cs).value).value| <= |cs| - if SomeMistakable(cs) then 4 else 0
    decreases |cs|
  {
    hide LabelText, ReadLabel, Mistakable, HostText, ReadHost;
    if cs == [] {
      EmptyHost();
    } else {
      var p := FirstOf(Dots, cs);
      HostParts(cs);
      LabelReadsBackIff(cs[..p]);
      if p == |cs| {
        assert cs[..p] == cs && Normal(cs) == cs;
      } else {
        HostReadsBackIff(cs[p + 1..]);
        assert Normal(cs) == cs[..p] + [DOT] + Normal(cs[p + 1..]);
      }
    }
  }

  // ---------- a sample ----------

  /** The name "tudalin", with its second letter long and its last one palatal, is "xn--tdali-d8a8w". */
  lemma SampleLabel()
    ensures LabelText([116, 363, 100, 97, 108, 105, 326])
         == Ok(Prefix + [116, 100, 97, 108, 105, HYPHEN, 100, 56, 97, 56, 119])
  {
    hide FromScan, FromRound, Numeral, Adapt;
    var cs := [116, 363, 100, 97, 108, 105, 326];
    SampleRounds(cs);
    assert cs[1] == 363;
    assert Handled(cs, 128, 0, 2) == [116] && Handled(cs, 128, 0, 4) == [116, 100, 97];
    assert Handled(cs, 128, 0, 6) == [116, 100, 97, 108, 105];
    assert Basics(cs) == [116, 100, 97, 108, 105];
    assert Prefix + [116, 100, 97, 108, 105] + [HYPHEN] + [100, 56, 97, 56, 119]
        == Prefix + [116, 100, 97, 108, 105, HYPHEN, 100, 56, 97, 56, 119];
  }

  lemma SampleRounds(cs: seq<CodePoint>)
    requires cs == [116, 363, 100, 97, 108, 105, 326]
    ensures FromRound(cs, 128, 0, 5, 72, true) == Ok([100, 56, 97, 56, 119])
  {
    hide FromScan, FromRound, Numeral, Adapt, Left, LeastFrom, Handled;
    SampleLeast(cs);
    SampleNumerals();
    RoundAt(cs, 128, 0, 5, 72, true);
    assert cs[6] == 326 && cs[1] == 363;
    assert Below(cs, 326, 2, 4) == 2 && Below(cs, 326, 4, 6) == 2 && Below(cs, 326, 2, 6) == 4;
    assert Below(cs, 363, 4, 7) == 3 && Below(cs, 363, 2, 7) == 5;
    ScanSkips(cs, 326, 0, 6, 1188, 5, 72, true);
    ScanAt(cs, 326, 6, 1193, 5, 72, true);
    ScanAt(cs, 326, 7, 0, 6, 0, false);
    RoundAt(cs, 327, 1, 6, 0, false);
    assert FromRound(cs, 128, 0, 5, 72, true) == Cat([100, 56, 97], FromRound(cs, 327, 1, 6, 0, false));
    ScanSkips(cs, 363, 0, 1, 253, 6, 0, false);
    ScanAt(cs, 363, 1, 254, 6, 0, false);
    ScanSkips(cs, 363, 2, 7, 0, 7, 28, false);
    ScanAt(cs, 363, 7, 5, 7, 28, false);
    RoundAt(cs, 364, 6, 7, 28, false);
    assert FromRound(cs, 327, 1, 6, 0, false) == Cat([56, 119], Ok([]));
    assert [100, 56, 97] + ([56, 119] + []) == [100, 56, 97, 56, 119];
  }

  lemma SampleLeast(cs: seq<CodePoint>)
    requires cs == [116, 363, 100, 97, 108, 105, 326]
    ensures LeastFrom(cs, 128, 7) == Some(326) && LeastFrom(cs, 327, 7) == Some(363) && LeastFrom(cs, 364, 7) == None
  {
    assert cs[..7] == cs && cs[1] == 363 && cs[6] == 326;
  }

  lemma SampleNumerals()
    ensures Numeral(1193, 36, 72) == [100, 56, 97] && Numeral(254, 36, 0) == [56, 119]
    ensures Adapt(1193, 6, true) == 0 && Adapt(254, 7, false) == 28
  {
    hide Numeral, Adapt;
    SampleFirst();
    SampleSecond();
    SampleBiases();
  }

  lemma SampleFirst()
    ensures Numeral(1193, 36, 72) == [100, 56, 97]
  {
    assert High(1193, 1) == 34 && Low(1193, 1) == 3 && High(34, 1) == 0 && Low(34, 1) == 34;
    assert Numeral(0, 108, 72) == [97];
    assert Numeral(34, 72, 72) == [56] + Numeral(0, 108, 72);
  }

  lemma SampleSecond()
    ensures Numeral(254, 36, 0) == [56, 119]
  {
    assert High(254, 26) == 22 && Low(254, 26) == 34;
    assert Numeral(22, 72, 0) == [119];
  }

  lemma SampleBiases()
    ensures Adapt(1193, 6, true) == 0 && Adapt(254, 7, false) == 28
  {
    hide Squeeze;
    assert 1193 / 700 == 1 && 1 / 6 == 0 && 254 / 2 == 127 && 127 / 7 == 18;
    assert Squeeze(1, 0) == 0 && Squeeze(145, 0) == 28 by { SampleSqueezes(); }
  }

  lemma SampleSqueezes()
    ensures Squeeze(1, 0) == 0 && Squeeze(145, 0) == 28
  {
  }

  /** How many positions from `i` to `j` hold a code point below `n`. */
  function Below(cs: seq<CodePoint>, n: CodePoint, i: nat, j: nat): nat
    requires i <= j <= |cs|
    decreases j - i
  {
    if i == j then 0 else (if cs[i] < n then 1 else 0) + Below(cs, n, i + 1, j)
  }

  lemma {:induction false} ScanSkips(cs: seq<CodePoint>, n: CodePoint, i: nat, j: nat, delta: nat, h: nat, bias: nat,
                                     first: bool)
    requires i <= j <= |cs| && n in cs && delta + j - i <= MAX_UINT && forall k :: i <= k < j ==> cs[k] != n
    ensures FromScan(cs, n, i, delta, h, bias, first)
         == FromScan(cs, n, j, delta + Below(cs, n, i, j), h, bias, first)
    decreases j - i
  {
    hide FromScan, FromRound, Numeral, Adapt;
    if i < j {
      ScanAt(cs, n, i, delta, h, bias, first);
      ScanSkips(cs, n, i + 1, j, if cs[i] < n then delta + 1 else delta, h, bias, first);
    }
  }

  // ---------- when the counter fits ----------

  const LONGEST: nat := 3855

  /** No numeral is larger than the distance from the first state of the decoder. */
  lemma {:induction false} ScanFits(cs: seq<CodePoint>, n: CodePoint, j: nat, delta: nat, h: nat, bias: nat,
                                    first: bool)
    requires |cs| <= LONGEST && (forall c :: c in cs ==> c <= MAX_POINT) && 128 <= n && n in cs
    requires j <= |cs| && h == |Handled(cs, n, j, |cs|)|
    requires delta <= Times(n - 128, h + 1) + |Handled(cs, n, j, j)| && (h == |cs| ==> delta <= j)
    ensures FromScan(cs, n, j, delta, h, bias, first).Ok?
    decreases Left(cs, n, |cs|), 0, |cs| - j
  {
    hide Numeral, Adapt, Handled, Left, LeastFrom, FromRound, Times;
    if j == |cs| {
      FewerLeft(cs, n, n, |cs|);
      assert cs[..|cs|] == cs;
      RoundOver(cs, n, j, |cs|);
      TimesMore(n - 128, 1, h + 1);
      RoundFits(cs, n + 1, delta + 1, h, bias, first);
    } else {
      HandledOneMore(cs, n, j, |cs|);
      HandledGrows(cs, n, j);
      if cs[j] == n {
        ScanFits(cs, n, j + 1, 0, h + 1, Adapt(delta, h + 1, first), false);
      } else {
        if cs[j] < n && h < |cs| {
          Small(n - 128, h, |Handled(cs, n, j, j)|, |cs|);
        }
        ScanFits(cs, n, j + 1, if cs[j] < n then delta + 1 else delta, h, bias, first);
      }
    }
  }

  lemma TimesOf(x: nat, y: nat)
    ensures Times(x, y) == x * y
  {
  }

  lemma Small(x: nat, h: nat, at: nat, len: nat)
    requires x <= MAX_POINT - 128 && h < len <= LONGEST && at < LONGEST
    ensures Times(x, h + 1) + at < MAX_UINT
  {
    hide Times;
    TimesMore(x, MAX_POINT - 128 - x, h + 1);
    assert Times(MAX_POINT - 128, h + 1) == (MAX_POINT - 128) * (h + 1) by { TimesOf(MAX_POINT - 128, h + 1); }
  }

  lemma HandledGrows(cs: seq<CodePoint>, n: CodePoint, j: nat)
    requires j < |cs|
    ensures |Handled(cs, n, j + 1, j + 1)| == |Handled(cs, n, j, j)| + if cs[j] <= n then 1 else 0
  {
    HandledBefore(cs, n, j, j);
  }

  lemma {:induction false} RoundFits(cs: seq<CodePoint>, n: CodePoint, delta: nat, h: nat, bias: nat, first: bool)
    requires |cs| <= LONGEST && (forall c :: c in cs ==> c <= MAX_POINT) && 128 <= n
    requires h == |Handled(cs, n, 0, |cs|)| && delta <= Times(n - 128, h + 1)
    ensures FromRound(cs, n, delta, h, bias, first).Ok?
    decreases Left(cs, n, |cs|), 1, 0
  {
    hide Handled, Left, FromScan, Ahead, Overflows;
    var m := LeastFrom(cs, n, |cs|);
    assert cs[..|cs|] == cs;
    HandledAll(cs, n, |cs|);
    if m.Some? {
      LeftAtLeast(cs, n, m.value, |cs|);
      HandledNowhere(cs, m.value);
      JumpFits(n, m.value, delta, h, |cs|);
      ScanFits(cs, m.value, 0, Ahead(delta, m.value - n, h + 1), h, bias, first);
    }
  }

  lemma JumpFits(n: CodePoint, m: CodePoint, delta: nat, h: nat, len: nat)
    requires 128 <= n <= m <= MAX_POINT && h < len <= LONGEST && delta <= Times(n - 128, h + 1)
    ensures !Overflows(delta, m - n, h + 1)
    ensures Ahead(delta, m - n, h + 1) <= Times(m - 128, h + 1)
  {
    TimesMore(n - 128, m - n, h + 1);
    Small(m - 128, h, 0, len);
    assert delta <= Ahead(delta, m - n, h + 1);
    Divides(m - n, h + 1, MAX_UINT - delta);
  }

  lemma Divides(x: nat, y: nat, room: nat)
    requires y > 0
    ensures x <= room / y <==> Times(x, y) <= room
  {
    var q, r := room / y, room % y;
    assert room == q * y + r;
    assert (x - q) * y == x * y - q * y;
    if x > q {
      Grows(y, x - q);
    } else {
      assert (q - x) * y >= 0;
    }
  }

  /** Every label of up to LONGEST code points is accepted. */
  lemma ShortLabelsFit(cs: seq<CodePoint>)
    requires |cs| <= LONGEST && forall c :: c in cs ==> c <= MAX_POINT
    ensures LabelText(cs).Ok?
  {
    hide FromRound, Handled;
    HandledNowhere(cs, 128);
    RoundFits(cs, 128, 0, |Basics(cs)|, 72, true);
  }

  /** One code point more, and there is a label that is not. */
  lemma LongLabelRefused()
    ensures exists cs: seq<CodePoint> ::
              |cs| == LONGEST + 1 && (forall c :: c in cs ==> c <= MAX_POINT) && LabelText(cs) == Err(E2BIG)
  {
    hide FromScan;
    var plain := seq(LONGEST, _ => 97);
    var cs := plain + [MAX_POINT];
    assert cs[..LONGEST] == plain && cs[LONGEST] == MAX_POINT;
    HandledAll(cs, 128, LONGEST);
    assert Handled(cs, 128, 0, |cs|) == Handled(cs, 128, 0, LONGEST);
    assert LeastFrom(cs, 128, |cs|) == Some(MAX_POINT);
    Divides(MAX_POINT - 128, LONGEST + 1, MAX_UINT);
    assert FromRound(cs, 128, 0, LONGEST, 72, true) == Err(E2BIG);
  }
}

/** `uv__idna_toascii` and its label converter (src/idna.c:102-291), from decoded code points on. */
module Idna {
  import opened InternalKeys
  import opened UvResults
  import opened PunycodeText
  import opened DomainNames

  /** What is left of an unsigned result. */
  function Unsigned(x: int): (r: nat)
    ensures 0 <= x <= MAX_UINT ==> r == x
    ensures x == MAX_UINT + 1 ==> r == 0
  {
    x % (MAX_UINT + 1)
  }

  /** The output buffer. Bytes that do not fit are dropped silently; `text` is all that was to be written. */
  class Output {
    const bytes: array<nat>
    var d: nat
    ghost var text: Text

    ghost predicate Valid()
      reads this, bytes
    {
      && d == (if |text| <= bytes.Length then |text| else bytes.Length)
      && bytes[..d] == text[..d]
    }

    constructor (capacity: nat)
      ensures Valid() && text == [] && fresh(bytes) && bytes.Length == capacity
    {
      bytes := new nat[capacity];
      d, text := 0, [];
    }

    method Put(c: nat)
      requires Valid()
      modifies this, bytes
      ensures Valid() && text == old(text) + [c]
    {
      text := text + [c];
      if d < bytes.Length {
        bytes[d] := c;
        d := d + 1;
      }
    }

    /** One numeral: digits until what is left is below the threshold. */
    method PutNumeral(delta: nat, bias: nat)
      requires Valid() && delta <= MAX_UINT
      modifies this, bytes
      ensures Valid() && text == old(text) + Numeral(delta, 36, bias)
    {
      hide Numeral, Alphabet, Low, High;
      var k: nat, q: nat := 36, delta;
      while true
        invariant Valid() && text + Numeral(q, k, bias) == old(text) + Numeral(delta, 36, bias)
        decreases q
      {
        var t := 1;
        if k > bias {
          t := k - bias;
        }
        if t > 26 {
          t := 26;
        }
        if q < t {
          break;
        }
        var x, y := q - t, 36 - t;
        NumeralMore(q, k, bias);
        ghost var more := Numeral(High(q, t), k + 36, bias);
        q := x / y;
        t := t + x % y;
        ghost var before := text;
        Put(Alphabet(t));
        assert text + more == before + ([Alphabet(t)] + more);
        k := k + 36;
      }
      NumeralLast(q, k, bias);
      Put(Alphabet(q));
    }
  }

  lemma NumeralMore(q: nat, k: nat, bias: nat)
    requires q >= Threshold(k, bias)
    ensures var t := Threshold(k, bias);
            && High(q, t) == (q - t) / (36 - t) && Low(q, t) == t + (q - t) % (36 - t)
            && Numeral(q, k, bias) == [Alphabet(Low(q, t))] + Numeral(High(q, t), k + 36, bias)
  {
  }

  lemma NumeralLast(q: nat, k: nat, bias: nat)
    requires q < Threshold(k, bias)
    ensures Numeral(q, k, bias) == [Alphabet(q)]
  {
  }

  /** The bias for the next numeral. */
  method NextBias(delta0: nat, h: nat, first: bool) returns (bias: nat)
    requires delta0 <= MAX_UINT && 0 < h
    ensures bias == Adapt(delta0, h, first)
  {
    var delta: nat := delta0 / 2;
    if first {
      delta := delta / 350;
    }
    hide Adapt, Squeeze;
    Damped(delta0, h, first);
    ghost var damped := delta + delta / h;
    delta := Unsigned(delta + delta / h);
    bias := 0;
    while delta > 35 * 26 / 2
      invariant Squeeze(delta, bias) == Squeeze(damped, 0)
    {
      SqueezedOnce(delta, bias);
      delta := delta / 35;
      bias := bias + 36;
    }
    SqueezedOnce(delta, bias);
    bias := bias + 36 * delta / (delta + 38);
  }

  /** Halving and then dividing by 350 is dividing by 700, and nothing leaves 32 bits. */
  lemma Damped(delta: nat, h: nat, first: bool)
    requires delta <= MAX_UINT && 0 < h
    ensures var d := if first then delta / 2 / 350 else delta / 2;
            0 <= d / h && d + d / h <= MAX_UINT && Adapt(delta, h, first) == Squeeze(d + d / h, 0)
  {
    hide Squeeze;
    var d := if first then delta / 2 / 350 else delta / 2;
    Shrinks(d, h);
  }

  lemma SqueezedOnce(delta: nat, k: nat)
    ensures Squeeze(delta, k) == if delta > 455 then Squeeze(delta / 35, k + 36) else k + 36 * delta / (delta + 38)
  {
  }

  lemma CatNothing(r: Result<Text>)
    ensures Cat([], r) == r
  {
    assert r.Ok? ==> [] + r.value == r.value;
  }

  lemma CatCat(a: Text, b: Text, r: Result<Text>)
    ensures Cat(a, Cat(b, r)) == Cat(a + b, r)
  {
    assert r.Ok? ==> a + (b + r.value) == a + b + r.value;
  }

  datatype Progress = Progress(delta: nat, h: nat, bias: nat, first: bool, todo: nat)

  /** One round: every occurrence of `n` is written, in order. */
  method Round(cs: seq<CodePoint>, n: CodePoint, at: Progress, out: Output) returns (done: Option<Progress>)
    requires |cs| <= MAX_UINT && n in cs && out.Valid() && at.delta <= MAX_UINT
    requires at.h == |Handled(cs, n, 0, |cs|)| && at.h + at.todo == |cs|
    modifies out, out.bytes
    ensures out.Valid() && old(out.text) <= out.text
    ensures var goal := FromScan(cs, n, 0, at.delta, at.h, at.bias, at.first);
            if done.None? then goal == Err(E2BIG)
            else
              var p := done.value;
              && p.h == |Handled(cs, n + 1, 0, |cs|)| && p.h + p.todo == |cs| && p.todo < at.todo && p.delta <= MAX_UINT
              && goal == Cat(out.text[|old(out.text)|..], FromRound(cs, n + 1, p.delta, p.h, p.bias, p.first))
  {
    hide FromScan, FromRound, Handled, Left, Numeral, Adapt, Output.Valid;
    var delta: nat, h, bias, first, todo := at.delta, at.h, at.bias, at.first, at.todo;
    ghost var written: Text := [];
    ghost var goal := FromScan(cs, n, 0, delta, h, bias, first);
    CatNothing(goal);
    var j := 0;
    while j < |cs|
      invariant 0 <= j <= |cs| && out.Valid() && out.text == old(out.text) + written
      invariant h == |Handled(cs, n, j, |cs|)| && h + todo == |cs| && delta <= MAX_UINT
      invariant todo <= at.todo && (n in cs[..j] ==> delta < j && todo < at.todo)
      invariant goal == Cat(written, FromScan(cs, n, j, delta, h, bias, first))
    {
      var c := cs[j];
      HandledOneMore(cs, n, j, |cs|);
      ScanAt(cs, n, j, delta, h, bias, first);
      assert cs[..j + 1] == cs[..j] + [c];
      if c < n {
        delta := Unsigned(delta + 1);
        if delta == 0 {
          return None;
        }
      }
      if c == n {
        out.PutNumeral(delta, bias);
        CatCat(written, Numeral(delta, 36, bias), FromScan(cs, n, j + 1, 0, h + 1, Adapt(delta, h + 1, first), false));
        written := written + Numeral(delta, 36, bias);
        h := h + 1;
        bias := NextBias(delta, h, first);
        first, delta := false, 0;
        todo := todo - 1;
      }
      j := j + 1;
    }
    RoundOver(cs, n, |cs|, |cs|);
    ScanAt(cs, n, j, delta, h, bias, first);
    assert cs[..|cs|] == cs;
    delta := Unsigned(delta + 1);
    return Some(Progress(delta, h, bias, first, todo));
  }

  /** The first pass: how many basic code points there are, and how many others. */
  method Count(cs: seq<CodePoint>) returns (r: Result<(nat, nat)>)
    ensures MAX_UINT in cs ==> r == Err(EINVAL)
    ensures MAX_UINT !in cs ==> r == Ok((|Basics(cs)|, |cs| - |Basics(cs)|))
  {
    var h, todo := 0, 0;
    for j := 0 to |cs|
      invariant MAX_UINT !in cs[..j] && h == |Handled(cs, 128, 0, j)| && h + todo == j
    {
      assert cs[..j + 1] == cs[..j] + [cs[j]];
      if cs[j] < 128 {
        h := h + 1;
      } else if cs[j] == MAX_UINT {
        return Err(EINVAL);
      } else {
        todo := todo + 1;
      }
    }
    assert cs[..|cs|] == cs;
    return Ok((h, todo));
  }

  lemma {:induction false} HandledFurther(cs: seq<CodePoint>, n: CodePoint, len: nat, to: nat)
    requires len <= to <= |cs|
    ensures Handled(cs, n, 0, len) <= Handled(cs, n, 0, to)
  {
    if len < to {
      HandledFurther(cs, n, len, to - 1);
    }
  }

  /** The second pass copies the basic code points, and stops at the last of them. */
  method PutBasics(cs: seq<CodePoint>, h: nat, out: Output)
    requires out.Valid() && h == |Basics(cs)|
    modifies out, out.bytes
    ensures out.Valid() && out.text == old(out.text) + Basics(cs)
  {
    hide Output.Valid;
    var x := 0;
    for j := 0 to |cs|
      invariant out.Valid() && out.text == old(out.text) + Handled(cs, 128, 0, j)
      invariant x == |Handled(cs, 128, 0, j)| && (x == h ==> h == 0)
    {
      HandledFurther(cs, 128, j + 1, |cs|);
      if cs[j] > 127 {
        continue;
      }
      out.Put(cs[j]);
      x := x + 1;
      if x == h {
        break;
      }
    }
  }

  /** The least code point from `n` on; MAX_UINT if there is none. */
  method Least(cs: seq<CodePoint>, n: nat) returns (m: nat)
    requires forall c :: c in cs ==> c < MAX_UINT
    ensures LeastFrom(cs, n, |cs|) == if m == MAX_UINT then None else Some(m)
  {
    m := MAX_UINT;
    for j := 0 to |cs|
      invariant LeastFrom(cs, n, j) == if m == MAX_UINT then None else Some(m)
    {
      assert cs[j] in cs;
      if cs[j] >= n && cs[j] < m {
        m := cs[j];
      }
    }
  }

  /** The rounds, until nothing is left to do. */
  method Rounds(cs: seq<CodePoint>, basics: nat, others: nat, out: Output) returns (ok: bool)
    requires |cs| <= MAX_UINT && (forall c :: c in cs ==> c < MAX_UINT) && out.Valid()
    requires basics == |Basics(cs)| && others == |cs| - basics
    modifies out, out.bytes
    ensures out.Valid() && old(out.text) <= out.text
    ensures var goal := FromRound(cs, 128, 0, basics, 72, true);
            if ok then goal == Ok(out.text[|old(out.text)|..]) else goal == Err(E2BIG)
  {
    hide FromScan, FromRound, Handled, Left, Output.Valid, Ahead, Overflows;
    var n: nat, at := 128, Progress(0, basics, 72, true, others);
    ghost var written: Text := [];
    ghost var goal := FromRound(cs, 128, 0, basics, 72, true);
    CatNothing(goal);
    while at.todo > 0
      invariant out.Valid() && out.text == old(out.text) + written && at.delta <= MAX_UINT
      invariant at.h == |Handled(cs, n, 0, |cs|)| && at.h + at.todo == |cs|
      invariant goal == Cat(written, FromRound(cs, n, at.delta, at.h, at.bias, at.first))
      decreases at.todo
    {
      HandledAll(cs, n, |cs|);
      RoundAt(cs, n, at.delta, at.h, at.bias, at.first);
      var m := Least(cs, n);
      assert cs[..|cs|] == cs;
      var x, y := Unsigned(m - n), Unsigned(at.h + 1);
      JumpIsExact(at.delta, x, y);
      if x > (MAX_UINT - at.delta) / y {
        return false;
      }
      at := at.(delta := Unsigned(at.delta + Unsigned(x * y)));
      LeastIsHandled(cs, n, m);
      n := m;
      ghost var start := out.text;
      var next := Round(cs, n, at, out);
      if next.None? {
        return false;
      }
      at := next.value;
      CatCat(written, out.text[|start|..], FromRound(cs, n + 1, at.delta, at.h, at.bias, at.first));
      written := written + out.text[|start|..];
      n := Unsigned(n + 1);
    }
    HandledAll(cs, n, |cs|);
    RoundAt(cs, n, at.delta, at.h, at.bias, at.first);
    assert cs[..|cs|] == cs && written + [] == written;
    return true;
  }

  /** The question asked before multiplying keeps the product and the sum within 32 bits. */
  lemma JumpIsExact(delta: nat, x: nat, y: nat)
    requires delta <= MAX_UINT && y > 0
    ensures Overflows(delta, x, y) <==> x > (MAX_UINT - delta) / y
    ensures x <= (MAX_UINT - delta) / y ==>
            Unsigned(x * y) == x * y && Unsigned(delta + Unsigned(x * y)) == Ahead(delta, x, y)
  {
    Divides(x, y, MAX_UINT - delta);
  }

  lemma LeastIsHandled(cs: seq<CodePoint>, n: CodePoint, m: CodePoint)
    requires LeastFrom(cs, n, |cs|) == Some(m)
    ensures Handled(cs, n, 0, |cs|) == Handled(cs, m, 0, |cs|)
  {
    LeftAtLeast(cs, n, m, |cs|);
  }

  /** A label: what is written is its text, cut where the buffer ends. */
  method ConvertLabel(cs: seq<CodePoint>, out: Output) returns (rc: Result<nat>)
    requires |cs| <= MAX_UINT && (forall c :: c in cs ==> c <= MAX_UINT) && out.Valid()
    modifies out, out.bytes
    ensures out.Valid() && old(out.text) <= out.text
    ensures var goal := LabelText(cs);
            if goal.Err? then rc == Err(goal.error)
            else rc == Ok(if Ascii(cs) then |cs| else 0) && out.text == old(out.text) + goal.value
  {
    hide Handled, FromRound, Output.Valid;
    var counted := Count(cs);
    if counted.Err? {
      return Err(EINVAL);
    }
    var (h, todo) := counted.value;
    HandledAll(cs, 128, |cs|);
    if todo > 0 {
      out.Put(120);
      out.Put(110);
      out.Put(HYPHEN);
      out.Put(HYPHEN);
    }
    assert out.text == old(out.text) + if Ascii(cs) then [] else Prefix;
    PutBasics(cs, h, out);
    if todo == 0 {
      assert cs[..|cs|] == cs;
      return Ok(h);
    }
    if h > 0 {
      out.Put(HYPHEN);
    }
    var ok := Rounds(cs, h, todo, out);
    return if ok then Ok(0) else Err(E2BIG);
  }

  lemma HostStep(cs: seq<CodePoint>, start: nat, si: nat)
    requires start <= si < |cs| && cs[si] in Dots && forall i :: start <= i < si ==> cs[i] !in Dots
    ensures var part := LabelText(cs[start..si]);
            HostText(cs[start..]) == if part.Err? then part else Cat(part.value + [DOT], HostText(cs[si + 1..]))
  {
    hide LabelText;
    var rest := cs[start..];
    FirstOfIs(Dots, cs[start..si], cs[si..]);
    assert cs[start..si] + cs[si..] == rest;
    assert rest[..si - start] == cs[start..si] && rest[si - start + 1..] == cs[si + 1..];
  }

  lemma HostEnd(cs: seq<CodePoint>)
    requires forall c :: c in cs ==> c !in Dots
    ensures HostText(cs) == LabelText(cs) && (cs == [] ==> HostText(cs) == Ok([]))
  {
    FirstOfIs(Dots, cs, []);
    assert cs + [] == cs && cs[..|cs|] == cs;
  }

  /** The whole name, a label at a time, then a NUL; the result is the number of bytes in the buffer. */
  method ConvertHost(cs: seq<CodePoint>, out: Output) returns (rc: Result<nat>)
    requires |cs| <= MAX_UINT && (forall c :: c in cs ==> c <= MAX_UINT) && out.Valid() && out.text == []
    modifies out, out.bytes
    ensures out.Valid()
    ensures var goal := HostText(cs);
            if goal.Err? then rc == Err(goal.error) else rc == Ok(out.d) && out.text == goal.value + [0]
  {
    hide LabelText, HostText, Output.Valid;
    var start, si := 0, 0;
    CatNothing(HostText(cs));
    assert cs[0..] == cs;
    while si < |cs|
      invariant 0 <= start <= si <= |cs| && out.Valid()
      invariant forall i :: start <= i < si ==> cs[i] !in Dots
      invariant HostText(cs) == Cat(out.text, HostText(cs[start..]))
    {
      var st := si;
      si := si + 1;
      if cs[st] !in Dots {
        continue;
      }
      HostStep(cs, start, st);
      ghost var before := out.text;
      assert forall c :: c in cs[start..st] ==> c in cs;
      var part := ConvertLabel(cs[start..st], out);
      if part.Err? {
        return part;
      }
      out.Put(DOT);
      CatCat(before, LabelText(cs[start..st]).value + [DOT], HostText(cs[si..]));
      assert out.text == before + (LabelText(cs[start..st]).value + [DOT]);
      start := si;
    }
    HostEnd(cs[start..]);
    assert forall c :: c in cs[start..] ==> c in cs;
    assert out.text + [] == out.text;
    if start < |cs| {
      var part := ConvertLabel(cs[start..], out);
      if part.Err? {
        return part;
      }
    }
    out.Put(0);
    return Ok(out.d);
  }
}
