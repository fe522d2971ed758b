/** The text forms of an IPv6 address, section 2.2 of RFC 4291, and that the parser takes exactly those (src/inet.c). */
module AddressGrammar {
  import opened InternalKeys
  import opened LogFormat
  import opened UvResults
  import opened AddressText

  // ---------- the forms ----------

  const LOWER := "0123456789abcdef"
  const UPPER := "0123456789ABCDEF"

  /** The character is the hexadecimal digit, in either case. */
  predicate IsHexDigit(c: char, d: nat) {
    d < 16 && (c == LOWER[d] || c == UPPER[d])
  }

  /** One to four hexadecimal digits, leading zeros allowed. */
  predicate SpellsWord(t: string, w: nat) {
    0 < |t| <= 4 && IsHexDigit(t[|t|-1], w % 16) && if |t| == 1 then w < 16 else SpellsWord(t[..|t|-1], w / 16)
  }

  /** Decimal digits without leading zeros. */
  predicate SpellsDecimal(t: string, n: nat) {
    0 < |t| && t[|t|-1] == LOWER[n % 10] && if |t| == 1 then n < 10 else n >= 10 && SpellsDecimal(t[..|t|-1], n / 10)
  }

  /** Four octets with dots between them. */
  ghost predicate SpellsQuad(t: string, x: seq<Byte>) {
    |x| == 4 &&
    exists a, b, c, d :: t == a + "." + (b + "." + (c + "." + d)) &&
      SpellsDecimal(a, x[0]) && SpellsDecimal(b, x[1]) && SpellsDecimal(c, x[2]) && SpellsDecimal(d, x[3])
  }

  function Word(bytes: seq<Byte>): nat
    requires |bytes| >= 2
  {
    bytes[0] as int * 256 + bytes[1]
  }

  /** Words with colons between them; the last two may be a dotted quad. */
  ghost predicate SpellsWords(t: string, bytes: seq<Byte>, quad: bool)
    decreases |t|
  {
    || (|bytes| == 2 && SpellsWord(t, Word(bytes)))
    || (quad && SpellsQuad(t, bytes))
    || (|bytes| > 2 &&
        exists i: nat ::
          i < |t| && t[i] == ':' && SpellsWord(t[..i], Word(bytes)) && SpellsWords(t[i+1..], bytes[2..], quad))
  }

  /** "::" at `i` in place of one or more zero words. */
  ghost predicate Shortened(t: string, a: seq<Byte>, i: nat, l: seq<Byte>, r: seq<Byte>) {
    && i + 2 <= |t| && t[i] == ':' && t[i+1] == ':'
    && (if i == 0 then l == [] else SpellsWords(t[..i], l, false))
    && (if i + 2 == |t| then r == [] else SpellsWords(t[i+2..], r, true))
    && |l| + |r| <= 14 && a == l + Zeros(16 - |l| - |r|) + r
  }

  ghost predicate SpellsAddress(t: string, a: seq<Byte>) {
    |a| == 16 && (SpellsWords(t, a, true) || exists i: nat, l, r :: Shortened(t, a, i, l, r))
  }

  // ---------- digits and words ----------

  lemma HexDigitIs(c: char, d: nat)
    requires d < 16
    ensures IsHexDigit(c, d) <==> HexValue(c) == d
  {
  }

  predicate AllHex(t: string) {
    forall i :: 0 <= i < |t| ==> HexValue(t[i]) < 16
  }

  lemma {:induction false} WordIs(t: string, w: nat)
    ensures SpellsWord(t, w) <==> 0 < |t| <= 4 && AllHex(t) && HexRead(t, 0) == w
  {
    hide HexValue, IsHexDigit;
    if 0 < |t| <= 4 {
      var front, c := t[..|t|-1], t[|t|-1];
      HexDigitIs(c, w % 16);
      assert t == front + [c];
      HexReadSnoc(front, c, 0);
      if |t| == 1 {
        assert HexRead(front, 0) == 0;
      } else {
        WordIs(front, w / 16);
      }
    }
  }

  lemma {:induction false} WordIsSmall(t: string, w: nat)
    requires SpellsWord(t, w)
    ensures w < 0x1_0000
    ensures |t| <= 3 ==> w < 0x1000
    ensures |t| <= 2 ==> w < 0x100
  {
    hide IsHexDigit;
    if |t| > 1 {
      WordIsSmall(t[..|t|-1], w / 16);
    }
  }

  lemma WordBytes(bytes: seq<Byte>, w: nat)
    requires |bytes| >= 2
    ensures w < 0x1_0000 && [w / 256 % 256, w % 256] == bytes[..2] ==> w == Word(bytes)
    ensures w == Word(bytes) ==> [w / 256 % 256, w % 256] == bytes[..2]
  {
  }

  lemma {:induction false} DecimalIs(t: string, n: nat)
    ensures SpellsDecimal(t, n) <==> t == Digits(n, 10)
  {
    if t != "" {
      var front, c := t[..|t|-1], t[|t|-1];
      assert t == front + [c];
      if n >= 10 {
        DivideBy(n, 10);
        DecimalIs(front, n / 10);
      }
      LastDigit(n);
    }
  }

  lemma LastDigit(n: nat)
    ensures Digits(n, 10) == (if n < 10 then "" else Digits(n / 10, 10)) + [LOWER[n % 10]]
  {
    hide DigitChar, HexValue;
    PrintedDigits(n % 10);
    if n >= 10 {
      DivideBy(n, 10);
    }
  }

  /** Words and octets are printed in lower case, without leading zeros. */
  lemma PrintedDigits(d: nat)
    requires d < 16
    ensures DigitChar(d) == LOWER[d]
  {
  }

  lemma QuadIs(t: string, x: seq<Byte>)
    ensures SpellsQuad(t, x) <==> |x| == 4 && t == Print4(x)
  {
    hide Digits, SpellsDecimal;
    if |x| == 4 {
      Print4Parts(x);
      DecimalIs(Digits(x[0], 10), x[0]);
      DecimalIs(Digits(x[1], 10), x[1]);
      DecimalIs(Digits(x[2], 10), x[2]);
      DecimalIs(Digits(x[3], 10), x[3]);
      if SpellsQuad(t, x) {
        var a, b, c, d :| t == a + "." + (b + "." + (c + "." + d)) &&
          SpellsDecimal(a, x[0]) && SpellsDecimal(b, x[1]) && SpellsDecimal(c, x[2]) && SpellsDecimal(d, x[3]);
        DecimalIs(a, x[0]);
        DecimalIs(b, x[1]);
        DecimalIs(c, x[2]);
        DecimalIs(d, x[3]);
      }
    }
  }

  // ---------- one word of the scan ----------

  /** How many hexadecimal digits the text begins with. */
  function HexRun(s: string): (k: nat)
    ensures k <= |s| && AllHex(s[..k]) && (k < |s| ==> HexValue(s[k]) == 16)
  {
    if s == "" || HexValue(s[0]) == 16 then 0
    else
      var k := 1 + HexRun(s[1..]);
      assert forall i :: 0 < i < k ==> s[..k][i] == s[1..][..k-1][i-1];
      k
  }

  predicate Fresh(p: Parsed) {
    p.Wf() && p.seen == 0 && p.val == 0
  }

  /** What the parser does from the start of a word, by what stands behind its digits. */
  function Stepped(src: string, p: Parsed): Result<seq<Byte>>
    requires Fresh(p)
  {
    var k := HexRun(src);
    var w := HexRead(src[..k], 0);
    if k > 4 then Err(EINVAL)
    else if k == |src| then Finish(Parsed(p.bytes, p.colon, k, w))
    else if src[k] == ':' then
      if k == 0 then if p.colon.Some? then Err(EINVAL) else Parse6(src[1..], src[1..], p.(colon := Some(|p.bytes|)))
      else if k + 1 == |src| || |p.bytes| + 2 > 16 then Err(EINVAL)
      else Parse6(src[k+1..], src[k+1..], Flushed(Parsed(p.bytes, p.colon, k, w)))
    else if src[k] == '.' && |p.bytes| + 4 <= 16 && Read4(src).Ok? then
      Finish(p.(bytes := p.bytes + Read4(src).value))
    else Err(EINVAL)
  }

  lemma WordStep(src: string, p: Parsed)
    requires Fresh(p)
    ensures Parse6(src, src, p) == Stepped(src, p)
  {
    hide HexValue, Read4, HexRun;
    var k := HexRun(src);
    var n := if k > 4 then 4 else k;
    assert src == src[..n] + src[n..];
    assert forall i :: 0 <= i < n ==> src[..n][i] == src[..k][i];
    ScanDigits(src[..n], src[n..], src, p);
    if k > 4 {
      assert src[n..][0] == src[..k][4];
    } else if k < |src| {
      assert src[n..][0] == src[k] && src[n..][1..] == src[k+1..];
    }
  }

  lemma ColonIsNoDigit()
    ensures HexValue(':') == HexValue('.') == 16
  {
  }

  lemma RunEnds(t: string, c: char, rest: string)
    requires AllHex(t) && HexValue(c) == 16
    ensures HexRun(t + [c] + rest) == |t| && HexRun(t) == |t|
  {
    hide HexValue;
    var s := t + [c] + rest;
    var k := HexRun(s);
    assert forall i :: 0 <= i < k ==> s[..k][i] == s[i];
    assert forall i :: 0 <= i < |t| ==> s[i] == t[i];
    assert s[|t|] == c;
    var j := HexRun(t);
  }

  /** A word and a colon behind it, with more to come. */
  lemma WordReads(t: string, w: nat, rest: string, p: Parsed)
    requires SpellsWord(t, w) && Fresh(p) && rest != "" && |p.bytes| + 2 <= 16
    ensures Parse6(t + ":" + rest, t + ":" + rest, p)
         == Parse6(rest, rest, Parsed(p.bytes + [w / 256 % 256, w % 256], p.colon, 0, 0))
  {
    hide HexValue, Parse6, HexRun, SpellsWord;
    var s := t + ":" + rest;
    WordIs(t, w);
    ColonIsNoDigit();
    RunEnds(t, ':', rest);
    WordStep(s, p);
    WordIsFew(t, w);
    assert s[..|t|] == t && s[|t|] == ':' && s[|t|+1..] == rest;
  }

  lemma WordIsFew(t: string, w: nat)
    requires SpellsWord(t, w)
    ensures 0 < |t| <= 4
  {
  }

  lemma LastWordReads(t: string, w: nat, p: Parsed)
    requires SpellsWord(t, w) && Fresh(p) && |p.bytes| + 2 <= 16
    ensures Parse6(t, t, p) == Finish(Parsed(p.bytes + [w / 256 % 256, w % 256], p.colon, 0, 0))
  {
    hide HexValue, Parse6, HexRun, SpellsWord;
    WordIs(t, w);
    WordIsFew(t, w);
    ColonIsNoDigit();
    RunEnds(t, ':', "");
    WordStep(t, p);
    assert t[..|t|] == t;
  }

  lemma QuadFinishes(t: string, x: seq<Byte>, p: Parsed)
    requires SpellsQuad(t, x) && Fresh(p) && |p.bytes| + 4 <= 16
    ensures Parse6(t, t, p) == Finish(Parsed(p.bytes + x, p.colon, 0, 0))
  {
    hide Parse6, SpellsQuad, Print4, Finish;
    QuadIs(t, x);
    QuadReads(x, p);
    var q: Parsed :| q.Wf() && q.bytes == p.bytes + x && q.colon == p.colon && q.seen == 0 && Parse6(t, t, p) == Finish(q);
    SameFinish(q, Parsed(p.bytes + x, p.colon, 0, 0));
  }

  lemma SameFinish(p: Parsed, q: Parsed)
    requires p.Wf() && q.Wf() && p.bytes == q.bytes && p.colon == q.colon && p.seen == q.seen == 0
    ensures Finish(p) == Finish(q)
  {
  }

  // ---------- what is spelled is read ----------

  /** A last word, a last quad, or a word with more behind its colon. */
  lemma WordsCases(t: string, bytes: seq<Byte>, quad: bool) returns (i: nat)
    requires SpellsWords(t, bytes, quad)
    ensures |bytes| >= 2
    ensures || (|bytes| == 2 && SpellsWord(t, Word(bytes)))
            || (quad && |bytes| == 4 && SpellsQuad(t, bytes))
            || (|bytes| > 2 && i < |t| && t[i] == ':'
                && SpellsWord(t[..i], Word(bytes)) && SpellsWords(t[i+1..], bytes[2..], quad))
  {
    hide SpellsWord;
    if (|bytes| == 2 && SpellsWord(t, Word(bytes))) || (quad && SpellsQuad(t, bytes)) {
      i := 0;
    } else {
      i :| i < |t| && t[i] == ':' && SpellsWord(t[..i], Word(bytes)) && SpellsWords(t[i+1..], bytes[2..], quad);
    }
  }

  /** The text of words up to its end. */
  lemma {:induction false} WordsRead(t: string, r: seq<Byte>, p: Parsed)
    requires SpellsWords(t, r, true) && Fresh(p) && |p.bytes| + |r| <= 16
    ensures Parse6(t, t, p) == Finish(Parsed(p.bytes + r, p.colon, 0, 0))
    decreases |t|
  {
    hide Parse6, SpellsWord, SpellsQuad, SpellsWords, Finish;
    var i := WordsCases(t, r, true);
    if |r| == 2 && SpellsWord(t, Word(r)) {
      LastWordReads(t, Word(r), p);
      WordBytes(r, Word(r));
      assert r[..2] == r;
    } else if SpellsQuad(t, r) {
      QuadIsSome(t, r);
      QuadFinishes(t, r, p);
    } else {
      WordsAreSome(t[i+1..], r[2..], true);
      assert t == t[..i] + ":" + t[i+1..];
      WordReads(t[..i], Word(r), t[i+1..], p);
      WordBytes(r, Word(r));
      var q := Parsed(p.bytes + r[..2], p.colon, 0, 0);
      WordsRead(t[i+1..], r[2..], q);
      assert p.bytes + r == p.bytes + r[..2] + r[2..];
    }
  }

  /** Words before "::". */
  lemma {:induction false} LeftReads(t: string, l: seq<Byte>, rest: string, p: Parsed)
    requires SpellsWords(t, l, false) && Fresh(p) && |p.bytes| + |l| <= 16 && rest != ""
    ensures Parse6(t + ":" + rest, t + ":" + rest, p) == Parse6(rest, rest, Parsed(p.bytes + l, p.colon, 0, 0))
    decreases |t|
  {
    hide Parse6, SpellsWord, SpellsQuad, SpellsWords;
    var i := WordsCases(t, l, false);
    if |l| == 2 && SpellsWord(t, Word(l)) {
      WordReads(t, Word(l), rest, p);
      WordBytes(l, Word(l));
      assert l[..2] == l;
    } else {
      var more := t[i+1..] + ":" + rest;
      assert t + ":" + rest == t[..i] + ":" + more;
      WordReads(t[..i], Word(l), more, p);
      WordBytes(l, Word(l));
      LeftReads(t[i+1..], l[2..], rest, Parsed(p.bytes + l[..2], p.colon, 0, 0));
      assert p.bytes + l == p.bytes + l[..2] + l[2..];
    }
  }

  /** Words are not nothing, do not begin with a colon, and come in pairs of bytes. */
  lemma {:induction false} WordsAreSome(t: string, bytes: seq<Byte>, quad: bool)
    requires SpellsWords(t, bytes, quad)
    ensures t != "" && t[0] != ':' && |bytes| >= 2 && |bytes| % 2 == 0
    decreases |t|
  {
    hide SpellsWord, SpellsQuad, SpellsWords, HexValue;
    ColonIsNoDigit();
    var i := WordsCases(t, bytes, quad);
    if |bytes| == 2 && SpellsWord(t, Word(bytes)) {
      WordIs(t, Word(bytes));
    } else if quad && SpellsQuad(t, bytes) {
      QuadIsSome(t, bytes);
    } else {
      WordIs(t[..i], Word(bytes));
      assert t[0] == t[..i][0];
      WordsAreSome(t[i+1..], bytes[2..], quad);
    }
  }

  lemma QuadIsSome(t: string, x: seq<Byte>)
    requires SpellsQuad(t, x)
    ensures t != "" && t[0] != ':' && |x| == 4
  {
    hide Digits, SpellsDecimal, HexValue;
    QuadIs(t, x);
    Print4Parts(x);
    ColonIsNoDigit();
    assert t[0] == Digits(x[0], 10)[0];
  }

  /** The "::" and what is behind it. */
  lemma RightReads(right: string, r: seq<Byte>, p: Parsed)
    requires Fresh(p) && p.colon.None? && |p.bytes| + |r| <= 14
    requires if right == "" then r == [] else SpellsWords(right, r, true)
    ensures Parse6(":" + right, ":" + right, p) == Finish(Parsed(p.bytes + r, Some(|p.bytes|), 0, 0))
  {
    hide HexValue, SpellsWords, Finish;
    ColonMarks(right, ":" + right, p);
    if right == "" {
      assert p.bytes + [] == p.bytes;
    } else {
      WordsRead(right, r, p.(colon := Some(|p.bytes|)));
    }
  }

  lemma Filled(l: seq<Byte>, r: seq<Byte>)
    requires |l| + |r| <= 14
    ensures Finish(Parsed(l + r, Some(|l|), 0, 0)) == Ok(l + Zeros(16 - |l| - |r|) + r)
  {
    assert (l + r)[..|l|] == l && (l + r)[|l|..] == r;
  }

  lemma ShortenedReads(t: string, a: seq<Byte>, i: nat, l: seq<Byte>, r: seq<Byte>)
    requires Shortened(t, a, i, l, r)
    ensures Read6(t) == Ok(a)
  {
    hide Parse6, SpellsWords, Finish;
    var right := t[i+2..];
    Filled(l, r);
    assert t[i+1..] == ":" + right;
    if i == 0 {
      RightReads(right, r, Start);
      assert [] + r == r;
    } else {
      WordsAreSome(t[..i], l, false);
      assert t == t[..i] + ":" + t[i+1..] && t[0] == t[..i][0];
      LeftReads(t[..i], l, t[i+1..], Start);
      assert [] + l == l;
      RightReads(right, r, Parsed(l, None, 0, 0));
    }
  }

  // ---------- what is read is spelled ----------

  /** What the rest of a text stands for: words to its end, or, before any "::", words up to one and what follows it. */
  datatype Form = Plain(r: seq<Byte>) | Gap(i: nat, l: seq<Byte>, r: seq<Byte>)

  /** From the start of a word: with a gap at `i`, the colon before it has been passed. */
  ghost predicate Takes(t: string, p: Parsed, f: Form, a: seq<Byte>)
    requires Fresh(p)
  {
    match f
    case Plain(r) => SpellsWords(t, r, true) && |p.bytes| + |r| <= 16 && Finish(Parsed(p.bytes + r, p.colon, 0, 0)) == Ok(a)
    case Gap(i, l, r) =>
      && p.colon.None? && i < |t| && t[i] == ':'
      && (if i == 0 then l == [] else t[i-1] == ':' && SpellsWords(t[..i-1], l, false))
      && (if i + 1 == |t| then r == [] else SpellsWords(t[i+1..], r, true))
      && |p.bytes| + |l| + |r| <= 14
      && Finish(Parsed(p.bytes + l + r, Some(|p.bytes + l|), 0, 0)) == Ok(a)
  }

  /** A last word. */
  lemma EndTakes(t: string, p: Parsed, a: seq<Byte>) returns (f: Form)
    requires Fresh(p) && t != "" && HexRun(t) == |t| && Parse6(t, t, p) == Ok(a)
    ensures Takes(t, p, f, a)
  {
    hide HexValue, Parse6, HexRun, SpellsQuad;
    WordStep(t, p);
    var w := HexRead(t, 0);
    assert t[..|t|] == t;
    WordIs(t, w);
    WordIsSmall(t, w);
    var r := [w / 256 % 256, w % 256];
    WordBytes(r, w);
    assert |p.bytes| + 2 <= 16;
    f := Plain(r);
  }

  lemma QuadTakes(t: string, p: Parsed, a: seq<Byte>) returns (f: Form)
    requires Fresh(p) && HexRun(t) < |t| && t[HexRun(t)] == '.' && Parse6(t, t, p) == Ok(a)
    ensures Takes(t, p, f, a)
  {
    hide HexValue, Parse6, HexRun, SpellsWord, Print4, Read4;
    WordStep(t, p);
    var x := Read4(t).value;
    Read4Iff(t, x);
    QuadIs(t, x);
    SameFinish(p.(bytes := p.bytes + x), Parsed(p.bytes + x, p.colon, 0, 0));
    f := Plain(x);
  }

  lemma OneWord(t: string, w: nat)
    requires SpellsWord(t, w)
    ensures SpellsWords(t, [w / 256 % 256, w % 256], false)
  {
    hide SpellsWord;
    WordIsSmall(t, w);
    WordBytes([w / 256 % 256, w % 256], w);
  }

  /** A word in front. */
  lemma WordThenWords(t: string, i: nat, w: nat, bytes: seq<Byte>, quad: bool)
    requires i < |t| && t[i] == ':' && SpellsWord(t[..i], w) && SpellsWords(t[i+1..], bytes, quad)
    ensures SpellsWords(t, [w / 256 % 256, w % 256] + bytes, quad)
  {
    hide SpellsWord, SpellsQuad;
    var b := [w / 256 % 256, w % 256];
    WordIsSmall(t[..i], w);
    WordBytes(b, w);
    WordsAreSome(t[i+1..], bytes, quad);
    assert (b + bytes)[2..] == bytes && Word(b + bytes) == Word(b);
  }

  /** Past a word and its colon. */
  lemma PrefixTakes(t: string, i: nat, w: nat, p: Parsed, g: Form, a: seq<Byte>) returns (f: Form)
    requires Fresh(p) && i < |t| && t[i] == ':' && SpellsWord(t[..i], w) && |p.bytes| + 2 <= 16
    requires Takes(t[i+1..], Parsed(p.bytes + [w / 256 % 256, w % 256], p.colon, 0, 0), g, a)
    ensures Takes(t, p, f, a)
  {
    hide SpellsWord, SpellsWords, Finish;
    var b := [w / 256 % 256, w % 256];
    match g
    case Plain(r) =>
      f := Plain(b + r);
      WordThenWords(t, i, w, r, true);
      assert p.bytes + (b + r) == p.bytes + b + r;
    case Gap(j, l, r) =>
      f := Gap(i + 1 + j, b + l, r);
      assert p.bytes + (b + l) == p.bytes + b + l;
      assert t[i+1..][j] == t[i+1+j] && t[i+1..][j+1..] == t[i+1+j+1..];
      if j == 0 {
        assert b + l == b;
        OneWord(t[..i], w);
      } else {
        assert t[i+1..][j-1] == t[i+j] && t[..i+j][i+1..] == t[i+1..][..j-1] && t[..i+j][..i] == t[..i];
        WordThenWords(t[..i+j], i, w, l, false);
      }
  }

  /** "::", whose second colon this is, and what is behind it. */
  lemma GapTakes(t: string, p: Parsed, g: Form, a: seq<Byte>) returns (f: Form)
    requires Fresh(p) && p.colon.None? && t != "" && t[0] == ':' && |p.bytes| % 2 == 0
    requires var q := p.(colon := Some(|p.bytes|));
             if t[1..] == "" then Parse6("", "", q) == Ok(a) else Takes(t[1..], q, g, a)
    ensures Takes(t, p, f, a)
  {
    hide HexValue, SpellsWord, SpellsQuad, SpellsWords;
    assert p.bytes + [] == p.bytes;
    if t[1..] == "" {
      f := Gap(0, [], []);
    } else {
      WordsAreSome(t[1..], g.r, true);
      f := Gap(0, [], g.r);
    }
  }

  lemma {:induction false} ReadTakes(t: string, p: Parsed, a: seq<Byte>) returns (f: Form)
    requires Fresh(p) && t != "" && |p.bytes| % 2 == 0 && Parse6(t, t, p) == Ok(a)
    ensures Takes(t, p, f, a)
    decreases |t|
  {
    hide HexValue, Parse6, HexRun, SpellsWord, SpellsQuad, SpellsWords, Takes, Read4, Finish;
    var k := HexRun(t);
    WordStep(t, p);
    if k == |t| {
      f := EndTakes(t, p, a);
    } else if t[k] == '.' {
      f := QuadTakes(t, p, a);
    } else if k == 0 {
      var g := Plain([]);
      if t[1..] != "" {
        g := ReadTakes(t[1..], p.(colon := Some(|p.bytes|)), a);
      }
      f := GapTakes(t, p, g, a);
    } else {
      var w := HexRead(t[..k], 0);
      WordIs(t[..k], w);
      var q := Parsed(p.bytes + [w / 256 % 256, w % 256], p.colon, 0, 0);
      var g := ReadTakes(t[k+1..], q, a);
      f := PrefixTakes(t, k, w, p, g, a);
    }
  }

  lemma TakenIsSpelled(t: string, a: seq<Byte>, f: Form)
    requires t != "" && Takes(t, Start, f, a) && t[0] != ':'
    ensures SpellsAddress(t, a)
  {
    hide SpellsWords;
    match f
    case Plain(r) => assert [] + r == r;
    case Gap(i, l, r) =>
      assert [] + l == l;
      Filled(l, r);
      assert Shortened(t, a, i - 1, l, r);
  }

  lemma TakenGapIsSpelled(t: string, a: seq<Byte>, f: Form)
    requires |t| >= 2 && t[0] == t[1] == ':' && Takes(t[1..], Start, f, a)
    ensures SpellsAddress(t, a)
  {
    hide SpellsWords;
    match f
    case Plain(r) => WordsAreSome(t[1..], r, true);
    case Gap(i, l, r) =>
      if i > 0 {
        WordsAreSome(t[1..][..i-1], l, false);
      }
      assert [] + r == r && t[1..][1..] == t[2..];
      Filled([], r);
      assert Shortened(t, a, 0, [], r);
  }

  /** The parser takes exactly the texts of section 2.2, each for the address it spells. */
  lemma Read6Iff(src: string, a: seq<Byte>)
    ensures Read6(src) == Ok(a) <==> SpellsAddress(src, a)
  {
    hide Parse6, SpellsWords, Takes, Finish;
    if SpellsAddress(src, a) {
      if SpellsWords(src, a, true) {
        WordsAreSome(src, a, true);
        WordsRead(src, a, Start);
        WholeFinishes(a);
      } else {
        var i: nat, l, r :| Shortened(src, a, i, l, r);
        ShortenedReads(src, a, i, l, r);
      }
    }
    if Read6(src) == Ok(a) {
      if src == "" {
        NothingFails();
      } else if src[0] == ':' {
        var f := ReadTakes(src[1..], Start, a);
        TakenGapIsSpelled(src, a, f);
      } else {
        var f := ReadTakes(src, Start, a);
        TakenIsSpelled(src, a, f);
      }
    }
  }

  lemma NothingFails()
    ensures Parse6("", "", Start) == Err(EINVAL)
  {
  }

  lemma WholeFinishes(a: seq<Byte>)
    requires |a| == 16
    ensures Finish(Parsed([] + a, None, 0, 0)) == Ok(a)
  {
    assert [] + a == a;
  }

  /** With a zone: what is before it, if that fits the buffer. */
  lemma ReadZonedIff(src: string, zone: string, a: seq<Byte>)
    requires '%' !in src && (zone == "" || zone[0] == '%')
    ensures ReadZoned(src + zone) == Ok(a) <==> SpellsAddress(src, a) && (zone == "" || |src| < 46)
  {
    hide Read6, SpellsAddress;
    Read6Iff(src, a);
    var p := IndexOf('%', src + zone);
    assert forall i :: 0 <= i < |src| ==> (src + zone)[i] == src[i] && src[i] in src;
    assert zone != "" ==> (src + zone)[|src|] == '%';
    assert (src + zone)[..p] == src;
  }

  // ---------- where a dotted quad is printed ----------

  /** Five zero words and one of ones, or six zero words and no seventh. */
  predicate Embeds(a: Address) {
    && WordAt(a, 0) == WordAt(a, 1) == WordAt(a, 2) == WordAt(a, 3) == WordAt(a, 4) == 0
    && (WordAt(a, 5) == 0xffff || (WordAt(a, 5) == 0 && WordAt(a, 6) != 0))
  }

  /** The run of an address that begins with five zero words. */
  lemma LeadingRun(a: Address)
    requires AllZero(a, 0, 5)
    ensures var n := if WordAt(a, 5) != 0 then 5 else if WordAt(a, 6) != 0 then 6 else if WordAt(a, 7) != 0 then 7 else 8;
            BestRun(a) == Some(Run(0, n))
  {
    hide WordAt, BestRun;
    var n := if WordAt(a, 5) != 0 then 5 else if WordAt(a, 6) != 0 then 6 else if WordAt(a, 7) != 0 then 7 else 8;
    forall i, m | 0 <= i && 0 <= m && i + m <= 8 && AllZero(a, i, m) ensures m <= n {
      assert forall k :: i <= k < i + m ==> WordAt(a, k) == 0;
    }
    assert forall k :: 0 <= k < 5 ==> WordAt(a, k) == 0;
    CompressedIff(a, Some(Run(0, n)));
  }

  lemma MixedIff(a: Address)
    ensures !Inside(BestRun(a), 6) && Mixed(a, BestRun(a), 6) <==> Embeds(a)
  {
    hide WordAt, BestRun;
    BestIsCompressed(a);
    if Embeds(a) || Mixed(a, BestRun(a), 6) {
      forall k | 0 <= k < 5 ensures WordAt(a, k) == 0 {
      }
      LeadingRun(a);
    }
  }

  lemma OnesPrinted()
    ensures Digits(0xffff, 16) == "ffff"
  {
    assert Digits(0xf, 16) == "f" && Digits(0xff, 16) == "ff" && Digits(0xfff, 16) == "fff";
  }

  /** The text of such an address. */
  lemma EmbeddedText(a: Address)
    requires Embeds(a)
    ensures Print6(a) == (if WordAt(a, 5) == 0 then "::" else "::ffff:") + Print4(a[12..])
  {
    hide Print4, WordAt, Digits, BestRun, Mixed;
    assert AllZero(a, 0, 5);
    LeadingRun(a);
    MixedIff(a);
    OnesPrinted();
    var best := BestRun(a);
    BestIsCompressed(a);
    SkipsRun(a, best, 1);
    OnlyAtSix(a, best, 5);
    assert TextFrom(a, best, 6) == ":" + Print4(a[12..]);
    assert WordAt(a, 5) != 0 ==> TextFrom(a, best, 5) == ":" + "ffff" + TextFrom(a, best, 6);
    assert Print6(a) == ":" + TextFrom(a, best, 1);
    assert WordAt(a, 5) != 0 ==> Print6(a) == ":" + (":" + "ffff" + (":" + Print4(a[12..]))) == "::ffff:" + Print4(a[12..]);
  }

  /** No other has a dot in its text. */
  lemma {:induction false} NoDotElse(a: Address, i: nat)
    requires !Embeds(a) && i <= 8
    ensures '.' !in TextFrom(a, BestRun(a), i)
    decreases 8 - i
  {
    hide Print4, WordAt, Digits, BestRun, Mixed, Embeds;
    if i < 8 {
      NoDotElse(a, i + 1);
      MixedIff(a);
      DigitsHaveNoDot(WordAt(a, i));
      OnlyAtSix(a, BestRun(a), i);
    }
  }

  lemma OnlyAtSix(a: Address, best: Option<Run>, i: nat)
    ensures Mixed(a, best, i) ==> i == 6
  {
  }

  lemma DigitsHaveNoDot(n: nat)
    ensures '.' !in Digits(n, 16)
  {
    ColonIsNoDigit();
  }

  /** Words are printed without leading zeros. */
  lemma {:induction false} NoLeadingZero(n: nat)
    requires n > 0
    ensures Digits(n, 16)[0] != '0'
  {
    if n >= 16 {
      DivideBy(n, 16);
      NoLeadingZero(n / 16);
    }
  }
}
