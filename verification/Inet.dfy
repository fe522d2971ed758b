/** Addresses as text (src/inet.c; section 2.2 of RFC 4291, section 4 of RFC 5952): what is printed and
    what is accepted. */
module AddressText {
  import opened InternalKeys
  import opened LogFormat
  import opened UvResults

  // ---------- digits ----------

  function DigitChar(d: nat): (c: char)
    requires d < 16
    ensures HexValue(c) == d && c != ':' && c != '.' && c != '%'
    ensures d < 10 ==> DecValue(c) == d
  {
    if d < 10 then '0' + d as char else 'a' + (d - 10) as char
  }

  /** The value of a decimal digit; 10 for anything else. */
  function DecValue(c: char): (d: nat)
    ensures d <= 10 && (d < 10 ==> c == '0' + d as char)
  {
    if '0' <= c <= '9' then (c - '0') as nat else 10
  }

  /** The value of a hexadecimal digit of either case; 16 for anything else. */
  function HexValue(c: char): (d: nat)
    ensures d <= 16
  {
    if '0' <= c <= '9' then (c - '0') as nat
    else if 'a' <= c <= 'f' then (c - 'a') as nat + 10
    else if 'A' <= c <= 'F' then (c - 'A') as nat + 10
    else 16
  }

  /** A number without leading zeros. */
  function Digits(n: nat, base: nat): (s: string)
    requires 2 <= base <= 16
    ensures s != [] && (forall i :: 0 <= i < |s| ==> HexValue(s[i]) < base)
  {
    if n < base then [DigitChar(n)]
    else DivideBy(n, base); Digits(n / base, base) + [DigitChar(n % base)]
  }

  lemma DivideBy(n: nat, base: nat)
    requires 2 <= base <= n
    ensures 0 < n / base < n && n == n / base * base + n % base
  {
  }

  // ---------- dotted quads ----------

  /** Octets with a dot behind each. */
  function Dotted(octets: seq<Byte>): string {
    if octets == [] then ""
    else Dotted(octets[..|octets| - 1]) + Digits(octets[|octets| - 1], 10) + "."
  }

  function Print4(a: seq<Byte>): string
    requires |a| == 4
  {
    Dotted(a[..3]) + Digits(a[3], 10)
  }

  /** The octets before the last dot, and the one being read. */
  function Scan4(src: string, done: seq<Byte>, cur: Byte, saw: bool): (r: Result<seq<Byte>>)
    ensures if r.Ok? then |r.value| == 4 else r == Err(EINVAL)
    decreases |src|
  {
    if src == "" then if |done| == 3 && saw then Ok(done + [cur]) else Err(EINVAL)
    else
      var d := DecValue(src[0]);
      if d < 10 then
        if (saw && cur == 0) || cur * 10 + d > 255 then Err(EINVAL)
        else Scan4(src[1..], done, cur * 10 + d, true)
      else if src[0] == '.' && saw && |done| < 3 then Scan4(src[1..], done + [cur], 0, false)
      else Err(EINVAL)
  }

  function Read4(src: string): (r: Result<seq<Byte>>)
    ensures if r.Ok? then |r.value| == 4 else r == Err(EINVAL)
  {
    Scan4(src, [], 0, false)
  }

  /** What has been read so far. */
  ghost function Before4(done: seq<Byte>, cur: Byte, saw: bool): string {
    Dotted(done) + if saw then Digits(cur, 10) else ""
  }

  /** What is accepted is what would be printed. */
  lemma {:induction false} Scan4IsCanonical(src: string, done: seq<Byte>, cur: Byte, saw: bool)
    requires Scan4(src, done, cur, saw).Ok? && |done| <= 3 && (!saw ==> cur == 0)
    ensures var a := Scan4(src, done, cur, saw).value;
            |a| == 4 && Print4(a) == Before4(done, cur, saw) + src
    decreases |src|
  {
    hide DecValue, HexValue;
    var a := Scan4(src, done, cur, saw).value;
    if src == "" {
      assert a[..3] == done;
    } else {
      var d := DecValue(src[0]);
      assert src == [src[0]] + src[1..];
      if d < 10 {
        OneMoreDigit(cur, d, saw, src[0]);
        Scan4IsCanonical(src[1..], done, cur * 10 + d, true);
      } else {
        assert (done + [cur])[..|done|] == done;
        Scan4IsCanonical(src[1..], done + [cur], 0, false);
      }
    }
  }

  lemma OneMoreDigit(cur: Byte, d: nat, saw: bool, c: char)
    requires d < 10 && c == '0' + d as char && (saw ==> cur != 0) && (!saw ==> cur == 0)
    ensures Digits(cur * 10 + d, 10) == (if saw then Digits(cur, 10) else "") + [c]
  {
  }

  lemma {:induction false} Scan4Digits(n: Byte, rest: string, done: seq<Byte>)
    requires |done| <= 3
    ensures Scan4(Digits(n, 10) + rest, done, 0, false) == Scan4(rest, done, n, true)
    decreases n
  {
    hide HexValue;
    var s := Digits(n, 10);
    if n < 10 {
      assert (s + rest)[1..] == rest;
    } else {
      DivideBy(n, 10);
      var c := [DigitChar(n % 10)];
      Scan4Digits(n / 10, c + rest, done);
      assert s + rest == Digits(n / 10, 10) + (c + rest);
      assert (c + rest)[1..] == rest;
    }
  }

  lemma Scan4Octet(n: Byte, rest: string, done: seq<Byte>)
    requires |done| < 3
    ensures Scan4(Digits(n, 10) + "." + rest, done, 0, false) == Scan4(rest, done + [n], 0, false)
  {
    Scan4Digits(n, "." + rest, done);
    assert Digits(n, 10) + "." + rest == Digits(n, 10) + ("." + rest);
    assert ("." + rest)[1..] == rest;
  }

  lemma Print4Parts(a: seq<Byte>)
    requires |a| == 4
    ensures Print4(a)
         == Digits(a[0], 10) + "." + (Digits(a[1], 10) + "." + (Digits(a[2], 10) + "." + Digits(a[3], 10)))
  {
    hide Digits;
    var d0, d1, d2, d3 := Digits(a[0], 10), Digits(a[1], 10), Digits(a[2], 10), Digits(a[3], 10);
    assert a[..3][..2] == a[..2] && a[..2][..1] == a[..1] && a[..1][..0] == [];
    assert Dotted(a[..1]) == d0 + ".";
    assert Dotted(a[..2]) == d0 + "." + d1 + ".";
    assert Print4(a) == d0 + "." + d1 + "." + d2 + "." + d3;
    assert d0 + "." + d1 + "." + d2 + "." + d3 == d0 + "." + (d1 + "." + (d2 + "." + d3));
  }

  lemma Print4ReadsBack(a: seq<Byte>)
    requires |a| == 4
    ensures Read4(Print4(a)) == Ok(a)
  {
    hide Digits;
    Print4Parts(a);
    Scan4Octet(a[0], Digits(a[1], 10) + "." + (Digits(a[2], 10) + "." + Digits(a[3], 10)), []);
    Scan4Octet(a[1], Digits(a[2], 10) + "." + Digits(a[3], 10), [a[0]]);
    Scan4Octet(a[2], Digits(a[3], 10), [a[0], a[1]]);
    Scan4Digits(a[3], "", [a[0], a[1], a[2]]);
    assert [] + [a[0]] == [a[0]] && [a[0]] + [a[1]] == [a[0], a[1]] && [a[0], a[1]] + [a[2]] == [a[0], a[1], a[2]];
    assert [a[0], a[1], a[2]] + [a[3]] == a;
    assert Digits(a[3], 10) + "" == Digits(a[3], 10);
  }

  /** The parser accepts exactly what the printer prints. */
  lemma Read4Iff(src: string, a: seq<Byte>)
    ensures Read4(src) == Ok(a) <==> |a| == 4 && src == Print4(a)
  {
    hide Digits;
    if Read4(src) == Ok(a) {
      Scan4IsCanonical(src, [], 0, false);
    }
    if |a| == 4 {
      Print4ReadsBack(a);
    }
  }

  // ---------- eight words ----------

  type Address = a: seq<Byte> | |a| == 16 witness seq(16, _ => 0)

  /** The eight 16-bit words, high byte first. */
  function WordAt(a: Address, i: nat): (w: nat)
    requires i < 8
    ensures w < 0x1_0000 && w / 256 == a[2 * i] && w % 256 == a[2 * i + 1]
  {
    a[2 * i] as int * 256 + a[2 * i + 1]
  }

  /** How many zero words there are from word `i` on without a gap. */
  function ZerosAt(a: Address, i: nat): (n: nat)
    requires i <= 8
    ensures i + n <= 8 && (forall k :: i <= k < i + n ==> WordAt(a, k) == 0)
    ensures i + n < 8 ==> WordAt(a, i + n) != 0
    decreases 8 - i
  {
    if i == 8 || WordAt(a, i) != 0 then 0 else 1 + ZerosAt(a, i + 1)
  }

  /** Where the longest run among the first `n` starts begins, the leftmost if several are as long. */
  function LongestOf(a: Address, n: nat): (b: nat)
    requires 0 < n <= 8
    ensures b < n
    ensures forall i :: 0 <= i < n ==> ZerosAt(a, i) <= ZerosAt(a, b)
    ensures forall i :: 0 <= i < b ==> ZerosAt(a, i) < ZerosAt(a, b)
  {
    if n == 1 then 0
    else
      var b := LongestOf(a, n - 1);
      if ZerosAt(a, n - 1) > ZerosAt(a, b) then n - 1 else b
  }

  datatype Run = Run(base: nat, len: nat)

  /** The run that "::" stands for. */
  function BestRun(a: Address): Option<Run> {
    var b := LongestOf(a, 8);
    if ZerosAt(a, b) < 2 then None else Some(Run(b, ZerosAt(a, b)))
  }

  /** Section 4.2 of RFC 5952: the run is all zeros, at least two words, longer than any to its left and
      at least as long as any to its right; and there is one as soon as two zero words are adjacent. */
  ghost predicate Compressed(a: Address, best: Option<Run>) {
    match best
    case None => forall i :: 0 <= i < 7 ==> WordAt(a, i) != 0 || WordAt(a, i + 1) != 0
    case Some(run) =>
      && 2 <= run.len && run.base + run.len <= 8
      && (forall k :: run.base <= k < run.base + run.len ==> WordAt(a, k) == 0)
      && (forall i, n :: 0 <= i && 0 <= n && i + n <= 8 && AllZero(a, i, n) ==>
            n <= run.len && (i < run.base ==> n < run.len))
  }

  predicate AllZero(a: Address, i: nat, n: nat)
    requires i + n <= 8
  {
    forall k :: i <= k < i + n ==> WordAt(a, k) == 0
  }

  /** The rule leaves no choice, and the run is the one it asks for. */
  lemma CompressedIff(a: Address, best: Option<Run>)
    ensures Compressed(a, best) <==> best == BestRun(a)
  {
    hide Compressed, BestRun;
    BestIsCompressed(a);
    if Compressed(a, best) {
      OneCompressed(a, best, BestRun(a));
    }
  }

  lemma OneCompressed(a: Address, x: Option<Run>, y: Option<Run>)
    requires Compressed(a, x) && Compressed(a, y)
    ensures x == y
  {
    hide WordAt;
    if x.Some? {
      assert AllZero(a, x.value.base, x.value.len);
      assert WordAt(a, x.value.base) == 0 && WordAt(a, x.value.base + 1) == 0;
    }
    if y.Some? {
      assert AllZero(a, y.value.base, y.value.len);
      assert WordAt(a, y.value.base) == 0 && WordAt(a, y.value.base + 1) == 0;
    }
  }

  lemma BestIsCompressed(a: Address)
    ensures Compressed(a, BestRun(a))
  {
    var b := LongestOf(a, 8);
    forall i, n | 0 <= i && 0 <= n && i + n <= 8 && AllZero(a, i, n) ensures n > 0 ==> n <= ZerosAt(a, i) {
      if 0 < n && ZerosAt(a, i) < n {
        assert WordAt(a, i + ZerosAt(a, i)) == 0;
      }
    }
    if ZerosAt(a, b) < 2 {
      forall i | 0 <= i < 7 ensures WordAt(a, i) != 0 || WordAt(a, i + 1) != 0 {
        assert ZerosAt(a, i) <= 1;
      }
    }
  }

  // ---------- printing ----------

  predicate Inside(best: Option<Run>, i: nat) {
    best.Some? && best.value.base <= i < best.value.base + best.value.len
  }

  /** Whether the last four bytes are printed as a dotted quad. */
  predicate Mixed(a: Address, best: Option<Run>, i: nat) {
    && i == 6 && best.Some? && best.value.base == 0
    && (best.value.len == 6 || (best.value.len == 7 && WordAt(a, 7) != 1)
        || (best.value.len == 5 && WordAt(a, 5) == 0xffff))
  }

  function Trailer(best: Option<Run>): string {
    if best.Some? && best.value.base + best.value.len == 8 then ":" else ""
  }

  /** The text from word `i` on. */
  function TextFrom(a: Address, best: Option<Run>, i: nat): (s: string)
    requires i <= 8
    decreases 8 - i
  {
    if i == 8 then Trailer(best)
    else if Inside(best, i) then (if i == best.value.base then ":" else "") + TextFrom(a, best, i + 1)
    else
      (if i != 0 then ":" else "") +
      if Mixed(a, best, i) then Print4(a[12..]) + Trailer(best)
      else Digits(WordAt(a, i), 16) + TextFrom(a, best, i + 1)
  }

  function Print6(a: Address): string {
    TextFrom(a, BestRun(a), 0)
  }

  // ---------- parsing ----------

  /** Bytes stored, where "::" stood, and the digits and value of the word being read. */
  datatype Parsed = Parsed(bytes: seq<Byte>, colon: Option<nat>, seen: nat, val: nat) {
    predicate Wf() {
      colon.Some? ==> colon.value <= |bytes|
    }
  }

  function Flushed(p: Parsed): Parsed {
    Parsed(p.bytes + [p.val / 256 % 256, p.val % 256], p.colon, 0, 0)
  }

  /** `token` is the text behind the last colon. */
  function Scan6(src: string, token: string, p: Parsed): (r: Result<Parsed>)
    requires p.Wf()
    ensures if r.Ok? then r.value.Wf() else r == Err(EINVAL)
    decreases |src|
  {
    if src == "" then Ok(p)
    else
      var ch, rest := src[0], src[1..];
      var d := HexValue(ch);
      if d < 16 then
        if p.seen == 4 then Err(EINVAL) else Scan6(rest, token, p.(val := p.val * 16 + d, seen := p.seen + 1))
      else if ch == ':' then
        if p.seen == 0 then
          if p.colon.Some? then Err(EINVAL) else Scan6(rest, rest, p.(colon := Some(|p.bytes|)))
        else if rest == "" || |p.bytes| + 2 > 16 then Err(EINVAL)
        else Scan6(rest, rest, Flushed(p))
      else if ch == '.' && |p.bytes| + 4 <= 16 && Read4(token).Ok? then
        Ok(p.(bytes := p.bytes + Read4(token).value, seen := 0))
      else Err(EINVAL)
  }

  function Finish(p: Parsed): (r: Result<seq<Byte>>)
    requires p.Wf()
    ensures if r.Ok? then |r.value| == 16 else r == Err(EINVAL)
  {
    if p.seen > 0 && |p.bytes| + 2 > 16 then Err(EINVAL)
    else
      var bytes := if p.seen > 0 then Flushed(p).bytes else p.bytes;
      if p.colon.Some? then
        if |bytes| >= 16 then Err(EINVAL)
        else Ok(bytes[..p.colon.value] + Zeros(16 - |bytes|) + bytes[p.colon.value..])
      else if |bytes| != 16 then Err(EINVAL)
      else Ok(bytes)
  }

  function Parse6(src: string, token: string, p: Parsed): (r: Result<seq<Byte>>)
    requires p.Wf()
    ensures if r.Ok? then |r.value| == 16 else r == Err(EINVAL)
  {
    var r := Scan6(src, token, p);
    if r.Err? then Err(r.error) else Finish(r.value)
  }

  const Start := Parsed([], None, 0, 0)

  function Read6(src: string): (r: Result<seq<Byte>>)
    ensures if r.Ok? then |r.value| == 16 else r == Err(EINVAL)
  {
    if src != "" && src[0] == ':' then
      if |src| == 1 || src[1] != ':' then Err(EINVAL) else Parse6(src[1..], src[1..], Start)
    else Parse6(src, src, Start)
  }

  // ---------- printed text reads back ----------

  function HexRead(s: string, val: nat): nat {
    if s == "" then val else HexRead(s[1..], val * 16 + HexValue(s[0]))
  }

  lemma {:induction false} HexReadSnoc(s: string, c: char, val: nat)
    ensures HexRead(s + [c], val) == HexRead(s, val) * 16 + HexValue(c)
  {
    hide HexValue;
    if s == "" {
      assert s + [c] == [c] && [c][1..] == "";
    } else {
      assert (s + [c])[1..] == s[1..] + [c];
      HexReadSnoc(s[1..], c, val * 16 + HexValue(s[0]));
    }
  }

  lemma {:induction false} HexReadDigits(n: nat)
    ensures HexRead(Digits(n, 16), 0) == n
  {
    if n >= 16 {
      DivideBy(n, 16);
      HexReadDigits(n / 16);
      HexReadSnoc(Digits(n / 16, 16), DigitChar(n % 16), 0);
    } else {
      assert [DigitChar(n)][1..] == "";
    }
  }

  lemma OneDigitMore(n: nat, base: nat)
    requires 2 <= base <= 16
    ensures |Digits(n, base)| == 1 + if n < base then 0 else |Digits(n / base, base)|
  {
  }

  lemma DigitsAreFew(n: nat)
    ensures n < 0x1_0000 ==> |Digits(n, 16)| <= 4
    ensures n < 1000 ==> |Digits(n, 10)| <= 3
  {
    hide Digits;
    OneDigitMore(n, 16);
    OneDigitMore(n / 16, 16);
    OneDigitMore(n / 16 / 16, 16);
    OneDigitMore(n / 16 / 16 / 16, 16);
    OneDigitMore(n, 10);
    OneDigitMore(n / 10, 10);
    OneDigitMore(n / 10 / 10, 10);
  }

  /** Up to four digits are taken into the word being read. */
  lemma {:induction false} ScanDigits(s: string, rest: string, token: string, p: Parsed)
    requires p.Wf() && p.seen + |s| <= 4 && forall i :: 0 <= i < |s| ==> HexValue(s[i]) < 16
    ensures Scan6(s + rest, token, p) == Scan6(rest, token, p.(seen := p.seen + |s|, val := HexRead(s, p.val)))
    decreases |s|
  {
    hide HexValue, Read4;
    if s == "" {
      assert s + rest == rest;
    } else {
      assert (s + rest)[1..] == s[1..] + rest;
      ScanDigits(s[1..], rest, token, p.(seen := p.seen + 1, val := p.val * 16 + HexValue(s[0])));
    }
  }

  /** The bytes of the first `i` words that the parser has stored; `i` is not inside the run. */
  function Kept(a: Address, best: Option<Run>, i: nat): seq<Byte>
    requires i <= 8
  {
    if best.Some? && best.value.base + best.value.len <= i then
      a[..2 * best.value.base] + a[2 * (best.value.base + best.value.len)..2 * i]
    else a[..2 * i]
  }

  function ColonAt(best: Option<Run>, i: nat): Option<nat> {
    if best.Some? && best.value.base + best.value.len <= i then Some(2 * best.value.base) else None
  }

  lemma KeptNext(a: Address, best: Option<Run>, i: nat, val: nat)
    requires i < 8 && Compressed(a, best) && !Inside(best, i) && val == WordAt(a, i)
    ensures Kept(a, best, i + 1) == Kept(a, best, i) + [val / 256 % 256, val % 256]
    ensures ColonAt(best, i + 1) == ColonAt(best, i)
    ensures |Kept(a, best, i)| <= 2 * i
  {
  }

  /** The run's zeros go where "::" stood. */
  lemma FinishReads(a: Address, best: Option<Run>, p: Parsed)
    requires Compressed(a, best) && p.seen == 0 && p.bytes == Kept(a, best, 8) && p.colon == ColonAt(best, 8)
    ensures p.Wf() && Finish(p) == Ok(a)
  {
    if best.Some? {
      var lo, hi := 2 * best.value.base, 2 * (best.value.base + best.value.len);
      forall k | lo <= k < hi ensures a[k] == 0 {
        assert WordAt(a, k / 2) == 0;
      }
      assert p.bytes[..lo] == a[..lo] && p.bytes[lo..] == a[hi..];
      assert a == a[..lo] + Zeros(hi - lo) + a[hi..];
    } else {
      assert a[..16] == a;
    }
  }

  /** The state when word `i - 1` has been read up to its last digit. */
  function Pending(a: Address, best: Option<Run>, i: nat): (p: Parsed)
    requires 0 < i <= 8 && Compressed(a, best)
    ensures p.Wf()
  {
    Parsed(Kept(a, best, i - 1), ColonAt(best, i - 1), |Digits(WordAt(a, i - 1), 16)|, WordAt(a, i - 1))
  }

  lemma PendingReads(a: Address, best: Option<Run>, i: nat, token: string, p: Parsed)
    requires i < 8 && Compressed(a, best) && p == Parsed(Kept(a, best, i), ColonAt(best, i), 0, 0)
    requires !Inside(best, i)
    ensures p.Wf()
    ensures Parse6(Digits(WordAt(a, i), 16) + TextFrom(a, best, i + 1), token, p)
         == Parse6(TextFrom(a, best, i + 1), token, Pending(a, best, i + 1))
  {
    hide Digits, HexValue, Scan6, TextFrom, Compressed;
    var w := WordAt(a, i);
    DigitsAreFew(w);
    HexReadDigits(w);
    KeptNext(a, best, i, w);
    ScanDigits(Digits(w, 16), TextFrom(a, best, i + 1), token, p);
  }

  lemma PendingFlushed(a: Address, best: Option<Run>, i: nat)
    requires 0 < i <= 8 && Compressed(a, best) && !Inside(best, i - 1)
    ensures Flushed(Pending(a, best, i)) == Parsed(Kept(a, best, i), ColonAt(best, i), 0, 0)
    ensures 0 < Pending(a, best, i).seen && |Pending(a, best, i).bytes| + 2 <= 16
  {
    hide Digits, Compressed, Inside, Kept;
    KeptNext(a, best, i - 1, WordAt(a, i - 1));
  }

  lemma ColonFlushes(rest: string, token: string, p: Parsed)
    requires p.Wf() && p.seen > 0 && rest != "" && |p.bytes| + 2 <= 16
    ensures Parse6(":" + rest, token, p) == Parse6(rest, rest, Flushed(p))
  {
    hide Finish;
    assert (":" + rest)[1..] == rest;
  }

  lemma ColonMarks(rest: string, token: string, p: Parsed)
    requires p.seen == 0 && p.colon.None?
    ensures Parse6(":" + rest, token, p) == Parse6(rest, rest, p.(colon := Some(|p.bytes|)))
  {
    hide Finish;
    assert (":" + rest)[1..] == rest;
  }

  /** A dotted quad is first read as a word, up to its first dot. */
  lemma QuadReads(x: seq<Byte>, p: Parsed)
    requires |x| == 4 && p.Wf() && p.seen == 0 && p.val == 0 && |p.bytes| + 4 <= 16
    ensures exists q: Parsed :: q.Wf() && q.bytes == p.bytes + x && q.colon == p.colon && q.seen == 0 &&
              Parse6(Print4(x), Print4(x), p) == Finish(q)
  {
    hide Digits, HexValue, Finish, Read4, Print4;
    var token, d := Print4(x), Digits(x[0], 10);
    var rest := Digits(x[1], 10) + "." + (Digits(x[2], 10) + "." + Digits(x[3], 10));
    Print4Parts(x);
    Print4ReadsBack(x);
    DigitsAreFew(x[0]);
    assert d + "." + rest == d + ("." + rest);
    ScanDigits(d, "." + rest, token, p);
    var q := p.(seen := |d|, val := HexRead(d, 0));
    assert HexValue('.') == 16 by { DotIsNoDigit(); }
    assert Scan6("." + rest, token, q) == Ok(q.(bytes := p.bytes + x, seen := 0));
  }

  lemma DotIsNoDigit()
    ensures HexValue('.') == 16
  {
  }

  lemma SkipsRun(a: Address, best: Option<Run>, i: nat)
    requires Compressed(a, best) && best.Some? && best.value.base < i <= best.value.base + best.value.len
    ensures TextFrom(a, best, i) == TextFrom(a, best, best.value.base + best.value.len)
    decreases 8 - i
  {
    hide Digits, Print4, Mixed;
    if i < best.value.base + best.value.len {
      SkipsRun(a, best, i + 1);
    }
  }

  /** What is printed for word `i` behind its colon, and all that follows. */
  function Body(a: Address, best: Option<Run>, i: nat): (s: string)
    requires i < 8
    ensures s != ""
  {
    if Mixed(a, best, i) then Print4(a[12..]) + Trailer(best) else Digits(WordAt(a, i), 16) + TextFrom(a, best, i + 1)
  }

  lemma TextAt(a: Address, best: Option<Run>, i: nat)
    requires i <= 8 && Compressed(a, best)
    ensures i == 8 ==> TextFrom(a, best, i) == Trailer(best) && (!Inside(best, 7) ==> TextFrom(a, best, i) == "")
    ensures i < 8 && !Inside(best, i) ==> TextFrom(a, best, i) == (if i != 0 then ":" else "") + Body(a, best, i)
    ensures i < 8 && best.Some? && i == best.value.base ==>
            TextFrom(a, best, i) == ":" + TextFrom(a, best, i + best.value.len)
  {
    hide Digits, Print4, Mixed;
    if i < 8 && best.Some? && i == best.value.base {
      SkipsRun(a, best, i + 1);
    }
  }

  lemma ParseNothing(token: string, p: Parsed)
    requires p.Wf()
    ensures Parse6("", token, p) == Finish(p)
  {
  }

  lemma FinishFlushes(p: Parsed)
    requires p.Wf() && p.seen > 0 && |p.bytes| + 2 <= 16
    ensures Finish(p) == Finish(Flushed(p))
  {
  }

  lemma RunBegins(a: Address, best: Option<Run>, i: nat)
    requires Compressed(a, best) && Inside(best, i) && (i > 0 ==> !Inside(best, i - 1))
    ensures i == best.value.base && i + best.value.len <= 8
    ensures Kept(a, best, i) == a[..2 * i] && ColonAt(best, i) == None
  {
  }

  /** The rest of the text, with a word pending, completes the address. */
  lemma {:induction false} PendingCompletes(a: Address, best: Option<Run>, i: nat, token: string)
    requires 0 < i <= 8 && Compressed(a, best) && !Inside(best, i - 1)
    ensures Parse6(TextFrom(a, best, i), token, Pending(a, best, i)) == Ok(a)
    decreases 8 - i, 1
  {
    hide Body, Parse6, Kept, Pending, Compressed, TextFrom, Finish, Flushed;
    var p := Pending(a, best, i);
    PendingFlushed(a, best, i);
    TextAt(a, best, i);
    if i == 8 {
      ParseNothing(token, p);
      FinishFlushes(p);
      FinishReads(a, best, Flushed(p));
    } else if Inside(best, i) {
      RunBegins(a, best, i);
      var rest := TextFrom(a, best, i + best.value.len);
      TextAt(a, best, i + best.value.len);
      ColonFlushes(rest, token, p);
      RunCompletes(a, best, rest);
    } else {
      ColonFlushes(Body(a, best, i), token, p);
      BodyCompletes(a, best, i);
    }
  }

  lemma {:induction false} RunCompletes(a: Address, best: Option<Run>, token: string)
    requires Compressed(a, best) && best.Some?
    ensures var run := best.value;
            Parse6(TextFrom(a, best, run.base + run.len), token, Parsed(a[..2 * run.base], None, 0, 0)) == Ok(a)
    decreases 8 - best.value.base - best.value.len, 1
  {
    hide Body, Parse6, TextFrom, Finish, WordAt;
    var run := best.value;
    var p, next := Parsed(a[..2 * run.base], None, 0, 0), run.base + run.len;
    assert Kept(a, best, next) == p.bytes && |p.bytes| == 2 * run.base;
    TextAt(a, best, next);
    if next == 8 {
      assert TextFrom(a, best, next) == ":" + "";
      ColonMarks("", token, p);
      ParseNothing("", p.(colon := Some(|p.bytes|)));
      FinishReads(a, best, p.(colon := Some(|p.bytes|)));
    } else {
      ColonMarks(Body(a, best, next), token, p);
      BodyCompletes(a, best, next);
    }
  }

  lemma {:induction false} BodyCompletes(a: Address, best: Option<Run>, i: nat)
    requires i < 8 && Compressed(a, best) && !Inside(best, i)
    ensures var p := Parsed(Kept(a, best, i), ColonAt(best, i), 0, 0);
            p.Wf() && Parse6(Body(a, best, i), Body(a, best, i), p) == Ok(a)
    decreases 8 - i, 0
  {
    hide Digits, Print4, Parse6, Finish, TextFrom, Pending, WordAt;
    var p := Parsed(Kept(a, best, i), ColonAt(best, i), 0, 0);
    KeptNext(a, best, i, WordAt(a, i));
    if Mixed(a, best, i) {
      QuadReads(a[12..], p);
      var q: Parsed :| q.Wf() && q.bytes == p.bytes + a[12..] && q.colon == p.colon && q.seen == 0 &&
        Parse6(Print4(a[12..]), Print4(a[12..]), p) == Finish(q);
      assert q.bytes == Kept(a, best, 8);
      assert Body(a, best, i) == Print4(a[12..]);
      FinishReads(a, best, q);
    } else {
      PendingReads(a, best, i, Body(a, best, i), p);
      PendingCompletes(a, best, i + 1, Body(a, best, i));
    }
  }

  /** Every address reads back from its text. */
  lemma Print6ReadsBack(a: Address)
    ensures Read6(Print6(a)) == Ok(a)
  {
    hide Body, Parse6, TextFrom, LongestOf, BestRun, WordAt, Compressed;
    var best := BestRun(a);
    BestIsCompressed(a);
    TextAt(a, best, 0);
    if Inside(best, 0) {
      var rest := TextFrom(a, best, best.value.len);
      RunBegins(a, best, 0);
      TextAt(a, best, best.value.len);
      assert Print6(a)[1..] == rest;
      RunCompletes(a, best, rest);
      assert a[..0] == [];
    } else {
      BodyCompletes(a, best, 0);
      BodyBegins(a, best);
      assert "" + Body(a, best, 0) == Body(a, best, 0);
    }
  }

  lemma BodyBegins(a: Address, best: Option<Run>)
    ensures Body(a, best, 0)[0] != ':'
  {
    hide Digits, TextFrom;
    var s := Digits(WordAt(a, 0), 16);
    assert HexValue(s[0]) < 16;
    assert HexValue(':') == 16;
  }

  // ---------- sizes, and a zone behind the address ----------

  /** The text buffers of the source, with their final NUL. */
  const ADDRSTRLEN4: nat := 16
  const ADDRSTRLEN6: nat := 46

  lemma Print4Fits(a: seq<Byte>)
    requires |a| == 4
    ensures |Print4(a)| < ADDRSTRLEN4 && '%' !in Print4(a)
  {
    hide Digits;
    Print4Parts(a);
    DigitsAreFew(a[0]);
    DigitsAreFew(a[1]);
    DigitsAreFew(a[2]);
    DigitsAreFew(a[3]);
    assert HexValue('%') == 16;
  }

  lemma {:induction false} TextFits(a: Address, best: Option<Run>, i: nat)
    requires i <= 8
    ensures |TextFrom(a, best, i)| <= 5 * (8 - i) + if i == 0 then 5 else 6
    decreases 8 - i
  {
    hide Digits, Print4, WordAt;
    if i < 8 {
      TextFits(a, best, i + 1);
      Print4Fits(a[12..]);
      DigitsAreFew(WordAt(a, i));
    }
  }

  lemma {:induction false} TextHasNoZone(a: Address, best: Option<Run>, i: nat)
    requires i <= 8
    ensures '%' !in TextFrom(a, best, i)
    decreases 8 - i
  {
    hide Digits, Print4, HexValue, WordAt, Mixed, Inside, Trailer;
    if i < 8 {
      TextHasNoZone(a, best, i + 1);
      Print4Fits(a[12..]);
      PercentIsNoDigit(Digits(WordAt(a, i), 16));
    }
    assert '%' !in Trailer(best) by { TrailerHasNoZone(best); }
  }

  lemma TrailerHasNoZone(best: Option<Run>)
    ensures '%' !in Trailer(best)
  {
  }

  lemma PercentIsNoDigit(s: string)
    requires forall i :: 0 <= i < |s| ==> HexValue(s[i]) < 16
    ensures '%' !in s
  {
    assert HexValue('%') == 16;
  }

  function IndexOf(c: char, s: string): (p: nat)
    ensures p <= |s| && (p < |s| ==> s[p] == c) && (forall i :: 0 <= i < p ==> s[i] != c)
  {
    if s == "" || s[0] == c then 0 else 1 + IndexOf(c, s[1..])
  }

  /** A zone, from "%" on, is dropped; what is before it must fit the buffer. */
  function ReadZoned(src: string): Result<seq<Byte>> {
    var p := IndexOf('%', src);
    if p < |src| && p > ADDRSTRLEN6 - 1 then Err(EINVAL) else Read6(src[..p])
  }

  /** Every address reads back from its text, with or without a zone. */
  lemma ZonedReadsBack(a: Address, zone: string)
    requires zone == "" || zone[0] == '%'
    ensures |Print6(a)| < ADDRSTRLEN6
    ensures ReadZoned(Print6(a) + zone) == Ok(a)
  {
    hide TextFrom, BestRun, Read6;
    var text := Print6(a);
    TextFits(a, BestRun(a), 0);
    TextHasNoZone(a, BestRun(a), 0);
    Print6ReadsBack(a);
    var p := IndexOf('%', text + zone);
    assert forall i :: 0 <= i < |text| ==> (text + zone)[i] == text[i] && text[i] in text;
    assert zone != "" ==> (text + zone)[|text|] == '%';
    assert (text + zone)[..p] == text;
  }
}

/** `inet_ntop4`, `inet_ntop6`, `inet_pton4` and `inet_pton6` (src/inet.c:53-302): loops over characters that
    fill buffers. */
module Inet {
  import opened InternalKeys
  import opened LogFormat
  import opened UvResults
  import opened AddressText

  const NUL: char := '\0'

  // ---------- the longest run of zero words ----------

  /** A run as the loop keeps it; -1 for none. */
  datatype Span = Span(base: int, len: int)

  function BestOf(best: Span): Option<Run> {
    if best.base >= 0 && best.len >= 2 then Some(Run(best.base, best.len)) else None
  }

  /** `best` beats every run of zeros that ends at or before word `lim`. */
  ghost predicate Beats(a: Address, best: Span, lim: nat)
    requires lim <= 8
  {
    && (best.base >= 0 ==> 0 < best.len && best.base + best.len <= lim && AllZero(a, best.base, best.len))
    && forall i, n :: 0 <= i && 0 < n && i + n <= lim && AllZero(a, i, n) ==>
         best.base >= 0 && n <= best.len && (i < best.base ==> n < best.len)
  }

  /** `cur` is the run that reaches word `i` from the left, or there is none. */
  ghost predicate Reaches(a: Address, cur: Span, i: nat)
    requires i <= 8
  {
    if cur.base < 0 then i == 0 || WordAt(a, i - 1) != 0
    else
      && 0 < cur.len && cur.base + cur.len == i && AllZero(a, cur.base, cur.len)
      && (cur.base == 0 || WordAt(a, cur.base - 1) != 0)
  }

  function Better(best: Span, cur: Span): Span {
    if best.base == -1 || cur.len > best.len then cur else best
  }

  lemma BetterBeats(a: Address, best: Span, cur: Span, i: nat)
    requires i <= 8 && cur.base >= 0 && -1 <= best.base && Reaches(a, cur, i) && Beats(a, best, cur.base)
    ensures Beats(a, Better(best, cur), i)
  {
    hide WordAt;
    var next := Better(best, cur);
    forall s, n | 0 <= s && 0 < n && s + n <= i && AllZero(a, s, n)
      ensures n <= next.len && (s < next.base ==> n < next.len)
    {
      assert cur.base > 0 ==> WordAt(a, cur.base - 1) != 0;
    }
  }

  lemma BeatsNext(a: Address, best: Span, i: nat)
    requires i < 8 && WordAt(a, i) != 0 && Beats(a, best, i)
    ensures Beats(a, best, i + 1)
  {
    forall s, n | 0 <= s && 0 < n && s + n <= i + 1 && AllZero(a, s, n) ensures s + n <= i {
      assert WordAt(a, i) != 0;
    }
  }

  lemma BestIsFound(a: Address, best: Span)
    requires Beats(a, best, 8) && -1 <= best.base
    ensures BestOf(best) == BestRun(a)
  {
    hide WordAt, BestRun;
    forall i | 0 <= i < 7 && WordAt(a, i) == 0 && WordAt(a, i + 1) == 0 ensures best.base >= 0 && best.len >= 2 {
      assert AllZero(a, i, 2);
    }
    if BestOf(best).Some? {
      assert AllZero(a, best.base, best.len);
    }
    CompressedIff(a, BestOf(best));
  }

  method FindBest(words: array<nat>, ghost a: Address) returns (best: Span)
    requires words.Length == 8 && forall k :: 0 <= k < 8 ==> words[k] == WordAt(a, k)
    ensures -1 <= best.base && BestOf(best) == BestRun(a) && (best.base >= 0 ==> best.len >= 2)
  {
    hide BestRun, WordAt;
    var cur := Span(-1, 0);
    best := Span(-1, 0);
    var i := 0;
    while i < words.Length
      invariant 0 <= i <= 8 && -1 <= best.base && -1 <= cur.base <= i
      invariant Reaches(a, cur, i) && Beats(a, best, if cur.base < 0 then i else cur.base)
    {
      if words[i] == 0 {
        if cur.base == -1 {
          cur := Span(i, 1);
        } else {
          cur := cur.(len := cur.len + 1);
        }
      } else {
        if cur.base != -1 {
          BetterBeats(a, best, cur, i);
          if best.base == -1 || cur.len > best.len {
            best := cur;
          }
          cur := cur.(base := -1);
        }
        BeatsNext(a, best, i);
      }
      i := i + 1;
    }
    if cur.base != -1 {
      BetterBeats(a, best, cur, i);
      if best.base == -1 || cur.len > best.len {
        best := cur;
      }
    }
    BestIsFound(a, best);
    if best.base != -1 && best.len < 2 {
      best := best.(base := -1);
    }
  }

  // ---------- printing ----------

  /** `was` with the text laid over it from `at` on. */
  ghost predicate Laid(was: seq<char>, now: seq<char>, at: nat, text: string)
    requires at + |text| <= |was|
  {
    |now| == |was| && forall x :: 0 <= x < |was| ==> now[x] == if at <= x < at + |text| then text[x - at] else was[x]
  }

  lemma LaidIs(was: seq<char>, now: seq<char>, at: nat, text: string)
    requires at + |text| <= |was| && Laid(was, now, at, text)
    ensures now == was[..at] + text + was[at + |text|..]
  {
  }

  /** `uv__strscpy` of a text and its NUL: as much as fits, always terminated; nothing for no room. */
  method CopyText(text: string, dst: array<char>, at: nat, size: nat) returns (fits: bool)
    requires at + size <= dst.Length && NUL !in text
    modifies dst
    ensures fits <==> size == 0 || |text| < size
    ensures size > 0 ==>
            var n := if |text| < size then |text| else size - 1;
            dst[..] == old(dst[..at]) + (text[..n] + [NUL]) + old(dst[at + n + 1..])
    ensures size == 0 ==> dst[..] == old(dst[..])
  {
    var i := 0;
    ghost var was := dst[..];
    while i < size
      invariant 0 <= i <= size && i <= |text| && Laid(was, dst[..], at, text[..i])
    {
      if i == |text| {
        dst[at + i] := NUL;
        LaidIs(was, dst[..], at, text[..i] + [NUL]);
        return true;
      }
      dst[at + i] := text[i];
      i := i + 1;
    }
    if i == 0 {
      return true;
    }
    dst[at + i - 1] := NUL;
    LaidIs(was, dst[..], at, text[..i - 1] + [NUL]);
    return false;
  }

  lemma Print4HasNoNul(a: seq<Byte>)
    requires |a| == 4
    ensures NUL !in Print4(a)
  {
    hide Digits;
    Print4Parts(a);
    assert HexValue(NUL) == 16;
  }

  method Ntop4(a: seq<Byte>, dst: array<char>, at: nat, size: nat) returns (rc: Result<()>)
    requires |a| == 4 && at + size <= dst.Length
    modifies dst
    ensures |Print4(a)| >= size ==> rc == Err(ENOSPC) && dst[..] == old(dst[..])
    ensures |Print4(a)| < size ==>
            rc == Ok(()) && dst[..] == old(dst[..at]) + (Print4(a) + [NUL]) + old(dst[at + |Print4(a)| + 1..])
  {
    var l := |Print4(a)|;
    if l >= size {
      return Err(ENOSPC);
    }
    Print4HasNoNul(a);
    assert Print4(a)[..l] == Print4(a);
    var _ := CopyText(Print4(a), dst, at, size);
    return Ok(());
  }

  /** The words of an address: each byte goes to its half of one. */
  method ToWords(a: Address) returns (words: array<nat>)
    ensures fresh(words) && words.Length == 8 && forall k :: 0 <= k < 8 ==> words[k] == WordAt(a, k)
  {
    words := new nat[8](_ => 0);
    for i := 0 to 16
      invariant forall k :: 0 <= k < 8 && 2 * k + 1 < i ==> words[k] == WordAt(a, k)
      invariant forall k :: 0 <= k < 8 && 2 * k + 1 == i ==> words[k] == a[2 * k] as int * 256
      invariant forall k :: 0 <= k < 8 && i <= 2 * k ==> words[k] == 0
    {
      // The two halves share no bit, so that the disjunction is a sum.
      words[i / 2] := words[i / 2] + a[i] as int * (if i % 2 == 0 then 256 else 1);
    }
  }

  lemma DigitsHaveNoNul(n: nat)
    ensures NUL !in Digits(n, 16)
  {
    assert HexValue(NUL) == 16;
  }

  /** With `piece + rest` still to be written to complete `all`, `rest` is left. */
  method PutText(piece: string, tmp: array<char>, tp: nat, ghost rest: string, ghost all: string) returns (next: nat)
    requires tp + |piece| + |rest| < tmp.Length && tmp[..tp] + (piece + rest) == all && NUL !in piece
    modifies tmp
    ensures next + |rest| < tmp.Length && tmp[..next] + rest == all
  {
    assert piece[..|piece|] == piece;
    var fits := CopyText(piece, tmp, tp, tmp.Length - tp);
    next := tp + |piece|;
    assert tmp[..next] == old(tmp[..tp]) + piece;
  }

  method PutColon(tmp: array<char>, tp: nat, ghost rest: string, ghost all: string) returns (next: nat)
    requires tp + 1 + |rest| < tmp.Length && tmp[..tp] + (":" + rest) == all
    modifies tmp
    ensures next + |rest| < tmp.Length && tmp[..next] + rest == all
  {
    tmp[tp] := ':';
    next := tp + 1;
    assert tmp[..next] == old(tmp[..tp]) + ":";
  }

  method PutQuad(x: seq<Byte>, tmp: array<char>, tp: nat, ghost rest: string, ghost all: string) returns (next: nat)
    requires |x| == 4 && tp + |Print4(x)| + |rest| < tmp.Length && tmp[..tp] + (Print4(x) + rest) == all
    modifies tmp
    ensures next + |rest| < tmp.Length && tmp[..next] + rest == all
  {
    hide Print4;
    var rc := Ntop4(x, tmp, tp, tmp.Length - tp);
    next := tp + |Print4(x)|;
    assert tmp[..next] == old(tmp[..tp]) + Print4(x);
  }

  /** Printing into the temporary buffer: it never runs full. */
  method Format(a: Address, words: array<nat>, best: Span) returns (tmp: array<char>, tp: nat)
    requires words.Length == 8 && forall k :: 0 <= k < 8 ==> words[k] == WordAt(a, k)
    requires -1 <= best.base && BestOf(best) == BestRun(a) && (best.base >= 0 ==> best.len >= 2)
    ensures fresh(tmp) && tmp.Length == ADDRSTRLEN6 && tp < tmp.Length && tmp[..tp] == Print6(a)
  {
    hide TextFrom, Print4, Digits, WordAt, BestRun;
    tmp, tp := new char[ADDRSTRLEN6], 0;
    ghost var run := BestRun(a);
    TextFits(a, run, 0);
    BestIsCompressed(a);
    TextAt(a, run, 8);
    var w5, w7 := words[5], words[7];
    var i := 0;
    ghost var rest := Print6(a);
    while i < 8
      invariant 0 <= i <= 8 && tp + |rest| < ADDRSTRLEN6
      invariant tmp[..tp] + rest == Print6(a) && rest == TextFrom(a, run, i)
      decreases 8 - i
    {
      TextStep(a, run, i);
      if best.base != -1 && best.base <= i < best.base + best.len {
        rest := TextFrom(a, run, i + 1);
        if i == best.base {
          tp := PutColon(tmp, tp, rest, Print6(a));
        }
        i := i + 1;
        continue;
      }
      rest := Body(a, run, i);
      if i != 0 {
        tp := PutColon(tmp, tp, rest, Print6(a));
      }
      if i == 6 && best.base == 0 &&
         (best.len == 6 || (best.len == 7 && w7 != 1) || (best.len == 5 && w5 == 0xffff)) {
        rest := Trailer(run);
        tp := PutQuad(a[12..], tmp, tp, rest, Print6(a));
        break;
      }
      rest := TextFrom(a, run, i + 1);
      DigitsHaveNoNul(words[i]);
      tp := PutText(Digits(words[i], 16), tmp, tp, rest, Print6(a));
      i := i + 1;
    }
    assert rest == Trailer(run);
    if best.base != -1 && best.base + best.len == 8 {
      tp := PutColon(tmp, tp, "", Print6(a));
    }
  }

  lemma TextStep(a: Address, best: Option<Run>, i: nat)
    requires i < 8
    ensures TextFrom(a, best, i)
         == if Inside(best, i) then (if i == best.value.base then ":" else "") + TextFrom(a, best, i + 1)
            else (if i != 0 then ":" else "") + Body(a, best, i)
  {
    hide Digits, Print4, Mixed;
  }

  lemma {:induction false} TextHasNoNul(a: Address, best: Option<Run>, i: nat)
    requires i <= 8
    ensures NUL !in TextFrom(a, best, i)
    decreases 8 - i
  {
    hide Digits, Print4, WordAt, Mixed, Inside;
    if i < 8 {
      TextHasNoNul(a, best, i + 1);
      Print4HasNoNul(a[12..]);
      DigitsHaveNoNul(WordAt(a, i));
    }
  }

  /** With no room at all the printer claims success; otherwise the text must fit with its NUL. */
  method Ntop6(a: Address, dst: array<char>, size: nat) returns (rc: Result<()>)
    requires size <= dst.Length
    modifies dst
    ensures rc == (if size == 0 || |Print6(a)| < size then Ok(()) else Err(ENOSPC))
    ensures size == 0 ==> dst[..] == old(dst[..])
    ensures size > 0 ==>
            var n := if |Print6(a)| < size then |Print6(a)| else size - 1;
            dst[..] == (Print6(a)[..n] + [NUL]) + old(dst[n + 1..])
  {
    hide TextFrom, BestRun;
    var words := ToWords(a);
    var best := FindBest(words, a);
    var tmp, tp := Format(a, words, best);
    TextHasNoNul(a, BestRun(a), 0);
    var fits := CopyText(tmp[..tp], dst, 0, size);
    return if fits then Ok(()) else Err(ENOSPC);
  }

  // ---------- parsing ----------

  /** Octets go to a buffer of their own, and to `dst` once all four are there. */
  method Pton4(src: string, dst: array<Byte>, at: nat) returns (rc: Result<()>)
    requires at + 4 <= dst.Length
    modifies dst
    ensures Read4(src).Err? ==> rc == Err(EINVAL) && dst[..] == old(dst[..])
    ensures Read4(src).Ok? ==>
            rc == Ok(()) && dst[..] == old(dst[..at]) + Read4(src).value + old(dst[at + 4..])
  {
    var tmp := new Byte[4];
    var saw, octets, tp, k := false, 0, 0, 0;
    tmp[tp] := 0;
    while k < |src|
      invariant 0 <= k <= |src| && 0 <= tp < 4 && octets == tp + (if saw then 1 else 0)
      invariant (!saw ==> tmp[tp] == 0) && dst[..] == old(dst[..])
      invariant Read4(src) == Scan4(src[k..], tmp[..tp], tmp[tp], saw)
    {
      var ch := src[k];
      assert src[k..][1..] == src[k + 1..];
      k := k + 1;
      var d := DecValue(ch);
      if d < 10 {
        var nw := tmp[tp] as int * 10 + d;
        if saw && tmp[tp] == 0 {
          return Err(EINVAL);
        }
        if nw > 255 {
          return Err(EINVAL);
        }
        ghost var done := tmp[..tp];
        tmp[tp] := nw;
        assert tmp[..tp] == done;
        if !saw {
          octets := octets + 1;
          if octets > 4 {
            return Err(EINVAL);
          }
          saw := true;
        }
      } else if ch == '.' && saw {
        if octets == 4 {
          return Err(EINVAL);
        }
        ghost var done := tmp[..tp] + [tmp[tp]];
        tp := tp + 1;
        tmp[tp] := 0;
        saw := false;
        assert tmp[..tp] == done;
      } else {
        return Err(EINVAL);
      }
    }
    if octets < 4 {
      return Err(EINVAL);
    }
    assert tmp[..3] + [tmp[3]] == tmp[..];
    forall i | 0 <= i < 4 {
      dst[at + i] := tmp[i];
    }
    return Ok(());
  }

  /** What stands behind "::" moves to the end of the buffer, from its last byte down. */
  method ShiftUp(tmp: array<Byte>, colonp: nat, tp: nat)
    requires tmp.Length == 16 && colonp <= tp < 16
    requires forall k :: tp <= k < 16 ==> tmp[k] == 0
    modifies tmp
    ensures tmp[..] == old(tmp[..colonp]) + Zeros(16 - tp) + old(tmp[colonp..tp])
  {
    var endp, n := 16, tp - colonp;
    for i := 1 to n + 1
      invariant forall k :: 0 <= k < tp + 1 - i ==> tmp[k] == old(tmp[k])
      invariant forall k :: tp + 1 - i <= k < endp + 1 - i ==> tmp[k] == 0
      invariant forall k :: endp + 1 - i <= k < endp ==> tmp[k] == old(tmp[k - (16 - tp)])
    {
      tmp[endp - i] := tmp[colonp + n - i];
      tmp[colonp + n - i] := 0;
    }
  }

  /** The pending word is stored, and a "::" filled up. */
  method FinishAt(tmp: array<Byte>, tp0: nat, colon: Option<nat>, seen: nat, val: nat) returns (ok: bool)
    requires tmp.Length == 16 && tp0 <= 16 && (colon.Some? ==> colon.value <= tp0)
    requires forall k :: tp0 <= k < 16 ==> tmp[k] == 0
    modifies tmp
    ensures var r := Finish(Parsed(old(tmp[..tp0]), colon, seen, val));
            ok == r.Ok? && (ok ==> tmp[..] == r.value)
  {
    ghost var p := Parsed(tmp[..tp0], colon, seen, val);
    var tp := tp0;
    if seen > 0 {
      if tp + 2 > 16 {
        return false;
      }
      PutWord(tmp, tp, val);
      tp := tp + 2;
    }
    ghost var bytes := tmp[..tp];
    assert bytes == if p.seen > 0 then Flushed(p).bytes else p.bytes;
    if colon.Some? {
      if tp == 16 {
        return false;
      }
      assert forall k :: tp <= k < 16 ==> tmp[k] == 0;
      ShiftUp(tmp, colon.value, tp);
      assert tmp[..] == bytes[..colon.value] + Zeros(16 - |bytes|) + bytes[colon.value..];
      tp := 16;
    }
    assert tmp[..16] == tmp[..];
    return tp == 16;
  }

  /** One character read, and then the rest. */
  ghost function Stepped(ch: char, rest: string, token: string, p: Parsed): Result<seq<Byte>>
    requires p.Wf()
  {
    var d := HexValue(ch);
    if d < 16 then
      if p.seen == 4 then Err(EINVAL) else Parse6(rest, token, p.(val := p.val * 16 + d, seen := p.seen + 1))
    else if ch == ':' then
      if p.seen == 0 then
        if p.colon.Some? then Err(EINVAL) else Parse6(rest, rest, p.(colon := Some(|p.bytes|)))
      else if rest == "" || |p.bytes| + 2 > 16 then Err(EINVAL)
      else Parse6(rest, rest, Flushed(p))
    else if ch == '.' && |p.bytes| + 4 <= 16 && Read4(token).Ok? then
      Finish(p.(bytes := p.bytes + Read4(token).value, seen := 0))
    else Err(EINVAL)
  }

  lemma ScanStep(src: string, k: nat, token: string, p: Parsed)
    requires k < |src| && p.Wf()
    ensures Parse6(src[k..], token, p) == Stepped(src[k], src[k + 1..], token, p)
  {
    hide HexValue, Read4, Finish;
    assert src[k..][1..] == src[k + 1..];
  }

  method Pton6(src: string, dst: array<Byte>) returns (rc: Result<()>)
    requires dst.Length >= 16
    modifies dst
    ensures Read6(src).Err? ==> rc == Err(EINVAL) && dst[..] == old(dst[..])
    ensures Read6(src).Ok? ==> rc == Ok(()) && dst[..] == Read6(src).value + old(dst[16..])
  {
    hide Scan6, Parse6, Finish, HexValue, Read4;
    var tmp := new Byte[16](_ => 0);
    var tp, endp, colon := 0, 16, None;
    var k := 0;
    if k < |src| && src[k] == ':' {
      k := k + 1;
      if k == |src| || src[k] != ':' {
        return Err(EINVAL);
      }
    }
    var curtok, seen, val := k, 0, 0;
    ghost var p := Start;
    assert src[0..] == src;
    while k < |src|
      invariant 0 <= curtok <= k <= |src| && 0 <= tp <= 16 && dst[..] == old(dst[..])
      invariant p == Parsed(tmp[..tp], colon, seen, val) && p.Wf()
      invariant forall i :: tp <= i < 16 ==> tmp[i] == 0
      invariant Read6(src) == Parse6(src[k..], src[curtok..], p)
      decreases |src| - k
    {
      var ch := src[k];
      ScanStep(src, k, src[curtok..], p);
      k := k + 1;
      var d := HexValue(ch);
      if d < 16 {
        val, seen := val * 16 + d, seen + 1;
        if seen > 4 {
          return Err(EINVAL);
        }
        p := p.(val := val, seen := seen);
        continue;
      }
      if ch == ':' {
        curtok := k;
        if seen == 0 {
          if colon.Some? {
            return Err(EINVAL);
          }
          colon := Some(tp);
          p := p.(colon := colon);
          continue;
        } else if k == |src| {
          return Err(EINVAL);
        }
        if tp + 2 > endp {
          return Err(EINVAL);
        }
        PutWord(tmp, tp, val);
        tp := tp + 2;
        seen, val := 0, 0;
        p := Flushed(p);
        continue;
      }
      if ch == '.' && tp + 4 <= endp {
        var quad := Pton4(src[curtok..], tmp, tp);
        if quad.Ok? {
          p := p.(bytes := p.bytes + Read4(src[curtok..]).value, seen := 0);
          tp := tp + 4;
          seen := 0;
          break;
        }
      }
      return Err(EINVAL);
    }
    assert src[|src|..] == "";
    ParseNothing(src[curtok..], p);
    assert Read6(src) == Finish(p);
    var ok := FinishAt(tmp, tp, colon, seen, val);
    if !ok {
      return Err(EINVAL);
    }
    forall i | 0 <= i < 16 {
      dst[i] := tmp[i];
    }
    return Ok(());
  }

  method PutWord(tmp: array<Byte>, tp: nat, val: nat)
    requires tp + 2 <= tmp.Length
    modifies tmp
    ensures tmp[..] == old(tmp[..tp]) + [val / 256 % 256, val % 256] + old(tmp[tp + 2..])
  {
    tmp[tp] := val / 256 % 256;
    tmp[tp + 1] := val % 256;
  }

  datatype Family = AF_INET | AF_INET6 | OtherFamily

  /** `uv_inet_pton`: an IPv6 address may carry a zone. */
  method UvInetPton(af: Family, src: string, dst: array<Byte>) returns (rc: Result<()>)
    requires dst.Length >= match af case AF_INET => 4 case AF_INET6 => 16 case OtherFamily => 0
    modifies dst
    ensures var read := match af case AF_INET => Read4(src) case AF_INET6 => ReadZoned(src) case _ => Err(EAFNOSUPPORT);
            if read.Ok? then |read.value| <= dst.Length && rc == Ok(()) && dst[..] == read.value + old(dst[|read.value|..])
            else rc == Err(read.error) && dst[..] == old(dst[..])
  {
    hide Read4, Read6;
    match af
    case AF_INET =>
      rc := Pton4(src, dst, 0);
    case AF_INET6 =>
      var s, p := src, IndexOf('%', src);
      if p < |src| {
        if p > ADDRSTRLEN6 - 1 {
          return Err(EINVAL);
        }
        s := src[..p];
      }
      assert s == src[..p];
      rc := Pton6(s, dst);
    case OtherFamily =>
      rc := Err(EAFNOSUPPORT);
  }
}
