/** Results of the converters of src/idna.c and src/inet.c. */
module UvResults {
  datatype Error = EINVAL | E2BIG | ENOSPC | EAFNOSUPPORT
  datatype Result<+T> = Ok(value: T) | Err(error: Error)
}

/** Punycode (src/idna.c, sections 3 and 6 of RFC 3492): what a label is encoded to, and the decoder of
    section 6.2 that reads it back. Text is a sequence of ASCII codes, a label one of code points. */
module PunycodeText {
  import opened InternalKeys
  import opened UvResults

  type CodePoint = nat
  type Text = seq<nat>

  const MAX_UINT: nat := 0xFFFF_FFFF
  const HYPHEN: nat := 45

  // ---------- digits and numerals ----------

  /** "abcdefghijklmnopqrstuvwxyz0123456789" */
  function Alphabet(digit: nat): (c: nat)
    requires digit < 36
    ensures c != HYPHEN
  {
    if digit < 26 then 97 + digit else 22 + digit
  }

  /** The value of a digit; 36 for anything else. */
  function DigitOf(c: nat): (digit: nat)
    ensures digit <= 36
  {
    if 97 <= c < 123 then c - 97 else if 65 <= c < 91 then c - 65 else if 48 <= c < 58 then c - 22 else 36
  }

  function Threshold(k: nat, bias: nat): (t: nat)
    ensures 1 <= t <= 26
  {
    if k <= bias then 1 else if k - bias > 26 then 26 else k - bias
  }

  /** The digit written for `q` where the threshold is `t`, and what is left to write. */
  function Low(q: nat, t: nat): (digit: nat)
    requires 1 <= t <= 26 && t <= q
    ensures t <= digit < 36
  {
    t + (q - t) % (36 - t)
  }

  function High(q: nat, t: nat): (rest: nat)
    requires 1 <= t <= 26 && t <= q
    ensures rest < q
  {
    Shrinks(q - t, 36 - t);
    (q - t) / (36 - t)
  }

  lemma Shrinks(x: nat, base: nat)
    requires base > 0
    ensures 0 <= x / base <= x
  {
    if x / base > x {
      assert x / base * base >= (x / base) by { Grows(x / base, base); }
    }
  }

  lemma Grows(x: nat, base: nat)
    requires base > 0
    ensures x * base >= x
  {
  }

  /** A number in digits of growing weight, the last below its threshold. */
  function Numeral(q: nat, k: nat, bias: nat): (text: Text)
    ensures text != []
  {
    var t := Threshold(k, bias);
    if q < t then [Alphabet(q)] else [Alphabet(Low(q, t))] + Numeral(High(q, t), k + 36, bias)
  }

  /** A product of its own, so that what uses it stays linear. */
  function Times(x: nat, y: nat): nat {
    if x > 0 && y > 0 then Grows(x, y); x * y else 0
  }

  datatype Read = Read(value: nat, rest: Text)

  /** The inner loop of the decoder, from weight `w` on. */
  function ReadNumeral(text: Text, k: nat, bias: nat, w: nat): (r: Result<Read>)
    ensures r.Ok? ==> |r.value.rest| < |text|
  {
    if text == [] then Err(EINVAL)
    else
      var digit, t := DigitOf(text[0]), Threshold(k, bias);
      if digit == 36 then Err(EINVAL)
      else if digit < t then Ok(Read(Times(digit, w), text[1..]))
      else
        var r := ReadNumeral(text[1..], k + 36, bias, Times(w, 36 - t));
        if r.Err? then r else Ok(Read(Times(digit, w) + r.value.value, r.value.rest))
  }

  lemma DigitReadsBack(digit: nat)
    requires digit < 36
    ensures DigitOf(Alphabet(digit)) == digit
  {
  }

  lemma Weights(q: nat, t: nat, w: nat)
    requires 1 <= t <= 26 && t <= q
    ensures Times(Low(q, t), w) + Times(High(q, t), Times(w, 36 - t)) == Times(q, w)
  {
    var low, high, base := Low(q, t), High(q, t), 36 - t;
    calc {
      low * w + high * (w * base);
      low * w + high * base * w;
      (low + high * base) * w;
      q * w;
    }
  }

  lemma {:induction false} NumeralReadsBack(q: nat, k: nat, bias: nat, w: nat, rest: Text)
    ensures ReadNumeral(Numeral(q, k, bias) + rest, k, bias, w) == Ok(Read(Times(q, w), rest))
    decreases q
  {
    hide Alphabet, DigitOf, Threshold, Low, High, Times;
    var t := Threshold(k, bias);
    if q < t {
      DigitReadsBack(q);
      assert (Numeral(q, k, bias) + rest)[1..] == rest;
    } else {
      var next := High(q, t);
      DigitReadsBack(Low(q, t));
      assert (Numeral(q, k, bias) + rest)[1..] == Numeral(next, k + 36, bias) + rest;
      NumeralReadsBack(next, k + 36, bias, Times(w, 36 - t), rest);
      Weights(q, t, w);
    }
  }

  // ---------- bias adaptation ----------

  function Squeeze(delta: nat, k: nat): nat {
    if delta > 455 then Squeeze(delta / 35, k + 36) else k + 36 * delta / (delta + 38)
  }

  /** Section 6.1 of RFC 3492. */
  function Adapt(delta: nat, points: nat, first: bool): nat
    requires points > 0
  {
    var damped := if first then delta / 700 else delta / 2;
    Shrinks(damped, points);
    Squeeze(damped + damped / points, 0)
  }

  // ---------- the decoder ----------

  function Quotient(sum: nat, points: nat): nat
    requires points > 0
  {
    Shrinks(sum, points);
    sum / points
  }

  function Rest(sum: nat, points: nat): (r: nat)
    requires points > 0
    ensures r < points
  {
    sum % points
  }

  function DecodeFrom(text: Text, n: CodePoint, i: nat, bias: nat, output: seq<CodePoint>): Result<seq<CodePoint>>
    decreases |text|
  {
    if text == [] then Ok(output)
    else
      var r := ReadNumeral(text, 36, bias, 1);
      if r.Err? then Err(r.error)
      else
        var points, sum := |output| + 1, i + r.value.value;
        var n', at := n + Quotient(sum, points), Rest(sum, points);
        DecodeFrom(r.value.rest, n', at + 1, Adapt(r.value.value, points, i == 0), output[..at] + [n'] + output[at..])
  }

  function LastHyphen(text: Text): (p: nat)
    ensures p <= |text| && (p < |text| ==> text[p] == HYPHEN)
    ensures forall i :: p < i < |text| ==> text[i] != HYPHEN
    ensures p == |text| ==> HYPHEN !in text
  {
    if text == [] then 0
    else
      var p := LastHyphen(text[1..]);
      if p < |text| - 1 then p + 1 else if text[0] == HYPHEN then 0 else |text|
  }

  /** The label behind "xn--": what is before the last hyphen are its basic code points. */
  function Decoded(text: Text): Result<seq<CodePoint>> {
    var p := LastHyphen(text);
    if 0 < p < |text| then
      if forall i :: 0 <= i < p ==> text[i] < 128 then DecodeFrom(text[p + 1..], 128, 0, 72, text[..p]) else Err(EINVAL)
    else DecodeFrom(text, 128, 0, 72, [])
  }

  // ---------- the encoder ----------

  /** The code points below `n` in order, and those equal to it before position `j`; of the first `len`. */
  function Handled(cs: seq<CodePoint>, n: CodePoint, j: nat, len: nat): (r: seq<CodePoint>)
    requires len <= |cs|
    ensures |r| <= len
  {
    if len == 0 then []
    else
      var c := cs[len - 1];
      Handled(cs, n, j, len - 1) + if c < n || (c == n && len - 1 < j) then [c] else []
  }

  /** The least code point not below `n`, if there is one. */
  function LeastFrom(cs: seq<CodePoint>, n: CodePoint, len: nat): (m: Option<CodePoint>)
    requires len <= |cs|
    ensures m.Some? ==> m.value >= n && m.value in cs[..len]
    ensures m.Some? ==> forall i :: 0 <= i < len && cs[i] >= n ==> cs[i] >= m.value
    ensures m.None? ==> forall i :: 0 <= i < len ==> cs[i] < n
  {
    if len == 0 then None
    else
      var m, c := LeastFrom(cs, n, len - 1), cs[len - 1];
      if c >= n && (m.None? || c < m.value) then Some(c) else m
  }

  /** How many code points are not below `n`. */
  function Left(cs: seq<CodePoint>, n: CodePoint, len: nat): (k: nat)
    requires len <= |cs|
    ensures k <= len
  {
    if len == 0 then 0 else Left(cs, n, len - 1) + if cs[len - 1] >= n then 1 else 0
  }

  lemma {:induction false} FewerLeft(cs: seq<CodePoint>, n: CodePoint, m: CodePoint, len: nat)
    requires len <= |cs| && n <= m
    ensures Left(cs, m + 1, len) <= Left(cs, n, len)
    ensures m in cs[..len] ==> Left(cs, m + 1, len) < Left(cs, n, len)
  {
    if len > 0 {
      assert cs[..len] == cs[..len - 1] + [cs[len - 1]];
      FewerLeft(cs, n, m, len - 1);
    }
  }

  function Cat(a: Text, r: Result<Text>): Result<Text> {
    if r.Err? then r else Ok(a + r.value)
  }

  /** Whether the counter would leave its 32 bits, as the code asks before it multiplies. */
  predicate Overflows(delta: nat, steps: nat, points: nat)
    requires points > 0
  {
    delta > MAX_UINT || steps > (MAX_UINT - delta) / points
  }

  function Ahead(delta: nat, steps: nat, points: nat): nat {
    delta + Times(steps, points)
  }

  /** What is still to be written from position `j` on in the round for code point `n`. */
  function FromScan(cs: seq<CodePoint>, n: CodePoint, j: nat, delta: nat, h: nat, bias: nat, first: bool): Result<Text>
    requires j <= |cs| && n in cs
    decreases Left(cs, n, |cs|), 0, |cs| - j
  {
    if j == |cs| then
      FewerLeft(cs, n, n, |cs|);
      assert cs[..|cs|] == cs;
      FromRound(cs, n + 1, delta + 1, h, bias, first)
    else if cs[j] < n then
      if delta >= MAX_UINT then Err(E2BIG) else FromScan(cs, n, j + 1, delta + 1, h, bias, first)
    else if cs[j] == n then
      Cat(Numeral(delta, 36, bias), FromScan(cs, n, j + 1, 0, h + 1, Adapt(delta, h + 1, first), false))
    else FromScan(cs, n, j + 1, delta, h, bias, first)
  }

  /** What is still to be written once everything below `n` has been. */
  function FromRound(cs: seq<CodePoint>, n: CodePoint, delta: nat, h: nat, bias: nat, first: bool): Result<Text>
    decreases Left(cs, n, |cs|), 1, 0
  {
    var m := LeastFrom(cs, n, |cs|);
    if m.None? then Ok([])
    else if Overflows(delta, m.value - n, h + 1) then Err(E2BIG)
    else
      LeftAtLeast(cs, n, m.value, |cs|);
      FromScan(cs, m.value, 0, Ahead(delta, m.value - n, h + 1), h, bias, first)
  }

  lemma {:induction false} LeftAtLeast(cs: seq<CodePoint>, n: CodePoint, m: CodePoint, len: nat)
    requires len <= |cs| && n <= m && forall i :: 0 <= i < len && cs[i] >= n ==> cs[i] >= m
    ensures Left(cs, n, len) == Left(cs, m, len)
    ensures Handled(cs, n, 0, len) == Handled(cs, m, 0, len)
  {
    if len > 0 {
      LeftAtLeast(cs, n, m, len - 1);
    }
  }

  // ---------- what the decoder holds while the encoder runs ----------

  lemma {:induction false} HandledAll(cs: seq<CodePoint>, n: CodePoint, len: nat)
    requires len <= |cs|
    ensures |Handled(cs, n, 0, len)| == len <==> forall i :: 0 <= i < len ==> cs[i] < n
    ensures |Handled(cs, n, 0, len)| == len ==> Handled(cs, n, 0, len) == cs[..len]
  {
    if len > 0 {
      HandledAll(cs, n, len - 1);
      assert cs[..len] == cs[..len - 1] + [cs[len - 1]];
    }
  }

  lemma InsertThenAppend(s: seq<CodePoint>, at: nat, n: CodePoint, tail: seq<CodePoint>)
    requires at <= |s|
    ensures (s + tail)[..at] + [n] + (s + tail)[at..] == s[..at] + [n] + s[at..] + tail
  {
  }

  lemma {:induction false} HandledSame(cs: seq<CodePoint>, n: CodePoint, j: nat, len: nat)
    requires len <= |cs| && j < |cs| && cs[j] != n
    ensures Handled(cs, n, j + 1, len) == Handled(cs, n, j, len)
  {
    if len > 0 {
      HandledSame(cs, n, j, len - 1);
    }
  }

  lemma {:induction false} HandledGains(cs: seq<CodePoint>, n: CodePoint, j: nat, len: nat)
    requires j < len <= |cs| && cs[j] == n
    ensures var at, before := |Handled(cs, n, j, j)|, Handled(cs, n, j, len);
            at <= |before| && Handled(cs, n, j + 1, len) == before[..at] + [n] + before[at..]
  {
    var at := |Handled(cs, n, j, j)|;
    if len == j + 1 {
      HandledBefore(cs, n, j, j);
      assert Handled(cs, n, j, len)[..at] == Handled(cs, n, j, j);
    } else {
      var before, c := Handled(cs, n, j, len - 1), cs[len - 1];
      HandledGains(cs, n, j, len - 1);
      InsertThenAppend(before, at, n, if c < n then [c] else []);
    }
  }

  lemma {:induction false} HandledReach(cs: seq<CodePoint>, n: CodePoint, j: nat, len: nat)
    requires j <= len <= |cs|
    ensures |Handled(cs, n, j, j)| <= |Handled(cs, n, j, len)|
  {
    if j < len {
      HandledReach(cs, n, j, len - 1);
    }
  }

  /** Passing a position adds its code point where it stands, if it is the one of this round. */
  lemma HandledOneMore(cs: seq<CodePoint>, n: CodePoint, j: nat, len: nat)
    requires j < len <= |cs|
    ensures cs[j] != n ==> Handled(cs, n, j + 1, len) == Handled(cs, n, j, len)
    ensures var at := |Handled(cs, n, j, j)|;
            var before := Handled(cs, n, j, len);
            at <= |before| && (cs[j] == n ==> Handled(cs, n, j + 1, len) == before[..at] + [n] + before[at..])
  {
    hide Handled;
    HandledReach(cs, n, j, len);
    if cs[j] == n {
      HandledGains(cs, n, j, len);
    } else {
      HandledSame(cs, n, j, len);
    }
  }

  /** The positions before `j` are handled alike at `j` and just after. */
  lemma {:induction false} HandledBefore(cs: seq<CodePoint>, n: CodePoint, j: nat, len: nat)
    requires len <= j <= |cs|
    ensures Handled(cs, n, j + 1, len) == Handled(cs, n, j, len)
  {
    if len > 0 {
      HandledBefore(cs, n, j, len - 1);
    }
  }

  /** The round is over: everything up to `n` is handled. */
  lemma {:induction false} RoundOver(cs: seq<CodePoint>, n: CodePoint, j: nat, len: nat)
    requires len <= j <= |cs|
    ensures Handled(cs, n, j, len) == Handled(cs, n + 1, 0, len)
  {
    if len > 0 {
      RoundOver(cs, n, j, len - 1);
    }
  }

  lemma QuotientAndRest(q: nat, points: nat, r: nat)
    requires r < points
    ensures Quotient(Times(q, points) + r, points) == q && Rest(Times(q, points) + r, points) == r
  {
    var d, m := (q * points + r) / points, (q * points + r) % points;
    assert (d - q) * points == r - m;
    if d > q {
      Grows(points, d - q);
    } else if d < q {
      Grows(points, q - d);
    }
  }

  /** The decoder, at `nd`, `id` with what is handled so far, is `delta` steps behind the encoder. */
  ghost predicate Behind(cs: seq<CodePoint>, n: CodePoint, j: nat, delta: nat, h: nat, nd: nat, id: nat) {
    && j <= |cs| && nd <= n
    && h == |Handled(cs, n, j, |cs|)|
    && id + delta == Times(n - nd, h + 1) + |Handled(cs, n, j, j)|
  }

  /** What the encoder still writes in this round and later, the decoder turns into the whole label. */
  lemma {:induction false} ScanDecodes(cs: seq<CodePoint>, n: CodePoint, j: nat, delta: nat, h: nat, bias: nat,
                                       nd: CodePoint, id: nat)
    requires n in cs && Behind(cs, n, j, delta, h, nd, id)
    ensures var r := FromScan(cs, n, j, delta, h, bias, id == 0);
            r.Ok? ==> DecodeFrom(r.value, nd, id, bias, Handled(cs, n, j, |cs|)) == Ok(cs)
    decreases Left(cs, n, |cs|), 0, |cs| - j
  {
    hide Numeral, Adapt, Handled, Left, LeastFrom, DecodeFrom, FromRound;
    if j == |cs| {
      FewerLeft(cs, n, n, |cs|);
      assert cs[..|cs|] == cs;
      RoundEnds(cs, n, delta, h, nd, id);
      RoundDecodes(cs, n + 1, delta + 1, h, bias, nd, id);
    } else {
      HandledOneMore(cs, n, j, |cs|);
      HandledBefore(cs, n, j, j);
      if cs[j] == n {
        EmittedDecodes(cs, n, j, delta, h, bias, nd, id);
      } else if cs[j] > n {
        StepBehind(cs, n, j, delta, h, nd, id);
        ScanDecodes(cs, n, j + 1, delta, h, bias, nd, id);
      } else if delta < MAX_UINT {
        StepBehind(cs, n, j, delta, h, nd, id);
        ScanDecodes(cs, n, j + 1, delta + 1, h, bias, nd, id);
      }
    }
  }

  lemma {:induction false} EmittedDecodes(cs: seq<CodePoint>, n: CodePoint, j: nat, delta: nat, h: nat, bias: nat,
                                          nd: CodePoint, id: nat)
    requires Behind(cs, n, j, delta, h, nd, id) && j < |cs| && cs[j] == n
    ensures var r := FromScan(cs, n, j, delta, h, bias, id == 0);
            r.Ok? ==> DecodeFrom(r.value, nd, id, bias, Handled(cs, n, j, |cs|)) == Ok(cs)
    decreases Left(cs, n, |cs|), 0, |cs| - j, 0
  {
    hide Numeral, ReadNumeral, Adapt, Handled, Left, LeastFrom, DecodeFrom;
    var at := |Handled(cs, n, j, j)|;
    var bias' := Adapt(delta, h + 1, id == 0);
    var next := FromScan(cs, n, j + 1, 0, h + 1, bias', false);
    HandledOneMore(cs, n, j, |cs|);
    HandledBefore(cs, n, j, j);
    AheadByNothing(cs, n, j, h, at);
    ScanDecodes(cs, n, j + 1, 0, h + 1, bias', n, at + 1);
    if next.Ok? {
      OneInsertion(delta, next.value, n, nd, id, bias, Handled(cs, n, j, |cs|), at);
    }
  }

  lemma AheadByNothing(cs: seq<CodePoint>, n: CodePoint, j: nat, h: nat, at: nat)
    requires j < |cs| && cs[j] == n && h == |Handled(cs, n, j, |cs|)| && at == |Handled(cs, n, j, j)|
    ensures Behind(cs, n, j + 1, 0, h + 1, n, at + 1)
  {
    HandledOneMore(cs, n, j, |cs|);
    HandledBefore(cs, n, j, j);
  }

  lemma TimesOne(x: nat)
    ensures Times(x, 1) == x && Times(0, x) == 0
  {
  }

  lemma TimesMore(x: nat, more: nat, y: nat)
    ensures Times(x + more, y) == Times(x, y) + Times(more, y)
    ensures Times(1, y) == y
  {
  }

  /** One numeral read: the decoder's counter comes to stand at `n` and `at`. */
  lemma OneInsertion(delta: nat, rest: Text, n: CodePoint, nd: CodePoint, id: nat, bias: nat, output: seq<CodePoint>,
                     at: nat)
    requires nd <= n && at <= |output| && id + delta == Times(n - nd, |output| + 1) + at
    ensures DecodeFrom(Numeral(delta, 36, bias) + rest, nd, id, bias, output)
         == DecodeFrom(rest, n, at + 1, Adapt(delta, |output| + 1, id == 0), output[..at] + [n] + output[at..])
  {
    hide Numeral, ReadNumeral, Adapt, Times, Quotient, Rest;
    NumeralReadsBack(delta, 36, bias, 1, rest);
    assert Times(delta, 1) == delta by { TimesOne(delta); }
    QuotientAndRest(n - nd, |output| + 1, at);
  }

  lemma {:induction false} RoundDecodes(cs: seq<CodePoint>, n: CodePoint, delta: nat, h: nat, bias: nat,
                                        nd: CodePoint, id: nat)
    requires Behind(cs, n, 0, delta, h, nd, id)
    ensures var r := FromRound(cs, n, delta, h, bias, id == 0);
            r.Ok? ==> DecodeFrom(r.value, nd, id, bias, Handled(cs, n, 0, |cs|)) == Ok(cs)
    decreases Left(cs, n, |cs|), 1, 0
  {
    hide DecodeFrom, Handled, Left, Ahead, Overflows;
    var m := LeastFrom(cs, n, |cs|);
    assert cs[..|cs|] == cs;
    if m.None? {
      HandledAll(cs, n, |cs|);
      NothingToRead(nd, id, bias, cs);
    } else {
      LeftAtLeast(cs, n, m.value, |cs|);
      Jump(cs, n, m.value, delta, h, nd, id);
      ScanDecodes(cs, m.value, 0, Ahead(delta, m.value - n, h + 1), h, bias, nd, id);
    }
  }

  lemma NothingToRead(nd: CodePoint, id: nat, bias: nat, output: seq<CodePoint>)
    ensures DecodeFrom([], nd, id, bias, output) == Ok(output)
  {
  }

  lemma StepBehind(cs: seq<CodePoint>, n: CodePoint, j: nat, delta: nat, h: nat, nd: CodePoint, id: nat)
    requires Behind(cs, n, j, delta, h, nd, id) && j < |cs| && cs[j] != n
    ensures Behind(cs, n, j + 1, if cs[j] < n then delta + 1 else delta, h, nd, id)
  {
    HandledOneMore(cs, n, j, |cs|);
    HandledBefore(cs, n, j, j);
  }

  lemma RoundEnds(cs: seq<CodePoint>, n: CodePoint, delta: nat, h: nat, nd: CodePoint, id: nat)
    requires Behind(cs, n, |cs|, delta, h, nd, id)
    ensures Behind(cs, n + 1, 0, delta + 1, h, nd, id)
    ensures Handled(cs, n, |cs|, |cs|) == Handled(cs, n + 1, 0, |cs|)
  {
    RoundOver(cs, n, |cs|, |cs|);
    TimesMore(n - nd, 1, h + 1);
  }

  lemma Jump(cs: seq<CodePoint>, n: CodePoint, m: CodePoint, delta: nat, h: nat, nd: CodePoint, id: nat)
    requires n <= m && Behind(cs, n, 0, delta, h, nd, id) && Handled(cs, n, 0, |cs|) == Handled(cs, m, 0, |cs|)
    ensures Behind(cs, m, 0, Ahead(delta, m - n, h + 1), h, nd, id)
  {
    TimesMore(n - nd, m - n, h + 1);
  }

  // ---------- one step of the encoder ----------

  lemma ScanAt(cs: seq<CodePoint>, n: CodePoint, j: nat, delta: nat, h: nat, bias: nat, first: bool)
    requires j <= |cs| && n in cs
    ensures FromScan(cs, n, j, delta, h, bias, first)
         == if j == |cs| then FromRound(cs, n + 1, delta + 1, h, bias, first)
            else if cs[j] < n && delta >= MAX_UINT then Err(E2BIG)
            else if cs[j] == n then
              Cat(Numeral(delta, 36, bias), FromScan(cs, n, j + 1, 0, h + 1, Adapt(delta, h + 1, first), false))
            else FromScan(cs, n, j + 1, if cs[j] < n then delta + 1 else delta, h, bias, first)
  {
    hide FromRound, Left, Numeral, Adapt, LeastFrom;
  }

  lemma RoundAt(cs: seq<CodePoint>, n: CodePoint, delta: nat, h: nat, bias: nat, first: bool)
    ensures FromRound(cs, n, delta, h, bias, first)
         == match LeastFrom(cs, n, |cs|)
            case None => Ok([])
            case Some(m) =>
              if Overflows(delta, m - n, h + 1) then Err(E2BIG)
              else assert cs[..|cs|] == cs; FromScan(cs, m, 0, Ahead(delta, m - n, h + 1), h, bias, first)
  {
    hide FromScan, Left, Ahead, Overflows;
  }
}
