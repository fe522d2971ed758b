/** Whole log files: written over any number of reopenings, and read back after any cut. */
module LogRoundTrip {
  import opened InternalKeys
  import opened LogFormat
  import opened LogWriter
  import opened LogReader

  // ---------- one fragment ----------

  /** The bytes of a header and its payload, wherever they stand in a buffer. */
  lemma PhysicalParses(c: Crc, t: Byte, payload: seq<Byte>, b: seq<Byte>, p: nat, short: bool)
    requires WfCrc(c) && |payload| <= 0xffff && 1 <= t <= 4 && Physical(c, t, payload) <= b
    ensures ParseBuffer(c, b, p, short) == Good(t, payload, p + HEADER_SIZE + |payload|)
  {
    var phys := Physical(c, t, payload);
    assert b[..HEADER_SIZE+|payload|] == phys;
    assert forall i :: 0 <= i < HEADER_SIZE + |payload| ==> b[i] == phys[i];
    LengthReadsBack(c, t, payload, b);
    assert b[HEADER_SIZE..HEADER_SIZE+|payload|] == payload;
    assert b[6..HEADER_SIZE+|payload|] == [t] + payload;
    Fixed32RoundTrip(c.mask(c.sum([t] + payload)));
    assert DecodeFixed32(b) == DecodeFixed32(phys);
  }

  lemma LengthReadsBack(c: Crc, t: Byte, payload: seq<Byte>, b: seq<Byte>)
    requires WfCrc(c) && |payload| <= 0xffff && |b| >= HEADER_SIZE
    requires forall i :: 0 <= i < HEADER_SIZE ==> b[i] == Physical(c, t, payload)[i]
    ensures b[6] == t && BufferedLength(b) == |payload|
  {
  }

  /** A record fits the block it starts in. */
  lemma RecordInBlock(size: nat, pos: nat, left: nat)
    requires pos + PadLength(pos) + HEADER_SIZE <= size
    ensures var p := pos + PadLength(pos);
            var stop := p + HEADER_SIZE + FragmentLength(pos, left);
            && (stop <= size ==> stop <= BlockEnd(size, p))
            && (size < stop ==> BlockEnd(size, p) == size && size % BLOCK_SIZE != 0)
  {
  }

  lemma HeadParses(c: Crc, whole: seq<Byte>, pos: nat, data: seq<Byte>, begin: bool)
    requires WfCrc(c) && pos <= |whole| && Head(c, pos, data, begin) <= whole[pos..]
    ensures ParseAt(c, whole, pos)
         == Good(FragmentType(begin, FragmentLength(pos, |data|) == |data|), data[..FragmentLength(pos, |data|)],
                 pos + |Head(c, pos, data, begin)|)
  {
    hide PadLength, FragmentLength, BlockEnd, Zeros, Physical, ParseBuffer;
    var n, p := FragmentLength(pos, |data|), pos + PadLength(pos);
    var t, payload, head := FragmentType(begin, n == |data|), data[..n], Head(c, pos, data, begin);
    FragmentIsShort(pos, |data|);
    RecordInBlock(|whole|, pos, |data|);
    var b := whole[p..BlockEnd(|whole|, p)];
    var phys := Physical(c, t, payload);
    assert whole[pos..][..|head|] == head && head[PadLength(pos)..] == phys;
    assert phys == whole[p..p+|phys|] == b[..|phys|];
    PhysicalParses(c, t, payload, b, p, BlockEnd(|whole|, p) % BLOCK_SIZE != 0);
  }

  lemma FragmentIsShort(pos: nat, left: nat)
    ensures FragmentLength(pos, left) <= 0xffff
  {
  }

  /** A fragment whose header is there and whose payload is not, or not even the header, ends the file,
      whatever bytes stand in the place of the payload. */
  lemma ShortPayloadIsEof(c: Crc, whole: seq<Byte>, pos: nat, data: seq<Byte>, begin: bool)
    requires WfCrc(c) && pos <= |whole| < pos + |Head(c, pos, data, begin)|
    requires |whole| >= pos + PadLength(pos) + HEADER_SIZE ==>
               whole[pos..][..PadLength(pos) + HEADER_SIZE] == Head(c, pos, data, begin)[..PadLength(pos) + HEADER_SIZE]
    ensures ParseAt(c, whole, pos) == AtEof
  {
    hide PadLength, FragmentLength, BlockEnd, Zeros, Physical;
    var n, p := FragmentLength(pos, |data|), pos + PadLength(pos);
    if p + HEADER_SIZE <= |whole| {
      FragmentIsShort(pos, |data|);
      RecordInBlock(|whole|, pos, |data|);
      var t, payload, head := FragmentType(begin, n == |data|), data[..n], Head(c, pos, data, begin);
      var b, phys := whole[p..], Physical(c, t, payload);
      assert head == Zeros(PadLength(pos)) + phys;
      forall i | 0 <= i < HEADER_SIZE ensures b[i] == phys[i] {
        assert b[i] == whole[pos..][PadLength(pos) + i] == head[PadLength(pos) + i];
      }
      LengthReadsBack(c, t, payload, b);
      assert whole[p..BlockEnd(|whole|, p)] == b;
    }
  }

  // ---------- one record ----------

  /** One fragment of a record read: the record is complete, or the reader goes on behind it. */
  lemma FragmentReads(c: Crc, whole: seq<Byte>, pos: nat, data: seq<Byte>, begin: bool, scratch: seq<Byte>)
    requires WfCrc(c) && pos <= |whole| && Head(c, pos, data, begin) <= whole[pos..] && (begin ==> scratch == [])
    ensures var n, next := FragmentLength(pos, |data|), pos + |Head(c, pos, data, begin)|;
            && next <= |whole|
            && ReadFrom(c, whole, pos, scratch, !begin)
            == if n == |data| then Reading(Some(scratch + data), next, 0)
               else ReadFrom(c, whole, next, scratch + data[..n], true)
  {
    hide Head, ParseAt, PadLength, FragmentLength;
    HeadParses(c, whole, pos, data, begin);
    var n := FragmentLength(pos, |data|);
    assert data[..|data|] == data && (begin ==> scratch + data == data && scratch + data[..n] == data[..n]);
  }

  lemma {:induction false} RecordReads(c: Crc, whole: seq<Byte>, pos: nat, data: seq<Byte>, begin: bool, scratch: seq<Byte>)
    requires WfCrc(c) && pos <= |whole| && Emit(c, pos, data, begin) <= whole[pos..] && (begin ==> scratch == [])
    ensures ReadFrom(c, whole, pos, scratch, !begin)
         == Reading(Some(scratch + data), pos + |Emit(c, pos, data, begin)|, 0)
    decreases |data|, if FragmentLength(pos, |data|) == 0 then 1 else 0
  {
    hide Head, ReadFrom, PadLength, FragmentLength, Emit;
    var n, head := FragmentLength(pos, |data|), Head(c, pos, data, begin);
    HeadComesFirst(c, whole, pos, data, begin);
    FragmentReads(c, whole, pos, data, begin, scratch);
    if n != |data| {
      EmptyFragmentFillsBlock(pos, |data|);
      RecordReads(c, whole, pos + |head|, data[n..], false, scratch + data[..n]);
      assert scratch + data[..n] + data[n..] == scratch + data;
    }
  }

  lemma HeadComesFirst(c: Crc, whole: seq<Byte>, pos: nat, data: seq<Byte>, begin: bool)
    requires WfCrc(c) && pos <= |whole| && Emit(c, pos, data, begin) <= whole[pos..]
    ensures var n, head := FragmentLength(pos, |data|), Head(c, pos, data, begin);
            && head <= whole[pos..] && pos + |head| <= |whole|
            && if n == |data| then Emit(c, pos, data, begin) == head
               else
                 && Emit(c, pos, data, begin) == head + Emit(c, pos + |head|, data[n..], false)
                 && Emit(c, pos + |head|, data[n..], false) <= whole[pos + |head|..]
  {
    hide Head, FragmentLength;
    var n, head := FragmentLength(pos, |data|), Head(c, pos, data, begin);
    EmptyFragmentFillsBlock(pos, |data|);
    if n < |data| {
      var rest := Emit(c, pos + |head|, data[n..], false);
      assert whole[pos..][..|head| + |rest|] == head + rest;
      assert whole[pos + |head|..] == whole[pos..][|head|..];
    }
  }

  // ---------- a record cut off ----------

  /** Where the whole fragments of a record that a cut leaves end, what they hold, and what is missing. */
  datatype Torn = Torn(pos: nat, missing: seq<Byte>, scratch: seq<Byte>, inside: bool)

  function TornAt(c: Crc, pos: nat, data: seq<Byte>, begin: bool, cut: nat, scratch: seq<Byte>): (t: Torn)
    requires WfCrc(c) && pos <= cut
    ensures pos <= t.pos <= cut
    decreases |data|, if FragmentLength(pos, |data|) == 0 then 1 else 0
  {
    var n, head := FragmentLength(pos, |data|), Head(c, pos, data, begin);
    EmptyFragmentFillsBlock(pos, |data|);
    if n == |data| || pos + |head| > cut then Torn(pos, data, scratch, !begin)
    else TornAt(c, pos + |head|, data[n..], false, cut, scratch + data[..n])
  }

  /** The file goes on from `pos` as the record does, up to the cut, which falls inside it. */
  ghost predicate CutInside(c: Crc, whole: seq<Byte>, pos: nat, data: seq<Byte>, begin: bool, cut: nat)
    requires WfCrc(c)
  {
    && pos <= cut <= |whole| && cut < pos + |Emit(c, pos, data, begin)|
    && whole[pos..cut] == Emit(c, pos, data, begin)[..cut - pos]
  }

  lemma CutHead(c: Crc, whole: seq<Byte>, pos: nat, data: seq<Byte>, begin: bool, cut: nat)
    requires WfCrc(c) && CutInside(c, whole, pos, data, begin, cut)
    ensures var n, head := FragmentLength(pos, |data|), Head(c, pos, data, begin);
            if n == |data| || pos + |head| > cut then cut < pos + |head| && whole[pos..cut] == head[..cut - pos]
            else head <= whole[pos..] && CutInside(c, whole, pos + |head|, data[n..], false, cut)
  {
    hide Head, FragmentLength;
    var n, head := FragmentLength(pos, |data|), Head(c, pos, data, begin);
    EmptyFragmentFillsBlock(pos, |data|);
    if n != |data| {
      var rest := Emit(c, pos + |head|, data[n..], false);
      assert Emit(c, pos, data, begin) == head + rest;
      if pos + |head| <= cut {
        assert (head + rest)[..cut - pos][..|head|] == head && whole[pos..cut][..|head|] == whole[pos..][..|head|];
        assert (head + rest)[..cut - pos][|head|..] == rest[..cut - pos - |head|];
        assert whole[pos..cut][|head|..] == whole[pos + |head|..cut];
      } else {
        assert (head + rest)[..cut - pos] == head[..cut - pos];
      }
    }
  }

  lemma TornStep(c: Crc, pos: nat, data: seq<Byte>, begin: bool, cut: nat, scratch: seq<Byte>)
    requires WfCrc(c) && pos <= cut
    ensures var n, head := FragmentLength(pos, |data|), Head(c, pos, data, begin);
            TornAt(c, pos, data, begin, cut, scratch)
            == if n == |data| || pos + |head| > cut then Torn(pos, data, scratch, !begin)
               else TornAt(c, pos + |head|, data[n..], false, cut, scratch + data[..n])
  {
    hide Head, FragmentLength;
  }

  lemma CutIsWithin(c: Crc, whole: seq<Byte>, pos: nat, data: seq<Byte>, begin: bool, cut: nat)
    requires WfCrc(c) && CutInside(c, whole, pos, data, begin, cut)
    ensures pos <= cut <= |whole|
  {
  }

  /** The reader takes the whole fragments that are left, and stands before the torn one. */
  lemma {:induction false} TornReads(c: Crc, whole: seq<Byte>, pos: nat, data: seq<Byte>, begin: bool, cut: nat,
                                     scratch: seq<Byte>)
    requires WfCrc(c) && CutInside(c, whole, pos, data, begin, cut) && (begin ==> scratch == [])
    ensures var t := TornAt(c, pos, data, begin, cut, scratch);
            && ReadFrom(c, whole, pos, scratch, !begin)
            == ReadFrom(c, whole, t.pos, t.scratch, t.inside)
            && cut < t.pos + |Head(c, t.pos, t.missing, !t.inside)|
            && whole[t.pos..cut] == Head(c, t.pos, t.missing, !t.inside)[..cut - t.pos]
    decreases |data|, if FragmentLength(pos, |data|) == 0 then 1 else 0
  {
    hide Head, ReadFrom, PadLength, FragmentLength, Emit, CutInside, TornAt;
    var n, head := FragmentLength(pos, |data|), Head(c, pos, data, begin);
    CutIsWithin(c, whole, pos, data, begin, cut);
    CutHead(c, whole, pos, data, begin, cut);
    EmptyFragmentFillsBlock(pos, |data|);
    TornStep(c, pos, data, begin, cut, scratch);
    if n != |data| && pos + |head| <= cut {
      FragmentReads(c, whole, pos, data, begin, scratch);
      TornReads(c, whole, pos + |head|, data[n..], false, cut, scratch + data[..n]);
    }
  }

  /** A file that ends with the cut holds nothing of the record, and nothing is complained about. */
  lemma CutReadsNothing(c: Crc, whole: seq<Byte>, pos: nat, data: seq<Byte>)
    requires WfCrc(c) && CutInside(c, whole, pos, data, true, |whole|)
    ensures ReadFrom(c, whole, pos, [], false).record.None? && ReadFrom(c, whole, pos, [], false).reports == 0
  {
    hide Head, PadLength, FragmentLength, Emit, ReadFrom, TornAt, ParseAt, CutInside;
    CutIsWithin(c, whole, pos, data, true, |whole|);
    var t := TornAt(c, pos, data, true, |whole|, []);
    TornReads(c, whole, pos, data, true, |whole|, []);
    SameStart(whole, t.pos, Head(c, t.pos, t.missing, !t.inside), PadLength(t.pos) + HEADER_SIZE);
    ShortPayloadIsEof(c, whole, t.pos, t.missing, !t.inside);
    NothingFrom(c, whole, t.pos, t.scratch, t.inside);
  }

  lemma NothingFrom(c: Crc, whole: seq<Byte>, pos: nat, scratch: seq<Byte>, inside: bool)
    requires pos <= |whole| && ParseAt(c, whole, pos) == AtEof
    ensures ReadFrom(c, whole, pos, scratch, inside) == Reading(None, pos, 0)
  {
  }

  lemma HeaderStays(whole: seq<Byte>, pos: nat, cut: nat, head: seq<Byte>, k: nat)
    requires pos + k <= cut <= |whole| && cut - pos <= |head| && whole[pos..cut] == head[..cut - pos]
    ensures whole[pos..][..k] == head[..k]
  {
    forall i | 0 <= i < k ensures whole[pos..][i] == head[i] {
      assert whole[pos..cut][i] == head[..cut - pos][i];
    }
  }

  lemma SameStart(whole: seq<Byte>, pos: nat, head: seq<Byte>, k: nat)
    requires pos <= |whole| <= pos + |head| && whole[pos..|whole|] == head[..|whole| - pos] && k <= |head|
    ensures |whole| >= pos + k ==> whole[pos..][..k] == head[..k]
  {
    if |whole| >= pos + k {
      HeaderStays(whole, pos, |whole|, head, k);
    }
  }

  // ---------- whole files ----------

  /** The bytes of further records behind an offset. */
  function TailBytes(c: Crc, pos: nat, records: seq<seq<Byte>>): seq<Byte>
    requires WfCrc(c)
    decreases |records|
  {
    if records == [] then []
    else
      var first := Emit(c, pos, records[0], true);
      first + TailBytes(c, pos + |first|, records[1..])
  }

  lemma TailUnfolds(c: Crc, pos: nat, records: seq<seq<Byte>>)
    requires WfCrc(c) && records != []
    ensures var first := Emit(c, pos, records[0], true);
            TailBytes(c, pos, records) == first + TailBytes(c, pos + |first|, records[1..])
  {
    hide Emit;
  }

  lemma {:induction false} LogGoesOn(c: Crc, a: seq<seq<Byte>>, b: seq<seq<Byte>>)
    requires WfCrc(c)
    ensures LogBytes(c, a + b) == LogBytes(c, a) + TailBytes(c, |LogBytes(c, a)|, b)
    decreases |b|
  {
    hide Emit;
    if b == [] {
      assert a + b == a;
    } else {
      var a' := a + [b[0]];
      assert a' + b[1..] == a + b;
      LogGoesOn(c, a', b[1..]);
      OneMoreBehind(c, a, b);
    }
  }

  lemma OneMoreBehind(c: Crc, a: seq<seq<Byte>>, b: seq<seq<Byte>>)
    requires WfCrc(c) && b != []
    ensures var front, longer := LogBytes(c, a), LogBytes(c, a + [b[0]]);
            longer + TailBytes(c, |longer|, b[1..]) == front + TailBytes(c, |front|, b)
  {
    hide Emit, TailBytes;
    var front := LogBytes(c, a);
    var first := Emit(c, |front|, b[0], true);
    assert (a + [b[0]])[..|a|] == a;
    TailUnfolds(c, |front|, b);
    Appended(front, first, TailBytes(c, |front| + |first|, b[1..]));
  }

  lemma NothingLeft(c: Crc, whole: seq<Byte>)
    ensures ParseAt(c, whole, |whole|) == AtEof && ReadEvery(c, whole, |whole|) == ([], 0)
  {
  }

  lemma {:induction false} TailReads(c: Crc, whole: seq<Byte>, pos: nat, records: seq<seq<Byte>>)
    requires WfCrc(c) && pos <= |whole| && whole[pos..] == TailBytes(c, pos, records)
    ensures ReadEvery(c, whole, pos) == (records, 0)
    decreases |records|
  {
    hide Emit, ReadFrom, ReadEvery;
    if records == [] {
      NothingLeft(c, whole);
    } else {
      var first := Emit(c, pos, records[0], true);
      assert first <= whole[pos..];
      RecordReads(c, whole, pos, records[0], true, []);
      assert whole[pos + |first|..] == whole[pos..][|first|..];
      TailReads(c, whole, pos + |first|, records[1..]);
      assert [] + records[0] == records[0] && [records[0]] + records[1..] == records;
      EveryAt(c, whole, pos, [], 0);
      Prepend2([], records[0], records[1..]);
      assert [] + ReadEvery(c, whole, pos).0 == ReadEvery(c, whole, pos).0 && [] + [records[0]] + records[1..] == records;
    }
  }

  /** The records that are wholly there are read first, whatever follows. */
  lemma {:induction false} KeptReads(c: Crc, whole: seq<Byte>, records: seq<seq<Byte>>, i: nat)
    requires WfCrc(c) && i <= |records| && LogBytes(c, records) <= whole
    ensures var here, end := |LogBytes(c, records[..i])|, |LogBytes(c, records)|;
            && here <= end <= |whole|
            && ReadEvery(c, whole, here) == (records[i..] + ReadEvery(c, whole, end).0, ReadEvery(c, whole, end).1)
    decreases |records| - i
  {
    hide Emit, ReadFrom, LogBytes;
    LogBytesPrefix(c, records, i);
    if i < |records| {
      var front := LogBytes(c, records[..i]);
      var first := Emit(c, |front|, records[i], true);
      OneMoreRecord(c, records, i);
      LogBytesPrefix(c, records, i + 1);
      assert whole[|front|..][..|first|] == (front + first)[|front|..];
      RecordReads(c, whole, |front|, records[i], true, []);
      KeptReads(c, whole, records, i + 1);
      assert [] + records[i] == records[i] && [records[i]] + records[i+1..] == records[i..];
      Prepend(records[i], records[i+1..], ReadEvery(c, whole, |LogBytes(c, records)|).0);
    } else {
      assert records[..i] == records && records[i..] == [];
      assert [] + ReadEvery(c, whole, |whole[..|LogBytes(c, records)|]|).0 == ReadEvery(c, whole, |LogBytes(c, records)|).0;
    }
  }

  lemma Prepend(r: seq<Byte>, a: seq<seq<Byte>>, b: seq<seq<Byte>>)
    ensures [r] + (a + b) == [r] + a + b
  {
  }

  lemma {:induction false} LogBytesPrefix(c: Crc, records: seq<seq<Byte>>, i: nat)
    requires WfCrc(c) && i <= |records|
    ensures LogBytes(c, records[..i]) <= LogBytes(c, records)
  {
    if i < |records| {
      var n := |records| - 1;
      LogBytesPrefix(c, records[..n], i);
      assert records[..n][..i] == records[..i];
    } else {
      assert records[..i] == records;
    }
  }

  /** Where each record of the log ends; entry 0 is the start of the file. */
  function Ends(c: Crc, records: seq<seq<Byte>>): (s: seq<nat>)
    requires WfCrc(c)
    ensures |s| == |records| + 1
    ensures forall i :: 0 <= i <= |records| ==> s[i] == |LogBytes(c, records[..i])|
  {
    seq(|records| + 1, i requires 0 <= i <= |records| => |LogBytes(c, records[..i])|)
  }

  /** How many of the ends after entry 0 lie at or before `n`, counting from the last such one. */
  function CountWithin(ends: seq<nat>, n: nat): (m: nat)
    requires ends != []
    ensures m < |ends|
  {
    var last := |ends| - 1;
    if last == 0 || ends[last] <= n then last else CountWithin(ends[..last], n)
  }

  lemma {:induction false} CountWithinIs(ends: seq<nat>, n: nat, i: nat)
    requires i < |ends| && ends[i] <= n && forall j :: i < j < |ends| ==> ends[j] > n
    ensures CountWithin(ends, n) == i
  {
    var last := |ends| - 1;
    if i < last { CountWithinIs(ends[..last], n, i); }
  }

  lemma {:induction false} CountWithinAtLeast(ends: seq<nat>, n: nat, i: nat)
    requires i < |ends| && ends[i] <= n
    ensures CountWithin(ends, n) >= i
  {
    var last := |ends| - 1;
    if i < last { CountWithinAtLeast(ends[..last], n, i); }
  }

  /** How many records lie wholly within the first `n` bytes of the log. */
  function CompleteCount(c: Crc, records: seq<seq<Byte>>, n: nat): (m: nat)
    requires WfCrc(c)
    ensures m <= |records|
  {
    CountWithin(Ends(c, records), n)
  }

  lemma CompleteCountIs(c: Crc, records: seq<seq<Byte>>, n: nat, i: nat)
    requires WfCrc(c) && i <= |records| && |LogBytes(c, records[..i])| <= n
    requires i < |records| ==> |LogBytes(c, records[..i+1])| > n
    ensures CompleteCount(c, records, n) == i
  {
    var ends := Ends(c, records);
    forall j | i < j < |ends| ensures ends[j] > n {
      LogBytesPrefix(c, records[..j], i + 1);
      assert records[..j][..i+1] == records[..i+1];
    }
    CountWithinIs(ends, n, i);
  }

  lemma NothingWritten(c: Crc)
    requires WfCrc(c)
    ensures LogBytes(c, []) == []
  {
  }

  lemma OneMoreRecord(c: Crc, records: seq<seq<Byte>>, i: nat)
    requires WfCrc(c) && i < |records|
    ensures var front := LogBytes(c, records[..i]);
            LogBytes(c, records[..i+1]) == front + Emit(c, |front|, records[i], true)
  {
    hide Emit;
    assert records[..i+1][..i] == records[..i];
  }

  /** Writes records, reopening the file before those marked. */
  method WriteAll(c: Crc, records: seq<seq<Byte>>, reopen: seq<bool>) returns (dest: seq<Byte>)
    requires WfCrc(c) && |reopen| == |records|
    ensures dest == LogBytes(c, records)
  {
    hide LogBytes, Emit;
    var writer := new Writer(c, []);
    NothingWritten(c);
    var i := 0;
    while i < |records|
      invariant 0 <= i <= |records| && writer.Valid() && writer.crc == c && fresh(writer)
      invariant writer.dest == LogBytes(c, records[..i])
    {
      if reopen[i] {
        writer := new Writer(c, writer.dest);
      }
      OneMoreRecord(c, records, i);
      writer.AddRecord(records[i]);
      i := i + 1;
    }
    assert records[..i] == records;
    return writer.dest;
  }

  // ---------- reading after a cut ----------

  lemma {:induction false} CountWithinSpec(ends: seq<nat>, n: nat)
    requires ends != [] && ends[0] <= n
    ensures ends[CountWithin(ends, n)] <= n
    ensures forall j :: CountWithin(ends, n) < j < |ends| ==> ends[j] > n
  {
    var last := |ends| - 1;
    if last > 0 && ends[last] > n { CountWithinSpec(ends[..last], n); }
  }

  lemma CompleteCountSpec(c: Crc, records: seq<seq<Byte>>, n: nat)
    requires WfCrc(c)
    ensures var m := CompleteCount(c, records, n);
            |LogBytes(c, records[..m])| <= n && (m < |records| ==> n < |LogBytes(c, records[..m+1])|)
  {
    hide LogBytes;
    NothingWritten(c);
    assert records[..0] == [];
    CountWithinSpec(Ends(c, records), n);
  }

  lemma PrefixOfPrefix(whole: seq<Byte>, all: seq<Byte>, front: seq<Byte>)
    requires whole <= all && front <= all && |front| <= |whole|
    ensures front <= whole
  {
  }

  /** A cut that falls into record `m`. */
  lemma CutFallsInside(c: Crc, whole: seq<Byte>, records: seq<seq<Byte>>, m: nat, cut: nat)
    requires WfCrc(c) && m < |records| && cut <= |whole| && whole[..cut] <= LogBytes(c, records)
    requires |LogBytes(c, records[..m])| <= cut < |LogBytes(c, records[..m+1])|
    ensures CutInside(c, whole, |LogBytes(c, records[..m])|, records[m], true, cut)
    ensures LogBytes(c, records[..m]) <= whole
  {
    hide LogBytes, Emit;
    var front, all := LogBytes(c, records[..m]), LogBytes(c, records);
    var first := Emit(c, |front|, records[m], true);
    OneMoreRecord(c, records, m);
    LogBytesPrefix(c, records, m + 1);
    LogBytesPrefix(c, records, m);
    PrefixOfPrefix(whole[..cut], all, front);
    assert whole[|front|..cut] == all[|front|..cut] == (front + first)[|front|..cut] == first[..cut - |front|];
  }

  /** Reading any byte prefix of a log gives exactly the records wholly inside it, in order, and no
      complaint. */
  lemma CutReads(c: Crc, records: seq<seq<Byte>>, whole: seq<Byte>)
    requires WfCrc(c) && whole <= LogBytes(c, records)
    ensures ReadEvery(c, whole, 0) == (records[..CompleteCount(c, records, |whole|)], 0)
  {
    hide LogBytes, ReadFrom, CompleteCount, ReadEvery;
    var m := CompleteCount(c, records, |whole|);
    CompleteCountSpec(c, records, |whole|);
    LogBytesPrefix(c, records, m);
    PrefixOfPrefix(whole, LogBytes(c, records), LogBytes(c, records[..m]));
    StartReads(c, whole, records[..m]);
    LastIsCut(c, records, whole, m);
    assert records[..m] + [] == records[..m];
  }

  lemma LastIsCut(c: Crc, records: seq<seq<Byte>>, whole: seq<Byte>, m: nat)
    requires WfCrc(c) && whole <= LogBytes(c, records) && m <= |records| && |LogBytes(c, records[..m])| <= |whole|
    requires m < |records| ==> |whole| < |LogBytes(c, records[..m+1])|
    ensures ReadEvery(c, whole, |LogBytes(c, records[..m])|) == ([], 0)
  {
    hide LogBytes, ReadFrom, CutInside;
    if m == |records| {
      assert records[..m] == records && whole == LogBytes(c, records);
      NothingLeft(c, whole);
    } else {
      assert whole[..|whole|] == whole;
      CutFallsInside(c, whole, records, m, |whole|);
      CutReadsNothing(c, whole, |LogBytes(c, records[..m])|, records[m]);
    }
  }

  lemma StartReads(c: Crc, whole: seq<Byte>, records: seq<seq<Byte>>)
    requires WfCrc(c) && LogBytes(c, records) <= whole
    ensures var end := |LogBytes(c, records)|;
            ReadEvery(c, whole, 0) == (records + ReadEvery(c, whole, end).0, ReadEvery(c, whole, end).1)
  {
    hide LogBytes, ReadEvery;
    KeptReads(c, whole, records, 0);
    NothingWritten(c);
    assert records[..0] == [] && records[0..] == records;
  }

  // ---------- the methods ----------

  lemma EveryAt(c: Crc, whole: seq<Byte>, pos: nat, got: seq<seq<Byte>>, reports: nat)
    requires pos <= |whole|
    ensures var r, (rest, more) := ReadFrom(c, whole, pos, [], false), ReadEvery(c, whole, pos);
            if r.record.None? then got + rest == got && more == r.reports
            else
              && got + rest == got + [r.record.value] + ReadEvery(c, whole, r.next).0
              && more == r.reports + ReadEvery(c, whole, r.next).1
  {
    hide ReadFrom;
    var r := ReadFrom(c, whole, pos, [], false);
    if r.record.Some? {
      Prepend2(got, r.record.value, ReadEvery(c, whole, r.next).0);
    }
  }

  /** The records read so far, and those the reader will still read, are all there are. */
  ghost predicate ReadSoFar(reader: Reader, c: Crc, whole: seq<Byte>, got: seq<seq<Byte>>)
    reads reader
  {
    reader.Valid() && reader.crc == c && reader.whole == whole &&
    var (rest, reports) := ReadEvery(c, whole, reader.Pos());
    ReadEvery(c, whole, 0) == (got + rest, reader.corruptions + reports)
  }

  method ReadOne(reader: Reader, ghost c: Crc, ghost whole: seq<Byte>, ghost got: seq<seq<Byte>>) returns (r: Option<seq<Byte>>)
    requires ReadSoFar(reader, c, whole, got)
    modifies reader
    ensures if r.Some? then ReadSoFar(reader, c, whole, got + [r.value]) && reader.Remaining() < old(reader.Remaining())
            else ReadEvery(c, whole, 0) == (got, reader.corruptions)
  {
    hide ReadFrom, ReadEvery;
    EveryAt(c, whole, reader.Pos(), got, reader.corruptions);
    r := reader.ReadRecord();
  }

  lemma StartsReading(reader: Reader)
    requires reader.Valid() && reader.Pos() == 0 && reader.corruptions == 0
    ensures ReadSoFar(reader, reader.crc, reader.whole, [])
  {
    hide ReadEvery;
    var (all, reports) := ReadEvery(reader.crc, reader.whole, 0);
    assert [] + all == all;
  }

  /** All records of a file. */
  method ReadAll(c: Crc, whole: seq<Byte>) returns (got: seq<seq<Byte>>, reports: nat)
    requires WfCrc(c)
    ensures (got, reports) == ReadEvery(c, whole, 0)
  {
    hide ReadSoFar, ReadEvery;
    var reader := new Reader(c, whole);
    got := [];
    StartsReading(reader);
    while true
      invariant fresh(reader) && ReadSoFar(reader, c, whole, got)
      decreases reader.Remaining()
    {
      var r := ReadOne(reader, c, whole, got);
      if r.None? {
        return got, reader.corruptions;
      }
      got := got + [r.value];
    }
  }

  lemma Prepend2(a: seq<seq<Byte>>, r: seq<Byte>, b: seq<seq<Byte>>)
    ensures a + ([r] + b) == a + [r] + b
  {
  }

  /** A log written over any reopenings and cut at any byte reads back as the records
      wholly kept; uncut, as all of them. */
  method WriteCutRead(c: Crc, records: seq<seq<Byte>>, reopen: seq<bool>, cut: nat) returns (got: seq<seq<Byte>>, reports: nat)
    requires WfCrc(c) && |reopen| == |records|
    ensures reports == 0 && got <= records
    ensures cut >= |LogBytes(c, records)| ==> got == records
    ensures forall m :: 0 <= m <= |records| && |LogBytes(c, records[..m])| <= cut ==> |got| >= m
  {
    hide LogBytes, ReadEvery;
    var dest := WriteAll(c, records, reopen);
    var whole := if cut < |dest| then dest[..cut] else dest;
    got, reports := ReadAll(c, whole);
    CutReads(c, records, whole);
    forall m | 0 <= m <= |records| && |LogBytes(c, records[..m])| <= cut ensures |got| >= m {
      LogBytesPrefix(c, records, m);
      CountWithinAtLeast(Ends(c, records), |whole|, m);
    }
    assert records[..|records|] == records;
  }
}
