/** A log opened again for appending where it ends, whatever it ends with (db/log_writer.cc; DBImpl::RecoverLogFile
    and VersionSet::ReuseManifest). */
module LogReuse {
  import opened InternalKeys
  import opened LogFormat
  import opened LogWriter
  import opened LogReader
  import opened LogRoundTrip

  // ---------- appending behind a cut ----------

  /** The cut falls before the header of the first fragment it takes away: between fragments, or in the
      zeros that fill a block. */
  predicate CleanCut(t: Torn, cut: nat) {
    cut <= t.pos + PadLength(t.pos)
  }

  lemma PadShared(pos: nat, cut: nat)
    requires pos <= cut <= pos + PadLength(pos)
    ensures cut + PadLength(cut) == pos + PadLength(pos)
  {
  }

  lemma SameParse(c: Crc, whole: seq<Byte>, pos: nat, cut: nat)
    requires pos <= cut <= |whole| && cut <= pos + PadLength(pos)
    ensures ParseAt(c, whole, cut) == ParseAt(c, whole, pos)
  {
    hide ParseBuffer;
    PadShared(pos, cut);
  }

  /** A record behind a clean cut is read; one complaint is made of what stood before it, if anything. */
  lemma CleanReads(c: Crc, whole: seq<Byte>, pos: nat, scratch: seq<Byte>, inside: bool, cut: nat, data: seq<Byte>)
    requires WfCrc(c) && pos <= cut <= |whole| && cut <= pos + PadLength(pos)
    requires Emit(c, cut, data, true) <= whole[cut..]
    ensures ReadFrom(c, whole, pos, scratch, inside)
         == Reading(Some(data), cut + |Emit(c, cut, data, true)|, if inside && scratch != [] then 1 else 0)
  {
    hide Head, ParseAt, PadLength, FragmentLength, Emit;
    SameParse(c, whole, pos, cut);
    HeadComesFirst(c, whole, cut, data, true);
    HeadParses(c, whole, cut, data, true);
    RecordReads(c, whole, cut, data, true, []);
    assert [] + data == data;
  }

  // ---------- a tail of records, the last perhaps torn ----------

  /** From an offset on the file holds the records, and then as much of the torn one as a crash has left,
      perhaps nothing. */
  ghost predicate TailOn(c: Crc, whole: seq<Byte>, pos: nat, records: seq<seq<Byte>>, torn: seq<Byte>)
    requires WfCrc(c)
    decreases |records|
  {
    pos <= |whole| &&
    if records == [] then CutInside(c, whole, pos, torn, true, |whole|)
    else
      var first := Emit(c, pos, records[0], true);
      first <= whole[pos..] && TailOn(c, whole, pos + |first|, records[1..], torn)
  }

  lemma {:induction false} BytesAreTail(c: Crc, whole: seq<Byte>, pos: nat, records: seq<seq<Byte>>)
    requires WfCrc(c) && pos <= |whole| && whole[pos..] == TailBytes(c, pos, records)
    ensures TailOn(c, whole, pos, records, [])
    decreases |records|
  {
    hide Emit;
    if records == [] {
      NothingTorn(c, whole);
    } else {
      var first := Emit(c, pos, records[0], true);
      assert whole[pos + |first|..] == whole[pos..][|first|..];
      BytesAreTail(c, whole, pos + |first|, records[1..]);
    }
  }

  lemma NothingTorn(c: Crc, whole: seq<Byte>)
    requires WfCrc(c)
    ensures CutInside(c, whole, |whole|, [], true, |whole|)
  {
    EmitsHeader(c, |whole|, []);
  }

  lemma EmitsHeader(c: Crc, pos: nat, data: seq<Byte>)
    requires WfCrc(c)
    ensures |Emit(c, pos, data, true)| >= PadLength(pos) + HEADER_SIZE
  {
  }

  lemma {:induction false} TailOnReads(c: Crc, whole: seq<Byte>, pos: nat, records: seq<seq<Byte>>, torn: seq<Byte>)
    requires WfCrc(c) && TailOn(c, whole, pos, records, torn)
    ensures pos <= |whole| && ReadEvery(c, whole, pos) == (records, 0)
    decreases |records|
  {
    hide Emit, ReadFrom, ReadEvery, CutInside;
    EveryAt(c, whole, pos, [], 0);
    assert [] + ReadEvery(c, whole, pos).0 == ReadEvery(c, whole, pos).0;
    if records == [] {
      CutReadsNothing(c, whole, pos, torn);
    } else {
      var first := Emit(c, pos, records[0], true);
      RecordReads(c, whole, pos, records[0], true, []);
      TailOnReads(c, whole, pos + |first|, records[1..], torn);
      assert [] + records[0] == records[0] && [] + [records[0]] + records[1..] == records;
    }
  }

  /** The same record, read with more complaints. */
  predicate Noisier(a: Reading, b: Reading) {
    a.record == b.record && a.next == b.next && a.reports >= b.reports
  }

  /** The fragments of a record whose beginning was dropped are passed over. */
  lemma {:induction false} RestIsSkipped(c: Crc, whole: seq<Byte>, pos: nat, data: seq<Byte>)
    requires WfCrc(c) && pos <= |whole| && Emit(c, pos, data, false) <= whole[pos..]
    ensures pos + |Emit(c, pos, data, false)| <= |whole|
    ensures Noisier(ReadFrom(c, whole, pos, [], false), ReadFrom(c, whole, pos + |Emit(c, pos, data, false)|, [], false))
    decreases |data|, if FragmentLength(pos, |data|) == 0 then 1 else 0
  {
    hide Head, ParseAt, PadLength, FragmentLength, Emit;
    var n, head := FragmentLength(pos, |data|), Head(c, pos, data, false);
    HeadComesFirst(c, whole, pos, data, false);
    HeadParses(c, whole, pos, data, false);
    if n != |data| {
      EmptyFragmentFillsBlock(pos, |data|);
      RestIsSkipped(c, whole, pos + |head|, data[n..]);
    }
  }

  /** A fragment does not reach across the end of its block. */
  lemma FragmentInBlock(c: Crc, pos: nat, data: seq<Byte>, begin: bool, block: nat)
    requires WfCrc(c) && pos + PadLength(pos) < block && block % BLOCK_SIZE == 0
    ensures pos + |Head(c, pos, data, begin)| <= block
    ensures FragmentLength(pos, |data|) < |data| ==> (pos + |Head(c, pos, data, begin)|) % BLOCK_SIZE == 0
  {
    hide Physical, Zeros;
    BlockIsNext(pos + PadLength(pos), block);
    NextBlockEnds(pos + PadLength(pos));
  }

  lemma BlockIsNext(p: nat, block: nat)
    requires p < block && block % BLOCK_SIZE == 0
    ensures (p / BLOCK_SIZE + 1) * BLOCK_SIZE <= block
  {
  }

  lemma NextBlockEnds(p: nat)
    ensures (p / BLOCK_SIZE + 1) * BLOCK_SIZE == p + BLOCK_SIZE - p % BLOCK_SIZE
    ensures (p + BLOCK_SIZE - p % BLOCK_SIZE) % BLOCK_SIZE == 0
  {
  }

  lemma BlockHasNoTrailer(pos: nat)
    requires pos % BLOCK_SIZE == 0
    ensures PadLength(pos) == 0
  {
  }

  /** From the end of a block that a record reaches across, its rest is passed over. */
  lemma {:induction false} AcrossIsSkipped(c: Crc, whole: seq<Byte>, pos: nat, data: seq<Byte>, begin: bool, block: nat)
    requires WfCrc(c) && pos <= |whole| && Emit(c, pos, data, begin) <= whole[pos..]
    requires pos + PadLength(pos) < block <= pos + |Emit(c, pos, data, begin)| && block % BLOCK_SIZE == 0
    ensures pos + |Emit(c, pos, data, begin)| <= |whole|
    ensures Noisier(ReadFrom(c, whole, block, [], false), ReadFrom(c, whole, pos + |Emit(c, pos, data, begin)|, [], false))
    decreases |data|, if FragmentLength(pos, |data|) == 0 then 1 else 0
  {
    hide Head, ReadFrom, PadLength, FragmentLength, Emit;
    var n, head := FragmentLength(pos, |data|), Head(c, pos, data, begin);
    HeadComesFirst(c, whole, pos, data, begin);
    FragmentInBlock(c, pos, data, begin, block);
    if n != |data| {
      var next := pos + |head|;
      BlockHasNoTrailer(next);
      EmptyFragmentFillsBlock(pos, |data|);
      if next < block {
        AcrossIsSkipped(c, whole, next, data[n..], false, block);
      } else {
        RestIsSkipped(c, whole, next, data[n..]);
      }
    }
  }

  /** The whole fragments of a torn record whose beginning was dropped are passed over, and the torn one
      ends the file. */
  lemma {:induction false} TornRestIsSkipped(c: Crc, whole: seq<Byte>, pos: nat, data: seq<Byte>)
    requires WfCrc(c) && CutInside(c, whole, pos, data, false, |whole|)
    ensures pos <= |whole| && ReadFrom(c, whole, pos, [], false).record.None?
    ensures ReadFrom(c, whole, pos, [], false).reports == 0 <==> ParseAt(c, whole, pos).AtEof?
    decreases |data|, if FragmentLength(pos, |data|) == 0 then 1 else 0
  {
    hide Head, ParseAt, PadLength, FragmentLength, Emit, CutInside;
    var n, head := FragmentLength(pos, |data|), Head(c, pos, data, false);
    CutIsWithin(c, whole, pos, data, false, |whole|);
    CutHead(c, whole, pos, data, false, |whole|);
    if n == |data| || pos + |head| > |whole| {
      TornHeadEnds(c, whole, pos, data, false);
      NothingFrom(c, whole, pos, [], false);
    } else {
      HeadParses(c, whole, pos, data, false);
      EmptyFragmentFillsBlock(pos, |data|);
      TornRestIsSkipped(c, whole, pos + |head|, data[n..]);
    }
  }

  lemma TornHeadEnds(c: Crc, whole: seq<Byte>, pos: nat, data: seq<Byte>, begin: bool)
    requires WfCrc(c) && pos <= |whole| < pos + |Head(c, pos, data, begin)|
    requires whole[pos..|whole|] == Head(c, pos, data, begin)[..|whole| - pos]
    ensures ParseAt(c, whole, pos) == AtEof
  {
    hide Head, ParseAt, PadLength;
    SameStart(whole, pos, Head(c, pos, data, begin), PadLength(pos) + HEADER_SIZE);
    ShortPayloadIsEof(c, whole, pos, data, begin);
  }

  lemma {:induction false} TornAcrossIsSkipped(c: Crc, whole: seq<Byte>, pos: nat, data: seq<Byte>, begin: bool, block: nat)
    requires WfCrc(c) && CutInside(c, whole, pos, data, begin, |whole|)
    requires pos + PadLength(pos) < block <= |whole| && block % BLOCK_SIZE == 0
    ensures ReadFrom(c, whole, block, [], false).record.None?
    ensures ReadFrom(c, whole, block, [], false).reports == 0 <==> ParseAt(c, whole, block).AtEof?
    decreases |data|, if FragmentLength(pos, |data|) == 0 then 1 else 0
  {
    hide Head, ReadFrom, PadLength, FragmentLength, Emit, CutInside;
    var n, head := FragmentLength(pos, |data|), Head(c, pos, data, begin);
    CutIsWithin(c, whole, pos, data, begin, |whole|);
    CutHead(c, whole, pos, data, begin, |whole|);
    FragmentInBlock(c, pos, data, begin, block);
    EmptyFragmentFillsBlock(pos, |data|);
    if n != |data| && pos + |head| <= |whole| {
      var next := pos + |head|;
      BlockHasNoTrailer(next);
      if next < block {
        TornAcrossIsSkipped(c, whole, next, data[n..], false, block);
      } else {
        TornRestIsSkipped(c, whole, next, data[n..]);
      }
    }
  }

  /** How many of the records behind an offset begin before another one. */
  function BegunBefore(c: Crc, pos: nat, records: seq<seq<Byte>>, block: nat): (k: nat)
    requires WfCrc(c)
    ensures k <= |records|
    decreases |records|
  {
    if records == [] || pos + PadLength(pos) >= block then 0
    else 1 + BegunBefore(c, pos + |Emit(c, pos, records[0], true)|, records[1..], block)
  }

  /** What is read are the records from the `k`-th on. */
  ghost predicate ReadsFrom(c: Crc, whole: seq<Byte>, r: Reading, records: seq<seq<Byte>>, k: nat)
    requires k <= |records|
  {
    if k == |records| then r.record.None?
    else r.record == Some(records[k]) && r.next <= |whole| && ReadEvery(c, whole, r.next) == (records[k+1..], 0)
  }

  lemma ReadsLater(c: Crc, whole: seq<Byte>, r: Reading, records: seq<seq<Byte>>, k: nat)
    requires records != [] && k <= |records| - 1 && ReadsFrom(c, whole, r, records[1..], k)
    ensures ReadsFrom(c, whole, r, records, k + 1)
  {
    hide ReadEvery;
    if k < |records| - 1 {
      assert records[1..][k+1..] == records[k+2..];
    }
  }

  lemma NoisierReads(c: Crc, whole: seq<Byte>, a: Reading, b: Reading, records: seq<seq<Byte>>, k: nat)
    requires k <= |records| && Noisier(a, b) && ReadsFrom(c, whole, b, records, k)
    ensures ReadsFrom(c, whole, a, records, k)
  {
  }

  /** Standing before a tail with nothing in hand. */
  lemma FirstReads(c: Crc, whole: seq<Byte>, pos: nat, records: seq<seq<Byte>>, torn: seq<Byte>, from: nat)
    requires WfCrc(c) && pos <= from <= |whole| && from <= pos + PadLength(pos) && TailOn(c, whole, pos, records, torn)
    ensures ReadsFrom(c, whole, ReadFrom(c, whole, from, [], false), records, 0)
    ensures ReadFrom(c, whole, from, [], false).reports == 0
  {
    hide Emit, PadLength, ReadEvery, ParseAt, Head, CutInside, ReadFrom;
    SameParse(c, whole, pos, from);
    SameFrom(c, whole, pos, from);
    if records == [] {
      CutReadsNothing(c, whole, pos, torn);
    } else {
      RecordReads(c, whole, pos, records[0], true, []);
      assert [] + records[0] == records[0];
      TailOnReads(c, whole, pos + |Emit(c, pos, records[0], true)|, records[1..], torn);
    }
  }

  lemma SameFrom(c: Crc, whole: seq<Byte>, pos: nat, from: nat)
    requires pos <= from <= |whole| && ParseAt(c, whole, pos) == ParseAt(c, whole, from)
    ensures var a, b := ReadFrom(c, whole, pos, [], false), ReadFrom(c, whole, from, [], false);
            a.record == b.record && a.reports == b.reports && (a.record.Some? ==> a.next == b.next)
  {
    hide ParseAt;
  }

  /** Records that begin behind the end of a block are read from there; those that begin before are not. */
  lemma {:induction false} BehindBlockReads(c: Crc, whole: seq<Byte>, pos: nat, records: seq<seq<Byte>>, torn: seq<Byte>,
                                            block: nat)
    requires WfCrc(c) && pos <= block <= |whole| && TailOn(c, whole, pos, records, torn)
    requires block % BLOCK_SIZE == 0 || block == |whole|
    ensures ReadsFrom(c, whole, ReadFrom(c, whole, block, [], false), records, BegunBefore(c, pos, records, block))
    ensures pos + PadLength(pos) >= block ==> ReadFrom(c, whole, block, [], false).reports == 0
    ensures records == [] && pos + PadLength(pos) < block ==>
              (ReadFrom(c, whole, block, [], false).reports == 0 <==> ParseAt(c, whole, block).AtEof?)
    decreases |records|
  {
    hide Emit, ReadFrom, PadLength, ReadEvery, ReadsFrom, CutInside, ParseAt;
    if pos + PadLength(pos) >= block {
      FirstReads(c, whole, pos, records, torn, block);
    } else if records == [] {
      if block % BLOCK_SIZE == 0 {
        TornAcrossIsSkipped(c, whole, pos, torn, true, block);
      } else {
        NothingLeft(c, whole);
        NothingFrom(c, whole, |whole|, [], false);
      }
      NoneRead(c, whole, ReadFrom(c, whole, block, [], false));
    } else {
      var end := pos + |Emit(c, pos, records[0], true)|;
      if end < block || block % BLOCK_SIZE != 0 {
        BehindBlockReads(c, whole, end, records[1..], torn, block);
      } else {
        AcrossIsSkipped(c, whole, pos, records[0], true, block);
        FirstReads(c, whole, end, records[1..], torn, end);
        NoisierReads(c, whole, ReadFrom(c, whole, block, [], false), ReadFrom(c, whole, end, [], false), records[1..], 0);
      }
      ReadsLater(c, whole, ReadFrom(c, whole, block, [], false), records, BegunBefore(c, end, records[1..], block));
    }
  }

  lemma NoneRead(c: Crc, whole: seq<Byte>, r: Reading)
    requires r.record.None?
    ensures ReadsFrom(c, whole, r, [], 0)
  {
  }

  // ---------- what is lost ----------

  /** How many records appended behind a cut are lost: none behind a clean one; all if the torn header reads
      as the end of the file; else those that begin before the end of its block. */
  function Lost(c: Crc, whole: seq<Byte>, t: Torn, cut: nat, more: seq<seq<Byte>>): (k: nat)
    requires WfCrc(c) && t.pos <= |whole|
    ensures k <= |more|
  {
    if CleanCut(t, cut) then 0
    else
      match ParseAt(c, whole, t.pos)
      case Bad(_, next) => BegunBefore(c, cut, more, next)
      case _ => |more|
  }

  /** Nothing is lost and nothing complained about: the cut is clean, and no part of a record is in hand when
      another begins; or the torn header reads as the end of the file, with no record behind it; or it is
      dropped in silence with its block, and what was appended begins behind that block. */
  predicate Kept(c: Crc, whole: seq<Byte>, t: Torn, cut: nat, more: seq<seq<Byte>>)
    requires t.pos <= |whole|
  {
    var parse := ParseAt(c, whole, t.pos);
    if CleanCut(t, cut) then !(t.inside && t.scratch != [] && parse.Good?)
    else if parse.AtEof? then more == []
    else
      && parse.Bad? && parse.reports == 0 && !t.inside
      && (PadLength(cut) > 0 || (more == [] && ParseAt(c, whole, parse.next).AtEof?))
  }

  /** The cut, if not clean, falls into a header or a payload, both within one block. */
  predicate InsideFragment(t: Torn, cut: nat) {
    !CleanCut(t, cut) ==> cut < (t.pos + PadLength(t.pos)) / BLOCK_SIZE * BLOCK_SIZE + BLOCK_SIZE
  }

  /** The torn bytes do not pass for a record. */
  predicate NoChance(c: Crc, whole: seq<Byte>, t: Torn, cut: nat)
    requires t.pos <= |whole|
  {
    CleanCut(t, cut) || !ParseAt(c, whole, t.pos).Good?
  }

  lemma BadIsBlockEnd(c: Crc, whole: seq<Byte>, pos: nat)
    requires pos <= |whole| && !ParseAt(c, whole, pos).Good?
    ensures var p := pos + PadLength(pos);
            && (ParseAt(c, whole, pos).Bad? ==> p < |whole| && ParseAt(c, whole, pos).next == BlockEnd(|whole|, p))
            && (ParseAt(c, whole, pos).AtEof? ==> p + HEADER_SIZE > |whole| || BlockEnd(|whole|, p) % BLOCK_SIZE != 0)
  {
  }

  lemma BlockOf(size: nat, p: nat, cut: nat)
    requires p < cut < p / BLOCK_SIZE * BLOCK_SIZE + BLOCK_SIZE && cut <= size
    ensures var end := BlockEnd(size, p);
            && cut <= end && (end % BLOCK_SIZE == 0 || end == size) && (cut == end ==> end == size)
            && (PadLength(cut) > 0 ==> end <= cut + PadLength(cut))
            && (size >= cut + PadLength(cut) + HEADER_SIZE ==>
                 && cut < end && (PadLength(cut) > 0 ==> end % BLOCK_SIZE == 0 && p + HEADER_SIZE <= size))
  {
  }

  /** Where the bad header's block ends, seen from what stands behind the cut. */
  lemma BadBlock(c: Crc, whole: seq<Byte>, t: Torn, cut: nat, more: seq<seq<Byte>>, torn: seq<Byte>)
    requires WfCrc(c) && t.pos <= cut && TailOn(c, whole, cut, more, torn)
    requires !CleanCut(t, cut) && InsideFragment(t, cut) && !ParseAt(c, whole, t.pos).Good?
    ensures var parse := ParseAt(c, whole, t.pos);
            && (parse.AtEof? && more != [] ==> PadLength(cut) == 0)
            && (parse.Bad? ==>
                 && cut <= parse.next && (parse.next % BLOCK_SIZE == 0 || parse.next == |whole|)
                 && (cut == parse.next ==> parse.next == |whole|)
                 && (PadLength(cut) > 0 ==> cut + PadLength(cut) >= parse.next)
                 && (more != [] && PadLength(cut) == 0 ==> cut < parse.next))
  {
    hide ParseBuffer, Emit, CutInside;
    if more != [] {
      EmitsHeader(c, cut, more[0]);
      assert |whole| >= cut + PadLength(cut) + HEADER_SIZE;
    }
    BlockOf(|whole|, t.pos + PadLength(t.pos), cut);
    BadIsBlockEnd(c, whole, t.pos);
  }

  /** A torn header that is no record: what comes next is what stands behind its block. */
  lemma TornParse(c: Crc, whole: seq<Byte>, t: Torn)
    requires t.pos <= |whole| && !ParseAt(c, whole, t.pos).Good? && (t.inside || t.scratch == [])
    ensures var parse, r := ParseAt(c, whole, t.pos), ReadFrom(c, whole, t.pos, t.scratch, t.inside);
            if parse.AtEof? then r == Reading(None, t.pos, 0)
            else
              var b := ReadFrom(c, whole, parse.next, [], false);
              r == b.(reports := parse.reports + (if t.inside then 1 else 0) + b.reports)
  {
    hide ParseAt;
  }

  lemma NoneLost(c: Crc, cut: nat, more: seq<seq<Byte>>, block: nat)
    requires WfCrc(c)
    ensures BegunBefore(c, cut, more, block) == 0 <==> more == [] || cut + PadLength(cut) >= block
  {
  }

  lemma BadReads(c: Crc, whole: seq<Byte>, t: Torn, cut: nat, more: seq<seq<Byte>>, torn: seq<Byte>)
    requires WfCrc(c) && t.pos <= cut && TailOn(c, whole, cut, more, torn) && (t.inside || t.scratch == [])
    requires !CleanCut(t, cut) && InsideFragment(t, cut) && ParseAt(c, whole, t.pos).Bad?
    ensures var r := ReadFrom(c, whole, t.pos, t.scratch, t.inside);
            && ReadsFrom(c, whole, r, more, Lost(c, whole, t, cut, more))
            && (Lost(c, whole, t, cut, more) == 0 <==> more == [] || PadLength(cut) > 0)
            && (Lost(c, whole, t, cut, more) == 0 && r.reports == 0 <==> Kept(c, whole, t, cut, more))
  {
    hide Emit, ReadFrom, PadLength, ReadEvery, ParseAt, ReadsFrom, CleanCut, InsideFragment, TailOn;
    BadBlock(c, whole, t, cut, more, torn);
    TornParse(c, whole, t);
    var next := ParseAt(c, whole, t.pos).next;
    var r, b := ReadFrom(c, whole, t.pos, t.scratch, t.inside), ReadFrom(c, whole, next, [], false);
    TailStarts(c, whole, cut, more, torn);
    BehindBlockReads(c, whole, cut, more, torn, next);
    NoisierReads(c, whole, r, b, more, Lost(c, whole, t, cut, more));
    NoneLost(c, cut, more, next);
    NothingLeft(c, whole);
  }

  lemma TailStarts(c: Crc, whole: seq<Byte>, cut: nat, more: seq<seq<Byte>>, torn: seq<Byte>)
    requires WfCrc(c) && TailOn(c, whole, cut, more, torn)
    ensures cut <= |whole|
  {
  }

  /** What a reader standing at a torn fragment gets of what was appended behind it. */
  lemma AppendedReads(c: Crc, whole: seq<Byte>, t: Torn, cut: nat, more: seq<seq<Byte>>, torn: seq<Byte>)
    requires WfCrc(c) && t.pos <= cut && TailOn(c, whole, cut, more, torn) && (t.inside || t.scratch == [])
    requires t.pos <= |whole| && InsideFragment(t, cut) && NoChance(c, whole, t, cut)
    ensures var r := ReadFrom(c, whole, t.pos, t.scratch, t.inside);
            && ReadsFrom(c, whole, r, more, Lost(c, whole, t, cut, more))
            && (Lost(c, whole, t, cut, more) == 0 <==> more == [] || CleanCut(t, cut) || PadLength(cut) > 0)
            && (Lost(c, whole, t, cut, more) == 0 && r.reports == 0 <==> Kept(c, whole, t, cut, more))
  {
    hide Emit, ReadFrom, PadLength, ReadEvery, ParseAt, ReadsFrom, InsideFragment, TailOn;
    if CleanCut(t, cut) {
      CleanTailReads(c, whole, t, cut, more, torn);
    } else if ParseAt(c, whole, t.pos).AtEof? {
      TornParse(c, whole, t);
      BadBlock(c, whole, t, cut, more, torn);
      AllLost(c, whole, ReadFrom(c, whole, t.pos, t.scratch, t.inside), more);
    } else {
      BadReads(c, whole, t, cut, more, torn);
    }
  }

  lemma AllLost(c: Crc, whole: seq<Byte>, r: Reading, more: seq<seq<Byte>>)
    requires r.record.None?
    ensures ReadsFrom(c, whole, r, more, |more|)
  {
  }

  /** What the reader meets behind a clean cut: the end, or the first fragment of a record. */
  lemma TailParses(c: Crc, whole: seq<Byte>, cut: nat, more: seq<seq<Byte>>, torn: seq<Byte>)
    requires WfCrc(c) && TailOn(c, whole, cut, more, torn)
    ensures cut <= |whole|
    ensures var parse := ParseAt(c, whole, cut);
            if parse.Good? then parse.kind == FULL_TYPE || parse.kind == FIRST_TYPE else parse.AtEof? && more == []
  {
    hide Emit, ParseAt, Head, PadLength, FragmentLength, CutInside;
    if more != [] {
      HeadComesFirst(c, whole, cut, more[0], true);
      HeadParses(c, whole, cut, more[0], true);
    } else {
      CutIsWithin(c, whole, cut, torn, true, |whole|);
      CutHead(c, whole, cut, torn, true, |whole|);
      var n, head := FragmentLength(cut, |torn|), Head(c, cut, torn, true);
      if n == |torn| || cut + |head| > |whole| {
        TornHeadEnds(c, whole, cut, torn, true);
      } else {
        HeadParses(c, whole, cut, torn, true);
      }
    }
  }

  /** Where a record begins, what is in hand is dropped with a complaint. */
  lemma BeginsAnew(c: Crc, whole: seq<Byte>, t: Torn, cut: nat)
    requires t.pos <= |whole| && cut <= |whole| && ParseAt(c, whole, t.pos) == ParseAt(c, whole, cut)
    requires var parse := ParseAt(c, whole, cut);
             if parse.Good? then parse.kind == FULL_TYPE || parse.kind == FIRST_TYPE else parse.AtEof?
    ensures var r, anew := ReadFrom(c, whole, t.pos, t.scratch, t.inside), ReadFrom(c, whole, cut, [], false);
            && r.record == anew.record && (r.record.Some? ==> r.next == anew.next)
            && r.reports == anew.reports + if t.inside && t.scratch != [] && ParseAt(c, whole, cut).Good? then 1 else 0
  {
    hide ParseAt;
  }

  lemma CleanTailReads(c: Crc, whole: seq<Byte>, t: Torn, cut: nat, more: seq<seq<Byte>>, torn: seq<Byte>)
    requires WfCrc(c) && t.pos <= cut && TailOn(c, whole, cut, more, torn) && t.pos <= |whole| && CleanCut(t, cut)
    ensures var r := ReadFrom(c, whole, t.pos, t.scratch, t.inside);
            ReadsFrom(c, whole, r, more, 0) && (r.reports == 0 <==> Kept(c, whole, t, cut, more))
  {
    hide Emit, ReadFrom, PadLength, ReadEvery, ParseAt, TailOn;
    TailParses(c, whole, cut, more, torn);
    SameParse(c, whole, t.pos, cut);
    BeginsAnew(c, whole, t, cut);
    FirstReads(c, whole, cut, more, torn, cut);
  }

  /** The file after records were cut off and others appended behind. */
  function Reopened(c: Crc, records: seq<seq<Byte>>, cut: nat, more: seq<seq<Byte>>): (whole: seq<Byte>)
    requires WfCrc(c) && cut <= |LogBytes(c, records)|
    ensures cut <= |whole|
  {
    LogBytes(c, records)[..cut] + TailBytes(c, cut, more)
  }

  /** Where the cut falls in record `m`. */
  function TornIn(c: Crc, records: seq<seq<Byte>>, m: nat, cut: nat): (t: Torn)
    requires WfCrc(c) && m < |records| && |LogBytes(c, records[..m])| <= cut
    ensures t.pos <= cut
  {
    TornAt(c, |LogBytes(c, records[..m])|, records[m], true, cut, [])
  }

  lemma ReopenedReads(c: Crc, records: seq<seq<Byte>>, m: nat, cut: nat, more: seq<seq<Byte>>)
    requires WfCrc(c) && m < |records| && cut <= |LogBytes(c, records)|
    requires |LogBytes(c, records[..m])| <= cut < |LogBytes(c, records[..m+1])|
    ensures var whole, t := Reopened(c, records, cut, more), TornIn(c, records, m, cut);
            var r := ReadFrom(c, whole, t.pos, t.scratch, t.inside);
            && cut <= |whole| && whole[cut..] == TailBytes(c, cut, more)
            && ReadEvery(c, whole, 0)
            == if r.record.None? then (records[..m], r.reports)
               else
                 (records[..m] + ([r.record.value] + ReadEvery(c, whole, r.next).0), r.reports + ReadEvery(c, whole, r.next).1)
  {
    hide LogBytes, ReadFrom, TornAt, CutInside, TailBytes;
    var whole, end := Reopened(c, records, cut, more), |LogBytes(c, records[..m])|;
    assert whole[..cut] == LogBytes(c, records)[..cut];
    CutFallsInside(c, whole, records, m, cut);
    StartReads(c, whole, records[..m]);
    TornReads(c, whole, end, records[m], true, cut, []);
    assert records[..m] + [] == records[..m];
  }

  lemma SuffixReads(c: Crc, whole: seq<Byte>, kept: seq<seq<Byte>>, r: Reading, more: seq<seq<Byte>>, k: nat)
    requires k <= |more| && ReadsFrom(c, whole, r, more, k)
    ensures if r.record.None? then kept == kept + more[k..]
            else r.next <= |whole| && kept + ([r.record.value] + ReadEvery(c, whole, r.next).0) == kept + more[k..]
  {
    hide ReadEvery;
    if k < |more| {
      assert [more[k]] + more[k+1..] == more[k..];
    }
  }

  lemma TornIsInside(c: Crc, records: seq<seq<Byte>>, m: nat, cut: nat)
    requires WfCrc(c) && m < |records| && cut <= |LogBytes(c, records)|
    requires |LogBytes(c, records[..m])| <= cut < |LogBytes(c, records[..m+1])|
    ensures InsideFragment(TornIn(c, records, m, cut), cut)
  {
    hide LogBytes, TornAt, Head, CutInside, PadLength;
    var whole, end := LogBytes(c, records), |LogBytes(c, records[..m])|;
    CutFallsInside(c, whole, records, m, cut);
    TornReads(c, whole, end, records[m], true, cut, []);
    var t := TornIn(c, records, m, cut);
    HeadInBlock(c, t.pos, t.missing, !t.inside);
  }

  lemma HeadInBlock(c: Crc, pos: nat, data: seq<Byte>, begin: bool)
    requires WfCrc(c)
    ensures pos + |Head(c, pos, data, begin)| <= (pos + PadLength(pos)) / BLOCK_SIZE * BLOCK_SIZE + BLOCK_SIZE
  {
    hide Physical, Zeros;
    NextBlockEnds(pos + PadLength(pos));
  }

  lemma {:induction false} TornHoldsNothing(c: Crc, pos: nat, data: seq<Byte>, begin: bool, cut: nat, scratch: seq<Byte>)
    requires WfCrc(c) && pos <= cut && (begin ==> scratch == [])
    ensures var t := TornAt(c, pos, data, begin, cut, scratch); t.inside || t.scratch == []
    decreases |data|, if FragmentLength(pos, |data|) == 0 then 1 else 0
  {
    hide Head, FragmentLength, TornAt;
    var n, head := FragmentLength(pos, |data|), Head(c, pos, data, begin);
    TornStep(c, pos, data, begin, cut, scratch);
    EmptyFragmentFillsBlock(pos, |data|);
    if n != |data| && pos + |head| <= cut {
      TornHoldsNothing(c, pos + |head|, data[n..], false, cut, scratch + data[..n]);
    }
  }

  /** Records cut off at any byte, and any others appended behind, however many: unless the torn bytes pass
      for a record, what is read is what was wholly kept and what is not lost of the others; and none of
      them is lost if and only if the cut is clean, or leaves so little of its block that the first of
      them begins in the next. */
  lemma ReopenedIff(c: Crc, records: seq<seq<Byte>>, m: nat, cut: nat, more: seq<seq<Byte>>)
    requires WfCrc(c) && m < |records| && cut <= |LogBytes(c, records)| && more != []
    requires |LogBytes(c, records[..m])| <= cut < |LogBytes(c, records[..m+1])|
    requires NoChance(c, Reopened(c, records, cut, more), TornIn(c, records, m, cut), cut)
    ensures var whole, t := Reopened(c, records, cut, more), TornIn(c, records, m, cut);
            var got := ReadEvery(c, whole, 0).0;
            && got == records[..m] + more[Lost(c, whole, t, cut, more)..]
            && (got == records[..m] + more <==> CleanCut(t, cut) || PadLength(cut) > 0)
            && (ReadEvery(c, whole, 0) == (records[..m] + more, 0) <==> Kept(c, whole, t, cut, more))
  {
    hide LogBytes, ReadFrom, TornAt, Reopened, ReadEvery, CleanCut, Lost, TailBytes, NoChance, PadLength,
      InsideFragment, Kept, TailOn;
    var whole, t := Reopened(c, records, cut, more), TornIn(c, records, m, cut);
    var k := Lost(c, whole, t, cut, more);
    ReopenedReads(c, records, m, cut, more);
    TornIsInside(c, records, m, cut);
    TornHoldsNothing(c, |LogBytes(c, records[..m])|, records[m], true, cut, []);
    BytesAreTail(c, whole, cut, more);
    AppendedReads(c, whole, t, cut, more, []);
    var r := ReadFrom(c, whole, t.pos, t.scratch, t.inside);
    SuffixReads(c, whole, records[..m], r, more, k);
    assert |records[..m] + more[k..]| == |records[..m] + more| - k;
    assert more[0..] == more;
  }

  /** A cut through a payload takes what is appended along without a word, until the file is as long as
      the payload claims to be. */
  lemma TornPayloadIsSilent(c: Crc, records: seq<seq<Byte>>, m: nat, cut: nat, more: seq<seq<Byte>>)
    requires WfCrc(c) && m < |records| && cut <= |LogBytes(c, records)|
    requires |LogBytes(c, records[..m])| <= cut < |LogBytes(c, records[..m+1])|
    requires var t := TornIn(c, records, m, cut);
             && t.pos + PadLength(t.pos) + HEADER_SIZE <= cut
             && |Reopened(c, records, cut, more)| < t.pos + |Head(c, t.pos, t.missing, !t.inside)|
    ensures ReadEvery(c, Reopened(c, records, cut, more), 0) == (records[..m], 0)
  {
    hide LogBytes, ReadFrom, TornAt, PadLength, Head, ReadEvery, ParseAt, CutInside;
    var whole, end := Reopened(c, records, cut, more), |LogBytes(c, records[..m])|;
    var t := TornIn(c, records, m, cut);
    ReopenedReads(c, records, m, cut, more);
    assert whole[..cut] == LogBytes(c, records)[..cut];
    CutFallsInside(c, whole, records, m, cut);
    TornReads(c, whole, end, records[m], true, cut, []);
    HeaderStays(whole, t.pos, cut, Head(c, t.pos, t.missing, !t.inside), PadLength(t.pos) + HEADER_SIZE);
    ShortPayloadIsEof(c, whole, t.pos, t.missing, !t.inside);
    NothingFrom(c, whole, t.pos, t.scratch, t.inside);
  }

  /** A record of a hundred bytes cut off after the third, and a record of one byte appended: it is not read,
      and nothing is complained about. */
  lemma AppendedIsLost(c: Crc)
    requires WfCrc(c)
    ensures 10 < |LogBytes(c, [Zeros(100)])| && ReadEvery(c, Reopened(c, [Zeros(100)], 10, [[1]]), 0) == ([], 0)
  {
    hide ReadEvery, Head;
    var records := [Zeros(100)];
    assert records[..0] == [] && records[..1] == records;
    NothingWritten(c);
    OneMoreRecord(c, records, 0);
    WholeFragment(c, 0, records[0]);
    WholeFragment(c, 10, [1]);
    TornStep(c, 0, records[0], true, 10, []);
    var t := TornIn(c, records, 0, 10);
    assert t == Torn(0, records[0], [], false);
    assert TailBytes(c, 10, [[1]]) == Emit(c, 10, [1], true) + TailBytes(c, 10 + |Emit(c, 10, [1], true)|, []);
    TornPayloadIsSilent(c, records, 0, 10, [[1]]);
  }

  /** A record that fits the first block is one fragment. */
  lemma WholeFragment(c: Crc, pos: nat, data: seq<Byte>)
    requires WfCrc(c) && pos + HEADER_SIZE + |data| <= BLOCK_SIZE && pos + 2 * HEADER_SIZE <= BLOCK_SIZE
    ensures PadLength(pos) == 0 && FragmentLength(pos, |data|) == |data|
    ensures Emit(c, pos, data, true) == Head(c, pos, data, true) && |Emit(c, pos, data, true)| == HEADER_SIZE + |data|
  {
  }

  // ---------- any file, opened again ----------

  /** What is read of a file, and where its reader stands at the end: before what a longer file might
      still turn into a record, or drop with more of its block. */
  datatype Standing = Standing(got: seq<seq<Byte>>, reports: nat, t: Torn)

  predicate Unsteady(size: nat, parse: Parse) {
    parse.AtEof? || (parse.Bad? && parse.next == size && size % BLOCK_SIZE != 0)
  }

  function Walk(c: Crc, b: seq<Byte>, pos: nat, scratch: seq<Byte>, inside: bool): (w: Standing)
    requires pos <= |b|
    ensures w.t.pos <= |b|
    decreases |b| - pos
  {
    var parse, here := ParseAt(c, b, pos), Standing([], 0, Torn(pos, [], scratch, inside));
    if Unsteady(|b|, parse) then here
    else
      var kind, fragment := if parse.Bad? then BAD_RECORD else parse.kind, if parse.Bad? then [] else parse.fragment;
      var dropped := if parse.Bad? then parse.reports else 0;
      var next := Assemble(kind, fragment, scratch, inside);
      if next.More? then
        var w := Walk(c, b, parse.next, next.scratch, next.inFragmentedRecord);
        w.(reports := dropped + next.reports + w.reports)
      else if next.record.None? then here
      else
        var w := Walk(c, b, parse.next, [], false);
        Standing([next.record.value] + w.got, dropped + next.reports + w.reports, w.t)
  }

  /** All records from an offset on, with part of one in hand. */
  function EveryFrom(c: Crc, whole: seq<Byte>, pos: nat, scratch: seq<Byte>, inside: bool): (seq<seq<Byte>>, nat)
    requires pos <= |whole|
  {
    var r := ReadFrom(c, whole, pos, scratch, inside);
    if r.record.None? then ([], r.reports)
    else ([r.record.value] + ReadEvery(c, whole, r.next).0, r.reports + ReadEvery(c, whole, r.next).1)
  }

  lemma EveryIsFrom(c: Crc, whole: seq<Byte>, pos: nat)
    requires pos <= |whole|
    ensures ReadEvery(c, whole, pos) == EveryFrom(c, whole, pos, [], false)
  {
    hide ReadFrom;
  }

  /** What is steady in a file parses alike in a longer one. */
  lemma SteadyParse(c: Crc, b: seq<Byte>, whole: seq<Byte>, pos: nat)
    requires pos <= |b| && b <= whole && !Unsteady(|b|, ParseAt(c, b, pos))
    ensures ParseAt(c, whole, pos) == ParseAt(c, b, pos)
  {
    hide PadLength;
    var p := pos + PadLength(pos);
    var end, end' := BlockEnd(|b|, p), BlockEnd(|whole|, p);
    HeaderInBlock(|b|, pos);
    HeaderInBlock(|whole|, pos);
    BlockGrows(|b|, |whole|, p);
    var x, y := b[p..end], whole[p..end'];
    assert x == y[..|x|];
    assert forall i :: 0 <= i < HEADER_SIZE ==> x[i] == y[i];
    SteadyBuffer(c, x, y, p, end % BLOCK_SIZE != 0, end' % BLOCK_SIZE != 0);
  }

  lemma BlockGrows(size: nat, size': nat, p: nat)
    requires p < size <= size'
    ensures BlockEnd(size, p) <= BlockEnd(size', p)
    ensures BlockEnd(size, p) == BlockEnd(size', p) || (BlockEnd(size, p) == size && size % BLOCK_SIZE != 0)
  {
  }

  lemma SteadyBuffer(c: Crc, x: seq<Byte>, y: seq<Byte>, p: nat, short: bool, short': bool)
    requires HEADER_SIZE <= |x| <= |y| && x == y[..|x|] && (|x| == |y| ==> short == short')
    requires var parse := ParseBuffer(c, x, p, short); parse.Good? || (parse.Bad? && |x| == |y|)
    ensures ParseBuffer(c, y, p, short') == ParseBuffer(c, x, p, short)
  {
    assert forall i :: 0 <= i < HEADER_SIZE ==> x[i] == y[i];
    var length := BufferedLength(x);
    if HEADER_SIZE + length <= |x| {
      assert x[6..HEADER_SIZE+length] == y[6..HEADER_SIZE+length];
      assert x[HEADER_SIZE..HEADER_SIZE+length] == y[HEADER_SIZE..HEADER_SIZE+length];
      assert DecodeFixed32(x) == DecodeFixed32(y);
    }
    if |x| == |y| { assert x == y; }
  }

  /** A longer file reads as the shorter one and then on from where its reader stood. */
  lemma {:induction false} WalkExtends(c: Crc, b: seq<Byte>, whole: seq<Byte>, pos: nat, scratch: seq<Byte>, inside: bool)
    requires pos <= |b| && b <= whole
    ensures var w := Walk(c, b, pos, scratch, inside);
            var rest := EveryFrom(c, whole, w.t.pos, w.t.scratch, w.t.inside);
            EveryFrom(c, whole, pos, scratch, inside) == (w.got + rest.0, w.reports + rest.1)
    decreases |b| - pos
  {
    hide ParseAt, ReadEvery, Assemble;
    var parse := ParseAt(c, b, pos);
    var rest := EveryFrom(c, whole, pos, scratch, inside);
    assert [] + rest.0 == rest.0;
    if !Unsteady(|b|, parse) {
      SteadyParse(c, b, whole, pos);
      var kind, fragment := if parse.Bad? then BAD_RECORD else parse.kind, if parse.Bad? then [] else parse.fragment;
      var next := Assemble(kind, fragment, scratch, inside);
      if next.More? {
        WalkExtends(c, b, whole, parse.next, next.scratch, next.inFragmentedRecord);
      } else if next.record.Some? {
        WalkExtends(c, b, whole, parse.next, [], false);
        EveryIsFrom(c, whole, parse.next);
        var w := Walk(c, b, parse.next, [], false);
        Prepend(next.record.value, w.got, EveryFrom(c, whole, w.t.pos, w.t.scratch, w.t.inside).0);
      }
    }
  }

  /** Where the reader of a file stands: at its end or before a torn fragment. */
  lemma {:induction false} WalkStands(c: Crc, b: seq<Byte>, pos: nat, scratch: seq<Byte>, inside: bool)
    requires pos <= |b| && (inside || scratch == [])
    ensures var t := Walk(c, b, pos, scratch, inside).t;
            && (t.inside || t.scratch == [])
            && EveryFrom(c, b, t.pos, t.scratch, t.inside).0 == []
            && (InsideFragment(t, |b|)
                || (ParseAt(c, b, t.pos).Good? && !Unsteady(|b|, ParseAt(c, b, t.pos)) && !CleanCut(t, |b|)))
    decreases |b| - pos
  {
    hide ParseAt;
    var parse := ParseAt(c, b, pos);
    if Unsteady(|b|, parse) {
      UnsteadyEnds(c, b, pos, scratch, inside);
    } else {
      var kind, fragment := if parse.Bad? then BAD_RECORD else parse.kind, if parse.Bad? then [] else parse.fragment;
      var next := Assemble(kind, fragment, scratch, inside);
      if next.More? {
        WalkStands(c, b, parse.next, next.scratch, next.inFragmentedRecord);
      } else if next.record.Some? {
        WalkStands(c, b, parse.next, [], false);
      } else {
        GoodIsNotClean(c, b, pos);
      }
    }
  }

  lemma GoodIsNotClean(c: Crc, b: seq<Byte>, pos: nat)
    requires pos <= |b| && ParseAt(c, b, pos).Good?
    ensures pos + PadLength(pos) < |b|
  {
  }

  lemma UnsteadyEnds(c: Crc, b: seq<Byte>, pos: nat, scratch: seq<Byte>, inside: bool)
    requires pos <= |b| && Unsteady(|b|, ParseAt(c, b, pos)) && (inside || scratch == [])
    ensures EveryFrom(c, b, pos, scratch, inside).0 == []
    ensures InsideFragment(Torn(pos, [], scratch, inside), |b|)
  {
    hide ParseAt, ReadFrom, PadLength;
    var parse, t := ParseAt(c, b, pos), Torn(pos, [], scratch, inside);
    TornParse(c, b, t);
    NothingLeft(c, b);
    NothingFrom(c, b, |b|, [], false);
    BadIsBlockEnd(c, b, pos);
    ShortBlock(|b|, pos + PadLength(pos));
    PadLeavesHeader(pos);
  }

  lemma PadLeavesHeader(pos: nat)
    ensures (pos + PadLength(pos)) % BLOCK_SIZE + HEADER_SIZE <= BLOCK_SIZE
  {
  }

  lemma ShortBlock(size: nat, p: nat)
    ensures p < size && BlockEnd(size, p) == size && size % BLOCK_SIZE != 0 ==> size < p / BLOCK_SIZE * BLOCK_SIZE + BLOCK_SIZE
    ensures p < size && BlockEnd(size, p) % BLOCK_SIZE != 0 ==> size < p / BLOCK_SIZE * BLOCK_SIZE + BLOCK_SIZE
    ensures p < size && p + HEADER_SIZE > size && p % BLOCK_SIZE + HEADER_SIZE <= BLOCK_SIZE ==>
              size < p / BLOCK_SIZE * BLOCK_SIZE + BLOCK_SIZE
  {
  }

  /** Any file at all, opened for appending where it ends, with records appended and perhaps one more torn by
      a crash: unless the torn bytes at the old end pass for a record, what is read is what was read
      before and what is not lost of the records; and the condition under which all is well. */
  lemma AppendedIff(c: Crc, b: seq<Byte>, whole: seq<Byte>, more: seq<seq<Byte>>, torn: seq<Byte>)
    requires WfCrc(c) && b <= whole && TailOn(c, whole, |b|, more, torn)
    requires NoChance(c, whole, Walk(c, b, 0, [], false).t, |b|)
    ensures var t, before := Walk(c, b, 0, [], false).t, ReadEvery(c, b, 0);
            && ReadEvery(c, whole, 0).0 == before.0 + more[Lost(c, whole, t, |b|, more)..]
            && (ReadEvery(c, whole, 0).0 == before.0 + more <==> more == [] || CleanCut(t, |b|) || PadLength(|b|) > 0)
            && (before.1 == 0 ==> (ReadEvery(c, whole, 0) == (before.0 + more, 0) <==> Kept(c, whole, t, |b|, more)))
  {
    hide ReadFrom, ReadEvery, Walk, TailOn, Kept, Lost, ParseAt, PadLength, InsideFragment, CleanCut, NoChance, ReadsFrom;
    var w := Walk(c, b, 0, [], false);
    var t := w.t;
    StandsInside(c, b, whole);
    EveryIsFrom(c, whole, 0);
    EveryIsFrom(c, b, 0);
    WalkExtends(c, b, b, 0, [], false);
    WalkExtends(c, b, whole, 0, [], false);
    assert w.got + [] == w.got;
    AppendedReads(c, whole, t, |b|, more, torn);
    var k, r := Lost(c, whole, t, |b|, more), ReadFrom(c, whole, t.pos, t.scratch, t.inside);
    RestIsSuffix(c, whole, t, more, k);
    assert |w.got + more[k..]| == |w.got + more| - k && more[0..] == more;
  }

  lemma StandsInside(c: Crc, b: seq<Byte>, whole: seq<Byte>)
    requires b <= whole && NoChance(c, whole, Walk(c, b, 0, [], false).t, |b|)
    ensures var t := Walk(c, b, 0, [], false).t;
            && InsideFragment(t, |b|) && (t.inside || t.scratch == []) && t.pos <= |b|
            && EveryFrom(c, b, t.pos, t.scratch, t.inside).0 == []
  {
    hide ParseAt, Walk;
    var t := Walk(c, b, 0, [], false).t;
    WalkStands(c, b, 0, [], false);
    if !Unsteady(|b|, ParseAt(c, b, t.pos)) {
      SteadyParse(c, b, whole, t.pos);
    }
  }

  lemma RestIsSuffix(c: Crc, whole: seq<Byte>, t: Torn, more: seq<seq<Byte>>, k: nat)
    requires t.pos <= |whole| && k <= |more| && ReadsFrom(c, whole, ReadFrom(c, whole, t.pos, t.scratch, t.inside), more, k)
    ensures EveryFrom(c, whole, t.pos, t.scratch, t.inside)
         == (more[k..], ReadFrom(c, whole, t.pos, t.scratch, t.inside).reports)
  {
    hide ReadFrom, ReadEvery;
    if k < |more| {
      assert [more[k]] + more[k+1..] == more[k..];
    } else {
      assert more[k..] == [];
    }
  }

  // ---------- the method ----------

  lemma NoTail(c: Crc, pos: nat)
    requires WfCrc(c)
    ensures TailBytes(c, pos, []) == []
  {
  }

  lemma TailStep(c: Crc, front: seq<Byte>, more: seq<seq<Byte>>, i: nat)
    requires WfCrc(c) && i < |more|
    ensures var longer := front + Emit(c, |front|, more[i], true);
            front + TailBytes(c, |front|, more[i..]) == longer + TailBytes(c, |longer|, more[i+1..])
  {
    hide Emit;
    var first := Emit(c, |front|, more[i], true);
    assert more[i..][0] == more[i] && more[i..][1..] == more[i+1..];
    Appended(front, first, TailBytes(c, |front| + |first|, more[i+1..]));
  }

  /** A log cut off, opened again for appending where it ends now, and read. */
  method WriteCutAppendRead(c: Crc, records: seq<seq<Byte>>, reopen: seq<bool>, cut: nat, more: seq<seq<Byte>>)
    returns (got: seq<seq<Byte>>, reports: nat)
    requires WfCrc(c) && |reopen| == |records| && cut <= |LogBytes(c, records)|
    ensures (got, reports) == ReadEvery(c, Reopened(c, records, cut, more), 0)
  {
    hide LogBytes, ReadEvery, Emit, TailBytes;
    var dest := WriteAll(c, records, reopen);
    var writer := new Writer(c, dest[..cut]);
    var i := 0;
    assert more[0..] == more;
    while i < |more|
      invariant 0 <= i <= |more| && writer.Valid() && writer.crc == c && fresh(writer)
      invariant writer.dest + TailBytes(c, |writer.dest|, more[i..]) == Reopened(c, records, cut, more)
    {
      TailStep(c, writer.dest, more, i);
      writer.AddRecord(more[i]);
      i := i + 1;
    }
    assert more[i..] == [] && writer.dest + [] == writer.dest;
    assert TailBytes(c, |writer.dest|, []) == [] by { NoTail(c, |writer.dest|); }
    got, reports := ReadAll(c, writer.dest);
  }
}
