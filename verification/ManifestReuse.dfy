/** A manifest that openings go on appending to, torn by a crash or not (db/version_set.cc, ReuseManifest, LogAndApply
    and Recover). */
module ManifestReuse {
  import opened InternalKeys
  import opened FlatSpec
  import opened Versions
  import opened LogFormat
  import opened LogReader
  import opened LogReuse
  import opened VersionBuilder
  import opened Manifests
  import E = VersionEditFields
  import P = VersionEditRoundTrip
  import R = LogRoundTrip

  /** The manifest as a file: what stood there when it was opened for appending and the edits that came to, the
      edits appended since, and what a crash has left of one more record. A new manifest is opened empty. */
  datatype Journal = Journal(base: seq<Byte>, before: seq<E.Edit>, more: seq<E.Edit>, left: seq<Byte>)

  function Edits(j: Journal): seq<E.Edit> {
    j.before + j.more
  }

  /** The records that were written to the end. */
  function Synced(c: Crc, j: Journal): seq<Byte>
    requires WfCrc(c)
  {
    j.base + R.TailBytes(c, |j.base|, Records(j.more))
  }

  function Bytes(c: Crc, j: Journal): (b: seq<Byte>)
    requires WfCrc(c)
    ensures j.base <= b
  {
    Synced(c, j) + j.left
  }

  function Begun(edits: seq<E.Edit>): Journal {
    Journal([], [], edits, [])
  }

  function Appended(j: Journal, e: E.Edit): Journal {
    j.(more := j.more + [e])
  }

  /** ReuseManifest: opened again for appending where it ends. */
  function Reused(c: Crc, j: Journal): Journal
    requires WfCrc(c)
  {
    Journal(Bytes(c, j), Edits(j), [], [])
  }

  /** A crash while a record was being written at the end of the file. */
  ghost predicate Tears(c: Crc, j: Journal, j': Journal)
    requires WfCrc(c)
  {
    j' == j.(left := j'.left) && PartOfRecord(c, |Synced(c, j)|, j'.left)
  }

  ghost predicate PartOfRecord(c: Crc, pos: nat, left: seq<Byte>)
    requires WfCrc(c)
  {
    exists record :: left < Emit(c, pos, record, true)
  }

  /** The file reads back as its edits, without complaint. */
  predicate Readable(c: Crc, j: Journal)
    requires WfCrc(c)
  {
    ReadEvery(c, Bytes(c, j), 0) == (Records(Edits(j)), 0)
  }

  /** What was there before was read when the file was opened. */
  ghost predicate OnFile(c: Crc, j: Journal)
    requires WfCrc(c)
  {
    ReadEvery(c, j.base, 0) == (Records(j.before), 0) && PartOfRecord(c, |Synced(c, j)|, j.left)
  }

  // ---------- what keeps it so ----------

  lemma NothingIsPart(c: Crc, pos: nat)
    requires WfCrc(c)
    ensures PartOfRecord(c, pos, [])
  {
    EmitsHeader(c, pos, []);
    assert [] < Emit(c, pos, [], true);
  }

  lemma BegunOnFile(c: Crc, edits: seq<E.Edit>)
    requires WfCrc(c)
    ensures OnFile(c, Begun(edits)) && Edits(Begun(edits)) == edits
  {
    hide ReadEvery;
    R.NothingLeft(c, []);
    NothingIsPart(c, |Synced(c, Begun(edits))|);
  }

  lemma AppendedOnFile(c: Crc, j: Journal, e: E.Edit)
    requires WfCrc(c) && OnFile(c, j) && j.left == []
    ensures OnFile(c, Appended(j, e)) && Edits(Appended(j, e)) == Edits(j) + [e]
  {
    hide ReadEvery;
    NothingIsPart(c, |Synced(c, Appended(j, e))|);
  }

  lemma ReusedOnFile(c: Crc, j: Journal)
    requires WfCrc(c) && Readable(c, j)
    ensures OnFile(c, Reused(c, j)) && Edits(Reused(c, j)) == Edits(j)
  {
    hide ReadEvery;
    NothingIsPart(c, |Synced(c, Reused(c, j))|);
  }

  lemma TornOnFile(c: Crc, j: Journal, j': Journal)
    requires WfCrc(c) && OnFile(c, j) && Tears(c, j, j')
    ensures OnFile(c, j') && Edits(j') == Edits(j)
  {
    hide ReadEvery;
  }

  /** An edit is one more record at the end, as the log writer puts it there. */
  lemma AppendedBytes(c: Crc, j: Journal, e: E.Edit)
    requires WfCrc(c) && j.left == []
    ensures Bytes(c, Appended(j, e)) == Bytes(c, j) + Emit(c, |Bytes(c, j)|, E.PrintedAll(E.Fields(e)), true)
  {
    hide Emit, E.PrintedAll, E.Fields, R.TailBytes;
    var more, record := Records(j.more), E.PrintedAll(E.Fields(e));
    var tail := R.TailBytes(c, |j.base|, more);
    assert Records(j.more + [e]) == more + [record];
    TailSnoc(c, |j.base|, more, record);
    Regroup(j.base, tail, Emit(c, |j.base| + |tail|, record, true));
  }

  lemma Regroup(a: seq<Byte>, b: seq<Byte>, d: seq<Byte>)
    ensures a + b + [] + d == a + (b + d) + [] && a + b + [] == a + b
  {
  }

  lemma {:induction false} TailSnoc(c: Crc, pos: nat, records: seq<seq<Byte>>, record: seq<Byte>)
    requires WfCrc(c)
    ensures var tail := R.TailBytes(c, pos, records);
            R.TailBytes(c, pos, records + [record]) == tail + Emit(c, pos + |tail|, record, true)
    decreases |records|
  {
    hide Emit, R.TailBytes;
    var all := records + [record];
    R.TailUnfolds(c, pos, all);
    if records == [] {
      assert all[1..] == [];
      NoTail(c, pos);
      NoTail(c, pos + |Emit(c, pos, record, true)|);
    } else {
      var first := Emit(c, pos, records[0], true);
      assert all[1..] == records[1..] + [record];
      R.TailUnfolds(c, pos, records);
      TailSnoc(c, pos + |first|, records[1..], record);
      Regroup(first, R.TailBytes(c, pos + |first|, records[1..]), Emit(c, pos + |R.TailBytes(c, pos, records)|, record, true));
    }
  }

  /** A new manifest is the log of its records. */
  lemma BegunBytes(c: Crc, edits: seq<E.Edit>)
    requires WfCrc(c)
    ensures Bytes(c, Begun(edits)) == LogBytes(c, Records(edits))
  {
    hide Emit;
    R.LogGoesOn(c, [], Records(edits));
    assert [] + Records(edits) == Records(edits) && LogBytes(c, []) == [];
  }

  // ---------- what is read ----------

  lemma {:induction false} TailStands(c: Crc, whole: seq<Byte>, pos: nat, records: seq<seq<Byte>>, left: seq<Byte>,
                                      torn: seq<Byte>)
    requires WfCrc(c) && pos <= |whole| && whole[pos..] == R.TailBytes(c, pos, records) + left
    requires left < Emit(c, |whole| - |left|, torn, true)
    ensures TailOn(c, whole, pos, records, torn)
    decreases |records|
  {
    hide Emit, R.TailBytes;
    if records != [] {
      var first := Emit(c, pos, records[0], true);
      R.TailUnfolds(c, pos, records);
      FirstOff(whole, pos, first, R.TailBytes(c, pos + |first|, records[1..]), left);
      TailStands(c, whole, pos + |first|, records[1..], left, torn);
    } else {
      NoTail(c, pos);
      assert whole[pos..|whole|] == left;
    }
  }

  lemma FirstOff(whole: seq<Byte>, pos: nat, first: seq<Byte>, tail: seq<Byte>, left: seq<Byte>)
    requires pos <= |whole| && whole[pos..] == first + tail + left
    ensures first <= whole[pos..] && pos + |first| <= |whole| && whole[pos + |first|..] == tail + left
  {
    assert whole[pos + |first|..] == whole[pos..][|first|..];
  }

  lemma JournalStands(c: Crc, j: Journal) returns (torn: seq<Byte>)
    requires WfCrc(c) && OnFile(c, j)
    ensures TailOn(c, Bytes(c, j), |j.base|, Records(j.more), torn)
  {
    hide Emit, ReadEvery, TailOn, Records, R.TailBytes;
    var b, tail := Bytes(c, j), R.TailBytes(c, |j.base|, Records(j.more));
    torn :| j.left < Emit(c, |Synced(c, j)|, torn, true);
    Behind(j.base, tail, j.left);
    TailStands(c, b, |j.base|, Records(j.more), j.left, torn);
  }

  lemma Behind(a: seq<Byte>, b: seq<Byte>, d: seq<Byte>)
    ensures (a + b + d)[|a|..] == b + d && |a + b + d| - |d| == |a + b|
  {
  }

  /** Where a reader of the file stood when it was opened for appending. */
  function Stand(c: Crc, j: Journal): (t: R.Torn)
    ensures t.pos <= |j.base|
  {
    Walk(c, j.base, 0, [], false).t
  }

  /** Nothing appended since is lost or complained about. */
  predicate Sound(c: Crc, j: Journal)
    requires WfCrc(c)
  {
    Kept(c, Bytes(c, j), Stand(c, j), |j.base|, Records(j.more))
  }

  /** The torn bytes behind which the file was opened do not pass for a record. */
  predicate Unmistaken(c: Crc, j: Journal)
    requires WfCrc(c)
  {
    NoChance(c, Bytes(c, j), Stand(c, j), |j.base|)
  }

  lemma SoundIsUnmistaken(c: Crc, j: Journal)
    requires WfCrc(c) && Sound(c, j)
    ensures Unmistaken(c, j)
  {
    hide ParseAt, Walk, PadLength;
  }

  /** The edits that recovery finds. */
  function Found(c: Crc, j: Journal): seq<E.Edit>
    requires WfCrc(c)
  {
    j.before + j.more[Lost(c, Bytes(c, j), Stand(c, j), |j.base|, Records(j.more))..]
  }

  lemma RecordsJoin(a: seq<E.Edit>, b: seq<E.Edit>, k: nat)
    requires k <= |b|
    ensures Records(a + b[k..]) == Records(a) + Records(b)[k..]
  {
  }

  /** Which edits are read of a manifest that was opened for appending behind whatever a crash had left; exactly when
      they are all; and exactly when recovery takes them for the manifest. */
  lemma ManifestReadsIff(c: Crc, j: Journal)
    requires WfCrc(c) && OnFile(c, j) && Unmistaken(c, j)
    ensures ReadEvery(c, Bytes(c, j), 0).0 == Records(Found(c, j))
    ensures Found(c, j) == Edits(j) <==> j.more == [] || CleanCut(Stand(c, j), |j.base|) || PadLength(|j.base|) > 0
    ensures Readable(c, j) <==> Sound(c, j)
    ensures Readable(c, j) ==> Found(c, j) == Edits(j)
  {
    hide ReadEvery, TailOn, Kept, Lost, CleanCut, PadLength, Walk, NoChance, PartOfRecord, Emit, R.TailBytes, Synced;
    var torn := JournalStands(c, j);
    var records, k := Records(j.more), Lost(c, Bytes(c, j), Stand(c, j), |j.base|, Records(j.more));
    AppendedIff(c, j.base, Bytes(c, j), records, torn);
    RecordsJoin(j.before, j.more, k);
    RecordsJoin(j.before, j.more, 0);
    assert j.more[0..] == j.more && records[0..] == records;
    assert |Found(c, j)| == |Edits(j)| - k && |records[k..]| == |records| - k;
  }

  /** A manifest reused while no record was torn is read to its end, whatever a crash leaves of one more. */
  lemma UntornReads(c: Crc, j: Journal)
    requires WfCrc(c) && OnFile(c, j) && j.base == LogBytes(c, Records(j.before))
    ensures Readable(c, j)
    ensures j.left == [] ==> Bytes(c, j) == LogBytes(c, Records(Edits(j)))
  {
    hide ReadEvery, TailOn, PartOfRecord, Emit, R.TailBytes, LogBytes;
    var torn := JournalStands(c, j);
    var before, more := Records(j.before), Records(j.more);
    RecordsJoin(j.before, j.more, 0);
    assert j.more[0..] == j.more && more[0..] == more;
    R.KeptReads(c, Bytes(c, j), before, 0);
    assert before[..0] == [] && before[0..] == before;
    R.NothingWritten(c);
    TailOnReads(c, Bytes(c, j), |j.base|, more, torn);
    R.LogGoesOn(c, before, more);
  }

  // ---------- what recovery makes of it ----------

  lemma {:induction false} AddedIsMet(cs: seq<FileEdit>, i: nat, l: nat)
    requires i < |cs|
    ensures AddedAt(cs[i].added, l) <= MetAt({}, cs, l)
  {
    hide AddedAt;
    if i < |cs| - 1 {
      AddedIsMet(cs[..|cs|-1], i, l);
    }
  }

  lemma {:induction false} MetGrows(cs: seq<FileEdit>, more: seq<FileEdit>, l: nat)
    requires forall i :: 0 <= i < |cs| ==> cs[i] in more
    ensures MetAt({}, cs, l) <= MetAt({}, more, l)
  {
    hide AddedAt;
    if cs != [] {
      MetGrows(cs[..|cs|-1], more, l);
      var m :| 0 <= m < |more| && more[m] == cs[|cs|-1];
      AddedIsMet(more, m, l);
    }
  }

  lemma FreshWithLess(cs: seq<FileEdit>, more: seq<FileEdit>, fe: FileEdit)
    requires (forall i :: 0 <= i < |cs| ==> cs[i] in more) && FreshAdds(MetBy(NoLevels(), more), fe.added)
    ensures FreshAdds(MetBy(NoLevels(), cs), fe.added)
  {
    hide MetAt;
    forall i | 0 <= i < |fe.added|
      ensures fe.added[i].level < NUM_LEVELS && fe.added[i].file.number !in Numbers(MetAt({}, cs, fe.added[i].level))
    {
      MetGrows(cs, more, fe.added[i].level);
      assert fe.added[i].file.number !in MetBy(NoLevels(), more)[fe.added[i].level];
    }
  }

  /** A manifest without some of its edits is still one that the builder can take. */
  lemma LessIsManifest(n: Naming, a: seq<E.Edit>, b: seq<E.Edit>, k: nat)
    requires k <= |b| && Manifest(n, a + b)
    ensures Manifest(n, a + b[k..])
  {
    hide Written, MetBy, FreshAdds;
    var all, some := a + b, a + b[k..];
    forall i | 0 <= i < |some| ensures exists m :: 0 <= m < |all| && some[i] == all[m] {
      assert some[i] == if i < |a| then all[i] else all[i + k];
    }
    assert forall i :: 0 <= i < |all| ==> Written(n, all[i]);
    ManifestIsNamed(n, all);
    var cs, ds := Changes(n, all), Changes(n, some);
    forall i | 0 <= i < |some| ensures WfEdit(ds[i]) && FreshAdds(MetBy(NoLevels(), ds[..i]), ds[i].added) {
      var m := if i < |a| then i else i + k;
      assert ds[i] == cs[m];
      forall j | 0 <= j < i ensures ds[..i][j] in cs[..m] {
        assert ds[..i][j] == cs[..m][if j < |a| then j else j + k];
      }
      FreshWithLess(ds[..i], cs[..m], ds[i]);
    }
  }

  /** VersionSet::Recover on such a file: the edits found go into the levels and counters; unless the file is sound it
      is refused, or edits are missing. */
  method RecoverJournal(c: Crc, whole: seq<Byte>, n: Naming, ghost j: Journal) returns (r: Option<Recovered>)
    requires WfCrc(c) && OnFile(c, j) && Unmistaken(c, j) && whole == Bytes(c, j) && Manifest(n, Edits(j))
    ensures Manifest(n, Found(c, j))
    ensures r.Some? <==> ReadEvery(c, whole, 0).1 == 0 && Complete(Counted(Found(c, j)))
    ensures r.Some? ==> Sums(n, Found(c, j), r.value)
    ensures if Sound(c, j) then Found(c, j) == Edits(j) && ReadEvery(c, whole, 0).1 == 0
            else r.None? || |Found(c, j)| < |Edits(j)|
  {
    hide ReadEvery, OnFile, Unmistaken, Sound, Manifest, Sums, Counted, Bytes;
    ManifestReadsIff(c, j);
    LessIsManifest(n, j.before, j.more, Lost(c, Bytes(c, j), Stand(c, j), |j.base|, Records(j.more)));
    r := Recover(c, whole, n, Found(c, j));
  }

  // ---------- one such manifest ----------

  /** An edit of nothing but counters. */
  function Counting(logNumber: nat, nextFile: nat, last: nat): E.Edit {
    E.Edit(None, Some(logNumber), None, Some(nextFile), Some(last), [], [], [])
  }

  lemma NumberPrints(v: nat)
    requires v < 128
    ensures E.Printed(E.LogNumber(v)) == [2, v] && E.Printed(E.NextFileNumber(v)) == [3, v]
    ensures E.Printed(E.LastSequence(v)) == [4, v] && E.PrintedAll([]) == []
  {
  }

  lemma CountingPrints(a: nat, b: nat, s: nat)
    requires a < 128 && b < 128 && s < 128
    ensures E.PrintedAll(E.Fields(Counting(a, b, s))) == [2, a, 3, b, 4, s]
  {
    hide E.PrintedAll, E.Printed;
    var x, y, z := E.LogNumber(a), E.NextFileNumber(b), E.LastSequence(s);
    assert E.Fields(Counting(a, b, s)) == [] + [x] + [y] + [z];
    NumberPrints(a);
    NumberPrints(b);
    NumberPrints(s);
    P.PrintedGrows([], x);
    P.PrintedGrows([] + [x], y);
    P.PrintedGrows([] + [x] + [y], z);
  }

  /** The edit of a flush: one table with keys of forty bytes. */
  const Flushed := Counting(2, 4, 1).(newFiles := [(0, E.FileEntry(3, 100, Zeros(40), Zeros(40)))])

  lemma FlushedPrints()
    ensures 90 <= |E.PrintedAll(E.Fields(Flushed))| <= 100
  {
    hide E.PrintedAll, E.Printed;
    var plain, file := Counting(2, 4, 1), E.NewFile(0, Flushed.newFiles[0].1);
    CountingPrints(2, 4, 1);
    assert E.Fields(Flushed) == E.Fields(plain) + [file];
    P.PrintedGrows(E.Fields(plain), file);
    TablePrints(3, 100, Zeros(40));
  }

  lemma TablePrints(number: nat, size: nat, key: seq<Byte>)
    requires number < 128 && size < 128 && |key| < 128
    ensures |E.Printed(E.NewFile(0, E.FileEntry(number, size, key, key)))| == 6 + 2 * |key|
  {
  }

  /** The record of a flush torn behind a first edit, and opened again behind the tear. */
  function TornFlush(c: Crc, first: E.Edit): Journal
    requires WfCrc(c)
  {
    var begun := Begun([first]);
    var record := Emit(c, |Bytes(c, begun)|, E.PrintedAll(E.Fields(Flushed)), true);
    begun.(left := if |record| < 10 then [] else record[..10])
  }

  /** The two records in the file, the second of which is torn. */
  lemma TornFlushRecords(c: Crc, first: E.Edit)
    requires WfCrc(c) && |E.PrintedAll(E.Fields(first))| == 6
    ensures var r0, flush := E.PrintedAll(E.Fields(first)), E.PrintedAll(E.Fields(Flushed));
            var start, record := Bytes(c, Begun([first])), Emit(c, 13, flush, true);
            && LogBytes(c, [r0]) == start && |start| == 13 && LogBytes(c, [r0, flush]) == start + record
            && |record| == |Head(c, 13, flush, true)| == HEADER_SIZE + |flush| && |flush| >= 90 && PadLength(13) == 0
            && R.TornAt(c, 13, flush, true, 23, []) == R.Torn(13, flush, [], false)
  {
    hide Emit, E.PrintedAll, E.Fields, Head, LogBytes, Bytes;
    var r0, flush := E.PrintedAll(E.Fields(first)), E.PrintedAll(E.Fields(Flushed));
    FlushedPrints();
    BegunBytes(c, [first]);
    assert Records([first]) == [r0];
    var records := [r0, flush];
    assert records[..1] == [r0] && records[..2] == records && records[..0] == [];
    R.NothingWritten(c);
    R.OneMoreRecord(c, records, 0);
    R.OneMoreRecord(c, records, 1);
    WholeFragment(c, 0, r0);
    WholeFragment(c, 13, flush);
    R.TornStep(c, 13, flush, true, 23, []);
  }

  lemma TornFlushBytes(c: Crc, first: E.Edit, next: E.Edit)
    requires WfCrc(c) && |E.PrintedAll(E.Fields(first))| == 6
    ensures var r0, r1, flush := E.PrintedAll(E.Fields(first)), E.PrintedAll(E.Fields(next)), E.PrintedAll(E.Fields(Flushed));
            var torn, records := TornFlush(c, first), [r0, flush];
            && Tears(c, Begun([first]), torn) && |torn.left| == 10 && 23 <= |LogBytes(c, records)|
            && Bytes(c, Appended(Reused(c, torn), next)) == Reopened(c, records, 23, [r1])
            && |Reopened(c, records, 23, [r1])| == 23 + |Emit(c, 23, r1, true)|
  {
    hide Emit, E.PrintedAll, E.Fields, Head, LogBytes, R.TornAt, R.TailBytes;
    var r0, r1, flush := E.PrintedAll(E.Fields(first)), E.PrintedAll(E.Fields(next)), E.PrintedAll(E.Fields(Flushed));
    TornFlushRecords(c, first);
    var start, record, torn := Bytes(c, Begun([first])), Emit(c, 13, flush, true), TornFlush(c, first);
    assert torn.left == record[..10] < record;
    assert Bytes(c, torn) == start + record[..10] == (start + record)[..23];
    AppendedBytes(c, Reused(c, torn), next);
    TailSnoc(c, 23, [], r1);
    NoTail(c, 23);
    assert [] + [r1] == [r1];
    ReusedBytes(c, torn);
  }

  lemma ReusedBytes(c: Crc, j: Journal)
    requires WfCrc(c)
    ensures Bytes(c, Reused(c, j)) == Bytes(c, j)
  {
    NoTail(c, |Bytes(c, j)|);
  }

  /** A crash tears the record of a flush three bytes into its payload, the store is opened with the manifest
      reused, and LogAndApply appends an edit: the next recovery does not find it, and nothing is complained about. */
  lemma AppendedEditIsLost(c: Crc)
    requires WfCrc(c)
    ensures var first, next := Counting(2, 3, 0), Counting(4, 5, 1);
            var torn := TornFlush(c, first);
            var j := Appended(Reused(c, torn), next);
            && Tears(c, Begun([first]), torn) && torn.left != [] && Readable(c, torn)
            && OnFile(c, j) && j.left == [] && Edits(j) == [first, next]
            && ReadEvery(c, Bytes(c, j), 0) == (Records([first]), 0)
  {
    hide ReadEvery, Emit, E.PrintedAll, E.Fields, Head, LogBytes, Bytes;
    var first, next := Counting(2, 3, 0), Counting(4, 5, 1);
    CountingPrints(2, 3, 0);
    CountingPrints(4, 5, 1);
    TornFlushRecords(c, first);
    TornFlushBytes(c, first, next);
    var torn := TornFlush(c, first);
    BegunOnFile(c, [first]);
    TornOnFile(c, Begun([first]), torn);
    R.NothingWritten(c);
    UntornReads(c, torn);
    ReusedOnFile(c, torn);
    AppendedOnFile(c, Reused(c, torn), next);
    var r0, flush, r1 := E.PrintedAll(E.Fields(first)), E.PrintedAll(E.Fields(Flushed)), E.PrintedAll(E.Fields(next));
    var records := [r0, flush];
    assert records[..1+1] == records && records[..1] == [r0] == Records([first]);
    assert TornIn(c, records, 1, 23) == R.Torn(13, flush, [], false);
    WholeFragment(c, 23, r1);
    TornPayloadIsSilent(c, records, 1, 23, [r1]);
  }
}
