/** A manifest as bytes, and what recovery makes of them (db/version_set.cc, VersionSet::Recover). */
module Manifests {
  import opened InternalKeys
  import opened FlatSpec
  import opened Versions
  import opened LogFormat
  import opened Coding
  import opened LogReader
  import opened VersionBuilder
  import E = VersionEditFields
  import opened VersionEditRoundTrip
  import opened VersionEdits
  import R = LogRoundTrip

  /** The table files by number, the bytes of an internal key, and the comparator's name. */
  datatype Naming = Naming(tables: map<nat, File>, keyBytes: InternalKey -> seq<Byte>, comparator: seq<Byte>)

  function Meta(n: Naming, f: File): E.FileEntry {
    E.FileEntry(f.number, f.size, n.keyBytes(Smallest(f)), n.keyBytes(Largest(f)))
  }

  /** Every table the edit adds is there under its number, and is what the edit says. */
  predicate AllNamed(n: Naming, newFiles: seq<(nat, E.FileEntry)>) {
    forall i :: 0 <= i < |newFiles| ==>
      newFiles[i].1.number in n.tables && newFiles[i].1 == Meta(n, n.tables[newFiles[i].1.number])
  }

  function FileChange(n: Naming, deletedFiles: seq<(nat, nat)>, newFiles: seq<(nat, E.FileEntry)>): FileEdit
    requires AllNamed(n, newFiles)
  {
    FileEdit(seq(|deletedFiles|, i requires 0 <= i < |deletedFiles| => LevelNumber(deletedFiles[i].0, deletedFiles[i].1)),
             seq(|newFiles|, i requires 0 <= i < |newFiles| => LevelFile(newFiles[i].0, n.tables[newFiles[i].1.number])))
  }

  predicate Named(n: Naming, e: E.Edit) {
    AllNamed(n, e.newFiles)
  }

  /** What the edit does to the levels. */
  function Change(n: Naming, e: E.Edit): FileEdit
    requires Named(n, e)
  {
    FileChange(n, e.deletedFiles, e.newFiles)
  }

  function Changes(n: Naming, edits: seq<E.Edit>): (cs: seq<FileEdit>)
    requires forall i :: 0 <= i < |edits| ==> Named(n, edits[i])
    ensures |cs| == |edits| && forall i :: 0 <= i < |edits| ==> cs[i] == Change(n, edits[i])
  {
    seq(|edits|, i requires 0 <= i < |edits| => Change(n, edits[i]))
  }

  /** An edit that can be written, names tables that exist, and does not contradict the comparator. */
  ghost predicate Written(n: Naming, e: E.Edit) {
    Storable(e) && Named(n, e) && (e.comparator.Some? ==> e.comparator.value == n.comparator)
  }

  /** The edits of a manifest; no number is added to a level twice. */
  ghost predicate Manifest(n: Naming, edits: seq<E.Edit>) {
    && (forall i :: 0 <= i < |edits| ==> Written(n, edits[i]))
    && NeverAddedTwice(NoLevels(), Changes(n, edits))
  }

  function NoLevels(): seq<set<File>> {
    seq(NUM_LEVELS, _ => {})
  }

  function Records(edits: seq<E.Edit>): (rs: seq<seq<Byte>>)
    ensures |rs| == |edits| && forall i :: 0 <= i < |rs| ==> rs[i] == E.PrintedAll(E.Fields(edits[i]))
  {
    seq(|edits|, i requires 0 <= i < |edits| => E.PrintedAll(E.Fields(edits[i])))
  }

  /** The last of each counter that an edit named. */
  datatype Counters = Counters(logNumber: Option<nat>, nextFile: Option<nat>, lastSequence: Option<nat>)

  function Later(k: Counters, e: E.Edit): Counters {
    Counters(if e.logNumber.Some? then e.logNumber else k.logNumber,
             if e.nextFileNumber.Some? then e.nextFileNumber else k.nextFile,
             if e.lastSequence.Some? then e.lastSequence else k.lastSequence)
  }

  function Counted(edits: seq<E.Edit>): Counters {
    if edits == [] then Counters(None, None, None) else Later(Counted(edits[..|edits|-1]), edits[|edits|-1])
  }

  predicate Complete(k: Counters) {
    k.logNumber.Some? && k.nextFile.Some? && k.lastSequence.Some?
  }

  datatype Recovered = Recovered(levels: seq<seq<File>>, logNumber: nat, nextFile: nat, lastSequence: nat)

  /** The levels and counters that the edits come to. */
  ghost predicate Sums(n: Naming, edits: seq<E.Edit>, r: Recovered)
    requires forall i :: 0 <= i < |edits| ==> Named(n, edits[i])
  {
    && |r.levels| == NUM_LEVELS
    && (forall l :: 0 <= l < NUM_LEVELS ==> InOrder(r.levels[l]) && Files(r.levels[l]) == EditAll({}, Changes(n, edits), l))
    && Counted(edits) == Counters(Some(r.logNumber), Some(r.nextFile), Some(r.lastSequence))
  }

  const Blank := E.Edit(None, None, None, None, None, [], [], [])

  lemma WrittenReads(n: Naming, e: E.Edit)
    requires Written(n, e)
    ensures E.Decoded(Blank, E.PrintedAll(E.Fields(e))) == (e, E.Good)
  {
    EditRoundTrip(e, Blank);
    assert [] + e.compactPointers == e.compactPointers;
  }

  /** What the builder stands for after the first edits. */
  ghost predicate Built(b: Builder, n: Naming, edits: seq<E.Edit>, i: nat)
    requires i <= |edits| && forall j :: 0 <= j < |edits| ==> Named(n, edits[j])
    reads b
  {
    && b.Valid()
    && (forall l :: 0 <= l < NUM_LEVELS ==> b.Known(l) == MetAt({}, Changes(n, edits)[..i], l))
    && (forall l :: 0 <= l < NUM_LEVELS ==> b.Current(l) == EditAll({}, Changes(n, edits)[..i], l))
  }

  /** One edit of the loop: the builder takes it in. */
  method TakeEdit(b: Builder, n: Naming, ghost edits: seq<E.Edit>, ghost i: nat, edit: VersionEdit)
    requires Manifest(n, edits) && i < |edits| && edit.View() == edits[i] && Built(b, n, edits, i)
    modifies b
    ensures Built(b, n, edits, i + 1)
  {
    hide FileChange, FreshAdds;
    ghost var cs := Changes(n, edits);
    assert cs[..i+1][..i] == cs[..i];
    assert b.SeenAll() == MetBy(NoLevels(), cs[..i]);
    b.Apply(FileChange(n, edit.deletedFiles, edit.newFiles));
  }

  lemma CountedNext(edits: seq<E.Edit>, i: nat)
    requires i < |edits|
    ensures Counted(edits[..i+1]) == Later(Counted(edits[..i]), edits[i])
  {
    assert edits[..i+1][..i] == edits[..i];
  }

  /** The edit in a record. */
  method DecodeRecord(n: Naming, record: seq<Byte>, ghost e: E.Edit) returns (ok: bool, edit: VersionEdit)
    requires Written(n, e) && record == E.PrintedAll(E.Fields(e))
    ensures fresh(edit) && ok && edit.View() == e
  {
    edit := new VersionEdit();
    WrittenReads(n, e);
    var status := edit.DecodeFrom(record);
    ok := status.Good? && (edit.comparator.Some? ==> edit.comparator.value == n.comparator);
  }

  /** The reader is about to return record `i`, or there are no more; `complaints` are those still to come. */
  ghost predicate Reads(reader: Reader, records: seq<seq<Byte>>, i: nat, complaints: nat)
    reads reader
  {
    reader.Valid() && i <= |records| && ReadEvery(reader.crc, reader.whole, reader.Pos()) == (records[i..], complaints)
  }

  method NextRecord(reader: Reader, ghost records: seq<seq<Byte>>, ghost i: nat, ghost complaints: nat)
    returns (r: Option<seq<Byte>>, ghost left: nat)
    requires Reads(reader, records, i, complaints)
    modifies reader
    ensures reader.corruptions + left == old(reader.corruptions) + complaints
    ensures if i < |records| then r == Some(records[i]) && Reads(reader, records, i + 1, left) else r.None? && left == 0
  {
    hide ReadFrom, ReadEvery;
    EveryUnfolds(reader.crc, reader.whole, reader.Pos(), records, i, complaints);
    left := complaints - ReadFrom(reader.crc, reader.whole, reader.Pos(), [], false).reports;
    r := reader.ReadRecord();
  }

  lemma EveryUnfolds(c: Crc, whole: seq<Byte>, pos: nat, records: seq<seq<Byte>>, i: nat, complaints: nat)
    requires pos <= |whole| && i <= |records| && ReadEvery(c, whole, pos) == (records[i..], complaints)
    ensures var r := ReadFrom(c, whole, pos, [], false);
            && r.reports <= complaints
            && if i < |records| then
                 r.record == Some(records[i]) && ReadEvery(c, whole, r.next) == (records[i+1..], complaints - r.reports)
               else r.record.None? && r.reports == complaints
  {
    hide ReadFrom;
    var r := ReadFrom(c, whole, pos, [], false);
    if r.record.Some? {
      var (rest, reports) := ReadEvery(c, whole, r.next);
      assert records[i..] == [r.record.value] + rest;
      assert records[i..][0] == records[i] && records[i..][1..] == records[i+1..] == ([r.record.value] + rest)[1..] == rest;
    }
  }

  /** One turn of the loop: the edit goes into the builder, and the counters it names are kept. */
  method TakeRecord(b: Builder, n: Naming, record: seq<Byte>, k: Counters, ghost edits: seq<E.Edit>, ghost i: nat)
    returns (k': Counters)
    requires Manifest(n, edits) && i < |edits| && record == Records(edits)[i] && k == Counted(edits[..i])
    requires Built(b, n, edits, i)
    modifies b
    ensures Built(b, n, edits, i + 1) && k' == Counted(edits[..i+1])
  {
    hide Built, Manifest, Written;
    ManifestIsWritten(n, edits, i);
    var ok, edit := DecodeRecord(n, record, edits[i]);
    TakeEdit(b, n, edits, i, edit);
    CountedNext(edits, i);
    k' := k;
    if edit.logNumber.Some? {
      k' := k'.(logNumber := edit.logNumber);
    }
    if edit.nextFileNumber.Some? {
      k' := k'.(nextFile := edit.nextFileNumber);
    }
    if edit.lastSequence.Some? {
      k' := k'.(lastSequence := edit.lastSequence);
    }
  }

  /** VersionSet::Recover: the edits that are read, each through the builder, and the last of each counter;
      a manifest with a corrupt part, or that never named one of the counters, is refused. */
  method Recover(c: Crc, whole: seq<Byte>, n: Naming, ghost edits: seq<E.Edit>) returns (r: Option<Recovered>)
    requires WfCrc(c) && Manifest(n, edits) && ReadEvery(c, whole, 0).0 == Records(edits)
    ensures r.Some? <==> ReadEvery(c, whole, 0).1 == 0 && Complete(Counted(edits))
    ensures r.Some? ==> Sums(n, edits, r.value)
  {
    hide ReadFrom, ReadEvery, Manifest, Written, InOrder, Counted, Reads, Built;
    ManifestIsNamed(n, edits);
    var k := Counters(None, None, None);
    var builder := NewBuilder(n, edits);
    var reader := new Reader(c, whole);
    ghost var i, complaints := 0, ReadEvery(c, whole, 0).1;
    StartsReading(reader, edits);
    while true
      invariant i <= |edits| && fresh(builder) && fresh(reader) && Built(builder, n, edits, i)
      invariant Reads(reader, Records(edits), i, complaints) && k == Counted(edits[..i])
      invariant reader.corruptions == 0 && complaints == ReadEvery(c, whole, 0).1
      decreases |edits| - i
    {
      var record;
      record, complaints := NextRecord(reader, Records(edits), i, complaints);
      if reader.corruptions > 0 {
        return None;
      }
      if record.None? {
        break;
      }
      k := TakeRecord(builder, n, record.value, k, edits, i);
      i := i + 1;
    }
    assert edits[..i] == edits;
    if k.nextFile.None? || k.logNumber.None? || k.lastSequence.None? {
      return None;
    }
    var levels := Save(builder, n, edits);
    return Some(Recovered(levels, k.logNumber.value, k.nextFile.value, k.lastSequence.value));
  }

  method NewBuilder(n: Naming, ghost edits: seq<E.Edit>) returns (b: Builder)
    requires forall j :: 0 <= j < |edits| ==> Named(n, edits[j])
    ensures fresh(b) && Built(b, n, edits, 0)
  {
    NoFiles();
    b := new Builder(seq(NUM_LEVELS, _ => []));
    NothingBuilt(b, n, edits);
  }

  lemma StartsReading(reader: Reader, edits: seq<E.Edit>)
    requires reader.Valid() && reader.Pos() == 0 && ReadEvery(reader.crc, reader.whole, 0).0 == Records(edits)
    ensures Reads(reader, Records(edits), 0, ReadEvery(reader.crc, reader.whole, 0).1)
    ensures Counted(edits[..0]) == Counters(None, None, None)
  {
    hide ReadEvery;
    assert Records(edits)[0..] == Records(edits);
  }

  method Save(b: Builder, n: Naming, ghost edits: seq<E.Edit>) returns (levels: seq<seq<File>>)
    requires (forall j :: 0 <= j < |edits| ==> Named(n, edits[j])) && Built(b, n, edits, |edits|)
    ensures |levels| == NUM_LEVELS
    ensures forall l :: 0 <= l < NUM_LEVELS ==> InOrder(levels[l]) && Files(levels[l]) == EditAll({}, Changes(n, edits), l)
  {
    assert Changes(n, edits)[..|edits|] == Changes(n, edits);
    levels := b.SaveTo();
  }

  lemma NoFiles()
    ensures InOrder([]) && Files([]) == {}
  {
  }

  lemma ManifestIsNamed(n: Naming, edits: seq<E.Edit>)
    requires Manifest(n, edits)
    ensures forall j :: 0 <= j < |edits| ==> Named(n, edits[j])
  {
  }

  lemma ManifestIsWritten(n: Naming, edits: seq<E.Edit>, i: nat)
    requires Manifest(n, edits) && i < |edits|
    ensures Written(n, edits[i])
  {
  }

  lemma NothingBuilt(b: Builder, n: Naming, edits: seq<E.Edit>)
    requires forall j :: 0 <= j < |edits| ==> Named(n, edits[j])
    requires b.Valid() && forall l :: 0 <= l < NUM_LEVELS ==> b.Known(l) == b.Current(l) == {}
    ensures Built(b, n, edits, 0)
  {
    assert Changes(n, edits)[..0] == [];
  }
}
