/** The manifest's records: a version edit, its printed fields, and the parser that reads them back. */
module VersionEditFields {
  import opened InternalKeys
  import opened LogFormat
  import opened Coding

  /** The metadata a table has in the manifest; its two keys are the bytes of internal keys. */
  datatype FileEntry = FileEntry(number: nat, fileSize: nat, smallest: seq<Byte>, largest: seq<Byte>)

  /** An edit. A value with its `has_` flag is an Option, and the set of deleted files is the list
      its iterator walks, level before number. */
  datatype Edit = Edit(
    comparator: Option<seq<Byte>>, logNumber: Option<nat>, prevLogNumber: Option<nat>,
    nextFileNumber: Option<nat>, lastSequence: Option<nat>,
    compactPointers: seq<(nat, seq<Byte>)>, deletedFiles: seq<(nat, nat)>, newFiles: seq<(nat, FileEntry)>)

  datatype Field =
    | Comparator(name: seq<Byte>)
    | LogNumber(number: nat)
    | PrevLogNumber(number: nat)
    | NextFileNumber(number: nat)
    | LastSequence(number: nat)
    | CompactPointer(level: nat, key: seq<Byte>)
    | DeletedFile(level: nat, number: nat)
    | NewFile(level: nat, file: FileEntry)

  datatype Status = Good | Corruption(message: string)

  predicate Before(a: (nat, nat), b: (nat, nat)) {
    a.0 < b.0 || (a.0 == b.0 && a.1 < b.1)
  }

  predicate Ascending(d: seq<(nat, nat)>) {
    forall i, j :: 0 <= i < j < |d| ==> Before(d[i], d[j])
  }

  /** Insertion into an ordered set of pairs. */
  function Inserted(d: seq<(nat, nat)>, p: (nat, nat)): (r: seq<(nat, nat)>) {
    if d == [] then [p]
    else if d[0] == p then d
    else if Before(p, d[0]) then [p] + d
    else [d[0]] + Inserted(d[1..], p)
  }

  lemma {:induction false} InsertedIsSet(d: seq<(nat, nat)>, p: (nat, nat))
    requires Ascending(d)
    ensures Ascending(Inserted(d, p))
    ensures forall q :: q in Inserted(d, p) <==> q in d || q == p
  {
    if d != [] && d[0] != p && !Before(p, d[0]) {
      InsertedIsSet(d[1..], p);
      var r := Inserted(d[1..], p);
      assert d == [d[0]] + d[1..];
      forall k | 0 <= k < |r| ensures Before(d[0], r[k]) {
        assert r[k] in r;
      }
    }
  }

  lemma {:induction false} LargestGoesLast(d: seq<(nat, nat)>, p: (nat, nat))
    requires forall i :: 0 <= i < |d| ==> Before(d[i], p)
    ensures Inserted(d, p) == d + [p]
  {
    if d != [] {
      LargestGoesLast(d[1..], p);
    }
  }

  /** The widths of the source: 32-bit lengths, 64-bit numbers. Levels are bounded by `Known`. */
  predicate FitsFile(f: FileEntry) {
    f.number < TWO_64 && f.fileSize < TWO_64 && |f.smallest| < TWO_32 && |f.largest| < TWO_32
  }

  predicate Fits(f: Field) {
    match f
    case Comparator(name) => |name| < TWO_32
    case CompactPointer(level, key) => level < TWO_32 && |key| < TWO_32
    case DeletedFile(level, number) => level < TWO_32 && number < TWO_64
    case NewFile(level, file) => level < TWO_32 && FitsFile(file)
    case LogNumber(n) => n < TWO_64
    case PrevLogNumber(n) => n < TWO_64
    case NextFileNumber(n) => n < TWO_64
    case LastSequence(n) => n < TWO_64
  }

  predicate Known(f: Field) {
    (f.CompactPointer? || f.DeletedFile? || f.NewFile?) ==> f.level < NUM_LEVELS
  }

  function TagOf(f: Field): nat {
    match f
    case Comparator(_) => 1
    case LogNumber(_) => 2
    case NextFileNumber(_) => 3
    case LastSequence(_) => 4
    case CompactPointer(_, _) => 5
    case DeletedFile(_, _) => 6
    case NewFile(_, _) => 7
    case PrevLogNumber(_) => 9
  }

  function Payload(f: Field): seq<Byte> {
    match f
    case Comparator(name) => LengthPrefixed(name)
    case CompactPointer(level, key) => Varint(level) + LengthPrefixed(key)
    case DeletedFile(level, number) => Varint(level) + Varint(number)
    case NewFile(level, file) =>
      Varint(level) + Varint(file.number) + Varint(file.fileSize)
      + LengthPrefixed(file.smallest) + LengthPrefixed(file.largest)
    case LogNumber(n) => Varint(n)
    case PrevLogNumber(n) => Varint(n)
    case NextFileNumber(n) => Varint(n)
    case LastSequence(n) => Varint(n)
  }

  function Printed(f: Field): (bs: seq<Byte>)
    ensures bs != []
  {
    Varint(TagOf(f)) + Payload(f)
  }

  function PrintedAll(fs: seq<Field>): seq<Byte> {
    if fs == [] then [] else PrintedAll(fs[..|fs| - 1]) + Printed(fs[|fs| - 1])
  }

  /** A level is a 32-bit varint below the number of levels. */
  function GetLevel(input: seq<Byte>): (r: Option<Parsed<nat>>)
    ensures r.Some? ==> |r.value.rest| < |input| && r.value.value < NUM_LEVELS
  {
    var v := GetVarint32(input);
    if v.None? || v.value.value >= NUM_LEVELS then None else v
  }

  function ParseNewFile(input: seq<Byte>): (r: Option<Parsed<Field>>)
    ensures r.Some? ==> |r.value.rest| < |input|
  {
    var level := GetLevel(input);
    if level.None? then None else
    var number := GetVarint64(level.value.rest);
    if number.None? then None else
    var size := GetVarint64(number.value.rest);
    if size.None? then None else
    var smallest := GetLengthPrefixed(size.value.rest);
    if smallest.None? then None else
    var largest := GetLengthPrefixed(smallest.value.rest);
    if largest.None? then None else
    Some(Parsed(NewFile(level.value.value, FileEntry(number.value.value, size.value.value, smallest.value.value,
                                                     largest.value.value)), largest.value.rest))
  }

  function ParseCompactPointer(input: seq<Byte>): (r: Option<Parsed<Field>>)
    ensures r.Some? ==> |r.value.rest| < |input|
  {
    var level := GetLevel(input);
    if level.None? then None else
    var key := GetLengthPrefixed(level.value.rest);
    if key.None? then None else
    Some(Parsed(CompactPointer(level.value.value, key.value.value), key.value.rest))
  }

  function ParseDeletedFile(input: seq<Byte>): (r: Option<Parsed<Field>>)
    ensures r.Some? ==> |r.value.rest| < |input|
  {
    var level := GetLevel(input);
    if level.None? then None else
    var number := GetVarint64(level.value.rest);
    if number.None? then None else
    Some(Parsed(DeletedFile(level.value.value, number.value.value), number.value.rest))
  }

  function ParseComparator(input: seq<Byte>): (r: Option<Parsed<Field>>)
    ensures r.Some? ==> |r.value.rest| < |input|
  {
    var name := GetLengthPrefixed(input);
    if name.None? then None else Some(Parsed(Comparator(name.value.value), name.value.rest))
  }

  function ParseNumber(input: seq<Byte>, make: nat -> Field): (r: Option<Parsed<Field>>)
    ensures r.Some? ==> |r.value.rest| < |input|
  {
    var number := GetVarint64(input);
    if number.None? then None else Some(Parsed(make(number.value.value), number.value.rest))
  }

  predicate KnownTag(tag: nat) {
    1 <= tag <= 7 || tag == 9
  }

  /** The payload of a field whose tag has been read. */
  function ParsePayload(tag: nat, input: seq<Byte>): (r: Option<Parsed<Field>>)
    requires KnownTag(tag)
    ensures r.Some? ==> |r.value.rest| < |input|
  {
    match tag
    case 1 => ParseComparator(input)
    case 2 => ParseNumber(input, (n: nat) => LogNumber(n))
    case 3 => ParseNumber(input, (n: nat) => NextFileNumber(n))
    case 4 => ParseNumber(input, (n: nat) => LastSequence(n))
    case 5 => ParseCompactPointer(input)
    case 6 => ParseDeletedFile(input)
    case 7 => ParseNewFile(input)
    case _ => ParseNumber(input, (n: nat) => PrevLogNumber(n))
  }

  function Complaint(tag: nat): string {
    match tag
    case 1 => "comparator name"
    case 2 => "log number"
    case 3 => "next file number"
    case 4 => "last sequence number"
    case 5 => "compaction pointer"
    case 6 => "deleted file"
    case 7 => "new-file entry"
    case 9 => "previous log number"
    case _ => "unknown tag"
  }

  datatype Step = AtEnd | Refused(message: string) | Took(field: Field, rest: seq<Byte>)

  function Next(input: seq<Byte>): (r: Step)
    ensures r.Took? ==> |r.rest| < |input|
  {
    var tag := GetVarint32(input);
    if tag.None? then (if input == [] then AtEnd else Refused("invalid tag"))
    else if !KnownTag(tag.value.value) then Refused(Complaint(tag.value.value))
    else
      var f := ParsePayload(tag.value.value, tag.value.rest);
      if f.None? then Refused(Complaint(tag.value.value)) else Took(f.value.value, f.value.rest)
  }

  /** What one parsed field does to the edit. */
  function Absorb(e: Edit, f: Field): Edit {
    match f
    case Comparator(name) => e.(comparator := Some(name))
    case LogNumber(n) => e.(logNumber := Some(n))
    case PrevLogNumber(n) => e.(prevLogNumber := Some(n))
    case NextFileNumber(n) => e.(nextFileNumber := Some(n))
    case LastSequence(n) => e.(lastSequence := Some(n))
    case CompactPointer(level, key) => e.(compactPointers := e.compactPointers + [(level, key)])
    case DeletedFile(level, number) => e.(deletedFiles := Inserted(e.deletedFiles, (level, number)))
    case NewFile(level, file) => e.(newFiles := e.newFiles + [(level, file)])
  }

  function AbsorbAll(e: Edit, fs: seq<Field>): Edit {
    if fs == [] then e else Absorb(AbsorbAll(e, fs[..|fs| - 1]), fs[|fs| - 1])
  }

  /** Everything but the compaction pointers, which the source's `Clear` keeps. */
  function Cleared(e: Edit): Edit {
    Edit(None, None, None, None, None, e.compactPointers, [], [])
  }

  /** The parsing loop: fields are absorbed until the input ends or one is refused. */
  function ReadInto(e: Edit, input: seq<Byte>): (Edit, Status)
    decreases |input|
  {
    match Next(input)
    case AtEnd => (e, Good)
    case Refused(message) => (e, Corruption(message))
    case Took(field, rest) => ReadInto(Absorb(e, field), rest)
  }

  function Decoded(e: Edit, input: seq<Byte>): (Edit, Status) {
    ReadInto(Cleared(e), input)
  }

  function Numbers(e: Edit): seq<Field> {
    (if e.comparator.Some? then [Comparator(e.comparator.value)] else [])
    + (if e.logNumber.Some? then [LogNumber(e.logNumber.value)] else [])
    + (if e.prevLogNumber.Some? then [PrevLogNumber(e.prevLogNumber.value)] else [])
    + (if e.nextFileNumber.Some? then [NextFileNumber(e.nextFileNumber.value)] else [])
    + (if e.lastSequence.Some? then [LastSequence(e.lastSequence.value)] else [])
  }

  function Pointers(ps: seq<(nat, seq<Byte>)>): seq<Field> {
    seq(|ps|, i requires 0 <= i < |ps| => CompactPointer(ps[i].0, ps[i].1))
  }

  function Deletions(ds: seq<(nat, nat)>): seq<Field> {
    seq(|ds|, i requires 0 <= i < |ds| => DeletedFile(ds[i].0, ds[i].1))
  }

  function Additions(fs: seq<(nat, FileEntry)>): seq<Field> {
    seq(|fs|, i requires 0 <= i < |fs| => NewFile(fs[i].0, fs[i].1))
  }

  /** The fields of an edit in the order they are written. */
  function Fields(e: Edit): seq<Field> {
    Numbers(e) + Pointers(e.compactPointers) + Deletions(e.deletedFiles) + Additions(e.newFiles)
  }

  predicate AllFit(fs: seq<Field>) {
    forall i :: 0 <= i < |fs| ==> Fits(fs[i])
  }

  predicate AllKnown(fs: seq<Field>) {
    forall i :: 0 <= i < |fs| ==> Known(fs[i])
  }
}

/** Printing then parsing, for every edit. */
module VersionEditRoundTrip {
  import opened InternalKeys
  import opened LogFormat
  import opened Coding
  import opened VersionEditFields

  lemma Associate(x: seq<Byte>, y: seq<Byte>, z: seq<Byte>)
    ensures x + y + z == x + (y + z)
  {
  }

  lemma LevelReadsBack(level: nat, rest: seq<Byte>)
    requires level < TWO_32
    ensures GetLevel(Varint(level) + rest) == if level < NUM_LEVELS then Some(Parsed(level, rest)) else None
  {
    Varint32ReadsBack(level, rest);
  }

  lemma PointerReadsBack(f: Field, rest: seq<Byte>)
    requires Fits(f) && f.CompactPointer?
    ensures ParseCompactPointer(Payload(f) + rest) == if Known(f) then Some(Parsed(f, rest)) else None
  {
    assert Payload(f) + rest == Varint(f.level) + (LengthPrefixed(f.key) + rest);
    LevelReadsBack(f.level, LengthPrefixed(f.key) + rest);
    LengthPrefixedReadsBack(f.key, rest);
  }

  lemma DeletionReadsBack(f: Field, rest: seq<Byte>)
    requires Fits(f) && f.DeletedFile?
    ensures ParseDeletedFile(Payload(f) + rest) == if Known(f) then Some(Parsed(f, rest)) else None
  {
    assert Payload(f) + rest == Varint(f.level) + (Varint(f.number) + rest);
    LevelReadsBack(f.level, Varint(f.number) + rest);
    Varint64ReadsBack(f.number, rest);
  }

  lemma NewFileReadsBack(f: Field, rest: seq<Byte>)
    requires Fits(f) && f.NewFile?
    ensures ParseNewFile(Payload(f) + rest) == if Known(f) then Some(Parsed(f, rest)) else None
  {
    var g := f.file;
    var r4 := LengthPrefixed(g.largest) + rest;
    var r3 := LengthPrefixed(g.smallest) + r4;
    var r2 := Varint(g.fileSize) + r3;
    var r1 := Varint(g.number) + r2;
    assert Payload(f) + rest == Varint(f.level) + r1;
    LevelReadsBack(f.level, r1);
    Varint64ReadsBack(g.number, r2);
    Varint64ReadsBack(g.fileSize, r3);
    LengthPrefixedReadsBack(g.smallest, r4);
    LengthPrefixedReadsBack(g.largest, rest);
  }

  lemma PayloadReadsBack(f: Field, rest: seq<Byte>)
    requires Fits(f)
    ensures ParsePayload(TagOf(f), Payload(f) + rest) == if Known(f) then Some(Parsed(f, rest)) else None
  {
    hide Varint, LengthPrefixed, GetLengthPrefixed, GetVarint;
    match f
    case Comparator(name) => LengthPrefixedReadsBack(name, rest);
    case CompactPointer(_, _) => PointerReadsBack(f, rest);
    case DeletedFile(_, _) => DeletionReadsBack(f, rest);
    case NewFile(_, _) => NewFileReadsBack(f, rest);
    case LogNumber(n) => Varint64ReadsBack(n, rest);
    case PrevLogNumber(n) => Varint64ReadsBack(n, rest);
    case NextFileNumber(n) => Varint64ReadsBack(n, rest);
    case LastSequence(n) => Varint64ReadsBack(n, rest);
  }

  /** One printed field is read back whole; a level the store does not have is refused. */
  lemma FieldReadsBack(f: Field, rest: seq<Byte>)
    requires Fits(f)
    ensures Next(Printed(f) + rest) == if Known(f) then Took(f, rest) else Refused(Complaint(TagOf(f)))
  {
    Associate(Varint(TagOf(f)), Payload(f), rest);
    Varint32ReadsBack(TagOf(f), Payload(f) + rest);
    PayloadReadsBack(f, rest);
  }

  lemma {:induction false} ReadsPrefix(e: Edit, fs: seq<Field>, rest: seq<Byte>)
    requires AllFit(fs) && AllKnown(fs)
    ensures ReadInto(e, PrintedAll(fs) + rest) == ReadInto(AbsorbAll(e, fs), rest)
    decreases |fs|
  {
    if fs == [] {
      assert PrintedAll(fs) + rest == rest;
    } else {
      var init, last := fs[..|fs| - 1], fs[|fs| - 1];
      assert PrintedAll(fs) + rest == PrintedAll(init) + (Printed(last) + rest);
      ReadsPrefix(e, init, Printed(last) + rest);
      FieldReadsBack(last, rest);
    }
  }

  lemma PrintedGrows(fs: seq<Field>, f: Field)
    ensures PrintedAll(fs + [f]) == PrintedAll(fs) + Printed(f)
  {
    assert (fs + [f])[..|fs|] == fs;
  }

  lemma ConcatStep(a: seq<Field>, c: seq<Field>, f: Field)
    requires PrintedAll(a + c) == PrintedAll(a) + PrintedAll(c)
    ensures PrintedAll(a + (c + [f])) == PrintedAll(a) + PrintedAll(c + [f])
  {
    PrintedGrows(c, f);
    PrintedGrows(a + c, f);
    assert a + c + [f] == a + (c + [f]);
    Associate(PrintedAll(a), PrintedAll(c), Printed(f));
  }

  lemma Unsnoc(b: seq<Field>)
    requires b != []
    ensures b[..|b| - 1] + [b[|b| - 1]] == b
  {
  }

  lemma {:induction false} PrintedConcat(a: seq<Field>, b: seq<Field>)
    ensures PrintedAll(a + b) == PrintedAll(a) + PrintedAll(b)
    decreases |b|
  {
    if b == [] {
      assert a + b == a;
    } else {
      var c, last := b[..|b| - 1], b[|b| - 1];
      PrintedConcat(a, c);
      ConcatStep(a, c, last);
      Unsnoc(b);
    }
  }

  /** Any printed list of fields, in any order and with any repetitions, is absorbed field by field;
      one field with an unknown level stops the reading there. */
  lemma {:induction false} FieldsReadBack(e: Edit, fs: seq<Field>)
    requires AllFit(fs)
    ensures AllKnown(fs) ==> ReadInto(e, PrintedAll(fs)) == (AbsorbAll(e, fs), Good)
    ensures !AllKnown(fs) ==> ReadInto(e, PrintedAll(fs)).1.Corruption?
  {
    if AllKnown(fs) {
      assert PrintedAll(fs) + [] == PrintedAll(fs);
      ReadsPrefix(e, fs, []);
    } else {
      var k := FirstUnknown(fs);
      var tail := fs[k + 1..];
      assert fs == fs[..k] + ([fs[k]] + tail);
      PrintedConcat(fs[..k], [fs[k]] + tail);
      PrintedConcat([fs[k]], tail);
      assert PrintedAll([fs[k]]) == Printed(fs[k]);
      ReadsPrefix(e, fs[..k], Printed(fs[k]) + PrintedAll(tail));
      FieldReadsBack(fs[k], PrintedAll(tail));
    }
  }

  function FirstUnknown(fs: seq<Field>): (k: nat)
    requires !AllKnown(fs)
    ensures k < |fs| && !Known(fs[k]) && AllKnown(fs[..k])
  {
    if !AllKnown(fs[..|fs| - 1]) then FirstUnknown(fs[..|fs| - 1]) else |fs| - 1
  }

  lemma {:induction false} AbsorbConcat(e: Edit, a: seq<Field>, b: seq<Field>)
    ensures AbsorbAll(e, a + b) == AbsorbAll(AbsorbAll(e, a), b)
    decreases |b|
  {
    if b == [] {
      assert a + b == a;
    } else {
      var c, last := b[..|b| - 1], b[|b| - 1];
      assert (a + b)[..|a + b| - 1] == a + c && (a + b)[|a + b| - 1] == last;
      AbsorbConcat(e, a, c);
    }
  }

  lemma AbsorbNumbers(e: Edit, into: Edit)
    requires into.comparator.None? && into.logNumber.None?
    requires into.prevLogNumber.None? && into.nextFileNumber.None? && into.lastSequence.None?
    ensures AbsorbAll(into, Numbers(e)) ==
            e.(compactPointers := into.compactPointers, deletedFiles := into.deletedFiles, newFiles := into.newFiles)
  {
    var a := if e.comparator.Some? then [Comparator(e.comparator.value)] else [];
    var b := if e.logNumber.Some? then [LogNumber(e.logNumber.value)] else [];
    var c := if e.prevLogNumber.Some? then [PrevLogNumber(e.prevLogNumber.value)] else [];
    var d := if e.nextFileNumber.Some? then [NextFileNumber(e.nextFileNumber.value)] else [];
    var f := if e.lastSequence.Some? then [LastSequence(e.lastSequence.value)] else [];
    AbsorbConcat(into, a + b + c + d, f);
    AbsorbConcat(into, a + b + c, d);
    AbsorbConcat(into, a + b, c);
    AbsorbConcat(into, a, b);
  }

  lemma {:induction false} AbsorbPointers(e: Edit, ps: seq<(nat, seq<Byte>)>)
    ensures AbsorbAll(e, Pointers(ps)) == e.(compactPointers := e.compactPointers + ps)
    decreases |ps|
  {
    if ps == [] {
      assert Pointers(ps) == [] && e.compactPointers + ps == e.compactPointers;
    } else {
      var init := ps[..|ps| - 1];
      assert Pointers(ps)[..|ps| - 1] == Pointers(init);
      AbsorbPointers(e, init);
      assert e.compactPointers + ps == e.compactPointers + init + [ps[|ps| - 1]];
    }
  }

  lemma {:induction false} AbsorbAdditions(e: Edit, fs: seq<(nat, FileEntry)>)
    ensures AbsorbAll(e, Additions(fs)) == e.(newFiles := e.newFiles + fs)
    decreases |fs|
  {
    if fs == [] {
      assert Additions(fs) == [] && e.newFiles + fs == e.newFiles;
    } else {
      var init := fs[..|fs| - 1];
      assert Additions(fs)[..|fs| - 1] == Additions(init);
      AbsorbAdditions(e, init);
      assert e.newFiles + fs == e.newFiles + init + [fs[|fs| - 1]];
    }
  }

  lemma {:induction false} AbsorbDeletions(e: Edit, ds: seq<(nat, nat)>)
    requires e.deletedFiles == [] && Ascending(ds)
    ensures AbsorbAll(e, Deletions(ds)) == e.(deletedFiles := ds)
    decreases |ds|
  {
    if ds == [] {
      assert Deletions(ds) == [];
    } else {
      var init, last := ds[..|ds| - 1], ds[|ds| - 1];
      assert Deletions(ds)[..|ds| - 1] == Deletions(init);
      AbsorbDeletions(e, init);
      LargestGoesLast(init, last);
      assert ds == init + [last];
    }
  }

  /** Absorbing an edit's own fields rebuilds it, apart from pointers that were there before. */
  lemma FieldsRebuild(e: Edit, into: Edit)
    requires Ascending(e.deletedFiles)
    ensures AbsorbAll(Cleared(into), Fields(e)) == e.(compactPointers := into.compactPointers + e.compactPointers)
  {
    var c := Cleared(into);
    var n, p, d, a := Numbers(e), Pointers(e.compactPointers), Deletions(e.deletedFiles), Additions(e.newFiles);
    AbsorbConcat(c, n + p + d, a);
    AbsorbConcat(c, n + p, d);
    AbsorbConcat(c, n, p);
    AbsorbNumbers(e, c);
    var s1 := AbsorbAll(c, n);
    AbsorbPointers(s1, e.compactPointers);
    var s2 := AbsorbAll(s1, p);
    AbsorbDeletions(s2, e.deletedFiles);
    AbsorbAdditions(AbsorbAll(s2, d), e.newFiles);
  }

  /** The manifest's round trip. Reading an edit's bytes into any edit object gives the written edit
      back, with the object's earlier compaction pointers still in front; and it succeeds exactly
      when every level written is one the store has. */
  lemma EditRoundTrip(e: Edit, into: Edit)
    requires Ascending(e.deletedFiles) && AllFit(Fields(e))
    ensures Decoded(into, PrintedAll(Fields(e))).1.Good? <==> AllKnown(Fields(e))
    ensures AllKnown(Fields(e)) ==>
              Decoded(into, PrintedAll(Fields(e))) ==
              (e.(compactPointers := into.compactPointers + e.compactPointers), Good)
  {
    FieldsReadBack(Cleared(into), Fields(e));
    FieldsRebuild(e, into);
  }

  /** The bytes give the very same edit exactly when the object read into held no pointers. */
  lemma ReadsSameEditIff(e: Edit, into: Edit)
    requires Ascending(e.deletedFiles) && AllFit(Fields(e)) && AllKnown(Fields(e))
    ensures Decoded(into, PrintedAll(Fields(e))).0 == e <==> into.compactPointers == []
  {
    EditRoundTrip(e, into);
    var both := into.compactPointers + e.compactPointers;
    assert |both| == |into.compactPointers| + |e.compactPointers|;
    assert into.compactPointers == [] ==> both == e.compactPointers;
  }

  /** An edit that fits the widths of the source and names levels the store has. */
  predicate Storable(e: Edit) {
    Ascending(e.deletedFiles) && AllFit(Fields(e)) && AllKnown(Fields(e))
  }

  predicate Sound(f: Field) {
    Fits(f) && Known(f)
  }

  predicate NumbersFit(e: Edit) {
    && (e.comparator.Some? ==> |e.comparator.value| < TWO_32)
    && (e.logNumber.Some? ==> e.logNumber.value < TWO_64)
    && (e.prevLogNumber.Some? ==> e.prevLogNumber.value < TWO_64)
    && (e.nextFileNumber.Some? ==> e.nextFileNumber.value < TWO_64)
    && (e.lastSequence.Some? ==> e.lastSequence.value < TWO_64)
  }

  lemma NumbersAreSound(e: Edit, f: Field)
    requires NumbersFit(e) && f in Numbers(e)
    ensures Sound(f)
  {
  }

  /** `Storable`, one component at a time. */
  predicate StorableParts(e: Edit) {
    && Ascending(e.deletedFiles)
    && NumbersFit(e)
    && (forall p :: p in e.compactPointers ==> Sound(CompactPointer(p.0, p.1)))
    && (forall p :: p in e.deletedFiles ==> Sound(DeletedFile(p.0, p.1)))
    && (forall p :: p in e.newFiles ==> Sound(NewFile(p.0, p.1)))
  }

  lemma PartsAreStorable(e: Edit)
    requires StorableParts(e)
    ensures Storable(e)
  {
    var n, p, d, a := Numbers(e), Pointers(e.compactPointers), Deletions(e.deletedFiles), Additions(e.newFiles);
    forall i | 0 <= i < |Fields(e)| ensures Sound(Fields(e)[i]) {
      if i < |n| {
        assert Fields(e)[i] == n[i];
        NumbersAreSound(e, n[i]);
      } else if i < |n + p| {
        assert Fields(e)[i] == p[i - |n|] && e.compactPointers[i - |n|] in e.compactPointers;
      } else if i < |n + p + d| {
        assert Fields(e)[i] == d[i - |n + p|] && e.deletedFiles[i - |n + p|] in e.deletedFiles;
      } else {
        assert Fields(e)[i] == a[i - |n + p + d|] && e.newFiles[i - |n + p + d|] in e.newFiles;
      }
    }
  }

  /** A field the parser takes can be written again. */
  lemma TakenIsSound(input: seq<Byte>)
    requires |input| < TWO_32 && Next(input).Took?
    ensures Sound(Next(input).field)
  {
  }

  lemma AbsorbKeepsStorable(e: Edit, f: Field)
    requires StorableParts(e) && Sound(f)
    ensures StorableParts(Absorb(e, f))
  {
    if f.DeletedFile? {
      InsertedIsSet(e.deletedFiles, (f.level, f.number));
    }
  }

  lemma {:induction false} ReadKeepsStorable(e: Edit, input: seq<Byte>)
    requires |input| < TWO_32 && StorableParts(e)
    ensures StorableParts(ReadInto(e, input).0)
    decreases |input|
  {
    if Next(input).Took? {
      TakenIsSound(input);
      AbsorbKeepsStorable(e, Next(input).field);
      ReadKeepsStorable(Absorb(e, Next(input).field), Next(input).rest);
    }
  }

  /** Whatever bytes were read, well formed or not, the edit they left behind is written and read
      back as itself. */
  lemma ReadEditsCanBeRewritten(input: seq<Byte>)
    requires |input| < TWO_32
    ensures var blank := Edit(None, None, None, None, None, [], [], []);
            var e := Decoded(blank, input).0;
            Decoded(blank, PrintedAll(Fields(e))) == (e, Good)
  {
    var blank := Edit(None, None, None, None, None, [], [], []);
    var e := Decoded(blank, input).0;
    ReadKeepsStorable(blank, input);
    PartsAreStorable(e);
    EditRoundTrip(e, blank);
    assert [] + e.compactPointers == e.compactPointers;
  }
}

/** The edit object: its bytes, and the loop that reads bytes back. */
module VersionEdits {
  import opened InternalKeys
  import opened LogFormat
  import opened Coding
  import opened VersionEditFields
  import opened VersionEditRoundTrip

  class VersionEdit {
    var comparator: Option<seq<Byte>>
    var logNumber: Option<nat>
    var prevLogNumber: Option<nat>
    var nextFileNumber: Option<nat>
    var lastSequence: Option<nat>
    var compactPointers: seq<(nat, seq<Byte>)>
    var deletedFiles: seq<(nat, nat)>
    var newFiles: seq<(nat, FileEntry)>

    ghost function View(): Edit
      reads this
    {
      Edit(comparator, logNumber, prevLogNumber, nextFileNumber, lastSequence, compactPointers, deletedFiles,
           newFiles)
    }

    constructor ()
      ensures View() == Edit(None, None, None, None, None, [], [], [])
    {
      comparator, logNumber, prevLogNumber, nextFileNumber, lastSequence := None, None, None, None, None;
      compactPointers, deletedFiles, newFiles := [], [], [];
    }

    method Clear()
      modifies this
      ensures View() == Cleared(old(View()))
    {
      comparator, logNumber, prevLogNumber, nextFileNumber, lastSequence := None, None, None, None, None;
      deletedFiles, newFiles := [], [];
    }

    /** Appends the edit's fields, each a tag and its payload, in the source's order. */
    method EncodeTo(dst: seq<Byte>) returns (bytes: seq<Byte>)
      ensures bytes == dst + PrintedAll(Fields(View()))
    {
      var numbers := EncodeNumbers();
      var pointers := EncodePointers();
      var deletions := EncodeDeletions();
      var additions := EncodeAdditions();
      FieldsPrinted(View());
      bytes := dst + (numbers + pointers + deletions + additions);
    }

    method EncodeNumbers() returns (out: seq<Byte>)
      ensures out == PrintedAll(Numbers(View()))
    {
      out := if comparator.Some? then Varint(1) + LengthPrefixed(comparator.value) else [];
      out := out + PutNumber(2, logNumber);
      out := out + PutNumber(9, prevLogNumber);
      out := out + PutNumber(3, nextFileNumber);
      out := out + PutNumber(4, lastSequence);
      NumbersPrinted(View());
    }

    method EncodePointers() returns (out: seq<Byte>)
      ensures out == PrintedAll(Pointers(compactPointers))
    {
      out := [];
      var i := 0;
      while i < |compactPointers|
        invariant 0 <= i <= |compactPointers|
        invariant out == PrintedAll(Pointers(compactPointers[..i]))
      {
        var (level, key) := compactPointers[i];
        PointersGrow(compactPointers, i);
        out := out + (Varint(5) + (Varint(level) + LengthPrefixed(key)));
        i := i + 1;
      }
      assert compactPointers[..i] == compactPointers;
    }

    method EncodeDeletions() returns (out: seq<Byte>)
      ensures out == PrintedAll(Deletions(deletedFiles))
    {
      out := [];
      var i := 0;
      while i < |deletedFiles|
        invariant 0 <= i <= |deletedFiles|
        invariant out == PrintedAll(Deletions(deletedFiles[..i]))
      {
        var (level, number) := deletedFiles[i];
        DeletionsGrow(deletedFiles, i);
        out := out + (Varint(6) + (Varint(level) + Varint(number)));
        i := i + 1;
      }
      assert deletedFiles[..i] == deletedFiles;
    }

    method EncodeAdditions() returns (out: seq<Byte>)
      ensures out == PrintedAll(Additions(newFiles))
    {
      out := [];
      var i := 0;
      while i < |newFiles|
        invariant 0 <= i <= |newFiles|
        invariant out == PrintedAll(Additions(newFiles[..i]))
      {
        var (level, f) := newFiles[i];
        AdditionsGrow(newFiles, i);
        out := out + (Varint(7) + (Varint(level) + Varint(f.number) + Varint(f.fileSize)
                                   + LengthPrefixed(f.smallest) + LengthPrefixed(f.largest)));
        i := i + 1;
      }
      assert newFiles[..i] == newFiles;
    }

    /** Parses the bytes field by field; the first field refused is reported, and the edit keeps what
        came before it. */
    method DecodeFrom(src: seq<Byte>) returns (status: Status)
      modifies this
      ensures (View(), status) == Decoded(old(View()), src)
    {
      Clear();
      var input := src;
      status := Good;
      var reading := true;
      while reading
        invariant reading ==> status.Good? && ReadInto(View(), input) == Decoded(old(View()), src)
        invariant !reading ==> (View(), status) == Decoded(old(View()), src)
        decreases |input|, reading
      {
        var step := Next(input);
        match step
        case AtEnd => reading := false;
        case Refused(message) => status, reading := Corruption(message), false;
        case Took(field, rest) =>
          Take(field);
          input := rest;
      }
    }

    /** Stores one parsed field. */
    method Take(field: Field)
      modifies this
      ensures View() == Absorb(old(View()), field)
    {
      match field
      case Comparator(name) => comparator := Some(name);
      case LogNumber(n) => logNumber := Some(n);
      case PrevLogNumber(n) => prevLogNumber := Some(n);
      case NextFileNumber(n) => nextFileNumber := Some(n);
      case LastSequence(n) => lastSequence := Some(n);
      case CompactPointer(level, key) => compactPointers := compactPointers + [(level, key)];
      case DeletedFile(level, number) => deletedFiles := Inserted(deletedFiles, (level, number));
      case NewFile(level, file) => newFiles := newFiles + [(level, file)];
    }
  }

  lemma PointersSnoc(ps: seq<(nat, seq<Byte>)>, i: nat)
    requires i < |ps|
    ensures Pointers(ps[..i + 1]) == Pointers(ps[..i]) + [CompactPointer(ps[i].0, ps[i].1)]
  {
  }

  lemma PointersGrow(ps: seq<(nat, seq<Byte>)>, i: nat)
    requires i < |ps|
    ensures PrintedAll(Pointers(ps[..i + 1])) ==
            PrintedAll(Pointers(ps[..i])) + (Varint(5) + (Varint(ps[i].0) + LengthPrefixed(ps[i].1)))
  {
    PointersSnoc(ps, i);
    PrintedGrows(Pointers(ps[..i]), CompactPointer(ps[i].0, ps[i].1));
  }

  lemma DeletionsSnoc(ds: seq<(nat, nat)>, i: nat)
    requires i < |ds|
    ensures Deletions(ds[..i + 1]) == Deletions(ds[..i]) + [DeletedFile(ds[i].0, ds[i].1)]
  {
  }

  lemma DeletionsGrow(ds: seq<(nat, nat)>, i: nat)
    requires i < |ds|
    ensures PrintedAll(Deletions(ds[..i + 1])) ==
            PrintedAll(Deletions(ds[..i])) + (Varint(6) + (Varint(ds[i].0) + Varint(ds[i].1)))
  {
    DeletionsSnoc(ds, i);
    PrintedGrows(Deletions(ds[..i]), DeletedFile(ds[i].0, ds[i].1));
  }

  lemma AdditionsSnoc(fs: seq<(nat, FileEntry)>, i: nat)
    requires i < |fs|
    ensures Additions(fs[..i + 1]) == Additions(fs[..i]) + [NewFile(fs[i].0, fs[i].1)]
  {
  }

  lemma AdditionsGrow(fs: seq<(nat, FileEntry)>, i: nat)
    requires i < |fs|
    ensures PrintedAll(Additions(fs[..i + 1])) ==
            PrintedAll(Additions(fs[..i])) + Printed(NewFile(fs[i].0, fs[i].1))
  {
    AdditionsSnoc(fs, i);
    PrintedGrows(Additions(fs[..i]), NewFile(fs[i].0, fs[i].1));
  }

  function PutNumber(tag: nat, n: Option<nat>): seq<Byte> {
    if n.Some? then Varint(tag) + Varint(n.value) else []
  }

  lemma PrintedOne(f: Field)
    ensures PrintedAll([f]) == Printed(f)
  {
    PrintedGrows([], f);
  }

  lemma NumbersPrinted(e: Edit)
    ensures PrintedAll(Numbers(e)) ==
            (if e.comparator.Some? then Varint(1) + LengthPrefixed(e.comparator.value) else [])
            + PutNumber(2, e.logNumber) + PutNumber(9, e.prevLogNumber) + PutNumber(3, e.nextFileNumber)
            + PutNumber(4, e.lastSequence)
  {
    var a := if e.comparator.Some? then [Comparator(e.comparator.value)] else [];
    var b := if e.logNumber.Some? then [LogNumber(e.logNumber.value)] else [];
    var c := if e.prevLogNumber.Some? then [PrevLogNumber(e.prevLogNumber.value)] else [];
    var d := if e.nextFileNumber.Some? then [NextFileNumber(e.nextFileNumber.value)] else [];
    var f := if e.lastSequence.Some? then [LastSequence(e.lastSequence.value)] else [];
    FivePrinted(a, b, c, d, f);
    if e.comparator.Some? { PrintedOne(Comparator(e.comparator.value)); }
    if e.logNumber.Some? { PrintedOne(LogNumber(e.logNumber.value)); }
    if e.prevLogNumber.Some? { PrintedOne(PrevLogNumber(e.prevLogNumber.value)); }
    if e.nextFileNumber.Some? { PrintedOne(NextFileNumber(e.nextFileNumber.value)); }
    if e.lastSequence.Some? { PrintedOne(LastSequence(e.lastSequence.value)); }
  }

  lemma FivePrinted(a: seq<Field>, b: seq<Field>, c: seq<Field>, d: seq<Field>, f: seq<Field>)
    ensures PrintedAll(a + b + c + d + f)
            == PrintedAll(a) + PrintedAll(b) + PrintedAll(c) + PrintedAll(d) + PrintedAll(f)
  {
    PrintedConcat(a, b);
    PrintedConcat(a + b, c);
    PrintedConcat(a + b + c, d);
    PrintedConcat(a + b + c + d, f);
  }

  lemma FieldsPrinted(e: Edit)
    ensures PrintedAll(Fields(e)) == PrintedAll(Numbers(e)) + PrintedAll(Pointers(e.compactPointers))
                                     + PrintedAll(Deletions(e.deletedFiles)) + PrintedAll(Additions(e.newFiles))
  {
    var n, p, d, a := Numbers(e), Pointers(e.compactPointers), Deletions(e.deletedFiles), Additions(e.newFiles);
    PrintedConcat(n, p);
    PrintedConcat(n + p, d);
    PrintedConcat(n + p + d, a);
  }
}
