/** Tables, levels and point lookups (db/version_set.cc). */
module Versions {
  import opened InternalKeys
  import opened FlatSpec

  datatype TableFile = TableFile(number: nat, size: nat, entries: seq<Entry>)

  predicate WfTable(f: TableFile) {
    f.entries != [] && Sorted(f.entries)
  }

  /** A table with its metadata: a table is never empty and is strictly sorted. */
  type File = f: TableFile | WfTable(f)
    witness TableFile(0, 0, [Entry(InternalKey(0, 0, Value), "")])

  function Smallest(f: File): InternalKey {
    f.entries[0].ikey
  }

  function Largest(f: File): InternalKey {
    f.entries[|f.entries| - 1].ikey
  }

  /** The user-key range test every overlap decision is made of. */
  predicate Covers(f: File, k: UserKey) {
    Smallest(f).user <= k <= Largest(f).user
  }

  lemma EntryInRange(f: File, e: Entry)
    requires e in f.entries
    ensures !Less(e.ikey, Smallest(f)) && !Less(Largest(f), e.ikey) && Covers(f, e.ikey.user)
  {
    var i :| 0 <= i < |f.entries| && f.entries[i] == e;
    assert i > 0 ==> Less(f.entries[0].ikey, f.entries[i].ikey);
    assert i < |f.entries| - 1 ==> Less(f.entries[i].ikey, f.entries[|f.entries| - 1].ikey);
  }

  function TotalFileSize(fs: seq<File>): nat {
    if fs == [] then 0 else TotalFileSize(fs[..|fs|-1]) + fs[|fs|-1].size
  }

  function Files(fs: seq<File>): set<File> {
    set f | f in fs
  }

  function Contents(fs: set<File>): set<Entry> {
    set f, e | f in fs && e in f.entries :: e
  }

  /** A level above 0: strictly ascending, disjoint internal-key ranges. */
  predicate LevelSorted(fs: seq<File>) {
    forall i, j :: 0 <= i < j < |fs| ==> Less(Largest(fs[i]), Smallest(fs[j]))
  }

  /** Level 0: where two files share a user key, the higher number is newer. */
  ghost predicate NumberOrdered(fs: set<File>) {
    forall f, g :: f in fs && g in fs && f != g ==>
      f.number != g.number &&
      (f.number > g.number ==> NewerThan(Elems(f.entries), Elems(g.entries)))
  }

  ghost function DeepContents(files: seq<seq<File>>, from: nat): set<Entry>
    requires from <= |files|
    decreases |files| - from
  {
    if from == |files| then {} else Contents(Files(files[from])) + DeepContents(files, from + 1)
  }

  ghost predicate WfVersion(files: seq<seq<File>>) {
    && |files| == NUM_LEVELS
    && NumberOrdered(Files(files[0]))
    && (forall l :: 0 < l < |files| ==> LevelSorted(files[l]))
    && (forall l, m :: 0 <= l < m < |files| ==>
         NewerThan(Contents(Files(files[l])), Contents(Files(files[m]))))
    && UniqueSeq(DeepContents(files, 0))
  }

  lemma {:induction false} DeepContainsLevel(files: seq<seq<File>>, from: nat, l: nat)
    requires from <= l < |files|
    ensures Contents(Files(files[l])) <= DeepContents(files, from)
    decreases l - from
  {
    if from < l { DeepContainsLevel(files, from + 1, l); }
  }

  lemma {:induction false} DeepMember(files: seq<seq<File>>, from: nat, e: Entry)
    requires from <= |files| && e in DeepContents(files, from)
    ensures exists l :: from <= l < |files| && e in Contents(Files(files[l]))
    decreases |files| - from
  {
    if e !in Contents(Files(files[from])) { DeepMember(files, from + 1, e); }
  }

  lemma LevelAboveDeep(files: seq<seq<File>>, l: nat)
    requires WfVersion(files) && l < |files|
    ensures NewerThan(Contents(Files(files[l])), DeepContents(files, l + 1))
    ensures UniqueSeq(DeepContents(files, l))
  {
    forall a, e | a in Contents(Files(files[l])) && e in DeepContents(files, l + 1) && a.ikey.user == e.ikey.user
      ensures a.ikey.seqno > e.ikey.seqno
    {
      DeepMember(files, l + 1, e);
    }
    forall e | e in DeepContents(files, l) ensures e in DeepContents(files, 0) {
      DeepMember(files, l, e);
      var m :| l <= m < |files| && e in Contents(Files(files[m]));
      DeepContainsLevel(files, 0, m);
    }
  }

  // ---------- searching one table ----------

  /** Table search: the index of the first entry at or after the key. */
  function FirstAtOrAfter(es: seq<Entry>, key: InternalKey): (i: nat)
    ensures i <= |es|
    ensures forall j :: 0 <= j < i ==> Less(es[j].ikey, key)
    ensures i < |es| ==> !Less(es[i].ikey, key)
  {
    if es == [] || !Less(es[0].ikey, key) then 0 else 1 + FirstAtOrAfter(es[1..], key)
  }

  datatype SaverState = Missed | Hit(e: Entry)

  /** Table probe followed by the SaveValue callback: a hit needs the same user key. */
  function Probe(es: seq<Entry>, k: UserKey, s: nat): SaverState {
    var i := FirstAtOrAfter(es, SeekKey(k, s));
    if i < |es| && es[i].ikey.user == k then Hit(es[i]) else Missed
  }

  lemma ProbeFindsNewest(es: seq<Entry>, k: UserKey, s: nat)
    requires Sorted(es)
    ensures Probe(es, k, s).Hit? ==> IsNewest(Elems(es), k, s, Probe(es, k, s).e)
    ensures Probe(es, k, s).Missed? ==> Absent(Elems(es), k, s)
  {
    var i := FirstAtOrAfter(es, SeekKey(k, s));
    forall j | 0 <= j < |es| && Sees(es[j], k, s)
      ensures i <= j && es[i].ikey.user == k && es[j].ikey.seqno <= es[i].ikey.seqno
    {
      SeekKeySplits(es[j].ikey, k, s);
      assert i <= j;
      SeekKeySplits(es[i].ikey, k, s);
      if i < j { assert Less(es[i].ikey, es[j].ikey); }
    }
    if i < |es| { SeekKeySplits(es[i].ikey, k, s); }
  }

  // ---------- searching one level ----------

  /** Where halving the range between `left` and `right` ends up, in whatever order the files are. */
  function Bisect(files: seq<File>, key: InternalKey, left: nat, right: nat): (index: nat)
    requires left <= right <= |files|
    ensures left <= index <= right
    decreases right - left
  {
    if left == right then right
    else
      var mid := (left + right) / 2;
      if Less(Largest(files[mid]), key) then Bisect(files, key, mid + 1, right) else Bisect(files, key, left, mid)
  }

  lemma {:induction false} BisectFindsFirst(files: seq<File>, key: InternalKey, left: nat, right: nat)
    requires LevelSorted(files) && left <= right <= |files|
    requires forall i :: 0 <= i < left ==> Less(Largest(files[i]), key)
    requires forall i :: right <= i < |files| ==> !Less(Largest(files[i]), key)
    ensures var index := Bisect(files, key, left, right);
            && (forall i :: 0 <= i < index ==> Less(Largest(files[i]), key))
            && (forall i :: index <= i < |files| ==> !Less(Largest(files[i]), key))
    decreases right - left
  {
    if left < right {
      var mid := (left + right) / 2;
      if Less(Largest(files[mid]), key) {
        forall i | 0 <= i < mid ensures Less(Largest(files[i]), key) {
          LargestAscend(files, i, mid);
          LessTransitive(Largest(files[i]), Largest(files[mid]), key);
        }
        BisectFindsFirst(files, key, mid + 1, right);
      } else {
        forall i | mid < i < |files| ensures !Less(Largest(files[i]), key) {
          LargestAscend(files, mid, i);
          if Less(Largest(files[i]), key) {
            LessTransitive(Largest(files[mid]), Largest(files[i]), key);
          }
        }
        BisectFindsFirst(files, key, left, mid);
      }
    }
  }

  /** Binary search for the first file whose largest key is at or after `key`. */
  method FindFile(files: seq<File>, key: InternalKey) returns (index: nat)
    ensures index == Bisect(files, key, 0, |files|)
    ensures LevelSorted(files) ==> forall i :: 0 <= i < index ==> Less(Largest(files[i]), key)
    ensures LevelSorted(files) ==> forall i :: index <= i < |files| ==> !Less(Largest(files[i]), key)
  {
    var left, right := 0, |files|;
    while left < right
      invariant 0 <= left <= right <= |files|
      invariant Bisect(files, key, 0, |files|) == Bisect(files, key, left, right)
    {
      var mid := (left + right) / 2;
      if Less(Largest(files[mid]), key) {
        left := mid + 1;
      } else {
        right := mid;
      }
    }
    index := right;
    if LevelSorted(files) {
      BisectFindsFirst(files, key, 0, |files|);
    }
  }

  lemma SmallestToLargest(f: File)
    ensures Less(Smallest(f), Largest(f)) || Smallest(f) == Largest(f)
  {
    if |f.entries| > 1 { assert Less(f.entries[0].ikey, f.entries[|f.entries| - 1].ikey); }
  }

  lemma LargestAscend(files: seq<File>, i: nat, j: nat)
    requires LevelSorted(files) && i < j < |files|
    ensures Less(Largest(files[i]), Largest(files[j]))
  {
    SmallestToLargest(files[j]);
    assert Less(Largest(files[i]), Smallest(files[j]));
  }

  /** In a sorted level only the file found by the binary search can hold a visible entry. */
  lemma OnlyFoundFileCanHit(files: seq<File>, k: UserKey, s: nat, index: nat, e: Entry)
    requires LevelSorted(files) && index <= |files|
    requires forall i :: 0 <= i < index ==> Less(Largest(files[i]), SeekKey(k, s))
    requires index < |files| ==> !Less(Largest(files[index]), SeekKey(k, s))
    requires e in Contents(Files(files)) && Sees(e, k, s)
    ensures index < |files| && Covers(files[index], k) && Probe(files[index].entries, k, s).Hit?
    ensures e.ikey.seqno <= Probe(files[index].entries, k, s).e.ikey.seqno
  {
    var j :| 0 <= j < |files| && e in files[j].entries;
    EntryInRange(files[j], e);
    SeekKeySplits(e.ikey, k, s);
    CompareIsLexicographic(e.ikey, Largest(files[j]));
    if j < index {
      SeekKeySplits(Largest(files[j]), k, s);
    } else {
      ProbeFindsNewest(files[index].entries, k, s);
      if index < j {
        SeekKeySplits(Largest(files[index]), k, s);
        CompareIsLexicographic(Largest(files[index]), Smallest(files[j]));
        CompareIsLexicographic(Smallest(files[j]), e.ikey);
        EntryInRange(files[index], files[index].entries[|files[index].entries| - 1]);
        assert files[index].entries[|files[index].entries| - 1] in Elems(files[index].entries);
      }
    }
  }

  predicate NumbersDescend(fs: seq<File>) {
    forall i, j :: 0 <= i < j < |fs| ==> fs[i].number >= fs[j].number
  }

  /** std::sort with NewestFirst. */
  function SortNewestFirst(fs: seq<File>): (r: seq<File>)
    ensures |r| == |fs| && NumbersDescend(r)
    ensures forall f :: f in r <==> f in fs
  {
    if fs == [] then []
    else
      assert forall f :: f in fs <==> f == fs[0] || f in fs[1..];
      InsertNewestFirst(fs[0], SortNewestFirst(fs[1..]))
  }

  function InsertNewestFirst(f: File, fs: seq<File>): (r: seq<File>)
    requires NumbersDescend(fs)
    ensures |r| == |fs| + 1 && NumbersDescend(r)
    ensures forall g :: g in r <==> g == f || g in fs
  {
    if fs == [] || f.number >= fs[0].number then [f] + fs
    else
      var t := InsertNewestFirst(f, fs[1..]);
      assert forall g :: g in fs[1..] ==> g.number <= fs[0].number;
      assert forall g :: g in fs <==> g == fs[0] || g in fs[1..];
      assert forall i :: 0 <= i < |t| ==> t[i] in t;
      [fs[0]] + t
  }

  /** One level's answer: the newest visible entry of the level, probing level 0
      files from the highest number down and a single file of any deeper level. */
  method SearchLevel(level: nat, files: seq<File>, k: UserKey, s: nat) returns (r: SaverState)
    requires level == 0 ==> NumberOrdered(Files(files))
    requires level > 0 ==> LevelSorted(files)
    ensures r.Hit? ==> IsNewest(Contents(Files(files)), k, s, r.e)
    ensures r.Missed? ==> Absent(Contents(Files(files)), k, s)
  {
    if level == 0 {
      var candidates: seq<File> := [];
      var i := 0;
      while i < |files|
        invariant 0 <= i <= |files|
        invariant forall f :: f in candidates <==> f in files[..i] && Covers(f, k)
      {
        var f := files[i];
        if k >= Smallest(f).user && k <= Largest(f).user {
          candidates := candidates + [f];
        }
        i := i + 1;
      }
      r := ProbeNewestFirst(files, SortNewestFirst(candidates), k, s);
    } else {
      var index := FindFile(files, SeekKey(k, s));
      r := Missed;
      if index < |files| && !(k < Smallest(files[index]).user) {
        r := Probe(files[index].entries, k, s);
        ProbeFindsNewest(files[index].entries, k, s);
      }
      forall e | e in Contents(Files(files)) && Sees(e, k, s)
        ensures r.Hit? && e.ikey.seqno <= r.e.ikey.seqno
      {
        OnlyFoundFileCanHit(files, k, s, index, e);
      }
    }
  }

  method ProbeNewestFirst(files: seq<File>, order: seq<File>, k: UserKey, s: nat) returns (r: SaverState)
    requires NumberOrdered(Files(files)) && NumbersDescend(order)
    requires forall f :: f in order <==> f in files && Covers(f, k)
    ensures r.Hit? ==> IsNewest(Contents(Files(files)), k, s, r.e)
    ensures r.Missed? ==> Absent(Contents(Files(files)), k, s)
  {
    hide NumberOrdered, Probe, FirstAtOrAfter, NumbersDescend;
    var i := 0;
    while i < |order|
      invariant 0 <= i <= |order|
      invariant forall j :: 0 <= j < i ==> Absent(Elems(order[j].entries), k, s)
    {
      r := Probe(order[i].entries, k, s);
      ProbeFindsNewest(order[i].entries, k, s);
      if r.Hit? {
        assert order[i] in order && order[i] in Files(files) && r.e in order[i].entries;
        forall d | d in Contents(Files(files)) && Sees(d, k, s)
          ensures d.ikey.seqno <= r.e.ikey.seqno
        {
          HitIsFinal(files, order, k, s, i, r.e, d);
        }
        return;
      }
      i := i + 1;
    }
    r := Missed;
    forall d | d in Contents(Files(files)) ensures !Sees(d, k, s) {
      var f :| f in Files(files) && d in f.entries;
      EntryInRange(f, d);
      if f in order {
        var j :| 0 <= j < |order| && order[j] == f;
        assert d in Elems(order[j].entries);
      }
    }
  }

  lemma HitIsFinal(files: seq<File>, order: seq<File>, k: UserKey, s: nat, i: nat, e: Entry, d: Entry)
    requires NumberOrdered(Files(files)) && NumbersDescend(order) && i < |order|
    requires forall f :: f in order <==> f in files && Covers(f, k)
    requires forall j :: 0 <= j < i ==> Absent(Elems(order[j].entries), k, s)
    requires IsNewest(Elems(order[i].entries), k, s, e)
    requires d in Contents(Files(files)) && Sees(d, k, s)
    ensures d.ikey.seqno <= e.ikey.seqno
  {
    var f :| f in Files(files) && d in f.entries;
    EntryInRange(f, d);
    var j :| 0 <= j < |order| && order[j] == f;
    assert d in Elems(order[j].entries);
    assert i <= j;
    if f != order[i] {
      assert order[i] in order;
      assert NewerThan(Elems(order[i].entries), Elems(f.entries));
    }
  }

  // ---------- searching a version ----------

  /** Version::Get: level by level, the first hit wins, and the answer is the
      flat read over every entry of the version. */
  method Get(files: seq<seq<File>>, k: UserKey, s: nat) returns (r: Option<UserValue>)
    requires WfVersion(files)
    ensures r == Read(DeepContents(files, 0), k, s)
  {
    var level := 0;
    while level < NUM_LEVELS
      invariant 0 <= level <= NUM_LEVELS
      invariant Newest(DeepContents(files, 0), k, s) == Newest(DeepContents(files, level), k, s)
    {
      LevelAboveDeep(files, level);
      NewestOfLayers(Contents(Files(files[level])), DeepContents(files, level + 1), k, s);
      if |files[level]| != 0 {
        var saver := SearchLevel(level, files[level], k, s);
        if saver.Hit? {
          assert UniqueSeq(Contents(Files(files[level])));
          NewestIs(Contents(Files(files[level])), k, s, saver.e);
          return if saver.e.ikey.kind.Value? then Some(saver.e.value) else None;
        }
      }
      level := level + 1;
    }
    return None;
  }
}
