/** Choosing the inputs of a compaction (db/version_set.cc). */
module OverlapSearch {
  import opened InternalKeys
  import opened FlatSpec
  import opened Versions

  /** A user-key range; a missing bound is unbounded on that side. */
  datatype Range = Range(begin: Option<UserKey>, end: Option<UserKey>)

  predicate Overlaps(f: File, r: Range) {
    (r.begin.Some? ==> Largest(f).user >= r.begin.value) &&
    (r.end.Some? ==> Smallest(f).user <= r.end.value)
  }

  predicate Within(f: File, r: Range) {
    (r.begin.Some? ==> Smallest(f).user >= r.begin.value) &&
    (r.end.Some? ==> Largest(f).user <= r.end.value)
  }

  predicate Includes(outer: Range, inner: Range) {
    (outer.begin.Some? ==> inner.begin.Some? && outer.begin.value <= inner.begin.value) &&
    (outer.end.Some? ==> inner.end.Some? && outer.end.value >= inner.end.value)
  }

  /** No file sticks out of the range it overlaps. */
  predicate ClosedRange(files: seq<File>, r: Range) {
    forall f :: f in files && Overlaps(f, r) ==> Within(f, r)
  }

  ghost predicate LeastClosed(files: seq<File>, start: Range, r: Range) {
    && ClosedRange(files, r) && Includes(r, start)
    && forall c: Range :: ClosedRange(files, c) && Includes(c, start) ==> Includes(c, r)
  }

  function Overlapping(files: seq<File>, r: Range): seq<File> {
    if files == [] then []
    else
      var n := |files| - 1;
      Overlapping(files[..n], r) + if Overlaps(files[n], r) then [files[n]] else []
  }

  lemma {:induction false} OverlappingMembers(files: seq<File>, r: Range)
    ensures forall f :: f in Overlapping(files, r) <==> f in files && Overlaps(f, r)
    ensures |Overlapping(files, r)| <= |files|
  {
    if files != [] {
      var n := |files| - 1;
      OverlappingMembers(files[..n], r);
      assert files == files[..n] + [files[n]];
    }
  }

  /** How many files still stick out of the range: each restart makes one fewer. */
  ghost function StickOut(files: seq<File>, r: Range): nat {
    if files == [] then 0
    else
      var n := |files| - 1;
      StickOut(files[..n], r)
      + (if r.begin.Some? && Smallest(files[n]).user < r.begin.value then 1 else 0)
      + (if r.end.Some? && Largest(files[n]).user > r.end.value then 1 else 0)
  }

  /** The first file that overlaps the range and sticks out of it, or the number of files. */
  ghost function FirstSticking(files: seq<File>, r: Range): (i: nat)
    ensures i <= |files|
    ensures i < |files| ==> Overlaps(files[i], r) && !Within(files[i], r)
    ensures i == |files| ==> ClosedRange(files, r)
  {
    if files == [] then 0
    else if Overlaps(files[0], r) && !Within(files[0], r) then 0
    else assert files == [files[0]] + files[1..]; 1 + FirstSticking(files[1..], r)
  }

  function WidenedBy(r: Range, f: File): Range {
    if r.begin.Some? && Smallest(f).user < r.begin.value then r.(begin := Some(Smallest(f).user))
    else if r.end.Some? && Largest(f).user > r.end.value then r.(end := Some(Largest(f).user))
    else r
  }

  /** The range widened by one file after the other until none sticks out. */
  ghost function LeastRange(files: seq<File>, r: Range): (least: Range)
    ensures LeastClosed(files, r, least) && Covered(files, r, least)
    decreases StickOut(files, r)
  {
    var i := FirstSticking(files, r);
    if i == |files| then r
    else
      var wide := WidenedBy(r, files[i]);
      WidenOnce(files, r, wide, files[i]);
      CoveredWider(files, r, wide, files[i], LeastRange(files, wide));
      LeastRange(files, wide)
  }

  predicate InRange(u: UserKey, r: Range) {
    (r.begin.Some? ==> r.begin.value <= u) && (r.end.Some? ==> u <= r.end.value)
  }

  predicate Spanned(u: UserKey, f: File) {
    Smallest(f).user <= u <= Largest(f).user
  }

  /** Each key of the widened range is in the range it began with or in a file that overlaps it. */
  ghost predicate Covered(files: seq<File>, start: Range, r: Range) {
    forall u :: InRange(u, r) ==> InRange(u, start) || exists f :: f in files && Overlaps(f, r) && Spanned(u, f)
  }

  lemma CoveredWider(files: seq<File>, r: Range, wide: Range, f: File, least: Range)
    requires f in files && Overlaps(f, r) && wide == WidenedBy(r, f)
    requires Covered(files, wide, least) && Includes(least, wide)
    ensures Includes(wide, r) && Covered(files, r, least)
  {
    forall u | InRange(u, least)
      ensures InRange(u, r) || exists g :: g in files && Overlaps(g, least) && Spanned(u, g)
    {
      if InRange(u, wide) && !InRange(u, r) {
        assert Overlaps(f, least) && Spanned(u, f);
      }
    }
  }

  lemma LeastIsOne(files: seq<File>, start: Range, a: Range, b: Range)
    requires LeastClosed(files, start, a) && LeastClosed(files, start, b)
    ensures a == b
  {
    assert Includes(a, b) && Includes(b, a);
  }

  ghost function OverlapRange(level: nat, files: seq<File>, r: Range): Range {
    if level == 0 then LeastRange(files, r) else r
  }

  /** Collects the files overlapping [begin, end]. Level 0 files may overlap one
      another, so there a file that sticks out widens the range and restarts the scan. */
  method GetOverlappingInputs(level: nat, files: seq<File>, begin: Option<UserKey>, end: Option<UserKey>)
    returns (inputs: seq<File>, ghost range: Range)
    ensures range == OverlapRange(level, files, Range(begin, end)) && inputs == Overlapping(files, range)
    ensures if level > 0 then range == Range(begin, end) else LeastClosed(files, Range(begin, end), range)
  {
    hide LeastRange, Covered, StickOut;
    var userBegin, userEnd := begin, end;
    inputs := [];
    var i := 0;
    ghost var start := Range(begin, end);
    while i < |files|
      invariant 0 <= i <= |files|
      invariant userBegin.Some? <==> begin.Some?
      invariant userEnd.Some? <==> end.Some?
      invariant level > 0 ==> userBegin == begin && userEnd == end
      invariant Includes(Range(userBegin, userEnd), start)
      invariant forall c: Range :: ClosedRange(files, c) && Includes(c, start) ==>
                  Includes(c, Range(userBegin, userEnd))
      invariant inputs == Overlapping(files[..i], Range(userBegin, userEnd))
      invariant level == 0 ==> ClosedRange(files[..i], Range(userBegin, userEnd))
      decreases StickOut(files, Range(userBegin, userEnd)), |files| - i
    {
      var f := files[i];
      ghost var r := Range(userBegin, userEnd);
      i := i + 1;
      assert files[..i][..i-1] == files[..i-1];
      if userBegin.Some? && Largest(f).user < userBegin.value {
      } else if userEnd.Some? && Smallest(f).user > userEnd.value {
      } else {
        inputs := inputs + [f];
        if level == 0 {
          if userBegin.Some? && Smallest(f).user < userBegin.value {
            userBegin := Some(Smallest(f).user);
            inputs, i := [], 0;
            WidenOnce(files, r, Range(userBegin, userEnd), f);
          } else if userEnd.Some? && Largest(f).user > userEnd.value {
            userEnd := Some(Largest(f).user);
            inputs, i := [], 0;
            WidenOnce(files, r, Range(userBegin, userEnd), f);
          }
        }
      }
    }
    range := Range(userBegin, userEnd);
    assert files[..i] == files;
    if level == 0 {
      LeastIsOne(files, start, range, LeastRange(files, start));
    }
  }

  lemma WidenOnce(files: seq<File>, r: Range, wide: Range, f: File)
    requires f in files && Overlaps(f, r)
    requires
      || (r.begin.Some? && Smallest(f).user < r.begin.value && wide == r.(begin := Some(Smallest(f).user)))
      || (r.end.Some? && Largest(f).user > r.end.value && wide == r.(end := Some(Largest(f).user)))
    ensures StickOut(files, wide) < StickOut(files, r)
    ensures forall c: Range :: ClosedRange(files, c) && Includes(c, r) ==> Includes(c, wide)
  {
    SticksOutOnce(files, r, wide, f);
    forall c: Range | ClosedRange(files, c) && Includes(c, r) ensures Includes(c, wide) {
      assert Overlaps(f, c);
      assert Within(f, c);
    }
  }

  lemma {:induction false} SticksOutOnce(files: seq<File>, r: Range, wide: Range, f: File)
    requires
      || (r.begin.Some? && Smallest(f).user < r.begin.value && wide == r.(begin := Some(Smallest(f).user)))
      || (r.end.Some? && Largest(f).user > r.end.value && wide == r.(end := Some(Largest(f).user)))
    ensures StickOut(files, wide) <= StickOut(files, r)
    ensures f in files ==> StickOut(files, wide) < StickOut(files, r)
  {
    if files != [] {
      SticksOutOnce(files[..|files|-1], r, wide, f);
    }
  }
}

/** Growing a file set until a compaction of it is safe for the level structure. */
module CompactionInputs {
  import opened InternalKeys
  import opened Sequences
  import opened FlatSpec
  import opened Versions
  import opened OverlapSearch

  // ---------- boundary files ----------

  /** `f` starts with older entries of the very user key that `key` ends on. */
  predicate IsBoundary(f: File, key: InternalKey) {
    Less(key, Smallest(f)) && Smallest(f).user == key.user
  }

  predicate IsLargestOf(files: seq<File>, key: InternalKey) {
    (exists f :: f in files && Largest(f) == key) &&
    (forall f :: f in files ==> !Less(key, Largest(f)))
  }

  function LargestKey(files: seq<File>): InternalKey
    requires files != []
  {
    var last := Largest(files[|files|-1]);
    if |files| == 1 then last
    else
      var before := LargestKey(files[..|files|-1]);
      if Less(before, last) then last else before
  }

  lemma {:induction false} LargestKeyIsLargest(files: seq<File>)
    requires files != []
    ensures IsLargestOf(files, LargestKey(files))
  {
    var n := |files| - 1;
    assert files == files[..n] + [files[n]];
    if n > 0 {
      LargestKeyIsLargest(files[..n]);
      LargerOf(files[..n], files[n], LargestKey(files[..n]));
    }
  }

  lemma LargerOf(front: seq<File>, f: File, key: InternalKey)
    requires IsLargestOf(front, key)
    ensures IsLargestOf(front + [f], if Less(key, Largest(f)) then Largest(f) else key)
  {
    var larger := if Less(key, Largest(f)) then Largest(f) else key;
    var g :| g in front && Largest(g) == key;
    assert g in front + [f] && f in front + [f];
    forall h | h in front + [f] ensures !Less(larger, Largest(h)) {
      CompareIsLexicographic(larger, Largest(h));
      CompareIsLexicographic(key, Largest(h));
      CompareIsLexicographic(key, larger);
    }
  }

  method FindLargestKey(files: seq<File>) returns (largest: Option<InternalKey>)
    ensures largest == if files == [] then None else Some(LargestKey(files))
    ensures largest.Some? ==> IsLargestOf(files, largest.value)
  {
    if files == [] { return None; }
    var key := Largest(files[0]);
    var i := 1;
    while i < |files|
      invariant 1 <= i <= |files| && key == LargestKey(files[..i])
    {
      assert files[..i+1][..i] == files[..i];
      if Less(key, Largest(files[i])) {
        key := Largest(files[i]);
      }
      i := i + 1;
    }
    assert files[..i] == files;
    LargestKeyIsLargest(files);
    return Some(key);
  }

  /** The boundary file with the least smallest key. */
  function SmallestBoundary(levelFiles: seq<File>, key: InternalKey): Option<File> {
    if levelFiles == [] then None
    else
      var r, f := SmallestBoundary(levelFiles[..|levelFiles|-1], key), levelFiles[|levelFiles|-1];
      if IsBoundary(f, key) && (r.None? || Less(Smallest(f), Smallest(r.value))) then Some(f) else r
  }

  method FindSmallestBoundaryFile(levelFiles: seq<File>, key: InternalKey) returns (r: Option<File>)
    ensures r == SmallestBoundary(levelFiles, key)
    ensures r.None? ==> forall f :: f in levelFiles ==> !IsBoundary(f, key)
    ensures r.Some? ==> r.value in levelFiles && IsBoundary(r.value, key) &&
                        forall f :: f in levelFiles && IsBoundary(f, key) ==> !Less(Smallest(f), Smallest(r.value))
  {
    r := None;
    var i := 0;
    while i < |levelFiles|
      invariant 0 <= i <= |levelFiles| && r == SmallestBoundary(levelFiles[..i], key)
      invariant r.None? ==> forall f :: f in levelFiles[..i] ==> !IsBoundary(f, key)
      invariant r.Some? ==> r.value in levelFiles[..i] && IsBoundary(r.value, key) &&
                            forall f :: f in levelFiles[..i] && IsBoundary(f, key) ==> !Less(Smallest(f), Smallest(r.value))
    {
      assert levelFiles[..i+1] == levelFiles[..i] + [levelFiles[i]] && levelFiles[..i+1][..i] == levelFiles[..i];
      var f := levelFiles[i];
      if IsBoundary(f, key) {
        if r.None? || Less(Smallest(f), Smallest(r.value)) {
          if r.Some? {
            forall g | g in levelFiles[..i] && IsBoundary(g, key) ensures !Less(Smallest(g), Smallest(f)) {
              CompareIsLexicographic(Smallest(g), Smallest(f));
              CompareIsLexicographic(Smallest(f), Smallest(r.value));
              CompareIsLexicographic(Smallest(g), Smallest(r.value));
            }
          }
          r := Some(f);
        }
      }
      i := i + 1;
    }
    assert levelFiles[..i] == levelFiles;
  }

  /** A nonempty contiguous stretch of a level. */
  ghost predicate IsRun(level: seq<File>, fs: seq<File>) {
    exists lo, hi :: 0 <= lo < hi <= |level| && fs == level[lo..hi]
  }

  function KeysAfter(files: seq<File>, key: InternalKey): nat {
    if files == [] then 0
    else KeysAfter(files[..|files|-1], key) + if Less(key, Smallest(files[|files|-1])) then 1 else 0
  }

  lemma {:induction false} FewerKeysAfter(files: seq<File>, key: InternalKey, f: File)
    requires Less(key, Smallest(f))
    ensures KeysAfter(files, Largest(f)) <= KeysAfter(files, key)
    ensures f in files ==> KeysAfter(files, Largest(f)) < KeysAfter(files, key)
  {
    if files != [] {
      var last := files[|files|-1];
      FewerKeysAfter(files[..|files|-1], key, f);
      SmallestToLargest(f);
      CompareIsLexicographic(key, Smallest(f));
      CompareIsLexicographic(Largest(f), Smallest(f));
      CompareIsLexicographic(Largest(f), Smallest(last));
      CompareIsLexicographic(key, Smallest(last));
      CompareIsLexicographic(Smallest(f), Largest(f));
    }
  }

  lemma {:induction false} SmallestBoundaryIsOne(levelFiles: seq<File>, key: InternalKey)
    ensures var r := SmallestBoundary(levelFiles, key);
            r.Some? ==> r.value in levelFiles && IsBoundary(r.value, key)
  {
    if levelFiles != [] {
      SmallestBoundaryIsOne(levelFiles[..|levelFiles|-1], key);
    }
  }

  /** The inputs with one boundary file after the other. */
  function WithBoundaries(levelFiles: seq<File>, files: seq<File>, key: InternalKey): seq<File>
    decreases KeysAfter(levelFiles, key)
  {
    var next := SmallestBoundary(levelFiles, key);
    if next.None? then files
    else
      SmallestBoundaryIsOne(levelFiles, key);
      FewerKeysAfter(levelFiles, key, next.value);
      WithBoundaries(levelFiles, files + [next.value], Largest(next.value))
  }

  function Extended(levelFiles: seq<File>, files: seq<File>): seq<File> {
    if files == [] then [] else WithBoundaries(levelFiles, files, LargestKey(files))
  }

  /** The file starts with the user key that the others end on, behind them. */
  ghost predicate Continues(fs: seq<File>, f: File) {
    exists key :: IsLargestOf(fs, key) && IsBoundary(f, key)
  }

  /** Every file added continues those before it. */
  lemma {:induction false} BoundariesContinue(levelFiles: seq<File>, files: seq<File>, key: InternalKey)
    requires IsLargestOf(files, key)
    ensures var r := WithBoundaries(levelFiles, files, key);
            files <= r && forall i :: |files| <= i < |r| ==> r[i] in levelFiles && Continues(r[..i], r[i])
    decreases KeysAfter(levelFiles, key)
  {
    hide IsLargestOf, Continues, Less;
    var next := SmallestBoundary(levelFiles, key);
    if next.Some? {
      var more, r := files + [next.value], WithBoundaries(levelFiles, files, key);
      SmallestBoundaryIsOne(levelFiles, key);
      ContinuesThere(files, key, next.value);
      LargestMovesOn(files, key, next.value);
      FewerKeysAfter(levelFiles, key, next.value);
      BoundariesContinue(levelFiles, more, Largest(next.value));
      assert r[..|files|] == more[..|files|] == files && r[|files|] == more[|files|] == next.value;
    }
  }

  lemma ContinuesThere(fs: seq<File>, key: InternalKey, f: File)
    requires IsLargestOf(fs, key) && IsBoundary(f, key)
    ensures Continues(fs, f)
  {
  }

  /** Extends the inputs until the level holds no file that starts with the user
      key the inputs end on. A contiguous stretch of a sorted level stays one. */
  method AddBoundaryInputs(levelFiles: seq<File>, compactionFiles: seq<File>) returns (r: seq<File>)
    ensures r == Extended(levelFiles, compactionFiles) && compactionFiles <= r
    ensures forall f :: f in r ==> f in levelFiles || f in compactionFiles
    ensures compactionFiles == [] ==> r == []
    ensures compactionFiles != [] ==>
              exists key :: IsLargestOf(r, key) && forall f :: f in levelFiles ==> !IsBoundary(f, key)
    ensures forall i :: |compactionFiles| <= i < |r| ==> Continues(r[..i], r[i])
    ensures LevelSorted(levelFiles) && IsRun(levelFiles, compactionFiles) ==> IsRun(levelFiles, r)
    ensures (forall f, g :: f in compactionFiles && g in levelFiles && IsBoundary(g, Largest(f)) ==>
              g in compactionFiles) ==> r == compactionFiles
  {
    r := compactionFiles;
    var start := FindLargestKey(compactionFiles);
    if start.None? { return; }
    var largestKey := start.value;
    var continueSearching := true;
    BoundariesContinue(levelFiles, compactionFiles, largestKey);
    while continueSearching
      invariant compactionFiles <= r
      invariant forall f :: f in r ==> f in levelFiles || f in compactionFiles
      invariant IsLargestOf(r, largestKey)
      invariant Extended(levelFiles, compactionFiles)
             == if continueSearching then WithBoundaries(levelFiles, r, largestKey) else r
      invariant !continueSearching ==> forall f :: f in levelFiles ==> !IsBoundary(f, largestKey)
      invariant LevelSorted(levelFiles) && IsRun(levelFiles, compactionFiles) ==> IsRun(levelFiles, r)
      invariant (forall f, g :: f in compactionFiles && g in levelFiles && IsBoundary(g, Largest(f)) ==>
                  g in compactionFiles) ==> r == compactionFiles
      decreases continueSearching, KeysAfter(levelFiles, largestKey)
    {
      var next := FindSmallestBoundaryFile(levelFiles, largestKey);
      if next.Some? {
        if LevelSorted(levelFiles) && IsRun(levelFiles, r) {
          BoundaryContinuesRun(levelFiles, r, largestKey, next.value);
        }
        LargestMovesOn(r, largestKey, next.value);
        FewerKeysAfter(levelFiles, largestKey, next.value);
        r := r + [next.value];
        largestKey := Largest(next.value);
      } else {
        continueSearching := false;
      }
    }
  }

  lemma LargestMovesOn(r: seq<File>, key: InternalKey, f: File)
    requires IsLargestOf(r, key) && IsBoundary(f, key)
    ensures IsLargestOf(r + [f], Largest(f))
    ensures f !in r
    ensures exists g :: g in r && IsBoundary(f, Largest(g))
  {
    SmallestToLargest(f);
    forall g | g in r ensures !Less(Largest(f), Largest(g)) && f != g {
      CompareIsLexicographic(key, Smallest(f));
      CompareIsLexicographic(Smallest(f), Largest(f));
      CompareIsLexicographic(Largest(f), Largest(g));
      CompareIsLexicographic(key, Largest(g));
    }
    assert f in r + [f];
    var g :| g in r && Largest(g) == key;
  }

  lemma LargestMonotone(level: seq<File>, i: nat, j: nat)
    requires LevelSorted(level) && i <= j < |level|
    ensures i == j || Less(Largest(level[i]), Largest(level[j]))
  {
    if i < j { LargestAscend(level, i, j); }
  }

  lemma RunLargest(level: seq<File>, lo: nat, hi: nat, key: InternalKey)
    requires LevelSorted(level) && lo < hi <= |level| && IsLargestOf(level[lo..hi], key)
    ensures key == Largest(level[hi-1])
  {
    hide Less, LevelSorted;
    var f :| f in level[lo..hi] && Largest(f) == key;
    var j :| lo <= j < hi && level[j] == f;
    assert level[hi-1] in level[lo..hi];
    LargestMonotone(level, j, hi - 1);
  }

  lemma BoundaryIsBeyond(level: seq<File>, hi: nat, j: nat)
    requires LevelSorted(level) && 0 < hi <= |level| && j < |level|
    requires IsBoundary(level[j], Largest(level[hi-1]))
    ensures hi <= j
  {
    if j < hi {
      LargestMonotone(level, j, hi - 1);
      SmallestToLargest(level[j]);
      CompareIsLexicographic(Largest(level[hi-1]), Smallest(level[j]));
      CompareIsLexicographic(Smallest(level[j]), Largest(level[j]));
      CompareIsLexicographic(Largest(level[j]), Largest(level[hi-1]));
    }
  }

  lemma BoundaryIsNext(level: seq<File>, hi: nat, f: File)
    requires LevelSorted(level) && 0 < hi <= |level|
    requires f in level && IsBoundary(f, Largest(level[hi-1]))
    requires forall i :: 0 <= i < |level| && IsBoundary(level[i], Largest(level[hi-1])) ==>
               !Less(Smallest(level[i]), Smallest(f))
    ensures hi < |level| && level[hi] == f
  {
    var j :| 0 <= j < |level| && level[j] == f;
    BoundaryIsBeyond(level, hi, j);
    if hi < j {
      NextIsBoundaryToo(level, hi, j);
    }
  }

  lemma BoundaryContinuesRun(level: seq<File>, r: seq<File>, key: InternalKey, f: File)
    requires LevelSorted(level) && IsRun(level, r) && IsLargestOf(r, key)
    requires f in level && IsBoundary(f, key)
    requires forall g :: g in level && IsBoundary(g, key) ==> !Less(Smallest(g), Smallest(f))
    ensures IsRun(level, r + [f])
  {
    var lo, hi :| 0 <= lo < hi <= |level| && r == level[lo..hi];
    RunLargest(level, lo, hi, key);
    BoundaryIsNext(level, hi, f);
    SliceSnoc(level, lo, hi);
  }

  /** If a user key continues from file hi-1 into a later file, it continues into file hi. */
  lemma NextIsBoundaryToo(level: seq<File>, hi: nat, j: nat)
    requires LevelSorted(level) && 0 < hi < j < |level|
    requires Smallest(level[j]).user == Largest(level[hi-1]).user
    ensures IsBoundary(level[hi], Largest(level[hi-1])) && Less(Smallest(level[hi]), Smallest(level[j]))
  {
    var a, b, c, d := Largest(level[hi-1]), Smallest(level[hi]), Largest(level[hi]), Smallest(level[j]);
    assert Less(a, b) && Less(c, d);
    SmallestToLargest(level[hi]);
    CompareIsLexicographic(a, b);
    CompareIsLexicographic(b, c);
    CompareIsLexicographic(c, d);
    CompareIsLexicographic(b, d);
  }

  // ---------- what a selection guarantees ----------

  predicate RangesDisjoint(f: File, g: File) {
    Largest(f).user < Smallest(g).user || Largest(g).user < Smallest(f).user
  }

  predicate LeftOf(g: File, fs: set<File>) {
    forall f :: f in fs ==> Less(Largest(g), Smallest(f))
  }

  predicate RightOf(g: File, fs: set<File>) {
    forall f :: f in fs ==> Less(Largest(f), Smallest(g))
  }

  /** The files of level and level+1 that stay put keep the levels well formed
      whatever sorted run replaces the inputs:
      what stays in the level is newer than what leaves it;
      what stays in level+1 lies wholly on one side of all inputs,
      and shares no user key with the files coming down. */
  ghost predicate Selected(stay0: set<File>, in0: set<File>, stay1: set<File>, in1: set<File>) {
    && NewerThan(Contents(stay0), Contents(in0))
    && (forall g :: g in stay1 ==> LeftOf(g, in0 + in1) || RightOf(g, in0 + in1))
    && (forall f, g :: f in in0 && g in stay1 ==> RangesDisjoint(f, g))
  }

  ghost predicate SelectedFrom(own: seq<File>, parents: seq<File>, in0: seq<File>, in1: seq<File>) {
    && in0 != [] && Files(in0) <= Files(own) && Files(in1) <= Files(parents)
    && Selected(Files(own) - Files(in0), Files(in0), Files(parents) - Files(in1), Files(in1))
  }

  /** Level 0: no file outside the inputs touches the user-key range of one inside. */
  ghost predicate ClosedInputs(level: seq<File>, fs: seq<File>) {
    && fs != [] && Files(fs) <= Files(level)
    && forall f, g :: f in fs && g in level && g !in fs ==> RangesDisjoint(f, g)
  }

  ghost predicate StartInputs(level: nat, levelFiles: seq<File>, fs: seq<File>) {
    if level == 0 then ClosedInputs(levelFiles, fs) else IsRun(levelFiles, fs)
  }

  lemma ClosedRangeGivesClosedInputs(files: seq<File>, r: Range)
    requires ClosedRange(files, r) && Overlapping(files, r) != []
    ensures ClosedInputs(files, Overlapping(files, r))
  {
    OverlappingMembers(files, r);
  }

  lemma {:induction false} OverlappingStretch(files: seq<File>, r: Range) returns (lo: nat, hi: nat)
    requires LevelSorted(files)
    ensures lo <= hi <= |files| && Overlapping(files, r) == files[lo..hi]
    ensures forall j :: 0 <= j < |files| ==> (Overlaps(files[j], r) <==> lo <= j < hi)
  {
    hide Overlaps, Less;
    if files == [] { return 0, 0; }
    var n := |files| - 1;
    var front := files[..n];
    lo, hi := OverlappingStretch(front, r);
    SliceOfTake(files, n, lo, hi);
    forall j | 0 <= j < n ensures Overlaps(files[j], r) <==> lo <= j < hi {
      assert front[j] == files[j];
    }
    if Overlaps(files[n], r) {
      if lo == hi {
        lo, hi := n, n;
      } else if hi < n {
        BetweenOverlaps(files, r, hi - 1, hi, n);
      }
      SliceSnoc(files, lo, n);
      hi := n + 1;
    }
  }

  lemma OverlappingIsRun(files: seq<File>, r: Range)
    requires LevelSorted(files) && Overlapping(files, r) != []
    ensures IsRun(files, Overlapping(files, r))
  {
    var lo, hi := OverlappingStretch(files, r);
  }

  lemma BetweenOverlaps(files: seq<File>, r: Range, i: nat, j: nat, n: nat)
    requires LevelSorted(files) && i < j < n < |files|
    requires Overlaps(files[i], r) && Overlaps(files[n], r)
    ensures Overlaps(files[j], r)
  {
    LargestAscend(files, i, j);
    SmallestToLargest(files[j]);
    assert Less(Largest(files[j]), Smallest(files[n]));
    CompareIsLexicographic(Smallest(files[j]), Largest(files[j]));
  }

  // ---------- establishing the guarantees ----------

  lemma DisjointRangesShareNoKey(f: File, g: File, a: Entry, b: Entry)
    requires RangesDisjoint(f, g) && a in f.entries && b in g.entries
    ensures a.ikey.user != b.ikey.user
  {
    EntryInRange(f, a);
    EntryInRange(g, b);
  }

  lemma StayNewerLevel0(level: seq<File>, in0: seq<File>)
    requires ClosedInputs(level, in0)
    ensures NewerThan(Contents(Files(level) - Files(in0)), Contents(Files(in0)))
  {
    forall a, b | a in Contents(Files(level) - Files(in0)) && b in Contents(Files(in0))
      ensures a.ikey.user != b.ikey.user
    {
      var g :| g in Files(level) - Files(in0) && a in g.entries;
      var f :| f in Files(in0) && b in f.entries;
      DisjointRangesShareNoKey(f, g, b, a);
    }
  }

  lemma EarlierFileIsNewer(level: seq<File>, i: nat, j: nat, a: Entry, b: Entry)
    requires LevelSorted(level) && i < j < |level| && UniqueSeq(Contents(Files(level)))
    requires a in level[i].entries && b in level[j].entries
    ensures Less(a.ikey, b.ikey)
    ensures a.ikey.user == b.ikey.user ==> a.ikey.seqno > b.ikey.seqno
  {
    EntryInRange(level[i], a);
    EntryInRange(level[j], b);
    assert Less(Largest(level[i]), Smallest(level[j]));
    CompareIsLexicographic(a.ikey, Largest(level[i]));
    CompareIsLexicographic(Largest(level[i]), a.ikey);
    CompareIsLexicographic(Largest(level[i]), Smallest(level[j]));
    CompareIsLexicographic(Smallest(level[j]), b.ikey);
    CompareIsLexicographic(b.ikey, Smallest(level[j]));
    CompareIsLexicographic(a.ikey, b.ikey);
    assert a in Contents(Files(level)) && b in Contents(Files(level));
  }

  lemma StayNewerRun(level: seq<File>, lo: nat, hi: nat)
    requires LevelSorted(level) && lo < hi <= |level| && UniqueSeq(Contents(Files(level)))
    requires hi < |level| ==> !IsBoundary(level[hi], Largest(level[hi-1]))
    ensures NewerThan(Contents(Files(level) - Files(level[lo..hi])), Contents(Files(level[lo..hi])))
  {
    forall a, b | a in Contents(Files(level) - Files(level[lo..hi])) && b in Contents(Files(level[lo..hi]))
                  && a.ikey.user == b.ikey.user
      ensures a.ikey.seqno > b.ikey.seqno
    {
      var g :| g in Files(level) - Files(level[lo..hi]) && a in g.entries;
      var f :| f in Files(level[lo..hi]) && b in f.entries;
      var i := IndexOutside(level, lo, hi, g);
      var m := IndexInside(level, lo, hi, f);
      if i < lo {
        EarlierFileIsNewer(level, i, m, a, b);
      } else {
        LaterSameKeyMeansBoundary(level, m, hi, i, b, a);
      }
    }
  }

  lemma IndexInside(level: seq<File>, lo: nat, hi: nat, f: File) returns (m: nat)
    requires lo <= hi <= |level| && f in Files(level[lo..hi])
    ensures lo <= m < hi && level[m] == f
  {
    var j :| 0 <= j < hi - lo && level[lo..hi][j] == f;
    m := lo + j;
  }

  lemma IndexOutside(level: seq<File>, lo: nat, hi: nat, f: File) returns (m: nat)
    requires lo <= hi <= |level| && f in Files(level) - Files(level[lo..hi])
    ensures m < |level| && level[m] == f && (m < lo || hi <= m)
  {
    m :| 0 <= m < |level| && level[m] == f;
    forall x | lo <= x < hi ensures level[x] in Files(level[lo..hi]) {
      assert level[lo..hi][x - lo] == level[x];
    }
  }

  lemma LaterSameKeyMeansBoundary(level: seq<File>, m: nat, hi: nat, i: nat, b: Entry, a: Entry)
    requires LevelSorted(level) && m < hi <= i < |level|
    requires b in level[m].entries && a in level[i].entries && a.ikey.user == b.ikey.user
    ensures IsBoundary(level[hi], Largest(level[hi-1]))
    ensures Largest(level[hi-1]).user == a.ikey.user
  {
    var p, q := Largest(level[hi-1]), Smallest(level[hi]);
    assert Less(p, q);
    EntryInRange(level[m], b);
    EntryInRange(level[i], a);
    LargestMonotone(level, m, hi - 1);
    SmallestMonotone(level, hi, i);
    CompareIsLexicographic(b.ikey, Largest(level[m]));
    CompareIsLexicographic(Largest(level[m]), b.ikey);
    CompareIsLexicographic(Largest(level[m]), p);
    CompareIsLexicographic(p, q);
    CompareIsLexicographic(q, Smallest(level[i]));
    CompareIsLexicographic(Smallest(level[i]), a.ikey);
    CompareIsLexicographic(a.ikey, Smallest(level[i]));
  }

  lemma SmallestMonotone(level: seq<File>, i: nat, j: nat)
    requires LevelSorted(level) && i <= j < |level|
    ensures i == j || Less(Smallest(level[i]), Smallest(level[j]))
  {
    if i < j {
      SmallestToLargest(level[i]);
      assert Less(Largest(level[i]), Smallest(level[j]));
    }
  }

  /** A closed or boundary-complete input set leaves only newer entries behind in its level. */
  lemma StayNewer(level: nat, levelFiles: seq<File>, in0: seq<File>, key: InternalKey)
    requires StartInputs(level, levelFiles, in0) && UniqueSeq(Contents(Files(levelFiles)))
    requires level > 0 ==> LevelSorted(levelFiles)
    requires IsLargestOf(in0, key) && forall f :: f in levelFiles ==> !IsBoundary(f, key)
    ensures NewerThan(Contents(Files(levelFiles) - Files(in0)), Contents(Files(in0)))
  {
    if level == 0 {
      StayNewerLevel0(levelFiles, in0);
    } else {
      var lo, hi :| 0 <= lo < hi <= |levelFiles| && in0 == levelFiles[lo..hi];
      RunLargest(levelFiles, lo, hi, key);
      assert hi < |levelFiles| ==> levelFiles[hi] in levelFiles;
      StayNewerRun(levelFiles, lo, hi);
    }
  }

  /** The user-key hull of a file list (GetRange). */
  predicate IsHull(fs: seq<File>, begin: UserKey, end: UserKey) {
    && (forall f :: f in fs ==> begin <= Smallest(f).user && Largest(f).user <= end)
    && (exists f :: f in fs && Smallest(f).user == begin)
    && (exists f :: f in fs && Largest(f).user == end)
  }

  function SmallestKey(files: seq<File>): InternalKey
    requires files != []
  {
    var last := Smallest(files[|files|-1]);
    if |files| == 1 then last
    else
      var before := SmallestKey(files[..|files|-1]);
      if Less(last, before) then last else before
  }

  method GetRange(inputs: seq<File>) returns (smallest: InternalKey, largest: InternalKey)
    requires inputs != []
    ensures smallest == SmallestKey(inputs) && largest == LargestKey(inputs)
    ensures forall f :: f in inputs ==> !Less(Smallest(f), smallest) && !Less(largest, Largest(f))
    ensures exists f :: f in inputs && Smallest(f) == smallest
    ensures exists f :: f in inputs && Largest(f) == largest
  {
    hide Less;
    smallest, largest := Smallest(inputs[0]), Largest(inputs[0]);
    KeepsBound(smallest, smallest, largest);
    ghost var fs, fl := inputs[0], inputs[0];
    var i := 1;
    while i < |inputs|
      invariant 1 <= i <= |inputs|
      invariant smallest == SmallestKey(inputs[..i]) && largest == LargestKey(inputs[..i])
      invariant fs in inputs && Smallest(fs) == smallest
      invariant fl in inputs && Largest(fl) == largest
      invariant forall j :: 0 <= j < i ==> !Less(Smallest(inputs[j]), smallest) && !Less(largest, Largest(inputs[j]))
    {
      var f := inputs[i];
      assert inputs[..i+1][..i] == inputs[..i];
      if Less(Smallest(f), smallest) {
        forall j | 0 <= j < i ensures !Less(Smallest(inputs[j]), Smallest(f)) {
          KeepsBound(Smallest(f), smallest, Smallest(inputs[j]));
        }
        KeepsBound(Smallest(f), Smallest(f), Smallest(f));
        smallest, fs := Smallest(f), f;
      }
      if Less(largest, Largest(f)) {
        forall j | 0 <= j < i ensures !Less(Largest(f), Largest(inputs[j])) {
          KeepsBound(Largest(inputs[j]), largest, Largest(f));
        }
        KeepsBound(Largest(f), Largest(f), Largest(f));
        largest, fl := Largest(f), f;
      }
      i := i + 1;
    }
    assert inputs[..i] == inputs;
  }

  lemma KeepsBound(a: InternalKey, b: InternalKey, c: InternalKey)
    ensures Less(a, b) && !Less(c, b) ==> !Less(c, a)
    ensures Less(b, c) && !Less(b, a) ==> !Less(c, a)
    ensures !Less(a, a) && !Less(c, c)
  {
    CompareIsLexicographic(a, b);
    CompareIsLexicographic(c, b);
    CompareIsLexicographic(c, a);
    CompareIsLexicographic(b, c);
    CompareIsLexicographic(b, a);
  }

  lemma RangeIsHull(fs: seq<File>, smallest: InternalKey, largest: InternalKey)
    requires fs != []
    requires forall f :: f in fs ==> !Less(Smallest(f), smallest) && !Less(largest, Largest(f))
    requires exists f :: f in fs && Smallest(f) == smallest
    requires exists f :: f in fs && Largest(f) == largest
    ensures IsHull(fs, smallest.user, largest.user)
  {
    forall f | f in fs ensures smallest.user <= Smallest(f).user && Largest(f).user <= largest.user {
      CompareIsLexicographic(Smallest(f), smallest);
      CompareIsLexicographic(largest, Largest(f));
    }
  }

  /** Everything of level+1 in the user-key hull of the level inputs is taken along, so
      a file left behind lies wholly to one side of all inputs. */
  lemma ParentsCompleteSelection(parents: seq<File>, in0: seq<File>, begin: UserKey, end: UserKey)
    requires LevelSorted(parents) && IsHull(in0, begin, end)
    ensures var in1 := Overlapping(parents, Range(Some(begin), Some(end)));
            && Files(in1) <= Files(parents)
            && (forall g :: g in Files(parents) - Files(in1) ==>
                 LeftOf(g, Files(in0) + Files(in1)) || RightOf(g, Files(in0) + Files(in1)))
            && (forall f, g :: f in Files(in0) && g in Files(parents) - Files(in1) ==> RangesDisjoint(f, g))
  {
    var r := Range(Some(begin), Some(end));
    var in1 := Overlapping(parents, r);
    OverlappingMembers(parents, r);
    forall g | g in Files(parents) - Files(in1)
      ensures LeftOf(g, Files(in0) + Files(in1)) || RightOf(g, Files(in0) + Files(in1))
      ensures forall f :: f in Files(in0) ==> RangesDisjoint(f, g)
    {
      forall f | f in Files(in0) + Files(in1)
        ensures Largest(g).user < begin ==> Less(Largest(g), Smallest(f))
        ensures Smallest(g).user > end ==> Less(Largest(f), Smallest(g))
      {
        OneSide(parents, in0, begin, end, f, g);
      }
    }
  }

  lemma OneSide(parents: seq<File>, in0: seq<File>, begin: UserKey, end: UserKey, f: File, g: File)
    requires LevelSorted(parents) && IsHull(in0, begin, end) && g in parents
    requires f in in0 || (f in parents && Overlaps(f, Range(Some(begin), Some(end))))
    ensures Largest(g).user < begin ==> Less(Largest(g), Smallest(f))
    ensures Smallest(g).user > end ==> Less(Largest(f), Smallest(g))
  {
    SmallestToLargest(f);
    SmallestToLargest(g);
    CompareIsLexicographic(Smallest(f), Largest(f));
    CompareIsLexicographic(Smallest(g), Largest(g));
    CompareIsLexicographic(Largest(g), Smallest(f));
    CompareIsLexicographic(Largest(f), Smallest(g));
    if f !in in0 {
      var i :| 0 <= i < |parents| && parents[i] == f;
      var j :| 0 <= j < |parents| && parents[j] == g;
      assert i < j ==> Less(Largest(f), Smallest(g));
      assert j < i ==> Less(Largest(g), Smallest(f));
    }
  }

  datatype Plan = Plan(level: nat, in0: seq<File>, in1: seq<File>, grandparents: seq<File>, pointer: InternalKey)

  /** What the selection relies on: the level itself (sorted above level 0), and its parents. */
  ghost predicate WfLevels(level: nat, own: seq<File>, parents: seq<File>) {
    && (level > 0 ==> LevelSorted(own))
    && LevelSorted(parents)
    && UniqueSeq(Contents(Files(own)))
  }

  /** The user-key range of some files. */
  function UserRange(files: seq<File>): Range
    requires files != []
  {
    Range(Some(SmallestKey(files).user), Some(LargestKey(files).user))
  }

  function ParentsOf(parents: seq<File>, in0: seq<File>): seq<File>
    requires in0 != []
  {
    Overlapping(parents, UserRange(in0))
  }

  /** All of the level that the range of the inputs touches, with its boundary files. */
  ghost function Expanded(level: nat, own: seq<File>, in0: seq<File>, in1: seq<File>): seq<File>
    requires in0 != []
  {
    Extended(own, Overlapping(own, OverlapRange(level, own, UserRange(in0 + in1))))
  }

  /** The first of them are those that meet the range, on level 0 the range that grows with what it touches; each of the others
      continues those before it. */
  lemma ExpandedIs(level: nat, own: seq<File>, in0: seq<File>, in1: seq<File>) returns (n: nat)
    requires in0 != []
    ensures var e := Expanded(level, own, in0, in1);
            && n <= |e| && (forall i :: n <= i < |e| ==> Continues(e[..i], e[i]))
            && forall f :: f in e[..n] <==>
                 f in own && if level > 0 then Meets(f, in0 + in1) else Overlaps(f, LeastRange(own, UserRange(in0 + in1)))
  {
    hide Continues, LeastRange, Meets;
    var r := OverlapRange(level, own, UserRange(in0 + in1));
    var files := Overlapping(own, r);
    n := |files|;
    OverlappingMembers(own, r);
    MeetersAre(own, in0 + in1);
    OverlappingMembers(own, UserRange(in0 + in1));
    if files != [] {
      LargestKeyIsLargest(files);
      BoundariesContinue(own, files, LargestKey(files));
      assert Expanded(level, own, in0, in1)[..n] == files;
    }
  }

  /** The expansion is taken if it adds files to the level, keeps within the size limit and asks for no
      more parents. */
  ghost predicate Worthwhile(parents: seq<File>, in0: seq<File>, in1: seq<File>, expanded0: seq<File>, limit: nat) {
    && in1 != [] && |expanded0| > |in0|
    && TotalFileSize(in1) + TotalFileSize(expanded0) < limit
    && |ParentsOf(parents, expanded0)| == |in1|
  }

  /** The whole selection from the files picked first. */
  ghost function PlanOf(level: nat, own: seq<File>, parents: seq<File>, grands: seq<File>, picked: seq<File>,
                        limit: nat): (c: Plan)
    requires Extended(own, picked) != []
    ensures c.level == level
  {
    var in0 := Extended(own, picked);
    var in1 := ParentsOf(parents, in0);
    var expanded0 := Expanded(level, own, in0, in1);
    var (c0, c1) :=
      if Worthwhile(parents, in0, in1, expanded0, limit) then (expanded0, ParentsOf(parents, expanded0)) else (in0, in1);
    Plan(level, c0, c1, Overlapping(grands, UserRange(c0 + c1)), LargestKey(c0))
  }

  /** The file's user keys meet those of the list's range. */
  predicate Meets(f: File, fs: seq<File>)
    requires fs != []
  {
    Smallest(f).user <= LargestKey(fs).user && Largest(f).user >= SmallestKey(fs).user
  }

  /** The grandparents are the files two levels down that meet the inputs. The level inputs have grown only to more files that
      meet no further file of the next level, all below the size limit together; and they have, wherever that is so. */
  ghost predicate WellGrown(parents: seq<File>, grands: seq<File>, c: Plan, in0: seq<File>, expanded0: seq<File>, limit: nat)
    requires c.in0 != [] && in0 != []
  {
    && (forall g :: g in c.grandparents <==> g in grands && Meets(g, c.in0 + c.in1))
    && (forall g :: g in c.in1 <==> g in parents && Meets(g, c.in0))
    && (c.in0 == in0 || c.in0 == expanded0)
    && (c.in0 != in0 ==>
          |c.in0| > |in0| && TotalFileSize(c.in1) + TotalFileSize(c.in0) < limit
          && forall g :: g in parents && Meets(g, c.in0) ==> Meets(g, in0))
    && (c.in0 == in0 && c.in1 != [] && expanded0 != [] && |expanded0| > |in0|
        && TotalFileSize(c.in1) + TotalFileSize(expanded0) < limit ==>
          exists g :: g in parents && Meets(g, expanded0) && !Meets(g, in0))
  }

  lemma UserRangeMeets(f: File, fs: seq<File>)
    requires fs != []
    ensures Overlaps(f, UserRange(fs)) <==> Meets(f, fs)
  {
  }

  lemma MeetersAre(files: seq<File>, fs: seq<File>)
    requires fs != []
    ensures forall f :: f in Overlapping(files, UserRange(fs)) <==> f in files && Meets(f, fs)
  {
    OverlappingMembers(files, UserRange(fs));
    forall f ensures Overlaps(f, UserRange(fs)) <==> Meets(f, fs) {
      UserRangeMeets(f, fs);
    }
  }

  /** A wider range takes at least the files of a narrower one, and as many only if they are the same. */
  lemma {:induction false} WiderTakes(files: seq<File>, r: Range, s: Range)
    requires forall f :: f in files && Overlaps(f, r) ==> Overlaps(f, s)
    ensures |Overlapping(files, r)| <= |Overlapping(files, s)|
    ensures |Overlapping(files, r)| == |Overlapping(files, s)| <==>
              forall f :: f in files && Overlaps(f, s) ==> Overlaps(f, r)
    ensures |Overlapping(files, r)| == |Overlapping(files, s)| ==> Overlapping(files, r) == Overlapping(files, s)
  {
    if files != [] {
      var front, last := files[..|files|-1], files[|files|-1];
      forall f | f in front ensures f in files {
      }
      WiderTakes(front, r, s);
      assert forall f :: f in files <==> f in front || f == last;
    }
  }

  lemma {:induction false} SmallestKeyIsSmallest(files: seq<File>)
    requires files != []
    ensures forall f :: f in files ==> SmallestKey(files).user <= Smallest(f).user
    ensures exists f :: f in files && Smallest(f) == SmallestKey(files)
  {
    var n := |files| - 1;
    assert files[n] in files;
    if n > 0 {
      SmallestKeyIsSmallest(files[..n]);
      CompareIsLexicographic(Smallest(files[n]), SmallestKey(files[..n]));
      CompareIsLexicographic(SmallestKey(files[..n]), Smallest(files[n]));
      var g :| g in files[..n] && Smallest(g) == SmallestKey(files[..n]);
      assert g in files && files[n] in files;
      assert forall f :: f in files ==> f in files[..n] || f == files[n];
    }
  }

  lemma MeetsGrows(f: File, few: seq<File>, many: seq<File>)
    requires few != [] && Files(few) <= Files(many)
    ensures many != [] && (Meets(f, few) ==> Meets(f, many))
  {
    SmallestKeyIsSmallest(few);
    var g :| g in few && Smallest(g) == SmallestKey(few);
    assert g in Files(few);
    SmallestKeyIsSmallest(many);
    LargestUser(few);
    var h :| h in few && Largest(h) == LargestKey(few);
    assert h in Files(few);
    LargestUser(many);
  }

  lemma {:induction false} LargestUser(files: seq<File>)
    requires files != []
    ensures forall f :: f in files ==> Largest(f).user <= LargestKey(files).user
    ensures exists f :: f in files && Largest(f) == LargestKey(files)
  {
    hide Less;
    var n := |files| - 1;
    assert files[n] in files;
    if n > 0 {
      LargestUser(files[..n]);
      CompareIsLexicographic(LargestKey(files[..n]), Largest(files[n]));
      CompareIsLexicographic(Largest(files[n]), LargestKey(files[..n]));
      var g :| g in files[..n] && Largest(g) == LargestKey(files[..n]);
      assert g in files && files[n] in files;
      assert forall f :: f in files ==> f in files[..n] || f == files[n];
    }
  }

  /** The expansion asks for no more parents exactly when it meets none that the inputs do not. */
  lemma SameParents(parents: seq<File>, in0: seq<File>, expanded0: seq<File>)
    requires in0 != [] && Files(in0) <= Files(expanded0)
    ensures expanded0 != []
    ensures |ParentsOf(parents, expanded0)| == |ParentsOf(parents, in0)| <==>
              forall g :: g in parents && Meets(g, expanded0) ==> Meets(g, in0)
    ensures |ParentsOf(parents, expanded0)| == |ParentsOf(parents, in0)| ==>
              ParentsOf(parents, expanded0) == ParentsOf(parents, in0)
  {
    hide Meets;
    assert in0[0] in Files(in0);
    var r, s := UserRange(in0), UserRange(expanded0);
    forall f
      ensures (Overlaps(f, r) <==> Meets(f, in0)) && (Overlaps(f, s) <==> Meets(f, expanded0))
      ensures Meets(f, in0) ==> Meets(f, expanded0)
    {
      UserRangeMeets(f, in0);
      UserRangeMeets(f, expanded0);
      MeetsGrows(f, in0, expanded0);
    }
    WiderTakes(parents, r, s);
  }

  lemma PlanIsWellGrown(level: nat, own: seq<File>, parents: seq<File>, grands: seq<File>, picked: seq<File>, limit: nat)
    requires Extended(own, picked) != []
    requires var in0 := Extended(own, picked); var expanded0 := Expanded(level, own, in0, ParentsOf(parents, in0));
             ParentsOf(parents, in0) != [] ==> Files(in0) <= Files(expanded0)
    ensures var in0 := Extended(own, picked);
            var c := PlanOf(level, own, parents, grands, picked, limit);
            c.in0 != [] && WellGrown(parents, grands, c, in0, Expanded(level, own, in0, ParentsOf(parents, in0)), limit)
  {
    hide Extended, Overlapping, UserRange, Meets, Expanded, TotalFileSize, LargestKey;
    var in0 := Extended(own, picked);
    var in1 := ParentsOf(parents, in0);
    var expanded0 := Expanded(level, own, in0, in1);
    var c := PlanOf(level, own, parents, grands, picked, limit);
    if in1 != [] {
      SameParents(parents, in0, expanded0);
    }
    MeetersAre(parents, c.in0);
    MeetersAre(grands, c.in0 + c.in1);
  }

  /** Completes the inputs at both levels; tries to grow the level inputs when that
      needs no further file of the next level. */
  method SetupOtherInputs(level: nat, own: seq<File>, parents: seq<File>, grands: seq<File>,
                          picked: seq<File>, expandedLimit: nat) returns (c: Plan)
    requires WfLevels(level, own, parents) && StartInputs(level, own, picked)
    ensures Extended(own, picked) != [] && c == PlanOf(level, own, parents, grands, picked, expandedLimit)
    ensures SelectedFrom(own, parents, c.in0, c.in1)
    ensures Files(picked) <= Files(c.in0)
    ensures exists f :: f in c.in0 && Largest(f) == c.pointer
    ensures var in0 := Extended(own, picked);
            WellGrown(parents, grands, c, in0, Expanded(level, own, in0, ParentsOf(parents, in0)), expandedLimit)
  {
    hide WellGrown;
    var in0 := CompleteLevelInputs(level, own, parents, picked);
    PrefixFiles(picked, in0);
    var in1, largest := TakeParents(level, own, parents, in0);
    if in1 != [] {
      var expanded0 := ExpandInputs(level, own, parents, in0, in1);
      if |expanded0| > |in0| && TotalFileSize(in1) + TotalFileSize(expanded0) < expandedLimit {
        var expanded1, newLimit := TakeParents(level, own, parents, expanded0);
        if |expanded1| == |in1| {
          in0, in1, largest := expanded0, expanded1, newLimit;
        }
      }
    }
    var allStart, allLimit := GetRange(in0 + in1);
    var grandparents, _ := GetOverlappingInputs(level + 2, grands, Some(allStart.user), Some(allLimit.user));
    c := Plan(level, in0, in1, grandparents, largest);
    PlanIsWellGrown(level, own, parents, grands, picked, expandedLimit);
  }

  method CompleteLevelInputs(level: nat, own: seq<File>, ghost parents: seq<File>, picked: seq<File>) returns (in0: seq<File>)
    requires WfLevels(level, own, parents) && StartInputs(level, own, picked)
    ensures in0 == Extended(own, picked) && picked <= in0 && in0 != [] && Files(in0) <= Files(own)
    ensures NewerThan(Contents(Files(own) - Files(in0)), Contents(Files(in0)))
  {
    hide Extended, UniqueSeq, NewerThan, Less;
    in0 := AddBoundaryInputs(own, picked);
    assert picked != [];
    ghost var key :| IsLargestOf(in0, key) && forall f :: f in own ==> !IsBoundary(f, key);
    if level == 0 {
      Level0HasNoBoundary(own, picked);
    }
    StayNewer(level, own, in0, key);
  }

  lemma Level0HasNoBoundary(own: seq<File>, picked: seq<File>)
    requires ClosedInputs(own, picked)
    ensures forall f, g :: f in picked && g in own && IsBoundary(g, Largest(f)) ==> g in picked
  {
    forall f, g | f in picked && g in own && IsBoundary(g, Largest(f)) ensures g in picked {
      SmallestToLargest(f);
      SmallestToLargest(g);
      CompareIsLexicographic(Smallest(f), Largest(f));
      CompareIsLexicographic(Smallest(g), Largest(g));
    }
  }

  /** The level+1 inputs that go with in0, and the largest key of in0. */
  method TakeParents(level: nat, own: seq<File>, parents: seq<File>, in0: seq<File>)
    returns (in1: seq<File>, largest: InternalKey)
    requires WfLevels(level, own, parents) && in0 != [] && Files(in0) <= Files(own)
    requires NewerThan(Contents(Files(own) - Files(in0)), Contents(Files(in0)))
    ensures in1 == ParentsOf(parents, in0) && largest == LargestKey(in0)
    ensures SelectedFrom(own, parents, in0, in1)
    ensures exists f :: f in in0 && Largest(f) == largest
  {
    var smallest;
    smallest, largest := GetRange(in0);
    RangeIsHull(in0, smallest, largest);
    var taken, range := GetOverlappingInputs(level + 1, parents, Some(smallest.user), Some(largest.user));
    in1 := taken;
    ParentsCompleteSelection(parents, in0, smallest.user, largest.user);
  }

  /** Every file of the level inside the range of all inputs so far, completed again. */
  method ExpandInputs(level: nat, own: seq<File>, parents: seq<File>, in0: seq<File>, in1: seq<File>)
    returns (expanded0: seq<File>)
    requires WfLevels(level, own, parents) && in0 != [] && Files(in0) <= Files(own)
    ensures expanded0 == Expanded(level, own, in0, in1) && expanded0 != [] && Files(in0) <= Files(expanded0) <= Files(own)
    ensures NewerThan(Contents(Files(own) - Files(expanded0)), Contents(Files(expanded0)))
  {
    var allStart, allLimit := GetRange(in0 + in1);
    RangeIsHull(in0 + in1, allStart, allLimit);
    var overlap, range := GetOverlappingInputs(level, own, Some(allStart.user), Some(allLimit.user));
    OverlapCoversInputs(own, range, in0, in1, allStart.user, allLimit.user);
    assert in0[0] in Files(in0);
    GrownInputsStart(level, own, range, overlap);
    expanded0 := CompleteLevelInputs(level, own, parents, overlap);
    PrefixFiles(overlap, expanded0);
  }

  lemma PrefixFiles(a: seq<File>, b: seq<File>)
    requires a <= b
    ensures Files(a) <= Files(b)
  {
  }

  lemma OverlapCoversInputs(levelFiles: seq<File>, range: Range, in0: seq<File>, in1: seq<File>, begin: UserKey, end: UserKey)
    requires IsHull(in0 + in1, begin, end) && Includes(range, Range(Some(begin), Some(end)))
    requires Files(in0) <= Files(levelFiles)
    ensures Files(in0) <= Files(Overlapping(levelFiles, range))
  {
    OverlappingMembers(levelFiles, range);
    forall f | f in Files(in0) ensures f in Files(Overlapping(levelFiles, range)) {
      assert f in in0 + in1;
      SmallestToLargest(f);
      CompareIsLexicographic(Smallest(f), Largest(f));
    }
  }

  lemma GrownInputsStart(level: nat, levelFiles: seq<File>, range: Range, fs: seq<File>)
    requires fs == Overlapping(levelFiles, range) && fs != []
    requires level == 0 ==> ClosedRange(levelFiles, range)
    requires level > 0 ==> LevelSorted(levelFiles)
    ensures StartInputs(level, levelFiles, fs)
  {
    if level == 0 {
      ClosedRangeGivesClosedInputs(levelFiles, range);
    } else {
      OverlappingIsRun(levelFiles, range);
    }
  }

  /** What starts a compaction: too much data in a level, a file that cost too many seeks, or a caller. */
  datatype Trigger =
    | Sized(pointer: Option<InternalKey>)
    | Sought(file: File)
    | Manual(begin: Option<UserKey>, end: Option<UserKey>)

  function FirstPast(own: seq<File>, pointer: InternalKey): (f: Option<File>)
  {
    if own == [] then None else if Less(pointer, Largest(own[0])) then Some(own[0]) else FirstPast(own[1..], pointer)
  }

  /** The first file past the compaction pointer, or the level's first file. */
  function SizedFile(own: seq<File>, pointer: Option<InternalKey>): File
    requires own != []
  {
    if pointer.None? then own[0]
    else var f := FirstPast(own, pointer.value); if f.Some? then f.value else own[0]
  }

  ghost function WithOverlaps(level: nat, own: seq<File>, file: File): seq<File> {
    if level == 0 then Overlapping(own, LeastRange(own, UserRange([file]))) else [file]
  }

  /** As many files as come to the limit. */
  function CutToSize(files: seq<File>, i: nat, total: nat, limit: nat): seq<File>
    requires i <= |files|
    decreases |files| - i
  {
    if i == |files| then files
    else if total + files[i].size >= limit then files[..i+1]
    else CutToSize(files, i + 1, total + files[i].size, limit)
  }

  /** No part of the list comes to the limit. */
  predicate StaysBelow(files: seq<File>, limit: nat) {
    forall n :: 0 < n < |files| ==> TotalFileSize(files[..n]) < limit
  }

  /** The first of the files that the range touches; they come to the limit, or they are all. */
  predicate PickedBySize(own: seq<File>, r: Range, limit: nat, picked: seq<File>) {
    && picked <= Overlapping(own, r) && StaysBelow(picked, limit)
    && (picked == Overlapping(own, r) || TotalFileSize(picked) >= limit)
  }

  /** The files cut are the first ones; but for the last they stay below the limit, and they come to it or are all. */
  lemma CutToSizeIs(files: seq<File>, limit: nat)
    ensures var r := CutToSize(files, 0, 0, limit);
            r <= files && StaysBelow(r, limit) && (r == files || TotalFileSize(r) >= limit)
  {
    CutFrom(files, 0, limit);
  }

  lemma TotalNext(files: seq<File>, i: nat)
    requires i < |files|
    ensures TotalFileSize(files[..i+1]) == TotalFileSize(files[..i]) + files[i].size
  {
    assert files[..i+1][..i] == files[..i];
  }

  lemma {:induction false} CutFrom(files: seq<File>, i: nat, limit: nat)
    requires i <= |files| && forall n :: 0 < n <= i ==> TotalFileSize(files[..n]) < limit
    ensures var r := CutToSize(files, i, TotalFileSize(files[..i]), limit);
            r <= files && StaysBelow(r, limit) && (r == files || TotalFileSize(r) >= limit)
    decreases |files| - i
  {
    hide TotalFileSize;
    if i < |files| {
      TotalNext(files, i);
      if TotalFileSize(files[..i]) + files[i].size >= limit {
        var r := files[..i+1];
        forall n | 0 < n < |r| ensures TotalFileSize(r[..n]) < limit {
          assert r[..n] == files[..n];
        }
      } else {
        CutFrom(files, i + 1, limit);
      }
    } else {
      forall n | 0 < n < |files| ensures TotalFileSize(files[..n]) < limit {
      }
    }
  }

  /** The level's first file that ends past the pointer; its first file if there is no pointer, or none past it. */
  predicate FirstAfter(own: seq<File>, pointer: Option<InternalKey>, file: File) {
    exists i :: 0 <= i < |own| && own[i] == file &&
      if pointer.Some? && (exists j :: 0 <= j < |own| && Less(pointer.value, Largest(own[j]))) then
        Less(pointer.value, Largest(own[i])) && forall j :: 0 <= j < i ==> !Less(pointer.value, Largest(own[j]))
      else i == 0
  }

  /** The files a compaction of the level begins with; none for a range the level does not touch. */
  ghost function FirstInputs(level: nat, own: seq<File>, trigger: Trigger, fileLimit: nat): seq<File>
    requires trigger.Sized? ==> own != []
  {
    match trigger
    case Sized(pointer) => WithOverlaps(level, own, SizedFile(own, pointer))
    case Sought(file) => WithOverlaps(level, own, file)
    case Manual(begin, end) =>
      var files := Overlapping(own, OverlapRange(level, own, Range(begin, end)));
      if level == 0 then files else CutToSize(files, 0, 0, fileLimit)
  }

  /** Size- or seek-triggered compaction: start from one file (the first past the
      compaction pointer, wrapping round, or the file the seek budget named). */
  method PickCompaction(level: nat, own: seq<File>, parents: seq<File>, grands: seq<File>,
                        compactPointer: Option<InternalKey>, seekFile: Option<File>, expandedLimit: nat) returns (c: Plan)
    requires WfLevels(level, own, parents) && own != []
    requires seekFile.Some? ==> seekFile.value in own
    ensures var picked := FirstInputs(level, own, if seekFile.Some? then Sought(seekFile.value) else Sized(compactPointer), 0);
            Extended(own, picked) != [] && c == PlanOf(level, own, parents, grands, picked, expandedLimit)
    ensures SelectedFrom(own, parents, c.in0, c.in1)
    ensures seekFile.Some? ==> seekFile.value in c.in0
    ensures seekFile.None? && compactPointer.Some? &&
            (exists f :: f in own && Less(compactPointer.value, Largest(f))) ==>
              exists f :: f in c.in0 && Less(compactPointer.value, Largest(f))
    ensures seekFile.None? ==> exists f :: f in c.in0 && FirstAfter(own, compactPointer, f)
  {
    hide FirstAfter, Less, PlanOf, Extended, StartInputs, WithOverlaps, WfLevels, WellGrown, Selected;
    var file := own[0];
    FirstIsAfter(own);
    if seekFile.Some? {
      file := seekFile.value;
    } else if compactPointer.Some? {
      file := FirstPastPointer(own, compactPointer.value);
    }
    var inputs := StartFrom(level, own, file);
    c := SetupOtherInputs(level, own, parents, grands, inputs, expandedLimit);
    assert file in Files(c.in0);
  }

  lemma FirstIsAfter(own: seq<File>)
    requires own != []
    ensures FirstAfter(own, None, own[0])
  {
  }

  method FirstPastPointer(own: seq<File>, pointer: InternalKey) returns (file: File)
    requires own != []
    ensures FirstAfter(own, Some(pointer), file)
    ensures file in own && file == SizedFile(own, Some(pointer))
    ensures (exists f :: f in own && Less(pointer, Largest(f))) ==> Less(pointer, Largest(file))
  {
    var i := 0;
    while i < |own|
      invariant 0 <= i <= |own|
      invariant forall j :: 0 <= j < i ==> !Less(pointer, Largest(own[j]))
      invariant FirstPast(own, pointer) == FirstPast(own[i..], pointer)
    {
      if Less(pointer, Largest(own[i])) { return own[i]; }
      i := i + 1;
    }
    return own[0];
  }

  /** The file, on level 0 with those it overlaps. */
  method StartFrom(level: nat, own: seq<File>, file: File) returns (inputs: seq<File>)
    requires file in own
    ensures inputs == WithOverlaps(level, own, file) && StartInputs(level, own, inputs) && file in Files(inputs)
  {
    hide ClosedInputs;
    inputs := [file];
    if level == 0 {
      inputs := CloseLevel0(own, file);
    } else {
      var i :| 0 <= i < |own| && own[i] == file;
      assert inputs == own[i..i+1];
    }
  }

  /** Level 0 files may overlap each other: take every file the picked one drags along. */
  method CloseLevel0(own: seq<File>, file: File) returns (inputs: seq<File>)
    requires file in own
    ensures inputs == WithOverlaps(0, own, file) && ClosedInputs(own, inputs) && file in inputs
  {
    var smallest, largest := GetRange([file]);
    RangeIsHull([file], smallest, largest);
    var taken, range := GetOverlappingInputs(0, own, Some(smallest.user), Some(largest.user));
    assert [file] + [] == [file];
    OverlapCoversInputs(own, range, [file], [], smallest.user, largest.user);
    assert file in Files([file]);
    inputs := taken;
    GrownInputsStart(0, own, range, inputs);
  }

  /** Manual compaction of a key range; above level 0 only as many files as fit `fileLimit`. */
  method CompactRange(level: nat, own: seq<File>, parents: seq<File>, grands: seq<File>,
                      begin: Option<UserKey>, end: Option<UserKey>, fileLimit: nat, expandedLimit: nat)
    returns (c: Option<Plan>)
    requires WfLevels(level, own, parents)
    ensures var picked := FirstInputs(level, own, Manual(begin, end), fileLimit);
            if picked == [] then c.None?
            else Extended(own, picked) != [] && c == Some(PlanOf(level, own, parents, grands, picked, expandedLimit))
    ensures c.Some? ==> SelectedFrom(own, parents, c.value.in0, c.value.in1)
    ensures c.None? && level > 0 ==> forall f :: f in own ==> !Overlaps(f, Range(begin, end))
    ensures c.Some? && level > 0 ==>
              PickedBySize(own, Range(begin, end), fileLimit, FirstInputs(level, own, Manual(begin, end), fileLimit))
  {
    hide PlanOf, Selected, OverlapRange, Extended, IsRun, ClosedInputs, UniqueSeq, WellGrown, CutToSize, StaysBelow;
    hide Less, LevelSorted, Overlaps, Overlapping, NewerThan, Contents, Files, ClosedRange;
    var inputs, range := GetOverlappingInputs(level, own, begin, end);
    AboveLevel0(level, own, Range(begin, end));
    CutToSizeIs(Overlapping(own, Range(begin, end)), fileLimit);
    if inputs == [] {
      OverlappingMembers(own, range);
      return None;
    }
    GrownInputsStart(level, own, range, inputs);
    if level > 0 {
      inputs := CutInputs(own, inputs, fileLimit);
    }
    var plan := SetupOtherInputs(level, own, parents, grands, inputs, expandedLimit);
    return Some(plan);
  }

  lemma AboveLevel0(level: nat, own: seq<File>, r: Range)
    ensures level > 0 ==> OverlapRange(level, own, r) == r
  {
  }

  method CutInputs(ghost own: seq<File>, files: seq<File>, fileLimit: nat) returns (inputs: seq<File>)
    requires IsRun(own, files)
    ensures IsRun(own, inputs) && inputs == CutToSize(files, 0, 0, fileLimit)
  {
    inputs := files;
    var total: nat, i := 0, 0;
    while i < |inputs|
      invariant 0 <= i <= |inputs| && inputs == files
      invariant CutToSize(files, 0, 0, fileLimit) == CutToSize(files, i, total, fileLimit)
    {
      total := total + inputs[i].size;
      if total >= fileLimit {
        PrefixIsRun(own, inputs, i + 1);
        inputs := inputs[..i+1];
        return;
      }
      i := i + 1;
    }
  }

  lemma PrefixIsRun(level: seq<File>, fs: seq<File>, n: nat)
    requires IsRun(level, fs) && 0 < n <= |fs|
    ensures IsRun(level, fs[..n])
  {
    var lo, hi :| 0 <= lo < hi <= |level| && fs == level[lo..hi];
    assert level[lo..hi][..n] == level[lo..lo+n];
  }
}
