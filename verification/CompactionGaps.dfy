/** Between the inputs of a compaction that the store chose itself there is no gap
    (db/version_set.cc, PickCompaction and SetupOtherInputs). */
module CompactionGaps {
  import opened InternalKeys
  import opened FlatSpec
  import opened Versions
  import opened OverlapSearch
  import opened CompactionInputs

  ghost predicate Hit(fs: set<File>, u: UserKey) {
    exists f :: f in fs && Spanned(u, f)
  }

  predicate Inside(fs: set<File>, u: UserKey) {
    (exists f :: f in fs && Smallest(f).user <= u) && (exists f :: f in fs && u <= Largest(f).user)
  }

  /** Every key from the smallest to the largest is in the range of one of the files. */
  ghost predicate NoGap(fs: set<File>) {
    forall u :: Inside(fs, u) ==> Hit(fs, u)
  }

  ghost predicate Touches(f: File, fs: set<File>) {
    exists u :: Spanned(u, f) && Hit(fs, u)
  }

  lemma OneFile(f: File)
    ensures NoGap({f})
  {
  }

  /** Files that touch a set without gaps leave none. */
  lemma TouchingJoins(a: set<File>, b: set<File>)
    requires NoGap(a) && forall f :: f in b ==> Touches(f, a)
    ensures NoGap(a + b)
  {
    forall u | Inside(a + b, u) ensures Hit(a + b, u) {
      if Inside(a, u) {
        var f :| f in a && Spanned(u, f);
        assert f in a + b;
      } else {
        var f :| f in a + b && Smallest(f).user <= u;
        var g :| g in a + b && u <= Largest(g).user;
        OneReaches(a, b, f, g, u);
      }
    }
  }

  lemma OneReaches(a: set<File>, b: set<File>, f: File, g: File, u: UserKey)
    requires forall h :: h in b ==> Touches(h, a)
    requires f in a + b && Smallest(f).user <= u && g in a + b && u <= Largest(g).user && !Inside(a, u)
    ensures Spanned(u, f) || Spanned(u, g)
  {
    if f in b {
      var v :| Spanned(v, f) && Hit(a, v);
      var h :| h in a && Spanned(v, h);
      SmallestIsFirst(h);
    }
    if g in b {
      var v :| Spanned(v, g) && Hit(a, v);
      var h :| h in a && Spanned(v, h);
      SmallestIsFirst(h);
    }
    SmallestIsFirst(f);
    SmallestIsFirst(g);
  }

  lemma SmallestIsFirst(f: File)
    ensures Smallest(f).user <= Largest(f).user
  {
    SmallestToLargest(f);
    CompareIsLexicographic(Smallest(f), Largest(f));
  }

  // ---------- boundary files ----------

  lemma {:induction false} BoundariesTouch(own: seq<File>, base: set<File>, files: seq<File>, key: InternalKey)
    requires IsLargestOf(files, key) && NoGap(base + Files(files))
    ensures NoGap(base + Files(WithBoundaries(own, files, key))) && files <= WithBoundaries(own, files, key)
    decreases KeysAfter(own, key)
  {
    hide NoGap, IsLargestOf, IsBoundary;
    var next := SmallestBoundary(own, key);
    if next.Some? {
      SmallestBoundaryIsOne(own, key);
      NextBoundary(own, base, files, key, next.value);
      BoundariesTouch(own, base, files + [next.value], Largest(next.value));
    }
  }

  lemma NextBoundary(own: seq<File>, base: set<File>, files: seq<File>, key: InternalKey, f: File)
    requires IsLargestOf(files, key) && NoGap(base + Files(files)) && IsBoundary(f, key)
    ensures IsLargestOf(files + [f], Largest(f)) && NoGap(base + Files(files + [f]))
    ensures f in own ==> KeysAfter(own, Largest(f)) < KeysAfter(own, key)
  {
    LargestMovesOn(files, key, f);
    FewerKeysAfter(own, key, f);
    var g :| g in files && Largest(g) == key;
    SmallestIsFirst(f);
    SmallestIsFirst(g);
    assert g in base + Files(files) && Spanned(key.user, g) && Spanned(key.user, f);
    TouchingJoins(base + Files(files), {f});
    assert base + Files(files + [f]) == base + Files(files) + {f};
  }

  lemma ExtendedJoins(own: seq<File>, base: set<File>, files: seq<File>)
    requires files != [] && NoGap(base + Files(files))
    ensures NoGap(base + Files(Extended(own, files))) && files <= Extended(own, files)
  {
    LargestKeyIsLargest(files);
    BoundariesTouch(own, base, files, LargestKey(files));
  }

  // ---------- parents, and the expansion ----------

  lemma {:induction false} KeysBound(files: seq<File>)
    requires files != []
    ensures IsHull(files, SmallestKey(files).user, LargestKey(files).user)
  {
    var n := |files| - 1;
    assert files == files[..n] + [files[n]];
    if n > 0 {
      KeysBound(files[..n]);
      CompareIsLexicographic(SmallestKey(files[..n]), Smallest(files[n]));
      CompareIsLexicographic(Smallest(files[n]), SmallestKey(files[..n]));
      CompareIsLexicographic(LargestKey(files[..n]), Largest(files[n]));
    }
    HullMoves(files, SmallestKey(files).user, LargestKey(files).user);
  }

  lemma HullMoves(files: seq<File>, begin: UserKey, end: UserKey)
    requires files != []
    requires var n := |files| - 1;
             var f := files[n];
             if n == 0 then begin == Smallest(f).user && end == Largest(f).user
             else
               var (b, e) := (SmallestKey(files[..n]).user, LargestKey(files[..n]).user);
               && IsHull(files[..n], b, e)
               && begin == (if Smallest(f).user < b then Smallest(f).user else b)
               && end == (if Largest(f).user > e then Largest(f).user else e)
    ensures IsHull(files, begin, end)
  {
    var n := |files| - 1;
    assert files == files[..n] + [files[n]];
    assert files[n] in files;
  }

  lemma RangeIsInside(files: seq<File>, u: UserKey)
    requires files != []
    ensures InRange(u, UserRange(files)) <==> Inside(Files(files), u)
  {
    KeysBound(files);
    var begin, end := SmallestKey(files).user, LargestKey(files).user;
    var f :| f in files && Smallest(f).user == begin;
    var g :| g in files && Largest(g).user == end;
    assert f in Files(files) && g in Files(files);
  }

  lemma OverlappingTouches(files: seq<File>, f: File)
    requires files != [] && NoGap(Files(files)) && Overlaps(f, UserRange(files))
    ensures Touches(f, Files(files))
  {
    var begin := SmallestKey(files).user;
    var u := if Smallest(f).user < begin then begin else Smallest(f).user;
    SmallestIsFirst(f);
    KeysBound(files);
    var g :| g in files && Largest(g).user == LargestKey(files).user;
    SmallestIsFirst(g);
    RangeIsInside(files, u);
    assert Spanned(u, f);
  }

  lemma ParentsJoin(parents: seq<File>, in0: seq<File>)
    requires in0 != [] && NoGap(Files(in0))
    ensures NoGap(Files(in0) + Files(ParentsOf(parents, in0)))
  {
    hide NoGap;
    OverlappingMembers(parents, UserRange(in0));
    forall f | f in Files(ParentsOf(parents, in0)) ensures Touches(f, Files(in0)) {
      OverlappingTouches(in0, f);
    }
    TouchingJoins(Files(in0), Files(ParentsOf(parents, in0)));
  }

  lemma FilesOfConcat(a: seq<File>, b: seq<File>)
    ensures Files(a + b) == Files(a) + Files(b)
  {
  }

  /** What a widened range overlaps joins the files it began with. */
  lemma CoveredJoins(own: seq<File>, base: seq<File>, r: Range)
    requires base != [] && NoGap(Files(base)) && Covered(own, UserRange(base), r)
    requires ClosedRange(own, r) && Includes(r, UserRange(base))
    ensures NoGap(Files(base) + Files(Overlapping(own, r)))
  {
    OverlappingMembers(own, r);
    var all := Files(base) + Files(Overlapping(own, r));
    forall u | Inside(all, u) ensures Hit(all, u) {
      StaysInRange(own, base, r, u);
      RangeIsInside(base, u);
      if InRange(u, UserRange(base)) {
        var f :| f in Files(base) && Spanned(u, f);
        assert f in all;
      } else {
        var f :| f in own && Overlaps(f, r) && Spanned(u, f);
        assert f in Files(Overlapping(own, r)) && f in all;
      }
    }
  }

  lemma StaysInRange(own: seq<File>, base: seq<File>, r: Range, u: UserKey)
    requires base != [] && ClosedRange(own, r) && Includes(r, UserRange(base))
    requires Inside(Files(base) + Files(Overlapping(own, r)), u)
    ensures InRange(u, r)
  {
    OverlappingMembers(own, r);
    KeysBound(base);
  }

  lemma ExpansionJoins(level: nat, own: seq<File>, base: seq<File>)
    requires base != [] && NoGap(Files(base))
    ensures NoGap(Files(base) + Files(Overlapping(own, OverlapRange(level, own, UserRange(base)))))
  {
    hide NoGap, Covered, LeastClosed;
    var r := OverlapRange(level, own, UserRange(base));
    if level == 0 {
      assert ClosedRange(own, r) && Includes(r, UserRange(base)) by { LeastParts(own, UserRange(base)); }
      CoveredJoins(own, base, r);
    } else {
      OverlappingMembers(own, r);
      forall f | f in Files(Overlapping(own, r)) ensures Touches(f, Files(base)) {
        OverlappingTouches(base, f);
      }
      TouchingJoins(Files(base), Files(Overlapping(own, r)));
    }
  }

  lemma LeastParts(files: seq<File>, r: Range)
    ensures ClosedRange(files, LeastRange(files, r)) && Includes(LeastRange(files, r), r)
  {
  }

  lemma WiderRange(few: seq<File>, more: seq<File>, f: File)
    requires few != [] && Files(few) <= Files(more) && Overlaps(f, UserRange(few))
    ensures more != [] && Overlaps(f, UserRange(more))
  {
    assert few[0] in Files(more);
    KeysBound(few);
    KeysBound(more);
    var a :| a in few && Smallest(a).user == SmallestKey(few).user;
    var b :| b in few && Largest(b).user == LargestKey(few).user;
    assert a in Files(more) && b in Files(more);
  }

  lemma MemberOverlaps(files: seq<File>, f: File)
    requires f in files
    ensures Overlaps(f, UserRange(files))
  {
    KeysBound(files);
    SmallestIsFirst(f);
  }

  lemma OverlapsIncluded(f: File, r: Range, wide: Range)
    requires Overlaps(f, r) && Includes(wide, r)
    ensures Overlaps(f, wide)
  {
  }

  lemma ExpansionKeeps(level: nat, own: seq<File>, in0: seq<File>, in1: seq<File>)
    requires in0 != [] && Files(in0) <= Files(own)
    ensures Files(in0) <= Files(Overlapping(own, OverlapRange(level, own, UserRange(in0 + in1))))
  {
    hide LeastRange, UserRange;
    var r := OverlapRange(level, own, UserRange(in0 + in1));
    LeastParts(own, UserRange(in0 + in1));
    OverlappingMembers(own, r);
    forall f | f in Files(in0) ensures f in Files(Overlapping(own, r)) {
      MemberOverlaps(in0 + in1, f);
      OverlapsIncluded(f, UserRange(in0 + in1), r);
    }
  }

  /** Expanding leaves no gap: the parents stay among the parents of what was added. */
  lemma ExpandedHasNoGap(level: nat, own: seq<File>, parents: seq<File>, in0: seq<File>)
    requires in0 != [] && Files(in0) <= Files(own) && NoGap(Files(in0))
    ensures var e := Expanded(level, own, in0, ParentsOf(parents, in0));
            e != [] && NoGap(Files(e) + Files(ParentsOf(parents, e)))
  {
    hide NoGap, UserRange, LeastRange, OverlapRange, Extended;
    var in1 := ParentsOf(parents, in0);
    var taken := Overlapping(own, OverlapRange(level, own, UserRange(in0 + in1)));
    ParentsJoin(parents, in0);
    FilesOfConcat(in0, in1);
    ExpansionJoins(level, own, in0 + in1);
    ExpansionKeeps(level, own, in0, in1);
    assert in0[0] in Files(taken);
    ExtendedJoins(own, Files(in0 + in1), taken);
    var e := Extended(own, taken);
    PrefixFiles(taken, e);
    assert Files(in0 + in1) + Files(e) == Files(e) + Files(in1);
    ParentsOfMore(parents, in0, e);
  }

  lemma ParentsOfMore(parents: seq<File>, in0: seq<File>, e: seq<File>)
    requires in0 != [] && Files(in0) <= Files(e)
    requires NoGap(Files(e) + Files(ParentsOf(parents, in0)))
    ensures e != [] && NoGap(Files(e) + Files(ParentsOf(parents, e)))
  {
    hide NoGap, UserRange;
    assert in0[0] in Files(e);
    var in1, p := ParentsOf(parents, in0), ParentsOf(parents, e);
    OverlappingMembers(parents, UserRange(in0));
    OverlappingMembers(parents, UserRange(e));
    forall f | f in Files(in1) ensures f in Files(p) {
      WiderRange(in0, e, f);
    }
    FilesOfConcat(e, in1);
    forall f | f in Files(p) ensures Touches(f, Files(e + in1)) {
      WiderRange(e, e + in1, f);
      OverlappingTouches(e + in1, f);
    }
    TouchingJoins(Files(e + in1), Files(p));
    assert Files(e + in1) + Files(p) == Files(e) + Files(p);
  }

  /** From files without a gap the selection leaves none. */
  lemma PlanHasNoGap(level: nat, own: seq<File>, parents: seq<File>, grands: seq<File>, picked: seq<File>, limit: nat)
    requires picked != [] && NoGap(Files(picked)) && Files(Extended(own, picked)) <= Files(own)
    ensures Extended(own, picked) != []
    ensures var c := PlanOf(level, own, parents, grands, picked, limit); NoGap(Files(c.in0) + Files(c.in1))
  {
    hide NoGap, UserRange, Extended, Expanded, ParentsOf;
    assert NoGap({} + Files(picked)) by { assert {} + Files(picked) == Files(picked); }
    ExtendedJoins(own, {}, picked);
    var in0 := Extended(own, picked);
    assert {} + Files(in0) == Files(in0);
    ParentsJoin(parents, in0);
    ExpandedHasNoGap(level, own, parents, in0);
  }

  // ---------- what the store chooses itself ----------

  lemma ClosureHasNoGap(own: seq<File>, file: File)
    requires file in own
    ensures NoGap(Files(WithOverlaps(0, own, file))) && file in WithOverlaps(0, own, file)
  {
    hide NoGap, UserRange, LeastRange, Covered;
    var r := LeastRange(own, UserRange([file]));
    assert Files([file]) == {file};
    OneFile(file);
    LeastParts(own, UserRange([file]));
    LeastCovered(own, UserRange([file]));
    CoveredJoins(own, [file], r);
    OverlappingMembers(own, r);
    MemberOverlaps([file], file);
    OverlapsIncluded(file, UserRange([file]), r);
    assert Files([file]) + Files(Overlapping(own, r)) == Files(Overlapping(own, r));
  }

  lemma LeastCovered(files: seq<File>, r: Range)
    ensures Covered(files, r, LeastRange(files, r))
  {
  }

  lemma StartHasNoGap(level: nat, own: seq<File>, file: File)
    requires file in own
    ensures WithOverlaps(level, own, file) != [] && NoGap(Files(WithOverlaps(level, own, file)))
    ensures Files(WithOverlaps(level, own, file)) <= Files(own)
  {
    if level == 0 {
      ClosureHasNoGap(own, file);
      OverlappingMembers(own, LeastRange(own, UserRange([file])));
    } else {
      OneFile(file);
      assert Files([file]) == {file};
    }
  }

  lemma {:induction false} BoundariesAreOwn(own: seq<File>, files: seq<File>, key: InternalKey)
    requires Files(files) <= Files(own)
    ensures Files(WithBoundaries(own, files, key)) <= Files(own)
    decreases KeysAfter(own, key)
  {
    var next := SmallestBoundary(own, key);
    if next.Some? {
      SmallestBoundaryIsOne(own, key);
      FewerKeysAfter(own, key, next.value);
      BoundariesAreOwn(own, files + [next.value], Largest(next.value));
    }
  }

  lemma {:induction false} PastIsOwn(own: seq<File>, pointer: InternalKey)
    ensures FirstPast(own, pointer).Some? ==> FirstPast(own, pointer).value in own
  {
    if own != [] {
      PastIsOwn(own[1..], pointer);
    }
  }

  /** The inputs of a compaction that too much data or too many seeks set off leave no gap. */
  lemma AutomaticHasNoGap(level: nat, own: seq<File>, parents: seq<File>, grands: seq<File>, trigger: Trigger,
                          fileLimit: nat, limit: nat)
    requires !trigger.Manual? && (trigger.Sized? ==> own != []) && (trigger.Sought? ==> trigger.file in own)
    ensures var picked := FirstInputs(level, own, trigger, fileLimit);
            Extended(own, picked) != [] &&
            var c := PlanOf(level, own, parents, grands, picked, limit);
            NoGap(Files(c.in0) + Files(c.in1))
  {
    hide NoGap, PlanOf;
    var file := if trigger.Sought? then trigger.file else SizedFile(own, trigger.pointer);
    if trigger.Sized? && trigger.pointer.Some? {
      PastIsOwn(own, trigger.pointer.value);
    }
    StartHasNoGap(level, own, file);
    var picked := WithOverlaps(level, own, file);
    BoundariesAreOwn(own, picked, LargestKey(picked));
    PlanHasNoGap(level, own, parents, grands, picked, limit);
  }
}
