/** Where a flushed memtable goes (db/version_set.cc, PickLevelForMemTableOutput). */
module FlushLevel {
  import opened InternalKeys
  import opened FlatSpec
  import opened Versions
  import opened OverlapSearch

  const MAX_MEM_COMPACT_LEVEL: nat := 2

  predicate AnyOverlap(files: seq<File>, r: Range) {
    exists f :: f in files && Overlaps(f, r)
  }

  predicate SeqnosInRange(files: seq<File>) {
    forall f :: f in files ==> Largest(f).seqno <= MAX_SEQUENCE_NUMBER
  }

  lemma AfterSeek(files: seq<File>, u: UserKey, index: nat)
    requires LevelSorted(files) && SeqnosInRange(files) && index <= |files|
    requires forall i :: 0 <= i < index ==> Less(Largest(files[i]), SeekKey(u, MAX_SEQUENCE_NUMBER))
    requires forall i :: index <= i < |files| ==> !Less(Largest(files[i]), SeekKey(u, MAX_SEQUENCE_NUMBER))
    ensures forall i :: 0 <= i < |files| ==> (Largest(files[i]).user >= u <==> index <= i)
  {
    forall i | 0 <= i < |files| ensures Largest(files[i]).user >= u <==> index <= i {
      SeekKeySplits(Largest(files[i]), u, MAX_SEQUENCE_NUMBER);
      assert files[i] in files;
    }
  }

  /** Does any file of the level touch the user-key range? A sorted level answers by
      binary search, level 0 by looking at every file. */
  method SomeFileOverlapsRange(disjointSorted: bool, files: seq<File>, smallest: Option<UserKey>, largest: Option<UserKey>)
    returns (b: bool)
    requires disjointSorted ==> LevelSorted(files) && SeqnosInRange(files)
    ensures b <==> AnyOverlap(files, Range(smallest, largest))
  {
    if !disjointSorted {
      var i := 0;
      while i < |files|
        invariant 0 <= i <= |files|
        invariant forall j :: 0 <= j < i ==> !Overlaps(files[j], Range(smallest, largest))
      {
        var f := files[i];
        if (smallest.Some? && smallest.value > Largest(f).user) || (largest.Some? && largest.value < Smallest(f).user) {
        } else {
          assert f in files && Overlaps(f, Range(smallest, largest));
          return true;
        }
        i := i + 1;
      }
      return false;
    }
    var index := 0;
    if smallest.Some? {
      index := FindFile(files, SeekKey(smallest.value, MAX_SEQUENCE_NUMBER));
      AfterSeek(files, smallest.value, index);
    }
    assert forall i :: 0 <= i < index ==> !Overlaps(files[i], Range(smallest, largest));
    if index >= |files| {
      return false;
    }
    b := !(largest.Some? && largest.value < Smallest(files[index]).user);
    if !b {
      forall j | index <= j < |files| ensures !Overlaps(files[j], Range(smallest, largest)) {
        LaterStartsLater(files, index, j);
      }
    }
    assert b ==> Overlaps(files[index], Range(smallest, largest)) && files[index] in files;
  }

  lemma LaterStartsLater(files: seq<File>, i: nat, j: nat)
    requires LevelSorted(files) && i <= j < |files|
    ensures Smallest(files[i]).user <= Smallest(files[j]).user
  {
    if i < j {
      SmallestToLargest(files[i]);
      assert Less(Largest(files[i]), Smallest(files[j]));
      CompareIsLexicographic(Smallest(files[i]), Largest(files[i]));
      CompareIsLexicographic(Largest(files[i]), Smallest(files[j]));
    }
  }

  predicate ClearDownTo(files: seq<seq<File>>, level: nat, r: Range) {
    forall l :: 0 <= l <= level && l < |files| ==> !AnyOverlap(files[l], r)
  }

  /** From `level`, one level deeper for as long as nothing overlaps there and little enough further down. */
  function DeepestFrom(files: seq<seq<File>>, r: Range, limit: nat, level: nat): nat
    requires |files| == NUM_LEVELS && level <= MAX_MEM_COMPACT_LEVEL
    decreases MAX_MEM_COMPACT_LEVEL - level
  {
    if level == MAX_MEM_COMPACT_LEVEL || AnyOverlap(files[level+1], r)
       || TotalFileSize(Overlapping(files[level+2], r)) > limit
    then level
    else DeepestFrom(files, r, limit, level + 1)
  }

  function PickedLevel(files: seq<seq<File>>, r: Range, limit: nat): nat
    requires |files| == NUM_LEVELS
  {
    if AnyOverlap(files[0], r) then 0 else DeepestFrom(files, r, limit, 0)
  }

  /** The level is clear of the new table all the way down, and it is the deepest the
      rules allow: something stops the next step. */
  method PickLevelForMemTableOutput(files: seq<seq<File>>, smallest: UserKey, largest: UserKey, maxGrandParentOverlap: nat)
    returns (level: nat)
    requires |files| == NUM_LEVELS
    requires forall l :: 0 < l < |files| ==> LevelSorted(files[l]) && SeqnosInRange(files[l])
    ensures level == PickedLevel(files, Range(Some(smallest), Some(largest)), maxGrandParentOverlap)
    ensures level <= 2
    ensures level > 0 ==> ClearDownTo(files, level, Range(Some(smallest), Some(largest)))
    ensures var r := Range(Some(smallest), Some(largest));
            level < 2 ==>
              || (level == 0 && AnyOverlap(files[0], r))
              || AnyOverlap(files[level+1], r)
              || TotalFileSize(Overlapping(files[level+2], r)) > maxGrandParentOverlap
    ensures forall l :: 2 <= l < level + 2 ==>
              TotalFileSize(Overlapping(files[l], Range(Some(smallest), Some(largest)))) <= maxGrandParentOverlap
  {
    level := 0;
    ghost var r := Range(Some(smallest), Some(largest));
    var overlap := SomeFileOverlapsRange(false, files[0], Some(smallest), Some(largest));
    if !overlap {
      while level < MAX_MEM_COMPACT_LEVEL
        invariant 0 <= level <= MAX_MEM_COMPACT_LEVEL
        invariant ClearDownTo(files, level, r)
        invariant forall l :: 2 <= l < level + 2 ==> TotalFileSize(Overlapping(files[l], r)) <= maxGrandParentOverlap
        invariant PickedLevel(files, r, maxGrandParentOverlap) == DeepestFrom(files, r, maxGrandParentOverlap, level)
      {
        overlap := SomeFileOverlapsRange(true, files[level+1], Some(smallest), Some(largest));
        if overlap { break; }
        if level + 2 < NUM_LEVELS {
          var overlaps, range := GetOverlappingInputs(level + 2, files[level+2], Some(smallest), Some(largest));
          if TotalFileSize(overlaps) > maxGrandParentOverlap { break; }
        }
        level := level + 1;
      }
    }
  }
}
