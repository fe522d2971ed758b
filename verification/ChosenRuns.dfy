/** Runs of the store whose every choice is the code's, put together from single steps. */
module ChosenRuns {
  import opened InternalKeys
  import opened FlatSpec
  import opened Versions
  import opened OverlapSearch
  import opened CompactionRules
  import opened CompactionInputs
  import opened FlushLevel
  import opened Store
  import opened StoreChoices
  import opened SnapshotIsolation
  import VersionBuilder

  /** A store with small files: an output is closed at three entries. */
  const SMALL: Limits := Limits(3, (es: seq<Entry>) => |es|)

  /** A run that keeps the store well formed and faithful, every choice in it the code's. */
  ghost predicate Reaches(st: State, g: seq<File>, steps: seq<Step>, st': State, g': seq<File>) {
    Run(st, steps) && After(st, steps) == st' && ChosenRun(st, g, steps, SMALL, st', g')
  }

  lemma OneStep(st: State, g: seq<File>, step: Step, st': State, g': seq<File>)
    requires Enabled(st, step) && !step.FinishCompaction? && Apply(st, step) == st'
    requires ChosenStep(st, g, step, SMALL, g')
    ensures Reaches(st, g, [step], st', g')
  {
    SafeStep(st, g, step, st', g');
  }

  lemma SafeStep(st: State, g: seq<File>, step: Step, st': State, g': seq<File>)
    requires Enabled(st, step) && Harmless(st, step) && Fits(st, step) && Apply(st, step) == st'
    requires ChosenStep(st, g, step, SMALL, g')
    ensures Reaches(st, g, [step], st', g')
  {
    hide ChosenStep, ChosenRun, Run, After, Enabled, Apply, Harmless, Fits;
    RunOnce(st, step);
    ChosenOnce(st, g, step, SMALL, g');
  }

  lemma RunOnce(st: State, step: Step)
    requires Enabled(st, step) && Harmless(st, step) && Fits(st, step)
    ensures Run(st, [step]) && After(st, [step]) == Apply(st, step)
  {
    hide Enabled, Apply, Harmless, Fits;
    assert [step][1..] == [];
    assert Run(Apply(st, step), []);
  }

  lemma Joined(a: State, g: seq<File>, s: seq<Step>, b: State, h: seq<File>, t: seq<Step>, c: State, i: seq<File>)
    requires Reaches(a, g, s, b, h) && Reaches(b, h, t, c, i)
    ensures Reaches(a, g, s + t, c, i)
  {
    hide ChosenRun;
    RunJoined(a, s, b, t, c);
    ChosenJoined(a, g, s, b, h, t, c, i, SMALL);
  }

  lemma {:induction false} RunJoined(a: State, s: seq<Step>, b: State, t: seq<Step>, c: State)
    requires Run(a, s) && After(a, s) == b && Run(b, t) && After(b, t) == c
    ensures Run(a, s + t) && After(a, s + t) == c
    decreases |s|
  {
    if s == [] {
      assert s + t == t;
    } else {
      assert (s + t)[0] == s[0] && (s + t)[1..] == s[1..] + t;
      RunJoined(Apply(a, s[0]), s[1..], b, t, c);
    }
  }

  /** The store after some writes, and whatever the memtable held, have gone to a table. */
  ghost function WithTable(st: State, ops: seq<Op>, f: File, level: nat): State
    requires level < |st.levels|
  {
    var hist := st.hist + Stamp(ops, st.lastSeq + 1);
    st.(hist := hist, flushed := |hist|, memStart := |hist|, mem := {}, lastSeq := st.lastSeq + |ops|,
        levels := st.levels[level := st.levels[level] + {f}], nextFile := f.number + 1,
        pending := WithArrival(st.pending, f, level))
  }

  function TableSteps(ops: seq<Op>, f: File, level: nat): seq<Step> {
    [Write(ops)] + [Rotate] + [Flush(Some(f), level)]
  }

  lemma WritesTable(st: State, g: seq<File>, ops: seq<Op>, f: File, level: nat)
    requires st.imm.None? && ops != [] && st.lastSeq + |ops| < MAX_SEQUENCE_NUMBER
    requires Elems(f.entries) == st.mem + Elems(Stamp(ops, st.lastSeq + 1)) && f.number >= st.nextFile
    requires level < |st.levels| && (level == 0 || NoOverlapTo(st.levels, f, level))
    requires FlushChosen(st.levels, f, level, SMALL)
    ensures Reaches(st, g, TableSteps(ops, f, level), WithTable(st, ops, f, level), g)
  {
    hide NoOverlapTo, Reaches, FlushChosen;
    var es := Stamp(ops, st.lastSeq + 1);
    var a := st.(hist := st.hist + es, mem := st.mem + Elems(es), lastSeq := st.lastSeq + |ops|);
    var b := a.(imm := Some(a.mem), mem := {}, memStart := |a.hist|);
    OneStep(st, g, Write(ops), a, g);
    OneStep(a, g, Rotate, b, g);
    assert es[0] in Elems(es);
    OneStep(b, g, Flush(Some(f), level), WithTable(st, ops, f, level), g);
    Joined(st, g, [Write(ops)], a, g, [Rotate], b, g);
    Joined(st, g, [Write(ops)] + [Rotate], b, g, [Flush(Some(f), level)], WithTable(st, ops, f, level), g);
  }

  // ---------- stores with files at levels 1 and 2 only ----------

  function Levels(one: set<File>, two: set<File>): seq<set<File>> {
    [{}, one, two, {}, {}, {}, {}]
  }

  function Listing(one: seq<File>, two: seq<File>): seq<seq<File>> {
    [[], one, two, [], [], [], []]
  }

  lemma Listed(one: seq<File>, two: seq<File>)
    requires VersionBuilder.InOrder(one) && VersionBuilder.InOrder(two)
    ensures Represents(Listing(one, two), Levels(Files(one), Files(two)))
  {
    assert Files([]) == {};
  }

  lemma AtLevelOne(one: set<File>, two: set<File>, f: File)
    ensures Levels(one, two)[1 := Levels(one, two)[1] + {f}] == Levels(one + {f}, two)
    ensures {} + {f} == {f}
  {
  }

  lemma AtLevelTwo(one: set<File>, two: set<File>, f: File)
    ensures Levels(one, two)[2 := Levels(one, two)[2] + {f}] == Levels(one, two + {f})
  {
  }

  lemma {:induction false} OverlapIsSmaller(files: seq<File>, r: Range)
    ensures TotalFileSize(Overlapping(files, r)) <= TotalFileSize(files)
  {
    if files != [] {
      var front := Overlapping(files[..|files|-1], r);
      OverlapIsSmaller(files[..|files|-1], r);
      assert (front + [files[|files|-1]])[..|front|] == front && front + [] == front;
    }
  }

  /** A table goes to level 2 if nothing overlaps it, to level 1 if something does at level 2 only. */
  lemma PickedAbove(one: seq<File>, two: seq<File>, r: Range)
    requires TotalFileSize(two) <= SMALL.MaxGrandParentOverlap() && !AnyOverlap(one, r)
    ensures PickedLevel(Listing(one, two), r, SMALL.MaxGrandParentOverlap()) == if AnyOverlap(two, r) then 1 else 2
  {
    var files, limit := Listing(one, two), SMALL.MaxGrandParentOverlap();
    OverlapIsSmaller(two, r);
    assert Overlapping([], r) == [];
    assert PickedLevel(files, r, limit) == DeepestFrom(files, r, limit, 0) == DeepestFrom(files, r, limit, 1);
  }

  lemma FlushIsChosen(one: seq<File>, two: seq<File>, f: File, level: nat)
    requires VersionBuilder.InOrder(one) && VersionBuilder.InOrder(two) && TotalFileSize(two) <= SMALL.MaxGrandParentOverlap()
    requires f.size == |f.entries| && !AnyOverlap(one, TableRange(f)) && level == if AnyOverlap(two, TableRange(f)) then 1 else 2
    ensures FlushChosen(Levels(Files(one), Files(two)), f, level, SMALL)
  {
    Listed(one, two);
    PickedAbove(one, two, TableRange(f));
  }

  // ---------- a caller asks for all of level 1 ----------

  const WholeLevel: Trigger := Manual(None, None)

  lemma {:induction false} AllOverlap(files: seq<File>, r: Range)
    requires forall f :: f in files ==> Overlaps(f, r)
    ensures Overlapping(files, r) == files
  {
    if files != [] {
      var n := |files| - 1;
      assert files == files[..n] + [files[n]];
      AllOverlap(files[..n], r);
    }
  }

  lemma {:induction false} CutKeepsAll(files: seq<File>, i: nat, total: nat, limit: nat)
    requires i <= |files| && total == TotalFileSize(files[..i]) && TotalFileSize(files) < limit
    ensures CutToSize(files, i, total, limit) == files
    decreases |files| - i
  {
    if i < |files| {
      assert files[..i+1][..i] == files[..i];
      PrefixIsSmaller(files, i + 1);
      CutKeepsAll(files, i + 1, total + files[i].size, limit);
    }
  }

  lemma {:induction false} PrefixIsSmaller(files: seq<File>, n: nat)
    requires n <= |files|
    ensures TotalFileSize(files[..n]) <= TotalFileSize(files)
    decreases |files|
  {
    if n < |files| {
      var front := files[..|files|-1];
      assert front[..n] == files[..n];
      PrefixIsSmaller(front, n);
    } else {
      assert files[..n] == files;
    }
  }

  lemma {:induction false} NoBoundaryFile(files: seq<File>, key: InternalKey)
    requires forall f :: f in files ==> !IsBoundary(f, key)
    ensures SmallestBoundary(files, key).None?
  {
    if files != [] {
      NoBoundaryFile(files[..|files|-1], key);
    }
  }

  /** Compacting a whole small level, none of whose files continues its last key, takes that level and the
      overlapping files of the next. */
  lemma WholeLevelPlan(one: seq<File>, two: seq<File>)
    requires one != [] && TotalFileSize(one) < SMALL.maxFileSize
    requires forall f :: f in one ==> !IsBoundary(f, LargestKey(one)) && Overlaps(f, UserRange(one + ParentsOf(two, one)))
    ensures ChosenPlan(Listing(one, two), 1, WholeLevel, SMALL)
         == Some(Plan(1, one, ParentsOf(two, one), [], LargestKey(one)))
  {
    hide LargestKey, UserRange, PlanOf, Extended;
    WholeLevelPicked(one);
    WholeLevelExtended(one);
    WholeLevelIsKept(one, two);
  }

  lemma WholeLevelPicked(one: seq<File>)
    requires TotalFileSize(one) < SMALL.maxFileSize
    ensures FirstInputs(1, one, WholeLevel, SMALL.maxFileSize) == one
  {
    AnythingOverlaps(one);
    AllOverlap(one, Range(None, None));
    assert one[..0] == [];
    CutKeepsAll(one, 0, 0, SMALL.maxFileSize);
  }

  lemma WholeLevelExtended(one: seq<File>)
    requires one != [] && forall f :: f in one ==> !IsBoundary(f, LargestKey(one))
    ensures Extended(one, one) == one
  {
    NoBoundaryFile(one, LargestKey(one));
  }

  lemma WholeLevelIsKept(one: seq<File>, two: seq<File>)
    requires one != [] && Extended(one, one) == one
    requires forall f :: f in one ==> Overlaps(f, UserRange(one + ParentsOf(two, one)))
    ensures PlanOf(1, one, two, [], one, SMALL.ExpandedCompaction())
         == Plan(1, one, ParentsOf(two, one), [], LargestKey(one))
  {
    hide LargestKey, UserRange, Extended, ParentsOf;
    AllOverlap(one, UserRange(one + ParentsOf(two, one)));
    assert Overlapping([], UserRange(one + ParentsOf(two, one))) == [];
  }

  lemma AnythingOverlaps(files: seq<File>)
    ensures forall f :: f in files ==> Overlaps(f, Range(None, None))
  {
  }

  lemma WholeLevelChosen(one: seq<File>, two: seq<File>)
    requires VersionBuilder.InOrder(one) && VersionBuilder.InOrder(two) && two != []
    requires one != [] && TotalFileSize(one) < SMALL.maxFileSize
    requires forall f :: f in one ==> !IsBoundary(f, LargestKey(one)) && Overlaps(f, UserRange(one + ParentsOf(two, one)))
    ensures PlanChosen(Levels(Files(one), Files(two)), Plan(1, one, ParentsOf(two, one), [], LargestKey(one)), false, SMALL)
  {
    hide LargestKey, UserRange, Movable, ChosenPlan;
    var files := Listing(one, two);
    Listed(one, two);
    WholeLevelPlan(one, two);
    AnythingOverlaps(two);
    assert AnyOverlap(files[2], Range(None, None)) by { assert two[0] in two; }
    assert MayStart(files, 1, WholeLevel);
  }

  // ---------- lists of one and two files ----------

  lemma OneKeys(f: File)
    ensures UserRange([f]) == TableRange(f) && LargestKey([f]) == Largest(f) && TotalFileSize([f]) == f.size
    ensures Files([f]) == {f} && VersionBuilder.InOrder([f])
  {
    assert [f][..0] == [];
  }

  lemma TwoKeys(f: File, g: File)
    requires VersionBuilder.Before(f, g) && Less(Largest(f), Largest(g))
    ensures UserRange([f, g]) == Range(Some(Smallest(f).user), Some(Largest(g).user)) && LargestKey([f, g]) == Largest(g)
    ensures TotalFileSize([f, g]) == f.size + g.size && Files([f, g]) == {f, g} && VersionBuilder.InOrder([f, g])
  {
    assert [f, g][..1] == [f];
    OneKeys(f);
    VersionBuilder.BeforeTrichotomy(f, g);
    CompareIsLexicographic(Smallest(g), Smallest(f));
    assert SmallestKey([f, g]) == Smallest(f);
  }

  // ---------- cutting, with no grandparents ----------

  const SmallCuts: CutRules := CutRules([], SMALL.MaxGrandParentOverlap(), SMALL.sizeOf, SMALL.maxFileSize)

  function Sliced(closed: seq<seq<Entry>>, open: seq<Entry>): Cutting {
    Cutting(closed, open, 0, 0)
  }

  lemma CutNothing(merged: seq<Entry>, smallest: nat)
    ensures CutAfter(SmallCuts, merged, 0, smallest, {}) == Sliced([], [])
  {
  }

  lemma CutOneMore(merged: seq<Entry>, n: nat, smallest: nat)
    requires 0 < n <= |merged|
    ensures var c := CutAfter(SmallCuts, merged, n - 1, smallest, {});
            c == Sliced(c.closed, c.open) ==>
              CutAfter(SmallCuts, merged, n, smallest, {})
              == if Dropped(merged, n - 1, smallest, {}) then c
                 else if |c.open| + 1 >= SMALL.maxFileSize then Sliced(c.closed + [c.open + [merged[n-1]]], [])
                 else Sliced(c.closed, c.open + [merged[n-1]])
  {
    hide Dropped;
  }
}
