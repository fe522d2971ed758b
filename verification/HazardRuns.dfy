/** Runs of the store that lose a read or break a level (db/db_impl.cc, db/version_set.cc). */
module HazardRuns {
  import opened InternalKeys
  import opened FlatSpec
  import opened Versions
  import opened OverlapSearch
  import opened CompactionRules
  import opened CompactionInputs
  import opened FlushLevel
  import opened BoundaryHazards
  import opened Store
  import opened StoreInvariants
  import opened StoreHazards
  import opened StoreChoices
  import opened SnapshotIsolation
  import opened CompactionGaps
  import opened ChosenRuns
  import VersionBuilder

  // ---------- a compaction that brings a deleted value back ----------

  const TABLE: File := TableFile(2, 3, [Put(0, 2, "older"), Del(1, 3), Put(1, 1, "deleted")])
  const OVER: File := TableFile(3, 1, [Put(0, 4, "newer")])
  const MERGED: File := TableFile(7, 1, [Put(0, 5, "new")])

  function Deleted(): seq<Entry> {
    [Put(1, 1, "deleted"), Put(0, 2, "older"), Del(1, 3)]
  }

  const FIRST: seq<Op> := [PutOp(1, "deleted"), PutOp(0, "older")]

  ghost function Snapped(): State {
    State(Deleted()[..2], 0, 0, Elems(Deleted()[..2]), None, Levels({}, {}), 2, [2], 0, 2, None)
  }

  ghost function Filled(): State {
    State(Deleted(), 3, 3, {}, None, Levels({}, {TABLE}), 3, [2], 0, 3, None)
  }

  ghost function Stacked(): State {
    State(Deleted() + [Put(0, 4, "newer")], 4, 4, {}, None, Levels({OVER}, {TABLE}), 4, [2], 0, 4, None)
  }

  lemma SnapshotTaken()
    ensures Reaches(Empty(), [], [Write(FIRST)] + [TakeSnapshot], Snapped(), [])
  {
    hide Reaches;
    assert Stamp(FIRST, 1) == Deleted()[..2];
    assert {} + Elems(Deleted()[..2]) == Elems(Deleted()[..2]);
    var a := Snapped().(snaps := []);
    OneStep(Empty(), [], Write(FIRST), a, []);
    OneStep(a, [], TakeSnapshot, Snapped(), []);
    Joined(Empty(), [], [Write(FIRST)], a, [], [TakeSnapshot], Snapped(), []);
  }

  /** Level 1 is empty: a table goes to level 2 unless it overlaps one there. */
  lemma NothingAtOne(two: seq<File>, f: File)
    requires forall i, j :: 0 <= i < j < |two| ==> VersionBuilder.Before(two[i], two[j])
    requires TotalFileSize(two) <= SMALL.MaxGrandParentOverlap() && f.size == |f.entries|
    ensures FlushChosen(Levels({}, Files(two)), f, if AnyOverlap(two, TableRange(f)) then 1 else 2, SMALL)
  {
    FlushIsChosen([], two, f, if AnyOverlap(two, TableRange(f)) then 1 else 2);
    assert Files([]) == {};
  }

  /** A snapshot is taken between a value of key 1 and its deletion; then all goes to a table. */
  lemma TableFilled()
    ensures Reaches(Snapped(), [], TableSteps([DeleteOp(1)], TABLE, 2), Filled(), [])
  {
    hide Reaches, FlushChosen;
    assert Stamp([DeleteOp(1)], 3) == [Del(1, 3)] && Deleted()[..2] + [Del(1, 3)] == Deleted();
    TableEntries();
    NothingAtOne([], TABLE);
    assert Files([]) == {};
    AtLevelTwo({}, {}, TABLE);
    assert {} + {TABLE} == {TABLE};
    WritesTable(Snapped(), [], [DeleteOp(1)], TABLE, 2);
  }

  lemma TableEntries()
    ensures Elems(TABLE.entries) == Elems(Deleted()) == Elems(Deleted()[..2]) + Elems([Del(1, 3)])
  {
    var t, d := TABLE.entries, Deleted();
    assert forall e :: e in Elems(t) <==> e == t[0] || e == t[1] || e == t[2];
    assert forall e :: e in Elems(d) <==> e == d[0] || e == d[1] || e == d[2];
    assert d[..2] + [Del(1, 3)] == d;
  }

  /** The next table overlaps it, and stays above. */
  lemma TableCovered()
    ensures Reaches(Filled(), [], TableSteps([PutOp(0, "newer")], OVER, 1), Stacked(), [])
  {
    hide Reaches, FlushChosen;
    assert Stamp([PutOp(0, "newer")], 4) == [Put(0, 4, "newer")];
    assert {} + Elems(OVER.entries) == Elems(OVER.entries);
    assert Files([TABLE]) == {TABLE};
    NothingAtOne([TABLE], OVER);
    assert AnyOverlap([TABLE], TableRange(OVER)) by { assert TABLE in [TABLE] && Overlaps(TABLE, TableRange(OVER)); }
    AtLevelOne({}, {TABLE}, OVER);
    WritesTable(Filled(), [], [PutOp(0, "newer")], OVER, 1);
  }

  // The first compaction: the snapshot keeps every entry, and the two of key 1 are cut apart.

  ghost function Merging(): State {
    Stacked().(pending := Some(Pending(1, {OVER}, {TABLE}, 2, {})))
  }

  ghost function Cut(): State {
    Stacked().(levels := Levels({}, {LEFT, RIGHT}), floor := 2, nextFile := 6, pending := None)
  }

  lemma CutStarts()
    ensures Reaches(Stacked(), [], [StartCompaction(1, {OVER}, {TABLE})], Merging(), [])
  {
    hide Reaches, PlanChosen;
    NothingDeeper({OVER}, {TABLE});
    NoContents();
    assert Levels({OVER}, {TABLE})[1] - {OVER} == {} && {TABLE} - {TABLE} - {} == {};
    OneKeys(TABLE);
    assert Overlapping([TABLE], TableRange(OVER)) == [TABLE] by { assert [TABLE][..0] == []; }
    OneOverSome(OVER, [TABLE], [TABLE]);
    OneStep(Stacked(), [], StartCompaction(1, {OVER}, {TABLE}), Merging(), []);
  }

  /** A lone file of level 1 that does not end where it begins, and the files below that it overlaps. */
  lemma OneOverSome(f: File, two: seq<File>, taken: seq<File>)
    requires VersionBuilder.InOrder(two) && two != [] && Overlapping(two, TableRange(f)) == taken
    requires !IsBoundary(f, Largest(f)) && f.size < SMALL.maxFileSize
    ensures PlanChosen(Levels({f}, Files(two)), Plan(1, [f], taken, [], Largest(f)), false, SMALL)
    ensures Files([f]) == {f}
  {
    hide PlanChosen, UserRange, LargestKey;
    OneKeys(f);
    assert ParentsOf(two, [f]) == taken;
    assert ([f] + taken)[0] == f;
    MemberOverlaps([f] + taken, f);
    WholeLevelChosen([f], two);
  }

  lemma NothingDeeper(one: set<File>, two: set<File>)
    ensures Deeper(Levels(one, two), 1) == {}
  {
  }

  /** With nothing left of the level below there is no edge. */
  lemma NothingStaysNoHazard(st: State)
    requires Wf(st) && st.pending.Some?
    requires var p := st.pending.value; st.levels[p.level + 1] - p.in1 - p.arrived == {}
    ensures !HazardSetting(st).Hazard(st.pending.value.smallest)
  {
    HiStays(HazardSetting(st));
  }

  lemma OneTableContents(f: File)
    ensures Contents({f}) == Elems(f.entries)
  {
  }

  function CutInputs(): seq<Entry> {
    [Put(0, 4, "newer"), Put(0, 2, "older"), Del(1, 3), Put(1, 1, "deleted")]
  }

  lemma CutInputsAre()
    ensures Inputs(Merging().pending.value) == Elems(CutInputs()) && Sorted(CutInputs())
    ensures Elems(LEFT.entries) + Elems(RIGHT.entries) == Elems(CutInputs())
  {
    OneTableContents(OVER);
    OneTableContents(TABLE);
    assert OVER.entries + TABLE.entries == CutInputs();
    assert LEFT.entries + RIGHT.entries == CutInputs();
  }

  lemma NothingDropped()
    ensures Survivors(Elems(CutInputs()), 2, {}) == Elems(CutInputs())
  {
    var t := CutInputs();
    assert forall e :: e in Elems(t) ==> e == t[0] || e == t[1] || e == t[2] || e == t[3];
  }

  lemma CutEnabled()
    ensures Enabled(Merging(), FinishCompaction({LEFT, RIGHT}))
  {
    hide Survivors;
    OneTableContents(LEFT);
    OneTableContents(RIGHT);
    ContentsUnion({LEFT}, {RIGHT});
    assert {LEFT} + {RIGHT} == {LEFT, RIGHT};
    CutInputsAre();
    NothingDropped();
  }

  lemma PairOfTables(f: File, g: File)
    requires f.size == |f.entries| && g.size == |g.entries|
    ensures AreTables([f.entries, g.entries], {f, g}, SMALL.sizeOf)
  {
    assert f in {f, g} && g in {f, g};
  }

  /** The first output is closed at three entries. */
  lemma CutIsChosen()
    ensures OutputsChosen(Merging().pending.value, {LEFT, RIGHT}, [], SMALL)
  {
    hide Inputs, Outputs, AreTables;
    CutInputsAre();
    CutSlices();
    PairOfTables(LEFT, RIGHT);
  }

  lemma CutSlices()
    ensures Outputs(SmallCuts, CutInputs(), 2, {}) == [LEFT.entries, RIGHT.entries]
  {
    hide CutAfter;
    var t := CutInputs();
    CutNothing(t, 2);
    CutOneMore(t, 1, 2);
    assert CutAfter(SmallCuts, t, 1, 2, {}) == Sliced([], [t[0]]);
    CutOneMore(t, 2, 2);
    assert CutAfter(SmallCuts, t, 2, 2, {}) == Sliced([], [t[0], t[1]]);
    CutOneMore(t, 3, 2);
    assert [t[0], t[1]] + [t[2]] == LEFT.entries;
    assert CutAfter(SmallCuts, t, 3, 2, {}) == Sliced([LEFT.entries], []);
    CutOneMore(t, 4, 2);
    assert CutAfter(SmallCuts, t, 4, 2, {}) == Sliced([LEFT.entries], RIGHT.entries);
  }

  /** Numbering two outputs moves the file counter past the larger number. */
  lemma PastBoth()
    ensures NumberPast({LEFT, RIGHT}, 4) == 6
  {
    NumberPastBound({LEFT, RIGHT}, 4, 6);
    assert RIGHT in {LEFT, RIGHT};
  }

  lemma Replaced(in0: set<File>, in1: set<File>, two: set<File>, outs: set<File>, p: Pending)
    requires p.level == 1 && p.in0 == in0 && p.in1 == in1
    ensures Installed(Levels(in0, two), p, outs) == Levels({}, two - in1 + outs)
  {
    assert in0 - in0 == {};
  }

  lemma CutFinishes()
    requires Wf(Merging())
    ensures Reaches(Merging(), [], [FinishCompaction({LEFT, RIGHT})], Cut(), [])
  {
    hide Reaches, NumberPast, HazardSetting, Wf, OutputsChosen;
    CutEnabled();
    CutIsChosen();
    NothingStaysNoHazard(Merging());
    PastBoth();
    Replaced({OVER}, {TABLE}, {TABLE}, {LEFT, RIGHT}, Merging().pending.value);
    assert {TABLE} - {TABLE} + {LEFT, RIGHT} == {LEFT, RIGHT};
    SafeStep(Merging(), [], FinishCompaction({LEFT, RIGHT}), Cut(), []);
  }

  // The second compaction: with the snapshot gone, the marker left of the cut is dropped.

  ghost function Released(): State {
    Cut().(snaps := [])
  }

  ghost function Refilled(): State {
    Released().(hist := Cut().hist + [Put(0, 5, "new")], flushed := 5, memStart := 5, lastSeq := 5,
                levels := Levels({CHILD}, {LEFT, RIGHT}), nextFile := 7)
  }

  ghost function Doomed(): State {
    Refilled().(pending := Some(Pending(1, {CHILD}, {LEFT}, 5, {})))
  }

  lemma Halves()
    ensures VersionBuilder.InOrder([LEFT, RIGHT]) && Files([LEFT, RIGHT]) == {LEFT, RIGHT}
    ensures TotalFileSize([LEFT, RIGHT]) == 4
  {
    TwoKeys(LEFT, RIGHT);
  }

  lemma ReleasedAndRefilled()
    ensures Reaches(Cut(), [], [ReleaseSnapshot(0)] + TableSteps([PutOp(0, "new")], CHILD, 1), Refilled(), [])
  {
    hide Reaches, FlushChosen;
    assert [2][..0] + [2][1..] == [];
    OneStep(Cut(), [], ReleaseSnapshot(0), Released(), []);
    assert Stamp([PutOp(0, "new")], 5) == [Put(0, 5, "new")];
    assert CHILD.entries == [Put(0, 5, "new")] && {} + Elems(CHILD.entries) == Elems(CHILD.entries);
    Halves();
    NothingAtOne([LEFT, RIGHT], CHILD);
    assert AnyOverlap([LEFT, RIGHT], TableRange(CHILD)) by { assert LEFT in [LEFT, RIGHT] && Overlaps(LEFT, TableRange(CHILD)); }
    AtLevelOne({}, {LEFT, RIGHT}, CHILD);
    WritesTable(Released(), [], [PutOp(0, "new")], CHILD, 1);
    Joined(Cut(), [], [ReleaseSnapshot(0)], Released(), [], TableSteps([PutOp(0, "new")], CHILD, 1), Refilled(), []);
  }

  lemma DoomedStarts()
    ensures Reaches(Refilled(), [], [StartCompaction(1, {CHILD}, {LEFT})], Doomed(), [])
  {
    hide Reaches, PlanChosen;
    NothingDeeper({CHILD}, {LEFT, RIGHT});
    assert Contents({CHILD} - {CHILD}) == {};
    assert {LEFT, RIGHT} - {LEFT} - {} == {RIGHT};
    Halves();
    ExampleOverlap();
    OneOverSome(CHILD, [LEFT, RIGHT], [LEFT]);
    assert Files([LEFT]) == {LEFT};
    OneStep(Refilled(), [], StartCompaction(1, {CHILD}, {LEFT}), Doomed(), []);
  }

  function StackedSteps(): seq<Step> {
    [Write(FIRST)] + [TakeSnapshot] + TableSteps([DeleteOp(1)], TABLE, 2) + TableSteps([PutOp(0, "newer")], OVER, 1)
  }

  function DoomedSteps(): seq<Step> {
    StackedSteps() + [StartCompaction(1, {OVER}, {TABLE})] + [FinishCompaction({LEFT, RIGHT})] +
    ([ReleaseSnapshot(0)] + TableSteps([PutOp(0, "new")], CHILD, 1)) + [StartCompaction(1, {CHILD}, {LEFT})]
  }

  lemma StackedIsReached()
    ensures Reaches(Empty(), [], StackedSteps(), Stacked(), [])
  {
    hide Reaches, TableSteps;
    SnapshotTaken();
    TableFilled();
    TableCovered();
    var s0 := [Write(FIRST)] + [TakeSnapshot];
    Joined(Empty(), [], s0, Snapped(), [], TableSteps([DeleteOp(1)], TABLE, 2), Filled(), []);
    Joined(Empty(), [], s0 + TableSteps([DeleteOp(1)], TABLE, 2), Filled(), [], TableSteps([PutOp(0, "newer")], OVER, 1),
           Stacked(), []);
  }

  /** A run of the store, from a new database, to the edge of the hazard. */
  lemma DoomedIsReached()
    ensures Reaches(Empty(), [], DoomedSteps(), Doomed(), [])
    ensures Wf(Doomed()) && Faithful(Doomed())
  {
    hide Reaches, Wf, Faithful, TableSteps, StackedSteps;
    StackedIsReached();
    CutStarts();
    Joined(Empty(), [], StackedSteps(), Stacked(), [], [StartCompaction(1, {OVER}, {TABLE})], Merging(), []);
    var s1 := StackedSteps() + [StartCompaction(1, {OVER}, {TABLE})];
    ReachedIsSound(s1, Merging(), []);
    CutFinishes();
    Joined(Empty(), [], s1, Merging(), [], [FinishCompaction({LEFT, RIGHT})], Cut(), []);
    ReleasedAndRefilled();
    var s2 := s1 + [FinishCompaction({LEFT, RIGHT})];
    var s3 := [ReleaseSnapshot(0)] + TableSteps([PutOp(0, "new")], CHILD, 1);
    Joined(Empty(), [], s2, Cut(), [], s3, Refilled(), []);
    DoomedStarts();
    Joined(Empty(), [], s2 + s3, Refilled(), [], [StartCompaction(1, {CHILD}, {LEFT})], Doomed(), []);
    ReachedIsSound(DoomedSteps(), Doomed(), []);
  }

  lemma ReachedIsSound(steps: seq<Step>, st: State, g: seq<File>)
    requires Reaches(Empty(), [], steps, st, g)
    ensures Wf(st) && Faithful(st)
  {
    hide ChosenRun;
    EmptyIsWellFormed();
    RunKeepsInvariant(Empty(), steps);
  }

  function DoomedInputs(): seq<Entry> {
    [Put(0, 5, "new"), Put(0, 4, "newer"), Put(0, 2, "older"), Del(1, 3)]
  }

  lemma DoomedInputsAre()
    ensures Inputs(Doomed().pending.value) == Elems(DoomedInputs()) == Contents({CHILD}) + Contents({LEFT})
    ensures Sorted(DoomedInputs())
  {
    hide Contents;
    ExampleContents();
    var t := DoomedInputs();
    assert forall e :: e in Elems(t) <==> e == t[0] || e == t[1] || e == t[2] || e == t[3];
  }

  lemma DoomedEnabled()
    ensures Enabled(Doomed(), FinishCompaction({MERGED})) && Fits(Doomed(), FinishCompaction({MERGED}))
  {
    hide Survivors;
    DoomedInputsAre();
    OneTableContents(MERGED);
    MergedSurvives();
  }

  lemma MergedSurvives()
    ensures Survivors(Elems(DoomedInputs()), 5, {}) == {Put(0, 5, "new")}
    ensures Elems(MERGED.entries) == {Put(0, 5, "new")}
  {
    var t := DoomedInputs();
    var In := Elems(t);
    assert forall e :: e in In <==> e == t[0] || e == t[1] || e == t[2] || e == t[3];
    HiddenBy(In, t[1], t[0], 5);
    HiddenBy(In, t[2], t[0], 5);
    assert Obsolete(t[3], 5, {});
    assert !Hidden(In, 5, t[0]);
  }

  lemma HiddenBy(In: set<Entry>, e: Entry, d: Entry, smallest: nat)
    requires d in In && d.ikey.user == e.ikey.user && e.ikey.seqno < d.ikey.seqno <= smallest
    ensures Hidden(In, smallest, e)
  {
  }

  lemma MergedIsChosen()
    ensures ChosenStep(Doomed(), [], FinishCompaction({MERGED}), SMALL, [])
  {
    hide Inputs, Outputs, AreTables;
    DoomedInputsAre();
    MergedSlices();
    LoneTable(MERGED);
  }

  lemma LoneTable(f: File)
    requires f.size == |f.entries|
    ensures AreTables([f.entries], {f}, SMALL.sizeOf)
  {
    assert f in {f};
  }

  lemma MergedSlices()
    ensures Outputs(SmallCuts, DoomedInputs(), 5, {}) == [MERGED.entries]
  {
    hide CutAfter;
    var t := DoomedInputs();
    CutNothing(t, 5);
    CutOneMore(t, 1, 5);
    assert CutAfter(SmallCuts, t, 1, 5, {}) == Sliced([], [t[0]]);
    CutOneMore(t, 2, 5);
    CutOneMore(t, 3, 5);
    CutOneMore(t, 4, 5);
    assert CutAfter(SmallCuts, t, 4, 5, {}) == Sliced([], MERGED.entries);
  }

  lemma DoomedEntries()
    ensures All(Doomed()) == Contents({RIGHT}) + (Contents({CHILD}) + Contents({LEFT}))
  {
    hide Contents;
    TwoLevels({CHILD}, {LEFT, RIGHT});
    ContentsUnion({LEFT}, {RIGHT});
    assert {LEFT} + {RIGHT} == {LEFT, RIGHT};
  }

  lemma DoomedOutcome()
    ensures Enabled(Doomed(), FinishCompaction({MERGED}))
    ensures All(Apply(Doomed(), FinishCompaction({MERGED}))) ==
            Contents({RIGHT}) + Survivors(Contents({CHILD}) + Contents({LEFT}), 5, {})
  {
    hide Survivors, Contents, Apply, Enabled;
    DoomedEnabled();
    DoomedInstalls(Apply(Doomed(), FinishCompaction({MERGED})));
    TwoLevels({}, {RIGHT, MERGED});
    ContentsUnion({RIGHT}, {MERGED});
    assert Contents({}) == {} by { NoContents(); }
    assert {RIGHT} + {MERGED} == {RIGHT, MERGED};
  }

  lemma NoContents()
    ensures Contents({}) == {}
  {
  }

  lemma DoomedInstalls(st': State)
    requires Enabled(Doomed(), FinishCompaction({MERGED})) && st' == Apply(Doomed(), FinishCompaction({MERGED}))
    ensures st'.levels == Levels({}, {RIGHT, MERGED}) && st'.mem == {} && st'.imm == None
    ensures Contents({MERGED}) == Survivors(Contents({CHILD}) + Contents({LEFT}), 5, {})
  {
    Replaced({CHILD}, {LEFT}, {LEFT, RIGHT}, {MERGED}, Doomed().pending.value);
    assert {LEFT, RIGHT} - {LEFT} + {MERGED} == {RIGHT, MERGED};
  }

  lemma TwoLevels(one: set<File>, two: set<File>)
    ensures FileEntries(Levels(one, two)) == Contents(one) + Contents(two)
  {
    var levels := Levels(one, two);
    forall e | e in Contents(one) + Contents(two) ensures e in FileEntries(levels) {
      if e in Contents(one) {
        var f :| f in one && e in f.entries;
        assert f in levels[1];
      } else {
        var f :| f in two && e in f.entries;
        assert f in levels[2];
      }
    }
    forall e | e in FileEntries(levels) ensures e in Contents(one) + Contents(two) {
      var l, f: File :| 0 <= l < |levels| && f in levels[l] && e in f.entries;
      assert f in one || f in two;
    }
  }

  /** A run in which the code makes every choice: the level of each flush, the inputs of each compaction
      and the cut of its outputs. Key 1, deleted and with no snapshot left to see it, reads as its old
      value once the last compaction finishes. */
  lemma DeletedKeyComesBack()
    ensures Reaches(Empty(), [], DoomedSteps(), Doomed(), []) && Wf(Doomed()) && Faithful(Doomed())
    ensures Enabled(Doomed(), FinishCompaction({MERGED})) && !Harmless(Doomed(), FinishCompaction({MERGED}))
    ensures ChosenStep(Doomed(), [], FinishCompaction({MERGED}), SMALL, [])
    ensures Read(All(Doomed()), 1, 5) == None
    ensures Read(All(Apply(Doomed(), FinishCompaction({MERGED}))), 1, 5) == Some("deleted")
  {
    hide Reaches, Wf, Enabled, Apply, Survivors, Contents, Harmless, All, Read, ChosenStep;
    DoomedIsReached();
    MergedIsChosen();
    DoomedEntries();
    DoomedOutcome();
    DroppedMarkerRevives();
    var st' := Apply(Doomed(), FinishCompaction({MERGED}));
    assert Read(All(st'), 1, 5) != Read(All(Doomed()), 1, 5);
    FaithLost(Doomed(), {MERGED}, 1, 5);
  }

  lemma FaithLost(st: State, outs: set<File>, k: UserKey, s: nat)
    requires Wf(st) && Faithful(st) && Enabled(st, FinishCompaction(outs)) && s >= st.pending.value.smallest
    requires Read(All(Apply(st, FinishCompaction(outs))), k, s) != Read(All(st), k, s)
    ensures !Harmless(st, FinishCompaction(outs))
  {
    FinishSafeIff(st, outs);
  }

  // ---------- a flush that splits an output level ----------

  const UNDER0: File := TableFile(2, 1, [Put(0, 1, "a")])
  const UNDER9: File := TableFile(3, 1, [Put(9, 2, "b")])
  const OVER0: File := TableFile(4, 1, [Put(0, 3, "c")])
  const OVER9: File := TableFile(5, 1, [Put(9, 4, "d")])
  const MIDDLE: File := TableFile(6, 1, [Put(5, 5, "e")])
  const SPANNING: File := TableFile(7, 2, [Put(0, 3, "c"), Put(9, 4, "d")])

  function Fives(n: nat): seq<Entry>
    requires n <= 5
  {
    [Put(0, 1, "a"), Put(9, 2, "b"), Put(0, 3, "c"), Put(9, 4, "d"), Put(5, 5, "e")][..n]
  }

  /** After `n` writes, each gone to a table of its own. */
  ghost function Tabled(n: nat, levels: seq<set<File>>): State
    requires n <= 5
  {
    State(Fives(n), n, n, {}, None, levels, n, [], 0, n + 2, None)
  }

  lemma NextTable(n: nat, levels: seq<set<File>>, f: File, level: nat, k: UserKey, v: UserValue, pending: Option<Pending>)
    requires n < 5 && Fives(5)[n] == Put(k, n + 1, v) && f == TableFile(n + 2, 1, [Put(k, n + 1, v)])
    requires level < |levels| && NoOverlapTo(levels, f, level) && FlushChosen(levels, f, level, SMALL)
    ensures Reaches(Tabled(n, levels).(pending := pending), [], TableSteps([PutOp(k, v)], f, level),
                    Tabled(n + 1, levels[level := levels[level] + {f}]).(pending := WithArrival(pending, f, level)), [])
  {
    hide Reaches, NoOverlapTo, FlushChosen;
    var st := Tabled(n, levels).(pending := pending);
    assert Stamp([PutOp(k, v)], n + 1) == [Put(k, n + 1, v)];
    assert {} + Elems(f.entries) == Elems(f.entries);
    assert Fives(n) + [Put(k, n + 1, v)] == Fives(n + 1);
    WritesTable(st, [], [PutOp(k, v)], f, level);
  }

  function UnderSteps(): seq<Step> {
    TableSteps([PutOp(0, "a")], UNDER0, 2) + TableSteps([PutOp(9, "b")], UNDER9, 2)
  }

  function OverSteps(): seq<Step> {
    TableSteps([PutOp(0, "c")], OVER0, 1) + TableSteps([PutOp(9, "d")], OVER9, 1)
  }

  ghost function Layered(): State {
    Tabled(4, Levels({OVER0, OVER9}, {UNDER0, UNDER9}))
  }

  lemma LowerChosen()
    ensures FlushChosen(Levels({}, {}), UNDER0, 2, SMALL) && FlushChosen(Levels({}, {UNDER0}), UNDER9, 2, SMALL)
    ensures NoOverlapTo(Levels({}, {}), UNDER0, 2) && NoOverlapTo(Levels({}, {UNDER0}), UNDER9, 2)
  {
    hide FlushChosen;
    OneKeys(UNDER0);
    assert Files([]) == {} && TotalFileSize([]) == 0;
    NothingAtOne([], UNDER0);
    NothingAtOne([UNDER0], UNDER9);
  }

  lemma LowerTables()
    ensures Reaches(Empty(), [], UnderSteps(), Tabled(2, Levels({}, {UNDER0, UNDER9})), [])
  {
    hide Reaches, FlushChosen, NoOverlapTo, AnyOverlap, TotalFileSize;
    var a, b, c := Levels({}, {}), Levels({}, {UNDER0}), Levels({}, {UNDER0, UNDER9});
    AtLevelTwo({}, {}, UNDER0);
    AtLevelTwo({}, {UNDER0}, UNDER9);
    assert {} + {UNDER0} == {UNDER0} && {UNDER0} + {UNDER9} == {UNDER0, UNDER9};
    assert Empty() == Tabled(0, a);
    LowerChosen();
    NextTable(0, a, UNDER0, 2, 0, "a", None);
    NextTable(1, b, UNDER9, 2, 9, "b", None);
    Joined(Empty(), [], TableSteps([PutOp(0, "a")], UNDER0, 2), Tabled(1, b), [], TableSteps([PutOp(9, "b")], UNDER9, 2),
           Tabled(2, c), []);
  }

  lemma Under()
    ensures VersionBuilder.InOrder([UNDER0, UNDER9]) && Files([UNDER0, UNDER9]) == {UNDER0, UNDER9}
    ensures TotalFileSize([UNDER0, UNDER9]) == 2
  {
    TwoKeys(UNDER0, UNDER9);
  }

  lemma UpperChosen()
    ensures FlushChosen(Levels({}, {UNDER0, UNDER9}), OVER0, 1, SMALL)
    ensures FlushChosen(Levels({OVER0}, {UNDER0, UNDER9}), OVER9, 1, SMALL)
    ensures NoOverlapTo(Levels({}, {UNDER0, UNDER9}), OVER0, 1) && NoOverlapTo(Levels({OVER0}, {UNDER0, UNDER9}), OVER9, 1)
  {
    hide FlushChosen, TotalFileSize;
    var two := [UNDER0, UNDER9];
    Under();
    OneKeys(OVER0);
    assert AnyOverlap(two, TableRange(OVER0)) by { assert UNDER0 in two && Overlaps(UNDER0, TableRange(OVER0)); }
    assert AnyOverlap(two, TableRange(OVER9)) by { assert UNDER9 in two && Overlaps(UNDER9, TableRange(OVER9)); }
    NothingAtOne(two, OVER0);
    FlushIsChosen([OVER0], two, OVER9, 1);
  }

  lemma UpperTables()
    ensures Reaches(Tabled(2, Levels({}, {UNDER0, UNDER9})), [], OverSteps(), Layered(), [])
  {
    hide Reaches, FlushChosen, NoOverlapTo;
    var two := {UNDER0, UNDER9};
    var a, b, c := Levels({}, two), Levels({OVER0}, two), Levels({OVER0, OVER9}, two);
    AtLevelOne({}, two, OVER0);
    AtLevelOne({OVER0}, two, OVER9);
    assert {OVER0} + {OVER9} == {OVER0, OVER9};
    UpperChosen();
    NextTable(2, a, OVER0, 1, 0, "c", None);
    NextTable(3, b, OVER9, 1, 9, "d", None);
    Joined(Tabled(2, a), [], TableSteps([PutOp(0, "c")], OVER0, 1), Tabled(3, b), [], TableSteps([PutOp(9, "d")], OVER9, 1),
           Layered(), []);
  }

  // A compaction of everything at levels 1 and 2 begins, and key 5 is flushed between its inputs.

  function Wide(arrived: set<File>): Pending {
    Pending(1, {OVER0, OVER9}, {UNDER0, UNDER9}, 4, {}, arrived)
  }

  ghost function Compacting(): State {
    Layered().(pending := Some(Wide({})))
  }

  ghost function Split(): State {
    Tabled(5, Levels({OVER0, OVER9}, {UNDER0, UNDER9, MIDDLE})).(pending := Some(Wide({MIDDLE})))
  }

  lemma WideStarts()
    ensures Reaches(Layered(), [], [StartCompaction(1, {OVER0, OVER9}, {UNDER0, UNDER9})], Compacting(), [])
  {
    hide Reaches, PlanChosen;
    NothingDeeper({OVER0, OVER9}, {UNDER0, UNDER9});
    NoContents();
    assert {OVER0, OVER9} - {OVER0, OVER9} == {};
    assert {UNDER0, UNDER9} - {UNDER0, UNDER9} - {} == {};
    WideIsChosen();
    OneStep(Layered(), [], StartCompaction(1, {OVER0, OVER9}, {UNDER0, UNDER9}), Compacting(), []);
  }

  /** A caller who asks for all of level 1 gets two files with a gap between them. */
  lemma WideIsChosen()
    ensures PlanChosen(Levels({OVER0, OVER9}, {UNDER0, UNDER9}),
                       Plan(1, [OVER0, OVER9], [UNDER0, UNDER9], [], Largest(OVER9)), false, SMALL)
    ensures Files([OVER0, OVER9]) == {OVER0, OVER9} && Files([UNDER0, UNDER9]) == {UNDER0, UNDER9}
  {
    var one, two := [OVER0, OVER9], [UNDER0, UNDER9];
    Under();
    TwoKeys(OVER0, OVER9);
    AllOverlap(two, UserRange(one));
    forall f | f in one ensures Overlaps(f, UserRange(one + two)) {
      MemberOverlaps(one + two, f);
    }
    WholeLevelChosen(one, two);
  }

  lemma Over()
    ensures VersionBuilder.InOrder([OVER0, OVER9]) && Files([OVER0, OVER9]) == {OVER0, OVER9}
  {
    TwoKeys(OVER0, OVER9);
  }

  lemma MiddleIsFree()
    ensures !AnyOverlap([OVER0, OVER9], TableRange(MIDDLE)) && !AnyOverlap([UNDER0, UNDER9], TableRange(MIDDLE))
  {
  }

  lemma MiddleChosen()
    ensures FlushChosen(Levels({OVER0, OVER9}, {UNDER0, UNDER9}), MIDDLE, 2, SMALL)
    ensures NoOverlapTo(Levels({OVER0, OVER9}, {UNDER0, UNDER9}), MIDDLE, 2)
  {
    hide FlushChosen, TotalFileSize, AnyOverlap;
    Under();
    Over();
    MiddleIsFree();
    FlushIsChosen([OVER0, OVER9], [UNDER0, UNDER9], MIDDLE, 2);
  }

  lemma MiddleFlushed()
    ensures Reaches(Compacting(), [], TableSteps([PutOp(5, "e")], MIDDLE, 2), Split(), [])
  {
    hide Reaches, FlushChosen, NoOverlapTo;
    var one, two := {OVER0, OVER9}, {UNDER0, UNDER9};
    AtLevelTwo(one, two, MIDDLE);
    assert two + {MIDDLE} == {UNDER0, UNDER9, MIDDLE} && {} + {MIDDLE} == {MIDDLE};
    MiddleChosen();
    NextTable(4, Levels(one, two), MIDDLE, 2, 5, "e", Some(Wide({})));
  }

  function SplitSteps(): seq<Step> {
    UnderSteps() + OverSteps() + [StartCompaction(1, {OVER0, OVER9}, {UNDER0, UNDER9})] +
    TableSteps([PutOp(5, "e")], MIDDLE, 2)
  }

  lemma SplitIsReached()
    ensures Reaches(Empty(), [], SplitSteps(), Split(), []) && Wf(Split()) && Faithful(Split())
  {
    hide Reaches, Wf, Faithful, TableSteps, UnderSteps, OverSteps;
    var start := [StartCompaction(1, {OVER0, OVER9}, {UNDER0, UNDER9})];
    LowerTables();
    UpperTables();
    Joined(Empty(), [], UnderSteps(), Tabled(2, Levels({}, {UNDER0, UNDER9})), [], OverSteps(), Layered(), []);
    WideStarts();
    Joined(Empty(), [], UnderSteps() + OverSteps(), Layered(), [], start, Compacting(), []);
    MiddleFlushed();
    Joined(Empty(), [], UnderSteps() + OverSteps() + start, Compacting(), [], TableSteps([PutOp(5, "e")], MIDDLE, 2),
           Split(), []);
    ReachedIsSound(SplitSteps(), Split(), []);
  }

  lemma SpanningSurvives()
    ensures Survivors(Inputs(Wide({MIDDLE})), 4, {}) == Elems(SPANNING.entries)
  {
    hide Survivors, Inputs;
    WideInputs();
    TwoSurvive({Put(0, 1, "a"), Put(9, 2, "b"), Put(0, 3, "c"), Put(9, 4, "d")});
    var t := SPANNING.entries;
    assert forall e :: e in Elems(t) <==> e == t[0] || e == t[1];
  }

  lemma TwoSurvive(In: set<Entry>)
    requires In == {Put(0, 1, "a"), Put(9, 2, "b"), Put(0, 3, "c"), Put(9, 4, "d")}
    ensures Survivors(In, 4, {}) == {Put(0, 3, "c"), Put(9, 4, "d")}
  {
    HiddenBy(In, Put(0, 1, "a"), Put(0, 3, "c"), 4);
    HiddenBy(In, Put(9, 2, "b"), Put(9, 4, "d"), 4);
    assert !Hidden(In, 4, Put(0, 3, "c")) && !Hidden(In, 4, Put(9, 4, "d"));
  }

  lemma WideInputs()
    ensures Inputs(Wide({MIDDLE})) == {Put(0, 1, "a"), Put(9, 2, "b"), Put(0, 3, "c"), Put(9, 4, "d")}
  {
    hide Contents;
    PairContents(OVER0, OVER9);
    PairContents(UNDER0, UNDER9);
  }

  lemma PairContents(f: File, g: File)
    ensures Contents({f, g}) == Elems(f.entries) + Elems(g.entries)
  {
  }

  function WideMerged(): seq<Entry> {
    [Put(0, 3, "c"), Put(0, 1, "a"), Put(9, 4, "d"), Put(9, 2, "b")]
  }

  lemma SpanningIsChosen()
    ensures ChosenStep(Split(), [], FinishCompaction({SPANNING}), SMALL, [])
  {
    hide Inputs, Outputs, AreTables;
    WideInputs();
    var t := WideMerged();
    assert forall e :: e in Elems(t) <==> e == t[0] || e == t[1] || e == t[2] || e == t[3];
    SpanningSlices();
    LoneTable(SPANNING);
  }

  lemma SpanningSlices()
    ensures Outputs(SmallCuts, WideMerged(), 4, {}) == [SPANNING.entries]
  {
    hide CutAfter;
    var t := WideMerged();
    CutNothing(t, 4);
    CutOneMore(t, 1, 4);
    assert CutAfter(SmallCuts, t, 1, 4, {}) == Sliced([], [t[0]]);
    CutOneMore(t, 2, 4);
    CutOneMore(t, 3, 4);
    assert CutAfter(SmallCuts, t, 3, 4, {}) == Sliced([], [t[0], t[2]]);
    CutOneMore(t, 4, 4);
    assert CutAfter(SmallCuts, t, 4, 4, {}) == Sliced([], SPANNING.entries);
  }

  /** Here too every choice is the code's. The level is out of order once the compaction is installed, and
      the search for key 5 ends in the wrong table: the value is there, and not found. */
  lemma FlushedKeyIsMissed() returns (st': State)
    ensures Reaches(Empty(), [], SplitSteps(), Split(), []) && Wf(Split()) && Faithful(Split())
    ensures Enabled(Split(), FinishCompaction({SPANNING})) && st' == Apply(Split(), FinishCompaction({SPANNING}))
    ensures ChosenStep(Split(), [], FinishCompaction({SPANNING}), SMALL, [])
    ensures !Wf(st') && |st'.levels| == NUM_LEVELS && st'.levels[2] == Files([SPANNING, MIDDLE])
    ensures Read(All(st'), 5, 5) == Some("e")
    ensures Bisect([SPANNING, MIDDLE], SeekKey(5, 5), 0, 2) == 0 && Probe(SPANNING.entries, 5, 5).Missed?
  {
    hide Reaches, Wf, Faithful, Survivors, Read, All, Enabled, Apply, Bisect, Probe, ChosenStep;
    SplitIsReached();
    SpanningIsChosen();
    SpanningEnabled();
    st' := Apply(Split(), FinishCompaction({SPANNING}));
    SpanningInstalled(st');
    LevelBroken();
    SearchMisses();
  }

  lemma LevelBroken()
    requires Wf(Split()) && Enabled(Split(), FinishCompaction({SPANNING}))
    ensures !Wf(Apply(Split(), FinishCompaction({SPANNING})))
  {
    hide Wf, Apply, Enabled;
    assert Spans(SPANNING, MIDDLE) && SPANNING in {SPANNING} && MIDDLE in {MIDDLE};
    FinishKeepsWf(Split(), {SPANNING});
  }

  lemma SearchMisses()
    ensures Bisect([SPANNING, MIDDLE], SeekKey(5, 5), 0, 2) == 0 && Probe(SPANNING.entries, 5, 5).Missed?
  {
    assert SPANNING.entries[1..][1..] == [];
  }

  lemma SpanningEnabled()
    ensures Enabled(Split(), FinishCompaction({SPANNING}))
  {
    hide Survivors;
    SpanningSurvives();
    OneTableContents(SPANNING);
  }

  lemma SpanningInstalled(st': State)
    requires Enabled(Split(), FinishCompaction({SPANNING})) && st' == Apply(Split(), FinishCompaction({SPANNING}))
    ensures |st'.levels| == NUM_LEVELS && st'.levels[2] == Files([SPANNING, MIDDLE])
    ensures Read(All(st'), 5, 5) == Some("e")
  {
    hide Survivors, NumberPast;
    Replaced({OVER0, OVER9}, {UNDER0, UNDER9}, {UNDER0, UNDER9, MIDDLE}, {SPANNING}, Wide({MIDDLE}));
    assert {UNDER0, UNDER9, MIDDLE} - {UNDER0, UNDER9} + {SPANNING} == {MIDDLE, SPANNING} == Files([SPANNING, MIDDLE]);
    TwoLevels({}, {MIDDLE, SPANNING});
    NoContents();
    PairContents(MIDDLE, SPANNING);
    assert All(st') == Elems(MIDDLE.entries) + Elems(SPANNING.entries);
    MiddleIsNewest(All(st'));
  }

  lemma MiddleIsNewest(S: set<Entry>)
    requires S == Elems(MIDDLE.entries) + Elems(SPANNING.entries)
    ensures Read(S, 5, 5) == Some("e")
  {
    var t := SPANNING.entries;
    assert MIDDLE.entries == [Put(5, 5, "e")] && Put(5, 5, "e") in S;
    assert forall e :: e in Elems(t) <==> e == t[0] || e == t[1];
    NewestIs(S, 5, 5, Put(5, 5, "e"));
  }
}
