/** What the store chooses itself: the level of a flushed table, the inputs of a compaction and where its
    outputs are cut (db/version_set.cc, db/db_impl.cc). The state machine leaves these open. */
module StoreChoices {
  import opened InternalKeys
  import opened FlatSpec
  import opened Versions
  import opened OverlapSearch
  import opened CompactionRules
  import opened CompactionInputs
  import opened FlushLevel
  import opened Store
  import VersionBuilder

  /** The version's files of every level, in the order of their smallest keys. */
  ghost predicate Represents(files: seq<seq<File>>, levels: seq<set<File>>) {
    && |files| == |levels| == NUM_LEVELS
    && forall l :: 0 <= l < NUM_LEVELS ==> Files(files[l]) == levels[l] && VersionBuilder.InOrder(files[l])
  }

  /** Every limit is a multiple of the target file size. `sizeOf` is the table builder's estimate. */
  datatype Limits = Limits(maxFileSize: nat, sizeOf: seq<Entry> -> nat) {
    function MaxGrandParentOverlap(): nat { 10 * maxFileSize }
    function ExpandedCompaction(): nat { 25 * maxFileSize }
  }

  function TableRange(f: File): Range {
    Range(Some(Smallest(f).user), Some(Largest(f).user))
  }

  ghost predicate FlushChosen(levels: seq<set<File>>, f: File, level: nat, limits: Limits) {
    && f.size == limits.sizeOf(f.entries)
    && exists files :: Represents(files, levels) && level == PickedLevel(files, TableRange(f), limits.MaxGrandParentOverlap())
  }

  /** When a compaction of the level may be set off: by size if there are files, by seeks into one of them,
      by a caller if a deeper level has files in the range. */
  predicate MayStart(files: seq<seq<File>>, level: nat, trigger: Trigger)
    requires |files| == NUM_LEVELS && level + 1 < NUM_LEVELS
  {
    match trigger
    case Sized(_) => files[level] != []
    case Sought(f) => f in files[level]
    case Manual(begin, end) => level == 0 || exists m :: level < m < NUM_LEVELS && AnyOverlap(files[m], Range(begin, end))
  }

  function Grandparents(files: seq<seq<File>>, level: nat): seq<File>
    requires |files| == NUM_LEVELS
  {
    if level + 2 < NUM_LEVELS then files[level + 2] else []
  }

  /** The inputs chosen for a compaction of the level, if there are any. */
  ghost function ChosenPlan(files: seq<seq<File>>, level: nat, trigger: Trigger, limits: Limits): Option<Plan>
    requires |files| == NUM_LEVELS && level + 1 < NUM_LEVELS && (trigger.Sized? ==> files[level] != [])
  {
    var picked := FirstInputs(level, files[level], trigger, limits.maxFileSize);
    if Extended(files[level], picked) == [] then None
    else Some(PlanOf(level, files[level], files[level + 1], Grandparents(files, level), picked, limits.ExpandedCompaction()))
  }

  /** One file, nothing to merge it with and little below it. */
  predicate Movable(c: Plan, limits: Limits) {
    |c.in0| == 1 && c.in1 == [] && TotalFileSize(c.grandparents) <= limits.MaxGrandParentOverlap()
  }

  /** The plan is chosen, and it is moved or merged as the code does. */
  ghost predicate PlanChosen(levels: seq<set<File>>, c: Plan, moved: bool, limits: Limits) {
    exists files, trigger :: Represents(files, levels) && c.level + 1 < NUM_LEVELS &&
      MayStart(files, c.level, trigger) && ChosenPlan(files, c.level, trigger, limits) == Some(c) &&
      moved == (!trigger.Manual? && Movable(c, limits))
  }

  lemma PlanIsChosen(files: seq<seq<File>>, levels: seq<set<File>>, trigger: Trigger, c: Plan, limits: Limits)
    requires Represents(files, levels) && c.level + 1 < NUM_LEVELS && MayStart(files, c.level, trigger)
    requires ChosenPlan(files, c.level, trigger, limits) == Some(c)
    ensures PlanChosen(levels, c, !trigger.Manual? && Movable(c, limits), limits)
  {
  }

  /** A file alone is moved down exactly if no file of the next level meets it, and those two levels down that do come to at
      most ten times the target size. */
  lemma MovableIff(files: seq<seq<File>>, levels: seq<set<File>>, trigger: Trigger, c: Plan, limits: Limits)
    requires Represents(files, levels) && c.level + 1 < NUM_LEVELS && MayStart(files, c.level, trigger)
    requires ChosenPlan(files, c.level, trigger, limits) == Some(c)
    ensures c.in0 != []
    ensures forall g :: g in c.grandparents <==> c.level + 2 < NUM_LEVELS && g in levels[c.level + 2] && Meets(g, c.in0 + c.in1)
    ensures Movable(c, limits) <==>
            |c.in0| == 1 && (forall g :: g in levels[c.level + 1] ==> !Meets(g, c.in0))
            && TotalFileSize(c.grandparents) <= 10 * limits.maxFileSize
  {
    hide Extended, UserRange, Meets, Expanded, TotalFileSize, LargestKey, FirstInputs, Overlapping;
    var level := c.level;
    var picked := FirstInputs(level, files[level], trigger, limits.maxFileSize);
    assert c == PlanOf(level, files[level], files[level + 1], Grandparents(files, level), picked, limits.ExpandedCompaction());
    MeetersAre(files[level + 1], c.in0);
    MeetersAre(Grandparents(files, level), c.in0 + c.in1);
    assert c.in1 != [] ==> c.in1[0] in c.in1;
    assert Files(files[level + 1]) == levels[level + 1];
    assert level + 2 < NUM_LEVELS ==> Files(files[level + 2]) == levels[level + 2];
  }

  lemma NothingExtended(own: seq<File>)
    ensures Extended(own, []) == []
  {
  }

  /** The outputs are the merged inputs without what is dropped, cut as the code cuts them. */
  ghost predicate OutputsChosen(p: Pending, outs: set<File>, grandparents: seq<File>, limits: Limits) {
    exists merged :: Sorted(merged) && Elems(merged) == Inputs(p) &&
      var rules := CutRules(grandparents, limits.MaxGrandParentOverlap(), limits.sizeOf, limits.maxFileSize);
      AreTables(Outputs(rules, merged, p.smallest, p.deeper), outs, limits.sizeOf)
  }

  ghost predicate AreTables(outputs: seq<seq<Entry>>, outs: set<File>, sizeOf: seq<Entry> -> nat) {
    && (forall f :: f in outs ==> f.entries in outputs && f.size == sizeOf(f.entries))
    && (forall es :: es in outputs ==> exists f :: f in outs && f.entries == es)
  }

  /** A step whose choice is the code's; `grandparents` are those of the compaction under way, `next` of
      the one under way afterwards. */
  ghost predicate ChosenStep(st: State, grandparents: seq<File>, step: Step, limits: Limits, next: seq<File>) {
    match step
    case Flush(file, level) =>
      (file.Some? ==> FlushChosen(st.levels, file.value, level, limits)) && next == grandparents
    case StartCompaction(at, in0, in1) =>
      exists c :: PlanChosen(st.levels, c, false, limits) && c.level == at && Files(c.in0) == in0 && Files(c.in1) == in1 &&
        next == c.grandparents
    case TrivialMove(from, moved) =>
      && (exists c :: PlanChosen(st.levels, c, true, limits) && c.level == from && c.in0 == [moved])
      && next == grandparents
    case FinishCompaction(outs) =>
      st.pending.Some? && OutputsChosen(st.pending.value, outs, grandparents, limits)
    case _ => next == grandparents
  }

  /** Enabled steps chosen as the code chooses them, from one state to another. */
  ghost predicate ChosenRun(st: State, grandparents: seq<File>, steps: seq<Step>, limits: Limits, st': State, next: seq<File>)
    decreases |steps|
  {
    if steps == [] then st' == st && next == grandparents
    else
      Enabled(st, steps[0]) &&
      exists mid :: ChosenStep(st, grandparents, steps[0], limits, mid) &&
        ChosenRun(Apply(st, steps[0]), mid, steps[1..], limits, st', next)
  }

  lemma {:induction false} ChosenJoined(a: State, g: seq<File>, s: seq<Step>, b: State, h: seq<File>, t: seq<Step>,
                                        c: State, i: seq<File>, limits: Limits)
    requires ChosenRun(a, g, s, limits, b, h) && ChosenRun(b, h, t, limits, c, i)
    ensures ChosenRun(a, g, s + t, limits, c, i)
    decreases |s|
  {
    hide ChosenStep;
    if s == [] {
      assert s + t == t;
    } else {
      assert (s + t)[0] == s[0] && (s + t)[1..] == s[1..] + t;
      var mid :| ChosenStep(a, g, s[0], limits, mid) && ChosenRun(Apply(a, s[0]), mid, s[1..], limits, b, h);
      ChosenJoined(Apply(a, s[0]), mid, s[1..], b, h, t, c, i, limits);
    }
  }

  lemma ChosenOnce(st: State, g: seq<File>, step: Step, limits: Limits, next: seq<File>)
    requires Enabled(st, step) && ChosenStep(st, g, step, limits, next)
    ensures ChosenRun(st, g, [step], limits, Apply(st, step), next)
  {
    hide ChosenStep, Apply;
    assert [step][1..] == [];
    assert ChosenRun(Apply(st, step), next, [], limits, Apply(st, step), next);
  }

  /** VersionSet::PickCompaction or, for a caller's range, VersionSet::CompactRange. */
  method Choose(files: seq<seq<File>>, level: nat, trigger: Trigger, limits: Limits) returns (c: Option<Plan>)
    requires |files| == NUM_LEVELS && level + 1 < NUM_LEVELS && MayStart(files, level, trigger)
    requires WfLevels(level, files[level], files[level + 1])
    ensures c == ChosenPlan(files, level, trigger, limits) && (c.None? ==> trigger.Manual?)
    ensures var picked := FirstInputs(level, files[level], trigger, limits.maxFileSize);
            var grands := if level < 5 then files[level + 2] else [];
            c.Some? ==>
              && Extended(files[level], picked) != []
              && c.value == PlanOf(level, files[level], files[level + 1], grands, picked, 25 * limits.maxFileSize)
    ensures c.Some? ==> c.value.level == level && SelectedFrom(files[level], files[level + 1], c.value.in0, c.value.in1)
  {
    hide PlanOf, Extended, SelectedFrom, UniqueSeq;
    var own, parents, grands := files[level], files[level + 1], Grandparents(files, level);
    NothingExtended(own);
    match trigger
    case Manual(begin, end) =>
      c := CompactRange(level, own, parents, grands, begin, end, limits.maxFileSize, limits.ExpandedCompaction());
    case Sized(pointer) =>
      var picked := PickCompaction(level, own, parents, grands, pointer, None, limits.ExpandedCompaction());
      c := Some(picked);
    case Sought(file) =>
      var picked := PickCompaction(level, own, parents, grands, None, Some(file), limits.ExpandedCompaction());
      c := Some(picked);
  }

  /** One compaction, moved or merged, from one state to the next. */
  ghost predicate Compacted(st: State, c: Plan, moved: bool, outs: seq<File>, limits: Limits, st': State) {
    PlanChosen(st.levels, c, moved, limits) && if moved then Moved(st, c, st') else Merged(st, c, outs, limits, st')
  }

  ghost predicate Moved(st: State, c: Plan, st': State) {
    |c.in0| == 1 && Enabled(st, TrivialMove(c.level, c.in0[0])) && st' == Apply(st, TrivialMove(c.level, c.in0[0]))
  }

  ghost predicate Merged(st: State, c: Plan, outs: seq<File>, limits: Limits, st': State) {
    && Enabled(st, StartCompaction(c.level, Files(c.in0), Files(c.in1)))
    && var mid := Apply(st, StartCompaction(c.level, Files(c.in0), Files(c.in1)));
       && Enabled(mid, FinishCompaction(Files(outs))) && st' == Apply(mid, FinishCompaction(Files(outs)))
       && OutputsChosen(mid.pending.value, Files(outs), c.grandparents, limits)
  }

  /** Which is a run of the machine whose choices are the code's. */
  lemma CompactedIsRun(st: State, c: Plan, moved: bool, outs: seq<File>, limits: Limits, st': State)
    requires Compacted(st, c, moved, outs, limits, st')
    ensures exists steps :: ChosenRun(st, [], steps, limits, st', []) &&
              steps == if moved then [TrivialMove(c.level, c.in0[0])]
                       else [StartCompaction(c.level, Files(c.in0), Files(c.in1))] + [FinishCompaction(Files(outs))]
  {
    hide PlanChosen, OutputsChosen, Enabled, Apply, ChosenRun;
    if moved {
      assert c.in0 == [c.in0[0]];
      ChosenOnce(st, [], TrivialMove(c.level, c.in0[0]), limits, []);
    } else {
      var start := StartCompaction(c.level, Files(c.in0), Files(c.in1));
      var mid := Apply(st, start);
      FinishNeedsPending(mid, Files(outs));
      ChosenOnce(st, [], start, limits, c.grandparents);
      ChosenOnce(mid, c.grandparents, FinishCompaction(Files(outs)), limits, []);
      ChosenJoined(st, [], [start], mid, c.grandparents, [FinishCompaction(Files(outs))], st', [], limits);
    }
  }

  lemma FinishNeedsPending(st: State, outs: set<File>)
    requires Enabled(st, FinishCompaction(outs))
    ensures st.pending.Some?
  {
  }
}
