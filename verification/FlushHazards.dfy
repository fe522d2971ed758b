/** A flush while a compaction is under way: its level is picked from a version that does not
    yet hold the compaction's outputs (db/db_impl.cc, DoCompactionWork and WriteLevel0Table). */
module FlushHazards {
  import opened InternalKeys
  import opened FlatSpec
  import opened Versions
  import opened CompactionRules
  import opened CompactionInputs
  import opened MemTables
  import opened Store
  import opened StoreInvariants
  import opened OverlapSearch
  import opened CompactionGaps
  import opened StoreChoices

  /** The table lies between two of the entries. */
  ghost predicate Between(entries: set<Entry>, f: File) {
    exists a, b :: a in entries && b in entries && a.ikey.user < Smallest(f).user && Largest(f).user < b.ikey.user
  }

  ghost function Kept(p: Pending): set<Entry> {
    Survivors(Inputs(p), p.smallest, p.deeper)
  }

  lemma SpanIsBetween(outs: set<File>, o: File, f: File)
    requires o in outs && Spans(o, f)
    ensures Between(Contents(outs), f)
  {
    var a, b := o.entries[0], o.entries[|o.entries|-1];
    assert a in o.entries && b in o.entries;
    assert a in Contents(outs) && b in Contents(outs);
  }

  /** The outputs a compaction may install leave its level in order exactly when no table flushed there
      meanwhile has survivors on both sides and one output reaching across it. */
  lemma FinishOrderedIff(st: State, outs: set<File>)
    requires Wf(st) && Enabled(st, FinishCompaction(outs))
    ensures var p := st.pending.value;
            Wf(Apply(st, FinishCompaction(outs))) <==>
            !exists f, o :: f in p.arrived && o in outs && Between(Kept(p), f) && Spans(o, f)
  {
    hide Wf, Between, Spans, LevelDisjoint, Survivors;
    FinishKeepsWf(st, outs);
    forall f, o | f in st.pending.value.arrived && o in outs && Spans(o, f) ensures Between(Kept(st.pending.value), f) {
      SpanIsBetween(outs, o, f);
    }
  }

  lemma {:induction false} SortedExists(S: set<Entry>)
    requires UniqueSeq(S)
    ensures exists es: seq<Entry> :: Sorted(es) && Elems(es) == S
  {
    if S == {} {
      assert Elems([]) == {};
    } else {
      var e :| e in S;
      SortedExists(S - {e});
      var es: seq<Entry> :| Sorted(es) && Elems(es) == S - {e};
      forall d | d in es ensures d.ikey != e.ikey {
        assert d in Elems(es);
      }
      assert Elems(Insertion(es, e)) == S;
    }
  }

  /** All survivors in one table is an output the cutting rules allow. */
  lemma OneTable(st: State) returns (t: File)
    requires Wf(st) && st.pending.Some? && Kept(st.pending.value) != {}
    ensures Elems(t.entries) == Kept(st.pending.value) && Enabled(st, FinishCompaction({t}))
  {
    hide Wf, Survivors, Enabled, Elems, UniqueSeq, Sorted;
    var p := st.pending.value;
    PendingHolds(st);
    SurvivorsUnique(st, p);
    SortedExists(Kept(p));
    var es: seq<Entry> :| Sorted(es) && Elems(es) == Kept(p);
    NotEmpty(es, Kept(p));
    t := TableFile(st.nextFile, 0, es);
    OneTableEnabled(st, t);
  }

  lemma NotEmpty(es: seq<Entry>, S: set<Entry>)
    requires Elems(es) == S && S != {}
    ensures es != []
  {
    var e :| e in S;
    assert e in Elems(es);
  }

  lemma PendingHolds(st: State)
    requires Wf(st) && st.pending.Some?
    ensures WfPending(st.levels, st.pending.value)
  {
  }

  lemma OneTableEnabled(st: State, t: File)
    requires Wf(st) && st.pending.Some? && Elems(t.entries) == Kept(st.pending.value) && t.number == st.nextFile
    ensures Enabled(st, FinishCompaction({t}))
  {
    hide WfMemory, WfLevelSets, WfSnapshots, Survivors, NewerThan, Selected, Apart;
    assert Contents({t}) == Elems(t.entries);
  }

  lemma SurvivorsUnique(st: State, p: Pending)
    requires Wf(st) && WfPending(st.levels, p)
    ensures UniqueSeq(Survivors(Inputs(p), p.smallest, p.deeper))
  {
    HistoryUnique(st.hist);
    FileEntriesOld(st);
    forall e | e in Inputs(p) ensures e in Elems(st.hist) {
      InputWritten(st, p, e);
    }
  }

  /** Whatever tables the compaction cuts, its level stays in order, if and only if no table flushed
      there meanwhile lies between two survivors. */
  lemma FlushBesideIff(st: State)
    requires Wf(st) && st.pending.Some?
    ensures (forall outs: set<File> :: Enabled(st, FinishCompaction(outs)) ==> Wf(Apply(st, FinishCompaction(outs)))) <==>
            forall f :: f in st.pending.value.arrived ==> !Between(Kept(st.pending.value), f)
  {
    hide Wf, Between, Enabled, LevelDisjoint, Survivors, Spans, Kept;
    var p := st.pending.value;
    forall outs: set<File> | Enabled(st, FinishCompaction(outs))
      ensures Wf(Apply(st, FinishCompaction(outs))) <==>
              !exists f, o :: f in p.arrived && o in outs && Between(Kept(p), f) && Spans(o, f)
    {
      FinishOrderedIff(st, outs);
    }
    if exists f :: f in p.arrived && Between(Kept(p), f) {
      var f :| f in p.arrived && Between(Kept(p), f);
      BetweenSome(Kept(p), f);
      var t := OneTable(st);
      OneTableSpans(t, f);
      assert t in {t};
    }
  }

  lemma BetweenSome(S: set<Entry>, f: File)
    requires Between(S, f)
    ensures S != {}
  {
  }

  lemma OneTableSpans(t: File, f: File)
    requires Between(Elems(t.entries), f)
    ensures Spans(t, f)
  {
    var a, b :| a in t.entries && b in t.entries && a.ikey.user < Smallest(f).user && Largest(f).user < b.ikey.user;
    EntryInRange(t, a);
    EntryInRange(t, b);
  }

  // ---------- compactions the store starts itself ----------

  ghost predicate Tight(st: State) {
    st.pending.Some? ==> NoGap(st.pending.value.in0 + st.pending.value.in1)
  }

  lemma SurvivorIsInside(p: Pending, outs: set<File>, o: File, f: File)
    requires Contents(outs) == Kept(p) && o in outs && Spans(o, f)
    ensures Inside(p.in0 + p.in1, Smallest(f).user)
  {
    hide Hidden, Obsolete, IsBase;
    var a, b := o.entries[0], o.entries[|o.entries|-1];
    assert a in o.entries && b in o.entries;
    assert a in Contents(outs) && b in Contents(outs);
    SmallestIsFirst(f);
    InputOf(p, a, Smallest(f).user);
    InputOf(p, b, Smallest(f).user);
  }

  lemma InputOf(p: Pending, e: Entry, u: UserKey)
    requires e in Inputs(p)
    ensures e.ikey.user <= u ==> exists g :: g in p.in0 + p.in1 && Smallest(g).user <= u
    ensures u <= e.ikey.user ==> exists g :: g in p.in0 + p.in1 && u <= Largest(g).user
  {
    var g :| g in p.in0 + p.in1 && e in g.entries;
    EntryInRange(g, e);
  }

  /** Inputs without a gap leave no room for a table between them. */
  lemma TightFits(st: State, outs: set<File>)
    requires Wf(st) && Tight(st) && Enabled(st, FinishCompaction(outs))
    ensures Fits(st, FinishCompaction(outs)) && Wf(Apply(st, FinishCompaction(outs)))
  {
    hide Wf, Spans, Apply, NoGap, Inside, Kept, Survivors;
    PendingHolds(st);
    var p := st.pending.value;
    assert Contents(outs) == Kept(p) by { EnabledKeeps(st, outs); }
    forall o, f | o in outs && f in p.arrived ensures !Spans(o, f) {
      if Spans(o, f) {
        SurvivorIsInside(p, outs, o, f);
        NoRoom(p, f);
      }
    }
    StepKeepsWf(st, FinishCompaction(outs));
  }

  lemma EnabledKeeps(st: State, outs: set<File>)
    requires Enabled(st, FinishCompaction(outs))
    ensures Contents(outs) == Kept(st.pending.value)
  {
  }

  lemma NoRoom(p: Pending, f: File)
    requires Apart(p) && f in p.arrived && NoGap(p.in0 + p.in1)
    ensures !Inside(p.in0 + p.in1, Smallest(f).user)
  {
    SmallestIsFirst(f);
    assert forall g :: g in p.in0 + p.in1 ==> RangesDisjoint(f, g) && !Spanned(Smallest(f).user, g);
  }

  /** What a size or seek trigger makes PickCompaction choose. */
  ghost predicate AutomaticPlan(levels: seq<set<File>>, c: Plan, limits: Limits) {
    exists files, trigger: Trigger :: Represents(files, levels) && c.level + 1 < NUM_LEVELS && !trigger.Manual? &&
      MayStart(files, c.level, trigger) && ChosenPlan(files, c.level, trigger, limits) == Some(c)
  }

  ghost predicate Automatic(st: State, step: Step, limits: Limits) {
    match step
    case StartCompaction(at, in0, in1) =>
      exists c :: AutomaticPlan(st.levels, c, limits) && c.level == at && Files(c.in0) == in0 && Files(c.in1) == in1
    case _ => true
  }

  lemma AutomaticIsTight(levels: seq<set<File>>, c: Plan, limits: Limits)
    requires AutomaticPlan(levels, c, limits)
    ensures NoGap(Files(c.in0) + Files(c.in1))
  {
    hide NoGap, PlanOf, Extended, FirstInputs;
    var files, trigger: Trigger :| Represents(files, levels) && c.level + 1 < NUM_LEVELS && !trigger.Manual? &&
      MayStart(files, c.level, trigger) && ChosenPlan(files, c.level, trigger, limits) == Some(c);
    AutomaticHasNoGap(c.level, files[c.level], files[c.level + 1], Grandparents(files, c.level), trigger,
                      limits.maxFileSize, limits.ExpandedCompaction());
  }

  lemma StepKeepsTight(st: State, step: Step, limits: Limits)
    requires Tight(st) && Enabled(st, step) && Automatic(st, step, limits)
    ensures Tight(Apply(st, step))
  {
    hide NoGap, AutomaticPlan, NumberPast, Installed;
    if step.StartCompaction? {
      var c :| AutomaticPlan(st.levels, c, limits) && c.level == step.at && Files(c.in0) == step.in0 && Files(c.in1) == step.in1;
      AutomaticIsTight(st.levels, c, limits);
    }
  }

  ghost predicate AutomaticRun(st: State, steps: seq<Step>, limits: Limits, st': State)
    decreases |steps|
  {
    if steps == [] then st' == st
    else Enabled(st, steps[0]) && Automatic(st, steps[0], limits) && AutomaticRun(Apply(st, steps[0]), steps[1..], limits, st')
  }

  /** As long as no caller asks for a compaction, whatever is flushed and whatever tables are cut, the
      store stays well formed: the guard of StepKeepsWf holds at every install. */
  lemma {:induction false} AutomaticRunKeepsWf(st: State, steps: seq<Step>, limits: Limits, st': State)
    requires Wf(st) && Tight(st) && AutomaticRun(st, steps, limits, st')
    ensures Wf(st') && Tight(st')
    decreases |steps|
  {
    hide Wf, Tight, Enabled, Apply, Automatic, Fits;
    if steps != [] {
      var step := steps[0];
      StepKeepsTight(st, step, limits);
      if step.FinishCompaction? {
        TightFits(st, step.outs);
      } else {
        StepKeepsWfUnlessFinish(st, step);
      }
      AutomaticRunKeepsWf(Apply(st, step), steps[1..], limits, st');
    }
  }

  lemma StepKeepsWfUnlessFinish(st: State, step: Step)
    requires Wf(st) && Enabled(st, step) && !step.FinishCompaction?
    ensures Wf(Apply(st, step))
  {
    hide Wf, Enabled, Apply;
    StepKeepsWf(st, step);
  }
}
