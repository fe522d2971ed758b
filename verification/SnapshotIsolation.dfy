/** Reads over whole runs: the store stays faithful to its history, and a held
    snapshot keeps its answers (db/db_impl.cc). */
module SnapshotIsolation {
  import opened InternalKeys
  import opened FlatSpec
  import opened Versions
  import opened CompactionRules
  import opened CompactionInputs
  import opened OverlapSearch
  import opened BoundaryHazards
  import opened Store
  import opened StoreInvariants
  import opened StoreHazards

  lemma ReadsAgreeVia(S: set<Entry>, M: set<Entry>, T: set<Entry>, from: nat, to: nat)
    requires ReadsAgree(S, M, to) && ReadsAgree(M, T, from) && from <= to
    ensures ReadsAgree(S, T, to)
  {
    forall k, s: nat | s >= to ensures Read(S, k, s) == Read(T, k, s) {
      assert Read(S, k, s) == Read(M, k, s);
    }
  }

  // ---------- writes ----------

  lemma NewLayerAgrees(N: set<Entry>, A: set<Entry>, B: set<Entry>, from: nat)
    requires UniqueSeq(N + A) && UniqueSeq(N + B) && NewerThan(N, A) && NewerThan(N, B)
    requires ReadsAgree(A, B, from)
    ensures ReadsAgree(N + A, N + B, from)
  {
    forall k, s: nat | s >= from ensures Read(N + A, k, s) == Read(N + B, k, s) {
      NewestOfLayers(N, A, k, s);
      NewestOfLayers(N, B, k, s);
      assert Read(A, k, s) == Read(B, k, s);
    }
  }

  lemma StampedAreNew(es: seq<Entry>, last: nat, S: set<Entry>)
    requires forall i :: 0 <= i < |es| ==> es[i].ikey.seqno == last + 1 + i
    requires forall e :: e in S ==> e.ikey.seqno <= last
    ensures NewerThan(Elems(es), S)
  {
  }

  lemma WriteKeepsReads(st: State, ops: seq<Op>)
    requires Wf(st) && Faithful(st) && Enabled(st, Write(ops))
    ensures Faithful(Apply(st, Write(ops)))
  {
    StoreParts(st);
    WriteKeepsFaith(st, ops);
  }

  lemma WriteKeepsFaith(st: State, ops: seq<Op>)
    requires Numbered(st.hist) && NumberedUpTo(st.hist, st.lastSeq) && All(st) <= Elems(st.hist)
    requires Faithful(st) && Enabled(st, Write(ops))
    ensures Faithful(Apply(st, Write(ops)))
  {
    WrittenAgrees(st, Stamp(ops, st.lastSeq + 1), All(st));
    WrittenUnion(st, Stamp(ops, st.lastSeq + 1));
    assert All(Apply(st, Write(ops))) == Elems(Stamp(ops, st.lastSeq + 1)) + All(st);
  }

  lemma WrittenAgrees(st: State, es: seq<Entry>, S: set<Entry>)
    requires Numbered(st.hist) && NumberedUpTo(st.hist, st.lastSeq)
    requires S <= Elems(st.hist) && ReadsAgree(S, Elems(st.hist), st.floor)
    requires forall i :: 0 <= i < |es| ==> es[i].ikey.seqno == st.lastSeq + 1 + i
    ensures ReadsAgree(Elems(es) + S, Elems(st.hist + es), st.floor)
  {
    WrittenIsNewest(st.hist, st.lastSeq, es, S);
    NewLayerAgrees(Elems(es), S, Elems(st.hist), st.floor);
    assert Elems(st.hist + es) == Elems(es) + Elems(st.hist);
  }

  lemma WrittenIsNewest(hist: seq<Entry>, last: nat, es: seq<Entry>, S: set<Entry>)
    requires Numbered(hist) && NumberedUpTo(hist, last) && S <= Elems(hist)
    requires forall i :: 0 <= i < |es| ==> es[i].ikey.seqno == last + 1 + i
    ensures NewerThan(Elems(es), S) && NewerThan(Elems(es), Elems(hist))
    ensures UniqueSeq(Elems(es) + S) && UniqueSeq(Elems(es) + Elems(hist))
  {
    StampedAreNew(es, last, Elems(hist));
    HistoryUnique(hist + es);
    assert Elems(hist + es) == Elems(es) + Elems(hist);
  }

  lemma WrittenUnion(st: State, es: seq<Entry>)
    ensures Elems(st.hist + es) == Elems(es) + Elems(st.hist)
    ensures st.mem + Elems(es) + ImmEntries(st) + FileEntries(st.levels) == Elems(es) + All(st)
  {
  }

  // ---------- flushes ----------

  lemma FlushKeepsEntries(levels: seq<set<File>>, f: File, level: nat)
    requires level < |levels|
    ensures FileEntries(levels[level := levels[level] + {f}]) == FileEntries(levels) + Elems(f.entries)
  {
    var levels' := levels[level := levels[level] + {f}];
    forall e | e in FileEntries(levels) ensures e in FileEntries(levels') {
      var l, g :| 0 <= l < |levels| && g in levels[l] && e in g.entries;
      assert g in levels'[l];
    }
    assert f in levels'[level];
  }

  lemma FlushKeepsAll(st: State, file: Option<File>, level: nat)
    requires Wf(st) && Enabled(st, Flush(file, level))
    ensures All(Apply(st, Flush(file, level))) == All(st)
  {
    if file.Some? { FlushKeepsEntries(st.levels, file.value, level); }
  }

  // ---------- compactions ----------

  /** The one step that can hurt a read, and exactly when it does. */
  ghost predicate Harmless(st: State, step: Step) {
    step.FinishCompaction? ==>
      Wf(st) && st.pending.Some? && !HazardSetting(st).Hazard(st.pending.value.smallest)
  }

  lemma FinishKeepsReads(st: State, outs: set<File>)
    requires Wf(st) && Faithful(st) && Enabled(st, FinishCompaction(outs)) && Harmless(st, FinishCompaction(outs))
    ensures Faithful(Apply(st, FinishCompaction(outs)))
  {
    FinishSafeIff(st, outs);
    ReadsAgreeVia(All(Apply(st, FinishCompaction(outs))), All(st), Elems(st.hist), st.floor, st.pending.value.smallest);
  }

  /** A hazardous finish does lose faith with the history. */
  lemma HazardLosesReads(st: State, outs: set<File>)
    requires Wf(st) && Faithful(st) && Enabled(st, FinishCompaction(outs)) && !Harmless(st, FinishCompaction(outs))
    ensures !Faithful(Apply(st, FinishCompaction(outs)))
  {
    FinishSafeIff(st, outs);
    var p, st' := st.pending.value, Apply(st, FinishCompaction(outs));
    var k, s: nat :| s >= p.smallest && Read(All(st'), k, s) != Read(All(st), k, s);
    assert Read(All(st), k, s) == Read(Elems(st.hist), k, s);
  }

  lemma MoveKeepsAll(st: State, from: nat, moved: File)
    requires Wf(st) && Enabled(st, TrivialMove(from, moved))
    ensures All(Apply(st, TrivialMove(from, moved))) == All(st)
  {
    var p := Pending(from, {moved}, {}, 0, {});
    InputsAreStored(st, p);
    OutputsAreStored(st, p, {moved});
  }

  lemma StepKeepsReads(st: State, step: Step)
    requires Wf(st) && Faithful(st) && Enabled(st, step)
    ensures Faithful(Apply(st, step)) <==> Harmless(st, step)
  {
    match step
    case Write(ops) => WriteKeepsReads(st, ops);
    case FailWrite(ops) => assert All(Apply(st, step)) == All(st);
    case Rotate => assert All(Apply(st, step)) == All(st);
    case Flush(file, level) => FlushKeepsAll(st, file, level);
    case StartCompaction(at, in0, in1) =>
    case FinishCompaction(outs) =>
      if Harmless(st, step) {
        FinishKeepsReads(st, outs);
      } else {
        HazardLosesReads(st, outs);
      }
    case AbortCompaction =>
    case TrivialMove(from, moved) => MoveKeepsAll(st, from, moved);
    case TakeSnapshot =>
    case ReleaseSnapshot(index) =>
  }

  // ---------- runs ----------

  /** A sequence of enabled steps, no compaction among them finishing on a hazard or across a table
      flushed beside it. */
  ghost predicate Run(st: State, steps: seq<Step>)
    decreases |steps|
  {
    steps == [] ||
    (Enabled(st, steps[0]) && Harmless(st, steps[0]) && Fits(st, steps[0]) && Run(Apply(st, steps[0]), steps[1..]))
  }

  ghost function After(st: State, steps: seq<Step>): State
    requires Run(st, steps)
    decreases |steps|
  {
    if steps == [] then st else After(Apply(st, steps[0]), steps[1..])
  }

  lemma {:induction false} RunKeepsInvariant(st: State, steps: seq<Step>)
    requires Wf(st) && Faithful(st) && Run(st, steps)
    ensures Wf(After(st, steps)) && Faithful(After(st, steps))
    ensures Extends(st, After(st, steps))
    decreases |steps|
  {
    hide Wf, Faithful, Harmless, Fits;
    if steps != [] {
      StepKeepsWf(st, steps[0]);
      StepKeepsReads(st, steps[0]);
      StepExtends(st, steps[0]);
      RunKeepsInvariant(Apply(st, steps[0]), steps[1..]);
    }
  }

  /** Nothing committed is forgotten, and what is committed later gets later numbers. */
  predicate Extends(st: State, st': State) {
    && st.hist <= st'.hist && st.lastSeq <= st'.lastSeq
    && forall i :: |st.hist| <= i < |st'.hist| ==> st'.hist[i].ikey.seqno > st.lastSeq
  }

  lemma StepExtends(st: State, step: Step)
    requires Enabled(st, step)
    ensures Extends(st, Apply(st, step))
  {
    hide FinishEnabled, FlushEnabled, WfPending, Installed, SmallestSnapshot, Deeper;
  }

  /** Snapshot isolation: whatever steps lie between, a snapshot held at both ends reads the
      same at both, and both answers are those of the history it was taken from. */
  lemma SnapshotKeepsItsAnswers(st: State, steps: seq<Step>, s: nat, k: UserKey)
    requires Wf(st) && Faithful(st) && Run(st, steps)
    requires s in st.snaps && s in After(st, steps).snaps
    ensures Read(All(After(st, steps)), k, s) == Read(All(st), k, s) == Read(Elems(st.hist), k, s)
  {
    RunKeepsInvariant(st, steps);
    HistoryReadStable(st.hist, After(st, steps).hist, k, s);
  }

  /** An unsnapshotted read returns the newest committed value of the key. */
  lemma LatestReadIsCurrent(st: State, steps: seq<Step>, k: UserKey)
    requires Wf(st) && Faithful(st) && Run(st, steps)
    ensures var end := After(st, steps);
            Read(All(end), k, end.lastSeq) == Read(Elems(end.hist), k, end.lastSeq)
  {
    RunKeepsInvariant(st, steps);
  }

  /** A freshly created database. */
  ghost function Empty(): State {
    State([], 0, 0, {}, None, [{}, {}, {}, {}, {}, {}, {}], 0, [], 0, 2, None)
  }

  lemma NoFilesNoEntries(levels: seq<set<File>>)
    requires |levels| == NUM_LEVELS && forall l :: 0 <= l < |levels| ==> levels[l] == {}
    ensures WfLevelSets(levels) && FileEntries(levels) == {} && FilesFrom(levels, {}, 0)
  {
    forall l | 0 <= l < |levels| ensures Contents(levels[l]) == {} {
    }
  }

  lemma EmptyIsWellFormed()
    ensures Wf(Empty()) && Faithful(Empty())
  {
    NoFilesNoEntries(Empty().levels);
    assert Elems(Empty().hist) == {};
  }
}
