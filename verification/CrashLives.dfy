/** The life of a database: runs, crashes, openings, and crashes while opening (db/db_impl.cc). */
module CrashLives {
  import opened InternalKeys
  import opened FlatSpec
  import opened Versions
  import opened MemTables
  import opened Store
  import opened StoreInvariants
  import opened SnapshotIsolation
  import opened Durability
  import opened CrashRecovery

  /** `Halfway` is a crash while opening, after the new log was created and before the manifest names it:
      tables recovery wrote by then are in no version, so that the log is all it leaves. */
  datatype Event =
    | Work(step: DiskStep)
    | Crash
    | Halfway(number: nat)
    | Reopen(outcome: Outcome, disk: Disk)

  /** What such a crash leaves, seen as a store that has switched to the new log. */
  ghost function HalfOpened(r: Running, number: nat): Running
    requires r.st.flushed <= |CrashHistory(r)| && NextFree(r) > 0
  {
    var hist := CrashHistory(r);
    Running(State(hist, r.st.flushed, |hist|, {}, Some(Elems(hist[r.st.flushed..])), r.st.levels,
                  NextFree(r) - 1, [], r.st.floor, r.st.nextFile, None),
            r.disk.(logs := r.disk.logs[number := []]), number, Max(r.counter, number + 1), None)
  }

  ghost predicate Happens(r: Running, alive: bool, e: Event) {
    match e
    case Work(step) => alive && DiskEnabled(r, step) && DiskFits(r, step) && DiskHarmless(r, step)
    case Crash => alive
    case Halfway(number) => !alive && number > r.current && r.st.flushed <= |CrashHistory(r)|
    case Reopen(o, d') => !alive && OpenedAs(r, o, d')
  }

  ghost function Next(r: Running, alive: bool, e: Event): (Running, bool)
    requires Happens(r, alive, e)
  {
    match e
    case Work(step) => (DiskApply(r, step), true)
    case Crash => (r, false)
    case Halfway(number) => (HalfOpened(r, number), false)
    case Reopen(o, d') => (OpenedRunning(r, o, d'), true)
  }

  /** Any number of crashes and openings, between and while opening included. */
  ghost predicate Life(r: Running, alive: bool, events: seq<Event>, r': Running, alive': bool)
    decreases |events|
  {
    if events == [] then r' == r && alive' == alive
    else
      Happens(r, alive, events[0]) &&
      var (mid, still) := Next(r, alive, events[0]);
      Life(mid, still, events[1..], r', alive')
  }

  // ---------- a crash while opening ----------

  lemma HalfOpenedBacks(r: Running, number: nat)
    requires Durable(r) && number > r.current
    ensures LogsCover(HalfOpened(r, number))
  {
    hide Wf, Recorded, LogsHold, InflightFits;
    DurableParts(r);
    var hist, h := CrashHistory(r), HalfOpened(r, number);
    NoneLogged(h);
    LastIsFree(r);
    assert NextFree(h) == NextFree(r);
    NewLogBacks(r.disk, r.current, hist, r.st.flushed, r.st.memStart, NextFree(r), number);
  }

  lemma NoneLogged(r: Running)
    requires r.inflight.None?
    ensures CrashHistory(r) == r.st.hist && NextFree(r) == r.st.lastSeq + 1
  {
  }

  lemma LastIsFree(r: Running)
    requires Durable(r)
    ensures var hist := CrashHistory(r);
            && NumberedUpTo(hist, NextFree(r) - 1) && FirstAfter(hist, |hist|) <= NextFree(r)
            && r.st.lastSeq < NextFree(r) <= MAX_SEQUENCE_NUMBER
  {
    hide LogsCover, Recorded, WfLevelSets, FilesFrom, Underway;
    DurableParts(r);
  }

  lemma HalfOpenedIsWf(r: Running, number: nat)
    requires Durable(r) && number > r.current
    ensures Wf(HalfOpened(r, number).st)
  {
    hide LogsCover, Recorded, CrashHistory, NewerThan, LevelDisjoint;
    DurableParts(r);
    LastIsFree(r);
    CrashHistoryNumbered(r);
    var hist := CrashHistory(r);
    assert hist[|hist|..] == [];
    assert hist[..r.st.flushed] == r.st.hist[..r.st.flushed] by { CrashHistoryGrows(r); }
  }

  lemma CrashHistoryGrows(r: Running)
    ensures r.st.hist <= CrashHistory(r)
  {
  }

  lemma HalfOpenedHoldsAll(r: Running, number: nat)
    requires Durable(r)
    ensures All(HalfOpened(r, number).st) == All(r.st) + Elems(InflightEntries(r))
  {
    hide LogsCover, Recorded, WfLevelSets, FilesFrom, Underway, InflightFits;
    DurableParts(r);
    var st, hist, es := r.st, CrashHistory(r), InflightEntries(r);
    UnflushedEntries(st);
    SlicesOf(st.hist, es, st.flushed, st.memStart, |hist|);
    assert hist[st.flushed..|hist|] == hist[st.flushed..] && hist[|hist|..] == [];
    Regroup(Elems(hist[st.flushed..]), {}, ImmEntries(st), st.mem, Elems(es), FileEntries(st.levels));
  }

  lemma HalfOpenedIsDurable(r: Running, number: nat)
    requires Durable(r) && Faithful(r.st) && number > r.current
    ensures Durable(HalfOpened(r, number)) && Faithful(HalfOpened(r, number).st)
  {
    hide Wf, Faithful, LogsCover, All;
    var h := HalfOpened(r, number);
    DurableParts(r);
    DurableIsWf(r);
    HalfOpenedIsWf(r, number);
    HalfOpenedBacks(r, number);
    HalfOpenedHoldsAll(r, number);
    ReopenedIsFaithful(r, h.st);
    LastIsFree(r);
    assert h.st.hist[..r.st.flushed] == r.st.hist[..r.st.flushed] by { CrashHistoryGrows(r); }
  }

  // ---------- whole lives ----------

  lemma WorkKeepsDurable(r: Running, step: DiskStep)
    requires Durable(r) && Faithful(r.st) && DiskEnabled(r, step) && DiskFits(r, step) && DiskHarmless(r, step)
    ensures Durable(DiskApply(r, step)) && Faithful(DiskApply(r, step).st)
    ensures r.st.hist <= DiskApply(r, step).st.hist
  {
    hide Durable, Faithful, DiskEnabled, DiskApply, DiskFits, DiskHarmless;
    DurableIsWf(r);
    StepKeepsDurable(r, step);
    StepKeepsFaith(r, step);
  }

  lemma EventKeepsDurable(r: Running, alive: bool, e: Event)
    requires Durable(r) && Faithful(r.st) && Happens(r, alive, e)
    ensures var (r', _) := Next(r, alive, e); Durable(r') && Faithful(r'.st) && r.st.hist <= r'.st.hist
  {
    hide Durable, Faithful, DiskEnabled, DiskApply, DiskFits, DiskHarmless, OpenedAs, CrashHistory;
    CrashHistoryGrows(r);
    match e
    case Work(step) => WorkKeepsDurable(r, step);
    case Crash =>
    case Halfway(number) => HalfOpenedIsDurable(r, number);
    case Reopen(o, d') =>
      OpenSucceeds(r, o, d');
      OpenedHistory(r, o, d');
  }

  lemma OpenedHistory(r: Running, o: Outcome, d': Disk)
    requires OpenedAs(r, o, d')
    ensures OpenedState(r, o).hist == CrashHistory(r)
  {
    hide Replays, CrashRecovery.Covers, ManifestSaved;
  }

  /** Whatever befalls it, the store stays durable and faithful, and its history only grows. */
  lemma {:induction false} LifeKeepsDurable(r: Running, alive: bool, events: seq<Event>, r': Running, alive': bool)
    requires Durable(r) && Faithful(r.st) && Life(r, alive, events, r', alive')
    ensures Durable(r') && Faithful(r'.st) && r.st.hist <= r'.st.hist
    decreases |events|
  {
    hide Durable, Faithful, Happens, Next;
    if events != [] {
      EventKeepsDurable(r, alive, events[0]);
      var (mid, still) := Next(r, alive, events[0]);
      LifeKeepsDurable(mid, still, events[1..], r', alive');
    }
  }

  function LastNumber(hist: seq<Entry>): nat {
    if hist == [] then 0 else hist[|hist|-1].ikey.seqno
  }

  /** A read at a number the history had reached is answered alike ever after, as far back as the store
      still keeps what it needs. */
  lemma ReadsSurvive(r: Running, r': Running, k: UserKey, s: nat)
    requires Durable(r) && Faithful(r.st) && Durable(r') && Faithful(r'.st) && r.st.hist <= r'.st.hist
    requires r.st.floor <= s && r'.st.floor <= s <= LastNumber(r.st.hist)
    ensures Read(All(r'.st), k, s) == Read(All(r.st), k, s)
  {
    hide Durable, Faithful, Read, All;
    var hist, hist' := r.st.hist, r'.st.hist;
    HistoryIsNumbered(r');
    forall i | |hist| <= i < |hist'| ensures hist'[i].ikey.seqno > s {
      if hist != [] {
        assert hist'[|hist|-1] == hist[|hist|-1];
      }
    }
    HistoryReadStable(hist, hist', k, s);
    FaithfulAt(r.st, k, s);
    FaithfulAt(r'.st, k, s);
  }

  lemma HistoryIsNumbered(r: Running)
    requires Durable(r)
    ensures Numbered(r.st.hist)
  {
  }

  /** After any life that ended in a crash, while running or while opening, opening the store recovers
      every write that was ever acknowledged, and every read at a number it had reached. */
  method CrashAndOpen(d: Disk, sizeOf: seq<Entry> -> nat, full: seq<Entry> -> bool, reuseLogs: bool, reuseManifest: bool,
                      ghost n: nat, ghost before: seq<Event>, ghost r0: Running, ghost after: seq<Event>, ghost r: Running)
    returns (d': Disk, logNumber: nat, lastSequence: nat, nextFile: nat, mem: MemTable, ghost st': State, ghost o: Outcome)
    requires n >= 2 && Life(Created(n), true, before, r0, true) && Life(r0, true, after, r, false) && d == r.disk
    requires reuseManifest ==> reuseLogs
    ensures Happens(r, false, Reopen(o, d'))
    ensures Next(r, false, Reopen(o, d')) == (Running(st', d', logNumber, nextFile, None), true)
    ensures Durable(Running(st', d', logNumber, nextFile, None)) && Faithful(st') && r0.st.hist <= st'.hist
    ensures forall k, s: nat :: r0.st.floor <= s && st'.floor <= s <= LastNumber(r0.st.hist) ==>
              Read(All(st'), k, s) == Read(All(r0.st), k, s)
    ensures forall k, s: nat :: r.st.floor <= s <= r.st.lastSeq && (r.inflight.Some? ==> s < r.inflight.value.first) ==>
              Read(All(st'), k, s) == Read(All(r.st), k, s)
  {
    hide Durable, Faithful, Life, Created, Read, All, OpenedAs;
    CreatedIsDurable(n);
    LifeKeepsDurable(Created(n), true, before, r0, true);
    LifeKeepsDurable(r0, true, after, r, false);
    d', logNumber, lastSequence, nextFile, mem, st', o := Open(d, sizeOf, full, reuseLogs, reuseManifest, r);
    ghost var r' := Running(st', d', logNumber, nextFile, None);
    forall k, s: nat | r0.st.floor <= s && st'.floor <= s <= LastNumber(r0.st.hist)
      ensures Read(All(st'), k, s) == Read(All(r0.st), k, s)
    {
      ReadsSurvive(r0, r', k, s);
    }
    DurableIsWf(r');
    forall k, s: nat | r.st.floor <= s <= r.st.lastSeq && (r.inflight.Some? ==> s < r.inflight.value.first)
      ensures Read(All(st'), k, s) == Read(All(r.st), k, s)
    {
      ReadsSurviveCrash(r, st', k, s);
    }
  }
}
