/** How the objects in memory stand for a state of the store. */
module StoreViews {
  import opened InternalKeys
  import opened FlatSpec
  import opened Versions
  import opened CompactionRules
  import opened CompactionInputs
  import opened CompactionWork
  import opened Store
  import opened StoreInvariants
  import opened StoreChoices
  import opened VersionBuilder

  /** NewFileNumber never hands out a number twice. */
  ghost predicate NumbersUnique(levels: seq<set<File>>, next: nat) {
    && (forall l :: 0 <= l < |levels| ==> NumberedBelow(levels[l], next))
    && (forall l, m :: 0 <= l < m < |levels| ==> Numbers(levels[l]) !! Numbers(levels[m]))
  }

  ghost predicate NumberedBelow(fs: set<File>, next: nat) {
    DistinctNumbers(fs) && forall f :: f in fs ==> f.number < next
  }

  lemma NumbersOfUnion(A: set<File>, B: set<File>)
    ensures Numbers(A + B) == Numbers(A) + Numbers(B)
  {
  }

  lemma NumbersOfPart(A: set<File>, B: set<File>)
    requires A <= B
    ensures Numbers(A) <= Numbers(B)
  {
  }

  lemma LevelsSorted(files: seq<seq<File>>, levels: seq<set<File>>)
    requires Represents(files, levels) && forall l :: 0 < l < NUM_LEVELS ==> LevelDisjoint(levels[l])
    ensures forall l :: 0 < l < NUM_LEVELS ==> LevelSorted(files[l])
  {
    forall l | 0 < l < NUM_LEVELS ensures LevelSorted(files[l]) {
      forall f, g | f in files[l] && g in files[l] && f != g
        ensures Less(Largest(f), Smallest(g)) || Less(Largest(g), Smallest(f))
      {
        assert f in Files(files[l]) && g in Files(files[l]);
      }
      InOrderDisjointIsSorted(files[l]);
    }
  }

  lemma {:induction false} DeepIsFileEntries(files: seq<seq<File>>, levels: seq<set<File>>, from: nat)
    requires Represents(files, levels) && from <= NUM_LEVELS
    ensures DeepContents(files, from) == FileEntries(levels[from..])
    decreases NUM_LEVELS - from
  {
    if from < NUM_LEVELS {
      DeepIsFileEntries(files, levels, from + 1);
      SplitFirstLevel(levels, from);
    }
  }

  lemma SplitFirstLevel(levels: seq<set<File>>, from: nat)
    requires from < |levels|
    ensures FileEntries(levels[from..]) == Contents(levels[from]) + FileEntries(levels[from+1..])
  {
    var here, deeper := levels[from..], levels[from+1..];
    forall e | e in FileEntries(here) ensures e in Contents(levels[from]) + FileEntries(deeper) {
      var l, f: File :| 0 <= l < |here| && f in here[l] && e in f.entries;
      if l > 0 { assert f in deeper[l-1]; }
    }
    forall e | e in Contents(levels[from]) ensures e in FileEntries(here) {
      var f :| f in levels[from] && e in f.entries;
      assert f in here[0];
    }
    forall e | e in FileEntries(deeper) ensures e in FileEntries(here) {
      var l, f: File :| 0 <= l < |deeper| && f in deeper[l] && e in f.entries;
      assert f in here[l+1];
    }
  }

  /** The version of a well-formed state is one Version::Get can search. */
  lemma VersionIsWf(st: State, files: seq<seq<File>>)
    requires Wf(st) && Represents(files, st.levels)
    ensures WfVersion(files) && DeepContents(files, 0) == FileEntries(st.levels)
  {
    LevelsSorted(files, st.levels);
    DeepIsFileEntries(files, st.levels, 0);
    assert st.levels[0..] == st.levels;
    StoreParts(st);
  }

  /** Memtable, then immutable memtable, then the version: the first layer that knows the
      key decides. */
  lemma LayeredIsFlat(st: State, k: UserKey, s: nat)
    requires Wf(st)
    ensures var m, i := Newest(st.mem, k, s), Newest(ImmEntries(st), k, s);
            Newest(All(st), k, s) == if m.Some? then m else if i.Some? then i else Newest(FileEntries(st.levels), k, s)
  {
    StoreParts(st);
    var below := ImmEntries(st) + FileEntries(st.levels);
    assert All(st) == st.mem + below;
    NewestOfLayers(st.mem, below, k, s);
    NewestOfLayers(ImmEntries(st), FileEntries(st.levels), k, s);
  }

  lemma HistorySeqnosInRange(st: State, files: seq<seq<File>>, l: nat, f: File)
    requires Wf(st) && Represents(files, st.levels) && l < NUM_LEVELS && f in files[l]
    ensures Largest(f).seqno <= MAX_SEQUENCE_NUMBER
  {
    FileEntriesOld(st);
    var e := f.entries[|f.entries|-1];
    assert f in Files(files[l]) && f in st.levels[l] && e in f.entries;
    assert e in FileEntries(st.levels);
  }

  // ---------- edits ----------

  /** Adding one file at a level. */
  lemma FlushEdit(levels: seq<set<File>>, f: File, level: nat, l: nat)
    requires level < |levels| && l < |levels|
    ensures EditLevel(levels[l], FileEdit([], [LevelFile(level, f)]), l) == levels[level := levels[level] + {f}][l]
  {
    var added := [LevelFile(level, f)];
    assert added[0] in added;
    assert AddedAt(added, l) == if l == level then {f} else {};
    assert DeletedAt([], l) == {};
  }

  function InputDeletions(level: nat, in0: seq<File>, in1: seq<File>): (ds: seq<LevelNumber>)
    ensures |ds| == |in0| + |in1|
  {
    seq(|in0|, i requires 0 <= i < |in0| => LevelNumber(level, in0[i].number)) +
    seq(|in1|, i requires 0 <= i < |in1| => LevelNumber(level + 1, in1[i].number))
  }

  function OutputAdditions(level: nat, outs: seq<File>): (added: seq<LevelFile>)
    ensures |added| == |outs| && forall i :: 0 <= i < |outs| ==> added[i] == LevelFile(level + 1, outs[i])
  {
    seq(|outs|, i requires 0 <= i < |outs| => LevelFile(level + 1, outs[i]))
  }

  lemma DeletionsAt(level: nat, in0: seq<File>, in1: seq<File>, l: nat)
    ensures DeletedAt(InputDeletions(level, in0, in1), l) ==
            if l == level then Numbers(Files(in0)) else if l == level + 1 then Numbers(Files(in1)) else {}
  {
    var ds := InputDeletions(level, in0, in1);
    forall f | f in in0 ensures LevelNumber(level, f.number) in ds {
      var i :| 0 <= i < |in0| && in0[i] == f;
      assert ds[i] == LevelNumber(level, f.number);
    }
    forall f | f in in1 ensures LevelNumber(level + 1, f.number) in ds {
      var i :| 0 <= i < |in1| && in1[i] == f;
      assert ds[|in0| + i] == LevelNumber(level + 1, f.number);
    }
  }

  lemma AdditionsAt(level: nat, outs: seq<File>, l: nat)
    ensures AddedAt(OutputAdditions(level, outs), l) == if l == level + 1 then Files(outs) else {}
  {
    var added := OutputAdditions(level, outs);
    forall f | f in outs ensures LevelFile(level + 1, f) in added {
      var i :| 0 <= i < |outs| && outs[i] == f;
      assert added[i] == LevelFile(level + 1, f);
    }
  }

  lemma WithoutNumbers(fs: set<File>, gone: set<File>)
    requires gone <= fs && DistinctNumbers(fs)
    ensures (set f | f in fs && f.number !in Numbers(gone)) == fs - gone
  {
  }

  /** The edit of a compaction or a trivial move installs exactly the new levels. */
  lemma InstallEdit(levels: seq<set<File>>, next: nat, level: nat, in0: seq<File>, in1: seq<File>, outs: seq<File>, l: nat)
    requires |levels| == NUM_LEVELS && level + 1 < NUM_LEVELS && l < NUM_LEVELS && NumbersUnique(levels, next)
    requires Files(in0) <= levels[level] && Files(in1) <= levels[level + 1]
    ensures EditLevel(levels[l], FileEdit(InputDeletions(level, in0, in1), OutputAdditions(level, outs)), l) ==
            Installed(levels, Pending(level, Files(in0), Files(in1), 0, {}), Files(outs))[l]
  {
    DeletionsAt(level, in0, in1, l);
    AdditionsAt(level, outs, l);
    if l == level {
      WithoutNumbers(levels[l], Files(in0));
    } else if l == level + 1 {
      WithoutNumbers(levels[l], Files(in1));
    }
  }

  // ---------- outputs ----------

  /** The tables a compaction loop cuts are files that hold exactly the survivors. */
  lemma OutputsAreSurvivors(merged: seq<Entry>, smallest: nat, deeper: set<File>, outputs: seq<seq<Entry>>)
    requires Sorted(merged) && UniqueSeq(Elems(merged)) && AllNonempty(outputs)
    requires Concat(outputs) == Kept(merged, |merged|, smallest, deeper)
    ensures forall i :: 0 <= i < |outputs| ==> outputs[i] != [] && Sorted(outputs[i])
    ensures forall i, j :: 0 <= i < j < |outputs| ==> Less(outputs[i][|outputs[i]|-1].ikey, outputs[j][0].ikey)
    ensures forall e :: e in Survivors(Elems(merged), smallest, deeper) <==> exists i :: 0 <= i < |outputs| && e in outputs[i]
  {
    KeptIsSurvivors(merged, |merged|, smallest, deeper);
    CutsAreSorted(outputs);
    assert merged[..|merged|] == merged;
  }

  /** The same, for the files named after those tables. */
  lemma OutputFilesFit(merged: seq<Entry>, smallest: nat, deeper: set<File>, outputs: seq<seq<Entry>>, outs: seq<File>)
    requires Sorted(merged) && UniqueSeq(Elems(merged)) && AllNonempty(outputs)
    requires Concat(outputs) == Kept(merged, |merged|, smallest, deeper)
    requires |outs| == |outputs| && forall i :: 0 <= i < |outs| ==> outs[i].entries == outputs[i]
    ensures Contents(Files(outs)) == Survivors(Elems(merged), smallest, deeper)
    ensures LevelDisjoint(Files(outs))
  {
    OutputsAreSurvivors(merged, smallest, deeper, outputs);
    forall e | e in Survivors(Elems(merged), smallest, deeper) ensures e in Contents(Files(outs)) {
      var i :| 0 <= i < |outputs| && e in outputs[i];
      assert outs[i] in Files(outs) && e in outs[i].entries;
    }
    forall e | e in Contents(Files(outs)) ensures e in Survivors(Elems(merged), smallest, deeper) {
      var f :| f in Files(outs) && e in f.entries;
      var i :| 0 <= i < |outs| && outs[i] == f;
      assert e in outputs[i];
    }
    forall i, j | 0 <= i < j < |outs| ensures Less(Largest(outs[i]), Smallest(outs[j])) {
      assert Less(outputs[i][|outputs[i]|-1].ikey, outputs[j][0].ikey);
    }
    FilesDisjoint(outs);
  }

  lemma FilesDisjoint(outs: seq<File>)
    requires forall i, j :: 0 <= i < j < |outs| ==> Less(Largest(outs[i]), Smallest(outs[j]))
    ensures LevelDisjoint(Files(outs))
  {
    forall f, g | f in Files(outs) && g in Files(outs) && f != g
      ensures Less(Largest(f), Smallest(g)) || Less(Largest(g), Smallest(f))
    {
      var i :| 0 <= i < |outs| && outs[i] == f;
      var j :| 0 <= j < |outs| && outs[j] == g;
      assert i != j;
    }
  }
}

/** The store object (db/db_impl.cc) against the state machine of module Store. */
module StoreObject {
  import opened InternalKeys
  import opened FlatSpec
  import V = Versions
  import opened Versions
  import opened OverlapSearch
  import opened CompactionRules
  import opened CompactionInputs
  import W = CompactionWork
  import opened FlushLevel
  import opened BoundaryHazards
  import opened Store
  import opened StoreInvariants
  import opened StoreHazards
  import opened SnapshotIsolation
  import opened VersionBuilder
  import opened WrittenReads
  import opened MemTables
  import opened SnapshotLists
  import opened StoreViews
  import opened StoreChoices

  lemma HistoryTakesEffect(st: State, ops: seq<Op>)
    requires WfMemory(st) && Enabled(st, Store.Write(ops))
    ensures TakesEffect(Elems(st.hist), Elems(Apply(st, Store.Write(ops)).hist), ops, st.lastSeq + 1)
  {
    hide TakesEffect;
    HistoryUnique(st.hist);
    StampTakesEffect(Elems(st.hist), ops, st.lastSeq + 1);
    assert Elems(st.hist + Stamp(ops, st.lastSeq + 1)) == Elems(st.hist) + Elems(Stamp(ops, st.lastSeq + 1));
  }

  lemma WriteKeepsAll(st: State, ops: seq<Op>, logged: bool)
    requires Wf(st) && Faithful(st) && st.lastSeq + |ops| < MAX_SEQUENCE_NUMBER
    ensures var step := if logged then Store.Write(ops) else FailWrite(ops);
            Enabled(st, step) && Wf(Apply(st, step)) && Faithful(Apply(st, step))
  {
    hide Wf, Faithful;
    var step := if logged then Store.Write(ops) else FailWrite(ops);
    StepKeepsWf(st, step);
    StepKeepsReads(st, step);
  }

  lemma WfMemoryOf(st: State)
    requires Wf(st)
    ensures WfMemory(st)
  {
  }

  /** The read at the last number after a write. */
  lemma WrittenIsRead(was: State, st: State, ops: seq<Op>, logged: bool, key: UserKey)
    requires Wf(was) && Enabled(was, Store.Write(ops)) && st == Apply(was, if logged then Store.Write(ops) else FailWrite(ops))
    requires logged ==> TakesEffect(Elems(was.hist), Elems(st.hist), ops, was.lastSeq + 1)
    ensures forall i: nat :: logged && LastOn(ops, |ops|, key, i) ==>
              Read(Elems(st.hist), key, st.lastSeq) == match ops[i] case PutOp(_, v) => Some(v) case DeleteOp(_) => None
    ensures !logged || (forall i :: 0 <= i < |ops| ==> ops[i].key != key) ==>
              Read(Elems(st.hist), key, st.lastSeq) == Read(Elems(was.hist), key, was.lastSeq)
  {
    hide Read;
    LaterReadsSame(was.hist, key, was.lastSeq, st.lastSeq);
    if logged {
      assert SeenAt(|ops|, was.lastSeq + 1, st.lastSeq) == |ops|;
    }
  }

  /** Beyond the last number nothing more is read. */
  lemma LaterReadsSame(hist: seq<Entry>, k: UserKey, last: nat, s: nat)
    requires Numbered(hist) && NumberedUpTo(hist, last) && last <= s
    ensures Read(Elems(hist), k, s) == Read(Elems(hist), k, last)
  {
    HistoryUnique(hist);
    if Newest(Elems(hist), k, last).Some? {
      NewestIs(Elems(hist), k, s, Newest(Elems(hist), k, last).value);
    }
  }

  class DBImpl {
    const limits: Limits
    var mem: MemTable
    var imm: MemTable?
    var files: seq<seq<File>>
    var lastSequence: nat
    const snapshots: SnapshotList
    var nextFileNumber: nat
    ghost var st: State

    /** The fields stand for the state; no compaction is under way between calls. Every method
        takes the state by one or two steps of the machine, and those keep it well formed
        (StepKeepsWf) and faithful to the history (StepKeepsReads). */
    ghost predicate Shape()
      reads this, mem, imm, snapshots, snapshots.head, snapshots.chain
    {
      && MemoryHolds() && snapshots.Valid() && snapshots.Numbers() == st.snaps
      && lastSequence == st.lastSeq && st.pending.None?
      && Represents(files, st.levels) && NumbersUnique(st.levels, nextFileNumber) && st.nextFile <= nextFileNumber
    }

    ghost predicate MemoryHolds()
      reads this, mem, imm
    {
      && Sorted(mem.table) && Elems(mem.table) == st.mem
      && (imm == null <==> st.imm.None?)
      && (imm != null ==> imm != mem && Sorted(imm.table) && Elems(imm.table) == st.imm.value)
    }

    /** A new database. */
    constructor (limits: Limits)
      ensures Shape() && st == Empty() && fresh(mem) && fresh(snapshots) && fresh(snapshots.head)
    {
      this.limits := limits;
      mem := new MemTable();
      imm := null;
      files := seq(NUM_LEVELS, _ => []);
      lastSequence, nextFileNumber := 0, 2;
      snapshots := new SnapshotList();
      st := Empty();
      new;
      assert Represents(files, st.levels);
    }

    /** The newest value of the key at the snapshot, or at the last sequence number. */
    method Get(key: UserKey, snapshot: Option<nat>) returns (value: Option<UserValue>)
      requires Shape() && Wf(st) && Faithful(st) && (snapshot.Some? ==> st.floor <= snapshot.value)
      ensures value == Read(Elems(st.hist), key, if snapshot.Some? then snapshot.value else st.lastSeq)
    {
      var s := if snapshot.Some? then snapshot.value else lastSequence;
      LayeredIsFlat(st, key, s);
      VersionIsWf(st, files);
      StoreParts(st);
      assert Read(All(st), key, s) == Read(Elems(st.hist), key, s);
      var r := mem.Get(key, s);
      if r.Hit? {
        NewestIs(st.mem, key, s, r.e);
      } else if imm != null {
        r := imm.Get(key, s);
        if r.Hit? { NewestIs(ImmEntries(st), key, s, r.e); }
      }
      if r.Hit? {
        return if r.e.ikey.kind.Value? then Some(r.e.value) else None;
      }
      value := V.Get(files, key, s);
    }

    /** One write batch; `logged` is the outcome of appending to the log and syncing it. The numbers are
        taken either way. */
    method Write(updates: seq<Op>, logged: bool)
      requires Shape() && WfMemory(st) && lastSequence + |updates| < MAX_SEQUENCE_NUMBER
      modifies this`lastSequence, this`st, mem
      ensures Shape() && st == Apply(old(st), if logged then Store.Write(updates) else FailWrite(updates))
      ensures logged ==> TakesEffect(old(Elems(st.hist)), Elems(st.hist), updates, old(lastSequence) + 1)
      ensures !logged ==> st.hist == old(st.hist)
    {
      hide TakesEffect;
      MemBelow(st);
      HistoryTakesEffect(st, updates);
      if logged {
        mem.InsertInto(updates, lastSequence + 1);
      }
      lastSequence := lastSequence + |updates|;
      st := Apply(st, if logged then Store.Write(updates) else FailWrite(updates));
    }

    /** A write and then a read of the newest value: it is what the batch's last operation on the key has put, nothing if
        that deleted it, and what was read before if the batch names no such key or was not logged. */
    method WriteThenGet(updates: seq<Op>, logged: bool, key: UserKey) returns (value: Option<UserValue>)
      requires Shape() && Wf(st) && Faithful(st) && lastSequence + |updates| < MAX_SEQUENCE_NUMBER
      modifies this`lastSequence, this`st, mem
      ensures Shape() && st == Apply(old(st), if logged then Store.Write(updates) else FailWrite(updates))
      ensures forall i: nat :: logged && LastOn(updates, |updates|, key, i) ==>
                value == match updates[i] case PutOp(_, v) => Some(v) case DeleteOp(_) => None
      ensures !logged || (forall i :: 0 <= i < |updates| ==> updates[i].key != key) ==>
                value == Read(old(Elems(st.hist)), key, old(st.lastSeq))
    {
      hide Wf, Faithful, Apply;
      ghost var was := st;
      WriteKeepsAll(st, updates, logged);
      WfMemoryOf(st);
      Write(updates, logged);
      value := Get(key, None);
      WrittenIsRead(was, st, updates, logged, key);
    }

    /** The switch in MakeRoomForWrite, once the previous memtable is gone. */
    method SwitchMemTable()
      requires Shape() && imm == null
      modifies this`mem, this`imm, this`st
      ensures Shape() && st == Apply(old(st), Rotate)
    {
      imm := mem;
      mem := new MemTable();
      st := Apply(st, Rotate);
    }

    method GetSnapshot() returns (s: Snapshot)
      requires Shape() && WfSnapshots(st)
      modifies this`st, snapshots, snapshots.head, snapshots.chain
      ensures Shape() && st == Apply(old(st), TakeSnapshot) && s.sequenceNumber == lastSequence
      ensures snapshots.chain == old(snapshots.chain) + [s]
    {
      SnapshotsBelow(st, snapshots.chain);
      s := snapshots.New(lastSequence);
      st := Apply(st, TakeSnapshot);
    }

    method ReleaseSnapshot(s: Snapshot, ghost i: nat)
      requires Shape() && i < |snapshots.chain| && snapshots.chain[i] == s
      modifies this`st, snapshots, snapshots.head, snapshots.chain
      ensures Shape() && st == Apply(old(st), Store.ReleaseSnapshot(i))
    {
      snapshots.Delete(s, i);
      st := Apply(st, Store.ReleaseSnapshot(i));
    }

    /** VersionSet::LogAndApply: one builder over the current version. */
    method LogAndApply(edit: FileEdit)
      requires Represents(files, st.levels) && NumbersUnique(st.levels, nextFileNumber) && WfEdit(edit)
      requires forall i :: 0 <= i < |edit.added| ==> FreshFor(edit.added[i], st.levels)
      requires forall i, j :: 0 <= i < j < |edit.added| ==> edit.added[i].file.number != edit.added[j].file.number
      modifies this`files
      ensures Edited(files, st.levels, edit)
    {
      LevelNumbersDistinct(files, st.levels, nextFileNumber);
      var builder := new Builder(files);
      assert forall i :: 0 <= i < |edit.added| ==> FreshFor(edit.added[i], st.levels);
      builder.Apply(edit);
      files := builder.SaveTo();
    }

    /** Writes the immutable memtable as a table, as deep as PickLevelForMemTableOutput allows. */
    method CompactMemTable() returns (ghost file: Option<File>, level: nat)
      requires Shape() && Wf(st) && imm != null
      modifies this`imm, this`files, this`nextFileNumber, this`st
      ensures Enabled(old(st), Flush(file, level)) && ChosenStep(old(st), [], Flush(file, level), limits, [])
      ensures Shape() && st == Apply(old(st), Flush(file, level))
    {
      hide NumbersUnique, Wf, Edited, Apply, Enabled, FlushedLevels, FlushFileEdit, FreshFor, FlushChosen;
      var made, at := WriteLevel0Table(imm.table);
      file, level := made, at;
      FlushIsEnabled(st, imm.table, made, level);
      FlushIsFresh(st.levels, nextFileNumber, made, level);
      LogAndApply(FlushFileEdit(made, level));
      FlushedView(st.levels, files, nextFileNumber, made, level);
      FlushShape(st, made, level);
      nextFileNumber := nextFileNumber + 1;
      imm := null;
      st := Apply(st, Flush(file, level));
    }

    /** The table of a memtable and its level; none for an empty memtable. */
    method WriteLevel0Table(table: seq<Entry>) returns (file: Option<File>, level: nat)
      requires Represents(files, st.levels) && Wf(st) && Sorted(table)
      ensures file.None? <==> table == []
      ensures file.Some? ==> file.value.entries == table && file.value.number == nextFileNumber
      ensures level < NUM_LEVELS && (file.Some? ==> level == 0 || NoOverlapTo(st.levels, file.value, level))
      ensures file.Some? ==> FlushChosen(st.levels, file.value, level, limits)
    {
      file, level := None, 0;
      if table != [] {
        var f: File := TableFile(nextFileNumber, limits.sizeOf(table), table);
        level := PickLevel(f);
        file := Some(f);
      }
    }

    /** The level a new table may go to in the current version. */
    method PickLevel(f: File) returns (level: nat)
      requires Represents(files, st.levels) && Wf(st)
      ensures level < NUM_LEVELS && (level == 0 || NoOverlapTo(st.levels, f, level))
      ensures level == PickedLevel(files, TableRange(f), limits.MaxGrandParentOverlap())
    {
      LevelsSorted(files, st.levels);
      forall l, g | 0 < l < NUM_LEVELS && g in files[l] ensures Largest(g).seqno <= MAX_SEQUENCE_NUMBER {
        HistorySeqnosInRange(st, files, l, g);
      }
      level := PickLevelForMemTableOutput(files, Smallest(f).user, Largest(f).user, limits.MaxGrandParentOverlap());
      if level > 0 { ClearIsNoOverlap(files, st.levels, f, level); }
    }

    /** One compaction from its choice to its installed results: a trivial move of one file, or the
        compaction loop over all inputs. There may be nothing to do for a range a caller named. */
    method BackgroundCompaction(level: nat, trigger: Trigger) returns (moved: bool, c: Option<Plan>, outs: seq<File>)
      requires Shape() && Wf(st) && level + 1 < NUM_LEVELS && MayStart(files, level, trigger)
      modifies this`files, this`nextFileNumber, this`st
      ensures Shape() && c == ChosenPlan(old(files), level, trigger, limits)
      ensures c.None? ==> trigger.Manual? && st == old(st) && files == old(files)
      ensures c.Some? ==> c.value.level == level && Compacted(old(st), c.value, moved, outs, limits, st)
    {
      hide Wf, Enabled, Apply, Represents, NumbersUnique, ChosenPlan, WfPending, PlanChosen, Movable, MayStart,
        Moved, Merged, Shape;
      outs, moved := [], false;
      c := ChooseInputs(level, trigger);
      if c.None? {
        return;
      }
      moved := !trigger.Manual? && Movable(c.value, limits);
      if moved {
        MoveFile(c.value);
      } else {
        outs := DoCompaction(c.value);
      }
    }

    method ChooseInputs(level: nat, trigger: Trigger) returns (c: Option<Plan>)
      requires Shape() && Wf(st) && level + 1 < NUM_LEVELS && MayStart(files, level, trigger)
      ensures c == ChosenPlan(files, level, trigger, limits) && (c.None? ==> trigger.Manual?)
      ensures c.Some? ==>
                && c.value.level == level
                && PlanChosen(st.levels, c.value, !trigger.Manual? && Movable(c.value, limits), limits)
                && Enabled(st, StartCompaction(level, Files(c.value.in0), Files(c.value.in1)))
                && (Movable(c.value, limits) ==> WfPending(st.levels, Pending(level, {c.value.in0[0]}, {}, 0, {})))
    {
      hide Wf, ChosenPlan, PlanChosen, SelectedFrom, MayStart, WfPending, NumbersUnique;
      hide PlanOf, Extended, FirstInputs;
      LevelsReady(st, files, level);
      c := Choose(files, level, trigger, limits);
      if c.Some? {
        PlanIsPending(st, files, c.value);
        PlanIsChosen(files, st.levels, trigger, c.value, limits);
      }
    }

    method MoveFile(c: Plan)
      requires Shape() && c.level + 1 < NUM_LEVELS && Movable(c, limits)
      requires WfPending(st.levels, Pending(c.level, {c.in0[0]}, {}, 0, {}))
      modifies this`files, this`st
      ensures Shape() && Moved(old(st), c, st)
    {
      hide NumbersUnique;
      var level, f := c.level, c.in0[0];
      MoveIsFresh(st.levels, nextFileNumber, level, f);
      LogAndApply(FileEdit(InputDeletions(level, [f], []), OutputAdditions(level, [f])));
      assert Files([f]) == {f} && Files([]) == {};
      InstalledRepresented(st.levels, files, nextFileNumber, level, [f], [], [f]);
      MovedNumbers(st.levels, nextFileNumber, level, f);
      st := Apply(st, TrivialMove(level, f));
    }

    method DoCompaction(c: Plan) returns (outs: seq<File>)
      requires Shape() && Wf(st) && c.level + 1 < NUM_LEVELS
      requires Enabled(st, StartCompaction(c.level, Files(c.in0), Files(c.in1)))
      modifies this`files, this`nextFileNumber, this`st
      ensures Shape() && Merged(old(st), c, outs, limits, st)
    {
      hide Wf, Apply, Enabled, OutputsChosen;
      var smallest := OldestSnapshot();
      ghost var mid := Apply(st, StartCompaction(c.level, Files(c.in0), Files(c.in1)));
      outs := WriteOutputs(c, smallest, mid);
      NumbersRoom(st.levels, old(nextFileNumber), nextFileNumber);
      FinishShape(st, c, mid, outs, nextFileNumber);
      InstallResults(c, outs, Apply(mid, FinishCompaction(Files(outs))));
    }

    /** snapshots_.empty() ? LastSequence() : snapshots_.oldest() */
    method OldestSnapshot() returns (smallest: nat)
      requires Shape()
      ensures smallest == SmallestSnapshot(st)
    {
      var empty := snapshots.Empty();
      if empty {
        smallest := lastSequence;
      } else {
        var oldest := snapshots.Oldest();
        smallest := oldest.sequenceNumber;
      }
    }

    /** The compaction loop over the merged inputs, its outputs numbered as they are opened. */
    method WriteOutputs(c: Plan, smallest: nat, ghost mid: State) returns (outs: seq<File>)
      requires Shape() && Wf(st) && c.level + 1 < NUM_LEVELS && smallest == SmallestSnapshot(st)
      requires Enabled(st, StartCompaction(c.level, Files(c.in0), Files(c.in1)))
      requires mid == Apply(st, StartCompaction(c.level, Files(c.in0), Files(c.in1)))
      modifies this`nextFileNumber
      ensures Enabled(mid, FinishCompaction(Files(outs)))
      ensures OutputsChosen(mid.pending.value, Files(outs), c.grandparents, limits)
      ensures nextFileNumber >= old(nextFileNumber)
      ensures forall i :: 0 <= i < |outs| ==> old(nextFileNumber) <= outs[i].number < nextFileNumber
      ensures forall i, j :: 0 <= i < j < |outs| ==> outs[i].number != outs[j].number
    {
      hide Wf, Enabled, Apply, NumbersUnique, WfPending;
      StartShape(st, c, mid);
      ghost var p := mid.pending.value;
      InputsReady(st, p);
      VersionSorted(st, files);
      var merged := MergeInputs(Contents(Files(c.in0)) + Contents(Files(c.in1)));
      var compaction := new W.Compaction(c.level, files, c.grandparents, limits.MaxGrandParentOverlap());
      var outputs := W.DoCompactionWork(compaction, merged, smallest, limits.maxFileSize, limits.sizeOf);
      DeeperAgrees(files, st.levels, c.level);
      CutsAreTables(merged, smallest, p.deeper, outputs);
      outs := NameOutputs(outputs);
      OutputsEnabled(mid, merged, outputs, outs, old(nextFileNumber));
    }

    method NameOutputs(outputs: seq<seq<Entry>>) returns (outs: seq<File>)
      requires forall i :: 0 <= i < |outputs| ==> outputs[i] != [] && Sorted(outputs[i])
      modifies this`nextFileNumber
      ensures nextFileNumber == old(nextFileNumber) + |outputs| && |outs| == |outputs|
      ensures forall i :: 0 <= i < |outs| ==> outs[i].entries == outputs[i] && outs[i].number == old(nextFileNumber) + i
      ensures AreTables(outputs, Files(outs), limits.sizeOf)
    {
      outs := [];
      var i := 0;
      while i < |outputs|
        invariant 0 <= i == |outs| <= |outputs| && nextFileNumber == old(nextFileNumber) + i
        invariant forall j :: 0 <= j < i ==> outs[j].entries == outputs[j] && outs[j].number == old(nextFileNumber) + j
        invariant forall j :: 0 <= j < i ==> outs[j].size == limits.sizeOf(outs[j].entries)
      {
        outs := outs + [TableFile(nextFileNumber, limits.sizeOf(outputs[i]), outputs[i])];
        nextFileNumber := nextFileNumber + 1;
        i := i + 1;
      }
    }

    /** InstallCompactionResults. */
    method InstallResults(c: Plan, outs: seq<File>, ghost st': State)
      requires Shape() && c.level + 1 < NUM_LEVELS && Installs(st, c, outs, nextFileNumber, st')
      requires forall i :: 0 <= i < |outs| ==> outs[i].number < nextFileNumber
      requires forall i, j :: 0 <= i < j < |outs| ==> outs[i].number != outs[j].number
      modifies this`files, this`st
      ensures Shape() && st == st'
    {
      hide NumbersUnique, Edited, Installed;
      OutputsAreFresh(st.levels, c.level, outs);
      LogAndApply(FileEdit(InputDeletions(c.level, c.in0, c.in1), OutputAdditions(c.level, outs)));
      InstalledRepresented(st.levels, files, nextFileNumber, c.level, c.in0, c.in1, outs);
      InstalledNumbers(st.levels, Pending(c.level, Files(c.in0), Files(c.in1), 0, {}), outs, nextFileNumber);
      st := st';
    }
  }

  /** The next state differs by the installed results only. */
  ghost predicate Installs(st: State, c: Plan, outs: seq<File>, next: nat, st': State) {
    && c.level + 1 < |st.levels| == NUM_LEVELS
    && Files(c.in0) <= st.levels[c.level] && Files(c.in1) <= st.levels[c.level + 1]
    && (forall l, f, g :: 0 <= l < |st.levels| && g in st.levels[l] && f in Files(outs) ==> f.number != g.number)
    && st'.levels == Installed(st.levels, Pending(c.level, Files(c.in0), Files(c.in1), 0, {}), Files(outs))
    && st'.mem == st.mem && st'.imm == st.imm && st'.snaps == st.snaps && st'.lastSeq == st.lastSeq
    && st'.pending.None? && st'.nextFile <= next
  }

  lemma FinishShape(st: State, c: Plan, mid: State, outs: seq<File>, next: nat)
    requires Enabled(st, StartCompaction(c.level, Files(c.in0), Files(c.in1)))
    requires mid == Apply(st, StartCompaction(c.level, Files(c.in0), Files(c.in1)))
    requires Enabled(mid, FinishCompaction(Files(outs)))
    requires st.nextFile <= next && forall i :: 0 <= i < |outs| ==> outs[i].number < next
    ensures Installs(st, c, outs, next, Apply(mid, FinishCompaction(Files(outs))))
  {
    NumberPastBound(Files(outs), st.nextFile, next);
  }

  /** The merging iterator over the compaction inputs: all their entries in key order. */
  method MergeInputs(entries: set<Entry>) returns (merged: seq<Entry>)
    requires UniqueSeq(entries)
    ensures Sorted(merged) && Elems(merged) == entries
  {
    merged := [];
    var rest := entries;
    while rest != {}
      invariant rest <= entries && Sorted(merged) && Elems(merged) == entries - rest
      decreases rest
    {
      var e :| e in rest;
      forall d | d in merged ensures d.ikey != e.ikey {
        assert d in Elems(merged);
      }
      merged := Insertion(merged, e);
      rest := rest - {e};
    }
  }

  ghost predicate FreshFor(a: LevelFile, levels: seq<set<File>>) {
    a.level < |levels| && forall g :: g in levels[a.level] ==> g.number != a.file.number
  }

  lemma LevelNumbersDistinct(files: seq<seq<File>>, levels: seq<set<File>>, next: nat)
    requires Represents(files, levels) && NumbersUnique(levels, next)
    ensures forall l :: 0 <= l < NUM_LEVELS ==> DistinctNumbers(Files(files[l]))
  {
  }

  lemma MemBelow(st: State)
    requires WfMemory(st)
    ensures forall e :: e in st.mem ==> e.ikey.seqno < st.lastSeq + 1
  {
    HistorySplit(st.hist, st.memStart);
  }

  lemma SnapshotsBelow(st: State, chain: seq<Snapshot>)
    requires WfSnapshots(st) && NumbersOf(chain) == st.snaps
    ensures forall i :: 0 <= i < |chain| ==> chain[i].sequenceNumber <= st.lastSeq
  {
    forall i | 0 <= i < |chain| ensures chain[i].sequenceNumber <= st.lastSeq {
      assert st.snaps[i] == chain[i].sequenceNumber;
    }
  }

  // ---------- flushing ----------

  lemma ClearIsNoOverlap(files: seq<seq<File>>, levels: seq<set<File>>, f: File, level: nat)
    requires Represents(files, levels) && level < NUM_LEVELS
    requires ClearDownTo(files, level, Range(Some(Smallest(f).user), Some(Largest(f).user)))
    ensures NoOverlapTo(levels, f, level)
  {
    var r := Range(Some(Smallest(f).user), Some(Largest(f).user));
    forall l, g | 0 <= l <= level && l < |levels| && g in levels[l] ensures RangesDisjoint(f, g) {
      assert g in Files(files[l]) && !AnyOverlap(files[l], r);
      assert !Overlaps(g, r);
    }
  }

  lemma FlushIsEnabled(st: State, table: seq<Entry>, file: Option<File>, level: nat)
    requires st.imm.Some? && Elems(table) == st.imm.value && st.pending.None? && level < |st.levels|
    requires file.None? <==> table == []
    requires file.Some? ==> file.value.entries == table && file.value.number >= st.nextFile
    requires file.Some? ==> level == 0 || NoOverlapTo(st.levels, file.value, level)
    ensures Enabled(st, Flush(file, level))
  {
    if table != [] { assert table[0] in Elems(table); }
  }

  lemma FlushShape(st: State, file: Option<File>, level: nat)
    requires Enabled(st, Flush(file, level)) && level < |st.levels| && st.pending.None?
    ensures var st' := Apply(st, Flush(file, level));
            && st'.levels == FlushedLevels(st.levels, file, level) && st'.mem == st.mem && st'.imm.None?
            && st'.snaps == st.snaps && st'.lastSeq == st.lastSeq && st'.pending.None?
            && st'.nextFile == if file.Some? then file.value.number + 1 else st.nextFile
  {
  }

  lemma FlushIsFresh(levels: seq<set<File>>, next: nat, file: Option<File>, level: nat)
    requires NumbersUnique(levels, next) && level < |levels| == NUM_LEVELS && (file.Some? ==> file.value.number == next)
    ensures var added := FlushFileEdit(file, level).added;
            && WfEdit(FlushFileEdit(file, level))
            && |added| <= 1 && (forall i :: 0 <= i < |added| ==> FreshFor(added[i], levels))
  {
  }

  lemma NumbersRoom(levels: seq<set<File>>, next: nat, next': nat)
    requires NumbersUnique(levels, next) && next <= next'
    ensures NumbersUnique(levels, next')
  {
  }

  function FlushFileEdit(file: Option<File>, level: nat): FileEdit {
    if file.Some? then FileEdit([], [LevelFile(level, file.value)]) else FileEdit([], [])
  }

  function FlushedLevels(levels: seq<set<File>>, file: Option<File>, level: nat): seq<set<File>>
    requires level < |levels|
  {
    if file.Some? then levels[level := levels[level] + {file.value}] else levels
  }

  lemma FlushedLevel(levels: seq<set<File>>, file: Option<File>, level: nat, l: nat)
    requires level < |levels| && l < |levels|
    ensures EditLevel(levels[l], FlushFileEdit(file, level), l) == FlushedLevels(levels, file, level)[l]
  {
    if file.Some? {
      FlushEdit(levels, file.value, level, l);
    } else {
      assert EditLevel(levels[l], FileEdit([], []), l) == levels[l];
    }
  }

  lemma FlushedView(levels: seq<set<File>>, files: seq<seq<File>>, number: nat, file: Option<File>, level: nat)
    requires NumbersUnique(levels, number) && |levels| == NUM_LEVELS && level < NUM_LEVELS
    requires file.Some? ==> file.value.number == number
    requires Edited(files, levels, FlushFileEdit(file, level))
    ensures Represents(files, FlushedLevels(levels, file, level))
    ensures NumbersUnique(FlushedLevels(levels, file, level), number + 1)
  {
    forall l | 0 <= l < NUM_LEVELS ensures Files(files[l]) == FlushedLevels(levels, file, level)[l] {
      FlushedLevel(levels, file, level, l);
    }
    NumbersRoom(levels, number, number + 1);
    if file.Some? { AddedNumbers(levels, level, {file.value}, number + 1); }
  }

  /** New files with numbers of their own may join a level. */
  lemma AddedNumbers(levels: seq<set<File>>, level: nat, more: set<File>, next: nat)
    requires level < |levels| && NumbersUnique(levels, next) && NumberedBelow(more, next)
    requires forall l :: 0 <= l < |levels| ==> Numbers(more) !! Numbers(levels[l])
    ensures NumbersUnique(levels[level := levels[level] + more], next)
  {
    var levels' := levels[level := levels[level] + more];
    NumbersOfUnion(levels[level], more);
    forall f: File, g: File | f in levels'[level] && g in levels'[level] && f.number == g.number ensures f == g {
      assert f.number in Numbers(levels[level]) || f.number in Numbers(more);
    }
  }

  /** Files may leave a level. */
  lemma RemovedNumbers(levels: seq<set<File>>, level: nat, gone: set<File>, next: nat, levels': seq<set<File>>)
    requires level < |levels| && NumbersUnique(levels, next) && gone <= levels[level]
    requires levels' == levels[level := levels[level] - gone]
    ensures NumbersUnique(levels', next)
    ensures forall l :: 0 <= l < |levels'| ==> Numbers(gone) !! Numbers(levels'[l])
  {
    NumbersOfPart(levels[level] - gone, levels[level]);
    NumbersOfPart(gone, levels[level]);
  }

  /** The files are the levels after the edit. */
  ghost predicate Edited(files: seq<seq<File>>, levels: seq<set<File>>, edit: FileEdit) {
    && |files| == |levels| == NUM_LEVELS
    && forall l :: 0 <= l < NUM_LEVELS ==> VersionBuilder.InOrder(files[l]) && Files(files[l]) == EditLevel(levels[l], edit, l)
  }

  // ---------- compacting ----------

  lemma LevelsReady(st: State, files: seq<seq<File>>, level: nat)
    requires Wf(st) && Represents(files, st.levels) && level + 1 < NUM_LEVELS
    ensures WfLevels(level, files[level], files[level + 1])
  {
    LevelsSorted(files, st.levels);
    StoreParts(st);
    forall e | e in Contents(Files(files[level])) ensures e in FileEntries(st.levels) {
      var f :| f in Files(files[level]) && e in f.entries;
      assert f in st.levels[level];
    }
  }

  lemma PlanIsPending(st: State, files: seq<seq<File>>, c: Plan)
    requires Represents(files, st.levels) && c.level + 1 < NUM_LEVELS
    requires SelectedFrom(files[c.level], files[c.level + 1], c.in0, c.in1)
    ensures WfPending(st.levels, Pending(c.level, Files(c.in0), Files(c.in1), SmallestSnapshot(st), {}))
    ensures |c.in0| == 1 && c.in1 == [] ==> WfPending(st.levels, Pending(c.level, {c.in0[0]}, {}, 0, {}))
  {
    if |c.in0| == 1 && c.in1 == [] {
      assert Files(c.in0) == {c.in0[0]} && Files(c.in1) == {};
    }
  }

  lemma StartShape(st: State, c: Plan, mid: State)
    requires Enabled(st, StartCompaction(c.level, Files(c.in0), Files(c.in1)))
    requires mid == Apply(st, StartCompaction(c.level, Files(c.in0), Files(c.in1)))
    ensures mid.levels == st.levels && mid.pending.Some? && WfPending(st.levels, mid.pending.value)
    ensures mid.pending.value ==
            Pending(c.level, Files(c.in0), Files(c.in1), SmallestSnapshot(st), Deeper(st.levels, c.level))
  {
  }

  lemma VersionSorted(st: State, files: seq<seq<File>>)
    requires Wf(st) && Represents(files, st.levels)
    ensures forall l :: 0 < l < NUM_LEVELS ==> LevelSorted(files[l])
  {
    LevelsSorted(files, st.levels);
  }

  lemma InputsReady(st: State, p: Pending)
    requires Wf(st) && WfPending(st.levels, p)
    ensures UniqueSeq(Inputs(p)) && SmallestSnapshot(st) < MAX_SEQUENCE_NUMBER
  {
    StoreParts(st);
    forall e | e in Inputs(p) ensures e in Elems(st.hist) {
      InputWritten(st, p, e);
      HistorySplit(st.hist, st.flushed);
    }
  }

  lemma CutsAreTables(merged: seq<Entry>, smallest: nat, deeper: set<File>, outputs: seq<seq<Entry>>)
    requires Sorted(merged) && UniqueSeq(Elems(merged)) && AllNonempty(outputs)
    requires Concat(outputs) == Kept(merged, |merged|, smallest, deeper)
    ensures forall i :: 0 <= i < |outputs| ==> outputs[i] != [] && Sorted(outputs[i])
  {
    OutputsAreSurvivors(merged, smallest, deeper, outputs);
  }

  lemma DeeperAgrees(files: seq<seq<File>>, levels: seq<set<File>>, level: nat)
    requires Represents(files, levels)
    ensures W.DeeperFiles(files, level) == Deeper(levels, level)
  {
    forall f | f in W.DeeperFiles(files, level) ensures f in Deeper(levels, level) {
      var l :| level + 2 <= l < |files| && f in files[l];
      assert f in Files(files[l]) && f in levels[l];
    }
    forall f | f in Deeper(levels, level) ensures f in W.DeeperFiles(files, level) {
      var l :| level + 2 <= l < |levels| && f in levels[l];
      assert f in Files(files[l]);
    }
  }

  /** Numbered past every table so far, the tables cut may be installed. */
  lemma OutputsEnabled(mid: State, merged: seq<Entry>, outputs: seq<seq<Entry>>, outs: seq<File>, next: nat)
    requires mid.pending.Some? && mid.pending.value.level + 1 < |mid.levels| && NumbersUnique(mid.levels, next)
    requires Sorted(merged) && UniqueSeq(Elems(merged)) && AllNonempty(outputs) && Elems(merged) == Inputs(mid.pending.value)
    requires Concat(outputs) == Kept(merged, |merged|, mid.pending.value.smallest, mid.pending.value.deeper)
    requires |outs| == |outputs| && forall i :: 0 <= i < |outs| ==> outs[i].entries == outputs[i] && outs[i].number >= next
    ensures Enabled(mid, FinishCompaction(Files(outs)))
  {
    hide Survivors, Sorted, UniqueSeq, Concat, AllNonempty, Kept, Contents, LevelDisjoint;
    OutputFilesFit(merged, mid.pending.value.smallest, mid.pending.value.deeper, outputs, outs);
    forall l, f, g | 0 <= l < |mid.levels| && g in mid.levels[l] && f in Files(outs) ensures f.number != g.number {
      assert f in outs;
    }
  }

  lemma OutputsAreFresh(levels: seq<set<File>>, level: nat, outs: seq<File>)
    requires |levels| == NUM_LEVELS && level + 1 < NUM_LEVELS
    requires forall l, f, g :: 0 <= l < |levels| && g in levels[l] && f in Files(outs) ==> f.number != g.number
    ensures forall i :: 0 <= i < |outs| ==> FreshFor(OutputAdditions(level, outs)[i], levels)
  {
    forall i | 0 <= i < |outs| ensures FreshFor(OutputAdditions(level, outs)[i], levels) {
      assert outs[i] in Files(outs);
    }
  }

  lemma MoveIsFresh(levels: seq<set<File>>, next: nat, level: nat, f: File)
    requires |levels| == NUM_LEVELS && NumbersUnique(levels, next) && level + 1 < NUM_LEVELS && f in levels[level]
    ensures FreshFor(OutputAdditions(level, [f])[0], levels)
  {
    assert f.number in Numbers(levels[level]);
    forall g | g in levels[level + 1] ensures g.number != f.number {
      assert g.number in Numbers(levels[level + 1]);
    }
  }

  lemma InstalledRepresented(levels: seq<set<File>>, files: seq<seq<File>>, next: nat, level: nat, in0: seq<File>, in1: seq<File>, outs: seq<File>)
    requires |levels| == NUM_LEVELS && level + 1 < NUM_LEVELS && NumbersUnique(levels, next)
    requires Files(in0) <= levels[level] && Files(in1) <= levels[level + 1]
    requires Edited(files, levels, FileEdit(InputDeletions(level, in0, in1), OutputAdditions(level, outs)))
    ensures Represents(files, Installed(levels, Pending(level, Files(in0), Files(in1), 0, {}), Files(outs)))
  {
    forall l | 0 <= l < NUM_LEVELS
      ensures Files(files[l]) == Installed(levels, Pending(level, Files(in0), Files(in1), 0, {}), Files(outs))[l]
    {
      InstallEdit(levels, next, level, in0, in1, outs, l);
    }
  }

  lemma MovedNumbers(levels: seq<set<File>>, next: nat, level: nat, f: File)
    requires level + 1 < |levels| && NumbersUnique(levels, next) && f in levels[level]
    ensures NumbersUnique(Installed(levels, Pending(level, {f}, {}, 0, {}), {f}), next)
  {
    var without := levels[level := levels[level] - {f}];
    RemovedNumbers(levels, level, {f}, next, without);
    assert levels[level + 1] - {} == levels[level + 1];
    AddedNumbers(without, level + 1, {f}, next);
    assert Installed(levels, Pending(level, {f}, {}, 0, {}), {f}) == without[level + 1 := without[level + 1] + {f}];
  }

  lemma InstalledNumbers(levels: seq<set<File>>, p: Pending, outs: seq<File>, next: nat)
    requires p.level + 1 < |levels| && NumbersUnique(levels, next)
    requires p.in0 <= levels[p.level] && p.in1 <= levels[p.level + 1]
    requires forall i :: 0 <= i < |outs| ==> outs[i].number < next
    requires forall i, j :: 0 <= i < j < |outs| ==> outs[i].number != outs[j].number
    requires forall l, f, g :: 0 <= l < |levels| && g in levels[l] && f in Files(outs) ==> f.number != g.number
    ensures NumbersUnique(Installed(levels, p, Files(outs)), next)
  {
    hide NumbersUnique;
    var without0 := levels[p.level := levels[p.level] - p.in0];
    RemovedNumbers(levels, p.level, p.in0, next, without0);
    var without := without0[p.level + 1 := without0[p.level + 1] - p.in1];
    RemovedNumbers(without0, p.level + 1, p.in1, next, without);
    forall f, g | f in Files(outs) && g in Files(outs) && f.number == g.number ensures f == g {
      OutputsDiffer(outs, f, g);
    }
    forall l | 0 <= l < |without| ensures Numbers(Files(outs)) !! Numbers(without[l]) {
      NumbersOfPart(without[l], levels[l]);
    }
    AddedNumbers(without, p.level + 1, Files(outs), next);
    assert Installed(levels, p, Files(outs)) == without[p.level + 1 := without[p.level + 1] + Files(outs)];
  }

  lemma OutputsDiffer(outs: seq<File>, f: File, g: File)
    requires forall i, j :: 0 <= i < j < |outs| ==> outs[i].number != outs[j].number
    requires f in outs && g in outs && f.number == g.number
    ensures f == g
  {
    var i :| 0 <= i < |outs| && outs[i] == f;
    var j :| 0 <= j < |outs| && outs[j] == g;
    assert i == j;
  }
}
