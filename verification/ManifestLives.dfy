/** The manifest over the life of a database: every change of the levels is journalled, and what a crash
    leaves of the bytes gives the levels back (db/version_set.cc, LogAndApply and Recover). */
module ManifestLives {
  import opened InternalKeys
  import opened FlatSpec
  import opened Versions
  import opened CompactionRules
  import opened CompactionInputs
  import opened MemTables
  import opened Store
  import opened StoreInvariants
  import opened SnapshotIsolation
  import opened Durability
  import opened CrashRecovery
  import opened CrashLives
  import opened LogFormat
  import opened LogReader
  import opened VersionBuilder
  import opened Manifests
  import opened ManifestReuse
  import E = VersionEditFields

  // ---------- a journal and the levels it stands for ----------

  function AddedNumbers(cs: seq<FileEdit>): set<nat> {
    set i, j | 0 <= i < |cs| && 0 <= j < |cs[i].added| :: cs[i].added[j].file.number
  }

  /** The edits come to the levels; a number stands for one file at one level, and has not been added to
      any level below it. */
  ghost predicate Tracked(cs: seq<FileEdit>, levels: seq<set<File>>) {
    && |levels| == NUM_LEVELS && NeverAddedTwice(NoLevels(), cs)
    && (forall l :: 0 <= l < NUM_LEVELS ==> EditAll({}, cs, l) == levels[l])
    && OneNumber(levels) && NotBelow(cs, levels)
    && (forall l, f :: 0 <= l < NUM_LEVELS && f in levels[l] ==> f.number in AddedNumbers(cs))
  }

  ghost predicate OneNumber(levels: seq<set<File>>) {
    forall l, m, f, g :: 0 <= l < |levels| && 0 <= m < |levels| && f in levels[l] && g in levels[m] && f.number == g.number ==>
      l == m && f == g
  }

  ghost predicate NotBelow(cs: seq<FileEdit>, levels: seq<set<File>>) {
    forall l, m, f :: 0 <= l < m < NUM_LEVELS && l < |levels| && f in levels[l] ==> f.number !in Numbers(MetAt({}, cs, m))
  }

  /** What is taken from and put into each level. */
  datatype Move = Move(taken: set<nat>, put: set<File>)

  ghost predicate Does(fe: FileEdit, moves: seq<Move>) {
    && |moves| == NUM_LEVELS && WfEdit(fe)
    && forall l :: 0 <= l < NUM_LEVELS ==> DeletedAt(fe.deleted, l) == moves[l].taken && AddedAt(fe.added, l) == moves[l].put
  }

  function Moved(levels: seq<set<File>>, moves: seq<Move>): (r: seq<set<File>>)
    requires |levels| == |moves|
    ensures |r| == |levels|
  {
    seq(|levels|, l requires 0 <= l < |levels| => (set f | f in levels[l] && f.number !in moves[l].taken) + moves[l].put)
  }

  lemma EditAllSnoc(cs: seq<FileEdit>, fe: FileEdit, l: nat)
    ensures EditAll({}, cs + [fe], l) == EditLevel(EditAll({}, cs, l), fe, l)
    ensures MetAt({}, cs + [fe], l) == MetAt({}, cs, l) + AddedAt(fe.added, l)
    ensures AddedNumbers(cs + [fe]) == AddedNumbers(cs) + (set j | 0 <= j < |fe.added| :: fe.added[j].file.number)
  {
    assert (cs + [fe])[..|cs|] == cs;
    var all, some := AddedNumbers(cs + [fe]), AddedNumbers(cs) + (set j | 0 <= j < |fe.added| :: fe.added[j].file.number);
    forall n | n in some ensures n in all {
      if n in AddedNumbers(cs) {
        var i, j :| 0 <= i < |cs| && 0 <= j < |cs[i].added| && cs[i].added[j].file.number == n;
        assert (cs + [fe])[i] == cs[i];
      } else {
        var j :| 0 <= j < |fe.added| && fe.added[j].file.number == n;
        assert (cs + [fe])[|cs|] == fe;
      }
    }
  }

  lemma {:induction false} MetIsAdded(cs: seq<FileEdit>, l: nat)
    ensures Numbers(MetAt({}, cs, l)) <= AddedNumbers(cs)
  {
    if cs != [] {
      var front, fe := cs[..|cs|-1], cs[|cs|-1];
      MetIsAdded(front, l);
      assert cs == front + [fe];
      EditAllSnoc(front, fe, l);
      forall f | f in AddedAt(fe.added, l) ensures f.number in (set j | 0 <= j < |fe.added| :: fe.added[j].file.number) {
        var a :| a in fe.added && a.level == l && a.file == f;
        var j :| 0 <= j < |fe.added| && fe.added[j] == a;
      }
    }
  }

  /** The additions of an edit, one by one and none of them met at its level. */
  ghost predicate AddsOnce(fe: FileEdit) {
    forall i, j :: 0 <= i < j < |fe.added| && fe.added[i].level == fe.added[j].level ==>
      fe.added[i].file.number != fe.added[j].file.number
  }

  lemma StaysNeverTwice(cs: seq<FileEdit>, fe: FileEdit)
    requires NeverAddedTwice(NoLevels(), cs) && WfEdit(fe) && AddsOnce(fe)
    requires forall i :: 0 <= i < |fe.added| ==> fe.added[i].file.number !in Numbers(MetAt({}, cs, fe.added[i].level))
    ensures NeverAddedTwice(NoLevels(), cs + [fe])
  {
    var all := cs + [fe];
    forall i | 0 <= i < |all| ensures WfEdit(all[i]) && FreshAdds(MetBy(NoLevels(), all[..i]), all[i].added) {
      if i < |cs| {
        assert all[..i] == cs[..i] && all[i] == cs[i];
      } else {
        assert all[..i] == cs && all[i] == fe;
      }
    }
  }

  /** No number is put in twice. */
  ghost predicate PutOnce(moves: seq<Move>) {
    forall l, m, f, g ::
      0 <= l < |moves| && 0 <= m < |moves| && f in moves[l].put && g in moves[m].put && f.number == g.number ==>
        l == m && f == g
  }

  /** An edit that puts in only files with numbers never used before. */
  lemma NewFilesTracked(cs: seq<FileEdit>, levels: seq<set<File>>, fe: FileEdit, moves: seq<Move>)
    requires Tracked(cs, levels) && Does(fe, moves) && AddsOnce(fe)
    requires forall i :: 0 <= i < |fe.added| ==> fe.added[i].file.number !in AddedNumbers(cs)
    requires PutOnce(moves)
    ensures Tracked(cs + [fe], Moved(levels, moves))
  {
    hide EditAll, MetAt, NeverAddedTwice, AddedNumbers, OneNumber, NotBelow, Moved;
    forall i | 0 <= i < |fe.added| ensures fe.added[i].file.number !in Numbers(MetAt({}, cs, fe.added[i].level)) {
      MetIsAdded(cs, fe.added[i].level);
    }
    StaysNeverTwice(cs, fe);
    PutIsAdded(fe, moves);
    var levels' := Moved(levels, moves);
    forall l | 0 <= l < NUM_LEVELS ensures EditAll({}, cs + [fe], l) == levels'[l] {
      EditAllSnoc(cs, fe, l);
      MovedAt(levels, moves, l);
    }
    EditAllSnoc(cs, fe, 0);
    forall l, f: File | 0 <= l < NUM_LEVELS && f in levels'[l] ensures f in levels[l] || f in moves[l].put {
      MovedAt(levels, moves, l);
    }
    NewAreOne(cs, levels, moves, levels');
    NewNotBelow(cs, levels, fe, moves, levels');
  }

  lemma MovedAt(levels: seq<set<File>>, moves: seq<Move>, l: nat)
    requires |levels| == |moves| && l < |levels|
    ensures Moved(levels, moves)[l] == (set f | f in levels[l] && f.number !in moves[l].taken) + moves[l].put
  {
  }

  lemma NewAreOne(cs: seq<FileEdit>, levels: seq<set<File>>, moves: seq<Move>, levels': seq<set<File>>)
    requires |levels| == |moves| == |levels'| == NUM_LEVELS && OneNumber(levels)
    requires forall l, f :: 0 <= l < NUM_LEVELS && f in levels[l] ==> f.number in AddedNumbers(cs)
    requires forall l, f :: 0 <= l < NUM_LEVELS && f in moves[l].put ==> f.number !in AddedNumbers(cs)
    requires PutOnce(moves)
    requires forall l, f: File :: 0 <= l < NUM_LEVELS && f in levels'[l] ==> f in levels[l] || f in moves[l].put
    ensures OneNumber(levels')
  {
    hide AddedNumbers;
  }

  lemma NewNotBelow(cs: seq<FileEdit>, levels: seq<set<File>>, fe: FileEdit, moves: seq<Move>, levels': seq<set<File>>)
    requires Does(fe, moves) && |levels| == |levels'| == NUM_LEVELS && NotBelow(cs, levels)
    requires forall l, f :: 0 <= l < NUM_LEVELS && f in levels[l] ==> f.number in AddedNumbers(cs)
    requires forall l, f :: 0 <= l < NUM_LEVELS && f in moves[l].put ==> f.number !in AddedNumbers(cs)
    requires PutOnce(moves)
    requires forall l, f: File :: 0 <= l < NUM_LEVELS && f in levels'[l] ==> f in levels[l] || f in moves[l].put
    ensures NotBelow(cs + [fe], levels')
  {
    hide MetAt, AddedNumbers;
    forall l, m, f: File | 0 <= l < m < NUM_LEVELS && f in levels'[l] ensures f.number !in Numbers(MetAt({}, cs + [fe], m)) {
      EditAllSnoc(cs, fe, m);
      MetIsAdded(cs, m);
    }
  }

  lemma PutIsAdded(fe: FileEdit, moves: seq<Move>)
    requires Does(fe, moves)
    ensures forall l, f :: 0 <= l < NUM_LEVELS && f in moves[l].put ==>
              exists j :: 0 <= j < |fe.added| && fe.added[j].level == l && fe.added[j].file == f
  {
    forall l, f | 0 <= l < NUM_LEVELS && f in moves[l].put
      ensures exists j :: 0 <= j < |fe.added| && fe.added[j].level == l && fe.added[j].file == f
    {
      assert f in AddedAt(fe.added, l);
      var a :| a in fe.added && a.level == l && a.file == f;
    }
  }

  /** An edit that moves one file a level down. */
  lemma MoveTracked(cs: seq<FileEdit>, levels: seq<set<File>>, fe: FileEdit, moves: seq<Move>, from: nat, f: File)
    requires Tracked(cs, levels) && Does(fe, moves) && AddsOnce(fe) && from + 1 < NUM_LEVELS && f in levels[from]
    requires forall l :: 0 <= l < NUM_LEVELS ==>
               moves[l] == Move(if l == from then {f.number} else {}, if l == from + 1 then {f} else {})
    ensures Tracked(cs + [fe], Moved(levels, moves))
  {
    hide EditAll, MetAt, NeverAddedTwice, AddedNumbers, OneNumber, NotBelow;
    assert f.number !in Numbers(MetAt({}, cs, from + 1)) by { NotMetBelow(cs, levels, from, f); }
    forall i | 0 <= i < |fe.added| ensures fe.added[i].file == f && fe.added[i].level == from + 1 {
      assert fe.added[i] in fe.added && fe.added[i].file in AddedAt(fe.added, fe.added[i].level);
    }
    StaysNeverTwice(cs, fe);
    forall l | 0 <= l < NUM_LEVELS ensures EditAll({}, cs + [fe], l) == Moved(levels, moves)[l] {
      EditAllSnoc(cs, fe, l);
    }
    EditAllSnoc(cs, fe, 0);
    MovedDown(levels, moves, from, f);
    MovedNotBelow(cs, levels, fe, moves, from, f);
  }

  lemma NotMetBelow(cs: seq<FileEdit>, levels: seq<set<File>>, l: nat, f: File)
    requires NotBelow(cs, levels) && |levels| == NUM_LEVELS && l + 1 < NUM_LEVELS && f in levels[l]
    ensures f.number !in Numbers(MetAt({}, cs, l + 1))
  {
  }

  /** Which files are where afterwards. */
  lemma MovedDown(levels: seq<set<File>>, moves: seq<Move>, from: nat, f: File)
    requires |levels| == |moves| == NUM_LEVELS && OneNumber(levels) && from + 1 < NUM_LEVELS && f in levels[from]
    requires forall l :: 0 <= l < NUM_LEVELS ==>
               moves[l] == Move(if l == from then {f.number} else {}, if l == from + 1 then {f} else {})
    ensures OneNumber(Moved(levels, moves))
    ensures forall l, g: File :: 0 <= l < NUM_LEVELS && g in Moved(levels, moves)[l] ==>
              (l == from + 1 && g == f) || (g in levels[l] && g.number != f.number)
  {
    hide Moved;
    var levels' := Moved(levels, moves);
    forall l, g: File | 0 <= l < NUM_LEVELS && g in levels'[l]
      ensures (l == from + 1 && g == f) || (g in levels[l] && g.number != f.number)
    {
      MovedAt(levels, moves, l);
    }
  }

  lemma MovedNotBelow(cs: seq<FileEdit>, levels: seq<set<File>>, fe: FileEdit, moves: seq<Move>, from: nat, f: File)
    requires Does(fe, moves) && |levels| == NUM_LEVELS && NotBelow(cs, levels) && from + 1 < NUM_LEVELS && f in levels[from]
    requires forall l :: 0 <= l < NUM_LEVELS ==> moves[l].put == if l == from + 1 then {f} else {}
    requires forall l, g: File :: 0 <= l < NUM_LEVELS && g in Moved(levels, moves)[l] ==>
               (l == from + 1 && g == f) || (g in levels[l] && g.number != f.number)
    ensures NotBelow(cs + [fe], Moved(levels, moves))
  {
    hide Moved, MetAt;
    forall l, m, g: File | 0 <= l < m < NUM_LEVELS && g in Moved(levels, moves)[l]
      ensures g.number !in Numbers(MetAt({}, cs + [fe], m))
    {
      EditAllSnoc(cs, fe, m);
      if g == f {
        assert f in levels[from] && from < m;
      }
    }
  }

  // ---------- the edits of a life ----------

  /** The manifest's edits come to what the disk says. */
  ghost predicate Describes(n: Naming, edits: seq<E.Edit>, d: Disk) {
    && (forall i :: 0 <= i < |edits| ==> Written(n, edits[i]))
    && Tracked(Changes(n, edits), d.levels)
    && (forall k :: k in AddedNumbers(Changes(n, edits)) ==> k < d.nextFile)
    && Counted(edits) == Counters(Some(d.logNumber), Some(d.nextFile), Some(d.lastSeq))
  }

  predicate InManifest(step: DiskStep) {
    step.Inner? && (step.step.Flush? || step.step.FinishCompaction? || step.step.TrivialMove?)
  }

  ghost function Takes(r: Running, s: Step, l: nat): set<nat> {
    match s
    case FinishCompaction(_) =>
      if r.st.pending.None? then {}
      else
        var p := r.st.pending.value;
        if l == p.level then Numbers(p.in0) else if l == p.level + 1 then Numbers(p.in1) else {}
    case TrivialMove(from, moved) => if l == from then {moved.number} else {}
    case _ => {}
  }

  ghost function Puts(r: Running, s: Step, l: nat): set<File> {
    match s
    case Flush(file, level) => if file.Some? && l == level then {file.value} else {}
    case FinishCompaction(outs) => if r.st.pending.Some? && l == r.st.pending.value.level + 1 then outs else {}
    case TrivialMove(from, moved) => if l == from + 1 then {moved} else {}
    case _ => {}
  }

  ghost function StepMoves(r: Running, s: Step): seq<Move> {
    seq(NUM_LEVELS, l requires 0 <= l < NUM_LEVELS => Move(Takes(r, s, l), Puts(r, s, l)))
  }

  /** NewFileNumber has never handed the numbers out before. */
  ghost predicate NewNumbers(used: set<nat>, s: Step) {
    match s
    case Flush(file, _) => file.Some? ==> file.value.number !in used
    case FinishCompaction(outs) => DistinctNumbers(outs) && forall f :: f in outs ==> f.number !in used
    case _ => true
  }

  /** An edit with the counters of the disk it leads to. */
  ghost predicate Journals(n: Naming, e: E.Edit, moves: seq<Move>, d: Disk) {
    && Written(n, e) && Does(Change(n, e), moves) && AddsOnce(Change(n, e))
    && e.logNumber == Some(d.logNumber) && e.nextFileNumber == Some(d.nextFile) && e.lastSequence == Some(d.lastSeq)
  }

  lemma ChangesSnoc(n: Naming, edits: seq<E.Edit>, e: E.Edit)
    requires Named(n, e) && forall i :: 0 <= i < |edits| ==> Named(n, edits[i])
    ensures Changes(n, edits + [e]) == Changes(n, edits) + [Change(n, e)]
  {
  }

  lemma CountersOf(edits: seq<E.Edit>, e: E.Edit, d: Disk)
    requires e.logNumber == Some(d.logNumber) && e.nextFileNumber == Some(d.nextFile) && e.lastSequence == Some(d.lastSeq)
    ensures Counted(edits + [e]) == Counters(Some(d.logNumber), Some(d.nextFile), Some(d.lastSeq))
  {
    assert (edits + [e])[..|edits|] == edits;
  }

  /** The levels after a step are the levels with the edit's files taken and put. */
  lemma StepMovesLevels(r: Running, s: Step)
    requires Wf(r.st) && OneNumber(r.st.levels) && Enabled(r.st, s) && (s.Flush? || s.FinishCompaction? || s.TrivialMove?)
    ensures Moved(r.st.levels, StepMoves(r, s)) == Apply(r.st, s).levels
  {
    hide Wf, Apply, Enabled;
    LevelCounts(r.st, s);
    var moves, levels' := StepMoves(r, s), Apply(r.st, s).levels;
    forall l | 0 <= l < NUM_LEVELS ensures Moved(r.st.levels, moves)[l] == levels'[l] {
      match s
      case FinishCompaction(outs) => FinishMoves(r, outs, l);
      case TrivialMove(from, moved) => TrivialMoves(r, from, moved, l);
      case Flush(file, level) => FlushMoves(r, file, level, l);
    }
  }

  lemma LevelCounts(st: State, s: Step)
    requires Wf(st) && Enabled(st, s) && (s.Flush? || s.FinishCompaction? || s.TrivialMove?)
    ensures |st.levels| == |Apply(st, s).levels| == NUM_LEVELS
  {
    hide WfMemory, WfSnapshots, FilesFrom, Survivors, NumberPast;
  }

  lemma FlushMoves(r: Running, file: Option<File>, level: nat, l: nat)
    requires Enabled(r.st, Flush(file, level)) && |r.st.levels| == NUM_LEVELS && l < NUM_LEVELS
    ensures Moved(r.st.levels, StepMoves(r, Flush(file, level)))[l] == Apply(r.st, Flush(file, level)).levels[l]
  {
    hide NoOverlapTo, WithArrival;
    NothingTaken(r.st.levels[l]);
  }

  lemma NothingTaken(fs: set<File>)
    ensures (set f | f in fs && f.number !in {}) == fs && fs + {} == fs
  {
  }

  lemma FinishMoves(r: Running, outs: set<File>, l: nat)
    requires Wf(r.st) && OneNumber(r.st.levels) && Enabled(r.st, FinishCompaction(outs)) && |r.st.levels| == NUM_LEVELS
    requires l < NUM_LEVELS
    ensures Moved(r.st.levels, StepMoves(r, FinishCompaction(outs)))[l] == Apply(r.st, FinishCompaction(outs)).levels[l]
  {
    hide Wf, Survivors, NumberPast, LevelDisjoint, OneNumber;
    var p := r.st.pending.value;
    InputsThere(r.st);
    TakenIs(r.st.levels, p.level, p.in0);
    TakenIs(r.st.levels, p.level + 1, p.in1);
    NothingTaken(r.st.levels[l]);
  }

  lemma InputsThere(st: State)
    requires Wf(st) && st.pending.Some?
    ensures var p := st.pending.value; p.level + 1 < |st.levels| && p.in0 <= st.levels[p.level] && p.in1 <= st.levels[p.level + 1]
  {
  }

  lemma TrivialMoves(r: Running, from: nat, moved: File, l: nat)
    requires Wf(r.st) && OneNumber(r.st.levels) && Enabled(r.st, TrivialMove(from, moved)) && |r.st.levels| == NUM_LEVELS
    requires l < NUM_LEVELS
    ensures Moved(r.st.levels, StepMoves(r, TrivialMove(from, moved)))[l] == Apply(r.st, TrivialMove(from, moved)).levels[l]
  {
    hide Wf, OneNumber, Selected, Apart;
    TakenIs(r.st.levels, from, {moved});
    assert Numbers({moved}) == {moved.number};
    NothingTaken(r.st.levels[l]);
    assert r.st.levels[from + 1] - {} == r.st.levels[from + 1];
  }

  lemma TakenIs(levels: seq<set<File>>, l: nat, fs: set<File>)
    requires OneNumber(levels) && l < |levels| && fs <= levels[l]
    ensures (set f | f in levels[l] && f.number !in Numbers(fs)) == levels[l] - fs
  {
  }

  lemma StepIsTracked(n: Naming, edits: seq<E.Edit>, r: Running, s: Step, fe: FileEdit, cs: seq<FileEdit>)
    requires Wf(r.st) && Enabled(r.st, s) && (s.Flush? || s.FinishCompaction? || s.TrivialMove?)
    requires Tracked(cs, r.st.levels) && NewNumbers(AddedNumbers(cs), s) && Does(fe, StepMoves(r, s)) && AddsOnce(fe)
    ensures Tracked(cs + [fe], Apply(r.st, s).levels)
  {
    hide Wf, Apply, EditAll, MetAt, NeverAddedTwice, AddedNumbers, NotBelow, WfEdit, AddsOnce;
    var moves := StepMoves(r, s);
    StepMovesLevels(r, s);
    if s.TrivialMove? {
      MovedIsThere(r.st, s);
      MoveTracked(cs, r.st.levels, fe, moves, s.from, s.moved);
    } else {
      forall i | 0 <= i < |fe.added| ensures fe.added[i].file.number !in AddedNumbers(cs) {
        AddedIsPut(fe, moves, i);
      }
      NewFilesTracked(cs, r.st.levels, fe, moves);
    }
  }

  lemma MovedIsThere(st: State, s: Step)
    requires Wf(st) && s.TrivialMove? && Enabled(st, s)
    ensures s.from + 1 < NUM_LEVELS && s.moved in st.levels[s.from]
  {
  }

  lemma AddedIsPut(fe: FileEdit, moves: seq<Move>, i: nat)
    requires Does(fe, moves) && i < |fe.added|
    ensures fe.added[i].level < NUM_LEVELS && fe.added[i].file in moves[fe.added[i].level].put
  {
    assert fe.added[i] in fe.added;
    assert fe.added[i].file in AddedAt(fe.added, fe.added[i].level);
  }

  /** An added number is below the file counter that goes into the same edit. */
  lemma PutBelow(r: Running, s: Step, l: nat, f: File)
    requires Wf(r.st) && Enabled(r.st, s) && (s.Flush? || s.FinishCompaction?) && f in Puts(r, s, l)
    ensures f.number < Apply(r.st, s).nextFile
  {
    hide Wf, Survivors, NoOverlapTo;
  }

  lemma StepIsJournalled(n: Naming, edits: seq<E.Edit>, r: Running, step: DiskStep, e: E.Edit)
    requires Durable(r) && DiskEnabled(r, step) && InManifest(step) && Describes(n, edits, r.disk)
    requires NewNumbers(AddedNumbers(Changes(n, edits)), step.step)
    requires Journals(n, e, StepMoves(r, step.step), DiskApply(r, step).disk)
    ensures Describes(n, edits + [e], DiskApply(r, step).disk)
  {
    hide Wf, Apply, Enabled, LogsCover, InflightFits, Tracked, AddedNumbers, NewNumbers, Does, AddsOnce, Named;
    var s, cs, fe, d' := step.step, Changes(n, edits), Change(n, e), DiskApply(r, step).disk;
    StepIsTracked(n, edits, r, s, fe, cs);
    ChangesSnoc(n, edits, e);
    CountersOf(edits, e, d');
    EditAllSnoc(cs, fe, 0);
    forall j | 0 <= j < |fe.added| ensures fe.added[j].file.number < d'.nextFile {
      AddedBelow(cs, fe, r, s, j);
    }
  }

  lemma AddedBelow(cs: seq<FileEdit>, fe: FileEdit, r: Running, s: Step, j: nat)
    requires Wf(r.st) && Enabled(r.st, s) && (s.Flush? || s.FinishCompaction? || s.TrivialMove?)
    requires Does(fe, StepMoves(r, s)) && j < |fe.added|
    ensures fe.added[j].file.number < Apply(r.st, s).nextFile
  {
    hide Apply, Enabled;
    AddedIsPut(fe, StepMoves(r, s), j);
    if s.TrivialMove? {
      MovedIsThere(r.st, s);
      MoveKeepsNext(r.st, s);
    } else {
      PutBelow(r, s, fe.added[j].level, fe.added[j].file);
    }
  }

  lemma MoveKeepsNext(st: State, s: Step)
    requires Enabled(st, s) && s.TrivialMove?
    ensures Apply(st, s).nextFile == st.nextFile
  {
  }

  // ---------- opening ----------

  /** The edit of an opening puts the recovered tables into level 0. */
  function OpenMoves(o: Outcome): seq<Move> {
    seq(NUM_LEVELS, l requires 0 <= l < NUM_LEVELS => Move({}, if l == 0 then Files(o.added) else {}))
  }

  /** The edit a fresh manifest begins with: all files of the version (WriteSnapshot). */
  ghost predicate Snapshots(n: Naming, e: E.Edit, levels: seq<set<File>>) {
    && Written(n, e) && |levels| == NUM_LEVELS && AddsOnce(Change(n, e))
    && Does(Change(n, e), seq(NUM_LEVELS, l requires 0 <= l < NUM_LEVELS && l < |levels| => Move({}, levels[l])))
  }

  lemma OpenMovesLevels(levels: seq<set<File>>, o: Outcome)
    requires |levels| == NUM_LEVELS
    ensures Moved(levels, OpenMoves(o)) == levels[0 := levels[0] + Files(o.added)]
  {
    forall l | 0 <= l < NUM_LEVELS ensures Moved(levels, OpenMoves(o))[l] == levels[0 := levels[0] + Files(o.added)][l] {
      NothingTaken(levels[l]);
    }
  }

  lemma SnapshotIsTracked(levels: seq<set<File>>, fe: FileEdit)
    requires |levels| == NUM_LEVELS && OneNumber(levels) && AddsOnce(fe)
    requires Does(fe, seq(NUM_LEVELS, l requires 0 <= l < NUM_LEVELS && l < |levels| => Move({}, levels[l])))
    ensures Tracked([fe], levels)
    ensures forall k :: k in AddedNumbers([fe]) ==> exists l, f :: 0 <= l < NUM_LEVELS && f in levels[l] && f.number == k
  {
    hide EditAll, MetAt, NeverAddedTwice, AddedNumbers, AddsOnce;
    var moves := seq(NUM_LEVELS, l requires 0 <= l < NUM_LEVELS && l < |levels| => Move({}, levels[l]));
    NothingTracked();
    assert forall l :: 0 <= l < NUM_LEVELS ==> moves[l] == Move({}, levels[l]);
    NewFilesTracked([], NoLevels(), fe, moves);
    forall l | 0 <= l < NUM_LEVELS ensures Moved(NoLevels(), moves)[l] == levels[l] {
      NothingTaken(levels[l]);
    }
    assert Moved(NoLevels(), moves) == levels;
    assert [] + [fe] == [fe];
    EditAllSnoc([], fe, 0);
    forall j | 0 <= j < |fe.added|
      ensures exists l, f :: 0 <= l < NUM_LEVELS && f in levels[l] && f.number == fe.added[j].file.number
    {
      AddedIsPut(fe, moves, j);
    }
  }

  lemma NothingTracked()
    ensures Tracked([], NoLevels()) && AddedNumbers([]) == {}
  {
  }

  lemma OpenIsTracked(cs: seq<FileEdit>, fe: FileEdit, levels: seq<set<File>>, o: Outcome, next: nat)
    requires Tracked(cs, levels) && Does(fe, OpenMoves(o)) && AddsOnce(fe)
    requires forall k :: k in AddedNumbers(cs) ==> k < next
    requires NumberOrdered(Files(o.added)) && forall f :: f in o.added ==> next <= f.number < o.next
    ensures Tracked(cs + [fe], levels[0 := levels[0] + Files(o.added)])
    ensures forall k :: k in AddedNumbers(cs + [fe]) ==> k < next || k < o.next
  {
    hide EditAll, MetAt, NeverAddedTwice, AddedNumbers, AddsOnce;
    forall i | 0 <= i < |fe.added| ensures fe.added[i].file.number !in AddedNumbers(cs) && fe.added[i].file.number < o.next {
      AddedIsPut(fe, OpenMoves(o), i);
    }
    OneByNumber(Files(o.added));
    NewFilesTracked(cs, levels, fe, OpenMoves(o));
    OpenMovesLevels(levels, o);
    EditAllSnoc(cs, fe, 0);
  }

  lemma OneByNumber(fs: set<File>)
    requires NumberOrdered(fs)
    ensures DistinctNumbers(fs)
  {
  }

  lemma AppendedIsDescribed(n: Naming, edits: seq<E.Edit>, r: Running, o: Outcome, d': Disk, e: E.Edit)
    requires Describes(n, edits, r.disk) && OpenedAs(r, o, d') && o.saved && Journals(n, e, OpenMoves(o), d')
    ensures Describes(n, edits + [e], d')
  {
    hide Tracked, AddedNumbers, Does, AddsOnce, Named, CrashRecovery.Covers, CrashHistory, Reopened, LiveLogs;
    var cs, fe := Changes(n, edits), Change(n, e);
    OpenIsTracked(cs, fe, r.disk.levels, o, r.disk.nextFile);
    ChangesSnoc(n, edits, e);
    CountersOf(edits, e, d');
  }

  lemma StartedIsDescribed(n: Naming, edits: seq<E.Edit>, r: Running, o: Outcome, d': Disk, snapshot: E.Edit, e: E.Edit)
    requires Describes(n, edits, r.disk) && OpenedAs(r, o, d') && o.saved && Journals(n, e, OpenMoves(o), d')
    requires Snapshots(n, snapshot, r.disk.levels)
    ensures Describes(n, [snapshot, e], d')
  {
    hide AddedNumbers, Does, AddsOnce, Named, CrashRecovery.Covers, CrashHistory, Reopened, LiveLogs, EditAll, NeverAddedTwice,
      OneNumber, NotBelow;
    var first, fe := Change(n, snapshot), Change(n, e);
    SnapshotIsTracked(r.disk.levels, first);
    assert forall k :: k in AddedNumbers([first]) ==> k < r.disk.nextFile;
    OpenIsTracked([first], fe, r.disk.levels, o, r.disk.nextFile);
    assert Changes(n, [snapshot]) == [first] && [snapshot] + [e] == [snapshot, e];
    ChangesSnoc(n, [snapshot], e);
    CountersOf([snapshot], e, d');
  }

  // ---------- journalled lives ----------

  /** What the event does to the manifest. An opening presupposes that it could be read; it goes on appending to it
      or begins another, which CURRENT names once its first edits are there. */
  ghost predicate Writes(c: Crc, n: Naming, j: Journal, r: Running, alive: bool, ev: Event, j': Journal)
    requires WfCrc(c) && Happens(r, alive, ev) && AllAreNamed(n, Edits(j))
  {
    match ev
    case Work(step) =>
      if InManifest(step) then
        NewNumbers(AddedNumbers(Changes(n, Edits(j))), step.step) &&
        exists e :: Journals(n, e, StepMoves(r, step.step), DiskApply(r, step).disk) && j' == Appended(j, e)
      else j' == j
    case Crash => Tears(c, j, j')
    case Halfway(number) => Readable(c, j) && (j' == j || Tears(c, Reused(c, j), j'))
    case Reopen(o, d') =>
      Readable(c, j) &&
      if o.saved then
        exists e :: Journals(n, e, OpenMoves(o), d') &&
          (j' == Appended(Reused(c, j), e)
           || exists snapshot :: Snapshots(n, snapshot, r.disk.levels) && j' == Begun([snapshot, e]))
      else j' == Reused(c, j)
  }

  ghost predicate AllAreNamed(n: Naming, edits: seq<E.Edit>) {
    forall i :: 0 <= i < |edits| ==> Named(n, edits[i])
  }

  predicate SameManifest(d: Disk, d': Disk) {
    d'.levels == d.levels && d'.logNumber == d.logNumber && d'.nextFile == d.nextFile && d'.lastSeq == d.lastSeq
  }

  lemma OtherStepsKeep(r: Running, step: DiskStep)
    requires DiskEnabled(r, step) && !InManifest(step)
    ensures SameManifest(r.disk, DiskApply(r, step).disk)
  {
    hide Enabled, Apply;
  }

  lemma SameDescribed(n: Naming, edits: seq<E.Edit>, d: Disk, d': Disk)
    requires Describes(n, edits, d) && SameManifest(d, d')
    ensures Describes(n, edits, d')
  {
    hide Tracked, AddedNumbers;
  }

  lemma DescribesNames(n: Naming, edits: seq<E.Edit>, d: Disk)
    requires Describes(n, edits, d)
    ensures AllAreNamed(n, edits)
  {
    hide Tracked, AddedNumbers;
  }

  lemma EventIsDescribed(c: Crc, n: Naming, j: Journal, r: Running, alive: bool, ev: Event, j': Journal)
    requires WfCrc(c) && Durable(r) && Describes(n, Edits(j), r.disk) && Happens(r, alive, ev)
    requires AllAreNamed(n, Edits(j)) && Writes(c, n, j, r, alive, ev, j') && OnFile(c, j) && (alive ==> j.left == [])
    ensures Describes(n, Edits(j'), Next(r, alive, ev).0.disk)
    ensures OnFile(c, j') && (Next(r, alive, ev).1 ==> j'.left == [])
  {
    hide Durable, Describes, Named, DiskEnabled, DiskApply, DiskFits, DiskHarmless, OpenedAs, Journals, Snapshots, NewNumbers,
      StepMoves, OpenMoves, CrashHistory, AddedNumbers, OnFile, Readable, Bytes, Tears, Edits;
    var d' := Next(r, alive, ev).0.disk;
    match ev
    case Work(step) =>
      if InManifest(step) {
        var e :| Journals(n, e, StepMoves(r, step.step), DiskApply(r, step).disk) && j' == Appended(j, e);
        AppendedOnFile(c, j, e);
        StepIsJournalled(n, Edits(j), r, step, e);
      } else {
        OtherStepsKeep(r, step);
        SameDescribed(n, Edits(j), r.disk, d');
      }
    case Reopen(o, disk) =>
      ReusedOnFile(c, j);
      if o.saved {
        var e :| Journals(n, e, OpenMoves(o), disk) &&
          (j' == Appended(Reused(c, j), e)
           || exists snapshot :: Snapshots(n, snapshot, r.disk.levels) && j' == Begun([snapshot, e]));
        if j' == Appended(Reused(c, j), e) {
          AppendedOnFile(c, Reused(c, j), e);
          AppendedIsDescribed(n, Edits(j), r, o, disk, e);
        } else {
          var snapshot :| Snapshots(n, snapshot, r.disk.levels) && j' == Begun([snapshot, e]);
          BegunOnFile(c, [snapshot, e]);
          StartedIsDescribed(n, Edits(j), r, o, disk, snapshot, e);
        }
      } else {
        UnsavedKeeps(r, o, disk);
        SameDescribed(n, Edits(j), r.disk, d');
      }
    case Halfway(number) =>
      ReusedOnFile(c, j);
      if j' != j {
        TornOnFile(c, Reused(c, j), j');
      }
      SameDescribed(n, Edits(j), r.disk, d');
    case Crash => TornOnFile(c, j, j');
  }

  lemma UnsavedKeeps(r: Running, o: Outcome, d': Disk)
    requires OpenedAs(r, o, d') && !o.saved
    ensures SameManifest(r.disk, d')
  {
    hide CrashRecovery.Covers, Replays, Reopened, CrashHistory;
  }

  /** A life with its manifest. */
  ghost predicate Journalled(c: Crc, n: Naming, j: Journal, r: Running, alive: bool, events: seq<Event>, j': Journal,
                             r': Running, alive': bool)
    requires WfCrc(c)
    decreases |events|
  {
    if events == [] then j' == j && r' == r && alive' == alive
    else
      Happens(r, alive, events[0]) && AllAreNamed(n, Edits(j)) &&
      var (mid, still) := Next(r, alive, events[0]);
      exists next :: Writes(c, n, j, r, alive, events[0], next) &&
        Journalled(c, n, next, mid, still, events[1..], j', r', alive')
  }

  /** Over any life the manifest's edits come to what the disk says, and the file stands as its openings and crashes
      have left it. */
  lemma {:induction false} LifeIsDescribed(c: Crc, n: Naming, j: Journal, r: Running, alive: bool, events: seq<Event>,
                                           j': Journal, r': Running, alive': bool)
    requires WfCrc(c) && Durable(r) && Faithful(r.st) && Describes(n, Edits(j), r.disk)
    requires OnFile(c, j) && (alive ==> j.left == [])
    requires Journalled(c, n, j, r, alive, events, j', r', alive')
    ensures Describes(n, Edits(j'), r'.disk) && Life(r, alive, events, r', alive')
    ensures OnFile(c, j') && (alive' ==> j'.left == [])
    decreases |events|
  {
    hide Durable, Faithful, Describes, Happens, Next, Writes, Named, OnFile, AllAreNamed, Edits;
    if events != [] {
      var (mid, still) := Next(r, alive, events[0]);
      var next :| Writes(c, n, j, r, alive, events[0], next) && Journalled(c, n, next, mid, still, events[1..], j', r', alive');
      EventKeepsDurable(r, alive, events[0]);
      EventIsDescribed(c, n, j, r, alive, events[0], next);
      LifeIsDescribed(c, n, next, mid, still, events[1..], j', r', alive');
    }
  }

  /** After any life the manifest is read back as its edits if and only if nothing was lost behind the place where it was
      last opened for appending: always, if that was a new manifest or no record was torn there. */
  lemma LifeIsReadIff(c: Crc, n: Naming, j: Journal, r: Running, alive: bool, events: seq<Event>,
                      j': Journal, r': Running, alive': bool)
    requires WfCrc(c) && Durable(r) && Faithful(r.st) && Describes(n, Edits(j), r.disk)
    requires OnFile(c, j) && (alive ==> j.left == [])
    requires Journalled(c, n, j, r, alive, events, j', r', alive')
    ensures Sound(c, j') ==> Readable(c, j')
    ensures Unmistaken(c, j') ==> (Readable(c, j') <==> Sound(c, j')) && ReadEvery(c, Bytes(c, j'), 0).0 == Records(Found(c, j'))
    ensures j'.base == LogBytes(c, Records(j'.before)) ==> Readable(c, j')
  {
    hide Durable, Faithful, Describes, Journalled, OnFile, Unmistaken, Readable, Sound, ReadEvery, Found, Bytes, Records, Edits;
    LifeIsDescribed(c, n, j, r, alive, events, j', r', alive');
    if Sound(c, j') {
      SoundIsUnmistaken(c, j');
    }
    if Unmistaken(c, j') {
      ManifestReadsIff(c, j');
    }
    if j'.base == LogBytes(c, Records(j'.before)) {
      UntornReads(c, j');
    }
  }

  // ---------- from bytes to the store ----------

  lemma DescribedIsManifest(n: Naming, edits: seq<E.Edit>, d: Disk)
    requires Describes(n, edits, d)
    ensures Manifest(n, edits) && Complete(Counted(edits))
  {
    hide OneNumber, NotBelow, EditAll, NeverAddedTwice, AddedNumbers;
  }

  /** The disk that recovery has found, with the logs that are there. */
  function DiskOf(found: Recovered, logs: map<nat, seq<Batch>>): Disk {
    Disk(seq(NUM_LEVELS, l requires 0 <= l < NUM_LEVELS => if l < |found.levels| then Files(found.levels[l]) else {}),
         found.logNumber, found.nextFile, found.lastSequence, logs)
  }

  /** What VersionSet::Recover finds is what the disk says. */
  lemma RecoveredIsDisk(n: Naming, edits: seq<E.Edit>, d: Disk, found: Recovered)
    requires Describes(n, edits, d) && AllAreNamed(n, edits) && Sums(n, edits, found)
    ensures d == DiskOf(found, d.logs)
  {
    hide OneNumber, NotBelow, EditAll, NeverAddedTwice, AddedNumbers, Written, Named, InOrder;
  }

  /** Recovery after any life of the database that ended in a crash, torn records, reused or not, included: what it finds is
      the disk if the manifest is sound; else it refuses the manifest, or takes a manifest that lacks edits. */
  method RecoverLeft(c: Crc, whole: seq<Byte>, n: Naming, ghost first: nat, ghost start: seq<E.Edit>,
                     ghost events: seq<Event>, ghost j: Journal, ghost r: Running) returns (found: Option<Recovered>)
    requires WfCrc(c) && first >= 2 && Describes(n, start, Created(first).disk)
    requires Journalled(c, n, Begun(start), Created(first), true, events, j, r, false)
    requires whole == Bytes(c, j) && Unmistaken(c, j)
    ensures Manifest(n, Found(c, j)) && (found.Some? ==> Sums(n, Found(c, j), found.value))
    ensures found.Some? <==> ReadEvery(c, whole, 0).1 == 0 && Complete(Counted(Found(c, j)))
    ensures if Sound(c, j) then found.Some? && DiskOf(found.value, r.disk.logs) == r.disk
            else found.None? || |Found(c, j)| < |Edits(j)|
  {
    hide Durable, Faithful, Journalled, Describes, Created, OnFile, Manifest, Sums, Counted, Life, DiskOf,
      Unmistaken, Sound, Found, Bytes, ReadEvery, Edits, AllAreNamed;
    CreatedIsDurable(first);
    BegunOnFile(c, start);
    LifeIsDescribed(c, n, Begun(start), Created(first), true, events, j, r, false);
    DescribedIsManifest(n, Edits(j), r.disk);
    found := RecoverJournal(c, whole, n, j);
    if Sound(c, j) {
      DescribesNames(n, Edits(j), r.disk);
      RecoveredIsDisk(n, Edits(j), r.disk, found.value);
    }
  }

  /** Opening from a sound manifest's bytes after such a life, with the logs: the store, durable and with its history. */
  method OpenFromManifest(c: Crc, whole: seq<Byte>, n: Naming, logs: map<nat, seq<Batch>>, sizeOf: seq<Entry> -> nat,
                          full: seq<Entry> -> bool, reuseLogs: bool, reuseManifest: bool, ghost first: nat,
                          ghost start: seq<E.Edit>, ghost events: seq<Event>, ghost j: Journal, ghost r: Running)
    returns (d': Disk, logNumber: nat, lastSequence: nat, nextFile: nat, mem: MemTable, ghost st': State, ghost o: Outcome)
    requires WfCrc(c) && first >= 2 && Describes(n, start, Created(first).disk)
    requires Journalled(c, n, Begun(start), Created(first), true, events, j, r, false)
    requires whole == Bytes(c, j) && Sound(c, j) && logs == r.disk.logs && (reuseManifest ==> reuseLogs)
    ensures OpenedAs(r, o, d') && OpenedRunning(r, o, d') == Running(st', d', logNumber, nextFile, None)
    ensures Durable(Running(st', d', logNumber, nextFile, None)) && Faithful(st') && r.st.hist <= st'.hist
  {
    hide Durable, Faithful, Journalled, Describes, Created, OpenedAs, OnFile, Manifest, Sums, Counted, Life, CrashHistory,
      Unmistaken, Sound, Found, Bytes, ReadEvery, Edits, DiskOf;
    SoundIsUnmistaken(c, j);
    var found := RecoverLeft(c, whole, n, first, start, events, j, r);
    CreatedIsDurable(first);
    BegunOnFile(c, start);
    LifeIsDescribed(c, n, Begun(start), Created(first), true, events, j, r, false);
    LifeKeepsDurable(Created(first), true, events, r, false);
    d', logNumber, lastSequence, nextFile, mem, st', o :=
      Open(DiskOf(found.value, logs), sizeOf, full, reuseLogs, reuseManifest, r);
    CrashHistoryGrows(r);
  }

  /** The manifest of a new database: its one edit names the counters and no files. */
  lemma NewManifest(n: Naming, e: E.Edit, first: nat)
    requires first >= 2 && Written(n, e) && e.deletedFiles == [] && e.newFiles == []
    requires e.logNumber == Some(first) && e.nextFileNumber == Some(first + 1) && e.lastSequence == Some(0)
    ensures Describes(n, [e], Created(first).disk)
  {
    hide Written, Tracked, AddedNumbers;
    NewIsNamed(n, e);
    assert Change(n, e).deleted == [] && Change(n, e).added == [];
    assert Changes(n, [e]) == [FileEdit([], [])];
    assert [e][..0] == [];
    EmptyEditTracked();
    assert Created(first).disk.levels == NoLevels();
  }

  lemma NewIsNamed(n: Naming, e: E.Edit)
    requires Written(n, e)
    ensures Named(n, e)
  {
  }

  lemma EmptyEditTracked()
    ensures Tracked([FileEdit([], [])], NoLevels()) && AddedNumbers([FileEdit([], [])]) == {}
  {
    var cs := [FileEdit([], [])];
    assert cs[..0] == [];
    assert forall l :: 0 <= l < NUM_LEVELS ==> EditAll({}, cs, l) == {};
  }
}
