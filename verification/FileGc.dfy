/** Which files may be deleted, and when (db/db_impl.cc: DeleteObsoleteFiles, WriteLevel0Table,
    CompactMemTable, OpenCompactionOutputFile, CleanupCompaction, DB::Open; db/version_set.cc: LogAndApply, Recover;
    db/filename.cc: SetCurrentFile). A step is what happens between two releases of the mutex. */
module FileLifetimes {
  import opened InternalKeys

  /** A version in the version list: its tables' numbers and its reference count. */
  datatype Held = Held(files: set<nat>, refs: nat)

  /** A flush: the table is being built under its pending number; then it is built, no longer
      pending, and on its way into the manifest (`table` is absent if nothing was written). */
  datatype Flush = NoFlush | Building(number: nat, base: nat) | Built(table: Option<nat>)

  /** A compaction holding its input version: writing outputs, or installing its edit. */
  datatype Work =
    | NoWork
    | Compacting(version: nat, inputs: set<nat>, outputs: set<nat>, created: set<nat>)
    | Installing(version: nat, inputs: set<nat>, outputs: set<nat>)
    | Moving(version: nat)

  /** How far an opening has come: the manifest is being read and the logs replayed; the new manifest is written; a
      temporary file that names it is; or the opening has failed. */
  datatype Stage = Reading | Written | Named | Failed

  /** A store is open, or being opened after a crash: the number for a new manifest, the logs to replay, the tables they
      were written to, and the log to go on with. */
  datatype Opening =
    | Opened
    | Underway(number: nat, replay: set<nat>, recovered: set<nat>, log: Option<nat>, stage: Stage)

  /** `manifest` is the one CURRENT names and `manifestNumber` the version set's; `unsure` are the tables of edits that
      failed and may be in the manifest all the same, `unsureLog` the log number of such an edit. */
  datatype State = State(
    tables: set<nat>, logs: set<nat>, descriptors: set<nat>, temps: set<nat>,
    manifest: nat, manifestNumber: nat, opening: Opening, unsure: set<nat>, unsureLog: Option<nat>,
    versions: map<nat, Held>, current: nat, readers: multiset<nat>, nextVersion: nat,
    pending: set<nat>, nextFile: nat,
    logNumber: nat, logfile: nat, imm: Option<nat>,
    bgError: bool, flush: Flush, work: Work)

  datatype Step =
    | Rotate
    | Pin
    | Unpin(version: nat)
    | BeginFlush
    | EndBuild(good: bool, wrote: bool)
    | InstallFlush(good: bool)
    | BeginCompaction(inputs: set<nat>)
    | OpenOutput
    | CreateOutput(number: nat)
    | BeginInstall
    | FinishCompaction(good: bool)
    | AbandonCompaction
    | BeginMove
    | FinishMove(good: bool)
    | Crash(files: set<nat>, minLog: nat, number: nat, nextFile: nat)
    | RecoverTable
    | OpenLog(reused: Option<nat>)
    | CreateManifest
    | WriteTemp
    | RenameCurrent(good: bool)
    | KeepManifest(saved: bool, good: bool)

  // ---------- the version list ----------

  function Ref(vs: map<nat, Held>, id: nat): map<nat, Held>
    requires id in vs
  {
    vs[id := vs[id].(refs := vs[id].refs + 1)]
  }

  /** The last reference takes the version out of the list. */
  function Unref(vs: map<nat, Held>, id: nat): map<nat, Held> {
    if id !in vs then vs
    else if vs[id].refs <= 1 then vs - {id} else vs[id := vs[id].(refs := vs[id].refs - 1)]
  }

  /** AppendVersion: the new version becomes current, the old one loses that reference. */
  function Installed(s: State, files: set<nat>): State
    requires s.current in s.versions
  {
    s.(versions := Unref(s.versions, s.current)[s.nextVersion := Held(files, 1)],
       current := s.nextVersion, nextVersion := s.nextVersion + 1)
  }

  function Live(vs: map<nat, Held>): set<nat> {
    set id, t | id in vs && t in vs[id].files :: t
  }

  /** DeleteObsoleteFiles: nothing after a background error; otherwise every table and temporary file that is neither
      in a listed version nor pending goes, and every log and manifest older than the version set's. */
  function Collect(s: State): State {
    if s.bgError then s
    else s.(tables := (set t | t in s.tables && (t in s.pending || t in Live(s.versions))),
            temps := (set t | t in s.temps && (t in s.pending || t in Live(s.versions))),
            logs := (set l | l in s.logs && l >= s.logNumber),
            descriptors := (set m | m in s.descriptors && m >= s.manifestNumber))
  }

  // ---------- steps ----------

  function WorkHolds(w: Work): multiset<nat> {
    if w.NoWork? then multiset{} else multiset{w.version}
  }

  function FlushHolds(f: Flush): multiset<nat> {
    if f.Building? then multiset{f.base} else multiset{}
  }

  predicate Enabled(s: State, step: Step) {
    s.current in s.versions && if OfOpening(step) then OpeningEnabled(s, step) else s.opening.Opened? && WorkEnabled(s, step)
  }

  /** Crashes, and what an opening does. */
  predicate OfOpening(step: Step) {
    step.Crash? || step.RecoverTable? || step.OpenLog? || step.CreateManifest? || step.WriteTemp? || step.RenameCurrent? ||
    step.KeepManifest?
  }

  /** What the manifest gives after a crash: the current version; after an edit that failed, perhaps with its tables or
      without those it took away. */
  predicate ReadBack(s: State, files: set<nat>, minLog: nat)
    requires s.current in s.versions
  {
    var listed := s.versions[s.current].files;
    && (files == listed
        || (s.opening.Opened? && s.bgError && files <= listed + s.unsure)
        || (s.opening.Underway? && s.opening.stage.Failed? && files == listed + s.unsure))
    && (minLog == s.logNumber || s.unsureLog == Some(minLog))
  }

  predicate OpeningEnabled(s: State, step: Step)
    requires s.current in s.versions && OfOpening(step)
  {
    if step.Crash? then
      && ReadBack(s, step.files, step.minLog) && s.manifest < step.number < step.nextFile
      && (forall t :: t in step.files ==> t < step.number)
      && (forall l :: l in s.logs && l >= step.minLog ==> l < step.nextFile)
    else
      s.opening.Underway? &&
      match step
      case RecoverTable => s.opening.stage.Reading? && s.opening.log.None?
      case OpenLog(reused) =>
        s.opening.stage.Reading? && s.opening.log.None? && (reused.Some? ==> reused.value in s.opening.replay)
      case CreateManifest => s.opening.stage.Reading? && s.opening.log.Some?
      case WriteTemp => s.opening.stage.Written?
      case RenameCurrent(_) => s.opening.stage.Named? && s.opening.log.Some?
      case KeepManifest(saved, good) =>
        s.opening.stage.Reading? && s.opening.log.Some? && (!saved ==> good && s.opening.recovered == {})
  }

  predicate WorkEnabled(s: State, step: Step)
    requires s.current in s.versions && !OfOpening(step)
  {
       match step
       case Rotate => s.imm.None? && !s.bgError
       case Pin => true
       case Unpin(v) => v in s.readers
       case BeginFlush => s.imm.Some? && s.flush.NoFlush? && (s.work.Compacting? || (s.work.NoWork? && !s.bgError))
       case EndBuild(_, _) => s.flush.Building?
       case InstallFlush(_) => s.flush.Built? && s.imm.Some?
       case BeginCompaction(inputs) =>
         s.imm.None? && !s.bgError && s.flush.NoFlush? && s.work.NoWork? && inputs <= s.versions[s.current].files
       case OpenOutput => s.work.Compacting? && s.flush.NoFlush?
       case CreateOutput(n) => s.work.Compacting? && s.flush.NoFlush? && n in s.work.outputs
       case BeginInstall => s.work.Compacting? && s.flush.NoFlush? && s.work.created == s.work.outputs
       case FinishCompaction(_) => s.work.Installing?
       case AbandonCompaction => s.work.Compacting? && s.flush.NoFlush?
       case BeginMove => s.imm.None? && !s.bgError && s.flush.NoFlush? && s.work.NoWork?
       case FinishMove(_) => s.work.Moving?
  }

  /** A failed edit records a background error and installs nothing. */
  function Logged(s: State, files: set<nat>, good: bool): State
    requires s.current in s.versions
  {
    if good then Installed(s, files) else s.(bgError := true, unsure := s.unsure + (files - s.versions[s.current].files))
  }

  function ReleaseWork(s: State): State
    requires !s.work.NoWork?
  {
    s.(versions := Unref(s.versions, s.work.version), work := NoWork)
  }

  /** The opening is done: the recovered tables are in the version, and what nothing needs is deleted. */
  function Ready(s: State, saved: bool): State
    requires s.current in s.versions && s.opening.Underway? && s.opening.log.Some?
  {
    var o := s.opening;
    var t := s.(logfile := o.log.value, opening := Opened);
    Collect(if saved then Installed(t, s.versions[s.current].files + o.recovered).(logNumber := o.log.value) else t)
  }

  /** All that was in memory is gone. */
  function Crashed(s: State, files: set<nat>, minLog: nat, number: nat, nextFile: nat): State {
    State(s.tables, s.logs, s.descriptors, s.temps, s.manifest, number,
          Underway(number, set l | l in s.logs && l >= minLog, {}, None, Reading), {}, None,
          map[0 := Held(files, 1)], 0, multiset{}, 1, {}, nextFile, minLog, minLog, None, false, NoFlush, NoWork)
  }

  function Apply(s: State, step: Step): State
    requires Enabled(s, step)
  {
    if OfOpening(step) then OpeningApply(s, step) else WorkApply(s, step)
  }

  function OpeningApply(s: State, step: Step): State
    requires s.current in s.versions && OfOpening(step) && OpeningEnabled(s, step)
  {
    match step
    case Crash(files, minLog, number, nextFile) => Crashed(s, files, minLog, number, nextFile)
    case RecoverTable =>
      s.(tables := s.tables + {s.nextFile}, nextFile := s.nextFile + 1,
         opening := s.opening.(recovered := s.opening.recovered + {s.nextFile}))
    case OpenLog(reused) =>
      if reused.Some? then s.(opening := s.opening.(log := reused))
      else s.(logs := s.logs + {s.nextFile}, nextFile := s.nextFile + 1, opening := s.opening.(log := Some(s.nextFile)))
    case CreateManifest =>
      s.(descriptors := s.descriptors + {s.opening.number}, opening := s.opening.(stage := Written))
    case WriteTemp => s.(temps := s.temps + {s.opening.number}, opening := s.opening.(stage := Named))
    case RenameCurrent(good) =>
      var named := s.(temps := s.temps - {s.opening.number});
      if good then Ready(named.(manifest := s.opening.number), true)
      else
        named.(descriptors := s.descriptors - {s.opening.number}, opening := s.opening.(stage := Failed))
    case KeepManifest(saved, good) =>
      if good then Ready(s.(manifestNumber := s.manifest), saved)
      else s.(unsure := s.opening.recovered, unsureLog := s.opening.log, opening := s.opening.(stage := Failed))
  }

  function WorkApply(s: State, step: Step): State
    requires s.current in s.versions && !OfOpening(step) && WorkEnabled(s, step)
  {
    match step
    case Rotate =>
      s.(imm := Some(s.logfile), logfile := s.nextFile, logs := s.logs + {s.nextFile}, nextFile := s.nextFile + 1)
    case Pin => s.(versions := Ref(s.versions, s.current), readers := s.readers + multiset{s.current})
    case Unpin(v) => s.(versions := Unref(s.versions, v), readers := s.readers - multiset{v})
    case BeginFlush =>
      s.(flush := Building(s.nextFile, s.current), pending := s.pending + {s.nextFile}, nextFile := s.nextFile + 1,
         versions := Ref(s.versions, s.current))
    case EndBuild(good, wrote) =>
      var built := s.(tables := if wrote then s.tables + {s.flush.number} else s.tables,
                      pending := s.pending - {s.flush.number}, versions := Unref(s.versions, s.flush.base));
      if good then built.(flush := Built(if wrote then Some(s.flush.number) else None))
      else built.(flush := NoFlush, bgError := true)
    case InstallFlush(good) =>
      var added := Unlisted(s.flush);
      var logged := Logged(s.(flush := NoFlush), s.versions[s.current].files + added, good);
      if good then Collect(logged.(logNumber := s.logfile, imm := None)) else logged.(unsureLog := Some(s.logfile))
    case BeginCompaction(inputs) =>
      s.(work := Compacting(s.current, inputs, {}, {}), versions := Ref(s.versions, s.current))
    case OpenOutput =>
      s.(work := Compacting(s.work.version, s.work.inputs, s.work.outputs + {s.nextFile}, s.work.created),
         pending := s.pending + {s.nextFile},
         nextFile := s.nextFile + 1)
    case CreateOutput(n) =>
      s.(work := Compacting(s.work.version, s.work.inputs, s.work.outputs, s.work.created + {n}),
         tables := s.tables + {n})
    case BeginInstall => s.(work := Installing(s.work.version, s.work.inputs, s.work.outputs))
    case FinishCompaction(good) =>
      var files := s.versions[s.current].files - s.work.inputs + s.work.outputs;
      Collect(ReleaseWork(Logged(s.(pending := s.pending - s.work.outputs), files, good)))
    case AbandonCompaction =>
      Collect(ReleaseWork(s.(bgError := true, pending := s.pending - s.work.outputs)))
    case BeginMove => s.(work := Moving(s.current), versions := Ref(s.versions, s.current))
    case FinishMove(good) => ReleaseWork(Logged(s, s.versions[s.current].files, good))
  }

  // ---------- the invariant ----------

  /** Everyone who holds a version, the current one holding itself. */
  function Holders(s: State): multiset<nat> {
    s.readers + multiset{s.current} + WorkHolds(s.work) + FlushHolds(s.flush)
  }

  /** The list holds exactly the versions someone refers to, counted. */
  predicate CountedBy(vs: map<nat, Held>, holders: multiset<nat>) {
    && (forall id :: id in vs ==> vs[id].refs == holders[id] && id in holders)
    && (forall id :: id in holders ==> id in vs)
  }

  predicate Counted(s: State) {
    CountedBy(s.versions, Holders(s)) && forall id :: id in s.versions ==> id < s.nextVersion
  }

  function Created(w: Work): set<nat> {
    match w
    case Compacting(_, _, _, created) => created
    case Installing(_, _, outputs) => outputs
    case _ => {}
  }

  function Outputs(w: Work): set<nat> {
    if w.Compacting? || w.Installing? then w.outputs else {}
  }

  function Unlisted(f: Flush): set<nat> {
    if f.Built? && f.table.Some? then {f.table.value} else {}
  }

  /** No table that is, or is about to be, part of a version has been deleted. */
  predicate TablesSafe(s: State) {
    && Live(s.versions) <= s.tables
    && Created(s.work) <= s.tables
    && Unlisted(s.flush) <= s.tables
    && s.unsure <= s.tables && Recovered(s.opening) <= s.tables
    && (s.opening.Opened? && s.unsure != {} ==> s.bgError)
  }

  function Recovered(o: Opening): set<nat> {
    if o.Underway? then o.recovered else {}
  }

  /** The manifest that recovery will read is there, and no older than the version set's. */
  predicate ManifestSafe(s: State) {
    && s.manifest in s.descriptors
    && match s.opening
       case Opened => s.manifestNumber == s.manifest
       case Underway(number, _, _, _, stage) =>
         && s.manifestNumber == number && s.manifest < number < s.nextFile
         && (stage.Written? || stage.Named? ==> number in s.descriptors)
         && (stage.Named? ==> number in s.temps)
  }

  /** The logs of the memtable and of the immutable memtable are there, and recovery will read them. */
  predicate LogsSafe(s: State) {
    match s.opening
    case Opened =>
      && s.logfile in s.logs && s.logNumber <= s.logfile
      && (s.imm.Some? ==> s.imm.value in s.logs && s.logNumber <= s.imm.value)
      && (s.unsureLog.Some? ==> s.bgError && s.unsureLog.value == s.logfile)
    case Underway(_, replay, _, log, stage) =>
      && replay != {} && replay <= s.logs && (forall l :: l in replay ==> s.logNumber <= l < s.nextFile)
      && (log.Some? ==> log.value in s.logs && s.logNumber <= log.value < s.nextFile)
      && (s.unsureLog.Some? ==> s.unsureLog == log)
  }

  /** Numbers are handed out once: a pending number is in no version. */
  predicate NumbersFresh(s: State) {
    && (forall t :: t in Live(s.versions) ==> t < s.nextFile)
    && (forall t :: t in s.pending ==> t < s.nextFile)
    && (s.opening.Opened? ==> s.logfile < s.nextFile)
    && (forall t :: t in s.unsure ==> t < s.nextFile) && (forall t :: t in Recovered(s.opening) ==> t < s.nextFile)
    && Outputs(s.work) <= s.pending && Created(s.work) <= Outputs(s.work)
    && (s.flush.Building? ==> s.flush.number in s.pending && s.flush.number !in Live(s.versions) + Outputs(s.work))
    && Unlisted(s.flush) !! s.pending + Live(s.versions)
    && forall t :: t in Unlisted(s.flush) ==> t < s.nextFile
  }

  predicate Phases(s: State) {
    && (!s.flush.NoFlush? ==> s.imm.Some? && (s.work.NoWork? || s.work.Compacting?))
    && (s.opening.Underway? ==>
          && s.imm.None? && s.flush.NoFlush? && s.work.NoWork? && s.pending == {} && !s.bgError
          && (!s.opening.stage.Reading? ==> s.opening.log.Some?)
          && (!s.opening.stage.Failed? ==> s.unsure == {} && s.unsureLog.None?))
  }

  predicate Rest(s: State) {
    TablesSafe(s) && ManifestSafe(s) && LogsSafe(s) && NumbersFresh(s) && Phases(s)
  }

  predicate Inv(s: State) {
    Counted(s) && Rest(s)
  }

  // ---------- reference counts ----------

  lemma RefCounted(vs: map<nat, Held>, holders: multiset<nat>, id: nat)
    requires CountedBy(vs, holders) && id in vs
    ensures CountedBy(Ref(vs, id), holders + multiset{id}) && Live(Ref(vs, id)) == Live(vs) && Ref(vs, id).Keys == vs.Keys
  {
    forall t | t in Live(vs) ensures t in Live(Ref(vs, id)) {
      var v :| v in vs && t in vs[v].files;
      assert t in Ref(vs, id)[v].files;
    }
  }

  lemma UnrefCounted(vs: map<nat, Held>, holders: multiset<nat>, id: nat)
    requires CountedBy(vs, holders) && id in holders
    ensures CountedBy(Unref(vs, id), holders - multiset{id}) && Live(Unref(vs, id)) <= Live(vs)
  {
    forall t | t in Live(Unref(vs, id)) ensures t in Live(vs) {
      var v :| v in Unref(vs, id) && t in Unref(vs, id)[v].files;
      assert t in vs[v].files;
    }
  }

  lemma InstallCounted(vs: map<nat, Held>, holders: multiset<nat>, cur: nat, next: nat, files: set<nat>)
    requires CountedBy(vs, holders) && cur in holders && next !in vs
    ensures var vs' := Unref(vs, cur)[next := Held(files, 1)];
            CountedBy(vs', holders - multiset{cur} + multiset{next}) && Live(vs') <= Live(vs) + files
  {
    UnrefCounted(vs, holders, cur);
    var vs' := Unref(vs, cur)[next := Held(files, 1)];
    assert next !in holders;
    forall t | t in Live(vs') ensures t in Live(vs) + files {
      var v :| v in vs' && t in vs'[v].files;
      if v != next { assert t in Unref(vs, cur)[v].files; }
    }
  }

  lemma CurrentIsLive(s: State)
    requires s.current in s.versions
    ensures s.versions[s.current].files <= Live(s.versions)
  {
  }

  /** Steps that neither take nor drop a reference. */
  predicate Quiet(step: Step) {
    step.Rotate? || step.OpenOutput? || step.CreateOutput? || step.BeginInstall?
  }

  /** Steps that take a reference to the current version. */
  predicate Takes(step: Step) {
    step.Pin? || step.BeginFlush? || step.BeginCompaction? || step.BeginMove?
  }

  /** One more holder of the current version. */
  predicate TakesOne(s: State, t: State)
    requires s.current in s.versions
  {
    && t.versions == Ref(s.versions, s.current) && t.current == s.current && t.nextVersion == s.nextVersion
    && (|| (t.readers == s.readers + multiset{s.current} && t.work == s.work && t.flush == s.flush)
        || (t.readers == s.readers && s.work.NoWork? && WorkHolds(t.work) == multiset{s.current} && t.flush == s.flush)
        || (t.readers == s.readers && t.work == s.work && s.flush.NoFlush? && FlushHolds(t.flush) == multiset{s.current}))
  }

  lemma TakesHolders(s: State, t: State)
    requires s.current in s.versions && TakesOne(s, t)
    ensures Holders(t) == Holders(s) + multiset{s.current}
  {
    hide Ref;
    var r, c, w, f := s.readers, multiset{s.current}, WorkHolds(s.work), FlushHolds(s.flush);
    assert r + c + c + w + f == r + c + w + f + c;
    assert r + c + w + (f + c) == r + c + w + f + c;
    assert r + c + (w + c) + f == r + c + w + f + c;
  }

  lemma TakesIs(s: State, step: Step)
    requires Enabled(s, step) && Takes(step)
    ensures s.current in s.versions && TakesOne(s, Apply(s, step))
  {
    hide Ref, OpeningEnabled, OpeningApply;
  }

  lemma UnpinHolders(s: State, v: nat)
    requires Enabled(s, Unpin(v))
    ensures v in Holders(s) && Holders(Apply(s, Unpin(v))) == Holders(s) - multiset{v}
  {
    hide Unref;
    var r, o := s.readers, multiset{s.current} + WorkHolds(s.work) + FlushHolds(s.flush);
    assert Holders(s) == r + o && Holders(Apply(s, Unpin(v))) == r - multiset{v} + o;
    DropOne(r, o, v);
  }

  lemma DropOne(a: multiset<nat>, b: multiset<nat>, v: nat)
    requires v in a
    ensures a - multiset{v} + b == a + b - multiset{v}
  {
  }

  lemma EndBuildHolders(s: State, good: bool, wrote: bool)
    requires Enabled(s, EndBuild(good, wrote))
    ensures s.flush.base in Holders(s)
    ensures Holders(Apply(s, EndBuild(good, wrote))) == Holders(s) - multiset{s.flush.base}
  {
    hide Unref;
    var o := s.readers + multiset{s.current} + WorkHolds(s.work);
    var t := Apply(s, EndBuild(good, wrote));
    assert FlushHolds(t.flush) == multiset{} && t.readers == s.readers && t.current == s.current && t.work == s.work;
    DropLast(o, s.flush.base);
  }

  lemma DropLast(o: multiset<nat>, v: nat)
    ensures v in o + multiset{v} && o + multiset{} == o + multiset{v} - multiset{v}
  {
  }

  lemma QuietCounted(s: State, step: Step)
    requires Counted(s) && Enabled(s, step) && Quiet(step)
    ensures Counted(Apply(s, step)) && Apply(s, step).versions == s.versions
  {
    assert Holders(Apply(s, step)) == Holders(s);
    hide Holders, CountedBy;
  }

  lemma TakesCounted(s: State, step: Step)
    requires Counted(s) && Enabled(s, step) && Takes(step)
    ensures Counted(Apply(s, step)) && Live(Apply(s, step).versions) == Live(s.versions)
  {
    hide Holders, CountedBy, Live, WorkApply, OpeningApply, WorkEnabled, OpeningEnabled, Ref;
    TakesIs(s, step);
    TakesHolders(s, Apply(s, step));
    RefCounted(s.versions, Holders(s), s.current);
  }

  lemma UnpinIs(s: State, v: nat)
    requires Enabled(s, Unpin(v))
    ensures Apply(s, Unpin(v)) == s.(versions := Unref(s.versions, v), readers := s.readers - multiset{v})
  {
  }

  lemma UnpinCounted(s: State, v: nat)
    requires Counted(s) && Enabled(s, Unpin(v))
    ensures Counted(Apply(s, Unpin(v))) && Live(Apply(s, Unpin(v)).versions) <= Live(s.versions)
  {
    UnpinHolders(s, v);
    hide Holders, CountedBy, Live, OpeningEnabled, OpeningApply, Unref;
    UnrefCounted(s.versions, Holders(s), v);
    UnpinIs(s, v);
    hide WorkApply;
  }

  lemma EndBuildCounted(s: State, good: bool, wrote: bool)
    requires Counted(s) && Enabled(s, EndBuild(good, wrote))
    ensures Counted(Apply(s, EndBuild(good, wrote)))
    ensures Live(Apply(s, EndBuild(good, wrote)).versions) <= Live(s.versions)
  {
    EndBuildHolders(s, good, wrote);
    hide Holders, CountedBy, Live;
    UnrefCounted(s.versions, Holders(s), s.flush.base);
  }

  lemma CurrentIsHeld(s: State, files: set<nat>)
    requires Counted(s)
    ensures s.current in Holders(s) && s.current in s.versions && s.nextVersion !in s.versions
    ensures Holders(Installed(s, files)) == Holders(s) - multiset{s.current} + multiset{s.nextVersion}
  {
  }

  lemma LoggedCounted(s: State, files: set<nat>, good: bool)
    requires Counted(s)
    ensures s.current in s.versions
    ensures Counted(Logged(s, files, good))
    ensures Live(Logged(s, files, good).versions) <= Live(s.versions) + files
  {
    hide CountedBy, Live, Holders;
    CurrentIsHeld(s, files);
    if good {
      InstallCounted(s.versions, Holders(s), s.current, s.nextVersion, files);
    } else {
      SameHolders(s, Logged(s, files, false));
    }
  }

  lemma ReleaseCounted(s: State)
    requires Counted(s) && !s.work.NoWork?
    ensures Counted(ReleaseWork(s)) && Live(ReleaseWork(s).versions) <= Live(s.versions)
  {
    assert Holders(ReleaseWork(s)) == Holders(s) - multiset{s.work.version};
    assert s.work.version in Holders(s);
    hide Holders, CountedBy, Live;
    UnrefCounted(s.versions, Holders(s), s.work.version);
  }

  // ---------- every step keeps the files ----------

  lemma QuietKeepsRest(s: State, step: Step)
    requires Rest(s) && Enabled(s, step) && Quiet(step) && Apply(s, step).versions == s.versions
    ensures Rest(Apply(s, step))
  {
  }

  lemma TakesKeepsRest(s: State, step: Step)
    requires Rest(s) && Enabled(s, step) && Takes(step) && Live(Apply(s, step).versions) == Live(s.versions)
    ensures Rest(Apply(s, step))
  {
  }

  lemma UnpinKeepsRest(s: State, v: nat)
    requires Rest(s) && Enabled(s, Unpin(v)) && Live(Apply(s, Unpin(v)).versions) <= Live(s.versions)
    ensures Rest(Apply(s, Unpin(v)))
  {
    hide OpeningEnabled, OpeningApply, Unref, Live;
  }

  lemma EndBuildKeepsRest(s: State, good: bool, wrote: bool)
    requires Rest(s) && Enabled(s, EndBuild(good, wrote))
    requires Live(Apply(s, EndBuild(good, wrote)).versions) <= Live(s.versions)
    ensures Rest(Apply(s, EndBuild(good, wrote)))
  {
  }

  /** Deleting what no version lists and nobody is writing keeps every table still needed, unless
      a built table waits between the pending set and the version list. */
  lemma CollectKeepsRest(s: State)
    requires Rest(s) && s.opening.Opened? && (s.bgError || Unlisted(s.flush) == {})
    ensures Rest(Collect(s))
  {
  }

  lemma HeldSame(s: State, t: State)
    requires t.readers == s.readers && t.current == s.current && t.work == s.work && FlushHolds(t.flush) == FlushHolds(s.flush)
    ensures Holders(t) == Holders(s)
    ensures t.versions == s.versions && t.nextVersion == s.nextVersion && Counted(s) ==> Counted(t)
  {
  }

  /** The flush's edit is in the manifest, or has failed. */
  predicate FlushEnded(s: State, u: State, good: bool) {
    && u == s.(flush := NoFlush, versions := u.versions, current := u.current, nextVersion := u.nextVersion,
               logNumber := if good then s.logfile else s.logNumber, imm := if good then None else s.imm,
               bgError := s.bgError || !good, unsure := u.unsure, unsureLog := if good then s.unsureLog else Some(s.logfile))
    && Live(u.versions) <= Live(s.versions) + Unlisted(s.flush)
    && u.unsure <= (if good then s.unsure else s.unsure + Unlisted(s.flush))
  }

  lemma FlushEndedRest(s: State, u: State, good: bool)
    requires Rest(s) && s.opening.Opened? && s.flush.Built? && FlushEnded(s, u, good)
    ensures Rest(u)
  {
    hide Live;
    forall t | t in Live(u.versions) + u.unsure ensures t in Live(s.versions) + Unlisted(s.flush) + s.unsure {
    }
    assert Unlisted(u.flush) == {};
  }

  lemma FlushEnds(s: State, good: bool) returns (u: State)
    requires Inv(s) && Enabled(s, InstallFlush(good))
    ensures FlushEnded(s, u, good) && Counted(u)
    ensures Apply(s, InstallFlush(good)) == if good then Collect(u) else u
  {
    hide Rest, Holders, CountedBy, Collect;
    var t := s.(flush := NoFlush);
    var files := s.versions[s.current].files + Unlisted(s.flush);
    HeldSame(s, t);
    LoggedCounted(t, files, good);
    CurrentIsLive(s);
    hide Counted, Live;
    var l := Logged(t, files, good);
    u := if good then l.(logNumber := s.logfile, imm := None) else l.(unsureLog := Some(s.logfile));
    HeldSame(l, u);
  }

  lemma InstallFlushKeepsInv(s: State, good: bool)
    requires Inv(s) && Enabled(s, InstallFlush(good))
    ensures Inv(Apply(s, InstallFlush(good)))
  {
    hide Rest, Counted, Collect, WorkApply, FlushEnded;
    var u := FlushEnds(s, good);
    FlushEndedRest(s, u, good);
    if good {
      StillOpened(s, u, good);
      CollectKeepsRest(u);
      CollectCounted(u);
    }
  }

  lemma StillOpened(s: State, u: State, good: bool)
    requires FlushEnded(s, u, good)
    ensures u.opening == s.opening && Unlisted(u.flush) == {}
  {
    hide Live;
  }

  /** Everything but the versions, the pending set and the finished work stays. */
  predicate Finished(s: State, u: State) {
    && u.tables == s.tables && u.logs == s.logs && u.logfile == s.logfile && u.logNumber == s.logNumber
    && u.descriptors == s.descriptors && u.temps == s.temps && u.manifest == s.manifest && u.opening.Opened?
    && u.manifestNumber == s.manifestNumber && s.opening.Opened? && u.unsureLog == s.unsureLog
    && u.unsure <= s.unsure + Created(s.work) && (u.unsure != {} ==> u.bgError) && (s.bgError ==> u.bgError)
    && u.imm == s.imm && u.nextFile == s.nextFile && u.pending <= s.pending
    && u.work.NoWork? && u.flush.NoFlush?
    && Live(u.versions) <= Live(s.versions) + Created(s.work)
  }

  lemma FinishedRest(s: State, u: State)
    requires Rest(s) && Finished(s, u)
    ensures Rest(u)
  {
    hide Live;
    forall t | t in Live(u.versions) + u.unsure ensures t in Live(s.versions) + Created(s.work) + s.unsure {
    }
    assert forall t :: t in Created(s.work) ==> t in s.pending;
  }

  lemma CompactionEnds(s: State, good: bool) returns (u: State)
    requires Inv(s) && Enabled(s, FinishCompaction(good))
    ensures Finished(s, u) && Counted(u) && Apply(s, FinishCompaction(good)) == Collect(u)
  {
    hide Holders, CountedBy, Collect, LogsSafe, ManifestSafe;
    var t := s.(pending := s.pending - s.work.outputs);
    var files := s.versions[s.current].files - s.work.inputs + s.work.outputs;
    SameHolders(s, t);
    LoggedCounted(t, files, good);
    CurrentIsLive(s);
    ReleaseCounted(Logged(t, files, good));
    hide Counted, Live;
    u := ReleaseWork(Logged(t, files, good));
  }

  lemma FinishCompactionKeepsInv(s: State, good: bool)
    requires Inv(s) && Enabled(s, FinishCompaction(good))
    ensures Inv(Apply(s, FinishCompaction(good)))
  {
    hide Rest, Counted, Collect, WorkApply, Live;
    var u := CompactionEnds(s, good);
    FinishedRest(s, u);
    CollectCounted(u);
    CollectKeepsRest(u);
  }

  lemma CollectCounted(s: State)
    requires Counted(s)
    ensures Counted(Collect(s))
  {
    assert Holders(Collect(s)) == Holders(s);
  }

  lemma SameHolders(s: State, t: State)
    requires t == s.(bgError := t.bgError, pending := t.pending, unsure := t.unsure)
    ensures Holders(t) == Holders(s)
  {
  }

  lemma AbandonKeepsInv(s: State)
    requires Inv(s) && Enabled(s, AbandonCompaction)
    ensures Inv(Apply(s, AbandonCompaction))
  {
    hide Holders, Live, CountedBy;
    var t := s.(bgError := true, pending := s.pending - s.work.outputs);
    SameHolders(s, t);
    ReleaseCounted(t);
  }

  lemma MoveEnds(s: State, good: bool)
    requires Inv(s) && Enabled(s, FinishMove(good))
    ensures Finished(s, Apply(s, FinishMove(good))) && Counted(Apply(s, FinishMove(good)))
  {
    hide Holders, CountedBy, LogsSafe, ManifestSafe, NumbersFresh;
    LoggedCounted(s, s.versions[s.current].files, good);
    CurrentIsLive(s);
    ReleaseCounted(Logged(s, s.versions[s.current].files, good));
    hide Counted, Live;
  }

  lemma FinishMoveKeepsInv(s: State, good: bool)
    requires Inv(s) && Enabled(s, FinishMove(good))
    ensures Inv(Apply(s, FinishMove(good)))
  {
    hide Rest, Counted, Finished, Apply;
    MoveEnds(s, good);
    FinishedRest(s, Apply(s, FinishMove(good)));
  }

  /** The steps of an opening before its last. */
  predicate Early(step: Step) {
    || step.RecoverTable? || step.OpenLog? || step.CreateManifest? || step.WriteTemp?
    || step == RenameCurrent(false) || (step.KeepManifest? && !step.good)
  }

  lemma OpeningKeepsCounted(s: State, step: Step)
    requires Counted(s) && Enabled(s, step) && Early(step)
    ensures Counted(Apply(s, step)) && Apply(s, step).versions == s.versions
  {
    hide Live, CountedBy, Holders, WorkEnabled, WorkApply;
    HeldSame(s, Apply(s, step));
  }

  lemma OpeningKeepsRest(s: State, step: Step)
    requires Rest(s) && Enabled(s, step) && Early(step) && Apply(s, step).versions == s.versions
    ensures Rest(Apply(s, step))
  {
    hide Live, WorkEnabled, WorkApply;
    var t := Apply(s, step);
    match step
    case RecoverTable =>
      assert Recovered(t.opening) == Recovered(s.opening) + {s.nextFile};
    case KeepManifest(_, _) => assert t.unsure == Recovered(s.opening);
    case _ =>
  }

  lemma OpeningKeepsInv(s: State, step: Step)
    requires Inv(s) && Enabled(s, step) && Early(step)
    ensures Inv(Apply(s, step))
  {
    hide Rest, Counted, Apply, Enabled;
    OpeningKeepsCounted(s, step);
    OpeningKeepsRest(s, step);
  }

  lemma OneVersion(t: State, files: set<nat>)
    requires t.versions == map[0 := Held(files, 1)] && t.current == 0 && t.readers == multiset{} && t.nextVersion == 1
    requires t.work.NoWork? && t.flush.NoFlush?
    ensures Live(t.versions) == files && Counted(t)
  {
    forall f | f in files ensures f in Live(t.versions) {
      assert f in t.versions[0].files;
    }
    assert Holders(t) == multiset{0};
  }

  lemma CrashFindsTables(s: State, files: set<nat>, minLog: nat)
    requires Rest(s) && s.current in s.versions && ReadBack(s, files, minLog)
    ensures files <= s.tables
  {
    hide LogsSafe, ManifestSafe, NumbersFresh, Phases;
    CurrentIsLive(s);
  }

  lemma CrashFindsLogs(s: State, files: set<nat>, minLog: nat)
    requires LogsSafe(s) && s.current in s.versions && ReadBack(s, files, minLog)
    ensures exists l :: l in s.logs && l >= minLog
  {
    match s.opening
    case Opened => assert s.logfile in s.logs;
    case Underway(_, replay, _, log, _) =>
      if minLog == s.logNumber {
        var l :| l in replay;
        assert l in s.logs;
      } else {
        assert minLog in s.logs;
      }
  }

  /** A crash leaves the tables and logs that the next opening reads, whatever edits it finds in the manifest. */
  lemma CrashKeepsInv(s: State, files: set<nat>, minLog: nat, number: nat, nextFile: nat)
    requires Inv(s) && Enabled(s, Crash(files, minLog, number, nextFile))
    ensures Inv(Crashed(s, files, minLog, number, nextFile))
  {
    CrashFindsTables(s, files, minLog);
    CrashFindsLogs(s, files, minLog);
    var t := Crashed(s, files, minLog, number, nextFile);
    OneVersion(t, files);
    hide Counted, Live, Holders, ReadBack, TablesSafe, LogsSafe, NumbersFresh, Phases;
    var l :| l in s.logs && l >= minLog;
    assert l in t.opening.replay;
    CrashedRest(s, t, files, minLog, number, nextFile);
  }

  lemma CrashedRest(s: State, t: State, files: set<nat>, minLog: nat, number: nat, nextFile: nat)
    requires t == Crashed(s, files, minLog, number, nextFile) && Live(t.versions) == files && files <= s.tables
    requires t.opening.replay != {} && s.manifest in s.descriptors && s.manifest < number < nextFile
    requires forall f :: f in files ==> f < number
    requires forall l :: l in s.logs && l >= minLog ==> l < nextFile
    ensures Rest(t)
  {
    hide Live;
  }

  lemma CrashedIs(s: State, step: Step)
    requires Enabled(s, step) && step.Crash?
    ensures Apply(s, step) == Crashed(s, step.files, step.minLog, step.number, step.nextFile)
  {
  }

  lemma ReadyInstalls(s: State, saved: bool) returns (u: State)
    requires Counted(s) && s.opening.Underway? && s.opening.log.Some? && s.current in s.versions
    ensures Counted(u) && Ready(s, saved) == Collect(u)
    ensures u == s.(logfile := s.opening.log.value, opening := Opened, versions := u.versions, current := u.current,
                    nextVersion := u.nextVersion, logNumber := if saved then s.opening.log.value else s.logNumber)
    ensures Live(u.versions) <= Live(s.versions) + if saved then s.opening.recovered else {}
  {
    hide Live, CountedBy;
    var t := s.(logfile := s.opening.log.value, opening := Opened);
    var files := s.versions[s.current].files + s.opening.recovered;
    HeldSame(s, t);
    CurrentIsLive(s);
    hide Counted, Holders;
    LoggedCounted(t, files, true);
    u := if saved then Installed(t, files).(logNumber := s.opening.log.value) else t;
    HeldSame(if saved then Installed(t, files) else t, u);
  }

  lemma ReadyRest(s: State, u: State, saved: bool)
    requires s.opening.Underway? && s.opening.log.Some? && (!saved ==> s.opening.recovered == {})
    requires TablesSafe(s) && LogsSafe(s) && NumbersFresh(s) && Phases(s)
    requires s.manifest in s.descriptors && s.manifestNumber == s.manifest && s.unsure == {} && s.unsureLog.None?
    requires u == s.(logfile := s.opening.log.value, opening := Opened, versions := u.versions, current := u.current,
                     nextVersion := u.nextVersion, logNumber := if saved then s.opening.log.value else s.logNumber)
    requires Live(u.versions) <= Live(s.versions) + if saved then s.opening.recovered else {}
    ensures Rest(u) && u.opening.Opened? && Unlisted(u.flush) == {}
  {
    hide Live;
    forall t | t in Live(u.versions) ensures t in Live(s.versions) + Recovered(s.opening) {
    }
  }

  lemma ReadyKeepsInv(s: State, saved: bool)
    requires Counted(s) && s.opening.Underway? && s.opening.log.Some? && s.current in s.versions
    requires TablesSafe(s) && LogsSafe(s) && NumbersFresh(s) && Phases(s) && (!saved ==> s.opening.recovered == {})
    requires s.manifest in s.descriptors && s.manifestNumber == s.manifest && s.unsure == {} && s.unsureLog.None?
    ensures Inv(Ready(s, saved))
  {
    hide Live, Rest, Counted, TablesSafe, LogsSafe, NumbersFresh, Phases, Ready, Collect;
    var u := ReadyInstalls(s, saved);
    ReadyRest(s, u, saved);
    CollectKeepsRest(u);
    CollectCounted(u);
  }

  lemma RenameKeepsInv(s: State)
    requires Inv(s) && Enabled(s, RenameCurrent(true))
    ensures Inv(Apply(s, RenameCurrent(true)))
  {
    var t := s.(temps := s.temps - {s.opening.number}, manifest := s.opening.number);
    assert Holders(t) == Holders(s);
    ReadyKeepsInv(t, true);
  }

  lemma KeepManifestKeepsInv(s: State, saved: bool)
    requires Inv(s) && Enabled(s, KeepManifest(saved, true))
    ensures Inv(Apply(s, KeepManifest(saved, true)))
  {
    var t := s.(manifestNumber := s.manifest);
    assert Holders(t) == Holders(s);
    ReadyKeepsInv(t, saved);
  }

  /** In every reachable state each table of a listed version, each finished output of a running
      compaction and the table being flushed is on disk, and so is each log not yet flushed; and so, after a crash, is what the
      next opening reads: the manifest CURRENT names, its tables and the logs to replay. */
  lemma StepKeepsInv(s: State, step: Step)
    requires Inv(s) && Enabled(s, step)
    ensures Inv(Apply(s, step))
  {
    hide Counted, Rest, OpeningApply, OpeningEnabled, WorkEnabled, WorkApply;
    if OfOpening(step) {
      match step
      case Crash(files, minLog, number, nextFile) => CrashedIs(s, step); CrashKeepsInv(s, files, minLog, number, nextFile);
      case RenameCurrent(good) => if good { RenameKeepsInv(s); } else { OpeningKeepsInv(s, step); }
      case KeepManifest(saved, good) => if good { KeepManifestKeepsInv(s, saved); } else { OpeningKeepsInv(s, step); }
      case _ => OpeningKeepsInv(s, step);
    } else if Quiet(step) {
      QuietCounted(s, step);
      QuietKeepsRest(s, step);
    } else if Takes(step) {
      TakesCounted(s, step);
      TakesKeepsRest(s, step);
    } else {
      match step
      case Unpin(v) =>
        UnpinCounted(s, v);
        UnpinKeepsRest(s, v);
      case EndBuild(good, wrote) =>
        EndBuildCounted(s, good, wrote);
        EndBuildKeepsRest(s, good, wrote);
      case InstallFlush(good) => InstallFlushKeepsInv(s, good);
      case FinishCompaction(good) => FinishCompactionKeepsInv(s, good);
      case AbandonCompaction => AbandonKeepsInv(s);
      case FinishMove(good) => FinishMoveKeepsInv(s, good);
      case _ =>
    }
  }

  predicate Run(s: State, steps: seq<Step>)
    decreases |steps|
  {
    steps == [] || (Enabled(s, steps[0]) && Run(Apply(s, steps[0]), steps[1..]))
  }

  function After(s: State, steps: seq<Step>): State
    requires Run(s, steps)
    decreases |steps|
  {
    if steps == [] then s else After(Apply(s, steps[0]), steps[1..])
  }

  lemma {:induction false} RunKeepsFiles(s: State, steps: seq<Step>)
    requires Inv(s) && Run(s, steps)
    ensures Inv(After(s, steps))
    decreases |steps|
  {
    if steps != [] {
      StepKeepsInv(s, steps[0]);
      RunKeepsFiles(Apply(s, steps[0]), steps[1..]);
    }
  }

  /** A reader's version stays listed, with all its tables on disk, for as long as it is held. */
  lemma ReadersKeepTheirTables(s: State, steps: seq<Step>, v: nat, t: nat)
    requires Inv(s) && Run(s, steps) && v in After(s, steps).readers
    ensures v in After(s, steps).versions
    ensures t in After(s, steps).versions[v].files ==> t in After(s, steps).tables
  {
    RunKeepsFiles(s, steps);
    assert v in Holders(After(s, steps));
  }

  /** Collecting at an arbitrary moment is safe exactly when the store is open and no built table is between the pending
      set and the version list; in the middle of an opening it would delete the manifest. One background call at a time
      keeps it so: it collects only after its own edit. */
  lemma CollectSafeIff(s: State)
    requires Inv(s)
    ensures Inv(Collect(s)) <==> s.bgError || (s.opening.Opened? && Unlisted(s.flush) == {})
  {
    assert Holders(Collect(s)) == Holders(s);
    if s.opening.Underway? {
      assert s.manifest !in Collect(s).descriptors;
    } else if s.bgError || Unlisted(s.flush) == {} {
      CollectKeepsRest(s);
    } else {
      assert s.flush.table.value in Unlisted(s.flush);
      assert s.flush.table.value !in Collect(s).tables;
    }
  }

  /** After a flush, a compaction or an opening without error, no deletable file is left. */
  predicate Clean(s: State) {
    && (forall t :: t in s.tables ==> t in s.pending || t in Live(s.versions))
    && (forall t :: t in s.temps ==> t in s.pending || t in Live(s.versions))
    && (forall l :: l in s.logs ==> l >= s.logNumber)
    && (forall m :: m in s.descriptors ==> m >= s.manifest)
  }

  lemma BackgroundWorkLeavesNoGarbage(s: State, step: Step)
    requires Inv(s) && Enabled(s, step) && !s.bgError
    requires step == InstallFlush(true) || step == FinishCompaction(true) || step == RenameCurrent(true)
             || (step.KeepManifest? && step.good)
    ensures Clean(Apply(s, step))
  {
    hide Counted, TablesSafe, LogsSafe, NumbersFresh;
  }

  /** A store just opened: one version, one log, one manifest. */
  lemma OpenedIsSafe(tables: set<nat>, files: set<nat>, log: nat, manifest: nat, nextFile: nat)
    requires files <= tables && log < nextFile && forall t :: t in files ==> t < nextFile
    ensures Inv(State(tables, {log}, {manifest}, {}, manifest, manifest, Opened, {}, None, map[0 := Held(files, 1)], 0,
                      multiset{}, 1, {}, nextFile, log, log, None, false, NoFlush, NoWork))
  {
    var s := State(tables, {log}, {manifest}, {}, manifest, manifest, Opened, {}, None, map[0 := Held(files, 1)], 0,
                   multiset{}, 1, {}, nextFile, log, log, None, false, NoFlush, NoWork);
    forall t | t in files ensures t in Live(s.versions) {
      assert t in s.versions[0].files;
    }
    assert Holders(s) == multiset{0};
  }
}

/** The sweep over the directory. */
module FileCollection {
  import opened InternalKeys
  import FileLifetimes

  datatype FileName =
    | LogFile(number: nat)
    | DescriptorFile(number: nat)
    | TableFile(number: nat, legacySuffix: bool)
    | TempFile(number: nat)
    | CurrentFile
    | LockFile
    | InfoLogFile
    | Unowned(name: string)

  /** What a sweep leaves of a directory: logs from the log number on and the previous one, manifests from the version
      set's on, live tables and temporary files, and every other file. */
  ghost predicate Swept(dir: set<FileName>, dir': set<FileName>, live: set<nat>, logNumber: nat, prevLogNumber: nat,
                        manifestNumber: nat) {
    && dir' <= dir
    && (forall n: nat :: LogFile(n) in dir ==> (LogFile(n) in dir' <==> n >= logNumber || n == prevLogNumber))
    && (forall n: nat :: DescriptorFile(n) in dir ==> (DescriptorFile(n) in dir' <==> n >= manifestNumber))
    && (forall n: nat, legacy :: TableFile(n, legacy) in dir ==> (TableFile(n, legacy) in dir' <==> n in live))
    && (forall n: nat :: TempFile(n) in dir ==> (TempFile(n) in dir' <==> n in live))
    && (forall f :: f in dir && (f.CurrentFile? || f.LockFile? || f.InfoLogFile? || f.Unowned?) ==> f in dir')
  }

  function LevelNumbers(level: seq<nat>): set<nat> {
    set n | n in level
  }

  function VersionNumbers(version: seq<seq<nat>>): set<nat> {
    set level, n | level in version && n in level :: n
  }

  function ListedNumbers(versions: seq<seq<seq<nat>>>): set<nat> {
    set version, level, n | version in versions && level in version && n in level :: n
  }

  class FileCollector {
    var dir: set<FileName>
    var tableCache: set<nat>
    var pendingOutputs: set<nat>
    var versions: seq<seq<seq<nat>>>
    var logNumber: nat
    var prevLogNumber: nat
    var manifestFileNumber: nat
    var bgError: bool

    predicate Keep(f: FileName, live: set<nat>)
      reads this
    {
      match f
      case LogFile(n) => n >= logNumber || n == prevLogNumber
      case DescriptorFile(n) => n >= manifestFileNumber
      case TableFile(n, _) => n in live
      case TempFile(n) => n in live
      case _ => true
    }

    method AddLiveFiles(live: set<nat>) returns (all: set<nat>)
      ensures all == live + ListedNumbers(versions)
    {
      all := live;
      for v := 0 to |versions|
        invariant all == live + ListedNumbers(versions[..v])
      {
        var version := versions[v];
        ghost var before := all;
        for level := 0 to |version|
          invariant all == before + VersionNumbers(version[..level])
        {
          ghost var shallower := all;
          var files := version[level];
          for i := 0 to |files|
            invariant all == shallower + LevelNumbers(files[..i])
          {
            all := all + {files[i]};
          }
          assert files[..|files|] == files;
          OneMoreLevel(version, level);
        }
        assert version[..|version|] == version;
        OneMoreVersion(versions, v);
      }
      assert versions[..|versions|] == versions;
    }

    /** Removes from the directory exactly the files nothing needs any more. */
    method DeleteObsoleteFiles(children: seq<FileName>)
      requires forall f :: f in children <==> f in dir
      modifies this`dir, this`tableCache
      ensures bgError ==> dir == old(dir) && tableCache == old(tableCache)
      ensures !bgError ==>
                Swept(old(dir), dir, pendingOutputs + ListedNumbers(versions), logNumber, prevLogNumber, manifestFileNumber)
      ensures forall n :: n in old(tableCache) && n !in tableCache ==>
                n !in pendingOutputs + ListedNumbers(versions)
    {
      if bgError {
        return;
      }
      var live := AddLiveFiles(pendingOutputs);
      ghost var start := dir;
      for i := 0 to |children|
        invariant dir == set f | f in start && (f in children[..i] ==> Keep(f, live))
        invariant forall n :: n in old(tableCache) && n !in tableCache ==> n !in live
      {
        var f := children[i];
        if !Keep(f, live) {
          if f.TableFile? {
            tableCache := tableCache - {f.number};
          }
          dir := dir - {f};
        }
        assert children[..i + 1] == children[..i] + [f];
      }
      assert children[..|children|] == children;
    }
  }

  lemma OneMoreLevel(version: seq<seq<nat>>, l: nat)
    requires l < |version|
    ensures VersionNumbers(version[..l + 1]) == VersionNumbers(version[..l]) + LevelNumbers(version[l])
  {
    assert version[..l + 1] == version[..l] + [version[l]];
  }

  lemma OneMoreVersion(versions: seq<seq<seq<nat>>>, v: nat)
    requires v < |versions|
    ensures ListedNumbers(versions[..v + 1]) == ListedNumbers(versions[..v]) + VersionNumbers(versions[v])
  {
    assert versions[..v + 1] == versions[..v] + [versions[v]];
  }

  function TablesIn(dir: set<FileName>): set<nat> {
    set f | f in dir && f.TableFile? :: f.number
  }

  function LogsIn(dir: set<FileName>): set<nat> {
    set f | f in dir && f.LogFile? :: f.number
  }

  function DescriptorsIn(dir: set<FileName>): set<nat> {
    set f | f in dir && f.DescriptorFile? :: f.number
  }

  function TempsIn(dir: set<FileName>): set<nat> {
    set f | f in dir && f.TempFile? :: f.number
  }

  /** The directory of a store in that state. */
  predicate Shows(dir: set<FileName>, s: FileLifetimes.State) {
    && TablesIn(dir) == s.tables && LogsIn(dir) == s.logs && DescriptorsIn(dir) == s.descriptors && TempsIn(dir) == s.temps
    && CurrentFile in dir && LockFile in dir
  }

  /** The sweep is the collection of the state machine, for a store whose previous log number has
      been zero since it was opened. */
  lemma SweepIsCollect(c: FileCollector, dir: set<FileName>, dir': set<FileName>, s: FileLifetimes.State)
    requires Shows(dir, s) && !s.bgError
    requires c.pendingOutputs == s.pending && ListedNumbers(c.versions) == FileLifetimes.Live(s.versions)
    requires c.logNumber == s.logNumber && c.prevLogNumber == 0 && 0 !in s.logs && c.manifestFileNumber == s.manifestNumber
    requires Swept(dir, dir', c.pendingOutputs + ListedNumbers(c.versions), c.logNumber, c.prevLogNumber, c.manifestFileNumber)
    ensures Shows(dir', FileLifetimes.Collect(s))
  {
    var live, k := c.pendingOutputs + ListedNumbers(c.versions), FileLifetimes.Collect(s);
    forall t | t in k.tables ensures t in TablesIn(dir') {
      var f :| f in dir && f.TableFile? && f.number == t;
      assert TableFile(t, f.legacySuffix) in dir';
    }
    forall t | t in k.temps ensures t in TempsIn(dir') {
      assert TempFile(t) in dir';
    }
    forall l | l in k.logs ensures l in LogsIn(dir') {
      assert LogFile(l) in dir';
    }
    forall m | m in k.descriptors ensures m in DescriptorsIn(dir') {
      assert DescriptorFile(m) in dir';
    }
    forall f | f in dir'
      ensures f.TableFile? ==> f.number in k.tables
      ensures f.TempFile? ==> f.number in k.temps
      ensures f.LogFile? ==> f.number in k.logs
      ensures f.DescriptorFile? ==> f.number in k.descriptors
    {
      if f.TableFile? {
        assert f == TableFile(f.number, f.legacySuffix);
        assert f.number in TablesIn(dir);
      } else if f.TempFile? {
        assert f == TempFile(f.number);
        assert f.number in TempsIn(dir);
      } else if f.LogFile? {
        assert f == LogFile(f.number);
        assert f.number in LogsIn(dir);
      } else if f.DescriptorFile? {
        assert f == DescriptorFile(f.number);
        assert f.number in DescriptorsIn(dir);
      }
    }
  }

  /** In the directory of any reachable state stand CURRENT, LOCK, the manifest that CURRENT names, and every table of the
      version that recovery reads from it. */
  lemma ManifestIsThere(s: FileLifetimes.State, steps: seq<FileLifetimes.Step>, dir: set<FileName>)
    requires FileLifetimes.Inv(s) && FileLifetimes.Run(s, steps) && Shows(dir, FileLifetimes.After(s, steps))
    ensures var end := FileLifetimes.After(s, steps);
            && CurrentFile in dir && LockFile in dir && DescriptorFile(end.manifest) in dir && end.current in end.versions
            && forall t :: t in end.versions[end.current].files ==> t in TablesIn(dir)
  {
    FileLifetimes.RunKeepsFiles(s, steps);
    var end := FileLifetimes.After(s, steps);
    FileLifetimes.CurrentIsHeld(end, {});
    FileLifetimes.CurrentIsLive(end);
    assert end.manifest in DescriptorsIn(dir);
  }

  /** A sweep of an open store, outside the gap in which a flushed table is unprotected, leaves it as safe as it was; older
      manifests are gone, and temporary files that are not pending. */
  lemma SweptIsSafe(c: FileCollector, dir: set<FileName>, dir': set<FileName>, s: FileLifetimes.State)
    requires FileLifetimes.Inv(s) && s.opening.Opened? && FileLifetimes.Unlisted(s.flush) == {} && Shows(dir, s) && !s.bgError
    requires c.pendingOutputs == s.pending && ListedNumbers(c.versions) == FileLifetimes.Live(s.versions)
    requires c.logNumber == s.logNumber && c.prevLogNumber == 0 && 0 !in s.logs && c.manifestFileNumber == s.manifestNumber
    requires Swept(dir, dir', c.pendingOutputs + ListedNumbers(c.versions), c.logNumber, c.prevLogNumber, c.manifestFileNumber)
    ensures FileLifetimes.Inv(FileLifetimes.Collect(s)) && Shows(dir', FileLifetimes.Collect(s))
    ensures CurrentFile in dir' && LockFile in dir' && DescriptorFile(s.manifest) in dir'
    ensures forall m: nat :: DescriptorFile(m) in dir' ==> m >= s.manifest
    ensures forall t: nat :: TempFile(t) in dir' ==> t in s.pending + FileLifetimes.Live(s.versions)
  {
    SweepIsCollect(c, dir, dir', s);
    FileLifetimes.CollectSafeIff(s);
    hide FileLifetimes.Counted, FileLifetimes.TablesSafe, FileLifetimes.LogsSafe, FileLifetimes.NumbersFresh;
    assert s.manifest in DescriptorsIn(dir);
  }
}
