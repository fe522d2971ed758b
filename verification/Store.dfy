/** The store as a state machine: memtable, immutable memtable, seven levels,
    snapshots and one background compaction (db/db_impl.cc, db/version_set.cc). */
module Store {
  import opened InternalKeys
  import opened FlatSpec
  import opened Versions
  import opened CompactionRules
  import opened CompactionInputs

  datatype Op = PutOp(key: UserKey, value: UserValue) | DeleteOp(key: UserKey)

  /** Consecutive sequence numbers for a batch, starting at `first`. */
  function Stamp(ops: seq<Op>, first: nat): (es: seq<Entry>)
    ensures |es| == |ops|
    ensures forall i :: 0 <= i < |es| ==> es[i].ikey.seqno == first + i
  {
    seq(|ops|, i requires 0 <= i < |ops| =>
      match ops[i]
      case PutOp(k, v) => Entry(InternalKey(k, first + i, Value), v)
      case DeleteOp(k) => Entry(InternalKey(k, first + i, Deletion), ""))
  }

  /** A compaction between choosing its inputs and installing its outputs; `arrived` are the tables
      flushed into its output level meanwhile. */
  datatype Pending = Pending(level: nat, in0: set<File>, in1: set<File>, smallest: nat, deeper: set<File>,
                             arrived: set<File> := {})

  /** `hist` is every entry ever committed, in order, with gaps where a write failed after taking its
      numbers; the memtable holds its part from
      `memStart` on, the immutable memtable the part between `flushed` and `memStart`.
      Reads below `floor` are no longer answerable: no snapshot is that old. */
  datatype State = State(
    hist: seq<Entry>, flushed: nat, memStart: nat,
    mem: set<Entry>, imm: Option<set<Entry>>,
    levels: seq<set<File>>,
    lastSeq: nat, snaps: seq<nat>, floor: nat,
    nextFile: nat, pending: Option<Pending>)

  function FileEntries(levels: seq<set<File>>): set<Entry> {
    set l, f, e | 0 <= l < |levels| && f in levels[l] && e in f.entries :: e
  }

  function Deeper(levels: seq<set<File>>, level: nat): set<File> {
    set l, f | level + 2 <= l < |levels| && f in levels[l] :: f
  }

  function ImmEntries(st: State): set<Entry> {
    if st.imm.Some? then st.imm.value else {}
  }

  /** Every entry a read can reach. */
  function All(st: State): set<Entry> {
    st.mem + ImmEntries(st) + FileEntries(st.levels)
  }

  // ---------- well-formed states ----------

  predicate Numbered(hist: seq<Entry>) {
    && (forall i :: 0 <= i < |hist| ==> hist[i].ikey.seqno > 0)
    && (forall i, j :: 0 <= i < j < |hist| ==> hist[i].ikey.seqno < hist[j].ikey.seqno)
  }

  predicate NumberedUpTo(hist: seq<Entry>, last: nat) {
    forall i :: 0 <= i < |hist| ==> hist[i].ikey.seqno <= last
  }

  ghost predicate LevelDisjoint(fs: set<File>) {
    forall f, g :: f in fs && g in fs && f != g ==> Less(Largest(f), Smallest(g)) || Less(Largest(g), Smallest(f))
  }

  ghost predicate WfLevelSets(levels: seq<set<File>>) {
    && |levels| == NUM_LEVELS
    && NumberOrdered(levels[0])
    && (forall l :: 0 < l < |levels| ==> LevelDisjoint(levels[l]))
    && (forall l, m :: 0 <= l < m < |levels| ==> NewerThan(Contents(levels[l]), Contents(levels[m])))
  }

  ghost predicate FilesFrom(levels: seq<set<File>>, written: set<Entry>, nextFile: nat) {
    forall l, f :: 0 <= l < |levels| && f in levels[l] ==> f.number < nextFile && Elems(f.entries) <= written
  }

  predicate WfMemory(st: State) {
    && Numbered(st.hist) && NumberedUpTo(st.hist, st.lastSeq) && st.lastSeq < MAX_SEQUENCE_NUMBER
    && st.flushed <= st.memStart <= |st.hist|
    && st.mem == Elems(st.hist[st.memStart..])
    && (if st.imm.Some? then st.imm.value == Elems(st.hist[st.flushed..st.memStart]) else st.flushed == st.memStart)
  }

  predicate WfSnapshots(st: State) {
    && st.floor <= st.lastSeq
    && (forall i :: 0 <= i < |st.snaps| ==> st.floor <= st.snaps[i] <= st.lastSeq)
    && (forall i, j :: 0 <= i < j < |st.snaps| ==> st.snaps[i] <= st.snaps[j])
  }

  ghost predicate WfPending(levels: seq<set<File>>, p: Pending)
    requires |levels| == NUM_LEVELS
  {
    && p.level + 1 < |levels|
    && p.in0 <= levels[p.level] && p.in1 <= levels[p.level + 1]
    && p.arrived <= levels[p.level + 1] && p.arrived !! p.in1
    && Selected(levels[p.level] - p.in0, p.in0, levels[p.level + 1] - p.in1 - p.arrived, p.in1)
    && p.deeper <= Deeper(levels, p.level)
    && Apart(p)
  }

  /** What arrived is newer than the inputs and overlaps none of them, though it may lie between two. */
  ghost predicate Apart(p: Pending) {
    && NewerThan(Contents(p.arrived), Inputs(p))
    && forall f, g :: f in p.arrived && g in p.in0 + p.in1 ==> RangesDisjoint(f, g)
  }

  ghost function Inputs(p: Pending): set<Entry> {
    Contents(p.in0) + Contents(p.in1)
  }

  /** A compaction under way may still be installed; tables flushed below its output level
      since it began are newer than its inputs; no snapshot is below its smallest. */
  ghost predicate Underway(st: State, p: Pending)
    requires |st.levels| == NUM_LEVELS
  {
    && WfPending(st.levels, p)
    && NewerThan(Contents(Deeper(st.levels, p.level) - p.deeper), Inputs(p))
    && st.floor <= p.smallest <= st.lastSeq
    && forall i :: 0 <= i < |st.snaps| ==> p.smallest <= st.snaps[i]
  }

  /** Well formed: memory is the unflushed end of the history and the levels are ordered. */
  ghost predicate Wf(st: State) {
    && WfMemory(st)
    && WfLevelSets(st.levels)
    && FilesFrom(st.levels, Elems(st.hist[..st.flushed]), st.nextFile)
    && WfSnapshots(st)
    && (st.pending.Some? ==> Underway(st, st.pending.value))
  }

  /** The store answers every read from the floor up as the flat history does. */
  ghost predicate Faithful(st: State) {
    ReadsAgree(All(st), Elems(st.hist), st.floor)
  }

  function SmallestSnapshot(st: State): nat {
    if st.snaps == [] then st.lastSeq else st.snaps[0]
  }

  // ---------- steps ----------

  datatype Step =
    | Write(ops: seq<Op>)
    | FailWrite(ops: seq<Op>)
    | Rotate
    | Flush(file: Option<File>, level: nat)
    | StartCompaction(at: nat, in0: set<File>, in1: set<File>)
    | FinishCompaction(outs: set<File>)
    | AbortCompaction
    | TrivialMove(from: nat, moved: File)
    | TakeSnapshot
    | ReleaseSnapshot(index: nat)

  /** Where the flushed table may go: level 0, or a level with no overlap down to it. */
  predicate NoOverlapTo(levels: seq<set<File>>, f: File, level: nat) {
    forall l, g :: 0 <= l <= level && l < |levels| && g in levels[l] ==> RangesDisjoint(f, g)
  }

  ghost function LevelsWithout(levels: seq<set<File>>, p: Pending): seq<set<File>>
    requires p.level + 1 < |levels|
  {
    levels[p.level := levels[p.level] - p.in0][p.level + 1 := levels[p.level + 1] - p.in1]
  }

  function Installed(levels: seq<set<File>>, p: Pending, outs: set<File>): seq<set<File>>
    requires p.level + 1 < |levels|
  {
    levels[p.level := levels[p.level] - p.in0][p.level + 1 := (levels[p.level + 1] - p.in1) + outs]
  }

  /** Everything outside the inputs of the pending compaction. */
  ghost function Outside(st: State, p: Pending): set<Entry>
    requires p.level + 1 < |st.levels|
  {
    st.mem + ImmEntries(st) + FileEntries(LevelsWithout(st.levels, p))
  }

  ghost predicate FlushEnabled(st: State, file: Option<File>, level: nat) {
    && st.imm.Some?
    && (file.None? <==> st.imm.value == {})
    && (file.Some? ==>
         && Elems(file.value.entries) == st.imm.value
         && file.value.number >= st.nextFile
         && level < |st.levels| && (level == 0 || NoOverlapTo(st.levels, file.value, level)))
  }

  /** The pending compaction after a flush beside it. */
  function WithArrival(pending: Option<Pending>, f: File, level: nat): Option<Pending> {
    if pending.Some? && level == pending.value.level + 1
    then Some(pending.value.(arrived := pending.value.arrived + {f}))
    else pending
  }

  ghost predicate FinishEnabled(st: State, outs: set<File>) {
    && st.pending.Some? && st.pending.value.level + 1 < |st.levels|
    && var p := st.pending.value;
    && Contents(outs) == Survivors(Inputs(p), p.smallest, p.deeper)
    && LevelDisjoint(outs)
    && (forall l, f, g :: 0 <= l < |st.levels| && g in st.levels[l] && f in outs ==> f.number != g.number)
  }

  ghost predicate Enabled(st: State, step: Step) {
    match step
    case Write(ops) => st.lastSeq + |ops| < MAX_SEQUENCE_NUMBER
    case FailWrite(ops) => st.lastSeq + |ops| < MAX_SEQUENCE_NUMBER
    case Rotate => st.imm.None?
    case Flush(file, level) => FlushEnabled(st, file, level)
    case StartCompaction(at, in0, in1) =>
      st.pending.None? && |st.levels| == NUM_LEVELS &&
      WfPending(st.levels, Pending(at, in0, in1, SmallestSnapshot(st), {}))
    case FinishCompaction(outs) => FinishEnabled(st, outs)
    case AbortCompaction => st.pending.Some?
    case TrivialMove(from, moved) =>
      st.pending.None? && |st.levels| == NUM_LEVELS && WfPending(st.levels, Pending(from, {moved}, {}, 0, {}))
    case TakeSnapshot => true
    case ReleaseSnapshot(index) => index < |st.snaps|
  }

  /** The table holds entries on both sides of the other one. */
  predicate Spans(o: File, f: File) {
    Smallest(o).user < Smallest(f).user && Largest(f).user < Largest(o).user
  }

  ghost predicate NoneSpans(outs: set<File>, arrived: set<File>) {
    forall o, f :: o in outs && f in arrived ==> !Spans(o, f)
  }

  /** The one step that can break a level, and exactly when it does. */
  ghost predicate Fits(st: State, step: Step) {
    step.FinishCompaction? ==> st.pending.Some? && NoneSpans(step.outs, st.pending.value.arrived)
  }

  ghost function Apply(st: State, step: Step): State
    requires Enabled(st, step)
  {
    match step
    case Write(ops) =>
      var es := Stamp(ops, st.lastSeq + 1);
      st.(hist := st.hist + es, mem := st.mem + Elems(es), lastSeq := st.lastSeq + |ops|)
    case FailWrite(ops) => st.(lastSeq := st.lastSeq + |ops|)
    case Rotate =>
      st.(imm := Some(st.mem), mem := {}, memStart := |st.hist|)
    case Flush(file, level) =>
      if file.None? then st.(imm := None, flushed := st.memStart)
      else st.(imm := None, flushed := st.memStart, nextFile := file.value.number + 1,
               levels := st.levels[level := st.levels[level] + {file.value}],
               pending := WithArrival(st.pending, file.value, level))
    case StartCompaction(at, in0, in1) =>
      st.(pending := Some(Pending(at, in0, in1, SmallestSnapshot(st), Deeper(st.levels, at))))
    case FinishCompaction(outs) =>
      var p := st.pending.value;
      st.(levels := Installed(st.levels, p, outs), floor := p.smallest,
          nextFile := NumberPast(outs, st.nextFile), pending := None)
    case AbortCompaction => st.(pending := None)
    case TrivialMove(from, moved) =>
      st.(levels := Installed(st.levels, Pending(from, {moved}, {}, 0, {}), {moved}))
    case TakeSnapshot => st.(snaps := st.snaps + [st.lastSeq])
    case ReleaseSnapshot(index) => st.(snaps := st.snaps[..index] + st.snaps[index+1..])
  }

  /** The file counter after numbering `outs`. */
  ghost function NumberPast(outs: set<File>, from: nat): (n: nat)
    ensures n >= from && forall f :: f in outs ==> f.number < n
  {
    if outs == {} then from
    else
      var f :| f in outs;
      var n := NumberPast(outs - {f}, from);
      if f.number < n then n else f.number + 1
  }
}
