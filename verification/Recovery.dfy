/** What is on disk while the store runs: the manifest's last word and the write-ahead logs
    (db/db_impl.cc, db/version_set.cc). */
module Durability {
  import opened InternalKeys
  import opened FlatSpec
  import opened Versions
  import opened CompactionRules
  import opened Store
  import opened StoreInvariants

  /** A log record: one write batch with the sequence number of its first operation. */
  datatype Batch = Batch(first: nat, ops: seq<Op>)

  /** `levels`, `logNumber`, `nextFile` and `lastSeq` are what replaying the manifest yields. */
  datatype Disk = Disk(levels: seq<set<File>>, logNumber: nat, nextFile: nat, lastSeq: nat, logs: map<nat, seq<Batch>>)

  /** The running store beside its disk: `current` is the log being written, `counter` the
      next file number, `inflight` a batch already logged and not yet in the memtable. */
  datatype Running = Running(st: State, disk: Disk, current: nat, counter: nat, inflight: Option<Batch>)

  function LogEntries(records: seq<Batch>): seq<Entry> {
    if records == [] then []
    else LogEntries(records[..|records|-1]) + Stamp(records[|records|-1].ops, records[|records|-1].first)
  }

  /** The first number free after a log, if `start` is free before it. */
  function NextNumber(records: seq<Batch>, start: nat): nat {
    if records == [] then start else records[|records|-1].first + |records[|records|-1].ops|
  }

  /** Batches numbered upwards from `start` on, with gaps where writes failed. */
  predicate Rising(records: seq<Batch>, start: nat) {
    records == [] ||
    (Rising(records[..|records|-1], start) && records[|records|-1].first >= NextNumber(records[..|records|-1], start))
  }

  /** Entries in the order of their numbers, all from `start` up to but not including `next`. */
  predicate Rises(es: seq<Entry>, start: nat, next: nat) {
    && (forall i :: 0 <= i < |es| ==> start <= es[i].ikey.seqno < next)
    && (forall i, j :: 0 <= i < j < |es| ==> es[i].ikey.seqno < es[j].ikey.seqno)
  }

  // ---------- logs in the order of their numbers ----------

  function MaxOf(ns: set<nat>): (m: nat)
    requires ns != {}
    ensures m in ns && forall n :: n in ns ==> n <= m
  {
    MaxExists(ns);
    var m :| m in ns && forall n :: n in ns ==> n <= m;
    m
  }

  lemma MaxExists(ns: set<nat>)
    requires ns != {}
    ensures exists m :: m in ns && forall n :: n in ns ==> n <= m
  {
    var n :| n in ns;
    if ns - {n} == {} {
      assert ns == {n};
    } else {
      MaxExists(ns - {n});
      var m :| m in ns - {n} && forall k :: k in ns - {n} ==> k <= m;
      var top := if m < n then n else m;
      forall k | k in ns ensures k <= top {
        assert k == n || k in ns - {n};
      }
      assert top in ns;
    }
  }

  function Ascending(ns: set<nat>): (s: seq<nat>)
    ensures forall n :: n in s <==> n in ns
    ensures forall i, j :: 0 <= i < j < |s| ==> s[i] < s[j]
  {
    if ns == {} then [] else Ascending(ns - {MaxOf(ns)}) + [MaxOf(ns)]
  }

  lemma AscendingMax(ns: set<nat>, m: nat)
    requires forall n :: n in ns ==> n < m
    ensures Ascending(ns + {m}) == Ascending(ns) + [m]
  {
    assert MaxOf(ns + {m}) == m;
    assert ns + {m} - {m} == ns;
  }

  function LiveNumbers(d: Disk): set<nat> {
    set n | n in d.logs && n >= d.logNumber
  }

  /** The logs recovery reads, oldest first. */
  function LiveLogs(d: Disk): seq<nat> {
    Ascending(LiveNumbers(d))
  }

  function Replayed(logs: map<nat, seq<Batch>>, nums: seq<nat>): seq<Entry>
    requires forall n :: n in nums ==> n in logs
  {
    if nums == [] then [] else Replayed(logs, nums[..|nums|-1]) + LogEntries(logs[nums[|nums|-1]])
  }

  /** The first number free after all the logs. */
  function LogNext(logs: map<nat, seq<Batch>>, nums: seq<nat>, start: nat): nat
    requires forall n :: n in nums ==> n in logs
  {
    if nums == [] then start else NextNumber(logs[nums[|nums|-1]], LogNext(logs, nums[..|nums|-1], start))
  }

  predicate RisingLogs(logs: map<nat, seq<Batch>>, nums: seq<nat>, start: nat)
    requires forall n :: n in nums ==> n in logs
  {
    nums == [] ||
    (RisingLogs(logs, nums[..|nums|-1], start) && Rising(logs[nums[|nums|-1]], LogNext(logs, nums[..|nums|-1], start)))
  }

  lemma {:induction false} SameLogsReplaySame(logs: map<nat, seq<Batch>>, logs': map<nat, seq<Batch>>, nums: seq<nat>, start: nat)
    requires forall n :: n in nums ==> n in logs && n in logs' && logs[n] == logs'[n]
    ensures Replayed(logs, nums) == Replayed(logs', nums)
    ensures LogNext(logs, nums, start) == LogNext(logs', nums, start)
    ensures RisingLogs(logs, nums, start) == RisingLogs(logs', nums, start)
  {
    if nums != [] {
      var front, last := nums[..|nums|-1], nums[|nums|-1];
      assert last in nums && forall n :: n in front ==> n in nums;
      SameLogsReplaySame(logs, logs', front, start);
    }
  }

  lemma ReplayedSnoc(logs: map<nat, seq<Batch>>, nums: seq<nat>, n: nat, start: nat)
    requires (forall k :: k in nums ==> k in logs) && n in logs
    ensures forall k :: k in nums + [n] ==> k in logs
    ensures Replayed(logs, nums + [n]) == Replayed(logs, nums) + LogEntries(logs[n])
    ensures LogNext(logs, nums + [n], start) == NextNumber(logs[n], LogNext(logs, nums, start))
    ensures RisingLogs(logs, nums + [n], start) <==>
              RisingLogs(logs, nums, start) && Rising(logs[n], LogNext(logs, nums, start))
  {
    assert (nums + [n])[..|nums|] == nums;
  }

  // ---------- the durable state ----------

  function InflightEntries(r: Running): seq<Entry> {
    if r.inflight.Some? then Stamp(r.inflight.value.ops, r.inflight.value.first) else []
  }

  /** The logs `nums` replay to `tail`, the current one alone to `memTail`, numbered upwards from where
      the tables and the immutable memtable end; `next` is free. */
  predicate Holds(logs: map<nat, seq<Batch>>, nums: seq<nat>, current: nat,
                  tail: seq<Entry>, start: nat, memTail: seq<Entry>, memFirst: nat, next: nat)
  {
    && current in logs && (forall n :: n in nums ==> n in logs)
    && Replayed(logs, nums) == tail
    && RisingLogs(logs, nums, start) && LogNext(logs, nums, start) <= next
    && LogEntries(logs[current]) == memTail
    && Rising(logs[current], memFirst) && NextNumber(logs[current], memFirst) <= next
  }

  predicate CurrentIsNewest(d: Disk, current: nat) {
    current in d.logs && d.logNumber <= current && forall n :: n in d.logs ==> n <= current
  }

  predicate LogsHold(d: Disk, current: nat, tail: seq<Entry>, start: nat, memTail: seq<Entry>, memFirst: nat, next: nat) {
    CurrentIsNewest(d, current) && Holds(d.logs, LiveLogs(d), current, tail, start, memTail, memFirst, next)
  }

  /** The manifest covers every table and every flushed entry. */
  predicate Recorded(r: Running) {
    && r.st.flushed <= |r.st.hist| && r.disk.levels == r.st.levels
    && NumberedUpTo(r.st.hist[..r.st.flushed], r.disk.lastSeq) && r.st.floor <= r.disk.lastSeq <= r.st.lastSeq
    && r.st.nextFile <= r.disk.nextFile <= r.counter
    && r.current < r.counter
  }

  /** A logged batch has numbers of its own: the next ones, or, when its log could not be synced, the
      last ones taken. */
  predicate InflightFits(r: Running) {
    r.inflight.Some? ==>
      && (forall i :: 0 <= i < |r.st.hist| ==> r.st.hist[i].ikey.seqno < r.inflight.value.first)
      && 0 < r.inflight.value.first && r.inflight.value.first + |r.inflight.value.ops| <= MAX_SEQUENCE_NUMBER
      && (r.inflight.value.first == r.st.lastSeq + 1 || NextNumber([r.inflight.value], 0) == r.st.lastSeq + 1)
  }

  /** The first number that neither the history nor a logged batch has taken. */
  function NextFree(r: Running): nat {
    if r.inflight.Some? && NextNumber([r.inflight.value], 0) > r.st.lastSeq then NextNumber([r.inflight.value], 0)
    else r.st.lastSeq + 1
  }

  /** The first number that may follow the first `n` entries. */
  function FirstAfter(hist: seq<Entry>, n: nat): nat
    requires n <= |hist|
  {
    if n == 0 then 1 else hist[n-1].ikey.seqno + 1
  }

  predicate Backs(d: Disk, current: nat, hist: seq<Entry>, flushed: nat, memStart: nat, next: nat)
    requires flushed <= memStart <= |hist|
  {
    LogsHold(d, current, hist[flushed..], FirstAfter(hist, flushed), hist[memStart..], FirstAfter(hist, memStart), next)
  }

  /** The history a crash leaves: a batch already logged counts, whether or not it was applied. */
  function CrashHistory(r: Running): (h: seq<Entry>)
    ensures |h| >= |r.st.hist| && h == r.st.hist + InflightEntries(r)
  {
    if r.inflight.Some? then r.st.hist + InflightEntries(r) else r.st.hist
  }

  predicate LogsCover(r: Running) {
    r.st.flushed <= r.st.memStart <= |r.st.hist| &&
    Backs(r.disk, r.current, CrashHistory(r), r.st.flushed, r.st.memStart, NextFree(r))
  }

  /** Everything not in tables yet is in the live logs, in order; the current log holds
      exactly the memtable; the manifest covers the rest. */
  ghost predicate Durable(r: Running) {
    Wf(r.st) && Recorded(r) && InflightFits(r) && LogsCover(r)
  }

  /** A write is logged and then applied; or the log does not take it; or it is logged, the log cannot be
      synced, and no write follows. */
  datatype DiskStep =
    | AppendLog(ops: seq<Op>)
    | Commit
    | FailAppend(ops: seq<Op>)
    | FailSync
    | NewLog(number: nat)
    | Inner(step: Step, counter: nat)
    | DropLogs(dead: set<nat>)

  /** LogAndApply: the manifest takes the new levels, the counters and a log number. */
  function Logged(d: Disk, st: State, logNumber: nat, counter: nat): Disk {
    d.(levels := st.levels, logNumber := logNumber, nextFile := counter, lastSeq := st.lastSeq)
  }

  ghost predicate DiskEnabled(r: Running, step: DiskStep) {
    match step
    case AppendLog(ops) => r.inflight.None? && r.st.lastSeq + |ops| < MAX_SEQUENCE_NUMBER && r.current in r.disk.logs
    case Commit =>
      r.inflight.Some? && r.inflight.value.first == r.st.lastSeq + 1 && Enabled(r.st, Write(r.inflight.value.ops))
    case FailAppend(ops) => r.inflight.None? && Enabled(r.st, FailWrite(ops))
    case FailSync =>
      r.inflight.Some? && r.inflight.value.first == r.st.lastSeq + 1 && Enabled(r.st, FailWrite(r.inflight.value.ops))
    case NewLog(number) => r.inflight.None? && number >= r.counter && Enabled(r.st, Rotate)
    case Inner(s, counter) =>
      && !s.Write? && !s.FailWrite? && !s.Rotate? && Enabled(r.st, s)
      && r.counter <= counter && Apply(r.st, s).nextFile <= counter
    case DropLogs(dead) => forall n :: n in dead ==> n < r.disk.logNumber
  }

  ghost function DiskApply(r: Running, step: DiskStep): Running
    requires DiskEnabled(r, step)
  {
    match step
    case AppendLog(ops) =>
      var b := Batch(r.st.lastSeq + 1, ops);
      r.(inflight := Some(b), disk := r.disk.(logs := r.disk.logs[r.current := r.disk.logs[r.current] + [b]]))
    case Commit => r.(st := Apply(r.st, Write(r.inflight.value.ops)), inflight := None)
    case FailAppend(ops) => r.(st := Apply(r.st, FailWrite(ops)))
    case FailSync => r.(st := Apply(r.st, FailWrite(r.inflight.value.ops)))
    case NewLog(number) =>
      r.(st := Apply(r.st, Rotate), current := number, counter := number + 1,
         disk := r.disk.(logs := r.disk.logs[number := []]))
    case Inner(s, counter) =>
      var st' := Apply(r.st, s);
      var disk' :=
        if s.Flush? then Logged(r.disk, st', r.current, counter)
        else if s.FinishCompaction? || s.TrivialMove? then Logged(r.disk, st', r.disk.logNumber, counter)
        else r.disk;
      r.(st := st', counter := counter, disk := disk')
    case DropLogs(dead) => r.(disk := r.disk.(logs := r.disk.logs - dead))
  }

  // ---------- steps, seen on the logs alone ----------

  /** The live logs end with the current one. */
  lemma CurrentIsLast(d: Disk, current: nat)
    requires CurrentIsNewest(d, current)
    ensures LiveLogs(d) == Ascending(LiveNumbers(d) - {current}) + [current]
    ensures current !in Ascending(LiveNumbers(d) - {current})
  {
    var ns := LiveNumbers(d) - {current};
    assert LiveNumbers(d) == ns + {current};
    AscendingMax(ns, current);
  }

  lemma AppendRises(records: seq<Batch>, b: Batch, start: nat)
    requires Rising(records, start)
    ensures LogEntries(records + [b]) == LogEntries(records) + Stamp(b.ops, b.first)
    ensures Rising(records + [b], start) <==> b.first >= NextNumber(records, start)
    ensures NextNumber(records + [b], start) == b.first + |b.ops|
  {
    assert (records + [b])[..|records|] == records;
  }

  lemma HoldsAppend(logs: map<nat, seq<Batch>>, front: seq<nat>, current: nat,
                    tail: seq<Entry>, start: nat, memTail: seq<Entry>, memFirst: nat, next: nat, b: Batch,
                    tail': seq<Entry>, memTail': seq<Entry>, next': nat)
    requires Holds(logs, front + [current], current, tail, start, memTail, memFirst, next) && current !in front
    requires next <= b.first && b.first + |b.ops| <= next'
    requires tail' == tail + Stamp(b.ops, b.first) && memTail' == memTail + Stamp(b.ops, b.first)
    ensures Holds(logs[current := logs[current] + [b]], front + [current], current, tail', start, memTail', memFirst, next')
  {
    hide Replayed, RisingLogs, LogNext, Rising, LogEntries, Stamp;
    var logs' := logs[current := logs[current] + [b]];
    assert forall n :: n in front ==> n in front + [current];
    ReplayedSnoc(logs, front, current, start);
    AppendRises(logs[current], b, memFirst);
    AppendRises(logs[current], b, LogNext(logs, front, start));
    ReplayedAppend(logs, front, current, start, b);
  }

  lemma ReplayedAppend(logs: map<nat, seq<Batch>>, front: seq<nat>, current: nat, start: nat, b: Batch)
    requires current in logs && current !in front && (forall n :: n in front ==> n in logs)
    requires Rising(logs[current] + [b], LogNext(logs, front, start)) && RisingLogs(logs, front, start)
    ensures var logs' := logs[current := logs[current] + [b]];
            && (forall n :: n in front + [current] ==> n in logs')
            && Replayed(logs', front + [current]) == Replayed(logs, front) + LogEntries(logs[current] + [b])
            && LogNext(logs', front + [current], start) == NextNumber(logs[current] + [b], LogNext(logs, front, start))
            && RisingLogs(logs', front + [current], start)
  {
    var logs' := logs[current := logs[current] + [b]];
    SameLogsReplaySame(logs, logs', front, start);
    ReplayedSnoc(logs', front, current, start);
  }

  lemma HoldsGrow(logs: map<nat, seq<Batch>>, nums: seq<nat>, current: nat,
                  tail: seq<Entry>, start: nat, memTail: seq<Entry>, memFirst: nat, next: nat, number: nat, end: nat)
    requires Holds(logs, nums, current, tail, start, memTail, memFirst, next) && number !in nums && end <= next
    ensures Holds(logs[number := []], nums + [number], number, tail, start, [], end, next)
  {
    var logs' := logs[number := []];
    SameLogsReplaySame(logs, logs', nums, start);
    ReplayedSnoc(logs', nums, number, start);
  }

  lemma HoldsAlone(logs: map<nat, seq<Batch>>, nums: seq<nat>, current: nat,
                   tail: seq<Entry>, start: nat, memTail: seq<Entry>, memFirst: nat, next: nat)
    requires Holds(logs, nums, current, tail, start, memTail, memFirst, next)
    ensures Holds(logs, [current], current, memTail, memFirst, memTail, memFirst, next)
  {
    assert [] + [current] == [current];
    ReplayedSnoc(logs, [], current, memFirst);
  }

  lemma HoldsKept(logs: map<nat, seq<Batch>>, logs': map<nat, seq<Batch>>, nums: seq<nat>, current: nat,
                  tail: seq<Entry>, start: nat, memTail: seq<Entry>, memFirst: nat, next: nat, next': nat)
    requires Holds(logs, nums, current, tail, start, memTail, memFirst, next) && next <= next'
    requires current in logs' && logs'[current] == logs[current]
    requires forall n :: n in nums ==> n in logs' && logs'[n] == logs[n]
    ensures Holds(logs', nums, current, tail, start, memTail, memFirst, next')
  {
    SameLogsReplaySame(logs, logs', nums, start);
  }

  function AppendTo(d: Disk, current: nat, b: Batch): Disk
    requires current in d.logs
  {
    d.(logs := d.logs[current := d.logs[current] + [b]])
  }

  lemma LogsAppend(d: Disk, current: nat, tail: seq<Entry>, start: nat, memTail: seq<Entry>, memFirst: nat, next: nat, b: Batch,
                   tail': seq<Entry>, memTail': seq<Entry>, next': nat)
    requires LogsHold(d, current, tail, start, memTail, memFirst, next)
    requires next <= b.first && b.first + |b.ops| <= next'
    requires tail' == tail + Stamp(b.ops, b.first) && memTail' == memTail + Stamp(b.ops, b.first)
    ensures LogsHold(AppendTo(d, current, b), current, tail', start, memTail', memFirst, next')
  {
    assert LiveNumbers(AppendTo(d, current, b)) == LiveNumbers(d);
    CurrentIsLast(d, current);
    HoldsAppend(d.logs, Ascending(LiveNumbers(d) - {current}), current, tail, start, memTail, memFirst, next, b, tail', memTail', next');
  }

  lemma NewestIsLast(d: Disk, current: nat, number: nat)
    requires CurrentIsNewest(d, current) && number > current
    ensures number !in LiveLogs(d) && LiveLogs(d.(logs := d.logs[number := []])) == LiveLogs(d) + [number]
    ensures CurrentIsNewest(d.(logs := d.logs[number := []]), number)
  {
    assert LiveNumbers(d.(logs := d.logs[number := []])) == LiveNumbers(d) + {number};
    AscendingMax(LiveNumbers(d), number);
  }

  lemma LogsGrow(d: Disk, current: nat, tail: seq<Entry>, start: nat, memTail: seq<Entry>, memFirst: nat, next: nat, number: nat,
                 none: seq<Entry>, end: nat)
    requires LogsHold(d, current, tail, start, memTail, memFirst, next) && number > current
    requires none == [] && end <= next
    ensures LogsHold(d.(logs := d.logs[number := []]), number, tail, start, none, end, next)
  {
    NewestIsLast(d, current, number);
    HoldsGrow(d.logs, LiveLogs(d), current, tail, start, memTail, memFirst, next, number, end);
  }

  /** Once the older logs are in tables, only the current one is live. */
  lemma LogsRetire(d: Disk, current: nat, tail: seq<Entry>, start: nat, memTail: seq<Entry>, memFirst: nat, next: nat, d': Disk)
    requires LogsHold(d, current, tail, start, memTail, memFirst, next) && d'.logs == d.logs && d'.logNumber == current
    ensures LogsHold(d', current, memTail, memFirst, memTail, memFirst, next)
  {
    assert LiveNumbers(d') == {} + {current};
    AscendingMax({}, current);
    assert LiveLogs(d') == [current];
    HoldsAlone(d.logs, LiveLogs(d), current, tail, start, memTail, memFirst, next);
  }

  lemma LogsKept(d: Disk, current: nat, tail: seq<Entry>, start: nat, memTail: seq<Entry>, memFirst: nat, next: nat, d': Disk, next': nat)
    requires LogsHold(d, current, tail, start, memTail, memFirst, next) && next <= next'
    requires d'.logNumber == d.logNumber && d'.logs.Keys <= d.logs.Keys && LiveNumbers(d') == LiveNumbers(d)
    requires forall n :: n in d'.logs ==> d'.logs[n] == d.logs[n]
    ensures LogsHold(d', current, tail, start, memTail, memFirst, next')
  {
    hide Holds, Ascending;
    assert current in LiveNumbers(d);
    assert forall n :: n in LiveLogs(d) ==> n in LiveNumbers(d');
    HoldsKept(d.logs, d'.logs, LiveLogs(d), current, tail, start, memTail, memFirst, next, next');
  }

  // ---------- each step keeps the durable state ----------

  lemma FirstAfterGrows(hist: seq<Entry>, es: seq<Entry>, n: nat)
    requires n <= |hist|
    ensures FirstAfter(hist + es, n) == FirstAfter(hist, n)
  {
  }

  lemma AppendBacks(d: Disk, current: nat, hist: seq<Entry>, flushed: nat, memStart: nat, next: nat, b: Batch)
    requires flushed <= memStart <= |hist| && Backs(d, current, hist, flushed, memStart, next) && b.first >= next
    ensures Backs(AppendTo(d, current, b), current, hist + Stamp(b.ops, b.first), flushed, memStart, b.first + |b.ops|)
  {
    hide LogsHold;
    var es := Stamp(b.ops, b.first);
    FirstAfterGrows(hist, es, flushed);
    FirstAfterGrows(hist, es, memStart);
    LogsAppend(d, current, hist[flushed..], FirstAfter(hist, flushed), hist[memStart..], FirstAfter(hist, memStart), next, b,
               (hist + es)[flushed..], (hist + es)[memStart..], b.first + |b.ops|);
  }

  lemma NewLogBacks(d: Disk, current: nat, hist: seq<Entry>, flushed: nat, memStart: nat, next: nat, number: nat)
    requires flushed <= memStart <= |hist| && Backs(d, current, hist, flushed, memStart, next) && number > current
    requires FirstAfter(hist, |hist|) <= next
    ensures Backs(d.(logs := d.logs[number := []]), number, hist, flushed, |hist|, next)
  {
    hide LogsHold;
    LogsGrow(d, current, hist[flushed..], FirstAfter(hist, flushed), hist[memStart..], FirstAfter(hist, memStart), next,
             number, hist[|hist|..], FirstAfter(hist, |hist|));
  }

  lemma FlushBacks(d: Disk, current: nat, hist: seq<Entry>, flushed: nat, memStart: nat, next: nat, d': Disk)
    requires flushed <= memStart <= |hist| && Backs(d, current, hist, flushed, memStart, next)
    requires d'.logs == d.logs && d'.logNumber == current
    ensures Backs(d', current, hist, memStart, memStart, next)
  {
    hide LogsHold;
    LogsRetire(d, current, hist[flushed..], FirstAfter(hist, flushed), hist[memStart..], FirstAfter(hist, memStart), next, d');
  }

  lemma KeptBacks(d: Disk, current: nat, hist: seq<Entry>, flushed: nat, memStart: nat, next: nat, d': Disk, next': nat)
    requires flushed <= memStart <= |hist| && Backs(d, current, hist, flushed, memStart, next) && next <= next'
    requires d'.logNumber == d.logNumber && d'.logs.Keys <= d.logs.Keys && LiveNumbers(d') == LiveNumbers(d)
    requires forall n :: n in d'.logs ==> d'.logs[n] == d.logs[n]
    ensures Backs(d', current, hist, flushed, memStart, next')
  {
    hide LogsHold;
    LogsKept(d, current, hist[flushed..], FirstAfter(hist, flushed), hist[memStart..], FirstAfter(hist, memStart), next, d', next');
  }

  ghost predicate Ordered(r: Running) {
    && r.st.flushed <= r.st.memStart <= |r.st.hist| && NumberedUpTo(r.st.hist, r.st.lastSeq) && r.current < r.counter
  }

  lemma AppendKeepsCover(r: Running, ops: seq<Op>)
    requires Ordered(r) && LogsCover(r) && DiskEnabled(r, AppendLog(ops))
    ensures LogsCover(DiskApply(r, AppendLog(ops)))
  {
    hide LogsHold, LiveLogs;
    AppendBacks(r.disk, r.current, r.st.hist, r.st.flushed, r.st.memStart, r.st.lastSeq + 1, Batch(r.st.lastSeq + 1, ops));
  }

  lemma CommitKeepsCover(r: Running)
    requires Ordered(r) && InflightFits(r) && LogsCover(r) && DiskEnabled(r, Commit)
    ensures LogsCover(DiskApply(r, Commit))
  {
    hide LogsHold, LiveLogs;
    assert CrashHistory(DiskApply(r, Commit)) == CrashHistory(r);
    assert NextFree(DiskApply(r, Commit)) == NextFree(r);
  }

  lemma FailKeepsCover(r: Running, step: DiskStep)
    requires Ordered(r) && InflightFits(r) && LogsCover(r) && DiskEnabled(r, step) && (step.FailAppend? || step.FailSync?)
    ensures LogsCover(DiskApply(r, step))
  {
    hide LogsHold, LiveLogs;
    var r' := DiskApply(r, step);
    KeptBacks(r.disk, r.current, CrashHistory(r), r.st.flushed, r.st.memStart, NextFree(r), r.disk, NextFree(r'));
  }

  lemma NewLogKeepsCover(r: Running, number: nat)
    requires Ordered(r) && LogsCover(r) && DiskEnabled(r, NewLog(number))
    ensures LogsCover(DiskApply(r, NewLog(number)))
  {
    hide LogsHold, LiveLogs;
    NewLogBacks(r.disk, r.current, r.st.hist, r.st.flushed, r.st.memStart, NextFree(r), number);
  }

  lemma StepKeepsCover(r: Running, step: DiskStep)
    requires Ordered(r) && InflightFits(r) && LogsCover(r) && DiskEnabled(r, step)
    ensures LogsCover(DiskApply(r, step))
  {
    match step
    case AppendLog(ops) => AppendKeepsCover(r, ops);
    case Commit => CommitKeepsCover(r);
    case FailAppend(ops) => FailKeepsCover(r, step);
    case FailSync => FailKeepsCover(r, step);
    case NewLog(number) => NewLogKeepsCover(r, number);
    case Inner(s, counter) => InnerKeepsCover(r, s, counter);
    case DropLogs(dead) => DropKeepsCover(r, dead);
  }

  lemma DropKeepsCover(r: Running, dead: set<nat>)
    requires LogsCover(r) && DiskEnabled(r, DropLogs(dead))
    ensures LogsCover(DiskApply(r, DropLogs(dead)))
  {
    hide LogsHold, LiveLogs, CrashHistory;
    var r', st := DiskApply(r, DropLogs(dead)), r.st;
    assert LiveNumbers(r'.disk) == LiveNumbers(r.disk);
    KeptBacks(r.disk, r.current, CrashHistory(r), st.flushed, st.memStart, NextFree(r), r'.disk, NextFree(r));
  }

  lemma InnerShape(r: Running, s: Step, counter: nat)
    requires DiskEnabled(r, Inner(s, counter))
    ensures var r' := DiskApply(r, Inner(s, counter));
            && r'.st.hist == r.st.hist && r'.st.memStart == r.st.memStart && r'.disk.logs == r.disk.logs
            && r'.current == r.current && InflightEntries(r') == InflightEntries(r) && NextFree(r') == NextFree(r)
            && r'.st.flushed == (if s.Flush? then r.st.memStart else r.st.flushed)
            && r'.disk.logNumber == (if s.Flush? then r.current else r.disk.logNumber)
  {
  }

  lemma InnerKeepsCover(r: Running, s: Step, counter: nat)
    requires LogsCover(r) && DiskEnabled(r, Inner(s, counter))
    ensures LogsCover(DiskApply(r, Inner(s, counter)))
  {
    var d' := DiskApply(r, Inner(s, counter)).disk;
    InnerShape(r, s, counter);
    if s.Flush? {
      FlushBacks(r.disk, r.current, CrashHistory(r), r.st.flushed, r.st.memStart, NextFree(r), d');
    } else {
      KeptBacks(r.disk, r.current, CrashHistory(r), r.st.flushed, r.st.memStart, NextFree(r), d', NextFree(r));
    }
  }

  lemma StepKeepsRecorded(r: Running, step: DiskStep)
    requires Ordered(r) && (r.st.pending.Some? ==> r.st.pending.value.smallest <= r.st.lastSeq)
    requires Recorded(r) && InflightFits(r) && DiskEnabled(r, step)
    ensures Recorded(DiskApply(r, step)) && InflightFits(DiskApply(r, step))
  {
    hide Enabled, NumberPast, Installed;
    match step
    case AppendLog(ops) =>
    case Commit => CommitKeepsRecorded(r);
    case FailAppend(ops) =>
    case FailSync =>
    case NewLog(number) =>
    case Inner(s, counter) => InnerKeepsRecorded(r, s, counter);
    case DropLogs(dead) =>
  }

  lemma CommitKeepsRecorded(r: Running)
    requires Ordered(r) && Recorded(r) && InflightFits(r) && DiskEnabled(r, Commit)
    ensures Recorded(DiskApply(r, Commit))
  {
    hide Enabled;
    assert DiskApply(r, Commit).st.hist[..r.st.flushed] == r.st.hist[..r.st.flushed];
  }

  lemma InnerKeepsRecorded(r: Running, s: Step, counter: nat)
    requires Ordered(r) && (r.st.pending.Some? ==> r.st.pending.value.smallest <= r.st.lastSeq)
    requires Recorded(r) && InflightFits(r) && DiskEnabled(r, Inner(s, counter))
    ensures Recorded(DiskApply(r, Inner(s, counter))) && InflightFits(DiskApply(r, Inner(s, counter)))
  {
    hide WfPending, NoOverlapTo, NumberPast, Installed, Survivors, LevelDisjoint;
  }

  /** The one inner step that may break a level does not span a table flushed beside it. */
  ghost predicate DiskFits(r: Running, step: DiskStep) {
    step.Inner? ==> Fits(r.st, step.step)
  }

  lemma StepKeepsStoreWf(r: Running, step: DiskStep)
    requires Wf(r.st) && DiskEnabled(r, step) && DiskFits(r, step)
    ensures Wf(DiskApply(r, step).st)
  {
    hide Wf, Enabled, Apply, Fits;
    match step
    case AppendLog(ops) =>
    case Commit => WriteKeepsIt(r.st, Write(r.inflight.value.ops));
    case FailAppend(ops) => WriteKeepsIt(r.st, FailWrite(ops));
    case FailSync => WriteKeepsIt(r.st, FailWrite(r.inflight.value.ops));
    case NewLog(number) => WriteKeepsIt(r.st, Rotate);
    case Inner(s, counter) => StepKeepsWf(r.st, s);
    case DropLogs(dead) =>
  }

  lemma WriteKeepsIt(st: State, step: Step)
    requires Wf(st) && Enabled(st, step) && !step.FinishCompaction?
    ensures Wf(Apply(st, step))
  {
    hide Wf, Enabled, Apply;
    StepKeepsWf(st, step);
  }

  /** Whatever happens, what is not in a table is in a live log: a crash loses nothing. */
  lemma StepKeepsDurable(r: Running, step: DiskStep)
    requires Durable(r) && DiskEnabled(r, step) && DiskFits(r, step)
    ensures Durable(DiskApply(r, step))
  {
    hide Wf, DiskEnabled, DiskApply, Recorded, LogsCover, InflightFits;
    DurableIsOrdered(r);
    StepKeepsStoreWf(r, step);
    StepKeepsCover(r, step);
    StepKeepsRecorded(r, step);
  }

  lemma DurableIsOrdered(r: Running)
    requires Durable(r)
    ensures Ordered(r) && (r.st.pending.Some? ==> r.st.pending.value.smallest <= r.st.lastSeq)
  {
    hide WfLevelSets, FilesFrom, LogsCover;
  }
}

/** Opening the store after a crash (db/db_impl.cc, Recover, RecoverLogFile and DB::Open). */
module CrashRecovery {
  import opened InternalKeys
  import opened FlatSpec
  import opened Versions
  import opened CompactionRules
  import opened MemTables
  import opened Store
  import opened StoreInvariants
  import opened SnapshotIsolation
  import opened Durability

  function Max(a: nat, b: nat): nat {
    if a < b then b else a
  }

  // ---------- the tables recovery writes ----------

  /** The level-0 tables of the edit hold the entries placed so far, later ones in
      higher-numbered tables. */
  ghost predicate TablesHold(added: seq<File>, placed: seq<Entry>, low: nat, next: nat) {
    && Contents(Files(added)) == Elems(placed)
    && NumberOrdered(Files(added))
    && low <= next && forall f :: f in added ==> low <= f.number < next
  }

  lemma RisesConcat(a: seq<Entry>, b: seq<Entry>, start: nat, mid: nat, next: nat)
    requires Rises(a, start, mid) && Rises(b, mid, next) && start <= mid <= next
    ensures Rises(a + b, start, next)
  {
  }

  lemma RisesSplit(a: seq<Entry>, b: seq<Entry>, start: nat, next: nat)
    requires Rises(a + b, start, next)
    ensures Rises(a, start, next) && Rises(b, start, next) && NewerThan(Elems(b), Elems(a))
    ensures Elems(a + b) == Elems(a) + Elems(b)
  {
    forall i | 0 <= i < |a| ensures a[i] == (a + b)[i] {
    }
    forall i | 0 <= i < |b| ensures b[i] == (a + b)[|a| + i] {
    }
  }

  lemma StampRises(ops: seq<Op>, first: nat)
    ensures Rises(Stamp(ops, first), first, first + |ops|)
  {
  }

  lemma SameElems(a: seq<Entry>, b: seq<Entry>)
    requires Elems(a) == Elems(b)
    ensures a == [] <==> b == []
  {
    if b != [] { assert b[0] in Elems(a); }
    if a != [] { assert a[0] in Elems(b); }
  }

  lemma Assoc(a: seq<Entry>, b: seq<Entry>, c: seq<Entry>)
    ensures a + b + c == a + (b + c)
  {
  }

  lemma Cancel(a: seq<Entry>, b: seq<Entry>, c: seq<Entry>)
    requires a + b == a + c
    ensures b == c
  {
    assert b == (a + b)[|a|..] && c == (a + c)[|a|..];
  }

  lemma TableAdded(added: seq<File>, placed: seq<Entry>, low: nat, next: nat, f: File, es: seq<Entry>, start: nat, free: nat)
    requires TablesHold(added, placed, low, next) && f.number == next
    requires Elems(f.entries) == Elems(es) && Rises(placed + es, start, free)
    ensures TablesHold(added + [f], placed + es, low, next + 1)
  {
    RisesSplit(placed, es, start, free);
    assert Files(added + [f]) == Files(added) + {f};
    ContentsUnion(Files(added), {f});
    forall g | g in Files(added) ensures NewerThan(Elems(f.entries), Elems(g.entries)) && g.number < f.number {
      assert Elems(g.entries) <= Contents(Files(added));
    }
  }

  lemma {:induction false} RisingPrefix(records: seq<Batch>, start: nat, i: nat)
    requires Rising(records, start) && i < |records|
    ensures Rising(records[..i], start) && records[i].first >= NextNumber(records[..i], start)
    ensures NextNumber(records[..i+1], start) == records[i].first + |records[i].ops|
    ensures LogEntries(records[..i+1]) == LogEntries(records[..i]) + Stamp(records[i].ops, records[i].first)
    decreases |records| - i
  {
    var n := |records| - 1;
    assert records[..i+1][..i] == records[..i];
    if i < n {
      RisingPrefix(records[..n], start, i);
      assert records[..n][..i] == records[..i];
    }
  }

  lemma {:induction false} PrefixRises(logs: map<nat, seq<Batch>>, nums: seq<nat>, start: nat, j: nat)
    requires (forall n :: n in nums ==> n in logs) && RisingLogs(logs, nums, start) && j <= |nums|
    ensures forall n :: n in nums[..j] ==> n in logs
    ensures RisingLogs(logs, nums[..j], start)
    decreases |nums|
  {
    if j == |nums| {
      assert nums[..j] == nums;
    } else {
      var front := nums[..|nums|-1];
      assert front[..j] == nums[..j];
      PrefixRises(logs, front, start, j);
    }
  }

  lemma ReplayedPrefix(logs: map<nat, seq<Batch>>, nums: seq<nat>, start: nat, i: nat)
    requires (forall n :: n in nums ==> n in logs) && RisingLogs(logs, nums, start) && i < |nums|
    ensures (forall n :: n in nums[..i] ==> n in nums) && (forall n :: n in nums[..i+1] ==> n in nums)
    ensures Replayed(logs, nums[..i+1]) == Replayed(logs, nums[..i]) + LogEntries(logs[nums[i]])
    ensures LogNext(logs, nums[..i+1], start) == NextNumber(logs[nums[i]], LogNext(logs, nums[..i], start))
    ensures Rising(logs[nums[i]], LogNext(logs, nums[..i], start))
  {
    hide Replayed, LogEntries, RisingLogs, Rising, LogNext, NextNumber;
    assert nums[..i+1] == nums[..i] + [nums[i]];
    PrefixRises(logs, nums, start, i + 1);
    ReplayedSnoc(logs, nums[..i], nums[i], start);
  }

  lemma NothingReplayed(logs: map<nat, seq<Batch>>, start: nat)
    ensures Replayed(logs, []) == [] && LogNext(logs, [], start) == start && Rises([], start, start)
  {
  }

  lemma BatchRises(placed: seq<Entry>, waiting: seq<Entry>, start: nat, free: nat, b: Batch)
    requires Rises(placed + waiting, start, free) && b.first >= free >= start
    ensures Rises(placed + (waiting + Stamp(b.ops, b.first)), start, b.first + |b.ops|)
    ensures forall e :: e in Elems(waiting) ==> e.ikey.seqno < b.first
  {
    var es := Stamp(b.ops, b.first);
    StampRises(b.ops, b.first);
    RisesConcat(placed + waiting, es, start, b.first, b.first + |b.ops|);
    assert placed + waiting + es == placed + (waiting + es);
    RisesSplit(placed, waiting, start, free);
  }

  /** No memtable that holds the first records is full. */
  ghost predicate NeverFull(full: seq<Entry> -> bool, records: seq<Batch>, n: nat)
    requires n <= |records|
  {
    forall m, t :: 0 < m <= n && Sorted(t) && Elems(t) == Elems(LogEntries(records[..m])) ==> !full(t)
  }

  class Recoverer {
    const sizeOf: seq<Entry> -> nat
    const full: seq<Entry> -> bool
    const reuseLogs: bool
    var nextFile: nat
    var maxSequence: nat
    var saveManifest: bool
    var added: seq<File>
    ghost var placed: seq<Entry>
    ghost const start: nat
    ghost const low: nat

    constructor (sizeOf: seq<Entry> -> nat, full: seq<Entry> -> bool, reuseLogs: bool, next: nat, saveManifest: bool, ghost start: nat)
      requires start > 0
      ensures Valid() && placed == [] && added == [] && low == next && this.start == start
      ensures this.saveManifest == saveManifest && this.reuseLogs == reuseLogs && maxSequence == 0
    {
      this.sizeOf, this.full, this.reuseLogs := sizeOf, full, reuseLogs;
      nextFile, maxSequence, added := next, 0, [];
      this.saveManifest := saveManifest;
      placed := [];
      this.start, this.low := start, next;
    }

    /** The first number free after everything read so far. */
    ghost function Free(): nat
      reads this`maxSequence
    {
      Max(maxSequence + 1, start)
    }

    ghost predicate Valid()
      reads this
    {
      start > 0 && TablesHold(added, placed, low, nextFile) && (!saveManifest ==> placed == [] && added == [])
    }

    ghost predicate MemHolds(mem: MemTable?, waiting: seq<Entry>)
      reads this`placed, this`maxSequence, mem
    {
      && Rises(placed + waiting, start, Free())
      && if mem == null then waiting == [] else Sorted(mem.table) && Elems(mem.table) == Elems(waiting)
    }

    /** Writes a recovered memtable as a level-0 table (no base version: never deeper). */
    method WriteLevel0Table(table: seq<Entry>, ghost es: seq<Entry>)
      requires TablesHold(added, placed, low, nextFile) && Sorted(table)
      requires Elems(table) == Elems(es) && Rises(placed + es, start, Free())
      modifies this`nextFile, this`added, this`placed
      ensures TablesHold(added, placed, low, nextFile)
      ensures placed == old(placed) + es && nextFile == old(nextFile) + 1
    {
      var number := nextFile;
      nextFile := nextFile + 1;
      if table != [] {
        var f: File := TableFile(number, sizeOf(table), table);
        TableAdded(added, placed, low, number, f, es, start, Free());
        added := added + [f];
      } else {
        SameElems(table, es);
        assert es == [];
      }
      placed := placed + es;
    }

    /** One log record goes into the memtable being rebuilt; the largest number is noted. */
    method TakeBatch(mem: MemTable?, b: Batch, ghost waiting: seq<Entry>) returns (mem': MemTable, ghost waiting': seq<Entry>)
      requires start > 0 && b.first >= Free() && MemHolds(mem, waiting)
      modifies mem, this`maxSequence
      ensures mem' == mem || fresh(mem')
      ensures waiting' == waiting + Stamp(b.ops, b.first) && MemHolds(mem', waiting')
      ensures Free() == b.first + |b.ops|
    {
      BatchRises(placed, waiting, start, Free(), b);
      if mem == null {
        mem' := new MemTable();
      } else {
        mem' := mem;
      }
      mem'.InsertInto(b.ops, b.first);
      waiting' := waiting + Stamp(b.ops, b.first);
      var lastSeq := b.first + |b.ops| - 1;
      if lastSeq > maxSequence {
        maxSequence := lastSeq;
      }
    }

    /** One turn of the replay loop: take the record in, write the memtable out once it is full. */
    method ReplayRecord(mem: MemTable?, b: Batch, ghost waiting: seq<Entry>)
      returns (mem': MemTable?, ghost waiting': seq<Entry>, spilled: bool)
      requires Valid() && b.first >= Free() && MemHolds(mem, waiting)
      modifies mem, this`nextFile, this`maxSequence, this`saveManifest, this`added, this`placed
      ensures Valid() && nextFile >= old(nextFile) && (old(saveManifest) ==> saveManifest)
      ensures placed + waiting' == old(placed) + waiting + Stamp(b.ops, b.first)
      ensures MemHolds(mem', waiting')
      ensures mem' == null || mem' == mem || fresh(mem')
      ensures !spilled ==> placed == old(placed) && added == old(added) && waiting' == waiting + Stamp(b.ops, b.first)
      ensures exists t :: Sorted(t) && Elems(t) == Elems(waiting + Stamp(b.ops, b.first)) && spilled == full(t)
      ensures Free() == b.first + |b.ops|
    {
      mem', waiting' := TakeBatch(mem, b, waiting);
      assert placed + waiting' == placed + waiting + Stamp(b.ops, b.first);
      spilled := full(mem'.table);
      if spilled {
        saveManifest := true;
        WriteLevel0Table(mem'.table, waiting');
        assert placed + [] == placed;
        mem', waiting' := null, [];
      }
    }

    /** The replay loop of one log: records go into memtables, each written out when full. */
    method ReplayRecords(records: seq<Batch>) returns (mem: MemTable?, ghost waiting: seq<Entry>, compactions: nat)
      requires Valid() && Rises(placed, start, Free()) && Rising(records, Free())
      modifies this`nextFile, this`maxSequence, this`saveManifest, this`added, this`placed
      ensures Valid() && nextFile >= old(nextFile) && (old(saveManifest) ==> saveManifest)
      ensures placed + waiting == old(placed) + LogEntries(records) && MemHolds(mem, waiting)
      ensures compactions == 0 ==> placed == old(placed) && added == old(added)
      ensures compactions == 0 <==> NeverFull(full, records, |records|)
      ensures mem == null || fresh(mem)
      ensures Free() == NextNumber(records, old(Free()))
    {
      hide Rises, TablesHold, NeverFull;
      NoneFull(full, records);
      mem, waiting, compactions := null, [], 0;
      assert placed + waiting == placed;
      var i := 0;
      while i < |records|
        invariant 0 <= i <= |records| && Valid() && nextFile >= old(nextFile) && (old(saveManifest) ==> saveManifest)
        invariant placed + waiting == old(placed) + LogEntries(records[..i]) && MemHolds(mem, waiting)
        invariant compactions == 0 ==> placed == old(placed) && added == old(added) && waiting == LogEntries(records[..i])
        invariant compactions == 0 <==> NeverFull(full, records, i)
        invariant mem == null || fresh(mem)
        invariant Free() == NextNumber(records[..i], old(Free()))
      {
        RisingPrefix(records, old(Free()), i);
        Assoc(old(placed), LogEntries(records[..i]), Stamp(records[i].ops, records[i].first));
        var spilled;
        ghost var before := waiting;
        mem, waiting, spilled := ReplayRecord(mem, records[i], waiting);
        FullNext(full, records, i, before, spilled);
        compactions := compactions + if spilled then 1 else 0;
        i := i + 1;
      }
      assert records[..i] == records;
    }

    /** Replays one log into memtables, each written out when full and the last one at the
        end, unless it can go on as the live memtable of the reused log. */
    method RecoverLogFile(records: seq<Batch>, lastLog: bool) returns (reused: MemTable?)
      requires Valid() && Rises(placed, start, Free()) && Rising(records, Free())
      modifies this`nextFile, this`maxSequence, this`saveManifest, this`added, this`placed
      ensures Valid() && Rises(placed, start, Free()) && nextFile >= old(nextFile) && (old(saveManifest) ==> saveManifest)
      ensures reused != null <==> lastLog && reuseLogs && NeverFull(full, records, |records|)
      ensures reused == null ==> placed == old(placed) + LogEntries(records)
      ensures reused != null ==>
                && lastLog && reuseLogs && fresh(reused) && placed == old(placed) && added == old(added)
                && Sorted(reused.table) && Elems(reused.table) == Elems(LogEntries(records))
      ensures Free() == NextNumber(records, old(Free()))
    {
      hide Rises, Rising, NextNumber, TablesHold, LogEntries;
      var mem, waiting, compactions := ReplayRecords(records);
      RisesSplit(placed, waiting, start, Free());
      reused := KeepOrWrite(mem, lastLog && compactions == 0, waiting);
      if reused != null {
        Cancel(placed, waiting, LogEntries(records));
      }
    }

    /** Goes on with the rebuilt memtable if its log can be reused, else writes it out. */
    method KeepOrWrite(mem: MemTable?, reusable: bool, ghost waiting: seq<Entry>) returns (reused: MemTable?)
      requires Valid() && MemHolds(mem, waiting)
      modifies this`nextFile, this`saveManifest, this`added, this`placed
      ensures Valid() && nextFile >= old(nextFile) && (old(saveManifest) ==> saveManifest)
      ensures reused == null ==> placed == old(placed) + waiting
      ensures reused != null <==> reusable && reuseLogs
      ensures reused != null ==> placed == old(placed) && added == old(added)
      ensures reused != null ==> (reused == mem || fresh(reused)) && Sorted(reused.table) && Elems(reused.table) == Elems(waiting)
    {
      if reuseLogs && reusable {
        if mem != null {
          reused := mem;
        } else {
          reused := new MemTable();
        }
        return;
      }
      if mem != null {
        saveManifest := true;
        WriteLevel0Table(mem.table, waiting);
      } else {
        assert placed + waiting == placed;
      }
      reused := null;
    }

    /** One log of the list, its number marked as used afterwards. */
    method RecoverNext(logs: map<nat, seq<Batch>>, nums: seq<nat>, i: nat) returns (reused: MemTable?)
      requires Valid() && Rises(placed, start, Free())
      requires i < |nums| && (forall n :: n in nums ==> n in logs) && RisingLogs(logs, nums, start)
      requires forall n :: n in nums[..i] ==> n in nums
      requires placed == Replayed(logs, nums[..i]) && Free() == LogNext(logs, nums[..i], start)
      modifies this`nextFile, this`maxSequence, this`saveManifest, this`added, this`placed
      ensures Valid() && Rises(placed, start, Free())
      ensures nextFile >= old(nextFile) && nextFile > nums[i] && (old(saveManifest) ==> saveManifest)
      ensures forall n :: n in nums[..i+1] ==> n in nums
      ensures reused != null <==> i + 1 == |nums| && reuseLogs && NeverFull(full, logs[nums[i]], |logs[nums[i]]|)
      ensures reused == null ==> placed == Replayed(logs, nums[..i+1])
      ensures reused != null ==>
                && i + 1 == |nums| && reuseLogs && fresh(reused) && Sorted(reused.table)
                && placed == old(placed) && Elems(reused.table) == Elems(LogEntries(logs[nums[i]]))
      ensures Free() == LogNext(logs, nums[..i+1], start)
    {
      hide Replayed, LogEntries, RisingLogs, Rising, LogNext, NextNumber, Rises;
      ReplayedPrefix(logs, nums, start, i);
      reused := RecoverLogFile(logs[nums[i]], i == |nums| - 1);
      if nextFile <= nums[i] {
        nextFile := nums[i] + 1;
      }
    }

    /** Replays all live logs in order. */
    method RecoverLogs(logs: map<nat, seq<Batch>>, nums: seq<nat>) returns (reused: MemTable?)
      requires Valid() && placed == [] && maxSequence == 0 && (forall n :: n in nums ==> n in logs) && nums != []
      requires RisingLogs(logs, nums, start)
      modifies this`nextFile, this`maxSequence, this`saveManifest, this`added, this`placed
      ensures Valid() && nextFile >= old(nextFile) && (forall n :: n in nums ==> n < nextFile)
      ensures old(saveManifest) ==> saveManifest
      ensures var last := logs[nums[|nums|-1]]; reused != null <==> reuseLogs && NeverFull(full, last, |last|)
      ensures reused == null ==> placed == Replayed(logs, nums)
      ensures reused != null ==>
                && reuseLogs && fresh(reused) && Sorted(reused.table)
                && placed == Replayed(logs, nums[..|nums|-1])
                && Elems(reused.table) == Elems(LogEntries(logs[nums[|nums|-1]]))
      ensures Free() == LogNext(logs, nums, start)
    {
      hide LogEntries, RisingLogs, NextNumber, LogNext, Replayed, Rises, TablesHold;
      NothingReplayed(logs, start);
      var i := 0;
      reused := null;
      assert nums[..0] == [];
      while i < |nums|
        invariant 0 <= i <= |nums| && Valid() && nextFile >= old(nextFile) && (old(saveManifest) ==> saveManifest)
        invariant Rises(placed, start, Free())
        invariant forall n :: n in nums[..i] ==> n in logs && n < nextFile
        invariant reused == null ==> placed == Replayed(logs, nums[..i])
        invariant i < |nums| ==> reused == null
        invariant var last := logs[nums[|nums|-1]];
                  i == |nums| ==> (reused != null <==> reuseLogs && NeverFull(full, last, |last|))
        invariant reused != null ==>
                    && reuseLogs && fresh(reused) && Sorted(reused.table)
                    && placed == Replayed(logs, nums[..|nums|-1])
                    && Elems(reused.table) == Elems(LogEntries(logs[nums[|nums|-1]]))
        invariant Free() == LogNext(logs, nums[..i], start)
      {
        reused := RecoverNext(logs, nums, i);
        assert nums[..i+1] == nums[..i] + [nums[i]];
        i := i + 1;
      }
      assert nums[..i] == nums;
    }
  }

  lemma NoneFull(full: seq<Entry> -> bool, records: seq<Batch>)
    ensures NeverFull(full, records, 0)
  {
  }

  /** Entries can be sorted in one way only. */
  lemma {:induction false} OneOrder(a: seq<Entry>, b: seq<Entry>)
    requires Sorted(a) && Sorted(b) && Elems(a) == Elems(b)
    ensures a == b
  {
    hide Less;
    SameElems(a, b);
    if a != [] {
      SameHead(a, b);
      RestElems(a);
      RestElems(b);
      OneOrder(a[1..], b[1..]);
      assert a == [a[0]] + a[1..] && b == [b[0]] + b[1..];
    }
  }

  lemma SameHead(a: seq<Entry>, b: seq<Entry>)
    requires Sorted(a) && Sorted(b) && Elems(a) == Elems(b) && a != [] && b != []
    ensures a[0] == b[0]
  {
    assert a[0] in Elems(b) && b[0] in Elems(a);
    CompareIsLexicographic(a[0].ikey, b[0].ikey);
    CompareIsLexicographic(b[0].ikey, a[0].ikey);
    var i :| 0 <= i < |b| && b[i] == a[0];
    var j :| 0 <= j < |a| && a[j] == b[0];
    FirstIsLeast(b, i);
    FirstIsLeast(a, j);
  }

  lemma FirstIsLeast(a: seq<Entry>, i: nat)
    requires Sorted(a) && i < |a|
    ensures a[i] == a[0] || Less(a[0].ikey, a[i].ikey)
  {
  }

  lemma RestElems(a: seq<Entry>)
    requires Sorted(a) && a != []
    ensures Sorted(a[1..]) && Elems(a[1..]) == Elems(a) - {a[0]}
  {
    forall e | e in a[1..] ensures e != a[0] {
      CompareIsLexicographic(a[0].ikey, a[0].ikey);
    }
    assert a == [a[0]] + a[1..];
  }

  lemma FullNext(full: seq<Entry> -> bool, records: seq<Batch>, n: nat, waiting: seq<Entry>, spilled: bool)
    requires n < |records| && (NeverFull(full, records, n) ==> waiting == LogEntries(records[..n]))
    requires var b := records[n];
             exists t :: Sorted(t) && Elems(t) == Elems(waiting + Stamp(b.ops, b.first)) && spilled == full(t)
    ensures NeverFull(full, records, n + 1) <==> NeverFull(full, records, n) && !spilled
  {
    if NeverFull(full, records, n) {
      assert records[..n+1][..n] == records[..n];
      assert LogEntries(records[..n+1]) == waiting + Stamp(records[n].ops, records[n].first);
      var t :| Sorted(t) && Elems(t) == Elems(LogEntries(records[..n+1])) && spilled == full(t);
      forall u | Sorted(u) && Elems(u) == Elems(t) ensures u == t {
        OneOrder(u, t);
      }
    } else {
      var m, t :| 0 < m <= n && Sorted(t) && Elems(t) == Elems(LogEntries(records[..m])) && full(t);
      assert m <= n + 1;
    }
  }

  // ---------- what opening restores ----------

  ghost function Reopened(r: Running, added: set<File>, memFrom: nat, nextFile: nat, last: nat): State
    requires |r.st.levels| > 0 && memFrom <= |CrashHistory(r)|
  {
    var hist := CrashHistory(r);
    State(hist, memFrom, memFrom, Elems(hist[memFrom..]), None, r.st.levels[0 := r.st.levels[0] + added],
          last, [], r.st.floor, nextFile, None)
  }

  /** The recovered last sequence number is past everything recovered. */
  ghost predicate Covers(r: Running, last: nat) {
    && LogsCover(r)
    && NumberedUpTo(CrashHistory(r), last) && r.disk.lastSeq <= last < MAX_SEQUENCE_NUMBER
    && LogNext(r.disk.logs, LiveLogs(r.disk), FirstAfter(CrashHistory(r), r.st.flushed)) <= last + 1
  }

  /** The tables recovery wrote are the unflushed history up to `memFrom`. */
  ghost predicate Rebuilt(r: Running, added: seq<File>, placed: seq<Entry>, next: nat, memFrom: nat) {
    && TablesHold(added, placed, r.disk.nextFile + 1, next)
    && r.st.flushed <= memFrom == r.st.flushed + |placed| <= |CrashHistory(r)|
    && placed == CrashHistory(r)[r.st.flushed..memFrom]
  }

  lemma CrashHistoryNumbered(r: Running)
    requires Wf(r.st) && InflightFits(r)
    ensures Numbered(CrashHistory(r))
    ensures Elems(CrashHistory(r)) == Elems(r.st.hist) + Elems(InflightEntries(r))
  {
  }

  lemma RebuiltLevels(r: Running, added: seq<File>, placed: seq<Entry>, next: nat, memFrom: nat)
    requires Wf(r.st) && InflightFits(r) && Rebuilt(r, added, placed, next, memFrom) && r.disk.nextFile >= r.st.nextFile
    ensures WfLevelSets(r.st.levels[0 := r.st.levels[0] + Files(added)])
    ensures FileEntries(r.st.levels[0 := r.st.levels[0] + Files(added)]) == FileEntries(r.st.levels) + Elems(placed)
  {
    hide WfMemory, WfSnapshots, WfLevelSets, Underway, CrashHistory, InflightFits, NewerThan;
    PlacedIsNewer(r, placed, memFrom);
    LevelCount(r.st.levels);
    AddedAbove(r.st.levels, Files(added), r.st.nextFile);
    AddedEntries(r.st.levels, Files(added));
  }

  /** Newer tables with higher numbers may join level 0. */
  lemma AddedAbove(levels: seq<set<File>>, more: set<File>, next: nat)
    requires WfLevelSets(levels) && NewerThan(Contents(more), FileEntries(levels)) && NumberOrdered(more)
    requires forall l, f :: 0 <= l < |levels| && f in levels[l] ==> f.number < next
    requires forall f :: f in more ==> f.number >= next
    ensures WfLevelSets(levels[0 := levels[0] + more])
  {
    hide NewerThan, LevelDisjoint;
    var levels' := levels[0 := levels[0] + more];
    ContentsUnion(levels[0], more);
    forall l, m | 0 <= l < m < |levels'| ensures NewerThan(Contents(levels'[l]), Contents(levels'[m])) {
      assert NewerThan(Contents(levels[l]), Contents(levels[m]));
      NewerPart(Contents(more), FileEntries(levels), Contents(levels[m]));
      NewerUnion(Contents(levels[0]), Contents(more), Contents(levels[m]));
    }
    forall f: File, g: File | f in levels[0] && g in more ensures NewerThan(Elems(g.entries), Elems(f.entries)) {
      assert Elems(g.entries) <= Contents(more) && Elems(f.entries) <= FileEntries(levels);
      NewerParts(Contents(more), FileEntries(levels), Elems(g.entries), Elems(f.entries));
    }
  }

  lemma NewerUnion(A: set<Entry>, B: set<Entry>, C: set<Entry>)
    ensures NewerThan(A, C) && NewerThan(B, C) ==> NewerThan(A + B, C)
  {
  }

  lemma NewerParts(A: set<Entry>, B: set<Entry>, C: set<Entry>, D: set<Entry>)
    requires NewerThan(A, B) && C <= A && D <= B
    ensures NewerThan(C, D)
  {
  }

  lemma PlacedIsNewer(r: Running, placed: seq<Entry>, memFrom: nat)
    requires Wf(r.st) && InflightFits(r) && r.st.flushed <= memFrom <= |CrashHistory(r)|
    requires placed == CrashHistory(r)[r.st.flushed..memFrom]
    ensures NewerThan(Elems(placed), FileEntries(r.st.levels))
  {
    hide Numbered;
    CrashHistoryNumbered(r);
    FileEntriesOld(r.st);
    HistorySlice(CrashHistory(r), r.st.flushed, memFrom);
    assert CrashHistory(r)[..r.st.flushed] == r.st.hist[..r.st.flushed];
    EarlierIsOlder(Elems(r.st.hist[..r.st.flushed]), Elems(placed));
  }

  lemma AddedEntries(levels: seq<set<File>>, more: set<File>)
    requires |levels| > 0
    ensures FileEntries(levels[0 := levels[0] + more]) == FileEntries(levels) + Contents(more)
  {
    var levels' := levels[0 := levels[0] + more];
    forall e | e in FileEntries(levels) ensures e in FileEntries(levels') {
      var l, g :| 0 <= l < |levels| && g in levels[l] && e in g.entries;
      assert g in levels'[l];
    }
    forall e | e in Contents(more) ensures e in FileEntries(levels') {
      var g :| g in more && e in g.entries;
      assert g in levels'[0];
    }
  }

  lemma RebuiltFiles(r: Running, added: seq<File>, placed: seq<Entry>, next: nat, memFrom: nat, n: nat)
    requires Wf(r.st) && Rebuilt(r, added, placed, next, memFrom)
    requires n >= r.st.nextFile && (added != [] ==> n >= next)
    ensures FilesFrom(r.st.levels[0 := r.st.levels[0] + Files(added)], Elems(CrashHistory(r)[..memFrom]), n)
  {
    var hist, levels := CrashHistory(r), r.st.levels;
    assert hist[..memFrom] == r.st.hist[..r.st.flushed] + placed;
    forall l, f: File | 0 <= l < |levels| && f in levels[l]
      ensures f.number < n && Elems(f.entries) <= Elems(hist[..memFrom])
    {
      assert Elems(f.entries) <= Elems(r.st.hist[..r.st.flushed]);
    }
    forall f | f in Files(added) ensures f.number < n && Elems(f.entries) <= Elems(hist[..memFrom]) {
      assert Elems(f.entries) <= Contents(Files(added));
    }
  }

  lemma SlicesOf(hist: seq<Entry>, es: seq<Entry>, flushed: nat, memStart: nat, memFrom: nat)
    requires flushed <= memStart <= |hist| && flushed <= memFrom <= |hist + es|
    ensures Elems((hist + es)[flushed..memFrom]) + Elems((hist + es)[memFrom..]) ==
            Elems(hist[flushed..memStart]) + Elems(hist[memStart..]) + Elems(es)
  {
    var all := hist + es;
    ElemsOfConcat(all[flushed..memFrom], all[memFrom..]);
    ElemsOfConcat(hist[flushed..memStart], hist[memStart..]);
    ElemsOfConcat(hist[flushed..], es);
    assert all[flushed..memFrom] + all[memFrom..] == all[flushed..] == hist[flushed..] + es;
    assert hist[flushed..memStart] + hist[memStart..] == hist[flushed..];
  }

  lemma ElemsOfConcat(a: seq<Entry>, b: seq<Entry>)
    ensures Elems(a + b) == Elems(a) + Elems(b)
  {
  }

  lemma ReopenedHoldsAll(r: Running, added: seq<File>, placed: seq<Entry>, next: nat, memFrom: nat, n: nat, last: nat)
    requires Wf(r.st) && Recorded(r) && InflightFits(r) && Rebuilt(r, added, placed, next, memFrom)
    ensures All(Reopened(r, Files(added), memFrom, n, last)) == All(r.st) + Elems(InflightEntries(r))
  {
    var st := r.st;
    RebuiltLevels(r, added, placed, next, memFrom);
    SlicesOf(st.hist, InflightEntries(r), st.flushed, st.memStart, memFrom);
    UnflushedEntries(st);
    Regroup(Elems(placed), Elems(CrashHistory(r)[memFrom..]), ImmEntries(st), st.mem,
            Elems(InflightEntries(r)), FileEntries(st.levels));
  }

  lemma Regroup(placed: set<Entry>, mem': set<Entry>, imm: set<Entry>, mem: set<Entry>, es: set<Entry>, files: set<Entry>)
    requires placed + mem' == imm + mem + es
    ensures mem' + {} + (files + placed) == mem + imm + files + es
  {
  }

  lemma UnflushedEntries(st: State)
    requires WfMemory(st)
    ensures ImmEntries(st) == Elems(st.hist[st.flushed..st.memStart]) && st.mem == Elems(st.hist[st.memStart..])
  {
    if st.imm.None? { assert st.hist[st.flushed..st.memStart] == []; }
  }

  /** The reopened store is well formed and holds exactly what the live one held, with the
      logged batch applied. */
  lemma ReopenedIsWf(r: Running, added: seq<File>, placed: seq<Entry>, next: nat, memFrom: nat, n: nat, last: nat)
    requires Wf(r.st) && Recorded(r) && InflightFits(r) && Rebuilt(r, added, placed, next, memFrom)
    requires n >= r.st.nextFile && (added != [] ==> n >= next)
    requires NumberedUpTo(CrashHistory(r), last) && r.st.floor <= last < MAX_SEQUENCE_NUMBER
    ensures Wf(Reopened(r, Files(added), memFrom, n, last))
  {
    CrashHistoryNumbered(r);
    RebuiltLevels(r, added, placed, next, memFrom);
    RebuiltFiles(r, added, placed, next, memFrom, n);
    var st' := Reopened(r, Files(added), memFrom, n, last);
    assert WfMemory(st') && WfSnapshots(st');
  }

  lemma ReopenedIsFaithful(r: Running, st': State)
    requires Wf(r.st) && Faithful(r.st) && InflightFits(r)
    requires st'.hist == CrashHistory(r) && st'.floor == r.st.floor
    requires All(st') == All(r.st) + Elems(InflightEntries(r))
    ensures Faithful(st')
  {
    hide Wf, NewerThan, All, InflightFits, Numbered, UniqueSeq;
    var es, st := InflightEntries(r), r.st;
    CrashHistoryNumbered(r);
    StoreParts(st);
    InflightIsNew(r);
    HistoryUnique(CrashHistory(r));
    PartUnique(Elems(CrashHistory(r)), Elems(es) + All(st));
    PartUnique(Elems(CrashHistory(r)), Elems(es) + Elems(st.hist));
    assert All(st') == Elems(es) + All(st) && Elems(st'.hist) == Elems(es) + Elems(st.hist);
    NewLayerAgrees(Elems(es), All(st), Elems(st.hist), st.floor);
  }

  lemma PartUnique(S: set<Entry>, T: set<Entry>)
    requires UniqueSeq(S) && T <= S
    ensures UniqueSeq(T)
  {
  }

  lemma InflightIsNew(r: Running)
    requires InflightFits(r) && All(r.st) <= Elems(r.st.hist)
    ensures NewerThan(Elems(InflightEntries(r)), All(r.st)) && NewerThan(Elems(InflightEntries(r)), Elems(r.st.hist))
  {
    if r.inflight.Some? {
      var first := r.inflight.value.first;
      StampedAreNew(InflightEntries(r), first - 1, Elems(r.st.hist));
    }
  }

  // ---------- the logs after opening ----------

  /** A log reused as it is holds exactly the memtable; recovery wrote the rest out. */
  lemma ReusedSplit(r: Running)
    requires LogsCover(r)
    ensures r.st.flushed <= r.st.memStart <= |CrashHistory(r)|
    ensures var nums := LiveLogs(r.disk);
            && nums != [] && nums[|nums|-1] == r.current && (forall n :: n in nums ==> n in r.disk.logs)
            && Replayed(r.disk.logs, nums[..|nums|-1]) == CrashHistory(r)[r.st.flushed..r.st.memStart]
            && LogEntries(r.disk.logs[r.current]) == CrashHistory(r)[r.st.memStart..]
  {
    CurrentIsLast(r.disk, r.current);
    var hist, front := CrashHistory(r), Ascending(LiveNumbers(r.disk) - {r.current});
    assert LiveLogs(r.disk)[..|front|] == front;
    assert forall n :: n in front ==> n in LiveLogs(r.disk);
    ReplayedSnoc(r.disk.logs, front, r.current, FirstAfter(CrashHistory(r), r.st.flushed));
    SplitTail(Replayed(r.disk.logs, front), hist, r.st.flushed, r.st.memStart);
  }

  lemma SplitTail(a: seq<Entry>, hist: seq<Entry>, from: nat, mid: nat)
    requires from <= mid <= |hist| && a + hist[mid..] == hist[from..]
    ensures a == hist[from..mid]
  {
    assert a == (a + hist[mid..])[..|a|];
    assert hist[from..mid] == hist[from..][..mid - from];
  }

  lemma {:induction false} LogRises(records: seq<Batch>, start: nat)
    requires Rising(records, start)
    ensures start <= NextNumber(records, start) && Rises(LogEntries(records), start, NextNumber(records, start))
  {
    if records != [] {
      var front, b := records[..|records|-1], records[|records|-1];
      LogRises(front, start);
      StampRises(b.ops, b.first);
      var mid := NextNumber(front, start);
      assert Rises(Stamp(b.ops, b.first), mid, b.first + |b.ops|);
      RisesConcat(LogEntries(front), Stamp(b.ops, b.first), start, mid, b.first + |b.ops|);
    }
  }

  lemma {:induction false} LogsRise(logs: map<nat, seq<Batch>>, nums: seq<nat>, start: nat)
    requires (forall n :: n in nums ==> n in logs) && RisingLogs(logs, nums, start)
    ensures start <= LogNext(logs, nums, start) && Rises(Replayed(logs, nums), start, LogNext(logs, nums, start))
  {
    hide Rising, Rises, NextNumber;
    if nums == [] {
      NothingRises(start);
    } else {
      var front, last := nums[..|nums|-1], nums[|nums|-1];
      LogsRise(logs, front, start);
      LogRises(logs[last], LogNext(logs, front, start));
      RisesConcat(Replayed(logs, front), LogEntries(logs[last]), start, LogNext(logs, front, start), LogNext(logs, nums, start));
    }
  }

  lemma NothingRises(start: nat)
    ensures Rises([], start, start)
  {
  }

  /** What recovery finds is numbered up to the last number it notes, or the manifest's. */
  lemma RecoveredCovers(r: Running, last: nat)
    requires Recorded(r) && LogsCover(r)
    requires r.st.lastSeq < MAX_SEQUENCE_NUMBER && NextFree(r) <= MAX_SEQUENCE_NUMBER
    requires last + 1 == Max(r.disk.lastSeq + 1, LogNext(r.disk.logs, LiveLogs(r.disk), FirstAfter(CrashHistory(r), r.st.flushed)))
    ensures Covers(r, last)
  {
    hide LiveLogs, RisingLogs, Replayed, LogNext;
    var hist, flushed := CrashHistory(r), r.st.flushed;
    LogsRise(r.disk.logs, LiveLogs(r.disk), FirstAfter(hist, flushed));
    assert Rises(hist[flushed..], FirstAfter(hist, flushed), last + 1);
    forall i | 0 <= i < |hist| ensures hist[i].ikey.seqno <= last {
      if i < flushed {
        assert r.st.hist[..flushed][i] == hist[i];
      } else {
        assert hist[flushed..][i - flushed] == hist[i];
      }
    }
  }

  lemma StartIsKnown(r: Running)
    requires r.st.flushed <= |r.st.hist| && Recorded(r)
    ensures FirstAfter(CrashHistory(r), r.st.flushed) <= r.disk.lastSeq + 1
  {
    if r.st.flushed > 0 {
      assert r.st.hist[..r.st.flushed][r.st.flushed - 1] == r.st.hist[r.st.flushed - 1];
    }
  }

  /** Recovery has gone through all live logs: all of them, or all but a reused last one, are in tables. */
  ghost predicate Replays(r: Running, added: seq<File>, placed: seq<Entry>, next: nat, reused: bool) {
    && TablesHold(added, placed, r.disk.nextFile + 1, next)
    && var nums := LiveLogs(r.disk);
       && nums != [] && (forall n :: n in nums ==> n in r.disk.logs)
       && placed == if reused then Replayed(r.disk.logs, nums[..|nums|-1]) else Replayed(r.disk.logs, nums)
  }

  /** VersionSet::Recover, then DBImpl::Recover. */
  method ReplayLogs(d: Disk, sizeOf: seq<Entry> -> nat, full: seq<Entry> -> bool, reuseLogs: bool, reuseManifest: bool, ghost r: Running)
    returns (rec: Recoverer, reused: MemTable?, lastSequence: nat)
    requires r.disk == d && (reuseManifest ==> reuseLogs) && r.st.flushed <= r.st.memStart <= |r.st.hist|
    requires Recorded(r) && LogsCover(r) && r.st.lastSeq < MAX_SEQUENCE_NUMBER && NextFree(r) <= MAX_SEQUENCE_NUMBER
    ensures fresh(rec) && Replays(r, rec.added, rec.placed, rec.nextFile, reused != null) && rec.nextFile > r.current
    ensures rec.nextFile > d.nextFile && (!rec.saveManifest ==> rec.placed == [] && rec.added == [])
    ensures Covers(r, lastSequence)
    ensures reused != null ==> Sorted(reused.table) && Elems(reused.table) == Elems(LogEntries(d.logs[r.current]))
  {
    hide NeverFull;
    ReusedSplit(r);
    rec := new Recoverer(sizeOf, full, reuseLogs, d.nextFile + 1, !reuseManifest, FirstAfter(CrashHistory(r), r.st.flushed));
    var nums := LiveLogs(d);
    reused := rec.RecoverLogs(d.logs, nums);
    assert r.current in nums;
    lastSequence := if d.lastSeq < rec.maxSequence then rec.maxSequence else d.lastSeq;
    StartIsKnown(r);
    RecoveredCovers(r, lastSequence);
  }

  lemma DurableParts(r: Running)
    requires Durable(r)
    ensures r.st.flushed <= r.st.memStart <= |r.st.hist| && |r.st.levels| == |r.disk.levels| == NUM_LEVELS
    ensures r.st.lastSeq < MAX_SEQUENCE_NUMBER && NextFree(r) <= MAX_SEQUENCE_NUMBER
    ensures Recorded(r) && InflightFits(r) && LogsCover(r)
  {
  }

  /** What one opening did: the tables it wrote for the entries `placed`, whether the last log goes on as
      it is, whether the manifest was written, and the counters it ended with. */
  datatype Outcome = Outcome(added: seq<File>, placed: seq<Entry>, next: nat, reused: bool, saved: bool,
                             logNumber: nat, nextFile: nat, last: nat)

  ghost function MemFrom(r: Running, o: Outcome): nat {
    if o.reused then r.st.memStart else |CrashHistory(r)|
  }

  ghost function OpenedState(r: Running, o: Outcome): State
    requires |r.st.levels| > 0 && MemFrom(r, o) <= |CrashHistory(r)|
  {
    Reopened(r, Files(o.added), MemFrom(r, o), if o.saved then o.nextFile else r.st.nextFile, o.last)
  }

  /** The disk, and the running store, that an opening leaves. */
  ghost predicate OpenedAs(r: Running, o: Outcome, d': Disk) {
    && |r.disk.levels| > 0 && |r.st.levels| > 0 && MemFrom(r, o) <= |CrashHistory(r)|
    && Replays(r, o.added, o.placed, o.next, o.reused) && Covers(r, o.last)
    && (!o.saved ==> o.placed == [] && o.added == [])
    && o.next <= o.nextFile && o.logNumber < o.nextFile
    && (if o.reused then o.logNumber == r.current else o.logNumber > r.current)
    && d'.logs == (if o.reused then r.disk.logs else r.disk.logs[o.logNumber := []])
    && ManifestSaved(r, o.added, o.saved, o.logNumber, o.nextFile, o.last, d')
  }

  ghost function OpenedRunning(r: Running, o: Outcome, d': Disk): Running
    requires OpenedAs(r, o, d')
  {
    Running(OpenedState(r, o), d', o.logNumber, o.nextFile, None)
  }

  /** After a crash at any step boundary, opening the store gives back the same entries, the
      same reads and a last sequence number that covers them, again durable. */
  method Open(d: Disk, sizeOf: seq<Entry> -> nat, full: seq<Entry> -> bool, reuseLogs: bool, reuseManifest: bool, ghost r: Running)
    returns (d': Disk, logNumber: nat, lastSequence: nat, nextFile: nat, mem: MemTable, ghost st': State, ghost o: Outcome)
    requires Durable(r) && Faithful(r.st) && r.disk == d && (reuseManifest ==> reuseLogs)
    ensures OpenedAs(r, o, d') && OpenedRunning(r, o, d') == Running(st', d', logNumber, nextFile, None)
    ensures Durable(Running(st', d', logNumber, nextFile, None)) && Faithful(st')
    ensures st'.hist == CrashHistory(r) && st'.lastSeq == lastSequence && st'.floor == r.st.floor
    ensures All(st') == All(r.st) + Elems(InflightEntries(r))
    ensures Sorted(mem.table) && Elems(mem.table) == st'.mem
  {
    hide Durable, Faithful, Replays, LiveLogs, LogsCover, Recorded, Reopened, CrashHistory, All, Covers, NextFree;
    DurableParts(r);
    var rec, reused, last := ReplayLogs(d, sizeOf, full, reuseLogs, reuseManifest, r);
    lastSequence, nextFile := last, rec.nextFile;
    ghost var memFrom := if reused == null then |CrashHistory(r)| else r.st.memStart;
    var logs := d.logs;
    ReusedSplit(r);
    if reused == null {
      logNumber := nextFile;
      nextFile := nextFile + 1;
      logs := logs[logNumber := []];
      mem := new MemTable();
    } else {
      var nums := LiveLogs(d);
      logNumber := nums[|nums|-1];
      mem := reused;
    }
    d' := d.(logs := logs);
    if rec.saveManifest {
      d' := Disk(d.levels[0 := d.levels[0] + Files(rec.added)], logNumber, nextFile, lastSequence, logs);
    }
    st' := Reopened(r, Files(rec.added), memFrom, if rec.saveManifest then nextFile else r.st.nextFile, last);
    o := Outcome(rec.added, rec.placed, rec.nextFile, reused != null, rec.saveManifest, logNumber, nextFile, last);
    OpenSucceeds(r, o, d');
    ReopenedHolds(r, Files(rec.added), memFrom, if rec.saveManifest then nextFile else r.st.nextFile, last);
  }

  lemma ReopenedHolds(r: Running, added: set<File>, memFrom: nat, nextFile: nat, last: nat)
    requires |r.st.levels| > 0 && memFrom <= |CrashHistory(r)|
    ensures var st' := Reopened(r, added, memFrom, nextFile, last);
            && st'.hist == CrashHistory(r) && st'.lastSeq == last && st'.floor == r.st.floor
            && st'.mem == Elems(CrashHistory(r)[memFrom..])
            && (memFrom == |CrashHistory(r)| ==> st'.mem == {})
  {
  }

  /** The final LogAndApply of DB::Open, skipped when the old manifest is reused unchanged. */
  predicate ManifestSaved(r: Running, added: seq<File>, save: bool, logNumber: nat, nextFile: nat, last: nat, d': Disk)
    requires |r.disk.levels| > 0
  {
    && d'.levels == (if save then r.disk.levels[0 := r.disk.levels[0] + Files(added)] else r.disk.levels)
    && d'.logNumber == (if save then logNumber else r.disk.logNumber)
    && d'.nextFile == (if save then nextFile else r.disk.nextFile)
    && d'.lastSeq == (if save then last else r.disk.lastSeq)
  }

  lemma OpenSucceeds(r: Running, o: Outcome, d': Disk)
    requires Durable(r) && Faithful(r.st) && OpenedAs(r, o, d')
    ensures Durable(OpenedRunning(r, o, d')) && Faithful(OpenedState(r, o))
    ensures All(OpenedState(r, o)) == All(r.st) + Elems(InflightEntries(r))
  {
    hide Durable, Wf, Faithful, Recorded, Backs, LogsCover, InflightFits, Covers, Replays, Rebuilt, CrashHistory, All, Reopened, ManifestSaved;
    DurableParts(r);
    var memFrom, n := MemFrom(r, o), if o.saved then o.nextFile else r.st.nextFile;
    OpenedRebuilt(r, o.added, o.placed, o.next, o.reused, memFrom);
    NumbersLeft(r, o.added, o.placed, o.next, memFrom);
    OpenedIsSound(r, o.added, o.placed, o.next, memFrom, n, o.last);
    OpenedBacks(r, o.added, o.placed, o.next, o.reused, o.saved, memFrom, o.logNumber, o.nextFile, o.last, d');
    OpenedRecorded(r, o.added, o.placed, o.next, memFrom, o.saved, o.logNumber, o.nextFile, o.last, d');
    OpenedIsDurable(r, Files(o.added), memFrom, n, o.last, d', o.logNumber, o.nextFile);
  }

  lemma OpenedBacks(r: Running, added: seq<File>, placed: seq<Entry>, next: nat, reused: bool, save: bool,
                    memFrom: nat, logNumber: nat, nextFile: nat, last: nat, d': Disk)
    requires |r.disk.levels| > 0 && ManifestSaved(r, added, save, logNumber, nextFile, last, d')
    requires Covers(r, last) && Rebuilt(r, added, placed, next, memFrom) && (!save ==> placed == [])
    requires memFrom == if reused then r.st.memStart else |CrashHistory(r)|
    requires if reused then logNumber == r.current else logNumber > r.current
    requires d'.logs == if reused then r.disk.logs else r.disk.logs[logNumber := []]
    ensures Backs(d', logNumber, CrashHistory(r), memFrom, memFrom, last + 1)
  {
    hide Backs, LogsHold, TablesHold;
    TightBacks(r, last);
    if reused {
      ReusedBacks(r, save, last + 1, d');
    } else {
      FreshBacks(r, save, last + 1, logNumber, d');
    }
  }

  lemma OpenedRebuilt(r: Running, added: seq<File>, placed: seq<Entry>, next: nat, reused: bool, memFrom: nat)
    requires LogsCover(r)
    requires Replays(r, added, placed, next, reused)
    requires memFrom == if reused then r.st.memStart else |CrashHistory(r)|
    ensures Rebuilt(r, added, placed, next, memFrom)
  {
    hide LogsCover, LiveLogs, TablesHold, CrashHistory, LogEntries;
    ReusedSplit(r);
    Rejoin(CrashHistory(r), r.st.flushed, r.st.memStart);
  }

  lemma Rejoin(h: seq<Entry>, from: nat, mid: nat)
    requires from <= mid <= |h|
    ensures h[from..mid] + h[mid..] == h[from..|h|]
  {
  }

  lemma NumbersLeft(r: Running, added: seq<File>, placed: seq<Entry>, next: nat, memFrom: nat)
    requires Recorded(r) && Rebuilt(r, added, placed, next, memFrom)
    ensures r.st.nextFile <= r.disk.nextFile < next && r.st.flushed <= memFrom <= |CrashHistory(r)|
  {
  }

  lemma OpenedRecorded(r: Running, added: seq<File>, placed: seq<Entry>, next: nat, memFrom: nat, save: bool,
                       logNumber: nat, nextFile: nat, last: nat, d': Disk)
    requires |r.st.levels| > 0 && Rebuilt(r, added, placed, next, memFrom) && Covers(r, last) && Recorded(r)
    requires logNumber < nextFile && r.disk.nextFile <= nextFile
    requires !save ==> placed == [] && added == []
    requires ManifestSaved(r, added, save, logNumber, nextFile, last, d')
    ensures Recorded(Running(Reopened(r, Files(added), memFrom, if save then nextFile else r.st.nextFile, last), d', logNumber, nextFile, None))
  {
    hide LogsCover, TablesHold, LogNext;
    if !save {
      assert CrashHistory(r)[..memFrom] == r.st.hist[..r.st.flushed];
      assert r.st.levels[0] + Files(added) == r.st.levels[0];
    }
  }

  lemma OpenedIsDurable(r: Running, added: set<File>, memFrom: nat, n: nat, last: nat, d': Disk, logNumber: nat, nextFile: nat)
    requires |r.st.levels| > 0 && memFrom <= |CrashHistory(r)|
    requires Wf(Reopened(r, added, memFrom, n, last))
    requires Recorded(Running(Reopened(r, added, memFrom, n, last), d', logNumber, nextFile, None))
    requires Backs(d', logNumber, CrashHistory(r), memFrom, memFrom, last + 1)
    ensures Durable(Running(Reopened(r, added, memFrom, n, last), d', logNumber, nextFile, None))
  {
    hide Wf, Recorded, LogsHold, CrashHistory;
    var st' := Reopened(r, added, memFrom, n, last);
    assert CrashHistory(Running(st', d', logNumber, nextFile, None)) == st'.hist by {
      NothingInflight(st', d', logNumber, nextFile);
    }
  }

  lemma NothingInflight(st: State, d: Disk, current: nat, counter: nat)
    ensures CrashHistory(Running(st, d, current, counter, None)) == st.hist
  {
  }

  lemma OpenedIsSound(r: Running, added: seq<File>, placed: seq<Entry>, next: nat, memFrom: nat, n: nat, last: nat)
    requires Covers(r, last)
    requires Durable(r) && Faithful(r.st) && Rebuilt(r, added, placed, next, memFrom)
    requires n >= r.st.nextFile && (added != [] ==> n >= next)
    ensures var st' := Reopened(r, Files(added), memFrom, n, last);
            Wf(st') && Faithful(st') && All(st') == All(r.st) + Elems(InflightEntries(r))
  {
    hide LogsCover, LiveLogs, Rebuilt;
    ReopenedIsWf(r, added, placed, next, memFrom, n, last);
    ReopenedHoldsAll(r, added, placed, next, memFrom, n, last);
    ReopenedIsFaithful(r, Reopened(r, Files(added), memFrom, n, last));
  }

  /** The numbers up to the recovered last one are all the logs have taken. */
  lemma TightBacks(r: Running, last: nat)
    requires Covers(r, last)
    ensures Backs(r.disk, r.current, CrashHistory(r), r.st.flushed, r.st.memStart, last + 1)
  {
    hide Holds, LogNext, NumberedUpTo;
    var hist, logs, d := CrashHistory(r), r.disk.logs, r.disk;
    HistoryEnds(hist, r.st.memStart, last);
    TightLogs(d, r.current, hist[r.st.flushed..], FirstAfter(hist, r.st.flushed), hist[r.st.memStart..],
              FirstAfter(hist, r.st.memStart), NextFree(r), last + 1);
  }

  lemma HistoryEnds(hist: seq<Entry>, n: nat, last: nat)
    requires NumberedUpTo(hist, last) && n <= |hist|
    ensures FirstAfter(hist, n) <= last + 1
  {
  }

  lemma TightLogs(d: Disk, current: nat, tail: seq<Entry>, start: nat, memTail: seq<Entry>, memFirst: nat, next: nat, next': nat)
    requires LogsHold(d, current, tail, start, memTail, memFirst, next)
    requires LogNext(d.logs, LiveLogs(d), start) <= next' && memFirst <= next'
    ensures LogsHold(d, current, tail, start, memTail, memFirst, next')
  {
    hide Holds, LogNext, LiveNumbers, Ascending, LiveLogs;
    CurrentIsLast(d, current);
    HoldsTight(d.logs, Ascending(LiveNumbers(d) - {current}), current, tail, start, memTail, memFirst, next, next');
  }

  lemma HoldsTight(logs: map<nat, seq<Batch>>, front: seq<nat>, current: nat,
                   tail: seq<Entry>, start: nat, memTail: seq<Entry>, memFirst: nat, next: nat, next': nat)
    requires Holds(logs, front + [current], current, tail, start, memTail, memFirst, next)
    requires LogNext(logs, front + [current], start) <= next' && memFirst <= next'
    ensures Holds(logs, front + [current], current, tail, start, memTail, memFirst, next')
  {
    hide Rising, RisingLogs, Replayed, LogEntries, LogNext;
    assert forall n :: n in front ==> n in front + [current];
    ReplayedSnoc(logs, front, current, start);
  }

  lemma ReusedBacks(r: Running, save: bool, next: nat, d': Disk)
    requires r.st.flushed <= r.st.memStart <= |r.st.hist|
    requires Backs(r.disk, r.current, CrashHistory(r), r.st.flushed, r.st.memStart, next)
    requires !save ==> r.st.flushed == r.st.memStart
    requires d'.logs == r.disk.logs && d'.logNumber == if save then r.current else r.disk.logNumber
    ensures Backs(d', r.current, CrashHistory(r), r.st.memStart, r.st.memStart, next)
  {
    hide LogsHold;
    var hist := CrashHistory(r);
    OldLogBacks(r.disk, r.current, hist[r.st.flushed..], FirstAfter(hist, r.st.flushed), hist[r.st.memStart..],
                FirstAfter(hist, r.st.memStart), next, save, d');
  }

  lemma FreshHistoryBacks(d: Disk, current: nat, hist: seq<Entry>, flushed: nat, memStart: nat, next: nat, save: bool,
                          logNumber: nat, d': Disk)
    requires flushed <= memStart <= |hist| && Backs(d, current, hist, flushed, memStart, next) && logNumber > current
    requires (!save ==> flushed == |hist|) && FirstAfter(hist, |hist|) <= next
    requires d'.logs == d.logs[logNumber := []] && d'.logNumber == if save then logNumber else d.logNumber
    ensures Backs(d', logNumber, hist, |hist|, |hist|, next)
  {
    hide LogsHold;
    FreshLogBacks(d, current, hist[flushed..], FirstAfter(hist, flushed), hist[memStart..], FirstAfter(hist, memStart), next,
                  logNumber, save, d', hist[|hist|..], FirstAfter(hist, |hist|));
  }

  lemma FreshBacks(r: Running, save: bool, next: nat, logNumber: nat, d': Disk)
    requires r.st.flushed <= r.st.memStart <= |r.st.hist| && logNumber > r.current
    requires Backs(r.disk, r.current, CrashHistory(r), r.st.flushed, r.st.memStart, next)
    requires (!save ==> r.st.flushed == |CrashHistory(r)|) && FirstAfter(CrashHistory(r), |CrashHistory(r)|) <= next
    requires d'.logs == r.disk.logs[logNumber := []] && d'.logNumber == if save then logNumber else r.disk.logNumber
    ensures Backs(d', logNumber, CrashHistory(r), |CrashHistory(r)|, |CrashHistory(r)|, next)
  {
    hide LogsHold;
    FreshHistoryBacks(r.disk, r.current, CrashHistory(r), r.st.flushed, r.st.memStart, next, save, logNumber, d');
  }

  lemma OldLogBacks(d: Disk, current: nat, tail: seq<Entry>, start: nat, memTail: seq<Entry>, memFirst: nat, next: nat, save: bool, d': Disk)
    requires LogsHold(d, current, tail, start, memTail, memFirst, next)
    requires !save ==> tail == memTail && start == memFirst
    requires d'.logs == d.logs && d'.logNumber == if save then current else d.logNumber
    ensures LogsHold(d', current, memTail, memFirst, memTail, memFirst, next)
  {
    hide LogsHold, LiveLogs;
    if save {
      LogsRetire(d, current, tail, start, memTail, memFirst, next, d');
    } else {
      LogsKept(d, current, tail, start, memTail, memFirst, next, d', next);
    }
  }

  lemma FreshLogBacks(d: Disk, current: nat, tail: seq<Entry>, start: nat, memTail: seq<Entry>, memFirst: nat, next: nat,
                      number: nat, save: bool, d': Disk, none: seq<Entry>, end: nat)
    requires LogsHold(d, current, tail, start, memTail, memFirst, next) && number > current
    requires !save ==> tail == []
    requires d'.logs == d.logs[number := []] && d'.logNumber == if save then number else d.logNumber
    requires none == [] && end <= next && (!save ==> start == end)
    ensures LogsHold(d', number, none, end, none, end, next)
  {
    hide LogsHold, LiveLogs;
    var grown := d.(logs := d.logs[number := []]);
    LogsGrow(d, current, tail, start, memTail, memFirst, next, number, none, end);
    if save {
      LogsRetire(grown, number, tail, start, none, end, next, d');
    } else {
      LogsKept(grown, number, tail, start, none, end, next, d', next);
    }
  }

  /** Every read a user could make before the crash gives the same answer after it, up to the numbers
      of a batch that was logged and not applied. */
  lemma ReadsSurviveCrash(r: Running, st': State, k: UserKey, s: nat)
    requires Durable(r) && Faithful(r.st) && r.st.floor <= s <= r.st.lastSeq
    requires r.inflight.Some? ==> s < r.inflight.value.first
    requires Wf(st') && Faithful(st') && st'.hist == CrashHistory(r) && st'.floor == r.st.floor
    ensures Read(All(st'), k, s) == Read(All(r.st), k, s)
  {
    CrashHistoryNumbered(r);
    HistoryReadStable(r.st.hist, st'.hist, k, s);
    assert Read(All(st'), k, s) == Read(Elems(st'.hist), k, s);
    assert Read(All(r.st), k, s) == Read(Elems(r.st.hist), k, s);
  }

  // ---------- whole runs ----------

  /** A database just created: no tables, and log `n` empty. */
  ghost function Created(n: nat): Running
    requires n >= 2
  {
    Running(Empty(), Disk(Empty().levels, n, n + 1, 0, map[n := []]), n, n + 1, None)
  }

  lemma CreatedIsDurable(n: nat)
    requires n >= 2
    ensures Durable(Created(n)) && Faithful(Created(n).st)
  {
    hide Wf, Faithful;
    EmptyIsWellFormed();
    var d := Created(n).disk;
    assert LiveNumbers(d) == {} + {n};
    AscendingMax({}, n);
    assert LiveLogs(d) == [n] && [] + [n] == [n];
    ReplayedSnoc(d.logs, [], n, 1);
    assert Replayed(d.logs, [n]) == [];
  }

  /** A finish that brings back no deleted value. */
  ghost predicate DiskHarmless(r: Running, step: DiskStep) {
    step.Inner? ==> Harmless(r.st, step.step)
  }

  lemma StepKeepsFaith(r: Running, step: DiskStep)
    requires Wf(r.st) && Faithful(r.st) && DiskEnabled(r, step) && DiskHarmless(r, step)
    ensures Faithful(DiskApply(r, step).st) && Extends(r.st, DiskApply(r, step).st)
  {
    hide Wf, Faithful, Enabled, Apply, Harmless, Extends;
    match step
    case AppendLog(ops) => SameExtends(r.st);
    case Commit => KeepsFaith(r.st, Write(r.inflight.value.ops));
    case FailAppend(ops) => KeepsFaith(r.st, FailWrite(ops));
    case FailSync => KeepsFaith(r.st, FailWrite(r.inflight.value.ops));
    case NewLog(number) => KeepsFaith(r.st, Rotate);
    case Inner(s, counter) => KeepsFaith(r.st, s);
    case DropLogs(dead) => SameExtends(r.st);
  }

  lemma SameExtends(st: State)
    ensures Extends(st, st)
  {
  }

  lemma KeepsFaith(st: State, step: Step)
    requires Wf(st) && Faithful(st) && Enabled(st, step) && (step.FinishCompaction? ==> Harmless(st, step))
    ensures Faithful(Apply(st, step)) && Extends(st, Apply(st, step))
  {
    hide Wf, Faithful, Enabled, Apply;
    StepKeepsReads(st, step);
    StepExtends(st, step);
  }

  /** Steps of the store and its disk, no compaction among them finishing on a hazard or across a table
      flushed beside it. */
  ghost predicate DiskRun(r: Running, steps: seq<DiskStep>)
    decreases |steps|
  {
    steps == [] ||
    (DiskEnabled(r, steps[0]) && DiskFits(r, steps[0]) && DiskHarmless(r, steps[0]) && DiskRun(DiskApply(r, steps[0]), steps[1..]))
  }

  ghost function DiskAfter(r: Running, steps: seq<DiskStep>): Running
    requires DiskRun(r, steps)
    decreases |steps|
  {
    if steps == [] then r else DiskAfter(DiskApply(r, steps[0]), steps[1..])
  }

  lemma DurableIsWf(r: Running)
    requires Durable(r)
    ensures Wf(r.st)
  {
  }

  lemma {:induction false} RunKeepsDurable(r: Running, steps: seq<DiskStep>)
    requires Durable(r) && Faithful(r.st) && DiskRun(r, steps)
    ensures Durable(DiskAfter(r, steps)) && Faithful(DiskAfter(r, steps).st)
    ensures r.st.hist <= DiskAfter(r, steps).st.hist
    decreases |steps|
  {
    hide Durable, Faithful, DiskEnabled, DiskApply, DiskFits, DiskHarmless;
    if steps != [] {
      DurableIsWf(r);
      StepKeepsDurable(r, steps[0]);
      StepKeepsFaith(r, steps[0]);
      RunKeepsDurable(DiskApply(r, steps[0]), steps[1..]);
    }
  }

  lemma FaithfulAt(st: State, k: UserKey, s: nat)
    requires Faithful(st) && s >= st.floor
    ensures Read(All(st), k, s) == Read(Elems(st.hist), k, s)
  {
  }
}
