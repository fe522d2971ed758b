/** Group commit (db/db_impl.cc: Write, BuildBatchGroup) as steps under the mutex. */
module GroupSteps {
  import opened InternalKeys
  import opened BatchFormat

  /** A queued write: its operations and their bytes' length, or nothing for a forced compaction. */
  datatype Request = Request(batch: Option<seq<Record>>, size: nat, sync: bool)

  const SMALL: nat := 0x2_0000
  const LARGE: nat := 0x10_0000

  function Bytes(q: seq<Request>): nat {
    if q == [] then 0
    else Bytes(q[..|q| - 1]) + (if q[|q| - 1].batch.Some? then q[|q| - 1].size else 0)
  }

  /** How far a group may grow: a small first write is not slowed down much. */
  function MaxSize(leader: nat): nat {
    if leader <= SMALL then leader + SMALL else LARGE
  }

  /** Whether the writer at `i` joins when all before it did. */
  predicate Joins(q: seq<Request>, i: nat)
    requires 0 < i < |q|
  {
    && (q[i].sync ==> q[0].sync)
    && (q[i].batch.Some? ==> Bytes(q[..i + 1]) <= MaxSize(q[0].size))
  }

  function GroupFrom(q: seq<Request>, i: nat): (n: nat)
    requires 0 < i <= |q|
    ensures i <= n <= |q|
    ensures forall j :: i <= j < n ==> Joins(q, j)
    ensures n < |q| ==> !Joins(q, n)
    decreases |q| - i
  {
    if i < |q| && Joins(q, i) then GroupFrom(q, i + 1) else i
  }

  /** The group led by the first writer: the longest prefix of the queue whose members all join. */
  function GroupLength(q: seq<Request>): (n: nat)
    requires q != []
    ensures 0 < n <= |q|
    ensures forall j :: 0 < j < n ==> Joins(q, j)
    ensures n < |q| ==> !Joins(q, n)
  {
    GroupFrom(q, 1)
  }

  /** What the queue's first writer and those behind it may come to: a first write of at most 128 KB grows by as much, a
      larger one up to 1 MB. */
  function Bound(q: seq<Request>): nat
    requires q != []
  {
    if q[0].size <= 131072 then q[0].size + 131072 else if q[0].size > 1048576 then q[0].size else 1048576
  }

  /** The group keeps to the bound, and ends only before a write that would exceed it or that asks for a sync the first did
      not ask for. */
  lemma GroupKeepsToBound(q: seq<Request>)
    requires q != [] && q[0].batch.Some?
    ensures Bytes(q[..GroupLength(q)]) <= Bound(q)
    ensures var n := GroupLength(q);
            || n == |q| || (q[n].sync && !q[0].sync)
            || (q[n].batch.Some? && Bytes(q[..n+1]) > if q[0].size > 1048576 then 1048576 else Bound(q))
  {
    GroupBytes(q, GroupLength(q));
  }

  lemma {:induction false} GroupBytes(q: seq<Request>, n: nat)
    requires q != [] && q[0].batch.Some? && 0 < n <= |q| && forall j :: 0 < j < n ==> Joins(q, j)
    ensures Bytes(q[..n]) <= Bound(q)
  {
    assert q[..n][..n-1] == q[..n-1];
    if n == 1 {
      assert q[..0] == [];
    } else {
      GroupBytes(q, n - 1);
      assert Joins(q, n - 1) && q[..n-1+1] == q[..n];
    }
  }

  function Operations(q: seq<Request>): seq<Record> {
    if q == [] then []
    else Operations(q[..|q| - 1]) + (if q[|q| - 1].batch.Some? then q[|q| - 1].batch.value else [])
  }

  lemma {:induction false} OperationsConcat(a: seq<Request>, b: seq<Request>)
    ensures Operations(a + b) == Operations(a) + Operations(b)
    decreases |b|
  {
    if b == [] {
      assert a + b == a;
    } else {
      var c := b[..|b| - 1];
      assert (a + b)[..|a + b| - 1] == a + c && (a + b)[|a + b| - 1] == b[|b| - 1];
      OperationsConcat(a, c);
    }
  }

  /** A batch as it was numbered. */
  datatype Numbered = Numbered(first: nat, record: Record)

  function Stamped(rs: seq<Record>, first: nat): (es: seq<Numbered>)
    ensures |es| == |rs|
  {
    seq(|rs|, i requires 0 <= i < |rs| => Numbered(first + i, rs[i]))
  }

  lemma StampedConcat(a: seq<Record>, b: seq<Record>, first: nat)
    ensures Stamped(a + b, first) == Stamped(a, first) + Stamped(b, first + |a|)
  {
  }

  /** How a writer's call returned. `numbered` says that sequence numbers were used up for its
      group, `synced` that its group's log record was synced. */
  datatype Outcome = Outcome(good: bool, numbered: bool, synced: bool)

  datatype Leading = NoLeader | Group(length: nat) | Alone(good: bool)

  datatype Queue = Queue(arrived: seq<Request>, released: seq<Outcome>, leading: Leading,
                         lastSequence: nat, committed: seq<Numbered>)

  function Waiting(s: Queue): seq<Request>
    requires |s.released| <= |s.arrived|
  {
    s.arrived[|s.released|..]
  }

  datatype Step =
    | Arrive(request: Request)
    | Lead(room: bool)
    | Finish(good: bool)

  predicate Enabled(s: Queue, step: Step)
    requires |s.released| <= |s.arrived|
  {
    match step
    case Arrive(_) => true
    case Lead(_) => s.leading.NoLeader? && Waiting(s) != []
    case Finish(_) => !s.leading.NoLeader? && (s.leading.Group? ==> 0 < s.leading.length <= |Waiting(s)|) &&
                      Waiting(s) != []
  }

  function Copies(o: Outcome, n: nat): (os: seq<Outcome>)
    ensures |os| == n && forall i :: 0 <= i < n ==> os[i] == o
  {
    seq(n, _ => o)
  }

  /** The group's operations take the next numbers even when its log record fails. */
  function Apply(s: Queue, step: Step): Queue
    requires |s.released| <= |s.arrived| && Enabled(s, step)
  {
    match step
    case Arrive(request) => s.(arrived := s.arrived + [request])
    case Lead(room) =>
      s.(leading := if room && Waiting(s)[0].batch.Some? then Group(GroupLength(Waiting(s))) else Alone(room))
    case Finish(good) =>
      match s.leading
      case Alone(room) => s.(leading := NoLeader, released := s.released + [Outcome(room, false, false)])
      case Group(n) =>
        var ops := Operations(Waiting(s)[..n]);
        s.(leading := NoLeader,
           released := s.released + Copies(Outcome(good, true, good && Waiting(s)[0].sync), n),
           lastSequence := s.lastSequence + |ops|,
           committed := if good then s.committed + Stamped(ops, s.lastSequence + 1) else s.committed)
      case NoLeader => s
  }

  /** One writer at a time: each takes the next numbers for its own operations. */
  function Serial(arrived: seq<Request>, released: seq<Outcome>, last: nat): (seq<Numbered>, nat)
    requires |released| <= |arrived|
  {
    if released == [] then ([], last)
    else
      var n := |released| - 1;
      var (committed, before) := Serial(arrived, released[..n], last);
      var ops := if arrived[n].batch.Some? then arrived[n].batch.value else [];
      if !released[n].numbered then (committed, before)
      else (if released[n].good then committed + Stamped(ops, before + 1) else committed, before + |ops|)
  }

  /** A synced answer is owed to every writer that asked for one and whose batch was written. */
  predicate SyncHonoured(arrived: seq<Request>, released: seq<Outcome>)
    requires |released| <= |arrived|
  {
    forall i :: 0 <= i < |released| && arrived[i].sync && released[i].good && released[i].numbered ==> released[i].synced
  }

  /** A batch whose call succeeded was written. */
  predicate SuccessIsWritten(arrived: seq<Request>, released: seq<Outcome>)
    requires |released| <= |arrived|
  {
    forall i :: 0 <= i < |released| && released[i].good && arrived[i].batch.Some? ==> released[i].numbered
  }

  predicate LeaderFits(s: Queue)
    requires |s.released| <= |s.arrived|
  {
    match s.leading
    case NoLeader => true
    case Alone(good) => Waiting(s) != [] && (good ==> Waiting(s)[0].batch.None?)
    case Group(n) =>
      && 0 < n <= |Waiting(s)| && Waiting(s)[0].batch.Some?
      && forall j :: 0 < j < n ==> Joins(Waiting(s), j)
  }

  /** Writers are released in the order of arrival, each once, and what is committed is what
      writing one at a time would have committed. */
  predicate Inv(s: Queue, start: nat) {
    && |s.released| <= |s.arrived|
    && LeaderFits(s)
    && (s.committed, s.lastSequence) == Serial(s.arrived, s.released, start)
    && SyncHonoured(s.arrived, s.released)
    && SuccessIsWritten(s.arrived, s.released)
  }

  // ---------- the serial reading ----------

  lemma {:induction false} SerialIgnoresLater(arrived: seq<Request>, more: seq<Request>, released: seq<Outcome>, last: nat)
    requires |released| <= |arrived|
    ensures Serial(arrived + more, released, last) == Serial(arrived, released, last)
    decreases |released|
  {
    if released != [] {
      SerialIgnoresLater(arrived, more, released[..|released| - 1], last);
    }
  }

  function Own(r: Request): seq<Record> {
    if r.batch.Some? then r.batch.value else []
  }

  /** The effect of writing `ops` under the next numbers. */
  function Written(before: (seq<Numbered>, nat), ops: seq<Record>, good: bool): (seq<Numbered>, nat) {
    (if good then before.0 + Stamped(ops, before.1 + 1) else before.0, before.1 + |ops|)
  }

  lemma WrittenTwice(before: (seq<Numbered>, nat), a: seq<Record>, b: seq<Record>, good: bool)
    ensures Written(Written(before, a, good), b, good) == Written(before, a + b, good)
  {
    StampedConcat(a, b, before.1 + 1);
    var c, x, y := before.0, Stamped(a, before.1 + 1), Stamped(b, before.1 + 1 + |a|);
    assert c + x + y == c + (x + y);
  }

  lemma SerialSnoc(arrived: seq<Request>, released: seq<Outcome>, o: Outcome, last: nat)
    requires |released| < |arrived|
    ensures Serial(arrived, released + [o], last) ==
            if o.numbered then Written(Serial(arrived, released, last), Own(arrived[|released|]), o.good)
            else Serial(arrived, released, last)
  {
    assert (released + [o])[..|released|] == released;
  }

  lemma OperationsSnoc(q: seq<Request>, r: Request)
    ensures Operations(q + [r]) == Operations(q) + Own(r)
  {
    assert (q + [r])[..|q|] == q;
  }

  lemma OneMoreMember(q: seq<Request>, i: nat, j: nat)
    requires i <= j < |q|
    ensures q[i..j + 1] == q[i..j] + [q[j]]
  {
  }

  lemma OneMoreCopy(released: seq<Outcome>, o: Outcome, n: nat)
    ensures released + Copies(o, n + 1) == released + Copies(o, n) + [o]
  {
  }

  lemma SerialMember(arrived: seq<Request>, released: seq<Outcome>, o: Outcome, k: nat, last: nat)
    requires |released| + k < |arrived| && o.numbered
    ensures Serial(arrived, released + Copies(o, k + 1), last) ==
            Written(Serial(arrived, released + Copies(o, k), last), Own(arrived[|released| + k]), o.good)
  {
    OneMoreCopy(released, o, k);
    SerialSnoc(arrived, released + Copies(o, k), o, last);
  }

  lemma MemberOperations(front: seq<Request>, last: Request, whole: seq<Request>)
    requires whole == front + [last]
    ensures Operations(whole) == Operations(front) + Own(last)
  {
    OperationsSnoc(front, last);
  }

  lemma WrittenNothing(before: (seq<Numbered>, nat), good: bool)
    ensures Written(before, [], good) == before
  {
    assert before.0 + Stamped([], before.1 + 1) == before.0;
  }

  lemma NoOperations()
    ensures Operations([]) == []
  {
  }

  /** Releasing a whole group at once is releasing its members one by one. */
  lemma {:induction false} GroupIsSerial(arrived: seq<Request>, released: seq<Outcome>, o: Outcome, n: nat, last: nat)
    requires |released| + n <= |arrived| && o.numbered
    ensures Serial(arrived, released + Copies(o, n), last) ==
            Written(Serial(arrived, released, last), Operations(arrived[|released|..|released| + n]), o.good)
    decreases n
  {
    hide Serial, Written, Operations;
    var r := |released|;
    if n == 0 {
      assert released + Copies(o, 0) == released && arrived[r..r] == [];
      NoOperations();
      WrittenNothing(Serial(arrived, released, last), o.good);
    } else {
      var k := n - 1;
      GroupIsSerial(arrived, released, o, k, last);
      SerialMember(arrived, released, o, k, last);
      OneMoreMember(arrived, r, r + k);
      MemberOperations(arrived[r..r + k], arrived[r + k], arrived[r..r + n]);
      WrittenTwice(Serial(arrived, released, last), Operations(arrived[r..r + k]), Own(arrived[r + k]), o.good);
    }
  }

  // ---------- every step ----------

  lemma ArriveKeepsInv(s: Queue, request: Request, start: nat)
    requires Inv(s, start)
    ensures Inv(Apply(s, Arrive(request)), start)
  {
    var s' := Apply(s, Arrive(request));
    SerialIgnoresLater(s.arrived, [request], s.released, start);
    assert Waiting(s') == Waiting(s) + [request];
    if s.leading.Group? {
      forall j | 0 < j < s.leading.length ensures Joins(Waiting(s'), j) {
        assert Joins(Waiting(s), j);
        assert Waiting(s')[..j + 1] == Waiting(s)[..j + 1];
      }
    }
  }

  predicate Refines(s: Queue, start: nat)
    requires |s.released| <= |s.arrived|
  {
    (s.committed, s.lastSequence) == Serial(s.arrived, s.released, start)
  }

  lemma GroupFinishWrites(s: Queue, good: bool)
    requires |s.released| <= |s.arrived| && s.leading.Group? && Enabled(s, Finish(good))
    ensures var s', n := Apply(s, Finish(good)), s.leading.length;
            && n <= |Waiting(s)|
            && (s'.committed, s'.lastSequence)
            == Written((s.committed, s.lastSequence), Operations(Waiting(s)[..n]), good)
            && s'.arrived == s.arrived
            && s'.released == s.released + Copies(Outcome(good, true, good && Waiting(s)[0].sync), n)
  {
    hide GroupLength, GroupFrom, Stamped, Operations, Copies;
  }

  lemma GroupFinishRefines(s: Queue, good: bool, start: nat)
    requires |s.released| <= |s.arrived| && s.leading.Group? && Enabled(s, Finish(good)) && Refines(s, start)
    ensures Refines(Apply(s, Finish(good)), start)
  {
    hide GroupLength, GroupFrom, Stamped, Operations, Serial, Written, Apply;
    var r, n := |s.released|, s.leading.length;
    GroupFinishWrites(s, good);
    GroupIsSerial(s.arrived, s.released, Outcome(good, true, good && Waiting(s)[0].sync), n, start);
    assert s.arrived[r..r + n] == Waiting(s)[..n];
  }

  lemma LoneFinishRefines(s: Queue, good: bool, start: nat)
    requires |s.released| <= |s.arrived| && s.leading.Alone? && Enabled(s, Finish(good)) && Refines(s, start)
    ensures Refines(Apply(s, Finish(good)), start)
  {
    SerialSnoc(s.arrived, s.released, Outcome(s.leading.good, false, false), start);
  }

  lemma FinishKeepsInv(s: Queue, good: bool, start: nat)
    requires Inv(s, start) && Enabled(s, Finish(good))
    ensures Inv(Apply(s, Finish(good)), start)
  {
    if s.leading.Alone? {
      LoneFinishRefines(s, good, start);
    } else {
      GroupFinishRefines(s, good, start);
      GroupHonoursSync(s, good);
    }
  }

  lemma GroupHonoursSync(s: Queue, good: bool)
    requires |s.released| <= |s.arrived| && LeaderFits(s) && s.leading.Group?
    requires SyncHonoured(s.arrived, s.released)
    ensures SyncHonoured(s.arrived, Apply(s, Finish(good)).released)
  {
    var w, released' := Waiting(s), Apply(s, Finish(good)).released;
    forall i | |s.released| <= i < |released'| && s.arrived[i].sync ensures w[0].sync {
      var j := i - |s.released|;
      assert w[j] == s.arrived[i] && (j > 0 ==> Joins(w, j));
    }
  }

  /** The invariant is kept by arrivals, by a leader taking over, and by a leader finishing. */
  lemma StepKeepsInv(s: Queue, step: Step, start: nat)
    requires Inv(s, start) && Enabled(s, step)
    ensures Inv(Apply(s, step), start)
  {
    match step
    case Arrive(request) => ArriveKeepsInv(s, request, start);
    case Lead(_) =>
    case Finish(good) => FinishKeepsInv(s, good, start);
  }

  predicate Run(s: Queue, steps: seq<Step>)
    decreases |steps|
  {
    steps == [] || (|s.released| <= |s.arrived| && Enabled(s, steps[0]) &&
                    |Apply(s, steps[0]).released| <= |Apply(s, steps[0]).arrived| && Run(Apply(s, steps[0]), steps[1..]))
  }

  function After(s: Queue, steps: seq<Step>): Queue
    requires Run(s, steps)
    decreases |steps|
  {
    if steps == [] then s else After(Apply(s, steps[0]), steps[1..])
  }

  /** Group commit refines serial writes: over any run of the queue, the committed operations and
      the last sequence number are those of writing the released requests one at a time, in the
      order they arrived; and every synced write that succeeded was synced. */
  lemma {:induction false} GroupCommitIsSerial(s: Queue, steps: seq<Step>, start: nat)
    requires Inv(s, start) && Run(s, steps)
    ensures Inv(After(s, steps), start)
    ensures s.released <= After(s, steps).released && s.arrived <= After(s, steps).arrived
    decreases |steps|
  {
    if steps != [] {
      StepKeepsInv(s, steps[0], start);
      GroupCommitIsSerial(Apply(s, steps[0]), steps[1..], start);
    }
  }

  // ---------- sequence numbers ----------

  predicate Ascending(es: seq<Numbered>, from: nat, to: nat) {
    && (forall i, j :: 0 <= i < j < |es| ==> es[i].first < es[j].first)
    && (forall i :: 0 <= i < |es| ==> from < es[i].first <= to)
  }

  /** No sequence number is used twice, and none above the published last one. */
  lemma {:induction false} NumbersAscend(arrived: seq<Request>, released: seq<Outcome>, last: nat)
    requires |released| <= |arrived|
    ensures last <= Serial(arrived, released, last).1
    ensures Ascending(Serial(arrived, released, last).0, last, Serial(arrived, released, last).1)
    decreases |released|
  {
    if released != [] {
      NumbersAscend(arrived, released[..|released| - 1], last);
    }
  }

  /** A waiting queue never stays stuck: a leader can always start, and finishing releases the
      writer at the front. */
  lemma FrontIsReleased(s: Queue, room: bool, good: bool)
    requires |s.released| <= |s.arrived| && s.leading.NoLeader? && Waiting(s) != []
    ensures Enabled(s, Lead(room)) && Enabled(Apply(s, Lead(room)), Finish(good))
    ensures |Apply(Apply(s, Lead(room)), Finish(good)).released| > |s.released|
  {
  }
}

/** The writer queue and its leader's work on real batches. */
module GroupCommit {
  import opened InternalKeys
  import opened LogFormat
  import opened FlatSpec
  import opened Coding
  import opened BatchFormat
  import opened WriteBatches
  import opened GroupSteps
  import Store
  import MemTables

  class Writer {
    const batch: WriteBatch?
    const sync: bool
    var done: bool
    var good: bool

    constructor (batch: WriteBatch?, sync: bool)
      ensures this.batch == batch && this.sync == sync && !done
    {
      this.batch, this.sync, done, good := batch, sync, false, true;
    }
  }

  ghost function Batches(ws: seq<Writer>): set<WriteBatch> {
    set w | w in ws && w.batch != null :: w.batch
  }

  ghost function View(w: Writer): Request
    reads if w.batch != null then {w.batch} else {}
  {
    if w.batch != null then Request(Some(Contents(w.batch.rep)), |w.batch.rep|, w.sync) else Request(None, 0, w.sync)
  }

  lemma OneBatch(ws: seq<Writer>, i: nat)
    requires i < |ws| && ws[i].batch != null
    ensures ws[i].batch in Batches(ws)
  {
    assert ws[i] in ws;
  }

  ghost function Views(ws: seq<Writer>): (q: seq<Request>)
    reads Batches(ws)
    ensures |q| == |ws|
  {
    assert forall i :: 0 <= i < |ws| ==> ws[i] in ws;
    seq(|ws|, i requires 0 <= i < |ws| reads Batches(ws) => View(ws[i]))
  }

  lemma ViewAt(ws: seq<Writer>, i: nat)
    requires i < |ws|
    ensures Views(ws)[i] == View(ws[i])
  {
  }

  ghost predicate AllSound(ws: seq<Writer>)
    reads Batches(ws)
  {
    forall b :: b in Batches(ws) ==> Sound(b.rep)
  }

  lemma OneMoreOperation(q: seq<Request>, i: nat)
    requires i < |q|
    ensures Operations(q[..i + 1]) == Operations(q[..i]) + Own(q[i])
    ensures Bytes(q[..i + 1]) == Bytes(q[..i]) + if q[i].batch.Some? then q[i].size else 0
  {
    assert q[..i + 1] == q[..i] + [q[i]];
    OperationsSnoc(q[..i], q[i]);
    BytesSnoc(q[..i], q[i]);
  }

  lemma BytesSnoc(q: seq<Request>, r: Request)
    ensures Bytes(q + [r]) == Bytes(q) + if r.batch.Some? then r.size else 0
  {
    assert (q + [r])[..|q|] == q;
  }

  lemma LeaderAlone(ws: seq<Writer>)
    requires ws != [] && ws[0].batch != null
    ensures var q := Views(ws);
            && Operations(q[..1]) == Contents(ws[0].batch.rep) && Bytes(q[..1]) == |ws[0].batch.rep| == q[0].size
            && q[0].sync == ws[0].sync
  {
    ViewAt(ws, 0);
    OneMoreOperation(Views(ws), 0);
    assert Views(ws)[..0] == [];
  }

  lemma MemberAdds(ws: seq<Writer>, i: nat)
    requires i < |ws|
    ensures var q, b := Views(ws), ws[i].batch;
            && q[i].sync == ws[i].sync && q[i].batch.Some? == (b != null)
            && Operations(q[..i + 1]) == Operations(q[..i]) + (if b != null then Contents(b.rep) else [])
            && Bytes(q[..i + 1]) == Bytes(q[..i]) + (if b != null then |b.rep| else 0)
  {
    ViewAt(ws, i);
    OneMoreOperation(Views(ws), i);
  }

  /** A log record that replays as these operations under these numbers. */
  predicate Logged(bytes: seq<Byte>, first: nat, ops: seq<Record>) {
    Sound(bytes) && Sequence(bytes) == first && Contents(bytes) == ops
  }

  lemma CountIsExact(rep: seq<Byte>)
    requires Sound(rep) && |Contents(rep)| < TWO_32
    ensures Count(rep) == |Contents(rep)|
  {
  }

  class WriteQueue {
    var writers: seq<Writer>
    var lastSequence: nat
    var log: seq<seq<Byte>>
    var backgroundError: bool
    const tmpBatch: WriteBatch

    constructor ()
      ensures writers == [] && lastSequence == 0 && log == [] && !backgroundError && fresh(tmpBatch)
      ensures Sound(tmpBatch.rep) && Contents(tmpBatch.rep) == []
    {
      tmpBatch := new WriteBatch();
      writers, lastSequence, log, backgroundError := [], 0, [], false;
    }

    /** The batch being built holds `held`; the temporary batch is blank until it is needed. */
    ghost predicate Holds(result: WriteBatch, held: seq<Record>)
      requires writers != []
      reads this, result, tmpBatch
    {
      && (result == writers[0].batch || result == tmpBatch)
      && Sound(result.rep) && Contents(result.rep) == held
      && (result == writers[0].batch ==> Sound(tmpBatch.rep) && Contents(tmpBatch.rep) == [])
    }

    ghost predicate Ready()
      reads this, Batches(writers)
    {
      writers != [] && writers[0].batch != null && AllSound(writers) && tmpBatch !in Batches(writers)
    }

    /** Gathers the group of the first writer. Its batch is used as it is when it stays alone;
        otherwise the temporary batch collects every member's operations. */
    method BuildBatchGroup() returns (length: nat, result: WriteBatch)
      requires Ready() && Sound(tmpBatch.rep) && Contents(tmpBatch.rep) == []
      modifies tmpBatch
      ensures length == GroupLength(Views(writers))
      ensures Holds(result, Operations(Views(writers)[..length]))
    {
      hide Sound, Operations;
      ghost var q := Views(writers);
      OneBatch(writers, 0);
      LeaderAlone(writers);
      result := writers[0].batch;
      var size := |result.rep|;
      var maxSize := if size <= SMALL then size + SMALL else LARGE;
      length := 1;
      var joins := true;
      while joins && length < |writers|
        invariant 1 <= length <= |writers| && Views(writers) == q && Ready()
        invariant GroupLength(q) == if joins then GroupFrom(q, length) else length
        invariant joins ==> size == Bytes(q[..length])
        invariant Holds(result, Operations(q[..length]))
        decreases joins, |writers| - length
      {
        joins, size, result := Consider(length, size, maxSize, result);
        if joins {
          length := length + 1;
        }
      }
    }

    /** Whether the writer at `i` joins the group, and the batch with its operations if so. */
    method Consider(i: nat, size: nat, maxSize: nat, result: WriteBatch)
        returns (joins: bool, total: nat, joined: WriteBatch)
      requires Ready() && 0 < i < |writers| && maxSize == MaxSize(|writers[0].batch.rep|)
      requires size == Bytes(Views(writers)[..i]) && Holds(result, Operations(Views(writers)[..i]))
      modifies tmpBatch
      ensures joins <==> Joins(Views(writers), i)
      ensures joins ==> total == Bytes(Views(writers)[..i + 1])
      ensures Holds(joined, Operations(Views(writers)[..if joins then i + 1 else i]))
    {
      var w := writers[i];
      MemberAdds(writers, i);
      LeaderAlone(writers);
      OneBatch(writers, 0);
      joins, total, joined := true, size, result;
      if w.sync && !writers[0].sync {
        return false, total, joined;
      }
      if w.batch != null {
        OneBatch(writers, i);
        total := total + |w.batch.rep|;
        if total > maxSize {
          return false, total, joined;
        }
        joined := Join(result, writers[0].batch, w.batch);
      }
    }

    /** Appends one member's batch, switching to the temporary batch for the first of them. */
    method Join(result: WriteBatch, first: WriteBatch, added: WriteBatch) returns (joined: WriteBatch)
      requires result == first || result == tmpBatch
      requires Sound(result.rep) && Sound(added.rep) && first != tmpBatch && added != tmpBatch
      requires result == first ==> Sound(tmpBatch.rep) && Contents(tmpBatch.rep) == []
      modifies tmpBatch
      ensures joined == tmpBatch && Sound(joined.rep)
      ensures Contents(joined.rep) == old(Contents(result.rep)) + Contents(added.rep)
    {
      ghost var held := Contents(result.rep);
      joined := result;
      if joined == first {
        joined := tmpBatch;
        joined.Append(first);
        assert [] + held == held;
      }
      assert Contents(joined.rep) == held;
      joined.Append(added);
    }

    /** The leader's work between taking the front of the queue and releasing its group: number the
        group's operations, log them as one record, sync if the leader asked for it, and apply them.
        `appended` and `synced` say how the file system answers. */
    method WriteGroup(appended: bool, synced: bool, mem: MemTables.MemTable,
                      rank: seq<Byte> -> UserKey, text: seq<Byte> -> UserValue)
        returns (length: nat, good: bool, ghost record: seq<Byte>)
      requires Ready() && Sound(tmpBatch.rep) && Contents(tmpBatch.rep) == []
      requires |GroupOperations()| < 0x8000_0000 && lastSequence + |GroupOperations()| <= MAX_SEQUENCE_NUMBER
      requires Sorted(mem.table) && forall e :: e in mem.table ==> e.ikey.seqno <= lastSequence
      modifies this`lastSequence, this`log, this`backgroundError, tmpBatch, writers[0].batch, mem
      ensures length == GroupLength(old(Views(writers)))
      ensures good == (appended && (writers[0].sync ==> synced))
      ensures lastSequence == old(lastSequence) + |old(GroupOperations())|
      ensures Sorted(mem.table)
      ensures Elems(mem.table) == old(Elems(mem.table)) +
              if good then Elems(Store.Stamp(Meanings(old(GroupOperations()), rank, text), old(lastSequence) + 1)) else {}
      ensures good && UniqueSeq(old(Elems(mem.table))) ==>
                BatchTakesEffect(old(Elems(mem.table)), Elems(mem.table), old(GroupOperations()), old(lastSequence) + 1,
                                 rank, text)
      ensures Logged(record, old(lastSequence) + 1, old(GroupOperations()))
      ensures log == if appended then old(log) + [record] else old(log)
      ensures backgroundError == (old(backgroundError) || (appended && !good))
      ensures Sound(tmpBatch.rep) && Contents(tmpBatch.rep) == []
    {
      hide Sound, Contents, GroupLength, Logged, BatchTakesEffect, UniqueSeq, Meanings, Sorted, Store.Stamp;
      var updates;
      length, updates := BuildBatchGroup();
      Number(updates);
      record := updates.rep;
      good := Persist(updates, writers[0].sync, appended, synced, mem, rank, text);
      if updates == tmpBatch {
        tmpBatch.Clear();
      }
    }

    /** The batch takes the next sequence numbers. */
    method Number(updates: WriteBatch)
      requires Sound(updates.rep) && |Contents(updates.rep)| < 0x8000_0000
      requires lastSequence + |Contents(updates.rep)| <= MAX_SEQUENCE_NUMBER
      modifies this`lastSequence, updates
      ensures Logged(updates.rep, old(lastSequence) + 1, old(Contents(updates.rep)))
      ensures lastSequence == old(lastSequence) + |old(Contents(updates.rep))|
    {
      updates.SetSequence(lastSequence + 1);
      CountIsExact(updates.rep);
      lastSequence := lastSequence + Count(updates.rep);
    }

    /** Appends the record to the log, syncs it if asked to, and applies it to the memtable. */
    method Persist(updates: WriteBatch, sync: bool, appended: bool, synced: bool, mem: MemTables.MemTable,
                   rank: seq<Byte> -> UserKey, text: seq<Byte> -> UserValue)
        returns (good: bool)
      requires Sound(updates.rep)
      requires Sorted(mem.table) && forall e :: e in mem.table ==> e.ikey.seqno < Sequence(updates.rep)
      modifies this`log, this`backgroundError, mem
      ensures good == (appended && (sync ==> synced))
      ensures Sorted(mem.table)
      ensures Elems(mem.table) == old(Elems(mem.table)) +
              if good then Elems(Store.Stamp(Meanings(Contents(updates.rep), rank, text), Sequence(updates.rep))) else {}
      ensures good && UniqueSeq(old(Elems(mem.table))) ==>
                BatchTakesEffect(old(Elems(mem.table)), Elems(mem.table), Contents(updates.rep), Sequence(updates.rep),
                                 rank, text)
      ensures log == if appended then old(log) + [updates.rep] else old(log)
      ensures backgroundError == (old(backgroundError) || (appended && !good))
    {
      hide BatchTakesEffect, UniqueSeq, Meanings;
      good := appended;
      if appended {
        log := log + [updates.rep];
        if sync && !synced {
          good := false;
          backgroundError := true;
        }
      }
      if good {
        var status := updates.InsertInto(mem, rank, text);
      }
    }

    ghost function GroupOperations(): seq<Record>
      requires writers != []
      reads this, Batches(writers)
    {
      Operations(Views(writers)[..GroupLength(Views(writers))])
    }

    /** Pops the group from the queue and hands its status to every member but the leader. */
    method Release(length: nat, good: bool)
      requires 0 < length <= |writers| && forall i, j :: 0 <= i < j < |writers| ==> writers[i] != writers[j]
      modifies this`writers, set w | w in writers
      ensures writers == old(writers)[length..]
      ensures forall i :: 0 < i < length ==> old(writers)[i].done && old(writers)[i].good == good
      ensures forall i :: 0 <= i < |old(writers)| && !(0 < i < length) ==>
                old(writers)[i].done == old(writers[i].done) && old(writers)[i].good == old(writers[i].good)
    {
      ghost var all := writers;
      var leader, last := writers[0], writers[length - 1];
      ghost var k := 0;
      while true
        invariant 0 <= k < length && writers == all[k..]
        invariant forall i :: 0 < i < k ==> all[i].done && all[i].good == good
        invariant forall i :: 0 <= i < |all| && !(0 < i < k) ==>
                    all[i].done == old(all[i].done) && all[i].good == old(all[i].good)
        decreases length - k
      {
        var ready := writers[0];
        assert ready == all[k];
        writers := writers[1..];
        if ready != leader {
          ready.good := good;
          ready.done := true;
        }
        if ready == last {
          assert k == length - 1;
          break;
        }
        k := k + 1;
      }
    }
  }
}

/** A group is one write to the store and equals the writes of its members. */
module GroupRefinement {
  import opened InternalKeys
  import opened Store
  import opened SnapshotIsolation

  function Flat(groups: seq<seq<Op>>): seq<Op> {
    if groups == [] then [] else groups[0] + Flat(groups[1..])
  }

  function Writes(groups: seq<seq<Op>>): seq<Step> {
    seq(|groups|, i requires 0 <= i < |groups| => Write(groups[i]))
  }

  lemma StampConcat(a: seq<Op>, b: seq<Op>, first: nat)
    ensures Stamp(a + b, first) == Stamp(a, first) + Stamp(b, first + |a|)
  {
  }

  lemma WriteSplits(st: State, a: seq<Op>, b: seq<Op>)
    requires Enabled(st, Write(a + b))
    ensures Enabled(st, Write(a)) && Enabled(Apply(st, Write(a)), Write(b))
    ensures Apply(Apply(st, Write(a)), Write(b)) == Apply(st, Write(a + b))
  {
    StampConcat(a, b, st.lastSeq + 1);
    var x, y := Stamp(a, st.lastSeq + 1), Stamp(b, st.lastSeq + 1 + |a|);
    assert st.hist + (x + y) == st.hist + x + y;
    assert st.mem + Elems(x + y) == st.mem + Elems(x) + Elems(y);
  }

  lemma WriteNothing(st: State)
    ensures st.lastSeq < MAX_SEQUENCE_NUMBER ==> Apply(st, Write([])) == st
  {
    assert st.hist + Stamp([], st.lastSeq + 1) == st.hist;
    assert st.mem + Elems(Stamp([], st.lastSeq + 1)) == st.mem;
  }

  /** One combined write leaves the store exactly as its members' writes in order would. */
  lemma {:induction false} GroupWriteIsSerialWrites(st: State, groups: seq<seq<Op>>)
    requires Enabled(st, Write(Flat(groups)))
    ensures Run(st, Writes(groups)) && After(st, Writes(groups)) == Apply(st, Write(Flat(groups)))
    decreases |groups|
  {
    if groups == [] {
      WriteNothing(st);
    } else {
      WriteSplits(st, groups[0], Flat(groups[1..]));
      GroupWriteIsSerialWrites(Apply(st, Write(groups[0])), groups[1..]);
      assert Writes(groups)[1..] == Writes(groups[1..]);
    }
  }
}
