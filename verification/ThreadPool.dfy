/** The state of libuv's thread pool (src/threadpool.c) and what every step of it keeps. */
module PoolState {
  type Item = nat

  /** An entry of the work queue: an item, or the message that slow work is waiting. */
  datatype Queued = Work(item: Item) | RunSlow

  /** Where a worker thread stands. A signalled worker has been woken but has not the mutex
      yet; a returning one has reported its result and not locked the mutex again. */
  datatype Worker = Checking | Waiting | Signaled | Running(item: Item, slow: bool) | Returning(slow: bool)

  /** The `work` pointer: the function to run, cleared once it has run, or the cancelled mark. */
  datatype WorkPtr = Function | Null | Cancelled

  /** `loopQueue` holds finished items for the event loop, `local` the part uv__work_done has
      moved off it, `cancelling` what uv_cancel has unlinked and not yet handed over. The
      last three fields are history. */
  datatype Pool = Pool(
    n: nat, wq: seq<Queued>, pending: seq<Item>, slowRunning: nat, idle: nat, workers: seq<Worker>,
    loopQueue: seq<Item>, local: seq<Item>, cancelling: seq<Item>, work: map<Item, WorkPtr>,
    executed: set<Item>, cancelled: set<Item>, done: seq<Item>)

  // ---------- counting workers ----------

  predicate IsSlow(w: Worker) {
    (w.Running? || w.Returning?) && w.slow
  }

  /** How many workers count as running slow work. */
  function Slow(ws: seq<Worker>): nat {
    if ws == [] then 0 else Slow(ws[..|ws|-1]) + if IsSlow(ws[|ws|-1]) then 1 else 0
  }

  lemma {:induction false} SlowUpdate(ws: seq<Worker>, j: nat, w: Worker)
    requires j < |ws|
    ensures Slow(ws[j := w]) + (if IsSlow(ws[j]) then 1 else 0) == Slow(ws) + (if IsSlow(w) then 1 else 0)
  {
    var n := |ws| - 1;
    if j == n {
      assert ws[j := w][..n] == ws[..n];
    } else {
      SlowUpdate(ws[..n], j, w);
      assert ws[j := w][..n] == ws[..n][j := w];
    }
  }

  lemma {:induction false} SlowNone(ws: seq<Worker>)
    requires forall j :: 0 <= j < |ws| ==> !IsSlow(ws[j])
    ensures Slow(ws) == 0
  {
    if ws != [] { SlowNone(ws[..|ws|-1]); }
  }

  /** The workers idle_threads counts. */
  function Idle(ws: seq<Worker>): nat {
    multiset(ws)[Waiting] + multiset(ws)[Signaled]
  }

  /** The workers about to look at the queue. */
  function Awake(ws: seq<Worker>): nat {
    multiset(ws)[Checking] + multiset(ws)[Signaled]
  }

  /** How many workers are running an item. */
  function Runners(ws: seq<Worker>, i: Item): nat {
    multiset(ws)[Running(i, true)] + multiset(ws)[Running(i, false)]
  }

  lemma MoveWorker(ws: seq<Worker>, j: nat, w: Worker)
    requires j < |ws|
    ensures multiset(ws[j := w]) == multiset(ws) - multiset{ws[j]} + multiset{w} && ws[j] in multiset(ws)
    ensures Slow(ws[j := w]) + (if IsSlow(ws[j]) then 1 else 0) == Slow(ws) + (if IsSlow(w) then 1 else 0)
    ensures !w.Waiting? && Waiting in ws[j := w] ==> Waiting in ws
  {
    SlowUpdate(ws, j, w);
  }

  // ---------- the invariant ----------

  /** slow_work_thread_threshold */
  function Threshold(n: nat): nat {
    (n + 1) / 2
  }

  /** The counters count; slow work keeps to its share of the threads; the slow-work message
      is queued at most once, and whenever slow work is pending. */
  ghost predicate Counters(p: Pool) {
    && |p.workers| == p.n > 0
    && multiset(p.wq)[RunSlow] <= 1
    && p.slowRunning == Slow(p.workers) <= Threshold(p.n)
    && p.idle == Idle(p.workers)
    && (p.pending != [] ==> RunSlow in p.wq)
  }

  /** How many queue entries a worker could act on now. */
  function Runnable(wq: seq<Queued>, slowRunning: nat, n: nat): nat {
    if RunSlow in wq && slowRunning >= Threshold(n) then |wq| - 1 else |wq|
  }

  /** No lost wakeup, and no lost parallelism: while a worker sleeps with no wakeup on its
      way, as many workers are awake and free as there are entries to act on. */
  ghost predicate Conserving(p: Pool) {
    Waiting in p.workers ==> Awake(p.workers) >= Runnable(p.wq, p.slowRunning, p.n)
  }

  /** In how many places an item is: queued, running, on its way to the loop, delivered. */
  function Places(p: Pool, i: Item): nat {
    multiset(p.wq)[Work(i)] + multiset(p.pending)[i] + Runners(p.workers, i) +
    multiset(p.loopQueue)[i] + multiset(p.local)[i] + multiset(p.cancelling)[i] + multiset(p.done)[i]
  }

  /** Every submitted item is in exactly one place. */
  ghost predicate Placed(p: Pool) {
    |p.cancelling| <= 1 && forall i :: Places(p, i) == if i in p.work then 1 else 0
  }

  ghost predicate Pristine(p: Pool, i: Item) {
    i in p.work && p.work[i].Function? && i !in p.executed && i !in p.cancelled
  }

  ghost predicate InFlight(p: Pool, i: Item) {
    i in p.work && p.work[i].Function? && i in p.executed
  }

  ghost predicate Settled(p: Pool, i: Item) {
    && i in p.work && !p.work[i].Function?
    && (p.work[i].Null? <==> i in p.executed) && (p.work[i].Cancelled? <==> i in p.cancelled)
  }

  /** Executed or cancelled, never both: a queued item is neither yet, one on its way back
      or delivered is exactly one of them, and its work pointer says which. */
  ghost predicate Marked(p: Pool) {
    && p.executed !! p.cancelled && p.executed + p.cancelled <= p.work.Keys
    && (forall i :: Work(i) in p.wq || i in p.pending ==> Pristine(p, i))
    && (forall i :: Runners(p.workers, i) > 0 ==> InFlight(p, i))
    && (forall i :: i in p.loopQueue || i in p.local || i in p.cancelling || i in p.done ==> Settled(p, i))
  }

  ghost predicate Inv(p: Pool) {
    Counters(p) && Conserving(p) && Placed(p) && Marked(p)
  }

  /** If every worker sleeps unwoken, nothing is left to do: no item is stranded. */
  lemma AsleepMeansIdle(p: Pool)
    requires Inv(p) && forall j :: 0 <= j < |p.workers| ==> p.workers[j].Waiting?
    ensures p.wq == [] && p.pending == []
  {
    SlowNone(p.workers);
    assert p.workers[0] == Waiting;
    assert Checking !in multiset(p.workers) && Signaled !in multiset(p.workers);
  }

  /** Slow work takes at most half of the threads, rounded up; and it waits only while it takes half of them. */
  lemma SlowTakesHalf(p: Pool)
    requires Inv(p)
    ensures 2 * Slow(p.workers) <= p.n + 1
    ensures Runnable(p.wq, p.slowRunning, p.n) < |p.wq| ==> 2 * Slow(p.workers) >= p.n
  {
  }

  /** A delivered item was executed or cancelled, not both, and is delivered once. */
  lemma DeliveredOnce(p: Pool, i: Item)
    requires Inv(p) && i in p.done
    ensures multiset(p.done)[i] == 1 && (i in p.executed <==> i !in p.cancelled)
    ensures Work(i) !in p.wq && i !in p.pending && Runners(p.workers, i) == 0
  {
    assert Places(p, i) == 1 && multiset(p.done)[i] > 0;
  }

  // ---------- signals ----------

  ghost predicate Woken(ws: seq<Worker>, ws': seq<Worker>) {
    (ws' == ws && Waiting !in ws) || exists j :: 0 <= j < |ws| && WokenAt(ws, ws', j)
  }

  predicate WokenAt(ws: seq<Worker>, ws': seq<Worker>, j: nat)
    requires j < |ws|
  {
    ws[j].Waiting? && ws' == ws[j := Signaled]
  }

  lemma WokenKeeps(ws: seq<Worker>, ws': seq<Worker>, j: nat)
    requires Woken(ws, ws') && j < |ws| && !ws[j].Waiting?
    ensures |ws'| == |ws| && ws'[j] == ws[j]
  {
  }

  lemma WokenCounts(ws: seq<Worker>, ws': seq<Worker>)
    requires Woken(ws, ws')
    ensures |ws'| == |ws| && Slow(ws') == Slow(ws) && Idle(ws') == Idle(ws)
    ensures Waiting in ws ==> Awake(ws') == Awake(ws) + 1
    ensures Waiting in ws' ==> Waiting in ws
    ensures forall i :: Runners(ws', i) == Runners(ws, i)
  {
    if Waiting in ws {
      var j :| 0 <= j < |ws| && WokenAt(ws, ws', j);
      SlowUpdate(ws, j, Signaled);
    }
  }

  lemma NobodyIdle(ws: seq<Worker>)
    requires Idle(ws) == 0
    ensures Woken(ws, ws)
  {
    assert Waiting !in multiset(ws);
  }

  // ---------- submitting ----------

  /** The state after uv__work_submit: `q` is the queue entry posted, `ws` the workers after the signal. */
  function Submitted(p: Pool, i: Item, slow: bool, ws: seq<Worker>): Pool {
    var q := if slow then RunSlow else Work(i);
    p.(work := p.work[i := Function],
       pending := if slow then p.pending + [i] else p.pending,
       wq := if slow && RunSlow in p.wq then p.wq else p.wq + [q],
       workers := ws)
  }

  ghost predicate SubmitWakes(p: Pool, slow: bool, ws: seq<Worker>) {
    if slow && RunSlow in p.wq then ws == p.workers else Woken(p.workers, ws)
  }

  lemma SubmitCounts(p: Pool, i: Item, slow: bool, ws: seq<Worker>)
    requires Counters(p) && Conserving(p) && SubmitWakes(p, slow, ws)
    ensures Counters(Submitted(p, i, slow, ws)) && Conserving(Submitted(p, i, slow, ws))
    ensures forall k :: Runners(ws, k) == Runners(p.workers, k)
  {
    if !(slow && RunSlow in p.wq) { WokenCounts(p.workers, ws); }
  }

  lemma SubmitPlaced(p: Pool, i: Item, slow: bool, ws: seq<Worker>)
    requires Placed(p) && i !in p.work && forall k :: Runners(ws, k) == Runners(p.workers, k)
    ensures Placed(Submitted(p, i, slow, ws))
  {
    assert Places(p, i) == 0;
    var p' := Submitted(p, i, slow, ws);
    forall k ensures Places(p', k) == Places(p, k) + if k == i then 1 else 0 {
    }
  }

  lemma SubmitMarked(p: Pool, i: Item, slow: bool, ws: seq<Worker>)
    requires Marked(p) && i !in p.work && forall k :: Runners(ws, k) == Runners(p.workers, k)
    ensures Marked(Submitted(p, i, slow, ws))
  {
    var p' := Submitted(p, i, slow, ws);
    forall k | Work(k) in p'.wq || k in p'.pending ensures Pristine(p', k) {
      assert k != i ==> Pristine(p, k);
    }
    forall k | Runners(p'.workers, k) > 0 ensures InFlight(p', k) {
      assert InFlight(p, k);
    }
    forall k | k in p.loopQueue || k in p.local || k in p.cancelling || k in p.done ensures Settled(p', k) {
      assert Settled(p, k);
    }
  }

  lemma SubmitKeepsInv(p: Pool, i: Item, slow: bool, ws: seq<Worker>)
    requires Inv(p) && i !in p.work && SubmitWakes(p, slow, ws)
    ensures Inv(Submitted(p, i, slow, ws))
  {
    SubmitCounts(p, i, slow, ws);
    SubmitPlaced(p, i, slow, ws);
    SubmitMarked(p, i, slow, ws);
  }

  // ---------- a worker with the mutex ----------

  lemma HeadGone<T>(s: seq<T>)
    requires s != []
    ensures multiset(s) == multiset(s[1..]) + multiset{s[0]}
  {
    assert s == [s[0]] + s[1..];
  }

  /** It goes to sleep, or wakes up. */
  function Slept(p: Pool, j: nat): Pool
    requires j < |p.workers|
  {
    p.(idle := p.idle + 1, workers := p.workers[j := Waiting])
  }

  function WokenUp(p: Pool, j: nat): Pool
    requires j < |p.workers| && p.idle > 0
  {
    p.(idle := p.idle - 1, workers := p.workers[j := Checking])
  }

  lemma MovedWorkerPlaces(p: Pool, p': Pool, j: nat, w: Worker)
    requires j < |p.workers| && !p.workers[j].Running? && !w.Running?
    requires p' == p.(workers := p.workers[j := w], idle := p'.idle, slowRunning := p'.slowRunning)
    requires Placed(p) && Marked(p)
    ensures Placed(p') && Marked(p')
  {
    MoveWorker(p.workers, j, w);
    forall k ensures Runners(p'.workers, k) == Runners(p.workers, k) {
    }
    forall k ensures Places(p', k) == Places(p, k) {
    }
    SameMarks(p, p');
  }

  lemma SameMarks(p: Pool, p': Pool)
    requires Marked(p) && p'.work == p.work && p'.executed == p.executed && p'.cancelled == p.cancelled
    requires forall k :: Runners(p'.workers, k) > 0 ==> Runners(p.workers, k) > 0
    requires forall k :: Work(k) in p'.wq || k in p'.pending ==> Work(k) in p.wq || k in p.pending
    requires forall k :: k in p'.loopQueue || k in p'.local || k in p'.cancelling || k in p'.done ==>
                           k in p.loopQueue || k in p.local || k in p.cancelling || k in p.done
    ensures Marked(p')
  {
    forall k | Work(k) in p'.wq || k in p'.pending ensures Pristine(p', k) { assert Pristine(p, k); }
    forall k | Runners(p'.workers, k) > 0 ensures InFlight(p', k) { assert InFlight(p, k); }
    forall k | k in p'.loopQueue || k in p'.local || k in p'.cancelling || k in p'.done ensures Settled(p', k) {
      assert Settled(p, k);
    }
  }

  lemma SleepKeepsInv(p: Pool, j: nat)
    requires Inv(p) && j < |p.workers| && p.workers[j].Checking? && Runnable(p.wq, p.slowRunning, p.n) == 0
    ensures Inv(Slept(p, j))
  {
    MoveWorker(p.workers, j, Waiting);
    MovedWorkerPlaces(p, Slept(p, j), j, Waiting);
  }

  lemma WakeKeepsInv(p: Pool, j: nat)
    requires Inv(p) && j < |p.workers| && (p.workers[j].Waiting? || p.workers[j].Signaled?)
    ensures p.idle > 0 && Inv(WokenUp(p, j))
  {
    MoveWorker(p.workers, j, Checking);
    MovedWorkerPlaces(p, WokenUp(p, j), j, Checking);
  }

  /** The slow-work message goes behind the other entries while slow work is at its share. */
  lemma RotateKeepsInv(p: Pool)
    requires Inv(p) && p.wq != [] && p.wq[0].RunSlow? && p.slowRunning >= Threshold(p.n)
    ensures Inv(p.(wq := p.wq[1..] + [RunSlow]))
    ensures |p.wq| > 1 ==> p.wq[1].Work?
  {
    hide Slow, Idle, Awake, Runners;
    HeadGone(p.wq);
    SameQueue(p, p.wq[1..] + [RunSlow]);
    if |p.wq| > 1 { assert p.wq[1] in multiset(p.wq[1..]); }
  }

  /** The invariant does not depend on the order of the queue. */
  lemma SameQueue(p: Pool, wq: seq<Queued>)
    requires Inv(p) && multiset(wq) == multiset(p.wq)
    ensures Inv(p.(wq := wq))
  {
    hide Slow, Idle, Awake, Runners;
    var p' := p.(wq := wq);
    assert |wq| == |multiset(wq)| == |multiset(p.wq)| == |p.wq|;
    assert forall q :: q in wq <==> q in multiset(p.wq);
    forall k ensures Places(p', k) == Places(p, k) {
    }
    SameMarks(p, p');
  }

  /** It is dropped when the slow work it announced was cancelled. */
  lemma DropKeepsInv(p: Pool)
    requires Inv(p) && p.wq != [] && p.wq[0].RunSlow? && p.slowRunning < Threshold(p.n) && p.pending == []
    ensures Inv(p.(wq := p.wq[1..]))
  {
    var p' := p.(wq := p.wq[1..]);
    HeadGone(p.wq);
    forall k ensures Places(p', k) == Places(p, k) {
    }
    SameMarks(p, p');
  }

  /** It takes the item at the head of the queue. */
  function TookFast(p: Pool, j: nat): Pool
    requires j < |p.workers| && p.wq != [] && p.wq[0].Work?
  {
    p.(wq := p.wq[1..], workers := p.workers[j := Running(p.wq[0].item, false)], executed := p.executed + {p.wq[0].item})
  }

  lemma TakeFastKeepsInv(p: Pool, j: nat)
    requires Inv(p) && j < |p.workers| && p.workers[j].Checking? && p.wq != [] && p.wq[0].Work?
    ensures Inv(TookFast(p, j))
  {
    var i := p.wq[0].item;
    TakeFastCounts(p, j);
    RunnersAfterTake(p.workers, j, i, false);
    forall k ensures Places(TookFast(p, j), k) == Places(p, k) {
      TakeFastPlaces(p, j, k);
    }
    TakenMarks(p, TookFast(p, j), i);
  }

  lemma TakeFastCounts(p: Pool, j: nat)
    requires Counters(p) && Conserving(p) && j < |p.workers| && p.workers[j].Checking? && p.wq != [] && p.wq[0].Work?
    ensures Counters(TookFast(p, j)) && Conserving(TookFast(p, j))
  {
    HeadGone(p.wq);
    MoveWorker(p.workers, j, Running(p.wq[0].item, false));
  }

  lemma RunnersAfterTake(ws: seq<Worker>, j: nat, i: Item, slow: bool)
    requires j < |ws| && ws[j].Checking?
    ensures forall k :: Runners(ws[j := Running(i, slow)], k) == Runners(ws, k) + if k == i then 1 else 0
  {
    MoveWorker(ws, j, Running(i, slow));
  }

  lemma TakeFastPlaces(p: Pool, j: nat, k: Item)
    requires j < |p.workers| && p.workers[j].Checking? && p.wq != [] && p.wq[0].Work?
    ensures Places(TookFast(p, j), k) == Places(p, k)
  {
    HeadGone(p.wq);
    RunnersAfterTake(p.workers, j, p.wq[0].item, false);
  }

  /** An item that leaves its queue for a worker counts as executed. */
  lemma TakenMarks(p: Pool, p': Pool, i: Item)
    requires Marked(p) && Placed(p) && Placed(p') && (Work(i) in p.wq || i in p.pending)
    requires p'.work == p.work && p'.executed == p.executed + {i} && p'.cancelled == p.cancelled
    requires forall k :: Runners(p'.workers, k) == Runners(p.workers, k) + if k == i then 1 else 0
    requires forall k :: Work(k) in p'.wq || k in p'.pending ==> Work(k) in p.wq || k in p.pending
    requires p'.loopQueue == p.loopQueue && p'.local == p.local && p'.cancelling == p.cancelling && p'.done == p.done
    ensures Marked(p')
  {
    assert Pristine(p, i) && Places(p', i) == 1 && Places(p, i) == 1;
    forall k | Work(k) in p'.wq || k in p'.pending ensures Pristine(p', k) {
      assert k != i && Pristine(p, k);
    }
    forall k | Runners(p'.workers, k) > 0 ensures InFlight(p', k) {
      assert k != i ==> InFlight(p, k);
    }
    forall k | k in p'.loopQueue || k in p'.local || k in p'.cancelling || k in p'.done ensures Settled(p', k) {
      assert Settled(p, k) && k != i;
    }
  }

  /** It takes the oldest slow item; the message goes back, with a signal, if more are waiting. */
  function TookSlow(p: Pool, j: nat, ws: seq<Worker>): Pool
    requires p.wq != [] && p.pending != []
  {
    p.(wq := if |p.pending| == 1 then p.wq[1..] else p.wq[1..] + [RunSlow], pending := p.pending[1..],
       slowRunning := p.slowRunning + 1, workers := ws, executed := p.executed + {p.pending[0]})
  }

  ghost predicate TakeSlowWakes(p: Pool, j: nat, ws: seq<Worker>)
    requires j < |p.workers| && p.pending != []
  {
    var ws1 := p.workers[j := Running(p.pending[0], true)];
    if |p.pending| == 1 then ws == ws1 else Woken(ws1, ws)
  }

  lemma TakeSlowKeepsInv(p: Pool, j: nat, ws: seq<Worker>)
    requires Inv(p) && j < |p.workers| && p.workers[j].Checking? && p.wq != [] && p.wq[0].RunSlow?
    requires p.pending != [] && p.slowRunning < Threshold(p.n) && TakeSlowWakes(p, j, ws)
    ensures Inv(TookSlow(p, j, ws))
  {
    hide Counters, Conserving, Places;
    var i := p.pending[0];
    TakeSlowCounts(p, j, ws);
    RunnersAfterSlow(p, j, ws);
    forall k ensures Places(TookSlow(p, j, ws), k) == Places(p, k) {
      TakeSlowPlaces(p, j, ws, k);
    }
    TakenMarks(p, TookSlow(p, j, ws), i);
  }

  lemma RunnersAfterSlow(p: Pool, j: nat, ws: seq<Worker>)
    requires j < |p.workers| && p.workers[j].Checking? && p.pending != [] && TakeSlowWakes(p, j, ws)
    ensures forall k :: Runners(ws, k) == Runners(p.workers, k) + if k == p.pending[0] then 1 else 0
  {
    RunnersAfterTake(p.workers, j, p.pending[0], true);
    if |p.pending| > 1 { WokenCounts(p.workers[j := Running(p.pending[0], true)], ws); }
  }

  lemma TakeSlowPlaces(p: Pool, j: nat, ws: seq<Worker>, k: Item)
    requires j < |p.workers| && p.workers[j].Checking? && p.wq != [] && p.wq[0].RunSlow? && p.pending != []
    requires TakeSlowWakes(p, j, ws)
    ensures Places(TookSlow(p, j, ws), k) == Places(p, k)
  {
    HeadGone(p.wq);
    HeadGone(p.pending);
    RunnersAfterSlow(p, j, ws);
  }

  lemma TakeSlowCounts(p: Pool, j: nat, ws: seq<Worker>)
    requires Counters(p) && Conserving(p) && j < |p.workers| && p.workers[j].Checking? && p.wq != [] && p.wq[0].RunSlow?
    requires p.pending != [] && p.slowRunning < Threshold(p.n) && TakeSlowWakes(p, j, ws)
    ensures Counters(TookSlow(p, j, ws)) && Conserving(TookSlow(p, j, ws))
  {
    TakeSlowCounters(p, j, ws);
    TakeSlowConserves(p, j, ws);
  }

  lemma TookSlowQueue(p: Pool, j: nat, ws: seq<Worker>)
    requires p.wq != [] && p.wq[0].RunSlow? && p.pending != [] && multiset(p.wq)[RunSlow] <= 1
    ensures multiset(TookSlow(p, j, ws).wq)[RunSlow] <= 1
    ensures TookSlow(p, j, ws).pending != [] ==> RunSlow in TookSlow(p, j, ws).wq
  {
    HeadGone(p.wq);
  }

  lemma TakeSlowCounters(p: Pool, j: nat, ws: seq<Worker>)
    requires Counters(p) && j < |p.workers| && p.workers[j].Checking? && p.wq != [] && p.wq[0].RunSlow?
    requires p.pending != [] && p.slowRunning < Threshold(p.n) && TakeSlowWakes(p, j, ws)
    ensures Counters(TookSlow(p, j, ws))
  {
    hide Slow, Woken;
    TookSlowQueue(p, j, ws);
    MoveWorker(p.workers, j, Running(p.pending[0], true));
    if |p.pending| > 1 { WokenCounts(p.workers[j := Running(p.pending[0], true)], ws); }
  }

  lemma TakeSlowConserves(p: Pool, j: nat, ws: seq<Worker>)
    requires Counters(p) && Conserving(p) && j < |p.workers| && p.workers[j].Checking? && p.wq != [] && p.wq[0].RunSlow?
    requires p.pending != [] && p.slowRunning < Threshold(p.n) && TakeSlowWakes(p, j, ws)
    ensures Conserving(TookSlow(p, j, ws))
  {
    var ws1 := p.workers[j := Running(p.pending[0], true)];
    HeadGone(p.wq);
    MoveWorker(p.workers, j, Running(p.pending[0], true));
    assert RunSlow !in p.wq[1..];
    assert Waiting in ws1 ==> Awake(ws1) + 1 >= |p.wq|;
    if |p.pending| > 1 { WokenCounts(ws1, ws); }
  }

  // ---------- finishing ----------

  /** The worker reports the item to the loop ... */
  function Reported(p: Pool, j: nat): Pool
    requires j < |p.workers| && p.workers[j].Running?
  {
    var i := p.workers[j].item;
    p.(workers := p.workers[j := Returning(p.workers[j].slow)], loopQueue := p.loopQueue + [i], work := p.work[i := Null])
  }

  lemma ReportKeepsInv(p: Pool, j: nat)
    requires Inv(p) && j < |p.workers| && p.workers[j].Running?
    ensures Inv(Reported(p, j))
  {
    var i := p.workers[j].item;
    ReportCounts(p, j);
    RunnersAfterReport(p.workers, j);
    assert InFlight(p, i);
    forall k ensures Places(Reported(p, j), k) == Places(p, k) {
      ReportPlaces(p, j, k);
    }
    assert Places(p, i) == 1;
    SettledMarks(p, Reported(p, j), i);
  }

  lemma ReportCounts(p: Pool, j: nat)
    requires Counters(p) && Conserving(p) && j < |p.workers| && p.workers[j].Running?
    ensures Counters(Reported(p, j)) && Conserving(Reported(p, j))
  {
    MoveWorker(p.workers, j, Returning(p.workers[j].slow));
  }

  lemma RunnersAfterReport(ws: seq<Worker>, j: nat)
    requires j < |ws| && ws[j].Running?
    ensures Runners(ws, ws[j].item) > 0
    ensures forall k :: Runners(ws[j := Returning(ws[j].slow)], k) == Runners(ws, k) - if k == ws[j].item then 1 else 0
  {
    MoveWorker(ws, j, Returning(ws[j].slow));
  }

  lemma ReportPlaces(p: Pool, j: nat, k: Item)
    requires j < |p.workers| && p.workers[j].Running?
    ensures Places(Reported(p, j), k) == Places(p, k)
  {
    RunnersAfterReport(p.workers, j);
  }

  /** One item gets its final mark; every other keeps its place and its mark. */
  lemma SettledMarks(p: Pool, p': Pool, i: Item)
    requires Marked(p) && i in p.work && p'.work.Keys == p.work.Keys
    requires p'.executed !! p'.cancelled && p'.executed + p'.cancelled <= p'.work.Keys && Settled(p', i)
    requires forall k :: k != i && k in p.work ==> p'.work[k] == p.work[k]
    requires forall k :: k != i ==> (k in p'.executed <==> k in p.executed) && (k in p'.cancelled <==> k in p.cancelled)
    requires forall k :: Work(k) in p'.wq || k in p'.pending ==> k != i && (Work(k) in p.wq || k in p.pending)
    requires forall k :: Runners(p'.workers, k) > 0 ==> k != i && Runners(p.workers, k) > 0
    requires forall k :: k in p'.loopQueue || k in p'.local || k in p'.cancelling || k in p'.done ==>
               k == i || k in p.loopQueue || k in p.local || k in p.cancelling || k in p.done
    ensures Marked(p')
  {
    forall k | Work(k) in p'.wq || k in p'.pending ensures Pristine(p', k) { assert Pristine(p, k); }
    forall k | Runners(p'.workers, k) > 0 ensures InFlight(p', k) { assert InFlight(p, k); }
    forall k | k in p'.loopQueue || k in p'.local || k in p'.cancelling || k in p'.done ensures Settled(p', k) {
      assert k != i ==> Settled(p, k);
    }
  }

  /** ... and then comes back for the mutex. */
  function Returned(p: Pool, j: nat): Pool
    requires j < |p.workers| && p.workers[j].Returning? && (p.workers[j].slow ==> p.slowRunning > 0)
  {
    p.(workers := p.workers[j := Checking], slowRunning := if p.workers[j].slow then p.slowRunning - 1 else p.slowRunning)
  }

  lemma ReturnKeepsInv(p: Pool, j: nat)
    requires Inv(p) && j < |p.workers| && p.workers[j].Returning?
    ensures (p.workers[j].slow ==> p.slowRunning > 0) && Inv(Returned(p, j))
  {
    MoveWorker(p.workers, j, Checking);
    MovedWorkerPlaces(p, Returned(p, j), j, Checking);
  }

  // ---------- cancelling ----------

  function RemoveOne<T(==)>(s: seq<T>, x: T): seq<T> {
    if s == [] then [] else if s[0] == x then s[1..] else [s[0]] + RemoveOne(s[1..], x)
  }

  lemma {:induction false} RemoveOneCounts<T>(s: seq<T>, x: T)
    ensures multiset(RemoveOne(s, x)) == multiset(s) - multiset{x}
  {
    if s != [] {
      assert s == [s[0]] + s[1..];
      if s[0] != x { RemoveOneCounts(s[1..], x); }
    }
  }

  lemma {:induction false} RemoveOneIs<T>(s: seq<T>, x: T)
    ensures multiset(RemoveOne(s, x)) == multiset(s) - multiset{x}
    ensures x in s ==> |RemoveOne(s, x)| == |s| - 1
    ensures x !in s ==> RemoveOne(s, x) == s
    ensures forall y :: y in RemoveOne(s, x) ==> y in s
  {
    if s != [] && s[0] != x {
      assert s == [s[0]] + s[1..];
      RemoveOneIs(s[1..], x);
    }
    RemoveOneCounts(s, x);
  }

  /** uv__work_cancel's test: still linked into some queue, and not yet run. */
  predicate Cancellable(p: Pool, i: Item) {
    (Work(i) in p.wq || i in p.pending || i in p.loopQueue || i in p.local) && i in p.work && !p.work[i].Null?
  }

  function Unlinked(p: Pool, i: Item): Pool {
    p.(wq := RemoveOne(p.wq, Work(i)), pending := RemoveOne(p.pending, i), loopQueue := RemoveOne(p.loopQueue, i),
       local := RemoveOne(p.local, i), cancelling := [i], work := p.work[i := Cancelled], cancelled := p.cancelled + {i})
  }

  /** An item can be cancelled exactly while it has not begun to execute. */
  lemma CancellableMeansUnexecuted(p: Pool, i: Item)
    requires Inv(p) && i in p.work && i !in p.done && p.cancelling == []
    ensures Cancellable(p, i) <==> i !in p.executed
  {
    assert Places(p, i) == 1;
    assert Work(i) in p.wq || i in p.pending || Runners(p.workers, i) > 0 || i in p.loopQueue || i in p.local;
    if Work(i) in p.wq || i in p.pending {
      assert Pristine(p, i);
    } else if Runners(p.workers, i) > 0 {
      assert InFlight(p, i);
      assert multiset(p.loopQueue)[i] == 0 && multiset(p.local)[i] == 0;
    } else {
      assert Settled(p, i);
    }
  }

  lemma CancelKeepsInv(p: Pool, i: Item)
    requires Inv(p) && i !in p.done && p.cancelling == [] && Cancellable(p, i)
    ensures Inv(Unlinked(p, i))
  {
    CancellableMeansUnexecuted(p, i);
    UnlinkedCounts(p, i);
    assert Places(p, i) == 1;
    assert Runners(p.workers, i) > 0 ==> InFlight(p, i);
    forall k ensures Places(Unlinked(p, i), k) == Places(p, k) {
      UnlinkedPlaces(p, i, k);
    }
    UnlinkedMarks(p, i);
  }

  lemma UnlinkedPlaces(p: Pool, i: Item, k: Item)
    requires Places(p, i) == 1 && p.cancelling == [] && Runners(p.workers, i) == 0 && i !in p.done
    ensures Places(Unlinked(p, i), k) == Places(p, k)
  {
    RemoveCount(p.wq, Work(i), Work(k));
    RemoveCount(p.pending, i, k);
    RemoveCount(p.loopQueue, i, k);
    RemoveCount(p.local, i, k);
  }

  lemma RemoveCount<T>(s: seq<T>, x: T, y: T)
    ensures multiset(RemoveOne(s, x))[y] == multiset(s)[y] - if y == x && multiset(s)[x] > 0 then 1 else 0
  {
    RemoveOneIs(s, x);
  }

  lemma UnlinkedMarks(p: Pool, i: Item)
    requires Marked(p) && i in p.work && i !in p.executed && Places(p, i) == 1 && p.cancelling == []
    requires Runners(p.workers, i) == 0 && i !in p.done
    ensures Marked(Unlinked(p, i))
  {
    RemoveOneIs(p.wq, Work(i));
    RemoveOneIs(p.pending, i);
    RemoveOneIs(p.loopQueue, i);
    RemoveOneIs(p.local, i);
    UnlinkedMarksOf(p, i, RemoveOne(p.wq, Work(i)), RemoveOne(p.pending, i), RemoveOne(p.loopQueue, i), RemoveOne(p.local, i));
  }

  lemma UnlinkedMarksOf(p: Pool, i: Item, wq: seq<Queued>, pending: seq<Item>, loopQueue: seq<Item>, local: seq<Item>)
    requires Marked(p) && i in p.work && i !in p.executed && Places(p, i) == 1 && p.cancelling == []
    requires Runners(p.workers, i) == 0 && i !in p.done
    requires multiset(wq) == multiset(p.wq) - multiset{Work(i)} && multiset(pending) == multiset(p.pending) - multiset{i}
    requires forall q :: q in wq ==> q in p.wq
    requires forall k :: k in pending ==> k in p.pending
    requires forall k :: k in loopQueue ==> k in p.loopQueue
    requires forall k :: k in local ==> k in p.local
    ensures Marked(p.(wq := wq, pending := pending, loopQueue := loopQueue, local := local, cancelling := [i],
                      work := p.work[i := Cancelled], cancelled := p.cancelled + {i}))
  {
    assert multiset(wq)[Work(i)] == 0 && multiset(pending)[i] == 0;
    SettledMarks(p, p.(wq := wq, pending := pending, loopQueue := loopQueue, local := local, cancelling := [i],
                       work := p.work[i := Cancelled], cancelled := p.cancelled + {i}), i);
  }

  lemma UnlinkedCounts(p: Pool, i: Item)
    requires Counters(p) && Conserving(p)
    ensures Counters(Unlinked(p, i)) && Conserving(Unlinked(p, i))
  {
    hide RemoveOne, Counters, Conserving;
    RemoveOneIs(p.wq, Work(i));
    RemoveOneIs(p.pending, i);
    UnlinkedCountsOf(p, i, RemoveOne(p.wq, Work(i)), RemoveOne(p.pending, i));
    SameCounts(p.(wq := RemoveOne(p.wq, Work(i)), pending := RemoveOne(p.pending, i)), Unlinked(p, i));
  }

  lemma SameCounts(p: Pool, q: Pool)
    requires Counters(p) && Conserving(p) && q.n == p.n && q.workers == p.workers && q.wq == p.wq
    requires q.pending == p.pending && q.slowRunning == p.slowRunning && q.idle == p.idle
    ensures Counters(q) && Conserving(q)
  {
  }

  lemma UnlinkedCountsOf(p: Pool, i: Item, wq: seq<Queued>, pending: seq<Item>)
    requires Counters(p) && Conserving(p)
    requires multiset(wq) == multiset(p.wq) - multiset{Work(i)} && |wq| <= |p.wq| && (wq == p.wq || |wq| == |p.wq| - 1)
    requires forall k :: k in pending ==> k in p.pending
    ensures Counters(p.(wq := wq, pending := pending)) && Conserving(p.(wq := wq, pending := pending))
  {
    assert multiset(wq)[RunSlow] == multiset(p.wq)[RunSlow];
    assert RunSlow in wq <==> RunSlow in multiset(wq);
    if pending != [] {
      assert pending[0] in p.pending;
    }
  }

  /** The second half of uv__work_cancel hands the item to the loop. */
  function HandedOver(p: Pool): Pool {
    p.(loopQueue := p.loopQueue + p.cancelling, cancelling := [])
  }

  lemma HandOverKeepsInv(p: Pool)
    requires Inv(p)
    ensures Inv(HandedOver(p))
  {
    forall k ensures Places(HandedOver(p), k) == Places(p, k) {
    }
    SameMarks(p, HandedOver(p));
  }

  // ---------- the event loop ----------

  /** uv__work_done moves the queue off under the lock, then delivers from its own list. */
  function Collected(p: Pool): Pool {
    p.(local := p.local + p.loopQueue, loopQueue := [])
  }

  lemma CollectKeepsInv(p: Pool)
    requires Inv(p)
    ensures Inv(Collected(p))
  {
    forall k ensures Places(Collected(p), k) == Places(p, k) {
    }
    SameMarks(p, Collected(p));
  }

  function Delivered(p: Pool): Pool
    requires p.local != []
  {
    p.(local := p.local[1..], done := p.done + [p.local[0]])
  }

  lemma DeliverKeepsInv(p: Pool)
    requires Inv(p) && p.local != []
    ensures Inv(Delivered(p)) && p.local[0] !in p.done
    ensures p.local[0] in p.work && (p.work[p.local[0]].Cancelled? <==> p.local[0] in p.cancelled)
  {
    HeadGone(p.local);
    assert Settled(p, p.local[0]) && Places(p, p.local[0]) == 1;
    forall k ensures Places(Delivered(p), k) == Places(p, k) {
    }
    SameMarks(p, Delivered(p));
  }

  // ---------- all interleavings ----------

  datatype PoolStep =
    | Submit(item: Item, slow: bool)
    | Sleep(worker: nat) | Wake(worker: nat) | Rotate | Drop | TakeFast(worker: nat) | TakeSlow(worker: nat)
    | Report(worker: nat) | Return(worker: nat)
    | Cancel(item: Item) | HandOver | Collect | Deliver

  ghost predicate Next(p: Pool, step: PoolStep, p': Pool) {
    match step
    case Submit(i, slow) => i !in p.work && SubmitWakes(p, slow, p'.workers) && p' == Submitted(p, i, slow, p'.workers)
    case Sleep(j) => j < |p.workers| && p.workers[j].Checking? && Runnable(p.wq, p.slowRunning, p.n) == 0 && p' == Slept(p, j)
    case Wake(j) => j < |p.workers| && (p.workers[j].Waiting? || p.workers[j].Signaled?) && p.idle > 0 && p' == WokenUp(p, j)
    case Rotate => p.wq != [] && p.wq[0].RunSlow? && p.slowRunning >= Threshold(p.n) && p' == p.(wq := p.wq[1..] + [RunSlow])
    case Drop => p.wq != [] && p.wq[0].RunSlow? && p.slowRunning < Threshold(p.n) && p.pending == [] && p' == p.(wq := p.wq[1..])
    case TakeFast(j) => j < |p.workers| && p.workers[j].Checking? && p.wq != [] && p.wq[0].Work? && p' == TookFast(p, j)
    case TakeSlow(j) =>
      && j < |p.workers| && p.workers[j].Checking? && p.wq != [] && p.wq[0].RunSlow? && p.pending != []
      && p.slowRunning < Threshold(p.n) && TakeSlowWakes(p, j, p'.workers) && p' == TookSlow(p, j, p'.workers)
    case Report(j) => j < |p.workers| && p.workers[j].Running? && p' == Reported(p, j)
    case Return(j) => j < |p.workers| && p.workers[j].Returning? && (p.workers[j].slow ==> p.slowRunning > 0) && p' == Returned(p, j)
    case Cancel(i) => i !in p.done && p.cancelling == [] && Cancellable(p, i) && p' == Unlinked(p, i)
    case HandOver => p' == HandedOver(p)
    case Collect => p' == Collected(p)
    case Deliver => p.local != [] && p' == Delivered(p)
  }

  lemma NextKeepsInv(p: Pool, step: PoolStep, p': Pool)
    requires Inv(p) && Next(p, step, p')
    ensures Inv(p')
  {
    match step
    case Submit(i, slow) => SubmitKeepsInv(p, i, slow, p'.workers);
    case Sleep(j) => SleepKeepsInv(p, j);
    case Wake(j) => WakeKeepsInv(p, j);
    case Rotate => RotateKeepsInv(p);
    case Drop => DropKeepsInv(p);
    case TakeFast(j) => TakeFastKeepsInv(p, j);
    case TakeSlow(j) => TakeSlowKeepsInv(p, j, p'.workers);
    case Report(j) => ReportKeepsInv(p, j);
    case Return(j) => ReturnKeepsInv(p, j);
    case Cancel(i) => CancelKeepsInv(p, i);
    case HandOver => HandOverKeepsInv(p);
    case Collect => CollectKeepsInv(p);
    case Deliver => DeliverKeepsInv(p);
  }

  ghost predicate Steps(p: Pool, p': Pool) {
    exists step :: Next(p, step, p')
  }

  /** A run of the pool: any threads, in any order. */
  ghost predicate Path(ps: seq<Pool>) {
    ps != [] && forall k :: 0 <= k < |ps| - 1 ==> Linked(ps, k)
  }

  ghost predicate Linked(ps: seq<Pool>, k: nat)
    requires k + 1 < |ps|
  {
    Steps(ps[k], ps[k+1])
  }

  lemma {:induction false} PathKeepsInv(ps: seq<Pool>)
    requires Path(ps) && Inv(ps[0])
    ensures Inv(ps[|ps|-1])
    decreases |ps|
  {
    hide Inv, Next;
    if |ps| > 1 {
      var front := ps[..|ps|-1];
      forall k | 0 <= k < |front| - 1 ensures Linked(front, k) { assert Linked(ps, k); }
      PathKeepsInv(front);
      assert Linked(ps, |ps| - 2);
      var step :| Next(ps[|ps|-2], step, ps[|ps|-1]);
      NextKeepsInv(ps[|ps|-2], step, ps[|ps|-1]);
    }
  }

  lemma ExtendPath(ps: seq<Pool>, step: PoolStep, p': Pool)
    requires Path(ps) && Next(ps[|ps|-1], step, p')
    ensures Path(ps + [p'])
  {
    var ps' := ps + [p'];
    forall k | 0 <= k < |ps'| - 1 ensures Linked(ps', k) {
      if k < |ps| - 1 { assert Linked(ps, k); }
    }
  }

  /** How a worker's turn ends: asleep with nothing to act on, with the oldest slow item and
      room in the slow share, or with the item at the head of the queue. */
  ghost predicate Outcome(p: Pool, j: nat, p': Pool) {
    && j < |p'.workers|
    && match p'.workers[j]
       case Waiting => Runnable(p'.wq, p'.slowRunning, p'.n) == 0 && p'.executed == p.executed
       case Running(i, true) => p.pending == [i] + p'.pending && p'.slowRunning == p.slowRunning + 1 <= Threshold(p.n)
       case Running(i, false) => p.wq != [] && p.wq[0] == Work(i) && p'.pending == p.pending && p'.slowRunning == p.slowRunning
       case _ => false
  }

  lemma TurnOutcome(p: Pool, step: PoolStep, p': Pool, j: nat)
    requires Next(p, step, p') && (step == Sleep(j) || step == TakeFast(j) || step == TakeSlow(j))
    ensures Outcome(p, j, p')
  {
    if step == TakeSlow(j) {
      var ws1 := p.workers[j := Running(p.pending[0], true)];
      if |p.pending| > 1 && Waiting in ws1 {
        var m :| 0 <= m < |ws1| && WokenAt(ws1, p'.workers, m);
      }
      assert p.pending == [p.pending[0]] + p.pending[1..];
    }
  }

  lemma IdleAfterTake(ws: seq<Worker>, j: nat, w: Worker)
    requires j < |ws| && ws[j].Checking? && w.Running?
    ensures Idle(ws[j := w]) == Idle(ws)
  {
    MoveWorker(ws, j, w);
  }

  lemma SecondIsWork(wq: seq<Queued>)
    requires multiset(wq)[RunSlow] <= 1 && wq != [] && wq[0].RunSlow?
    ensures |wq| > 1 ==> wq[1].Work?
    ensures multiset(wq[1..])[RunSlow] == 0 && multiset(wq[1..] + [RunSlow])[RunSlow] <= 1
  {
    HeadGone(wq);
    if |wq| > 1 { assert wq[1] in multiset(wq[1..]); }
  }
}

/** The pool's code. Each method is one stretch run under the locks and takes the pool by
    steps of that relation, which keep its invariant (NextKeepsInv, PathKeepsInv). */
module ThreadPools {
  import opened PoolState

  class ThreadPool {
    const nthreads: nat
    var wq: seq<Queued>
    var slowPending: seq<Item>
    var slowRunning: nat
    var idle: nat
    var workers: seq<Worker>
    var loopQueue: seq<Item>
    var local: seq<Item>
    var cancelling: seq<Item>
    var work: map<Item, WorkPtr>
    ghost var executed: set<Item>
    ghost var cancelled: set<Item>
    ghost var done: seq<Item>

    ghost function View(): Pool
      reads this
    {
      Pool(nthreads, wq, slowPending, slowRunning, idle, workers, loopQueue, local, cancelling, work, executed, cancelled, done)
    }

    constructor (n: nat)
      requires n > 0
      ensures Inv(View()) && nthreads == n && work == map[]
    {
      nthreads := n;
      wq, slowPending, slowRunning, idle := [], [], 0, 0;
      workers := seq(n, _ => Checking);
      loopQueue, local, cancelling, work := [], [], [], map[];
      executed, cancelled, done := {}, {}, [];
      new;
      SlowNone(workers);
      assert forall w :: w in multiset(workers) ==> w == Checking;
    }

    /** uv_cond_signal: some sleeping worker, if any, is woken. */
    method Signal()
      modifies this`workers
      ensures Woken(old(workers), workers)
    {
      if j :| 0 <= j < |workers| && workers[j].Waiting? {
        assert WokenAt(workers, workers[j := Signaled], j);
        workers := workers[j := Signaled];
      }
    }

    /** `if (idle_threads > 0) uv_cond_signal(&cond)` */
    method SignalIfIdle()
      requires idle == Idle(workers)
      modifies this`workers
      ensures Woken(old(workers), workers)
    {
      if idle > 0 {
        Signal();
      } else {
        NobodyIdle(workers);
      }
    }

    /** uv__work_submit and post: slow work goes to its own queue, announced by one message. */
    method Submit(i: Item, slow: bool)
      requires idle == Idle(workers) && i !in work
      modifies this`work, this`slowPending, this`wq, this`workers
      ensures Next(old(View()), PoolStep.Submit(i, slow), View())
    {
      work := work[i := Function];
      var q := Work(i);
      if slow {
        slowPending := slowPending + [i];
        q := RunSlow;
      }
      if slow && RunSlow in wq {
        return;
      }
      wq := wq + [q];
      SignalIfIdle();
    }

    /** The worker loop from taking the mutex to releasing it: asleep because there is nothing
        to act on, or with an item to run. */
    method WorkerRun(j: nat) returns (ghost path: seq<Pool>)
      requires idle == Idle(workers) && multiset(wq)[RunSlow] <= 1 && j < |workers|
      requires workers[j].Checking? || workers[j].Waiting? || workers[j].Signaled?
      modifies this`wq, this`slowPending, this`slowRunning, this`idle, this`workers, this`executed
      ensures Path(path) && path[0] == old(View()) && path[|path|-1] == View()
      ensures exists before :: Outcome(before, j, View()) && Before(old(View()), before)
    {
      hide Idle, Outcome;
      path := [View()];
      if !workers[j].Checking? {
        WakeUp(j);
        ExtendPath(path, Wake(j), View());
        path := path + [View()];
      }
      while true
        invariant Path(path) && path[0] == old(View()) && path[|path|-1] == View()
        invariant j < |workers| && workers[j].Checking? && idle == Idle(workers) && multiset(wq)[RunSlow] <= 1
        invariant Before(old(View()), View())
        decreases |wq|, if wq != [] && wq[0].RunSlow? then 1 else 0
      {
        ghost var p := View();
        var stop, step := WorkerTurn(j);
        ExtendPath(path, step, View());
        path := path + [View()];
        if stop {
          TurnOutcome(p, step, View(), j);
          return;
        }
      }
    }

    /** The wait returns with the mutex: by a signal or on its own. */
    method WakeUp(j: nat)
      requires idle == Idle(workers) && j < |workers| && (workers[j].Waiting? || workers[j].Signaled?)
      modifies this`idle, this`workers
      ensures Next(old(View()), Wake(j), View()) && workers == old(workers)[j := Checking] && idle == Idle(workers)
    {
      MoveWorker(workers, j, Checking);
      idle := idle - 1;
      workers := workers[j := Checking];
    }

    /** One turn of the worker loop. */
    method WorkerTurn(j: nat) returns (stop: bool, ghost step: PoolStep)
      requires j < |workers| && workers[j].Checking? && idle == Idle(workers) && multiset(wq)[RunSlow] <= 1
      modifies this`wq, this`slowPending, this`slowRunning, this`idle, this`workers, this`executed
      ensures Next(old(View()), step, View())
      ensures !stop ==>
                && workers == old(workers) && idle == old(idle) && executed == old(executed)
                && slowPending == old(slowPending) && slowRunning == old(slowRunning)
                && Passed(old(wq), wq) && multiset(wq)[RunSlow] <= 1
                && (|wq| < |old(wq)| || (|wq| == |old(wq)| && wq != [] && wq[0].Work?))
      ensures stop ==> step in {Sleep(j), TakeFast(j), TakeSlow(j)}
    {
      ghost var p := View();
      if wq == [] || (wq[0].RunSlow? && |wq| == 1 && slowRunning >= Threshold(nthreads)) {
        idle := idle + 1;
        workers := workers[j := Waiting];
        return true, Sleep(j);
      }
      var q := wq[0];
      wq := wq[1..];
      if q.RunSlow? {
        stop, step := MessageTurn(j, p);
        return;
      }
      executed := executed + {q.item};
      workers := workers[j := Running(q.item, false)];
      return true, TakeFast(j);
    }

    /** The turn of a worker that has taken the slow-work message off the queue: at the limit
        the message goes to the back; with nothing left to announce it is dropped. */
    method MessageTurn(j: nat, ghost p: Pool) returns (stop: bool, ghost step: PoolStep)
      requires j < |p.workers| && p.workers[j].Checking? && p.idle == Idle(p.workers)
      requires p.wq != [] && p.wq[0].RunSlow? && multiset(p.wq)[RunSlow] <= 1
      requires View() == p.(wq := p.wq[1..]) && (|p.wq| > 1 || p.slowRunning < Threshold(p.n))
      modifies this`wq, this`slowPending, this`slowRunning, this`workers, this`executed
      ensures Next(p, step, View())
      ensures !stop ==> View() == p.(wq := wq) && Passed(p.wq, wq) && multiset(wq)[RunSlow] <= 1
      ensures !stop ==> |wq| < |p.wq| || (|wq| == |p.wq| && wq != [] && wq[0].Work?)
      ensures stop ==> step == TakeSlow(j)
    {
      SecondIsWork(p.wq);
      if slowRunning >= Threshold(nthreads) {
        wq := wq + [RunSlow];
        return false, Rotate;
      }
      if slowPending == [] {
        return false, Drop;
      }
      TakeSlowItem(j, p);
      return true, TakeSlow(j);
    }

    /** The rest of the worker's turn once it has taken the slow-work message. */
    method TakeSlowItem(j: nat, ghost p: Pool)
      requires j < |p.workers| && p.workers[j].Checking? && p.idle == Idle(p.workers) && p.wq != [] && p.wq[0].RunSlow?
      requires p.pending != [] && p.slowRunning < Threshold(p.n) && View() == p.(wq := p.wq[1..])
      modifies this`wq, this`slowPending, this`slowRunning, this`workers, this`executed
      ensures TakeSlowWakes(p, j, workers) && View() == TookSlow(p, j, workers)
      ensures j < |workers| && workers[j] == Running(p.pending[0], true)
    {
      hide Threshold, Slow, Woken, Idle;
      slowRunning := slowRunning + 1;
      var i := slowPending[0];
      slowPending := slowPending[1..];
      IdleAfterTake(workers, j, Running(i, true));
      workers := workers[j := Running(i, true)];
      executed := executed + {i};
      if slowPending != [] {
        wq := wq + [RunSlow];
        ghost var ws := workers;
        SignalIfIdle();
        WokenKeeps(ws, workers, j);
      }
    }

    /** The item has run: it goes to the loop, its work pointer cleared. */
    method ReportToLoop(j: nat)
      requires j < |workers| && workers[j].Running?
      modifies this`work, this`loopQueue, this`workers
      ensures Next(old(View()), Report(j), View())
    {
      var i := workers[j].item;
      work := work[i := Null];
      loopQueue := loopQueue + [i];
      workers := workers[j := Returning(workers[j].slow)];
    }

    /** The worker takes the mutex again. */
    method ReturnToPool(j: nat)
      requires j < |workers| && workers[j].Returning? && (workers[j].slow ==> slowRunning > 0)
      modifies this`slowRunning, this`workers
      ensures Next(old(View()), Return(j), View())
    {
      if workers[j].slow {
        slowRunning := slowRunning - 1;
      }
      workers := workers[j := Checking];
    }

    /** The locked part of uv__work_cancel: it succeeds exactly while the item has not begun to
        execute; cancelling a cancelled item again succeeds and does no harm. */
    method CancelBegin(i: Item) returns (ok: bool)
      requires Inv(View()) && i in work && i !in done && cancelling == []
      modifies this
      ensures ok <==> i !in old(executed)
      ensures if ok then Next(old(View()), Cancel(i), View()) else View() == old(View())
    {
      CancellableMeansUnexecuted(View(), i);
      ok := Unlink(i);
    }

    method Unlink(i: Item) returns (ok: bool)
      requires i in work && i !in done && cancelling == []
      modifies this
      ensures ok <==> Cancellable(old(View()), i)
      ensures View() == if ok then Unlinked(old(View()), i) else old(View())
    {
      hide RemoveOne;
      var linked := Work(i) in wq || i in slowPending || i in loopQueue || i in local;
      ok := linked && !work[i].Null?;
      if ok {
        wq, slowPending := RemoveOne(wq, Work(i)), RemoveOne(slowPending, i);
        loopQueue, local := RemoveOne(loopQueue, i), RemoveOne(local, i);
        cancelling := [i];
        work := work[i := Cancelled];
        cancelled := cancelled + {i};
      }
    }

    method CancelEnd()
      modifies this`loopQueue, this`cancelling
      ensures Next(old(View()), HandOver, View())
    {
      loopQueue := loopQueue + cancelling;
      cancelling := [];
    }

    /** uv__work_done, under the lock. */
    method CollectDone()
      modifies this`loopQueue, this`local
      ensures Next(old(View()), Collect, View())
    {
      local := local + loopQueue;
      loopQueue := [];
    }

    /** One turn of its delivery loop: the done callback gets UV_ECANCELED exactly when the
        item was cancelled, that is, never ran. */
    method DeliverOne() returns (i: Item, canceled: bool)
      requires Inv(View()) && local != []
      modifies this`local, this`done
      ensures Next(old(View()), Deliver, View()) && i == old(local)[0] && i !in old(done)
      ensures (canceled <==> i in cancelled) && (canceled <==> i !in executed)
    {
      DeliverKeepsInv(View());
      assert Settled(View(), local[0]);
      i := local[0];
      canceled := work[i].Cancelled?;
      local := local[1..];
      done := done + [i];
    }
  }

  /** Nothing has happened yet but that the worker woke and passed over the slow-work message. */
  predicate Before(p: Pool, p': Pool) {
    && p'.executed == p.executed && p'.pending == p.pending && p'.slowRunning == p.slowRunning
    && (p'.wq == p.wq || Passed(p.wq, p'.wq))
  }

  /** The slow-work message has been passed over or dropped; the work behind it is at the head. */
  predicate Passed(was: seq<Queued>, now: seq<Queued>) {
    was != [] && was[0].RunSlow? && (now != [] ==> |was| > 1 && now[0] == was[1] && now[0].Work?)
  }
}
