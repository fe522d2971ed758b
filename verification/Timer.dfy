/** Timers over the heap (src/timer.c). */
module Timers {
  import opened HeapOrder
  import opened Heaps

  const MAX_U64: nat := 0x1_0000_0000_0000_0000 - 1
  const INT_MAX: nat := 0x7fff_ffff

  /** The fields of a uv_timer_t beside the heap node that stands for it. */
  datatype Timer = Timer(timeout: nat, startId: nat, repeat: nat, hasCallback: bool, active: bool, closing: bool)

  datatype Status = Ok | EInval

  /** What timer_less_than reads through container_of. */
  function KeyFrom(timers: map<HeapNode, Timer>): HeapNode -> Key {
    (n: HeapNode) => if n in timers then Key(timers[n].timeout, timers[n].startId) else Key(0, 0)
  }

  /** `time + timeout` in 64 bits, clamped where it wraps. */
  function Clamped(time: nat, timeout: nat): nat {
    var sum := (time + timeout) % 0x1_0000_0000_0000_0000;
    if sum < timeout then MAX_U64 else sum
  }

  lemma ClampedIsMin(time: nat, timeout: nat)
    requires time <= MAX_U64 && timeout <= MAX_U64
    ensures Clamped(time, timeout) == if time + timeout <= MAX_U64 then time + timeout else MAX_U64
  {
  }

  ghost function Active(timers: map<HeapNode, Timer>): set<HeapNode> {
    set n | n in timers && timers[n].active
  }

  ghost function Due(timers: map<HeapNode, Timer>, time: nat): set<HeapNode> {
    set n | n in timers && timers[n].active && timers[n].timeout <= time
  }

  /** By due time; what is due at the same time, in the order in which it was started. */
  predicate FiredInTurn(timers: map<HeapNode, Timer>, fired: seq<HeapNode>) {
    && (forall i :: 0 <= i < |fired| ==> fired[i] in timers)
    && (forall i, j :: 0 <= i < j < |fired| ==>
          || timers[fired[i]].timeout < timers[fired[j]].timeout
          || (timers[fired[i]].timeout == timers[fired[j]].timeout && timers[fired[i]].startId < timers[fired[j]].startId))
  }

  predicate WfTimer(t: Timer, counter: nat) {
    && t.timeout <= MAX_U64 && t.repeat <= MAX_U64 && t.startId < counter
    && (t.active ==> t.hasCallback && !t.closing)
  }

  ghost predicate WfTimers(timers: map<HeapNode, Timer>, counter: nat) {
    && (forall n :: n in timers ==> timers[n].active ==> WfTimer(timers[n], counter))
    && (forall n :: n in timers ==> timers[n].repeat <= MAX_U64)
    && (forall m, n :: m in timers && n in timers && timers[m].active && timers[n].active && timers[m].startId == timers[n].startId ==> m == n)
  }

  lemma OtherKeysStay(nodes: seq<HeapNode>, timers: map<HeapNode, Timer>, h: HeapNode, t: Timer)
    requires h !in nodes
    ensures KeysOf(nodes, KeyFrom(timers[h := t])) == KeysOf(nodes, KeyFrom(timers))
  {
  }

  class Loop {
    const heap: Heap
    var time: nat
    var timerCounter: nat
    var timers: map<HeapNode, Timer>

    constructor (time: nat)
      requires time <= MAX_U64
      ensures Valid() && timers == map[] && this.time == time && fresh(heap)
    {
      heap := new Heap();
      this.time := time;
      timerCounter, timers := 0, map[];
      new;
      heap.Rekey(KeyFrom(timers));
    }

    /** The heap holds exactly the active timers, ordered by what their handles say. */
    ghost predicate Valid()
      reads this, heap, heap.repr
    {
      && heap.Valid() && heap.keyOf == KeyFrom(timers) && heap.repr == Active(timers)
      && time <= MAX_U64 && WfTimers(timers, timerCounter)
    }

    /** uv_timer_init */
    method Init(h: HeapNode)
      requires Valid() && h !in timers
      modifies this`timers, heap`keyOf
      ensures Valid() && timers == old(timers)[h := Timer(0, 0, 0, false, false, false)]
    {
      SetTimer(h, Timer(0, 0, 0, false, false, false));
      assert Active(timers) == Active(old(timers));
    }

    /** A handle that is not in the heap gets new fields. */
    method SetTimer(h: HeapNode, t: Timer)
      requires heap.Valid() && heap.keyOf == KeyFrom(timers) && h !in heap.repr
      modifies this`timers, heap`keyOf
      ensures heap.Valid() && heap.keyOf == KeyFrom(timers) && timers == old(timers)[h := t]
    {
      assert h !in heap.nodes by { assert h !in NodeSet(heap.nodes); }
      OtherKeysStay(heap.nodes, timers, h, t);
      timers := timers[h := t];
      heap.Rekey(KeyFrom(timers));
    }

    /** uv_timer_stop */
    method Stop(h: HeapNode)
      requires Valid() && h in timers
      modifies this`timers, heap, heap.repr
      ensures Valid() && timers == old(timers)[h := old(timers)[h].(active := false)]
      ensures heap.repr == old(heap.repr) - {h}
    {
      if !timers[h].active {
        assert timers == timers[h := timers[h].(active := false)];
        return;
      }
      heap.Remove(h);
      SetTimer(h, timers[h].(active := false));
    }

    static method AddClamped(time: nat, timeout: nat) returns (clamped: nat)
      requires timeout <= MAX_U64
      ensures clamped == Clamped(time, timeout) <= MAX_U64
    {
      clamped := (time + timeout) % 0x1_0000_0000_0000_0000;
      if clamped < timeout {
        clamped := MAX_U64;
      }
    }

    /** uv_timer_start */
    method Start(h: HeapNode, hasCallback: bool, timeout: nat, repeat: nat) returns (s: Status)
      requires Valid() && h in timers && timeout <= MAX_U64 && repeat <= MAX_U64
      modifies this`timers, this`timerCounter, heap, heap.repr, h
      ensures Valid()
      ensures s == EInval <==> old(timers)[h].closing || !hasCallback
      ensures s == EInval ==> timers == old(timers) && timerCounter == old(timerCounter) && heap.repr == old(heap.repr)
      ensures s == Ok ==>
                && timers == old(timers)[h := Timer(Clamped(time, timeout), old(timerCounter), repeat, true, true, false)]
                && timerCounter == old(timerCounter) + 1 && heap.repr == old(heap.repr) + {h}
    {
      hide WfTimers, Active, KeyFrom, Clamped;
      if timers[h].closing || !hasCallback {
        return EInval;
      }
      ghost var was := timers;
      if timers[h].active {
        Stop(h);
      }
      var clamped := AddClamped(time, timeout);
      var t := Timer(clamped, timerCounter, repeat, true, true, timers[h].closing);
      StoredTwice(was, h, was[h].(active := false), t);
      Arm(h, t);
      return Ok;
    }

    /** The handle enters the heap with its new fields. */
    method Arm(h: HeapNode, t: Timer)
      requires Valid() && h in timers && !timers[h].active && t.active && WfTimer(t, timerCounter + 1) && t.startId == timerCounter
      modifies this`timers, this`timerCounter, heap, heap.repr, h
      ensures Valid() && timers == old(timers)[h := t] && timerCounter == old(timerCounter) + 1
      ensures heap.repr == old(heap.repr) + {h}
    {
      SetTimer(h, t);
      timerCounter := timerCounter + 1;
      heap.Insert(h);
    }

    /** uv_timer_again: a repeating timer starts over with its repeat value. */
    method Again(h: HeapNode) returns (s: Status)
      requires Valid() && h in timers
      modifies this`timers, this`timerCounter, heap, heap.repr, h
      ensures Valid() && (s == EInval <==> !old(timers)[h].hasCallback)
      ensures !old(timers)[h].hasCallback || old(timers)[h].repeat == 0 ==>
                timers == old(timers) && timerCounter == old(timerCounter) && heap.repr == old(heap.repr)
      ensures old(timers)[h].hasCallback && old(timers)[h].repeat > 0 && !old(timers)[h].closing ==>
                && timers == old(timers)[h := Rearmed(old(timers)[h], time, old(timerCounter))]
                && heap.repr == old(heap.repr) + {h}
    {
      if !timers[h].hasCallback {
        return EInval;
      }
      if timers[h].repeat > 0 {
        ghost var was, counter := timers, timerCounter;
        Stop(h);
        var _ := Start(h, timers[h].hasCallback, timers[h].repeat, timers[h].repeat);
        StoredTwice(was, h, was[h].(active := false), Rearmed(was[h], time, counter));
      }
      return Ok;
    }

    /** uv__next_timeout */
    method NextTimeout() returns (r: int)
      requires Valid()
      ensures r == -1 <==> Active(timers) == {}
      ensures r == 0 <==> Due(timers, time) != {}
      ensures r > 0 ==> exists n ::
                          n in Active(timers) && (forall m :: m in Active(timers) ==> timers[n].timeout <= timers[m].timeout) &&
                          var wait := timers[n].timeout - time; r == if wait < 0x7fff_ffff then wait else 0x7fff_ffff
    {
      var n := heap.Min();
      if n == null {
        return -1;
      }
      assert n in Active(timers);
      forall m | m in Active(timers) ensures timers[n].timeout <= timers[m].timeout {
        assert m in heap.repr && !LessThan(heap.keyOf(m), heap.keyOf(n));
      }
      if timers[n].timeout <= time {
        assert n in Due(timers, time);
        return 0;
      }
      var diff := timers[n].timeout - time;
      if diff > INT_MAX {
        diff := INT_MAX;
      }
      return diff;
    }

    /** uv__run_timers with inert callbacks: every due timer fires once, in the order of due
        time and start, and those that repeat are armed again for later. */
    method RunTimers() returns (fired: seq<HeapNode>)
      requires Valid() && time < MAX_U64
      modifies this`timers, this`timerCounter, heap, heap.repr
      ensures Valid() && Due(timers, time) == {}
      ensures Distinct(fired) && NodeSet(fired) == Due(old(timers), time)
      ensures FiredInTurn(old(timers), fired)
      ensures Outcome(old(timers), timers, fired, time)
    {
      ghost var was := timers;
      fired := [];
      NothingFired(was, time);
      while true
        invariant Valid() && Firing(was, timers, fired, time) && heap.repr <= old(heap.repr)
        decreases |Due(timers, time)|
      {
        var next := FireNext(was, fired);
        if next == null {
          break;
        }
        var h: HeapNode := next;
        fired := fired + [h];
      }
      FiredInOrder(was, timers, fired, time);
    }

    static lemma FiredInOrder(was: map<HeapNode, Timer>, timers: map<HeapNode, Timer>, fired: seq<HeapNode>, time: nat)
      requires Firing(was, timers, fired, time)
      ensures FiredInTurn(was, fired)
    {
      hide Outcome;
      forall i | 0 <= i < |fired| ensures fired[i] in was {
        assert fired[i] in NodeSet(fired);
        assert fired[i] in Due(was, time);
      }
    }

    /** One turn of the loop: the timer at the top of the heap fires if it is due. */
    method FireNext(ghost was: map<HeapNode, Timer>, ghost fired: seq<HeapNode>) returns (next: HeapNode?)
      requires Valid() && time < MAX_U64 && Firing(was, timers, fired, time)
      modifies this`timers, this`timerCounter, heap, heap.repr
      ensures Valid() && heap.repr <= old(heap.repr)
      ensures next == null ==> timers == old(timers) && Due(timers, time) == {}
      ensures next != null ==> Firing(was, timers, fired + [next], time) && |Due(timers, time)| < |Due(old(timers), time)|
    {
      var h := heap.Min();
      if h == null || timers[h].timeout > time {
        NoneDue(h);
        return null;
      }
      LeastIsFirst(h);
      ghost var before := timers;
      Fire(h);
      FireStep(was, before, timers, fired, h, time);
      return h;
    }

    lemma NoneDue(h: HeapNode?)
      requires Valid() && (if h == null then heap.repr == {} else h in heap.repr && timers[h].timeout > time)
      requires h != null ==> forall m :: m in heap.repr ==> !LessThan(heap.keyOf(m), heap.keyOf(h))
      ensures Due(timers, time) == {}
    {
      forall m | m in Active(timers) ensures timers[m].timeout > time {
        assert m in heap.repr;
      }
    }

    lemma LeastIsFirst(h: HeapNode)
      requires Valid() && h in heap.repr && timers[h].timeout <= time
      requires forall m :: m in heap.repr ==> !LessThan(heap.keyOf(m), heap.keyOf(h))
      ensures h in Due(timers, time)
      ensures forall m :: m in Due(timers, time) && m != h ==> LessThan(KeyFrom(timers)(h), KeyFrom(timers)(m))
    {
      forall m | m in Due(timers, time) && m != h ensures LessThan(KeyFrom(timers)(h), KeyFrom(timers)(m)) {
        assert m in Active(timers) && h in Active(timers) && !LessThan(heap.keyOf(m), heap.keyOf(h));
      }
    }

    /** One turn of the loop, up to its callback. */
    method Fire(h: HeapNode)
      requires Valid() && h in heap.repr && time < MAX_U64
      modifies this`timers, this`timerCounter, heap, heap.repr
      ensures Valid() && h in old(timers) && heap.repr <= old(heap.repr)
      ensures exists t :: timers == old(timers)[h := t] && AfterFire(old(timers)[h], t, time)
    {
      ghost var was := timers;
      assert h in Active(timers);
      Stop(h);
      ghost var stopped := timers;
      var _ := Again(h);
      if was[h].repeat > 0 {
        ghost var t := timers[h];
        StoredTwice(was, h, was[h].(active := false), t);
        ClampedIsMin(time, was[h].repeat);
        assert timers == was[h := t] && AfterFire(was[h], t, time);
      } else {
        assert AfterFire(was[h], was[h].(active := false), time);
      }
    }
  }

  function Rearmed(t: Timer, time: nat, counter: nat): Timer {
    Timer(Clamped(time, t.repeat), counter, t.repeat, true, true, false)
  }

  /** A fired timer: stopped, or armed again for a later time if it repeats. */
  predicate AfterFire(t: Timer, t': Timer, time: nat) {
    if t.repeat == 0 then t' == t.(active := false)
    else t'.active && t'.repeat == t.repeat && t'.timeout == Clamped(time, t.repeat) > time
  }

  ghost predicate Outcome(was: map<HeapNode, Timer>, timers: map<HeapNode, Timer>, fired: seq<HeapNode>, time: nat) {
    && timers.Keys == was.Keys
    && forall n :: n in was ==> if n in fired then AfterFire(was[n], timers[n], time) else timers[n] == was[n]
  }

  /** Half-way through the loop. */
  ghost predicate Firing(was: map<HeapNode, Timer>, timers: map<HeapNode, Timer>, fired: seq<HeapNode>, time: nat) {
    && Distinct(fired) && NodeSet(fired) !! Due(timers, time) && NodeSet(fired) + Due(timers, time) == Due(was, time)
    && (forall i, j :: 0 <= i < j < |fired| ==> LessThan(KeyFrom(was)(fired[i]), KeyFrom(was)(fired[j])))
    && (forall f, d :: f in fired && d in Due(timers, time) ==> LessThan(KeyFrom(was)(f), KeyFrom(was)(d)))
    && Outcome(was, timers, fired, time)
  }

  lemma NothingFired(was: map<HeapNode, Timer>, time: nat)
    ensures Firing(was, was, [], time)
  {
    assert NodeSet([]) == {};
  }

  lemma FireStep(was: map<HeapNode, Timer>, timers: map<HeapNode, Timer>, timers': map<HeapNode, Timer>,
                 fired: seq<HeapNode>, h: HeapNode, time: nat)
    requires Firing(was, timers, fired, time) && h in Due(timers, time)
    requires forall m :: m in Due(timers, time) && m != h ==> LessThan(KeyFrom(timers)(h), KeyFrom(timers)(m))
    requires exists t :: timers' == timers[h := t] && AfterFire(timers[h], t, time)
    ensures Firing(was, timers', fired + [h], time)
    ensures Due(timers', time) == Due(timers, time) - {h}
  {
    var fired' := fired + [h];
    assert h !in fired by { assert h !in NodeSet(fired); }
    forall n | n in Due(timers', time) ensures n in Due(timers, time) - {h} {
    }
    assert Due(timers', time) == Due(timers, time) - {h};
    assert NodeSet(fired') == NodeSet(fired) + {h};
    forall d | d in Due(timers, time) ensures KeyFrom(was)(d) == KeyFrom(timers)(d) {
      assert d !in NodeSet(fired);
    }
  }

  lemma StoredTwice(timers: map<HeapNode, Timer>, h: HeapNode, a: Timer, b: Timer)
    ensures timers[h := a][h := b] == timers[h := b]
  {
  }
}
