/** Work of one kind is begun in the order in which it was submitted (src/threadpool.c). */
module PoolOrder {
  import opened PoolState

  /** One stands ahead of the other. */
  predicate Precedes<T(==)>(s: seq<T>, x: T, y: T) {
    exists a, b :: 0 <= a < b < |s| && s[a] == x && s[b] == y
  }

  /** Both wait, of one kind, the first submitted before the second. */
  predicate Ahead(p: Pool, i: Item, k: Item) {
    Precedes(p.wq, Work(i), Work(k)) || Precedes(p.pending, i, k)
  }

  lemma PrecedesBehind<T>(s: seq<T>, more: seq<T>, x: T, y: T)
    requires Precedes(s, x, y)
    ensures Precedes(s + more, x, y)
  {
    var a, b :| 0 <= a < b < |s| && s[a] == x && s[b] == y;
    assert (s + more)[a] == x && (s + more)[b] == y;
  }

  lemma PrecedesPast<T>(s: seq<T>, x: T, y: T)
    requires Precedes(s, x, y) && s[0] != x
    ensures Precedes(s[1..], x, y)
  {
    var a, b :| 0 <= a < b < |s| && s[a] == x && s[b] == y;
    assert s[1..][a-1] == x && s[1..][b-1] == y;
  }

  lemma {:induction false} PrecedesWithout<T>(s: seq<T>, z: T, x: T, y: T)
    requires Precedes(s, x, y) && z != x && z != y
    ensures Precedes(RemoveOne(s, z), x, y)
  {
    if s[0] == z {
      PrecedesPast(s, x, y);
    } else if s[0] == x {
      var a, b :| 0 <= a < b < |s| && s[a] == x && s[b] == y;
      assert y in s[1..] by { assert s[1..][b-1] == y; }
      StaysIn(s[1..], z, y);
      var c :| 0 <= c < |RemoveOne(s[1..], z)| && RemoveOne(s[1..], z)[c] == y;
      assert RemoveOne(s, z)[0] == x && RemoveOne(s, z)[c+1] == y;
    } else {
      PrecedesPast(s, x, y);
      PrecedesWithout(s[1..], z, x, y);
      var rest := RemoveOne(s[1..], z);
      var a, b :| 0 <= a < b < |rest| && rest[a] == x && rest[b] == y;
      assert RemoveOne(s, z)[a+1] == x && RemoveOne(s, z)[b+1] == y;
    }
  }

  lemma {:induction false} StaysIn<T>(s: seq<T>, z: T, y: T)
    requires y in s && y != z
    ensures y in RemoveOne(s, z)
  {
    if s[0] != z && s[0] != y {
      StaysIn(s[1..], z, y);
    }
  }

  /** An item stands in one place only. */
  lemma NotTwice(p: Pool, i: Item, k: Item)
    requires Placed(p) && Ahead(p, i, k)
    ensures i != k && (p.wq != [] ==> p.wq[0] != Work(k)) && (p.pending != [] ==> p.pending[0] != k)
  {
    hide Runners;
    assert Places(p, k) <= 1;
    if Precedes(p.wq, Work(i), Work(k)) {
      var a, b :| 0 <= a < b < |p.wq| && p.wq[a] == Work(i) && p.wq[b] == Work(k);
      assert p.wq == p.wq[..b] + [Work(k)] + p.wq[b+1..];
      assert Work(k) !in p.wq[..b];
      assert p.wq[..b][a] == Work(i) && p.wq[..b][0] == p.wq[0];
      assert multiset(p.wq)[Work(k)] >= 1;
    } else {
      var a, b :| 0 <= a < b < |p.pending| && p.pending[a] == i && p.pending[b] == k;
      assert p.pending == p.pending[..b] + [k] + p.pending[b+1..];
      assert k !in p.pending[..b];
      assert p.pending[..b][a] == i && p.pending[..b][0] == p.pending[0];
      assert multiset(p.pending)[k] >= 1;
      assert Work(k) !in p.wq;
    }
  }

  /** As long as the first has neither begun nor been cancelled it stays ahead, and the second has not begun. */
  predicate InTurn(p: Pool, i: Item, k: Item) {
    i in p.executed + p.cancelled || k in p.cancelled || (Ahead(p, i, k) && k !in p.executed)
  }

  lemma StepKeepsTurn(p: Pool, step: PoolStep, p': Pool, i: Item, k: Item)
    requires Inv(p) && Next(p, step, p') && InTurn(p, i, k)
    ensures InTurn(p', i, k)
  {
    hide Counters, Conserving, Marked, Places, Precedes;
    if i !in p.executed + p.cancelled && k !in p.cancelled {
      NotTwice(p, i, k);
      match step
      case Submit(x, slow) =>
        if Precedes(p.wq, Work(i), Work(k)) {
          PrecedesBehind(p.wq, [if slow then RunSlow else Work(x)], Work(i), Work(k));
        } else {
          PrecedesBehind(p.pending, [x], i, k);
        }
      case Rotate =>
        if Precedes(p.wq, Work(i), Work(k)) {
          PrecedesPast(p.wq, Work(i), Work(k));
          PrecedesBehind(p.wq[1..], [RunSlow], Work(i), Work(k));
        }
      case Drop =>
        if Precedes(p.wq, Work(i), Work(k)) {
          PrecedesPast(p.wq, Work(i), Work(k));
        }
      case TakeFast(_) =>
        if Precedes(p.wq, Work(i), Work(k)) && p.wq[0] != Work(i) {
          PrecedesPast(p.wq, Work(i), Work(k));
        }
      case TakeSlow(_) =>
        if Precedes(p.wq, Work(i), Work(k)) {
          PrecedesPast(p.wq, Work(i), Work(k));
          PrecedesBehind(p.wq[1..], [RunSlow], Work(i), Work(k));
        } else if p.pending[0] != i {
          PrecedesPast(p.pending, i, k);
        }
      case Cancel(x) =>
        if x != i && x != k {
          if Precedes(p.wq, Work(i), Work(k)) {
            PrecedesWithout(p.wq, Work(x), Work(i), Work(k));
          } else {
            PrecedesWithout(p.pending, x, i, k);
          }
        }
      case _ =>
    }
  }

  lemma {:induction false} PathKeepsTurn(ps: seq<Pool>, i: Item, k: Item)
    requires Path(ps) && Inv(ps[0]) && InTurn(ps[0], i, k)
    ensures Inv(ps[|ps|-1]) && InTurn(ps[|ps|-1], i, k)
    decreases |ps|
  {
    hide Inv, Next, InTurn;
    if |ps| > 1 {
      var front := ps[..|ps|-1];
      forall j | 0 <= j < |front| - 1 ensures Linked(front, j) { assert Linked(ps, j); }
      PathKeepsTurn(front, i, k);
      assert Linked(ps, |ps| - 2);
      var step :| Next(ps[|ps|-2], step, ps[|ps|-1]);
      NextKeepsInv(ps[|ps|-2], step, ps[|ps|-1]);
      StepKeepsTurn(ps[|ps|-2], step, ps[|ps|-1], i, k);
    }
  }

  /** Over any run: of two items of one kind that wait, the one submitted later does not begin before the other has begun
      or been cancelled. */
  lemma FirstComeFirstServed(ps: seq<Pool>, i: Item, k: Item)
    requires Path(ps) && Inv(ps[0]) && Ahead(ps[0], i, k) && k in ps[|ps|-1].executed
    ensures i in ps[|ps|-1].executed + ps[|ps|-1].cancelled
  {
    hide Counters, Conserving, Placed;
    WaitingHasNotBegun(ps[0], i, k);
    PathKeepsTurn(ps, i, k);
    assert Marked(ps[|ps|-1]);
  }

  lemma WaitingHasNotBegun(p: Pool, i: Item, k: Item)
    requires Marked(p) && Ahead(p, i, k)
    ensures k !in p.executed
  {
    assert Work(k) in p.wq || k in p.pending;
    assert Pristine(p, k);
  }

  /** What is submitted goes behind all that waits. */
  lemma SubmittedIsLast(p: Pool, step: PoolStep, p': Pool, i: Item)
    requires Next(p, step, p') && step.Submit?
    requires if step.slow then i in p.pending else Work(i) in p.wq
    ensures Ahead(p', i, step.item)
  {
    if step.slow {
      var a :| 0 <= a < |p.pending| && p.pending[a] == i;
      assert p'.pending[a] == i && p'.pending[|p.pending|] == step.item;
    } else {
      var a :| 0 <= a < |p.wq| && p.wq[a] == Work(i);
      assert p'.wq[a] == Work(i) && p'.wq[|p.wq|] == Work(step.item);
    }
  }
}
