/** The memtable's skip list (db/skiplist.h), one store at a time. */
module SkipLists {
  type Key = int

  const MAX_HEIGHT: nat := 12

  class Node {
    const key: Key
    var next: seq<Node?>

    constructor (key: Key, height: nat)
      ensures this.key == key && |next| == height
    {
      this.key := key;
      this.next := seq(height, _ => null);
    }

    method SetNext(n: nat, x: Node?)
      requires n < |next|
      modifies this
      ensures next == old(next)[n := x]
    {
      next := next[n := x];
    }
  }

  // ---------- which nodes a level links ----------

  /** The first index at or after `from` whose node is linked at level `l`. */
  function FirstLinked(linked: seq<nat>, from: nat, l: nat): (q: nat)
    requires from <= |linked|
    ensures from <= q <= |linked| && (q < |linked| ==> linked[q] > l)
    ensures forall i :: from <= i < q ==> linked[i] <= l
    decreases |linked| - from
  {
    if from == |linked| || linked[from] > l then from else FirstLinked(linked, from + 1, l)
  }

  lemma FirstLinkedIs(linked: seq<nat>, from: nat, l: nat, q: nat)
    requires from <= q <= |linked| && (q < |linked| ==> linked[q] > l)
    requires forall i :: from <= i < q ==> linked[i] <= l
    ensures FirstLinked(linked, from, l) == q
  {
  }

  /** The node at an index of the bottom list; past the end, null. */
  function NodeAt(chain: seq<Node>, q: nat): Node? {
    if q < |chain| then chain[q] else null
  }

  function KeysOf(chain: seq<Node>): set<Key> {
    set n | n in chain :: n.key
  }

  predicate LinkedAt(linked: seq<nat>, p: nat, l: nat)
    requires p <= |linked|
  {
    if p == 0 then l < MAX_HEIGHT else l < linked[p-1]
  }

  ghost predicate LinksOk(nexts: seq<seq<Node?>>, chain: seq<Node>, linked: seq<nat>) {
    && |nexts| == |linked| + 1 == |chain| + 1
    && forall p :: 0 <= p <= |chain| ==> RowOk(nexts[p], chain, linked, p)
  }

  /** The links of the node before index `p`. */
  ghost predicate RowOk(next: seq<Node?>, chain: seq<Node>, linked: seq<nat>, p: nat)
    requires p <= |chain| == |linked|
  {
    forall l: nat :: LinkedAt(linked, p, l) ==> l < |next| && next[l] == NodeAt(chain, FirstLinked(linked, p, l))
  }

  function NodeBefore(head: Node, chain: seq<Node>, p: nat): Node
    requires p <= |chain|
  {
    if p == 0 then head else chain[p-1]
  }

  /** Where an insertion hooks in at level `l`: `b`, the node before index `p`, is linked there,
      not after the rank `r`, and the next node linked there is past that rank (past the new
      node, once it has joined the list at `r`). */
  ghost predicate Awaits(head: Node, chain: seq<Node>, linked: seq<nat>, r: nat, joined: bool, l: nat, p: nat, b: Node) {
    && |chain| == |linked| && p <= r <= |chain| && b == NodeBefore(head, chain, p) && LinkedAt(linked, p, l)
    && FirstLinked(linked, p, l) >= (if joined then r + 1 else r)
  }

  /** A search for `key` that stands on `x`, the node before index `p`, at a level. */
  ghost predicate Cursor(head: Node, chain: seq<Node>, linked: seq<nat>, key: Key, x: Node, level: nat, p: nat) {
    && |chain| == |linked| && p <= |chain| && x == NodeBefore(head, chain, p) && LinkedAt(linked, p, level)
    && forall i :: 0 <= i < p ==> chain[i].key < key
  }

  // ---------- a search beside an insertion ----------

  /** A search: the node it stands on, which is before index `p`, and what it found once done. */
  datatype Look = Look(x: Node, level: nat, p: nat, done: bool, found: Node?)

  /** One read of a link. */
  function ReadNext(chain: seq<Node>, linked: seq<nat>, key: Key, look: Look): Look
    requires |chain| == |linked| && look.p <= |chain|
  {
    var q := FirstLinked(linked, look.p, look.level);
    if look.done then look
    else if q < |chain| && chain[q].key < key then Look(chain[q], look.level, q + 1, false, null)
    else if look.level > 0 then Look(look.x, look.level - 1, look.p, false, null)
    else Look(look.x, 0, look.p, true, NodeAt(chain, q))
  }

  /** The search and the one writer take turns: a read, a node joining the bottom level before index `r`,
      or the node at `r` joining its next level. */
  datatype Turn = Read | Publish(x: Node, r: nat) | Raise(r: nat)

  datatype Scene = Scene(head: Node, chain: seq<Node>, linked: seq<nat>, look: Look)

  ghost predicate Ordered(chain: seq<Node>, linked: seq<nat>) {
    && |chain| == |linked|
    && (forall i, j :: 0 <= i < j < |chain| ==> chain[i].key < chain[j].key)
    && (forall i :: 0 <= i < |linked| ==> linked[i] > 0)
  }

  ghost predicate Searching(s: Scene, key: Key) {
    Ordered(s.chain, s.linked) && Cursor(s.head, s.chain, s.linked, key, s.look.x, s.look.level, s.look.p)
  }

  predicate Possible(s: Scene, t: Turn) {
    match t
    case Read => !s.look.done
    case Publish(x, r) =>
      && !s.look.done && r <= |s.chain|
      && (r > 0 ==> s.chain[r-1].key < x.key) && (r < |s.chain| ==> x.key < s.chain[r].key)
    case Raise(r) => !s.look.done && r < |s.chain|
  }

  ghost function Act(s: Scene, key: Key, t: Turn): Scene
    requires Searching(s, key) && Possible(s, t)
  {
    match t
    case Read => s.(look := ReadNext(s.chain, s.linked, key, s.look))
    case Publish(x, r) =>
      s.(chain := s.chain[..r] + [x] + s.chain[r..], linked := s.linked[..r] + [1] + s.linked[r..],
         look := s.look.(p := if s.look.p <= r then s.look.p else s.look.p + 1))
    case Raise(r) => s.(linked := s.linked[r := s.linked[r] + 1])
  }

  /** The key's place: everything before it is smaller, the node found and everything after is not. */
  ghost predicate AtPlace(chain: seq<Node>, key: Key, look: Look) {
    && look.p <= |chain| && look.found == NodeAt(chain, look.p)
    && (forall i :: 0 <= i < look.p ==> chain[i].key < key)
    && (forall i :: look.p <= i < |chain| ==> chain[i].key >= key)
  }

  lemma TurnKeepsSearch(s: Scene, key: Key, t: Turn)
    requires Searching(s, key) && Possible(s, t)
    ensures Searching(Act(s, key, t), key)
    ensures Act(s, key, t).look.done ==> AtPlace(Act(s, key, t).chain, key, Act(s, key, t).look)
    ensures forall n :: n in s.chain ==> n in Act(s, key, t).chain
    ensures forall n :: n in Act(s, key, t).chain ==> n in s.chain || t == Publish(n, t.r)
  {
    hide FirstLinked, LinkedAt, NodeBefore, ReadNext;
    match t
    case Read => ReadKeepsSearch(s.head, s.chain, s.linked, key, s.look);
    case Publish(x, r) =>
      InsertedCursor(s.head, s.chain, s.linked, x, r, key, s.look.x, s.look.level, s.look.p);
      InsertedMembers(s.chain, x, r);
      InsertedOrder(s.chain, s.linked, x, r);
    case Raise(r) => RaisedCursor(s.head, s.chain, s.linked, s.linked[r], r, key, s.look.x, s.look.level, s.look.p);
  }

  lemma InsertedOrder(chain: seq<Node>, linked: seq<nat>, x: Node, r: nat)
    requires Ordered(chain, linked) && r <= |chain|
    requires (r > 0 ==> chain[r-1].key < x.key) && (r < |chain| ==> x.key < chain[r].key)
    ensures Ordered(chain[..r] + [x] + chain[r..], linked[..r] + [1] + linked[r..])
  {
    var chain' := chain[..r] + [x] + chain[r..];
    forall i, j | 0 <= i < j < |chain'| ensures chain'[i].key < chain'[j].key {
      if i == r && j > r + 1 { assert chain[r].key < chain[j-1].key; }
      if j == r && i < r - 1 { assert chain[i].key < chain[r-1].key; }
    }
  }

  lemma ReadKeepsSearch(head: Node, chain: seq<Node>, linked: seq<nat>, key: Key, look: Look)
    requires Ordered(chain, linked) && !look.done && Cursor(head, chain, linked, key, look.x, look.level, look.p)
    ensures var look' := ReadNext(chain, linked, key, look);
            && Cursor(head, chain, linked, key, look'.x, look'.level, look'.p)
            && (look'.done ==> AtPlace(chain, key, look'))
  {
    var q := FirstLinked(linked, look.p, look.level);
    if q < |chain| && chain[q].key < key {
      forall i | 0 <= i <= q ensures chain[i].key < key {
        assert i < q ==> chain[i].key < chain[q].key;
      }
    } else if look.level == 0 {
      assert look.p < |chain| ==> linked[look.p] > 0;
      forall i | look.p <= i < |chain| ensures chain[i].key >= key {
        assert look.p < i ==> chain[look.p].key < chain[i].key;
      }
    }
  }

  ghost predicate Turns(s: Scene, key: Key, ts: seq<Turn>)
    requires Searching(s, key)
    decreases |ts|
  {
    ts == [] || (Possible(s, ts[0]) && Searching(Act(s, key, ts[0]), key) && Turns(Act(s, key, ts[0]), key, ts[1..]))
  }

  ghost function Finally(s: Scene, key: Key, ts: seq<Turn>): Scene
    requires Searching(s, key) && Turns(s, key, ts)
    decreases |ts|
  {
    if ts == [] then s else Finally(Act(s, key, ts[0]), key, ts[1..])
  }

  lemma NoTurnsAfter(s: Scene, key: Key, ts: seq<Turn>)
    requires Searching(s, key) && Turns(s, key, ts) && s.look.done
    ensures ts == []
  {
  }

  lemma {:induction false} SearchEndsAtPlace(s: Scene, key: Key, ts: seq<Turn>)
    requires Searching(s, key) && !s.look.done && Turns(s, key, ts)
    ensures var e := Finally(s, key, ts);
            && (e.look.done ==> AtPlace(e.chain, key, e.look))
            && (forall n :: n in s.chain ==> n in e.chain)
            && (forall n :: n in e.chain ==> n in s.chain || exists t :: t in ts && t.Publish? && t.x == n)
    decreases |ts|
  {
    if ts != [] {
      TurnKeepsSearch(s, key, ts[0]);
      var s', rest := Act(s, key, ts[0]), ts[1..];
      assert forall t :: t in rest ==> t in ts;
      assert ts[0] in ts;
      if !s'.look.done {
        SearchEndsAtPlace(s', key, rest);
      } else {
        NoTurnsAfter(s', key, rest);
      }
    }
  }

  /** However its reads interleave with the stores of insertions, a search ends on a node that is in the
      list or has joined it meanwhile, whose key is not smaller, and no node of the list it began in lies
      between the key and the one found. */
  lemma InterleavedSearch(s: Scene, key: Key, ts: seq<Turn>)
    requires Searching(s, key) && !s.look.done && Turns(s, key, ts) && Finally(s, key, ts).look.done
    ensures var found := Finally(s, key, ts).look.found;
            && (found != null ==>
                 && found.key >= key
                 && (found in s.chain || exists t :: t in ts && t.Publish? && t.x == found))
            && (forall n :: n in s.chain && n.key >= key ==> found != null && found.key <= n.key)
  {
    hide Searching, Turns, Finally, AtPlace;
    SearchEndsAtPlace(s, key, ts);
    var e := Finally(s, key, ts);
    FinallyOrdered(s, key, ts);
    forall n | n in e.chain ensures n.key >= key ==> e.look.found != null && e.look.found.key <= n.key {
      FoundIsFirst(e, key, n);
    }
    FoundIsThere(e.chain, key, e.look);
  }

  lemma FoundIsThere(chain: seq<Node>, key: Key, look: Look)
    requires AtPlace(chain, key, look)
    ensures look.found != null ==> look.found in chain && look.found.key >= key
  {
  }

  lemma FoundIsFirst(e: Scene, key: Key, n: Node)
    requires Searching(e, key) && AtPlace(e.chain, key, e.look) && n in e.chain
    ensures n.key >= key ==> e.look.found != null && e.look.found.key <= n.key
  {
    hide Cursor;
    var i :| 0 <= i < |e.chain| && e.chain[i] == n;
    if n.key >= key {
      assert e.look.p <= i;
      assert e.look.p < i ==> e.chain[e.look.p].key < e.chain[i].key;
    }
  }

  lemma {:induction false} FinallyOrdered(s: Scene, key: Key, ts: seq<Turn>)
    requires Searching(s, key) && Turns(s, key, ts)
    ensures Searching(Finally(s, key, ts), key)
    decreases |ts|
  {
    hide Searching, Act;
    if ts != [] {
      FinallyOrdered(Act(s, key, ts[0]), key, ts[1..]);
    }
  }

  class SkipList {
    const head: Node
    var maxHeight: nat
    /** All nodes in key order, and up to which level each is linked so far. */
    ghost var chain: seq<Node>
    ghost var linked: seq<nat>

    constructor ()
      ensures Valid() && chain == [] && fresh(head)
    {
      head := new Node(0, MAX_HEIGHT);
      maxHeight := 1;
      chain, linked := [], [];
      new;
      head.next := seq(MAX_HEIGHT, _ => null);
    }

    ghost predicate Shape()
      reads this, head, chain
    {
      && |chain| == |linked|
      && |head.next| == MAX_HEIGHT && 1 <= maxHeight <= MAX_HEIGHT
      && (forall i :: 0 <= i < |chain| ==> 1 <= linked[i] <= |chain[i].next| <= MAX_HEIGHT && linked[i] <= maxHeight)
      && (forall i, j :: 0 <= i < j < |chain| ==> chain[i].key < chain[j].key)
      && head !in chain
    }

    /** The node before index `p`: the head for 0. */
    ghost function Before(p: nat): Node
      requires p <= |chain|
      reads this
    {
      NodeBefore(head, chain, p)
    }

    /** Level `l` links the node before index `p`. */
    ghost predicate Links(p: nat, l: nat)
      requires |chain| == |linked| && p <= |chain|
      reads this
    {
      LinkedAt(linked, p, l)
    }

    /** The link arrays in list order, the head's first. */
    ghost function NextsOf(nodes: seq<Node>): (ns: seq<seq<Node?>>)
      reads head, nodes
      ensures |ns| == |nodes| + 1
      ensures forall p :: 0 <= p <= |nodes| ==> ns[p] == (if p == 0 then head else nodes[p-1]).next
    {
      seq(|nodes| + 1, p requires 0 <= p <= |nodes| reads head, nodes => (if p == 0 then head else nodes[p-1]).next)
    }

    ghost function Nexts(): seq<seq<Node?>>
      reads this, head, chain
    {
      NextsOf(chain)
    }

    /** Every link leads to the next node linked at its level: each level is the sorted
        list of the nodes linked that high, a subsequence of the level below. */
    ghost predicate Valid()
      reads this, head, chain
    {
      Shape() && LinksOk(Nexts(), chain, linked)
    }

    lemma LinkTarget(p: nat, l: nat)
      requires Valid() && p <= |chain| && Links(p, l)
      ensures l < |Before(p).next| && Before(p).next[l] == NodeAt(chain, FirstLinked(linked, p, l))
    {
      assert RowOk(Nexts()[p], chain, linked, p);
    }

    /** Each level is a subsequence of the one below: a node linked at a level is linked at
        every lower one, and there it skips no further. */
    lemma LevelsNest(p: nat, l: nat, m: nat)
      requires Valid() && p <= |chain| && Links(p, l) && m <= l
      ensures Links(p, m) && FirstLinked(linked, p, m) <= FirstLinked(linked, p, l)
      ensures Before(p).next[l] != null ==>
                Before(p).next[m] != null && Before(p).next[m].key <= Before(p).next[l].key
      ensures p > 0 && Before(p).next[l] != null ==> Before(p).key < Before(p).next[l].key
    {
      LinkTarget(p, l);
      LinkTarget(p, m);
    }

    ghost function Keys(): set<Key>
      reads this, chain
    {
      KeysOf(chain)
    }

    /** The number of nodes with a smaller key: where a linear scan stops. */
    ghost predicate IsRank(key: Key, r: nat)
      reads this, chain
    {
      && r <= |chain|
      && (forall i :: 0 <= i < r ==> chain[i].key < key)
      && (forall i :: r <= i < |chain| ==> chain[i].key >= key)
    }

    lemma CursorStarts(key: Key)
      requires Valid()
      ensures 1 <= maxHeight && forall level :: 0 <= level < maxHeight ==> Cursor(head, chain, linked, key, head, level, 0)
    {
    }

    method FindGreaterOrEqual(key: Key) returns (x: Node?, prev: seq<Node>, ghost r: nat, ghost at: seq<nat>)
      requires Valid()
      ensures IsRank(key, r) && x == NodeAt(chain, r)
      ensures |prev| == |at| == maxHeight
      ensures forall l :: 0 <= l < maxHeight ==> Awaits(head, chain, linked, r, false, l, at[l], prev[l])
    {
      hide IsRank, Hooked, Awaits, FirstLinked, Valid, NodeBefore;
      CursorStarts(key);
      var node: Node := head;
      var level := maxHeight - 1;
      ghost var p: nat := 0;
      prev := seq(maxHeight, _ => head);
      at := seq(maxHeight, _ => 0);
      while true
        invariant 0 <= level < maxHeight && Cursor(head, chain, linked, key, node, level, p)
        invariant |prev| == |at| == maxHeight
        invariant forall l :: level < l < maxHeight ==> Hooked(key, l, at[l], prev[l]) && at[l] <= p
        decreases level, |chain| - p
      {
        StepFacts(key, node, level, p);
        var next := node.next[level];
        if next != null && next.key < key {
          node := next;
          p := FirstLinked(linked, p, level) + 1;
        } else {
          prev := prev[level := node];
          at := at[level := p];
          if level == 0 {
            r := p;
            AllHooked(key, r, at, prev);
            return next, prev, r, at;
          }
          level := level - 1;
        }
      }
    }

    /** What the next link tells a search: a smaller key moves it on, any other is a hook at
        this level, and on the bottom level the key's place. */
    lemma StepFacts(key: Key, x: Node, level: nat, p: nat)
      requires Valid() && Cursor(head, chain, linked, key, x, level, p)
      ensures level < |x.next|
      ensures var q := FirstLinked(linked, p, level);
              && x.next[level] == NodeAt(chain, q)
              && (q < |chain| && chain[q].key < key ==> Cursor(head, chain, linked, key, chain[q], level, q + 1))
              && (!(q < |chain| && chain[q].key < key) ==>
                   && Hooked(key, level, p, x)
                   && (level > 0 ==> Cursor(head, chain, linked, key, x, level - 1, p))
                   && (level == 0 ==> IsRank(key, p) && q == p))
    {
      LinkTarget(p, level);
      var q := FirstLinked(linked, p, level);
      if q < |chain| && chain[q].key < key {
        AdvanceTo(key, q);
      } else if level == 0 {
        StopAt(key, p);
      }
    }

    /** One read of a search running beside an insertion: where the search ends is the key's
        place in the list as it is at that read. */
    method SearchStep(key: Key, x: Node, level: nat, ghost p: nat)
      returns (done: bool, x': Node, level': nat, found: Node?, ghost p': nat)
      requires Valid() && Cursor(head, chain, linked, key, x, level, p)
      ensures Look(x', level', p', done, if done then found else null) ==
              ReadNext(chain, linked, key, Look(x, level, p, false, null))
      ensures Cursor(head, chain, linked, key, x', level', p')
      ensures done ==> IsRank(key, p') && found == NodeAt(chain, p')
    {
      StepFacts(key, x, level, p);
      var next := x.next[level];
      done, x', level', found, p' := false, x, level, next, p;
      if next != null && next.key < key {
        x', p' := next, FirstLinked(linked, p, level) + 1;
      } else if level == 0 {
        done := true;
      } else {
        level' := level - 1;
      }
    }

    lemma AdvanceTo(key: Key, q: nat)
      requires Shape() && q < |chain| && chain[q].key < key
      ensures forall i :: 0 <= i <= q ==> chain[i].key < key
    {
      forall i | 0 <= i <= q ensures chain[i].key < key {
        assert i < q ==> chain[i].key < chain[q].key;
      }
    }

    /** On the bottom level a search stops at the key's rank. */
    lemma StopAt(key: Key, p: nat)
      requires Shape() && p <= |chain| && forall i :: 0 <= i < p ==> chain[i].key < key
      requires FirstLinked(linked, p, 0) < |chain| ==> chain[FirstLinked(linked, p, 0)].key >= key
      ensures IsRank(key, p) && FirstLinked(linked, p, 0) == p
    {
      assert p < |chain| ==> linked[p] > 0;
      forall i | p <= i < |chain| ensures chain[i].key >= key {
        assert p < i ==> chain[p].key < chain[i].key;
      }
    }

    lemma HookedAwaits(key: Key, r: nat, l: nat, p: nat, b: Node)
      requires Shape() && IsRank(key, r) && p <= r && Hooked(key, l, p, b)
      ensures Awaits(head, chain, linked, r, false, l, p, b)
    {
    }

    lemma AllHooked(key: Key, r: nat, at: seq<nat>, prev: seq<Node>)
      requires Valid() && IsRank(key, r) && |at| == |prev|
      requires forall l :: 0 <= l < |at| ==> at[l] <= r && Hooked(key, l, at[l], prev[l])
      ensures forall l :: 0 <= l < |at| ==> Awaits(head, chain, linked, r, false, l, at[l], prev[l])
    {
      forall l | 0 <= l < |at| ensures Awaits(head, chain, linked, r, false, l, at[l], prev[l]) {
        HookedAwaits(key, r, l, at[l], prev[l]);
      }
    }

    /** As Awaits, told by keys instead of by rank. */
    ghost predicate Hooked(key: Key, l: nat, p: nat, b: Node)
      requires |chain| == |linked|
      reads this, chain
    {
      && p <= |chain| && b == Before(p) && Links(p, l)
      && (FirstLinked(linked, p, l) < |chain| ==> chain[FirstLinked(linked, p, l)].key >= key)
    }

    /** The last node with a smaller key; the head if there is none. */
    method FindLessThan(key: Key) returns (x: Node, ghost r: nat)
      requires Valid()
      ensures IsRank(key, r) && x == Before(r)
    {
      x := head;
      var level := maxHeight - 1;
      r := 0;
      while true
        invariant 0 <= level < maxHeight && Cursor(head, chain, linked, key, x, level, r)
        decreases level, |chain| - r
      {
        StepFacts(key, x, level, r);
        var next := x.next[level];
        if next == null || next.key >= key {
          if level == 0 {
            return;
          }
          level := level - 1;
        } else {
          x := next;
          r := FirstLinked(linked, r, level) + 1;
        }
      }
    }

    /** The last node; the head of an empty list. */
    method FindLast() returns (x: Node)
      requires Valid()
      ensures x == Before(|chain|)
    {
      x := head;
      var level := maxHeight - 1;
      ghost var p: nat := 0;
      while true
        invariant 0 <= level < maxHeight && p <= |chain| && x == Before(p) && Links(p, level)
        decreases level, |chain| - p
      {
        LinkTarget(p, level);
        var next := x.next[level];
        ghost var q := FirstLinked(linked, p, level);
        assert level == 0 && p < |chain| ==> linked[p] > 0;
        if next == null {
          if level == 0 {
            return;
          }
          level := level - 1;
        } else {
          x := next;
          p := q + 1;
        }
      }
    }

    method Contains(key: Key) returns (b: bool)
      requires Valid()
      ensures b <==> key in Keys()
    {
      var x, prev, r, at := FindGreaterOrEqual(key);
      b := x != null && x.key == key;
      if b { assert chain[r] in chain; }
    }

    /** NoBarrier_SetNext on a node not yet linked at the level: no reader can notice. */
    method Prepare(x: Node, i: nat, b: Node)
      requires Valid() && i < |b.next| && i < |x.next| && x != head
      requires forall j :: 0 <= j < |chain| && chain[j] == x ==> linked[j] <= i
      modifies x
      ensures Valid() && x.next == old(x.next)[i := old(b.next[i])]
    {
      ghost var nexts0 := Nexts();
      x.SetNext(i, b.next[i]);
      forall p | 0 <= p <= |chain| ensures RowOk(Nexts()[p], chain, linked, p) {
        assert RowOk(nexts0[p], chain, linked, p);
      }
    }

    /** The first visible store of an insertion: the node joins the bottom level. */
    method PublishBottom(x: Node, b: Node, ghost r: nat)
      requires Valid() && x != head && x !in chain && 1 <= |x.next| <= MAX_HEIGHT
      requires IsRank(x.key, r) && (r < |chain| ==> chain[r].key != x.key)
      requires b == Before(r) && x.next[0] == NodeAt(chain, r)
      modifies this`chain, this`linked, b
      ensures Valid() && Keys() == old(Keys()) + {x.key}
      ensures chain == old(chain)[..r] + [x] + old(chain)[r..]
      ensures linked == old(linked)[..r] + [1] + old(linked)[r..]
    {
      ghost var nexts0 := Nexts();
      InsertedLinks(nexts0, chain, linked, x, r);
      InsertedKeys(chain, x, r);
      Store(b, 0, x, r);
      InsertedShape(x, r);
      NextsInserted(x, r);
      assert LinksOk(InsertNexts(nexts0, x, r, x.next), chain[..r] + [x] + chain[r..], linked[..r] + [1] + linked[r..]);
      Relabel(chain[..r] + [x] + chain[r..], linked[..r] + [1] + linked[r..]);
    }

    /** Ghost bookkeeping: names the new list once its links are in place. */
    ghost method Relabel(chain': seq<Node>, linked': seq<nat>)
      requires |head.next| == MAX_HEIGHT && 1 <= maxHeight <= MAX_HEIGHT && |chain'| == |linked'|
      requires forall i :: 0 <= i < |chain'| ==> 1 <= linked'[i] <= |chain'[i].next| <= MAX_HEIGHT && linked'[i] <= maxHeight
      requires forall i, j :: 0 <= i < j < |chain'| ==> chain'[i].key < chain'[j].key
      requires head !in chain' && LinksOk(NextsOf(chain'), chain', linked')
      modifies this`chain, this`linked
      ensures Valid() && chain == chain' && linked == linked'
    {
      chain, linked := chain', linked';
    }

    /** One SetNext on the node before index `p`, seen on the link arrays. */
    method Store(b: Node, i: nat, x: Node, ghost p: nat)
      requires Shape() && p <= |chain| && b == Before(p) && i < |b.next|
      modifies b
      ensures Shape() && Nexts() == old(Nexts())[p := old(Nexts())[p][i := x]]
    {
      ghost var nexts0 := Nexts();
      forall q | 0 <= q <= |chain| && q != p ensures Before(q) != b {
        DistinctNodes(q, p);
      }
      b.SetNext(i, x);
      forall q | 0 <= q <= |chain| ensures Nexts()[q] == nexts0[p := nexts0[p][i := x]][q] {
        assert Nexts()[q] == Before(q).next && nexts0[q] == old(Before(q).next);
      }
    }

    lemma NextsInserted(x: Node, r: nat)
      requires r <= |chain|
      ensures NextsOf(chain[..r] + [x] + chain[r..]) == Nexts()[..r+1] + [x.next] + Nexts()[r+1..]
    {
    }

    lemma DistinctNodes(p: nat, q: nat)
      requires Shape() && p <= |chain| && q <= |chain| && p != q
      ensures Before(p) != Before(q)
    {
      if p > 0 && q > 0 {
        assert p < q ==> chain[p-1].key < chain[q-1].key;
        assert q < p ==> chain[q-1].key < chain[p-1].key;
      }
    }

    lemma InsertedShape(x: Node, r: nat)
      requires Shape() && x != head && x !in chain && 1 <= |x.next| <= MAX_HEIGHT
      requires IsRank(x.key, r) && (r < |chain| ==> chain[r].key != x.key)
      ensures var chain' := chain[..r] + [x] + chain[r..]; var linked' := linked[..r] + [1] + linked[r..];
              && (forall i :: 0 <= i < |chain'| ==> 1 <= linked'[i] <= |chain'[i].next| <= MAX_HEIGHT && linked'[i] <= maxHeight)
              && (forall i, j :: 0 <= i < j < |chain'| ==> chain'[i].key < chain'[j].key)
              && head !in chain'
    {
      var chain' := chain[..r] + [x] + chain[r..];
      forall i, j | 0 <= i < j < |chain'| ensures chain'[i].key < chain'[j].key {
        if i == r && j > r + 1 { assert chain[r].key < chain[j-1].key; }
      }
    }

    /** A later store: the node, already in the list, joins level `i`. */
    method PublishAt(x: Node, i: nat, b: Node, ghost p: nat, ghost r: nat)
      requires Valid() && r < |chain| && chain[r] == x && 0 < i == linked[r] < |x.next| && i < maxHeight
      requires p <= r && b == Before(p) && Links(p, i) && FirstLinked(linked, p, i) > r
      requires x.next[i] == b.next[i]
      modifies this`chain, this`linked, b
      ensures Valid() && chain == old(chain) && linked == old(linked)[r := i + 1]
    {
      ghost var nexts0 := Nexts();
      LinkTarget(p, i);
      RaisedLinks(nexts0, chain, linked, i, p, r);
      Store(b, i, x, p);
      Relabel(chain, linked[r := i + 1]);
    }

    /** Insert with the height drawn by RandomHeight: after each store the list is valid, and
        the new key is in it from the first publishing store on. */
    method Insert(key: Key, height: nat)
      requires Valid() && key !in Keys() && 1 <= height <= MAX_HEIGHT
      modifies this, head, chain
      ensures Valid() && Keys() == old(Keys()) + {key}
    {
      var x := new Node(key, height);
      var prev, r, at := FindPlace(key, height);
      InsertLinks(x, prev, r, at);
    }

    /** Where the new key belongs on every level it will reach. */
    method FindPlace(key: Key, height: nat) returns (prev: seq<Node>, ghost r: nat, ghost at: seq<nat>)
      requires Valid() && key !in Keys() && 1 <= height <= MAX_HEIGHT
      modifies this`maxHeight
      ensures Valid() && KeyAbsent(key, r) && |prev| == |at| == maxHeight >= height
      ensures forall n :: n in prev ==> n == head || n in chain
      ensures forall l :: 0 <= l < |prev| ==> Awaits(head, chain, linked, r, false, l, at[l], prev[l])
    {
      var x;
      x, prev, r, at := FindGreaterOrEqual(key);
      assert KeyAbsent(key, r);
      if height > maxHeight {
        prev, at := Grow(height, prev, r, at);
      }
      WaitersInside(r, at, prev);
    }

    lemma WaitersInside(r: nat, at: seq<nat>, prev: seq<Node>)
      requires |prev| == |at| && forall l :: 0 <= l < |prev| ==> Awaits(head, chain, linked, r, false, l, at[l], prev[l])
      ensures forall n :: n in prev ==> n == head || n in chain
    {
    }

    ghost predicate KeyAbsent(key: Key, r: nat)
      reads this, chain
    {
      IsRank(key, r) && (r < |chain| ==> chain[r].key != key)
    }

    /** Raises the height of the list: the new levels hang off the head and are empty. */
    method Grow(height: nat, prev: seq<Node>, ghost r: nat, ghost at: seq<nat>) returns (prev': seq<Node>, ghost at': seq<nat>)
      requires Valid() && maxHeight < height <= MAX_HEIGHT && |prev| == |at| == maxHeight && r <= |chain|
      requires forall l :: 0 <= l < maxHeight ==> Awaits(head, chain, linked, r, false, l, at[l], prev[l])
      modifies this`maxHeight
      ensures Valid() && maxHeight == height && |prev'| == |at'| == height
      ensures forall l :: 0 <= l < height ==> Awaits(head, chain, linked, r, false, l, at'[l], prev'[l])
    {
      prev' := prev + seq(height - maxHeight, _ => head);
      at' := at + seq(height - maxHeight, _ => 0);
      AboveAll(head, chain, linked, r, maxHeight, at', prev');
      maxHeight := height;
    }

    /** The loop of Insert: first the node's own link, then the one that publishes it, level by level. */
    method InsertLinks(x: Node, prev: seq<Node>, ghost r: nat, ghost at: seq<nat>)
      requires Valid() && x != head && x !in chain && 1 <= |x.next| <= maxHeight
      requires KeyAbsent(x.key, r)
      requires |prev| >= |x.next| && |at| >= |x.next|
      requires forall l :: 0 <= l < |x.next| ==> Awaits(head, chain, linked, r, false, l, at[l], prev[l])
      modifies this`chain, this`linked, x, prev
      ensures Valid() && Keys() == old(Keys()) + {x.key}
    {
      hide Awaits, FirstLinked, LinksOk, RowOk;
      var i := 0;
      while i < |x.next|
        invariant 0 <= i <= |x.next| <= maxHeight && |x.next| == old(|x.next|) && Valid()
        invariant i == 0 ==> chain == old(chain) && linked == old(linked)
        invariant i > 0 ==> r < |chain| && chain[r] == x && linked[r] == i
        invariant Keys() == old(Keys()) + if i == 0 then {} else {x.key}
        invariant forall l :: i <= l < |x.next| ==> Awaits(head, chain, linked, r, i > 0, l, at[l], prev[l])
      {
        if i == 0 {
          JoinBottom(x, prev[0], r, prev, at);
        } else {
          JoinLevel(x, i, prev[i], at[i], r, prev, at);
        }
        i := i + 1;
      }
    }

    method JoinBottom(x: Node, b: Node, ghost r: nat, ghost prev: seq<Node>, ghost at: seq<nat>)
      requires Valid() && x != head && x !in chain && 1 <= |x.next| <= maxHeight && KeyAbsent(x.key, r)
      requires |prev| >= |x.next| && |at| >= |x.next| && b == prev[0]
      requires forall l :: 0 <= l < |x.next| ==> Awaits(head, chain, linked, r, false, l, at[l], prev[l])
      modifies this`chain, this`linked, x, b
      ensures Valid() && |x.next| == old(|x.next|) && r < |chain| && chain[r] == x && linked[r] == 1
      ensures Keys() == old(Keys()) + {x.key}
      ensures forall l :: 1 <= l < |x.next| ==> Awaits(head, chain, linked, r, true, l, at[l], prev[l])
    {
      hide FirstLinked, LinksOk, RowOk;
      ghost var chain0, linked0 := chain, linked;
      FirstLinkedBottom(at[0], r);
      LinkTarget(at[0], 0);
      NotBefore(x, at[0], r);
      Prepare(x, 0, b);
      PublishBottom(x, b, r);
      AllInserted(head, chain0, linked0, x, r, |x.next|, at, prev);
    }

    method JoinLevel(x: Node, i: nat, b: Node, ghost p: nat, ghost r: nat, ghost prev: seq<Node>, ghost at: seq<nat>)
      requires Valid() && x != head && 0 < i < |x.next| <= maxHeight
      requires r < |chain| && chain[r] == x && linked[r] == i
      requires |prev| >= |x.next| && |at| >= |x.next| && p == at[i] && b == prev[i]
      requires forall l :: i <= l < |x.next| ==> Awaits(head, chain, linked, r, true, l, at[l], prev[l])
      modifies this`chain, this`linked, x, b
      ensures Valid() && |x.next| == old(|x.next|) && chain == old(chain) && linked == old(linked)[r := i + 1]
      ensures forall l :: i < l < |x.next| ==> Awaits(head, chain, linked, r, true, l, at[l], prev[l])
    {
      LinkTarget(p, i);
      NotBefore(x, p, r);
      AllRaised(head, chain, linked, i, r, |x.next|, at, prev);
      forall j | 0 <= j < |chain| ensures chain[j] == x ==> j == r {
        if j != r { DistinctNodes(j + 1, r + 1); }
      }
      Prepare(x, i, b);
      PublishAt(x, i, b, p, r);
    }

    lemma FirstLinkedBottom(p: nat, r: nat)
      requires Shape() && p <= r <= |chain| && FirstLinked(linked, p, 0) >= r
      ensures p == r
    {
      assert p < |chain| ==> linked[p] > 0;
    }

    lemma NotBefore(x: Node, p: nat, r: nat)
      requires Shape() && p <= r <= |chain| && x != head
      requires (r < |chain| && chain[r] == x) || x !in chain
      ensures Before(p) != x
    {
      if r < |chain| && chain[r] == x { DistinctNodes(p, r + 1); }
    }
  }

  /** SkipList::Iterator: a position in the list of keys, or past its end. */
  class Iterator {
    const list: SkipList
    var node: Node?

    constructor (list: SkipList)
      ensures this.list == list && node == null
    {
      this.list := list;
      node := null;
    }

    method Next(ghost i: nat)
      requires list.Valid() && i < |list.chain| && node == list.chain[i]
      modifies this
      ensures node == NodeAt(list.chain, i + 1)
    {
      list.LinkTarget(i + 1, 0);
      assert i + 1 < |list.chain| ==> list.linked[i+1] > 0;
      node := node.next[0];
    }

    method Prev(ghost i: nat)
      requires list.Valid() && i < |list.chain| && node == list.chain[i]
      modifies this
      ensures node == if i == 0 then null else list.chain[i-1]
    {
      var x, r := list.FindLessThan(node.key);
      assert forall j :: 0 <= j < i ==> list.chain[j].key < list.chain[i].key;
      node := x;
      if x == list.head {
        node := null;
      }
    }

    method Seek(target: Key) returns (ghost r: nat)
      requires list.Valid()
      modifies this
      ensures list.IsRank(target, r) && node == NodeAt(list.chain, r)
    {
      var x, prev, rank, at := list.FindGreaterOrEqual(target);
      node := x;
      r := rank;
    }

    method SeekToFirst()
      requires list.Valid()
      modifies this
      ensures node == NodeAt(list.chain, 0)
    {
      list.LinkTarget(0, 0);
      assert 0 < |list.chain| ==> list.linked[0] > 0;
      node := list.head.next[0];
    }

    method SeekToLast()
      requires list.Valid()
      modifies this
      ensures node == if list.chain == [] then null else list.chain[|list.chain| - 1]
    {
      var x := list.FindLast();
      node := x;
      if x == list.head {
        node := null;
      }
    }
  }

  ghost function InsertNexts(nexts: seq<seq<Node?>>, x: Node, r: nat, xnext: seq<Node?>): seq<seq<Node?>>
    requires r < |nexts| && |nexts[r]| > 0
  {
    nexts[r := nexts[r][0 := x]][..r+1] + [xnext] + nexts[r := nexts[r][0 := x]][r+1..]
  }

  /** Linking a node in at the bottom keeps every link right. */
  lemma InsertedLinks(nexts: seq<seq<Node?>>, chain: seq<Node>, linked: seq<nat>, x: Node, r: nat)
    requires LinksOk(nexts, chain, linked) && r <= |chain| && (forall i :: 0 <= i < |linked| ==> linked[i] > 0)
    ensures |nexts[r]| > 0
    ensures forall xnext: seq<Node?> :: |xnext| > 0 && xnext[0] == NodeAt(chain, r) ==>
              LinksOk(InsertNexts(nexts, x, r, xnext), chain[..r] + [x] + chain[r..], linked[..r] + [1] + linked[r..])
  {
    assert RowOk(nexts[r], chain, linked, r) && LinkedAt(linked, r, 0);
    forall xnext: seq<Node?> | |xnext| > 0 && xnext[0] == NodeAt(chain, r)
      ensures LinksOk(InsertNexts(nexts, x, r, xnext), chain[..r] + [x] + chain[r..], linked[..r] + [1] + linked[r..])
    {
      forall p | 0 <= p <= |chain| + 1
        ensures RowOk(InsertNexts(nexts, x, r, xnext)[p], chain[..r] + [x] + chain[r..], linked[..r] + [1] + linked[r..], p)
      {
        if p == r + 1 {
          InsertedOwnRow(chain, linked, x, r, xnext);
        } else {
          var p0 := if p <= r then p else p - 1;
          assert RowOk(nexts[p0], chain, linked, p0);
          InsertedRow(nexts[p0], chain, linked, x, r, p);
        }
      }
    }
  }

  lemma InsertedOwnRow(chain: seq<Node>, linked: seq<nat>, x: Node, r: nat, xnext: seq<Node?>)
    requires r <= |chain| == |linked| && (forall i :: 0 <= i < |linked| ==> linked[i] > 0)
    requires |xnext| > 0 && xnext[0] == NodeAt(chain, r)
    ensures RowOk(xnext, chain[..r] + [x] + chain[r..], linked[..r] + [1] + linked[r..], r + 1)
  {
    InsertedFirst(linked, r, r + 1, 0);
    FirstLinkedIs(linked, r, 0, r);
    InsertedNode(chain, x, r, r);
  }

  /** A row of another node: unchanged but for the bottom link of the one just before. */
  lemma InsertedRow(row: seq<Node?>, chain: seq<Node>, linked: seq<nat>, x: Node, r: nat, p: nat)
    requires r <= |chain| == |linked| && (forall i :: 0 <= i < |linked| ==> linked[i] > 0)
    requires p <= |chain| + 1 && p != r + 1
    requires RowOk(row, chain, linked, if p <= r then p else p - 1)
    ensures var row' := if p == r && |row| > 0 then row[0 := x] else row;
            RowOk(row', chain[..r] + [x] + chain[r..], linked[..r] + [1] + linked[r..], p)
  {
    var linked' := linked[..r] + [1] + linked[r..];
    var p0 := if p <= r then p else p - 1;
    forall l: nat | LinkedAt(linked', p, l)
      ensures var row' := if p == r && |row| > 0 then row[0 := x] else row;
              l < |row'| && row'[l] == NodeAt(chain[..r] + [x] + chain[r..], FirstLinked(linked', p, l))
    {
      InsertedFirst(linked, r, p, l);
      assert LinkedAt(linked, p0, l);
      InsertedNode(chain, x, r, FirstLinked(linked, p0, l));
      InsertedNode(chain, x, r, r);
    }
  }

  /** Linking the node at `r` in at level `i`, behind the node before `p`, keeps every link right. */
  lemma RaisedLinks(nexts: seq<seq<Node?>>, chain: seq<Node>, linked: seq<nat>, i: nat, p: nat, r: nat)
    requires LinksOk(nexts, chain, linked) && r < |chain| && linked[r] == i && p <= r
    requires LinkedAt(linked, p, i) && FirstLinked(linked, p, i) > r
    requires i < |nexts[p]| && i < |nexts[r+1]| && nexts[r+1][i] == nexts[p][i]
    ensures LinksOk(nexts[p := nexts[p][i := chain[r]]], chain, linked[r := i + 1])
  {
    var nexts' := nexts[p := nexts[p][i := chain[r]]];
    forall p' | 0 <= p' <= |chain| ensures RowOk(nexts'[p'], chain, linked[r := i + 1], p') {
      assert RowOk(nexts[p'], chain, linked, p') && RowOk(nexts[p], chain, linked, p);
      RaisedRow(nexts[p'], nexts[p], chain, linked, i, p, r, p');
    }
  }

  lemma RaisedRow(row: seq<Node?>, rowP: seq<Node?>, chain: seq<Node>, linked: seq<nat>, i: nat, p: nat, r: nat, p': nat)
    requires |linked| == |chain| && r < |chain| && linked[r] == i && p <= r && p' <= |chain|
    requires LinkedAt(linked, p, i) && FirstLinked(linked, p, i) > r
    requires RowOk(row, chain, linked, p') && RowOk(rowP, chain, linked, p)
    requires p' == p ==> row == rowP
    requires p' == r + 1 ==> i < |row| && i < |rowP| && row[i] == rowP[i]
    ensures RowOk(if p' == p && i < |row| then row[i := chain[r]] else row, chain, linked[r := i + 1], p')
  {
    var row', linked' := if p' == p && i < |row| then row[i := chain[r]] else row, linked[r := i + 1];
    forall l: nat | LinkedAt(linked', p', l)
      ensures l < |row'| && row'[l] == NodeAt(chain, FirstLinked(linked', p', l))
    {
      RaisedFirst(linked, r, i, p, p', l);
      if p' == r + 1 && l == i {
        FirstLinkedIs(linked, r + 1, i, FirstLinked(linked, p, i));
      } else {
        assert LinkedAt(linked, p', l);
      }
    }
  }

  /** Indices after inserting a node linked at level 0 only. */
  lemma InsertedFirst(linked: seq<nat>, r: nat, p: nat, l: nat)
    requires r <= |linked| && p <= |linked| + 1
    ensures var linked' := linked[..r] + [1] + linked[r..];
            var q := FirstLinked(linked', p, l);
            && (p <= r && l > 0 ==> q == var q0 := FirstLinked(linked, p, l); if q0 < r then q0 else q0 + 1)
            && (p <= r && l == 0 && (forall i :: 0 <= i < |linked| ==> linked[i] > 0) ==> q == p)
            && (p > r ==> q == FirstLinked(linked, p - 1, l) + 1)
  {
    var linked' := linked[..r] + [1] + linked[r..];
    if p > r {
      FirstLinkedIs(linked', p, l, FirstLinked(linked, p - 1, l) + 1);
    } else if l > 0 {
      var q0 := FirstLinked(linked, p, l);
      FirstLinkedIs(linked', p, l, if q0 < r then q0 else q0 + 1);
    } else if forall i :: 0 <= i < |linked| ==> linked[i] > 0 {
      assert linked'[p] > 0;
    }
  }

  /** A search under way is undisturbed when a node joins the bottom level... */
  lemma InsertedCursor(head: Node, chain: seq<Node>, linked: seq<nat>, x: Node, r: nat, key: Key, y: Node, level: nat, p: nat)
    requires Cursor(head, chain, linked, key, y, level, p) && r <= |chain| && (r < |chain| ==> x.key < chain[r].key)
    ensures Cursor(head, chain[..r] + [x] + chain[r..], linked[..r] + [1] + linked[r..], key, y, level, if p <= r then p else p + 1)
  {
    var chain', p' := chain[..r] + [x] + chain[r..], if p <= r then p else p + 1;
    forall i | 0 <= i < p' ensures chain'[i].key < key {
      if i == r { assert chain[r].key < key; }
    }
  }

  /** ... and when one is linked in higher up. */
  lemma RaisedCursor(head: Node, chain: seq<Node>, linked: seq<nat>, i: nat, r: nat, key: Key, y: Node, level: nat, p: nat)
    requires Cursor(head, chain, linked, key, y, level, p) && r < |chain| && linked[r] == i
    ensures Cursor(head, chain, linked[r := i + 1], key, y, level, p)
  {
  }

  /** Levels above the list so far hang off the head and are empty. */
  lemma AboveAll(head: Node, chain: seq<Node>, linked: seq<nat>, r: nat, tall: nat, at: seq<nat>, prev: seq<Node>)
    requires r <= |chain| == |linked| && tall <= |at| == |prev| <= MAX_HEIGHT
    requires forall i :: 0 <= i < |linked| ==> linked[i] <= tall
    requires forall l :: 0 <= l < tall ==> Awaits(head, chain, linked, r, false, l, at[l], prev[l])
    requires forall l :: tall <= l < |at| ==> at[l] == 0 && prev[l] == head
    ensures forall l :: 0 <= l < |at| ==> Awaits(head, chain, linked, r, false, l, at[l], prev[l])
  {
  }

  lemma AllInserted(head: Node, chain: seq<Node>, linked: seq<nat>, x: Node, r: nat, height: nat, at: seq<nat>, prev: seq<Node>)
    requires r <= |chain| == |linked| && height <= |at| && height <= |prev|
    requires forall l :: 0 <= l < height ==> Awaits(head, chain, linked, r, false, l, at[l], prev[l])
    ensures forall l :: 1 <= l < height ==>
              Awaits(head, chain[..r] + [x] + chain[r..], linked[..r] + [1] + linked[r..], r, true, l, at[l], prev[l])
  {
    forall l | 1 <= l < height
      ensures Awaits(head, chain[..r] + [x] + chain[r..], linked[..r] + [1] + linked[r..], r, true, l, at[l], prev[l])
    {
      assert Awaits(head, chain, linked, r, false, l, at[l], prev[l]);
      InsertedFirst(linked, r, at[l], l);
    }
  }

  lemma AllRaised(head: Node, chain: seq<Node>, linked: seq<nat>, i: nat, r: nat, height: nat, at: seq<nat>, prev: seq<Node>)
    requires r < |chain| == |linked| && linked[r] == i < height <= |at| && height <= |prev|
    requires forall l :: i <= l < height ==> Awaits(head, chain, linked, r, true, l, at[l], prev[l])
    ensures forall l :: i < l < height ==> Awaits(head, chain, linked[r := i + 1], r, true, l, at[l], prev[l])
  {
    assert Awaits(head, chain, linked, r, true, i, at[i], prev[i]);
    forall l | i < l < height ensures Awaits(head, chain, linked[r := i + 1], r, true, l, at[l], prev[l]) {
      assert Awaits(head, chain, linked, r, true, l, at[l], prev[l]);
      RaisedFirst(linked, r, i, at[i], at[l], l);
    }
  }

  lemma InsertedKeys(chain: seq<Node>, x: Node, r: nat)
    requires r <= |chain|
    ensures KeysOf(chain[..r] + [x] + chain[r..]) == KeysOf(chain) + {x.key}
  {
    InsertedMembers(chain, x, r);
  }

  lemma InsertedMembers(chain: seq<Node>, x: Node, r: nat)
    requires r <= |chain|
    ensures forall n :: n in chain[..r] + [x] + chain[r..] <==> n in chain || n == x
  {
    forall n ensures n in chain[..r] + [x] + chain[r..] <==> n in chain || n == x {
      if n in chain {
        var i :| 0 <= i < |chain| && chain[i] == n;
        assert (chain[..r] + [x] + chain[r..])[if i < r then i else i + 1] == n;
      }
    }
  }

  lemma InsertedNode(chain: seq<Node>, x: Node, r: nat, q: nat)
    requires r <= |chain|
    ensures var chain' := chain[..r] + [x] + chain[r..];
            && (q < r ==> NodeAt(chain', q) == NodeAt(chain, q))
            && (q >= r ==> NodeAt(chain', q + 1) == NodeAt(chain, q))
            && NodeAt(chain', r) == x
  {
  }

  /** Indices after the node at `r` joins level `i` behind the node before `p`. */
  lemma RaisedFirst(linked: seq<nat>, r: nat, i: nat, p: nat, p': nat, l: nat)
    requires r < |linked| && linked[r] == i && p <= r && FirstLinked(linked, p, i) > r && p' <= |linked|
    requires p > 0 ==> linked[p-1] > i
    ensures var q := FirstLinked(linked[r := i + 1], p', l);
            && (l != i ==> q == FirstLinked(linked, p', l))
            && (l == i && p' > r ==> q == FirstLinked(linked, p', l))
            && (l == i && p' < p ==> q == FirstLinked(linked, p', l))
            && (l == i && p <= p' <= r ==> q == r)
  {
    var linked' := linked[r := i + 1];
    if l != i || p' > r || p' < p {
      if l == i && p' < p {
        assert FirstLinked(linked, p', l) <= p - 1;
      }
      FirstLinkedIs(linked', p', l, FirstLinked(linked, p', l));
    } else {
      FirstLinkedIs(linked', p', l, r);
    }
  }
}
