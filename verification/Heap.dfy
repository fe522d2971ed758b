/** The order of a complete binary tree laid out by position (src/heap-inl.h). */
module HeapOrder {
  /** What timer_less_than compares: due time, then start order. */
  datatype Key = Key(timeout: nat, startId: nat)

  predicate LessThan(a: Key, b: Key) {
    a.timeout < b.timeout || (a.timeout == b.timeout && a.startId < b.startId)
  }

  /** Positions count from 0 at the root, row by row. */
  function Up(p: nat): nat
    requires p > 0
  {
    (p - 1) / 2
  }

  predicate OrderedAt(ks: seq<Key>, p: nat)
    requires p < |ks|
  {
    p > 0 ==> !LessThan(ks[p], ks[Up(p)])
  }

  /** Min-heap: no node is less than its parent. */
  ghost predicate HeapOrdered(ks: seq<Key>) {
    forall p :: 0 <= p < |ks| ==> OrderedAt(ks, p)
  }

  /** The root is the least. */
  lemma {:induction false} RootIsLeast(ks: seq<Key>, p: nat)
    requires HeapOrdered(ks) && p < |ks|
    ensures !LessThan(ks[p], ks[0])
  {
    if p > 0 {
      RootIsLeast(ks, Up(p));
      assert OrderedAt(ks, p);
    }
  }

  function Swapped(ks: seq<Key>, c: nat): seq<Key>
    requires 0 < c < |ks|
  {
    ks[Up(c) := ks[c]][c := ks[Up(c)]]
  }

  /** Everything is in order but around `c`: its children would fit under its parent, and
      `above` (`below`) says that nothing above (below) it is out of order either. */
  ghost predicate Misfit(ks: seq<Key>, c: nat, above: bool, below: bool) {
    && c < |ks|
    && (forall p :: 0 <= p < |ks| && p != c && (p > 0 ==> Up(p) != c) ==> OrderedAt(ks, p))
    && (above ==> OrderedAt(ks, c))
    && (below ==> forall p :: 0 < p < |ks| && Up(p) == c ==> OrderedAt(ks, p))
    && (c > 0 ==> forall p :: 0 < p < |ks| && Up(p) == c ==> !LessThan(ks[p], ks[Up(c)]))
  }

  lemma MisfitFits(ks: seq<Key>, c: nat)
    requires Misfit(ks, c, true, true)
    ensures HeapOrdered(ks)
  {
  }

  lemma NoLongerMisfit(ks: seq<Key>, c: nat)
    requires Misfit(ks, c, false, true) && (c > 0 ==> !LessThan(ks[c], ks[Up(c)]))
    ensures HeapOrdered(ks)
  {
    MisfitFits(ks, c);
  }

  /** Moving the misfit up past a larger parent. */
  lemma MoveUp(ks: seq<Key>, c: nat)
    requires Misfit(ks, c, false, true) && c > 0 && LessThan(ks[c], ks[Up(c)])
    ensures Misfit(Swapped(ks, c), Up(c), false, true)
  {
    var ks', u := Swapped(ks, c), Up(c);
    forall p | 0 <= p < |ks| && p != u && (p > 0 ==> Up(p) != u) ensures OrderedAt(ks', p) {
      assert p != c ==> OrderedAt(ks, p);
    }
    forall p | 0 < p < |ks| && Up(p) == u ensures OrderedAt(ks', p) {
      assert p != c ==> OrderedAt(ks, p);
    }
    if u > 0 {
      forall p | 0 < p < |ks| && Up(p) == u ensures !LessThan(ks'[p], ks'[Up(u)]) {
        assert OrderedAt(ks, u);
        assert p != c ==> OrderedAt(ks, p);
      }
    }
  }

  /** Moving the misfit down past its least child. */
  lemma MoveDown(ks: seq<Key>, c: nat, s: nat, above: bool)
    requires Misfit(ks, c, above, false) && 0 < s < |ks| && Up(s) == c && LessThan(ks[s], ks[c])
    requires forall p :: 0 < p < |ks| && Up(p) == c ==> !LessThan(ks[p], ks[s])
    ensures Misfit(Swapped(ks, s), s, true, false)
  {
    var ks' := Swapped(ks, s);
    forall p | 0 <= p < |ks| && p != s && (p > 0 ==> Up(p) != s) ensures OrderedAt(ks', p) {
      assert p != c && (p > 0 ==> Up(p) != c) ==> OrderedAt(ks, p);
    }
    forall p | 0 < p < |ks| && Up(p) == s ensures !LessThan(ks'[p], ks'[Up(s)]) {
      assert OrderedAt(ks, p);
    }
  }

  /** The position two comparisons choose: a node's own or its least child's. */
  function LeastIndex(ks: seq<Key>, c: nat): (s: nat)
    requires c < |ks|
    ensures c <= s < |ks|
  {
    var l := if 2 * c + 1 < |ks| && LessThan(ks[2 * c + 1], ks[c]) then 2 * c + 1 else c;
    if 2 * c + 2 < |ks| && LessThan(ks[2 * c + 2], ks[l]) then 2 * c + 2 else l
  }

  /** That child is the least; if none is less, the node fits below. */
  lemma LeastOfThree(ks: seq<Key>, c: nat, s: nat)
    requires c < |ks| && s == LeastIndex(ks, c)
    ensures s != c ==> Up(s) == c && LessThan(ks[s], ks[c])
    ensures forall p :: 0 < p < |ks| && Up(p) == c ==> !LessThan(ks[p], ks[s])
  {
    forall p | 0 < p < |ks| && Up(p) == c ensures p == 2 * c + 1 || p == 2 * c + 2 {
    }
  }

  lemma LeastChild(ks: seq<Key>, c: nat, s: nat)
    requires Misfit(ks, c, false, false) && s == LeastIndex(ks, c)
    ensures s == c ==> Misfit(ks, c, false, true)
    ensures s != c ==>
              && Up(s) == c && LessThan(ks[s], ks[c])
              && forall p :: 0 < p < |ks| && Up(p) == c ==> !LessThan(ks[p], ks[s])
  {
    hide LessThan, LeastIndex;
    LeastOfThree(ks, c, s);
  }

  /** A new last leaf may be out of order with its parent only. */
  lemma LeafIsMisfit(ks: seq<Key>, k: Key)
    requires HeapOrdered(ks)
    ensures Misfit(ks + [k], |ks|, false, true)
  {
    var ks' := ks + [k];
    forall p | 0 <= p < |ks'| && p != |ks| ensures OrderedAt(ks', p) {
      assert OrderedAt(ks, p);
    }
  }

  /** The last leaf put in another's place may be out of order both ways. */
  lemma ReplacedIsMisfit(ks: seq<Key>, q: nat)
    requires HeapOrdered(ks) && q < |ks| - 1
    ensures Misfit(ks[..|ks|-1][q := ks[|ks|-1]], q, false, false)
  {
    var ks' := ks[..|ks|-1][q := ks[|ks|-1]];
    forall p | 0 <= p < |ks'| && p != q && (p > 0 ==> Up(p) != q) ensures OrderedAt(ks', p) {
      assert OrderedAt(ks, p);
    }
    if q > 0 {
      forall p | 0 < p < |ks'| && Up(p) == q ensures !LessThan(ks'[p], ks'[Up(q)]) {
        assert OrderedAt(ks, p) && OrderedAt(ks, q);
      }
    }
  }

  /** Dropping the last leaf keeps the order. */
  lemma PrefixOrdered(ks: seq<Key>, n: nat)
    requires HeapOrdered(ks) && n <= |ks|
    ensures HeapOrdered(ks[..n])
  {
    forall p | 0 <= p < n ensures OrderedAt(ks[..n], p) {
      assert OrderedAt(ks, p);
    }
  }

  // ---------- the path to a slot ----------

  /** Where `k` steps lead from slot `at` (slots count from 1), the lowest bit of `path`
      deciding the first step: 1 is right. */
  function Walk(at: nat, path: nat, k: nat): nat
    decreases k
  {
    if k == 0 then at else Walk(2 * at + path % 2, path / 2, k - 1)
  }

  /** The bits of a slot's number, taken from the low end, are a path to it from the root. */
  method PathTo(slot: nat) returns (path: nat, k: nat)
    requires slot >= 1
    ensures Walk(1, path, k) == slot && (k == 0 <==> slot == 1)
  {
    path, k := 0, 0;
    var n := slot;
    while n >= 2
      invariant n >= 1 && Walk(n, path, k) == slot && (k == 0 <==> n == slot) && n <= slot
    {
      Deeper(n, path, k);
      path := 2 * path + n % 2;
      n := n / 2;
      k := k + 1;
    }
  }

  lemma Deeper(n: nat, path: nat, k: nat)
    requires n >= 2
    ensures Walk(n / 2, 2 * path + n % 2, k + 1) == Walk(n, path, k)
  {
    assert (2 * path + n % 2) / 2 == path && (2 * path + n % 2) % 2 == n % 2;
    assert 2 * (n / 2) + n % 2 == n;
  }

  lemma {:induction false} WalkGrows(at: nat, path: nat, k: nat)
    requires at >= 1
    ensures Walk(at, path, k) >= at && (k > 0 ==> Walk(at, path, k) >= 2 * at + path % 2)
    decreases k
  {
    if k > 0 { WalkGrows(2 * at + path % 2, path / 2, k - 1); }
  }
}

module Heaps {
  import opened HeapOrder

  class HeapNode {
    var left: HeapNode?
    var right: HeapNode?
    var parent: HeapNode?

    constructor ()
    {
      left, right, parent := null, null, null;
    }
  }

  function NodeAt(nodes: seq<HeapNode>, p: nat): HeapNode? {
    if p < |nodes| then nodes[p] else null
  }

  function ParentAt(nodes: seq<HeapNode>, p: nat): HeapNode?
    requires p < |nodes|
  {
    if p == 0 then null else nodes[Up(p)]
  }

  predicate Distinct(nodes: seq<HeapNode>) {
    forall i, j :: 0 <= i < j < |nodes| ==> nodes[i] != nodes[j]
  }

  datatype Links = Links(left: HeapNode?, right: HeapNode?, parent: HeapNode?)

  /** The links the node at a position must have. */
  function LinksAt(nodes: seq<HeapNode>, p: nat): Links
    requires p < |nodes|
  {
    Links(NodeAt(nodes, 2 * p + 1), NodeAt(nodes, 2 * p + 2), ParentAt(nodes, p))
  }

  predicate RowsOk(nodes: seq<HeapNode>, rows: seq<Links>) {
    |rows| == |nodes| && forall p {:trigger rows[p]} :: 0 <= p < |nodes| ==> rows[p] == LinksAt(nodes, p)
  }

  // ---------- what heap_node_swap does to the links, by position ----------

  function PutParent(rows: seq<Links>, x: nat, v: HeapNode?): (r: seq<Links>)
    ensures |r| == |rows|
  {
    if x < |rows| then rows[x := rows[x].(parent := v)] else rows
  }

  function Sibling(c: nat): nat
    requires c > 0
  {
    if c == 2 * Up(c) + 1 then c + 1 else c - 1
  }

  /** Parent and child exchange their links and their places with each other. */
  function Exchanged(ns: seq<HeapNode>, rows: seq<Links>, c: nat): (r: seq<Links>)
    requires 0 < c < |ns| == |rows|
    ensures |r| == |rows|
  {
    var u := Up(c);
    rows[u := rows[c].(parent := ns[c])]
        [c := if c == 2 * u + 1 then rows[u].(left := ns[u]) else rows[u].(right := ns[u])]
  }

  /** The other nodes around them are told. */
  function ChildrenTold(ns: seq<HeapNode>, rows: seq<Links>, c: nat): (r: seq<Links>)
    requires 0 < c < |ns| == |rows|
    ensures |r| == |rows|
  {
    PutParent(PutParent(PutParent(rows, Sibling(c), ns[c]), 2 * c + 1, ns[Up(c)]), 2 * c + 2, ns[Up(c)])
  }

  function ParentTold(ns: seq<HeapNode>, rows: seq<Links>, c: nat): (r: seq<Links>)
    requires 0 < c < |ns| == |rows|
    ensures |r| == |rows|
  {
    var u := Up(c);
    if u == 0 then rows
    else if u == 2 * Up(u) + 1 then rows[Up(u) := rows[Up(u)].(left := ns[c])]
    else rows[Up(u) := rows[Up(u)].(right := ns[c])]
  }

  /** All pointer writes of heap_node_swap, by position. */
  function Relinked(ns: seq<HeapNode>, rows: seq<Links>, c: nat): (r: seq<Links>)
    requires 0 < c < |ns| == |rows|
    ensures |r| == |rows|
  {
    ParentTold(ns, ChildrenTold(ns, Exchanged(ns, rows, c), c), c)
  }

  function SwappedNodes(ns: seq<HeapNode>, c: nat): seq<HeapNode>
    requires 0 < c < |ns|
  {
    ns[Up(c) := ns[c]][c := ns[Up(c)]]
  }

  function SwappedRows(rows: seq<Links>, c: nat): seq<Links>
    requires 0 < c < |rows|
  {
    rows[Up(c) := rows[c]][c := rows[Up(c)]]
  }

  lemma NodeAtSwapped(ns: seq<HeapNode>, c: nat, q: nat)
    requires 0 < c < |ns|
    ensures NodeAt(SwappedNodes(ns, c), q) == if q == c then ns[Up(c)] else if q == Up(c) then ns[c] else NodeAt(ns, q)
  {
  }

  /** The positions around a parent and child. */
  lemma Neighbours(c: nat)
    requires c > 0
    ensures Up(c) < c && (c == 2 * Up(c) + 1 || c == 2 * Up(c) + 2)
    ensures Sibling(c) != c && Sibling(c) > 0 && Up(Sibling(c)) == Up(c) && Sibling(c) > Up(c)
    ensures Up(2 * c + 1) == c == Up(2 * c + 2)
  {
  }

  /** The links of the node that was at `x`, after the exchange and the telling. */
  function ToldLinks(ns: seq<HeapNode>, rows: seq<Links>, c: nat, x: nat): Links
    requires 0 < c < |ns| == |rows| && x < |ns|
  {
    var u := Up(c);
    if x == u then rows[c].(parent := ns[c])
    else if x == c then (if c == 2 * u + 1 then rows[u].(left := ns[u]) else rows[u].(right := ns[u]))
    else if x == Sibling(c) then rows[x].(parent := ns[c])
    else if x == 2 * c + 1 || x == 2 * c + 2 then rows[x].(parent := ns[u])
    else if u > 0 && x == Up(u) then (if u == 2 * Up(u) + 1 then rows[x].(left := ns[c]) else rows[x].(right := ns[c]))
    else rows[x]
  }

  lemma ToldRow(ns: seq<HeapNode>, rows: seq<Links>, c: nat, x: nat)
    requires 0 < c < |ns| == |rows| && x < |ns|
    ensures Relinked(ns, rows, c)[x] == ToldLinks(ns, rows, c, x)
  {
    Neighbours(c);
    if Up(c) > 0 { Neighbours(Up(c)); }
    var ex := Exchanged(ns, rows, c);
    assert ex[x] == if x == Up(c) then rows[c].(parent := ns[c])
                    else if x == c then (if c == 2 * Up(c) + 1 then rows[Up(c)].(left := ns[Up(c)]) else rows[Up(c)].(right := ns[Up(c)]))
                    else rows[x];
    var told := ChildrenTold(ns, ex, c);
    assert told[x] == if x == Sibling(c) then ex[x].(parent := ns[c])
                      else if x == 2 * c + 1 || x == 2 * c + 2 then ex[x].(parent := ns[Up(c)]) else ex[x];
  }

  lemma SwapRow(ns: seq<HeapNode>, rows: seq<Links>, c: nat, q: nat)
    requires 0 < c < |ns| && RowsOk(ns, rows) && q < |ns|
    ensures SwappedRows(Relinked(ns, rows, c), c)[q] == LinksAt(SwappedNodes(ns, c), q)
  {
    var x := if q == c then Up(c) else if q == Up(c) then c else q;
    ToldRow(ns, rows, c, x);
    SwapLinks(ns, rows, c, q);
    SwappedRowAt(Relinked(ns, rows, c), c, q);
  }

  lemma SwappedRowAt(rows: seq<Links>, c: nat, q: nat)
    requires 0 < c < |rows| && q < |rows|
    ensures SwappedRows(rows, c)[q] == rows[if q == c then Up(c) else if q == Up(c) then c else q]
  {
  }

  lemma UpdateTwice(rows: seq<Links>, x: nat, a: Links, b: Links)
    requires x < |rows|
    ensures rows[x := a][x := b] == rows[x := b]
  {
  }

  lemma LeftOrRight(ns: seq<HeapNode>, c: nat)
    requires 0 < c < |ns| && Distinct(ns)
    ensures NodeAt(ns, 2 * Up(c) + 1) == ns[c] <==> c == 2 * Up(c) + 1
    ensures c != 2 * Up(c) + 1 ==> NodeAt(ns, 2 * Up(c) + 2) == ns[c]
    ensures c == 2 * Up(c) + 1 ==> NodeAt(ns, Sibling(c)) == NodeAt(ns, 2 * Up(c) + 2)
    ensures c != 2 * Up(c) + 1 ==> NodeAt(ns, Sibling(c)) == NodeAt(ns, 2 * Up(c) + 1)
  {
    Neighbours(c);
  }

  lemma SwapLinks(ns: seq<HeapNode>, rows: seq<Links>, c: nat, q: nat)
    requires 0 < c < |ns| && RowsOk(ns, rows) && q < |ns|
    ensures ToldLinks(ns, rows, c, if q == c then Up(c) else if q == Up(c) then c else q) == LinksAt(SwappedNodes(ns, c), q)
  {
    var u, ns' := Up(c), SwappedNodes(ns, c);
    assert rows[q] == LinksAt(ns, q) && rows[c] == LinksAt(ns, c) && rows[u] == LinksAt(ns, u);
    SwapChildren(ns, c, q);
    SwapParent(ns, c, q);
  }

  lemma SwapChildren(ns: seq<HeapNode>, c: nat, q: nat)
    requires 0 < c < |ns| && q < |ns|
    ensures var u, ns' := Up(c), SwappedNodes(ns, c);
            && NodeAt(ns', 2 * q + 1) == (if q == u && c == 2 * u + 1 then ns[u]
                                          else if u > 0 && q == Up(u) && u == 2 * q + 1 then ns[c] else NodeAt(ns, 2 * q + 1))
            && NodeAt(ns', 2 * q + 2) == (if q == u && c != 2 * u + 1 then ns[u]
                                          else if u > 0 && q == Up(u) && u != 2 * q + 1 then ns[c] else NodeAt(ns, 2 * q + 2))
  {
    Neighbours(c);
    if Up(c) > 0 { Neighbours(Up(c)); }
    NodeAtSwapped(ns, c, 2 * q + 1);
    NodeAtSwapped(ns, c, 2 * q + 2);
  }

  lemma SwapParent(ns: seq<HeapNode>, c: nat, q: nat)
    requires 0 < c < |ns| && q < |ns|
    ensures var u, ns' := Up(c), SwappedNodes(ns, c);
            ParentAt(ns', q) == if q == c || q == Sibling(c) then ns[c]
                                else if q == 2 * c + 1 || q == 2 * c + 2 then ns[u] else ParentAt(ns, q)
  {
    Neighbours(c);
    if q > 0 {
      Neighbours(q);
      NodeAtSwapped(ns, c, Up(q));
    }
  }

  /** The links are right again for the new positions. */
  lemma SwapRows(ns: seq<HeapNode>, rows: seq<Links>, c: nat)
    requires 0 < c < |ns| && RowsOk(ns, rows)
    ensures RowsOk(SwappedNodes(ns, c), SwappedRows(Relinked(ns, rows, c), c))
  {
    forall q | 0 <= q < |ns|
      ensures SwappedRows(Relinked(ns, rows, c), c)[q] == LinksAt(SwappedNodes(ns, c), q)
    {
      SwapRow(ns, rows, c, q);
    }
  }

  /** What the pointer writes of heap_node_swap read back on their way. */
  predicate ReadsBack(ns: seq<HeapNode>, rows: seq<Links>, c: nat)
    requires 0 < c < |ns| == |rows|
  {
    && rows[Up(c)] == LinksAt(ns, Up(c))
    && (var ex := Exchanged(ns, rows, c);
        ex[Up(c)].left == NodeAt(ns, 2 * c + 1) && ex[Up(c)].right == NodeAt(ns, 2 * c + 2))
    && (var told := ChildrenTold(ns, Exchanged(ns, rows, c), c);
        && told[c].parent == ParentAt(ns, Up(c))
        && (Up(c) > 0 ==> told[Up(Up(c))].left == NodeAt(ns, 2 * Up(Up(c)) + 1)))
  }

  lemma ExchangedFacts(ns: seq<HeapNode>, rows: seq<Links>, c: nat)
    requires 0 < c < |ns| && RowsOk(ns, rows)
    ensures ReadsBack(ns, rows, c)
  {
    Neighbours(c);
    if Up(c) > 0 { Neighbours(Up(c)); }
    assert rows[c] == LinksAt(ns, c) && rows[Up(c)] == LinksAt(ns, Up(c));
    assert Up(c) > 0 ==> rows[Up(Up(c))] == LinksAt(ns, Up(Up(c)));
  }

  function NodeSet(ns: seq<HeapNode>): set<HeapNode> {
    set n | n in ns
  }

  lemma SwapNodeSet(ns: seq<HeapNode>, c: nat)
    requires 0 < c < |ns|
    ensures NodeSet(SwappedNodes(ns, c)) == NodeSet(ns)
  {
    var ns' := SwappedNodes(ns, c);
    assert ns'[c] == ns[Up(c)] && ns'[Up(c)] == ns[c];
    forall n | n in ns ensures n in ns' {
      var i :| 0 <= i < |ns| && ns[i] == n;
      assert i != c && i != Up(c) ==> ns'[i] == n;
    }
  }

  /** The keys in node order; `keyOf` is what the comparison reads of the structures the nodes
      are embedded in. */
  function KeysOf(ns: seq<HeapNode>, keyOf: HeapNode -> Key): (ks: seq<Key>)
    ensures |ks| == |ns| && forall p :: 0 <= p < |ks| ==> ks[p] == keyOf(ns[p])
  {
    seq(|ns|, p requires 0 <= p < |ns| => keyOf(ns[p]))
  }

  lemma KeysSwapped(ns: seq<HeapNode>, keyOf: HeapNode -> Key, c: nat)
    requires 0 < c < |ns|
    ensures KeysOf(SwappedNodes(ns, c), keyOf) == Swapped(KeysOf(ns, keyOf), c)
  {
  }

  lemma SwapDistinct(ns: seq<HeapNode>, c: nat)
    requires 0 < c < |ns| && Distinct(ns)
    ensures Distinct(SwappedNodes(ns, c))
  {
  }

  class Heap {
    var min: HeapNode?
    var nelts: nat
    var keyOf: HeapNode -> Key
    /** The nodes by position: the tree is complete. */
    ghost var nodes: seq<HeapNode>
    ghost var repr: set<HeapNode>

    constructor ()
      ensures Valid() && nodes == []
    {
      min, nelts, nodes, repr := null, 0, [], {};
      keyOf := (n: HeapNode) => Key(0, 0);
    }

    ghost function Rows(): (rows: seq<Links>)
      reads this, nodes
      ensures |rows| == |nodes|
      ensures forall p {:trigger rows[p]} :: 0 <= p < |nodes| ==> rows[p] == Links(nodes[p].left, nodes[p].right, nodes[p].parent)
    {
      seq(|nodes|, p requires 0 <= p < |nodes| reads this, nodes => Links(nodes[p].left, nodes[p].right, nodes[p].parent))
    }

    /** Pointers and positions agree. */
    ghost predicate Linked()
      reads this, repr
    {
      && NodeSet(nodes) == repr && |nodes| == nelts && Distinct(nodes)
      && min == NodeAt(nodes, 0) && RowsOk(nodes, Rows())
    }

    ghost predicate Valid()
      reads this, repr
    {
      Linked() && HeapOrdered(KeysOf(nodes, keyOf))
    }

    /** heap_min: no node's key is less. */
    method Min() returns (n: HeapNode?)
      requires Valid()
      ensures n == null <==> repr == {}
      ensures n != null ==> n in repr && forall m :: m in repr ==> !LessThan(keyOf(m), keyOf(n))
    {
      n := min;
      if n != null {
        assert n == nodes[0];
        forall m | m in repr ensures !LessThan(keyOf(m), keyOf(n)) {
          var p := IndexOf(nodes, m);
          RootIsLeast(KeysOf(nodes, keyOf), p);
        }
      } else {
        assert nodes == [];
      }
    }

    /** The structures around the nodes have changed, but none around a node in the heap. */
    method Rekey(k: HeapNode -> Key)
      requires Valid() && KeysOf(nodes, k) == KeysOf(nodes, keyOf)
      modifies this`keyOf
      ensures Valid() && keyOf == k
    {
      ghost var rows := Rows();
      keyOf := k;
      assert Rows() == rows;
    }

    // ---------- single pointer writes, seen by position ----------

    method SetLeft(n: HeapNode, v: HeapNode?, ghost x: nat)
      requires Distinct(nodes) && x < |nodes| && nodes[x] == n
      modifies n`left
      ensures Rows() == old(Rows())[x := old(Rows())[x].(left := v)]
    {
      n.left := v;
    }

    method SetRight(n: HeapNode, v: HeapNode?, ghost x: nat)
      requires Distinct(nodes) && x < |nodes| && nodes[x] == n
      modifies n`right
      ensures Rows() == old(Rows())[x := old(Rows())[x].(right := v)]
    {
      n.right := v;
    }

    method SetParent(n: HeapNode?, v: HeapNode?, ghost x: nat)
      requires Distinct(nodes) && n == NodeAt(nodes, x)
      modifies if n == null then {} else {n}
      ensures nodes == old(nodes) && Rows() == PutParent(old(Rows()), x, v)
    {
      if n != null {
        n.parent := v;
      }
    }

    method CopyLinks(n: HeapNode, left: HeapNode?, right: HeapNode?, parent: HeapNode?, ghost x: nat)
      requires Distinct(nodes) && x < |nodes| && nodes[x] == n
      modifies n
      ensures nodes == old(nodes) && Rows() == old(Rows())[x := Links(left, right, parent)]
    {
      n.left, n.right, n.parent := left, right, parent;
    }

    // ---------- heap_node_swap ----------

    /** Its first half: parent and child exchange their links. */
    method Exchange(parent: HeapNode, child: HeapNode, ghost c: nat) returns (sibling: HeapNode?)
      requires Distinct(nodes) && 0 < c < |nodes| && nodes[c] == child && nodes[Up(c)] == parent
      requires Rows()[Up(c)] == LinksAt(nodes, Up(c))
      modifies parent, child
      ensures nodes == old(nodes) && Rows() == old(Exchanged(nodes, Rows(), c)) && sibling == NodeAt(nodes, Sibling(c))
    {
      ghost var u, rows := Up(c), Rows();
      LeftOrRight(nodes, c);
      var tl, tr, tp := parent.left, parent.right, parent.parent;
      CopyLinks(parent, child.left, child.right, child, u);
      CopyLinks(child, tl, tr, tp, c);
      ghost var told := rows[u := rows[c].(parent := child)];
      assert Rows() == told[c := rows[u]];
      if child.left == child {
        SetLeft(child, parent, c);
        sibling := child.right;
        UpdateTwice(told, c, rows[u], rows[u].(left := parent));
      } else {
        SetRight(child, parent, c);
        sibling := child.left;
        UpdateTwice(told, c, rows[u], rows[u].(right := parent));
      }
    }

    /** Sibling and grandchildren learn their new parents. */
    method TellChildren(parent: HeapNode, child: HeapNode, sibling: HeapNode?, ghost c: nat)
      requires Distinct(nodes) && 0 < c < |nodes| && nodes[c] == child && nodes[Up(c)] == parent
      requires sibling == NodeAt(nodes, Sibling(c)) && NodeSet(nodes) <= repr
      requires parent.left == NodeAt(nodes, 2 * c + 1) && parent.right == NodeAt(nodes, 2 * c + 2)
      modifies repr
      ensures nodes == old(nodes) && repr == old(repr) && Rows() == old(ChildrenTold(nodes, Rows(), c))
    {
      SetParent(sibling, child, Sibling(c));
      assert Rows()[Up(c)].left == parent.left && Rows()[Up(c)].right == parent.right;
      SetParent(parent.left, parent, 2 * c + 1);
      assert Rows()[Up(c)].right == parent.right;
      SetParent(parent.right, parent, 2 * c + 2);
    }

    /** The link from above leads to the child now. */
    method TellParent(parent: HeapNode, child: HeapNode, ghost c: nat)
      requires Distinct(nodes) && 0 < c < |nodes| && nodes[c] == child && nodes[Up(c)] == parent && NodeSet(nodes) <= repr
      requires child.parent == ParentAt(nodes, Up(c)) && min == nodes[0]
      requires Up(c) > 0 ==> Rows()[Up(Up(c))].left == NodeAt(nodes, 2 * Up(Up(c)) + 1)
      modifies this`min, repr
      ensures nodes == old(nodes) && repr == old(repr) && Rows() == old(ParentTold(nodes, Rows(), c))
      ensures min == NodeAt(SwappedNodes(nodes, c), 0)
    {
      if Up(c) > 0 { LeftOrRight(nodes, Up(c)); }
      if child.parent == null {
        min := child;
      } else if child.parent.left == parent {
        SetLeft(child.parent, child, Up(Up(c)));
      } else {
        SetRight(child.parent, child, Up(Up(c)));
      }
    }

    method Relink(parent: HeapNode, child: HeapNode, ghost c: nat)
      requires Distinct(nodes) && min == NodeAt(nodes, 0) && NodeSet(nodes) <= repr
      requires 0 < c < |nodes| && nodes[c] == child && nodes[Up(c)] == parent && ReadsBack(nodes, Rows(), c)
      modifies this`min, repr
      ensures nodes == old(nodes) && repr == old(repr) && Rows() == old(Relinked(nodes, Rows(), c))
      ensures min == NodeAt(SwappedNodes(nodes, c), 0)
    {
      var sibling := Exchange(parent, child, c);
      TellChildren(parent, child, sibling, c);
      TellParent(parent, child, c);
    }

    /** heap_node_swap: the child takes its parent's place. */
    method Swap(parent: HeapNode, child: HeapNode, ghost c: nat)
      requires Linked() && 0 < c < |nodes| && nodes[c] == child && nodes[Up(c)] == parent
      modifies this`min, this`nodes, repr
      ensures repr == old(repr) && nelts == old(nelts) && keyOf == old(keyOf) && nodes == SwappedNodes(old(nodes), c)
      ensures Linked()
    {
      ghost var ns, rows := nodes, Rows();
      ExchangedFacts(ns, rows, c);
      Relink(parent, child, c);
      SwapRows(ns, rows, c);
      Reorder(ns, c);
    }

    /** Ghost bookkeeping: names the new order of the nodes. */
    ghost method Reorder(ns: seq<HeapNode>, c: nat)
      requires nodes == ns && 0 < c < |ns| == nelts && Distinct(ns) && NodeSet(ns) == repr
      requires min == NodeAt(SwappedNodes(ns, c), 0) && RowsOk(SwappedNodes(ns, c), SwappedRows(Rows(), c))
      modifies this`nodes
      ensures Linked() && nodes == SwappedNodes(ns, c)
    {
      ghost var rows := Rows();
      SwapDistinct(ns, c);
      SwapNodeSet(ns, c);
      nodes := SwappedNodes(nodes, c);
      assert Rows() == SwappedRows(rows, c);
    }

    // ---------- sifting ----------

    lemma RowAt(c: nat)
      requires Linked() && c < |nodes|
      ensures nodes[c].parent == ParentAt(nodes, c)
      ensures nodes[c].left == NodeAt(nodes, 2 * c + 1) && nodes[c].right == NodeAt(nodes, 2 * c + 2)
      ensures nodes[c] in repr
    {
      assert Rows()[c] == LinksAt(nodes, c);
    }

    /** Moves a node up while it is less than its parent. */
    method SiftUp(node: HeapNode, ghost at: nat)
      requires Linked() && at < |nodes| && nodes[at] == node && Misfit(KeysOf(nodes, keyOf), at, false, true)
      modifies this`min, this`nodes, repr
      ensures Valid() && repr == old(repr) && nelts == old(nelts) && keyOf == old(keyOf)
    {
      ghost var c: nat, ks := at, KeysOf(nodes, keyOf);
      RowAt(c);
      while node.parent != null && LessThan(keyOf(node), keyOf(node.parent))
        invariant Linked() && repr == old(repr) && nelts == old(nelts) && keyOf == old(keyOf)
        invariant c < |nodes| && nodes[c] == node && node.parent == ParentAt(nodes, c)
        invariant ks == KeysOf(nodes, keyOf) && Misfit(ks, c, false, true)
        decreases c
      {
        MoveUp(ks, c);
        KeysSwapped(nodes, keyOf, c);
        ks := Swapped(ks, c);
        Swap(node.parent, node, c);
        c := Up(c);
        RowAt(c);
      }
      NoLongerMisfit(ks, c);
    }

    /** The least of a node and its children. */
    method Smallest(node: HeapNode, ghost c: nat) returns (smallest: HeapNode, ghost s: nat)
      requires Linked() && c < |nodes| && nodes[c] == node
      ensures s == LeastIndex(KeysOf(nodes, keyOf), c) && smallest == nodes[s]
    {
      RowAt(c);
      smallest, s := node, c;
      if node.left != null && LessThan(keyOf(node.left), keyOf(smallest)) {
        smallest := node.left;
        s := 2 * c + 1;
      }
      if node.right != null && LessThan(keyOf(node.right), keyOf(smallest)) {
        smallest := node.right;
        s := 2 * c + 2;
      }
    }

    /** Moves a node down while a child of it is less, past the least of them. */
    method SiftDown(node: HeapNode, ghost at: nat) returns (ghost c: nat)
      requires Linked() && at < |nodes| && nodes[at] == node && Misfit(KeysOf(nodes, keyOf), at, false, false)
      modifies this`min, this`nodes, repr
      ensures Linked() && repr == old(repr) && nelts == old(nelts) && keyOf == old(keyOf)
      ensures c < |nodes| && nodes[c] == node && Misfit(KeysOf(nodes, keyOf), c, false, true)
    {
      c := at;
      ghost var ks := KeysOf(nodes, keyOf);
      while true
        invariant Linked() && repr == old(repr) && nelts == old(nelts) && keyOf == old(keyOf)
        invariant c < |nodes| && nodes[c] == node && ks == KeysOf(nodes, keyOf) && Misfit(ks, c, false, false)
        decreases |nodes| - c
      {
        var smallest, s := Smallest(node, c);
        LeastChild(ks, c, s);
        if smallest == node {
          SameIndex(nodes, s, c);
          return;
        }
        KeysSwapped(nodes, keyOf, s);
        MoveDown(ks, c, s, false);
        ks := Swapped(ks, s);
        Swap(node, smallest, s);
        c := s;
      }
    }

    // ---------- insertion and removal ----------

    /** Follows a path from the root to a slot: the node there, and who links to it from
        which side. */
    method Descend(path0: nat, k0: nat, ghost slot: nat) returns (owner: HeapNode?, right: bool, child: HeapNode?)
      requires Linked() && 1 <= slot <= nelts + 1 && Walk(1, path0, k0) == slot
      ensures child == NodeAt(nodes, slot - 1)
      ensures slot == 1 ==> owner == null
      ensures slot > 1 ==> Up(slot - 1) < |nodes| && owner == nodes[Up(slot - 1)] && (right <==> slot - 1 == 2 * Up(slot - 1) + 2)
    {
      owner, right, child := null, false, min;
      var path, k := path0, k0;
      ghost var p: nat, up: nat := 0, 0;
      while k > 0
        invariant Walk(p + 1, path, k) == slot && child == NodeAt(nodes, p)
        invariant if p == 0 then owner == null
                  else up < |nodes| && p == (if right then 2 * up + 2 else 2 * up + 1) && owner == nodes[up]
        decreases k
      {
        NextStep(p, path, k, nelts);
        owner := child;
        right := path % 2 == 1;
        RowAt(p);
        child := if right then owner.right else owner.left;
        up, p := p, if right then 2 * p + 2 else 2 * p + 1;
        path := path / 2;
        k := k - 1;
      }
      if slot > 1 { ParentOfSlot(slot - 1, up, right); }
    }

    /** heap_insert: the node becomes the next leaf and moves up. */
    method Insert(newnode: HeapNode)
      requires Valid() && newnode !in repr
      modifies this`min, this`nelts, this`nodes, this`repr, repr, newnode
      ensures Valid() && repr == old(repr) + {newnode} && keyOf == old(keyOf) && nelts == old(nelts) + 1
    {
      hide HeapOrdered, RowsOk, Misfit;
      ghost var ks := KeysOf(nodes, keyOf);
      newnode.left, newnode.right, newnode.parent := null, null, null;
      var path, k := PathTo(1 + nelts);
      var owner, right, child := Descend(path, k, 1 + nelts);
      Attach(newnode, owner, right);
      LeafIsMisfit(ks, keyOf(newnode));
      assert KeysOf(nodes, keyOf) == ks + [keyOf(newnode)];
      SiftUp(newnode, nelts - 1);
    }

    /** Links a node in as the last leaf. */
    method Attach(x: HeapNode, owner: HeapNode?, right: bool)
      requires Linked() && x !in repr && x.left == null && x.right == null
      requires nelts == 0 ==> owner == null
      requires nelts > 0 ==> owner == nodes[Up(nelts)] && (right <==> nelts == 2 * Up(nelts) + 2)
      modifies this`min, this`nelts, this`nodes, this`repr, repr, x
      ensures Linked() && nodes == old(nodes) + [x] && repr == old(repr) + {x}
      ensures keyOf == old(keyOf) && nelts == old(nelts) + 1
    {
      ghost var ns, rows := nodes, Rows();
      x.parent := owner;
      assert Rows() == rows;
      if owner == null {
        min := x;
      } else if right {
        SetRight(owner, x, Up(nelts));
      } else {
        SetLeft(owner, x, Up(nelts));
      }
      nelts := nelts + 1;
      AppendRows(ns, rows, x);
      if |ns| > 0 { Neighbours(|ns|); }
      ghost var told := Rows();
      assert told == LinkChild(rows, |ns|, x);
      nodes, repr := nodes + [x], repr + {x};
      assert Rows() == told + [Links(null, null, if ns == [] then null else ns[Up(|ns|)])];
      assert NodeSet(nodes) == NodeSet(ns) + {x};
    }

    /** heap_remove: the last leaf takes the node's place and moves down, or else up. */
    method Remove(node: HeapNode)
      requires Valid() && (nelts > 0 ==> node in repr)
      modifies this`min, this`nelts, this`nodes, this`repr, repr
      ensures Valid() && repr == old(repr) - {node} && keyOf == old(keyOf)
      ensures nelts == if old(nelts) == 0 then 0 else old(nelts) - 1
    {
      if nelts == 0 {
        assert nodes == [];
        return;
      }
      ghost var ks := KeysOf(nodes, keyOf);
      ghost var q := IndexOf(nodes, node);
      var path, k := PathTo(nelts);
      var owner, right, child := Descend(path, k, nelts);
      ghost var was := nodes;
      Detach(child, owner, right);
      PrefixOrdered(ks, nelts);
      assert KeysOf(nodes, keyOf) == ks[..nelts];
      if child == node {
        return;
      }
      assert q < nelts;
      ReplacedIsMisfit(ks, q);
      Refill(node, child, q, ks[..nelts], ks[nelts]);
    }

    /** The detached leaf takes the node's place and finds its own. */
    method Refill(node: HeapNode, child: HeapNode, ghost q: nat, ghost ks: seq<Key>, ghost key: Key)
      requires Linked() && q < nelts && nodes[q] == node && child !in repr && key == keyOf(child)
      requires KeysOf(nodes, keyOf) == ks && Misfit(ks[q := key], q, false, false)
      modifies this`min, this`nodes, this`repr, repr, child
      ensures Valid() && repr == old(repr) - {node} + {child} && keyOf == old(keyOf) && nelts == old(nelts)
    {
      Replace(node, child, q);
      assert KeysOf(nodes, keyOf) == ks[q := key];
      var at := SiftDown(child, q);
      SiftUp(child, at);
    }

    /** Unlinks the last leaf. */
    method Detach(x: HeapNode?, owner: HeapNode?, right: bool)
      requires Linked() && nelts > 0 && x == nodes[nelts - 1]
      requires nelts == 1 ==> owner == null
      requires nelts > 1 ==> owner == nodes[Up(nelts - 1)] && (right <==> nelts - 1 == 2 * Up(nelts - 1) + 2)
      modifies this`min, this`nelts, this`nodes, this`repr, repr
      ensures Linked() && nodes == old(nodes)[..old(nelts) - 1] && repr == old(repr) - {x}
      ensures keyOf == old(keyOf) && nelts == old(nelts) - 1
    {
      ghost var ns, rows := nodes, Rows();
      nelts := nelts - 1;
      if owner == null {
        min := null;
      } else if right {
        SetRight(owner, null, Up(nelts));
      } else {
        SetLeft(owner, null, Up(nelts));
      }
      DropRows(ns, rows);
      if nelts > 0 { Neighbours(nelts); }
      ghost var told := Rows();
      assert told == LinkChild(rows, nelts, null);
      nodes, repr := nodes[..nelts], repr - {x};
      assert Rows() == told[..nelts];
      LastGone(ns);
    }

    /** Puts an unlinked node in the place of another. */
    method Replace(node: HeapNode, child: HeapNode, ghost q: nat)
      requires Linked() && q < |nodes| && nodes[q] == node && child !in repr
      modifies this`min, this`nodes, this`repr, repr, child
      ensures Linked() && nodes == old(nodes)[q := child] && repr == old(repr) - {node} + {child}
      ensures keyOf == old(keyOf) && nelts == old(nelts)
    {
      ghost var ns, rows := nodes, Rows();
      RowAt(q);
      child.left, child.right, child.parent := node.left, node.right, node.parent;
      assert Rows() == rows;
      TellAround(node, child, q);
      ReplaceRows(ns, rows, q, child);
      ReplacedSet(ns, q, child);
      Rename(ns, q, child);
    }

    /** Children and parent of the replaced node turn to its replacement. */
    method TellAround(node: HeapNode, child: HeapNode, ghost q: nat)
      requires Linked() && q < |nodes| && nodes[q] == node && child !in repr
      requires child.left == node.left && child.right == node.right && child.parent == node.parent
      modifies this`min, repr
      ensures nodes == old(nodes) && repr == old(repr) && Rows() == old(Replaced(Rows(), q, child))
      ensures min == NodeAt(nodes[q := child], 0)
      ensures child.left == node.left && child.right == node.right && child.parent == node.parent
    {
      RowAt(q);
      if q > 0 { RowAt(Up(q)); }
      ghost var rows := Rows();
      TellBelow(node, child, q);
      if q > 0 { SameLeft(rows, q, child); }
      TellAbove(node, child, q);
    }

    method TellBelow(node: HeapNode, child: HeapNode, ghost q: nat)
      requires Distinct(nodes) && NodeSet(nodes) == repr && node in repr && child !in repr
      requires child.left == NodeAt(nodes, 2 * q + 1) && child.right == NodeAt(nodes, 2 * q + 2)
      requires child.left != node && child.right != node
      modifies repr
      ensures nodes == old(nodes) && repr == old(repr)
      ensures Rows() == PutParent(PutParent(old(Rows()), 2 * q + 1, child), 2 * q + 2, child)
      ensures node.left == old(node.left) && node.right == old(node.right) && node.parent == old(node.parent)
    {
      TellChild(child.left, child, node, 2 * q + 1);
      TellChild(child.right, child, node, 2 * q + 2);
    }

    /** The link from above leads to the replacement now. */
    method TellAbove(node: HeapNode, child: HeapNode, ghost q: nat)
      requires Distinct(nodes) && q < |nodes| && nodes[q] == node && child !in repr && NodeSet(nodes) == repr
      requires node.parent == ParentAt(nodes, q) && min == NodeAt(nodes, 0)
      requires q > 0 ==> Rows()[Up(q)].left == NodeAt(nodes, 2 * Up(q) + 1)
      modifies this`min, repr
      ensures nodes == old(nodes) && repr == old(repr) && Rows() == old(LinkChild(Rows(), q, child))
      ensures min == NodeAt(nodes[q := child], 0)
      ensures node.left == old(node.left) && node.right == old(node.right) && node.parent == old(node.parent)
    {
      if q > 0 {
        Neighbours(q);
        LeftOrRight(nodes, q);
      }
      if node.parent == null {
        min := child;
      } else if node.parent.left == node {
        SetLeft(node.parent, child, Up(q));
      } else {
        SetRight(node.parent, child, Up(q));
      }
    }

    method TellChild(n: HeapNode?, v: HeapNode, node: HeapNode, ghost x: nat)
      requires Distinct(nodes) && n == NodeAt(nodes, x) && NodeSet(nodes) == repr && v !in repr && node in repr
      modifies repr
      ensures nodes == old(nodes) && repr == old(repr) && Rows() == old(PutParent(Rows(), x, v))
      ensures node != n ==> node.parent == old(node.parent)
      ensures node.left == old(node.left) && node.right == old(node.right)
    {
      if n != null {
        n.parent := v;
      }
    }

    /** Ghost bookkeeping: the position now belongs to the replacement. */
    ghost method Rename(ns: seq<HeapNode>, q: nat, child: HeapNode)
      requires nodes == ns && q < |ns| == nelts && NodeSet(ns) == repr && child !in repr && NodeSet(ns[q := child]) == repr - {ns[q]} + {child}
      requires Distinct(ns[q := child]) && min == NodeAt(ns[q := child], 0)
      requires child.left == ns[q].left && child.right == ns[q].right && child.parent == ns[q].parent
      requires RowsOk(ns[q := child], Rows())
      modifies this`nodes, this`repr
      ensures Linked() && nodes == ns[q := child] && repr == old(repr) - {ns[q]} + {child}
    {
      ghost var rows := Rows();
      nodes, repr := ns[q := child], repr - {ns[q]} + {child};
      assert Rows() == rows;
    }
  }

  ghost function IndexOf(ns: seq<HeapNode>, n: HeapNode): (q: nat)
    requires n in NodeSet(ns)
    ensures q < |ns| && ns[q] == n
  {
    var q :| 0 <= q < |ns| && ns[q] == n;
    q
  }

  lemma LastGone(ns: seq<HeapNode>)
    requires Distinct(ns) && ns != []
    ensures NodeSet(ns[..|ns|-1]) == NodeSet(ns) - {ns[|ns|-1]}
  {
    var n := |ns| - 1;
    forall m | m in ns && m != ns[n] ensures m in ns[..n] {
      var i :| 0 <= i < |ns| && ns[i] == m;
      assert ns[..n][i] == m;
    }
  }

  lemma ReplacedSet(ns: seq<HeapNode>, q: nat, x: HeapNode)
    requires Distinct(ns) && q < |ns| && x !in ns
    ensures NodeSet(ns[q := x]) == NodeSet(ns) - {ns[q]} + {x} && Distinct(ns[q := x])
  {
    var ns' := ns[q := x];
    assert ns'[q] == x;
    forall m | m in ns && m != ns[q] ensures m in ns' {
      var i :| 0 <= i < |ns| && ns[i] == m;
      assert ns'[i] == m;
    }
  }

  lemma NextStep(p: nat, path: nat, k: nat, n: nat)
    requires k > 0 && Walk(p + 1, path, k) <= n + 1
    ensures p < n
    ensures Walk(p + 1, path, k) == Walk((if path % 2 == 1 then 2 * p + 2 else 2 * p + 1) + 1, path / 2, k - 1)
  {
    WalkGrows(p + 1, path, k);
  }

  lemma ParentOfSlot(p: nat, up: nat, right: bool)
    requires p == if right then 2 * up + 2 else 2 * up + 1
    ensures Up(p) == up && (right <==> p == 2 * Up(p) + 2)
  {
  }

  // ---------- a leaf more, a leaf less, a node replaced ----------

  /** The link a parent at position `u` has for its child at position `c`. */
  function LinkChild(rows: seq<Links>, c: nat, v: HeapNode?): (r: seq<Links>)
    ensures |r| == |rows|
  {
    if c == 0 || Up(c) >= |rows| then rows
    else if c == 2 * Up(c) + 1 then rows[Up(c) := rows[Up(c)].(left := v)]
    else rows[Up(c) := rows[Up(c)].(right := v)]
  }

  lemma AppendRows(ns: seq<HeapNode>, rows: seq<Links>, x: HeapNode)
    requires RowsOk(ns, rows)
    ensures RowsOk(ns + [x], LinkChild(rows, |ns|, x) + [Links(null, null, if ns == [] then null else ns[Up(|ns|)])])
  {
    var ns', n := ns + [x], |ns|;
    var rows' := LinkChild(rows, n, x) + [Links(null, null, if ns == [] then null else ns[Up(n)])];
    if n > 0 { Neighbours(n); }
    forall q | 0 <= q < |ns'| ensures rows'[q] == LinksAt(ns', q) {
      if q < n { assert rows[q] == LinksAt(ns, q); }
    }
  }

  lemma DropRows(ns: seq<HeapNode>, rows: seq<Links>)
    requires RowsOk(ns, rows) && ns != []
    ensures RowsOk(ns[..|ns|-1], LinkChild(rows, |ns| - 1, null)[..|ns|-1])
  {
    var n := |ns| - 1;
    var ns', rows' := ns[..n], LinkChild(rows, n, null)[..n];
    if n > 0 { Neighbours(n); }
    forall q | 0 <= q < n ensures rows'[q] == LinksAt(ns', q) {
      assert rows[q] == LinksAt(ns, q);
    }
  }

  function Replaced(rows: seq<Links>, q: nat, x: HeapNode): (r: seq<Links>)
    ensures |r| == |rows|
  {
    LinkChild(PutParent(PutParent(rows, 2 * q + 1, x), 2 * q + 2, x), q, x)
  }

  lemma SameLeft(rows: seq<Links>, q: nat, x: HeapNode)
    requires 0 < q && Up(q) < |rows|
    ensures PutParent(PutParent(rows, 2 * q + 1, x), 2 * q + 2, x)[Up(q)].left == rows[Up(q)].left
  {
  }

  lemma ReplaceRows(ns: seq<HeapNode>, rows: seq<Links>, q: nat, x: HeapNode)
    requires RowsOk(ns, rows) && q < |ns|
    ensures RowsOk(ns[q := x], Replaced(rows, q, x))
  {
    var ns', rows' := ns[q := x], Replaced(rows, q, x);
    forall p | 0 <= p < |ns| ensures rows'[p] == LinksAt(ns', p) {
      ReplaceRow(ns, rows, q, x, p);
    }
  }

  lemma ReplaceRow(ns: seq<HeapNode>, rows: seq<Links>, q: nat, x: HeapNode, p: nat)
    requires RowsOk(ns, rows) && q < |ns| && p < |ns|
    ensures Replaced(rows, q, x)[p] == LinksAt(ns[q := x], p)
  {
    assert rows[p] == LinksAt(ns, p);
    ReplacedRow(rows, q, x, p);
    ReplacedLinks(ns, q, x, p);
  }

  /** Row `p` after the writes: a child of `q` is told its parent, the parent its child. */
  lemma ReplacedRow(rows: seq<Links>, q: nat, x: HeapNode, p: nat)
    requires q < |rows| && p < |rows|
    ensures Replaced(rows, q, x)[p] ==
            if p > 0 && Up(p) == q then rows[p].(parent := x)
            else if q > 0 && p == Up(q) then (if q == 2 * p + 1 then rows[p].(left := x) else rows[p].(right := x))
            else rows[p]
  {
    Neighbours(q + 1);
    if q > 0 { Neighbours(q); }
    if p > 0 { Neighbours(p); }
    ChildrenOf(q, p);
    var told := PutParent(PutParent(rows, 2 * q + 1, x), 2 * q + 2, x);
    assert told[p] == if p == 2 * q + 1 || p == 2 * q + 2 then rows[p].(parent := x) else rows[p];
  }

  lemma ChildrenOf(q: nat, p: nat)
    ensures p == 2 * q + 1 || p == 2 * q + 2 <==> p > 0 && Up(p) == q
  {
  }

  lemma ReplacedLinks(ns: seq<HeapNode>, q: nat, x: HeapNode, p: nat)
    requires q < |ns| && p < |ns|
    ensures var ns' := ns[q := x];
            LinksAt(ns', p) == Links(if q == 2 * p + 1 then x else NodeAt(ns, 2 * p + 1),
                                     if q == 2 * p + 2 then x else NodeAt(ns, 2 * p + 2),
                                     if p > 0 && Up(p) == q then x else ParentAt(ns, p))
  {
  }

  lemma SameIndex(ns: seq<HeapNode>, i: nat, j: nat)
    requires Distinct(ns) && i < |ns| && j < |ns| && ns[i] == ns[j]
    ensures i == j
  {
  }
}
