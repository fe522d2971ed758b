/** What a compaction keeps (db/db_impl.cc, DoCompactionWork). */
module CompactionRules {
  import opened InternalKeys
  import opened FlatSpec
  import opened Versions

  /** Drop rule A: a newer entry of the same user key is itself visible to every snapshot. */
  ghost predicate Hidden(In: set<Entry>, smallest: nat, e: Entry) {
    exists d :: d in In && d.ikey.user == e.ikey.user && e.ikey.seqno < d.ikey.seqno <= smallest
  }

  predicate IsBase(deeper: set<File>, k: UserKey) {
    forall f :: f in deeper ==> !Covers(f, k)
  }

  /** Drop rule B: a deletion marker no snapshot needs and no deeper level can contradict. */
  predicate Obsolete(e: Entry, smallest: nat, deeper: set<File>) {
    e.ikey.kind.Deletion? && e.ikey.seqno <= smallest && IsBase(deeper, e.ikey.user)
  }

  ghost function Survivors(In: set<Entry>, smallest: nat, deeper: set<File>): set<Entry> {
    set e | e in In && !Hidden(In, smallest, e) && !Obsolete(e, smallest, deeper)
  }

  /** What is kept is what some snapshot from the smallest on would read of the inputs, but no deletion marker that all of them
      see and that hides nothing further down. */
  lemma KeptIff(In: set<Entry>, smallest: nat, deeper: set<File>, e: Entry)
    requires UniqueSeq(In) && e in In
    ensures e in Survivors(In, smallest, deeper) <==>
            && (exists s: nat :: s >= smallest && Newest(In, e.ikey.user, s) == Some(e))
            && !(e.ikey.kind.Deletion? && e.ikey.seqno <= smallest &&
                 forall f :: f in deeper ==> e.ikey.user < Smallest(f).user || Largest(f).user < e.ikey.user)
  {
    hide UniqueSeq;
    var k := e.ikey.user;
    if !Hidden(In, smallest, e) {
      var s := if e.ikey.seqno < smallest then smallest else e.ikey.seqno;
      NewestIs(In, k, s, e);
    }
    assert forall s: nat :: s >= smallest && Newest(In, k, s) == Some(e) ==> !Hidden(In, smallest, e);
  }

  // ---------- when dropping preserves meaning ----------

  /** Dropping `x` under rule B would let the older value `y`, outside the inputs, show again. */
  ghost predicate Exposes(Rest: set<Entry>, In: set<Entry>, smallest: nat, deeper: set<File>, x: Entry, y: Entry) {
    && x in In && Obsolete(x, smallest, deeper)
    && IsNewest(Rest + In, x.ikey.user, smallest, x)
    && IsNewest(Rest, x.ikey.user, x.ikey.seqno, y)
    && y.ikey.kind.Value?
  }

  ghost predicate ReadsAgree(S: set<Entry>, T: set<Entry>, from: nat) {
    forall k, s: nat :: s >= from ==> Read(S, k, s) == Read(T, k, s)
  }

  lemma KeptNewestStays(Rest: set<Entry>, In: set<Entry>, Out: set<Entry>, k: UserKey, s: nat)
    requires UniqueSeq(Rest + In) && Out <= In
    requires Newest(Rest + In, k, s).Some? ==> Newest(Rest + In, k, s).value in Rest + Out
    ensures Newest(Rest + Out, k, s) == Newest(Rest + In, k, s)
  {
    if Newest(Rest + In, k, s).Some? {
      NewestIs(Rest + Out, k, s, Newest(Rest + In, k, s).value);
    }
  }

  /** One read, one direction: a read at or above `smallest` changes only through an exposure. */
  lemma ReadPreserved(Rest: set<Entry>, In: set<Entry>, smallest: nat, deeper: set<File>, k: UserKey, s: nat)
    requires UniqueSeq(Rest + In) && Rest !! In && s >= smallest
    requires !exists x, y :: Exposes(Rest, In, smallest, deeper, x, y)
    ensures Read(Rest + Survivors(In, smallest, deeper), k, s) == Read(Rest + In, k, s)
  {
    var Out := Survivors(In, smallest, deeper);
    var n := Newest(Rest + In, k, s);
    if n.None? || n.value in Rest + Out {
      KeptNewestStays(Rest, In, Out, k, s);
    } else {
      var x := n.value;
      assert Obsolete(x, smallest, deeper);
      var m := Newest(Rest + Out, k, s);
      if m.Some? && m.value.ikey.kind.Value? {
        var y := m.value;
        OlderSurvivorIsOutside(Rest, In, smallest, deeper, x, y, s);
        assert Exposes(Rest, In, smallest, deeper, x, y);
      }
    }
  }

  lemma OlderSurvivorIsOutside(Rest: set<Entry>, In: set<Entry>, smallest: nat, deeper: set<File>, x: Entry, y: Entry, s: nat)
    requires UniqueSeq(Rest + In) && Rest !! In && s >= smallest
    requires x in In && Obsolete(x, smallest, deeper) && IsNewest(Rest + In, x.ikey.user, s, x)
    requires IsNewest(Rest + Survivors(In, smallest, deeper), x.ikey.user, s, y)
    ensures IsNewest(Rest + In, x.ikey.user, smallest, x)
    ensures IsNewest(Rest, x.ikey.user, x.ikey.seqno, y)
  {
    assert y in Rest + In && y != x;
    assert y.ikey.seqno < x.ikey.seqno;
    if y in Survivors(In, smallest, deeper) {
      assert Hidden(In, smallest, y);
    }
    assert y in Rest;
  }

  /** Conversely an exposure changes the read at `smallest` itself. */
  lemma ExposureChangesRead(Rest: set<Entry>, In: set<Entry>, smallest: nat, deeper: set<File>, x: Entry, y: Entry)
    requires UniqueSeq(Rest + In) && Rest !! In && Exposes(Rest, In, smallest, deeper, x, y)
    ensures Read(Rest + Survivors(In, smallest, deeper), x.ikey.user, smallest) !=
            Read(Rest + In, x.ikey.user, smallest)
  {
    var k := x.ikey.user;
    var Out := Survivors(In, smallest, deeper);
    NewestIs(Rest + In, k, smallest, x);
    forall d | d in Rest + Out && Sees(d, k, smallest) ensures d.ikey.seqno <= y.ikey.seqno {
      assert d in Rest + In && d.ikey.seqno <= x.ikey.seqno;
      assert d in In && d != x ==> Hidden(In, smallest, d);
    }
    NewestIs(Rest + Out, k, smallest, y);
  }

  /** Compaction preserves every read at or above the smallest snapshot exactly
      when no obsolete deletion marker hides a value outside its inputs. */
  lemma CompactionPreservesReadsIff(Rest: set<Entry>, In: set<Entry>, smallest: nat, deeper: set<File>)
    requires UniqueSeq(Rest + In) && Rest !! In
    ensures ReadsAgree(Rest + Survivors(In, smallest, deeper), Rest + In, smallest) <==>
            !exists x, y :: Exposes(Rest, In, smallest, deeper, x, y)
  {
    if exists x, y :: Exposes(Rest, In, smallest, deeper, x, y) {
      var x, y :| Exposes(Rest, In, smallest, deeper, x, y);
      ExposureChangesRead(Rest, In, smallest, deeper, x, y);
    } else {
      forall k, s: nat | s >= smallest
        ensures Read(Rest + Survivors(In, smallest, deeper), k, s) == Read(Rest + In, k, s)
      {
        ReadPreserved(Rest, In, smallest, deeper, k, s);
      }
    }
  }

  // ---------- the merged input, entry by entry ----------

  /** The drop decision for position `i` of the merged input, as the loop takes it:
      the entry just before it settles rule A. */
  predicate Dropped(merged: seq<Entry>, i: nat, smallest: nat, deeper: set<File>)
    requires i < |merged|
  {
    (i > 0 && merged[i-1].ikey.user == merged[i].ikey.user && merged[i-1].ikey.seqno <= smallest) ||
    Obsolete(merged[i], smallest, deeper)
  }

  function Kept(merged: seq<Entry>, n: nat, smallest: nat, deeper: set<File>): seq<Entry>
    requires n <= |merged|
  {
    if n == 0 then []
    else if Dropped(merged, n - 1, smallest, deeper) then Kept(merged, n - 1, smallest, deeper)
    else Kept(merged, n - 1, smallest, deeper) + [merged[n - 1]]
  }

  /** Looking one entry back is enough for rule A, because the input is sorted. */
  lemma DroppedMeaning(merged: seq<Entry>, i: nat, smallest: nat, deeper: set<File>)
    requires Sorted(merged) && UniqueSeq(Elems(merged)) && i < |merged|
    ensures Dropped(merged, i, smallest, deeper) <==>
            merged[i] !in Survivors(Elems(merged), smallest, deeper)
  {
    var e := merged[i];
    var byPrevious := i > 0 && merged[i-1].ikey.user == e.ikey.user && merged[i-1].ikey.seqno <= smallest;
    if byPrevious {
      CompareIsLexicographic(merged[i-1].ikey, e.ikey);
      assert merged[i-1] in Elems(merged) && merged[i-1].ikey.seqno > e.ikey.seqno;
      assert Hidden(Elems(merged), smallest, e);
    }
    if Hidden(Elems(merged), smallest, e) {
      var d :| d in Elems(merged) && d.ikey.user == e.ikey.user && e.ikey.seqno < d.ikey.seqno <= smallest;
      var j :| 0 <= j < |merged| && merged[j] == d;
      CompareIsLexicographic(d.ikey, e.ikey);
      CompareIsLexicographic(e.ikey, d.ikey);
      assert j < i;
      assert j < i - 1 ==> Less(merged[j].ikey, merged[i-1].ikey);
      assert Less(merged[i-1].ikey, merged[i].ikey);
      assert byPrevious;
    }
  }

  /** Kept entries are the survivors among the first n inputs, in order. */
  lemma {:induction false} KeptIsSurvivors(merged: seq<Entry>, n: nat, smallest: nat, deeper: set<File>)
    requires Sorted(merged) && UniqueSeq(Elems(merged)) && n <= |merged|
    ensures Sorted(Kept(merged, n, smallest, deeper))
    ensures forall e :: e in Kept(merged, n, smallest, deeper) <==>
                        e in merged[..n] && e in Survivors(Elems(merged), smallest, deeper)
  {
    hide Obsolete, Hidden, IsBase, UniqueSeq;
    if n > 0 {
      KeptIsSurvivors(merged, n - 1, smallest, deeper);
      DroppedMeaning(merged, n - 1, smallest, deeper);
      assert merged[..n] == merged[..n-1] + [merged[n-1]];
      var front := Kept(merged, n - 1, smallest, deeper);
      forall i | 0 <= i < |front| ensures Less(front[i].ikey, merged[n-1].ikey) {
        assert front[i] in front;
        assert front[i] in merged[..n-1];
      }
    }
  }

  function Concat(outs: seq<seq<Entry>>): seq<Entry> {
    if outs == [] then [] else Concat(outs[..|outs|-1]) + outs[|outs|-1]
  }

  predicate AllNonempty(outs: seq<seq<Entry>>) {
    forall i :: 0 <= i < |outs| ==> outs[i] != []
  }

  // ---------- where the outputs are cut ----------

  /** The grandparents of a compaction, how many bytes of them one output may overlap, the table
      builder's size estimate and the size an output is closed at. */
  datatype CutRules = CutRules(grandparents: seq<File>, maxOverlap: nat, sizeOf: seq<Entry> -> nat, maxSize: nat)

  /** Closed outputs and the open one; grandparents passed, and their bytes since the last stop. */
  datatype Cutting = Cutting(closed: seq<seq<Entry>>, open: seq<Entry>, passed: nat, bytes: nat)

  function PassedTo(grandparents: seq<File>, from: nat, key: InternalKey): (to: nat)
    requires from <= |grandparents|
    ensures from <= to <= |grandparents|
    decreases |grandparents| - from
  {
    if from < |grandparents| && Less(Largest(grandparents[from]), key) then PassedTo(grandparents, from + 1, key) else from
  }

  function Closed(c: Cutting): seq<seq<Entry>> {
    if c.open == [] then c.closed else c.closed + [c.open]
  }

  /** The bytes charged once the grandparents before `key` are passed; the first key is not charged. */
  function Charged(rules: CutRules, c: Cutting, seen: bool, key: InternalKey): (bytes: int)
    requires c.passed <= |rules.grandparents|
  {
    var to := PassedTo(rules.grandparents, c.passed, key);
    c.bytes + if seen then TotalFileSize(rules.grandparents[..to]) - TotalFileSize(rules.grandparents[..c.passed]) else 0
  }

  /** A new output begins once the open one overlaps too many bytes of grandparents. */
  function Stopped(rules: CutRules, c: Cutting, seen: bool, key: InternalKey): (r: Cutting)
    requires c.passed <= |rules.grandparents|
    ensures r.passed <= |rules.grandparents|
  {
    var to, bytes := PassedTo(rules.grandparents, c.passed, key), Charged(rules, c, seen, key);
    MoreIsLarger(rules.grandparents, c.passed, to);
    if bytes > rules.maxOverlap then Cutting(Closed(c), [], to, 0) else c.(passed := to, bytes := bytes)
  }

  lemma {:induction false} MoreIsLarger(files: seq<File>, few: nat, many: nat)
    requires few <= many <= |files|
    ensures TotalFileSize(files[..few]) <= TotalFileSize(files[..many])
  {
    if few < many {
      MoreIsLarger(files, few, many - 1);
      assert files[..many][..many-1] == files[..many-1];
    }
  }

  function Added(rules: CutRules, c: Cutting, e: Entry): Cutting {
    var open := c.open + [e];
    if rules.sizeOf(open) >= rules.maxSize then c.(closed := c.closed + [open], open := []) else c.(open := open)
  }

  /** After the first `n` entries of the merged input. */
  function CutAfter(rules: CutRules, merged: seq<Entry>, n: nat, smallest: nat, deeper: set<File>): (c: Cutting)
    requires n <= |merged|
    ensures c.passed <= |rules.grandparents|
  {
    if n == 0 then Cutting([], [], 0, 0)
    else
      var c := Stopped(rules, CutAfter(rules, merged, n - 1, smallest, deeper), n > 1, merged[n-1].ikey);
      if Dropped(merged, n - 1, smallest, deeper) then c else Added(rules, c, merged[n-1])
  }

  function Outputs(rules: CutRules, merged: seq<Entry>, smallest: nat, deeper: set<File>): seq<seq<Entry>> {
    Closed(CutAfter(rules, merged, |merged|, smallest, deeper))
  }

  /** However a sorted run is cut into tables, the tables are sorted and disjoint. */
  lemma {:induction false} CutsAreSorted(outs: seq<seq<Entry>>)
    requires Sorted(Concat(outs)) && AllNonempty(outs)
    ensures forall i :: 0 <= i < |outs| ==> Sorted(outs[i])
    ensures forall i, j :: 0 <= i < j < |outs| ==> Less(outs[i][|outs[i]|-1].ikey, outs[j][0].ikey)
    ensures forall e :: e in Concat(outs) <==> exists i :: 0 <= i < |outs| && e in outs[i]
  {
    hide Less;
    if outs != [] {
      var n := |outs| - 1;
      var front := outs[..n];
      var c := Concat(front);
      var all := Concat(outs);
      assert c == all[..|c|];
      assert outs[n] == all[|c|..];
      CutsAreSorted(front);
      forall i | 0 <= i < n ensures Less(outs[i][|outs[i]|-1].ikey, outs[n][0].ikey) {
        var e := front[i][|front[i]|-1];
        assert 0 <= i < |front| && e in front[i];
        assert e in c;
        var m :| 0 <= m < |c| && c[m] == e;
        assert all[m] == e && all[|c|] == outs[n][0];
      }
      forall e ensures e in all <==> exists i :: 0 <= i < |outs| && e in outs[i] {
        if e in c {
          var i :| 0 <= i < |front| && e in front[i];
          assert outs[i] == front[i];
        }
        if exists i :: 0 <= i < |outs| && e in outs[i] {
          var i :| 0 <= i < |outs| && e in outs[i];
          assert i < n ==> e in front[i];
        }
      }
    }
  }
}

/** Why the outputs of a compaction are cut where they are (db/version_set.cc, Compaction::ShouldStopBefore; db/db_impl.cc,
    DoCompactionWork). */
module CutReasons {
  import opened InternalKeys
  import opened Versions
  import opened CompactionRules

  /** The bytes of the grandparents that end at or after one key and before another. */
  function Between(gs: seq<File>, from: InternalKey, to: InternalKey): nat {
    if gs == [] then 0
    else
      var n := |gs| - 1;
      Between(gs[..n], from, to) + if !Less(Largest(gs[n]), from) && Less(Largest(gs[n]), to) then gs[n].size else 0
  }

  /** Counting begins at the first key and anew at each key before which the bytes counted exceed the limit. */
  function CountedFrom(rules: CutRules, merged: seq<Entry>, n: nat): (m: nat)
    requires 0 < n <= |merged|
    ensures m < n
  {
    if n == 1 then 0
    else
      var m := CountedFrom(rules, merged, n - 1);
      if Between(rules.grandparents, merged[m].ikey, merged[n-1].ikey) > rules.maxOverlap then n - 1 else m
  }

  predicate StopsAt(rules: CutRules, merged: seq<Entry>, j: nat)
    requires 0 < j < |merged|
  {
    Between(rules.grandparents, merged[CountedFrom(rules, merged, j)].ikey, merged[j].ikey) > rules.maxOverlap
  }

  /** The output reaches from one place of the merged input to another; it overlaps few enough grandparents, was not full
      before its last entry, and no stop falls inside it. */
  predicate Due(rules: CutRules, merged: seq<Entry>, o: seq<Entry>, a: nat, b: nat) {
    && o != [] && a <= b < |merged| && o[0] == merged[a] && o[|o|-1] == merged[b]
    && Between(rules.grandparents, merged[a].ikey, merged[b].ikey) <= rules.maxOverlap
    && (forall l :: 0 < l < |o| ==> rules.sizeOf(o[..l]) < rules.maxSize)
    && (forall j :: a < j <= b ==> !StopsAt(rules, merged, j))
  }

  /** The output is full, or a stop falls behind it and not behind the next one's first entry. */
  predicate Parted(rules: CutRules, merged: seq<Entry>, o: seq<Entry>, b: nat, next: nat)
    requires next < |merged|
  {
    rules.sizeOf(o) >= rules.maxSize || exists j :: b < j <= next && StopsAt(rules, merged, j)
  }

  datatype Span = Span(first: nat, last: nat)

  predicate WellCut(rules: CutRules, merged: seq<Entry>, outs: seq<seq<Entry>>, spans: seq<Span>) {
    && |spans| == |outs|
    && (forall k :: 0 <= k < |outs| ==> Due(rules, merged, outs[k], spans[k].first, spans[k].last))
    && (forall k :: 0 < k < |outs| ==>
          spans[k-1].last < spans[k].first && Parted(rules, merged, outs[k-1], spans[k-1].last, spans[k].first))
  }

  // ---------- counting ----------

  lemma LargestAscend(gs: seq<File>, i: nat, j: nat)
    requires LevelSorted(gs) && i < j < |gs|
    ensures Less(Largest(gs[i]), Largest(gs[j]))
  {
    SmallestToLargest(gs[j]);
    CompareIsLexicographic(Largest(gs[i]), Smallest(gs[j]));
    CompareIsLexicographic(Smallest(gs[j]), Largest(gs[j]));
    CompareIsLexicographic(Largest(gs[i]), Largest(gs[j]));
  }

  lemma {:induction false} PassedMeans(gs: seq<File>, from: nat, key: InternalKey)
    requires LevelSorted(gs) && from <= |gs| && forall i :: 0 <= i < from ==> Less(Largest(gs[i]), key)
    ensures forall i :: 0 <= i < |gs| ==> (Less(Largest(gs[i]), key) <==> i < PassedTo(gs, from, key))
    decreases |gs| - from
  {
    hide Less;
    if from < |gs| && Less(Largest(gs[from]), key) {
      PassedMeans(gs, from + 1, key);
    } else {
      forall i | from < i < |gs| ensures !Less(Largest(gs[i]), key) {
        if Less(Largest(gs[i]), key) {
          LargestAscend(gs, from, i);
          LessTransitive(Largest(gs[from]), Largest(gs[i]), key);
        }
      }
    }
  }

  lemma PassedFrom(gs: seq<File>, a: InternalKey, b: InternalKey)
    requires LevelSorted(gs) && (a == b || Less(a, b))
    ensures PassedTo(gs, 0, a) <= PassedTo(gs, 0, b) == PassedTo(gs, PassedTo(gs, 0, a), b)
  {
    hide Less;
    PassedMeans(gs, 0, a);
    PassedMeans(gs, 0, b);
    var p, q := PassedTo(gs, 0, a), PassedTo(gs, 0, b);
    forall i | 0 <= i < p ensures Less(Largest(gs[i]), b) {
      if a != b {
        LessTransitive(Largest(gs[i]), a, b);
      }
    }
    PassedMeans(gs, p, b);
    var r := PassedTo(gs, p, b);
    assert r < |gs| ==> (Less(Largest(gs[r]), b) <==> r < q);
    assert q < |gs| ==> (Less(Largest(gs[q]), b) <==> q < r);
  }

  /** What is counted is what was passed since. */
  lemma BetweenIsPassed(gs: seq<File>, a: InternalKey, b: InternalKey)
    requires LevelSorted(gs) && (a == b || Less(a, b))
    ensures PassedTo(gs, 0, a) <= PassedTo(gs, 0, b)
    ensures Between(gs, a, b) == TotalFileSize(gs[..PassedTo(gs, 0, b)]) - TotalFileSize(gs[..PassedTo(gs, 0, a)])
  {
    hide Less, Between, TotalFileSize, PassedTo, LevelSorted;
    PassedFrom(gs, a, b);
    PassedMeans(gs, 0, a);
    PassedMeans(gs, 0, b);
    BetweenPlaces(gs, a, b, PassedTo(gs, 0, a), PassedTo(gs, 0, b), |gs|);
    assert gs[..|gs|] == gs;
  }

  lemma {:induction false} BetweenPlaces(gs: seq<File>, a: InternalKey, b: InternalKey, p: nat, q: nat, n: nat)
    requires p <= q <= |gs| && n <= |gs|
    requires forall i :: 0 <= i < |gs| ==> (Less(Largest(gs[i]), a) <==> i < p) && (Less(Largest(gs[i]), b) <==> i < q)
    ensures Between(gs[..n], a, b)
         == TotalFileSize(gs[..if q < n then q else n]) - TotalFileSize(gs[..if p < n then p else n])
  {
    hide Less, Between, TotalFileSize;
    if n > 0 {
      BetweenPlaces(gs, a, b, p, q, n - 1);
      OneMoreFile(gs, a, b, n);
    } else {
      assert gs[..0] == [];
      NoFiles(a, b);
    }
  }

  lemma NoFiles(a: InternalKey, b: InternalKey)
    ensures Between([], a, b) == TotalFileSize([]) == 0
  {
  }

  lemma OneMoreFile(gs: seq<File>, a: InternalKey, b: InternalKey, n: nat)
    requires 0 < n <= |gs|
    ensures Between(gs[..n], a, b) == Between(gs[..n-1], a, b)
                                    + if !Less(Largest(gs[n-1]), a) && Less(Largest(gs[n-1]), b) then gs[n-1].size else 0
    ensures TotalFileSize(gs[..n]) == TotalFileSize(gs[..n-1]) + gs[n-1].size
  {
    assert gs[..n][..n-1] == gs[..n-1];
  }

  lemma BetweenShrinks(gs: seq<File>, a: InternalKey, a': InternalKey, b: InternalKey, b': InternalKey)
    requires (a == a' || Less(a, a')) && (b' == b || Less(b', b))
    ensures Between(gs, a', b') <= Between(gs, a, b)
  {
    if gs != [] {
      var g := Largest(gs[|gs|-1]);
      BetweenShrinks(gs[..|gs|-1], a, a', b, b');
      if !Less(g, a') && Less(g, a) && a != a' {
        LessTransitive(g, a, a');
      }
      if Less(g, b') && b != b' {
        LessTransitive(g, b', b);
      }
    }
  }

  lemma {:induction false} StopsAreCounted(rules: CutRules, merged: seq<Entry>, n: nat, j: nat)
    requires 0 < j < n <= |merged| && StopsAt(rules, merged, j)
    ensures j <= CountedFrom(rules, merged, n)
  {
    hide Between;
    if j < n - 1 {
      StopsAreCounted(rules, merged, n - 1, j);
    }
  }

  // ---------- entry by entry ----------

  /** Where the cutting stands after the first entries. */
  ghost predicate Stands(rules: CutRules, merged: seq<Entry>, n: nat, c: Cutting, spans: seq<Span>, open: Span)
    requires n <= |merged|
  {
    && WellCut(rules, merged, c.closed, spans)
    && (forall k :: 0 <= k < |spans| ==> spans[k].last < n)
    && (n > 0 ==>
          && c.passed == PassedTo(rules.grandparents, 0, merged[n-1].ikey)
          && c.bytes == Between(rules.grandparents, merged[CountedFrom(rules, merged, n)].ikey, merged[n-1].ikey)
          && c.bytes <= rules.maxOverlap)
    && (if c.open == [] then
          c.closed != [] ==> n > 0 && Ended(rules, merged, c.closed[|c.closed|-1], spans[|c.closed|-1].last, n)
        else
          && open.first <= open.last < n && c.open[0] == merged[open.first] && c.open[|c.open|-1] == merged[open.last]
          && CountedFrom(rules, merged, n) <= open.first
          && (forall l :: 0 < l <= |c.open| ==> rules.sizeOf(c.open[..l]) < rules.maxSize)
          && (c.closed != [] ==>
                && spans[|c.closed|-1].last < open.first
                && Parted(rules, merged, c.closed[|c.closed|-1], spans[|c.closed|-1].last, open.first)))
  }

  predicate Ended(rules: CutRules, merged: seq<Entry>, o: seq<Entry>, b: nat, n: nat)
    requires n <= |merged|
  {
    rules.sizeOf(o) >= rules.maxSize || exists j :: b < j < n && StopsAt(rules, merged, j)
  }

  lemma OneMoreCut(rules: CutRules, merged: seq<Entry>, outs: seq<seq<Entry>>, spans: seq<Span>, o: seq<Entry>, s: Span)
    requires WellCut(rules, merged, outs, spans) && Due(rules, merged, o, s.first, s.last)
    requires outs != [] ==> |spans| == |outs| && s.first < |merged| && spans[|outs|-1].last < s.first
                            && Parted(rules, merged, outs[|outs|-1], spans[|outs|-1].last, s.first)
    ensures WellCut(rules, merged, outs + [o], spans + [s])
  {
    hide Due, Parted;
  }

  /** Closing the open output makes one more that is due. */
  lemma OpenIsDue(rules: CutRules, merged: seq<Entry>, n: nat, c: Cutting, spans: seq<Span>, open: Span)
    requires Sorted(merged) && n <= |merged| && Stands(rules, merged, n, c, spans, open) && c.open != []
    ensures WellCut(rules, merged, c.closed + [c.open], spans + [open])
  {
    hide Between, Less, StopsAt, CountedFrom, PassedTo, WellCut, Parted;
    CutsHaveSpans(rules, merged, c.closed, spans);
    var m := CountedFrom(rules, merged, n);
    BetweenShrinks(rules.grandparents, merged[m].ikey, merged[open.first].ikey, merged[n-1].ikey, merged[open.last].ikey);
    forall j | open.first < j <= open.last ensures !StopsAt(rules, merged, j) {
      if StopsAt(rules, merged, j) {
        StopsAreCounted(rules, merged, n, j);
      }
    }
    assert Due(rules, merged, c.open, open.first, open.last);
    OneMoreCut(rules, merged, c.closed, spans, c.open, open);
  }

  lemma FirstStands(rules: CutRules, merged: seq<Entry>, smallest: nat, deeper: set<File>)
    ensures Stands(rules, merged, 0, CutAfter(rules, merged, 0, smallest, deeper), [], Span(0, 0))
  {
  }

  /** The bytes charged at the next key are those counted. */
  lemma ChargedIsCounted(rules: CutRules, merged: seq<Entry>, n: nat, c: Cutting)
    requires Sorted(merged) && LevelSorted(rules.grandparents) && n < |merged| && c.passed <= |rules.grandparents|
    requires n == 0 ==> c == Cutting([], [], 0, 0)
    requires n > 0 ==> c.passed == PassedTo(rules.grandparents, 0, merged[n-1].ikey)
    requires n > 0 ==> c.bytes == Between(rules.grandparents, merged[CountedFrom(rules, merged, n)].ikey, merged[n-1].ikey)
    ensures var gs, key := rules.grandparents, merged[n].ikey;
            && PassedTo(gs, c.passed, key) == PassedTo(gs, 0, key) && Between(gs, key, key) == 0
            && Charged(rules, c, n > 0, key) == if n == 0 then 0 else Between(gs, merged[CountedFrom(rules, merged, n)].ikey, key)
  {
    hide Between, PassedTo, Less;
    var gs, key := rules.grandparents, merged[n].ikey;
    BetweenIsPassed(gs, key, key);
    if n > 0 {
      var m := CountedFrom(rules, merged, n);
      PassedFrom(gs, merged[n-1].ikey, key);
      BetweenIsPassed(gs, merged[m].ikey, merged[n-1].ikey);
      BetweenIsPassed(gs, merged[m].ikey, key);
    }
  }

  lemma CountedNext(rules: CutRules, merged: seq<Entry>, n: nat)
    requires n < |merged|
    ensures CountedFrom(rules, merged, n + 1)
         == if n == 0 then 0 else if StopsAt(rules, merged, n) then n else CountedFrom(rules, merged, n)
  {
  }

  /** A key has been looked at and its entry not yet added. */
  lemma StopStands(rules: CutRules, merged: seq<Entry>, n: nat, c: Cutting, spans: seq<Span>, open: Span)
      returns (spans': seq<Span>)
    requires Sorted(merged) && LevelSorted(rules.grandparents) && n < |merged| && c.passed <= |rules.grandparents|
    requires Stands(rules, merged, n, c, spans, open) && (n == 0 ==> c == Cutting([], [], 0, 0))
    ensures Stands(rules, merged, n + 1, Stopped(rules, c, n > 0, merged[n].ikey), spans', open)
    ensures forall k :: 0 <= k < |spans'| ==> spans'[k].last < n
  {
    hide Between, Less, PassedTo, Charged, CountedFrom, WellCut;
    spans' := spans;
    ChargedIsCounted(rules, merged, n, c);
    CountedNext(rules, merged, n);
    CutsHaveSpans(rules, merged, c.closed, spans);
    if n > 0 && StopsAt(rules, merged, n) && c.open != [] {
      OpenIsDue(rules, merged, n, c, spans, open);
      spans' := spans + [open];
    }
  }

  lemma CutsHaveSpans(rules: CutRules, merged: seq<Entry>, outs: seq<seq<Entry>>, spans: seq<Span>)
    requires WellCut(rules, merged, outs, spans)
    ensures |spans| == |outs|
  {
  }

  /** The entry is added behind the key's. */
  lemma AddStands(rules: CutRules, merged: seq<Entry>, n: nat, c: Cutting, spans: seq<Span>, open: Span)
      returns (spans': seq<Span>, open': Span)
    requires Sorted(merged) && n < |merged| && Stands(rules, merged, n + 1, c, spans, open)
    requires (forall k :: 0 <= k < |spans| ==> spans[k].last < n) && (c.open != [] ==> open.last < n)
    ensures Stands(rules, merged, n + 1, Added(rules, c, merged[n]), spans', open') && open'.last == n
  {
    hide Between, Less, PassedTo, CountedFrom, WellCut;
    CutsHaveSpans(rules, merged, c.closed, spans);
    var items := c.open + [merged[n]];
    spans', open' := spans, Span(if c.open == [] then n else open.first, n);
    forall l | 0 < l < |items| ensures rules.sizeOf(items[..l]) < rules.maxSize {
      assert items[..l] == c.open[..l];
    }
    assert items[..|items|] == items;
    if rules.sizeOf(items) >= rules.maxSize {
      FullIsDue(rules, merged, n, c, spans, open, items, open');
      spans' := spans + [open'];
    }
  }

  lemma FullIsDue(rules: CutRules, merged: seq<Entry>, n: nat, c: Cutting, spans: seq<Span>, open: Span,
                  items: seq<Entry>, span: Span)
    requires Sorted(merged) && n < |merged| && Stands(rules, merged, n + 1, c, spans, open)
    requires items == c.open + [merged[n]] && span == Span(if c.open == [] then n else open.first, n)
    requires (forall k :: 0 <= k < |spans| ==> spans[k].last < n) && (c.open != [] ==> open.last < n)
    requires forall l :: 0 < l < |items| ==> rules.sizeOf(items[..l]) < rules.maxSize
    ensures WellCut(rules, merged, c.closed + [items], spans + [span])
  {
    hide Between, Less, PassedTo, CountedFrom, StopsAt, WellCut;
    CutsHaveSpans(rules, merged, c.closed, spans);
    var m := CountedFrom(rules, merged, n + 1);
    BetweenShrinks(rules.grandparents, merged[m].ikey, merged[span.first].ikey, merged[n].ikey, merged[n].ikey);
    forall j | span.first < j <= n ensures !StopsAt(rules, merged, j) {
      if StopsAt(rules, merged, j) {
        StopsAreCounted(rules, merged, n + 1, j);
      }
    }
    assert Due(rules, merged, items, span.first, n);
    OneMoreCut(rules, merged, c.closed, spans, items, span);
  }

  lemma {:induction false} CutStands(rules: CutRules, merged: seq<Entry>, n: nat, smallest: nat, deeper: set<File>)
      returns (spans: seq<Span>, open: Span)
    requires Sorted(merged) && LevelSorted(rules.grandparents) && n <= |merged|
    ensures Stands(rules, merged, n, CutAfter(rules, merged, n, smallest, deeper), spans, open)
    ensures CutAfter(rules, merged, n, smallest, deeper).open != [] ==> open.last < n
  {
    hide Stands, Stopped, Added, Dropped, LevelSorted, Sorted;
    if n == 0 {
      FirstStands(rules, merged, smallest, deeper);
      return [], Span(0, 0);
    }
    spans, open := CutStands(rules, merged, n - 1, smallest, deeper);
    var c := CutAfter(rules, merged, n - 1, smallest, deeper);
    spans := StopStands(rules, merged, n - 1, c, spans, open);
    var d := Stopped(rules, c, n > 1, merged[n-1].ikey);
    OpenStays(rules, c, n > 1, merged[n-1].ikey);
    if !Dropped(merged, n - 1, smallest, deeper) {
      spans, open := AddStands(rules, merged, n - 1, d, spans, open);
    }
  }

  lemma OpenStays(rules: CutRules, c: Cutting, seen: bool, key: InternalKey)
    requires c.passed <= |rules.grandparents|
    ensures Stopped(rules, c, seen, key).open == [] || Stopped(rules, c, seen, key).open == c.open
  {
  }

  /** Each output overlaps at most the permitted bytes of grandparents and ends no earlier than it must; two neighbours
      are apart because the left one is full, or because of the grandparents passed. */
  lemma OutputsAreWellCut(rules: CutRules, merged: seq<Entry>, smallest: nat, deeper: set<File>) returns (spans: seq<Span>)
    requires Sorted(merged) && LevelSorted(rules.grandparents)
    ensures WellCut(rules, merged, Outputs(rules, merged, smallest, deeper), spans)
  {
    hide CutAfter, WellCut;
    var open;
    spans, open := CutStands(rules, merged, |merged|, smallest, deeper);
    var c := CutAfter(rules, merged, |merged|, smallest, deeper);
    if c.open != [] {
      OpenIsDue(rules, merged, |merged|, c, spans, open);
      spans := spans + [open];
    }
  }

  // ---------- no other place to cut ----------

  lemma {:induction false} ConcatFront(outs: seq<seq<Entry>>)
    requires outs != []
    ensures Concat(outs) == outs[0] + Concat(outs[1..])
  {
    var n := |outs| - 1;
    if n > 0 {
      ConcatFront(outs[..n]);
      assert outs[..n][1..] == outs[1..][..n-1];
    } else {
      assert outs[..0] == [] && outs[1..] == [];
    }
  }

  lemma WellCutTail(rules: CutRules, merged: seq<Entry>, outs: seq<seq<Entry>>, spans: seq<Span>)
    requires WellCut(rules, merged, outs, spans) && outs != []
    ensures WellCut(rules, merged, outs[1..], spans[1..])
  {
    hide Parted;
    forall k | 0 < k < |outs| - 1
      ensures spans[1..][k-1].last < spans[1..][k].first
      ensures Parted(rules, merged, outs[1..][k-1], spans[1..][k-1].last, spans[1..][k].first)
    {
      assert outs[1..][k-1] == outs[k] && spans[1..][k-1] == spans[k] && spans[1..][k] == spans[k+1];
    }
  }

  /** Entries in order stand in order. */
  lemma PlacesInOrder(merged: seq<Entry>, i: nat, j: nat)
    requires Sorted(merged) && i < |merged| && j < |merged| && (merged[i] == merged[j] || Less(merged[i].ikey, merged[j].ikey))
    ensures i <= j
  {
    CompareIsLexicographic(merged[i].ikey, merged[j].ikey);
    CompareIsLexicographic(merged[j].ikey, merged[i].ikey);
  }

  /** The left one of two first outputs cannot be the shorter. */
  lemma NotCutEarlier(rules: CutRules, merged: seq<Entry>, xs: seq<seq<Entry>>, sx: seq<Span>, ys: seq<seq<Entry>>, sy: seq<Span>)
    requires Sorted(merged) && WellCut(rules, merged, xs, sx) && WellCut(rules, merged, ys, sy)
    requires xs != [] && ys != [] && Concat(xs) == Concat(ys) && Sorted(Concat(ys))
    ensures |xs[0]| >= |ys[0]|
  {
    hide StopsAt, Less, Between, Concat;
    ConcatFront(xs);
    ConcatFront(ys);
    var all, x, y := Concat(ys), xs[0], ys[0];
    assert Due(rules, merged, x, sx[0].first, sx[0].last) && Due(rules, merged, y, sy[0].first, sy[0].last);
    if |x| < |y| {
      assert all[..|x|] == x && all[..|y|] == y;
      assert x == y[..|x|] && rules.sizeOf(y[..|x|]) < rules.maxSize;
      assert Concat(xs[1..]) == all[|x|..];
      if xs[1..] == [] {
        assert Concat([]) == [] by { NoConcat(); }
        assert false;
      } else {
        ConcatFront(xs[1..]);
        assert Due(rules, merged, xs[1], sx[1].first, sx[1].last) && Parted(rules, merged, x, sx[0].last, sx[1].first);
        assert xs[1][0] == all[|x|] == y[|x|];
        assert |x| < |y| - 1 ==> Less(all[|x|].ikey, all[|y|-1].ikey);
        PlacesInOrder(merged, sx[1].first, sy[0].last);
        PlacesInOrder(merged, sy[0].first, sx[0].first);
      }
    }
  }

  lemma NoConcat()
    ensures Concat([]) == []
  {
  }

  lemma SomeConcat(rules: CutRules, merged: seq<Entry>, outs: seq<seq<Entry>>, spans: seq<Span>)
    requires WellCut(rules, merged, outs, spans)
    ensures Concat(outs) == [] <==> outs == []
  {
    hide StopsAt, Between, Parted;
    if outs != [] {
      assert Due(rules, merged, outs[0], spans[0].first, spans[0].last);
      ConcatFront(outs);
    }
  }

  /** The entries kept can be cut in no other way. */
  lemma {:induction false} OneWellCut(rules: CutRules, merged: seq<Entry>, xs: seq<seq<Entry>>, sx: seq<Span>,
                                      ys: seq<seq<Entry>>, sy: seq<Span>)
    requires Sorted(merged) && WellCut(rules, merged, xs, sx) && WellCut(rules, merged, ys, sy)
    requires Concat(xs) == Concat(ys) && Sorted(Concat(ys))
    ensures xs == ys
    decreases |xs|
  {
    hide StopsAt, Less, Between, Concat, Parted;
    SomeConcat(rules, merged, xs, sx);
    SomeConcat(rules, merged, ys, sy);
    if xs != [] && ys != [] {
      NotCutEarlier(rules, merged, xs, sx, ys, sy);
      NotCutEarlier(rules, merged, ys, sy, xs, sx);
      ConcatFront(xs);
      ConcatFront(ys);
      var all, n := Concat(ys), |xs[0]|;
      assert xs[0] == all[..n] == ys[0] && Concat(xs[1..]) == all[n..] == Concat(ys[1..]);
      WellCutTail(rules, merged, xs, sx);
      WellCutTail(rules, merged, ys, sy);
      OneWellCut(rules, merged, xs[1..], sx[1..], ys[1..], sy[1..]);
      assert xs == [xs[0]] + xs[1..] && ys == [ys[0]] + ys[1..];
    }
  }
}

/** The compaction object and its main loop (db/version_set.cc, db/db_impl.cc). */
module CompactionWork {
  import opened InternalKeys
  import opened FlatSpec
  import opened Versions
  import opened CompactionRules
  import opened CutReasons

  /** All files of the input version below the output level. */
  function DeeperFiles(input: seq<seq<File>>, level: nat): set<File> {
    set l, f | level + 2 <= l < |input| && f in input[l] :: f
  }

  class Compaction {
    const level: nat
    const input: seq<seq<File>>
    const grandparents: seq<File>
    const maxGrandParentOverlap: nat
    const levelPtrs: array<nat>
    var grandparentIndex: nat
    var seenKey: bool
    var overlappedBytes: nat
    ghost var lastKey: Option<UserKey>

    constructor (level: nat, input: seq<seq<File>>, grandparents: seq<File>, maxGrandParentOverlap: nat)
      requires level + 1 < |input| == NUM_LEVELS
      requires forall l :: 0 < l < |input| ==> LevelSorted(input[l])
      ensures Valid() && Unused() && fresh(levelPtrs)
      ensures this.level == level && this.input == input
      ensures this.grandparents == grandparents && this.maxGrandParentOverlap == maxGrandParentOverlap
    {
      this.level, this.input := level, input;
      this.grandparents, this.maxGrandParentOverlap := grandparents, maxGrandParentOverlap;
      this.levelPtrs := new nat[NUM_LEVELS](_ => 0);
      grandparentIndex, seenKey, overlappedBytes := 0, false, 0;
      lastKey := None;
    }

    ghost predicate Unused()
      reads this
    {
      lastKey.None? && !seenKey && grandparentIndex == 0 && overlappedBytes == 0
    }

    /** Every file a level pointer has passed ends before the last key asked about. */
    ghost predicate Valid()
      reads this, levelPtrs
    {
      && level + 1 < |input| == NUM_LEVELS == levelPtrs.Length
      && (forall l :: 0 < l < |input| ==> LevelSorted(input[l]))
      && (forall l :: level + 2 <= l < |input| ==> Passed(l, lastKey))
      && grandparentIndex <= |grandparents|
    }

    ghost predicate Passed(l: nat, last: Option<UserKey>)
      requires l < |input| && l < levelPtrs.Length
      reads levelPtrs
    {
      && levelPtrs[l] <= |input[l]|
      && forall i :: 0 <= i < levelPtrs[l] ==> last.Some? && Largest(input[l][i]).user < last.value
    }

    /** Monotone scan over the deeper levels; for keys asked in ascending order it
        answers as a fresh scan of every deeper file would. */
    method IsBaseLevelForKey(k: UserKey) returns (base: bool)
      requires Valid() && (lastKey.Some? ==> lastKey.value <= k)
      modifies this`lastKey, levelPtrs
      ensures Valid() && lastKey == Some(k)
      ensures base <==> IsBase(DeeperFiles(input, level), k)
    {
      forall l | level + 2 <= l < |input| ensures Passed(l, Some(k)) {
        assert Passed(l, lastKey);
      }
      lastKey := Some(k);
      var lvl := level + 2;
      while lvl < NUM_LEVELS
        invariant level + 2 <= lvl && Valid() && lastKey == Some(k)
        invariant forall l, f :: level + 2 <= l < lvl && l < |input| && f in input[l] ==> !Covers(f, k)
      {
        var files := input[lvl];
        while levelPtrs[lvl] < |files|
          invariant Valid() && lastKey == Some(k)
          decreases |files| - levelPtrs[lvl]
        {
          var f := files[levelPtrs[lvl]];
          if k <= Largest(f).user {
            if k >= Smallest(f).user {
              assert f in input[lvl] && f in DeeperFiles(input, level);
              return false;
            }
            break;
          }
          label before:
          levelPtrs[lvl] := levelPtrs[lvl] + 1;
          forall l | level + 2 <= l < |input| ensures Passed(l, lastKey) {
            assert old@before(Passed(l, lastKey));
          }
        }
        assert Passed(lvl, lastKey);
        forall f | f in files ensures !Covers(f, k) {
          var i :| 0 <= i < |files| && files[i] == f;
          if levelPtrs[lvl] < i {
            CompareIsLexicographic(Largest(files[levelPtrs[lvl]]), Smallest(f));
            SmallestToLargest(files[levelPtrs[lvl]]);
          }
        }
        lvl := lvl + 1;
      }
      return true;
    }

    /** Output cutting by overlap with the grandparents: the bytes of every
        grandparent passed since the last cut are charged, once a key was seen. */
    method ShouldStopBefore(key: InternalKey) returns (stop: bool)
      requires Valid()
      modifies this`grandparentIndex, this`seenKey, this`overlappedBytes
      ensures Valid() && seenKey && old(grandparentIndex) <= grandparentIndex
      ensures grandparentIndex == PassedTo(grandparents, old(grandparentIndex), key)
      ensures var charged := TotalFileSize(grandparents[..grandparentIndex])
                             - TotalFileSize(grandparents[..old(grandparentIndex)]);
              var total := old(overlappedBytes) + if old(seenKey) then charged else 0;
              (stop <==> total > maxGrandParentOverlap) && overlappedBytes == if stop then 0 else total
    {
      while grandparentIndex < |grandparents| && Less(Largest(grandparents[grandparentIndex]), key)
        invariant old(grandparentIndex) <= grandparentIndex <= |grandparents| && Valid()
        invariant PassedTo(grandparents, grandparentIndex, key) == PassedTo(grandparents, old(grandparentIndex), key)
        invariant overlappedBytes == old(overlappedBytes) + if old(seenKey) then
          TotalFileSize(grandparents[..grandparentIndex]) - TotalFileSize(grandparents[..old(grandparentIndex)]) else 0
        invariant seenKey == old(seenKey)
        decreases |grandparents| - grandparentIndex
      {
        assert grandparents[..grandparentIndex+1][..grandparentIndex] == grandparents[..grandparentIndex];
        if seenKey {
          overlappedBytes := overlappedBytes + grandparents[grandparentIndex].size;
        }
        grandparentIndex := grandparentIndex + 1;
      }
      seenKey := true;
      if overlappedBytes > maxGrandParentOverlap {
        overlappedBytes := 0;
        return true;
      }
      return false;
    }
  }

  /** The two drop rules for one entry, given the last sequence number seen for its key. */
  method ShouldDrop(c: Compaction, ikey: InternalKey, lastSequenceForKey: nat, smallestSnapshot: nat)
    returns (drop: bool)
    requires c.Valid() && (c.lastKey.Some? ==> c.lastKey.value <= ikey.user)
    modifies c`lastKey, c.levelPtrs
    ensures c.Valid() && (c.lastKey == old(c.lastKey) || c.lastKey == Some(ikey.user))
    ensures drop <==> lastSequenceForKey <= smallestSnapshot ||
                      (ikey.kind.Deletion? && ikey.seqno <= smallestSnapshot && IsBase(DeeperFiles(c.input, c.level), ikey.user))
  {
    if lastSequenceForKey <= smallestSnapshot {
      drop := true;
    } else if ikey.kind.Deletion? && ikey.seqno <= smallestSnapshot {
      drop := c.IsBaseLevelForKey(ikey.user);
    } else {
      drop := false;
    }
  }

  lemma NothingKept(rules: CutRules, merged: seq<Entry>, smallest: nat, deeper: set<File>)
    ensures Kept(merged, 0, smallest, deeper) == [] && Concat([]) == [] && AllNonempty([])
    ensures CutAfter(rules, merged, 0, smallest, deeper) == Cutting([], [], 0, 0)
  {
  }

  /** One entry more: kept or dropped by what the entry before it was. */
  lemma NextKept(rules: CutRules, merged: seq<Entry>, i: nat, smallest: nat, deeper: set<File>)
    requires Sorted(merged) && i < |merged|
    ensures i > 0 ==> Less(merged[i-1].ikey, merged[i].ikey)
    ensures var drop :=
              || (i > 0 && merged[i-1].ikey.user == merged[i].ikey.user && merged[i-1].ikey.seqno <= smallest)
              || (merged[i].ikey.kind.Deletion? && merged[i].ikey.seqno <= smallest && IsBase(deeper, merged[i].ikey.user));
            var c := Stopped(rules, CutAfter(rules, merged, i, smallest, deeper), i > 0, merged[i].ikey);
            && Kept(merged, i + 1, smallest, deeper) == Kept(merged, i, smallest, deeper) + (if drop then [] else [merged[i]])
            && CutAfter(rules, merged, i + 1, smallest, deeper) == if drop then c else Added(rules, c, merged[i])
  {
    hide IsBase, Stopped, Added;
  }

  /** The loop's own state is that of the cutting. */
  ghost predicate Tracks(c: Compaction, rules: CutRules, cut: Cutting, outputs: seq<seq<Entry>>, builder: seq<Entry>, seen: bool)
    reads c
  {
    && rules.grandparents == c.grandparents && rules.maxOverlap == c.maxGrandParentOverlap
    && outputs == cut.closed && builder == cut.open
    && c.grandparentIndex == cut.passed && c.overlappedBytes == cut.bytes && c.seenKey == seen
  }

  /** The compaction loop over the merged input. `sizeOf` is the table builder's
      size estimate; the outputs hold exactly the kept entries, in order, cut where
      the size and grandparent rules say. */
  method DoCompactionWork(c: Compaction, merged: seq<Entry>, smallestSnapshot: nat,
                          maxOutputFileSize: nat, sizeOf: seq<Entry> -> nat)
    returns (outputs: seq<seq<Entry>>)
    requires c.Valid() && c.Unused() && Sorted(merged)
    requires smallestSnapshot < MAX_SEQUENCE_NUMBER
    modifies c, c.levelPtrs
    ensures outputs == Outputs(CutRules(c.grandparents, c.maxGrandParentOverlap, sizeOf, maxOutputFileSize),
                               merged, smallestSnapshot, DeeperFiles(c.input, c.level))
    ensures Concat(outputs) == Kept(merged, |merged|, smallestSnapshot, DeeperFiles(c.input, c.level))
    ensures AllNonempty(outputs)
    ensures LevelSorted(c.grandparents) ==>
              exists spans ::
                WellCut(CutRules(c.grandparents, c.maxGrandParentOverlap, sizeOf, maxOutputFileSize), merged, outputs, spans)
  {
    hide WellCut, LevelSorted, DeeperFiles, IsBase, Compaction.Valid;
    hide Kept, Dropped, Concat, AllNonempty, Sorted, CutAfter, Stopped, Added;
    ghost var rules := CutRules(c.grandparents, c.maxGrandParentOverlap, sizeOf, maxOutputFileSize);
    ghost var deeper := DeeperFiles(c.input, c.level);
    NothingKept(rules, merged, smallestSnapshot, deeper);
    outputs := [];
    var builder: seq<Entry> := [];
    var currentUserKey: Option<UserKey> := None;
    var lastSequenceForKey := MAX_SEQUENCE_NUMBER;
    var i := 0;
    while i < |merged|
      invariant 0 <= i <= |merged| && c.Valid() && AllNonempty(outputs)
      invariant currentUserKey == if i == 0 then None else Some(merged[i-1].ikey.user)
      invariant i > 0 ==> lastSequenceForKey == merged[i-1].ikey.seqno
      invariant c.lastKey.Some? ==> i > 0 && c.lastKey.value <= merged[i-1].ikey.user
      invariant Concat(outputs) + builder == Kept(merged, i, smallestSnapshot, deeper)
      invariant Tracks(c, rules, CutAfter(rules, merged, i, smallestSnapshot, deeper), outputs, builder, i > 0)
    {
      var ikey := merged[i].ikey;
      NextKept(rules, merged, i, smallestSnapshot, deeper);
      ghost var cut := CutAfter(rules, merged, i, smallestSnapshot, deeper);
      outputs, builder := StopBefore(c, outputs, builder, ikey, rules, cut, i > 0);
      if currentUserKey != Some(ikey.user) {
        currentUserKey := Some(ikey.user);
        lastSequenceForKey := MAX_SEQUENCE_NUMBER;
      }
      var drop := ShouldDrop(c, ikey, lastSequenceForKey, smallestSnapshot);
      lastSequenceForKey := ikey.seqno;
      if !drop {
        outputs, builder := AddOutput(outputs, builder, merged[i], sizeOf, maxOutputFileSize);
        AddedIs(rules, Stopped(rules, cut, i > 0, ikey), merged[i]);
      }
      i := i + 1;
    }
    if builder != [] {
      outputs := FinishOutput(outputs, builder);
    }
    if LevelSorted(c.grandparents) {
      ghost var spans := OutputsAreWellCut(rules, merged, smallestSnapshot, deeper);
    }
  }

  lemma AddedIs(rules: CutRules, cut: Cutting, e: Entry)
    ensures Added(rules, cut, e) ==
            if rules.sizeOf(cut.open + [e]) >= rules.maxSize then cut.(closed := cut.closed + [cut.open + [e]], open := [])
            else cut.(open := cut.open + [e])
  {
  }

  /** Ends the open output if it overlaps too many grandparents. */
  method StopBefore(c: Compaction, outputs: seq<seq<Entry>>, builder: seq<Entry>, key: InternalKey,
                    ghost rules: CutRules, ghost cut: Cutting, ghost seen: bool)
    returns (outputs': seq<seq<Entry>>, builder': seq<Entry>)
    requires c.Valid() && AllNonempty(outputs) && Tracks(c, rules, cut, outputs, builder, seen)
    modifies c`grandparentIndex, c`seenKey, c`overlappedBytes
    ensures c.Valid() && AllNonempty(outputs') && Concat(outputs') + builder' == Concat(outputs) + builder
    ensures cut.passed <= |rules.grandparents| && Tracks(c, rules, Stopped(rules, cut, seen, key), outputs', builder', true)
  {
    outputs', builder' := outputs, builder;
    var stop := c.ShouldStopBefore(key);
    if stop && builder != [] {
      outputs', builder' := FinishOutput(outputs, builder), [];
    }
  }

  /** Adds one entry to the open output, closing it when it is big enough. */
  method AddOutput(outputs: seq<seq<Entry>>, builder: seq<Entry>, e: Entry,
                   sizeOf: seq<Entry> -> nat, maxOutputFileSize: nat)
    returns (outputs': seq<seq<Entry>>, builder': seq<Entry>)
    requires AllNonempty(outputs)
    ensures AllNonempty(outputs') && Concat(outputs') + builder' == Concat(outputs) + builder + [e]
    ensures if sizeOf(builder + [e]) >= maxOutputFileSize then outputs' == outputs + [builder + [e]] && builder' == []
            else outputs' == outputs && builder' == builder + [e]
  {
    outputs', builder' := outputs, builder + [e];
    assert Concat(outputs) + (builder + [e]) == Concat(outputs) + builder + [e];
    if sizeOf(builder') >= maxOutputFileSize {
      outputs', builder' := FinishOutput(outputs, builder'), [];
    }
  }

  function FinishOutput(outputs: seq<seq<Entry>>, builder: seq<Entry>): (r: seq<seq<Entry>>)
    requires AllNonempty(outputs) && builder != []
    ensures r == outputs + [builder] && AllNonempty(r) && Concat(r) == Concat(outputs) + builder
  {
    assert (outputs + [builder])[..|outputs|] == outputs;
    outputs + [builder]
  }
}
