/** When the missing boundary extension of the level+1 inputs matters
    (db/version_set.cc extends only the inputs of the level itself). */
module BoundaryHazards {
  import opened InternalKeys
  import opened FlatSpec
  import opened Versions
  import opened Sequences
  import opened OverlapSearch
  import opened CompactionRules
  import opened CompactionInputs

  /** A compaction seen from level+1: `parents[lo..hi]` go in together with `in0`,
      `above` holds every entry outside the inputs that is shallower than level+1,
      `deeper` the files below it. */
  datatype Setting = Setting(above: set<Entry>, in0: set<File>, parents: seq<File>, lo: nat, hi: nat, deeper: set<File>)
  {
    predicate InBounds() { lo <= hi <= |parents| }

    function Inputs(): set<Entry>
      requires InBounds()
    {
      Contents(in0) + Contents(Files(parents[lo..hi]))
    }

    function Stay1(): set<File>
      requires InBounds()
    {
      Files(parents) - Files(parents[lo..hi])
    }

    function Rest(): set<Entry>
      requires InBounds()
    {
      above + Contents(Stay1()) + Contents(deeper)
    }

    /** The inputs with everything above them or to their left in level+1. */
    function Near(): set<Entry>
      requires InBounds()
    {
      above + Contents(Files(parents[..lo])) + Inputs()
    }

    ghost predicate Wf() {
      && InBounds()
      && LevelSorted(parents)
      && UniqueSeq(Rest() + Inputs())
      && Rest() !! Inputs()
      && NewerThan(above, Inputs())
      && (forall f, g :: f in in0 && g in Stay1() ==> RangesDisjoint(f, g))
    }

    /** The user key of the last level+1 input goes on in the next, unselected file;
        that file opens with a value; and the newest entry of the key that the
        smallest snapshot sees in the inputs, above them or left of them is an
        input deletion marker which no deeper file protects. */
    ghost predicate Hazard(smallest: nat)
      requires InBounds()
    {
      && lo < hi < |parents|
      && var k := Smallest(parents[hi]).user;
      && Largest(parents[hi-1]).user == k
      && parents[hi].entries[0].ikey.kind.Value?
      && IsBase(deeper, k)
      && exists x :: x in Inputs() && x.ikey.kind.Deletion? && IsNewest(Near(), k, smallest, x)
    }
  }

  lemma ParentEntriesUnique(c: Setting)
    requires c.Wf()
    ensures UniqueSeq(Contents(Files(c.parents)))
  {
    forall e | e in Contents(Files(c.parents)) ensures e in c.Rest() + c.Inputs() {
      var f :| f in Files(c.parents) && e in f.entries;
      assert f in c.Stay1() || f in Files(c.parents[c.lo..c.hi]);
    }
  }

  /** Where an input marker and an entry left behind share a user key, the marker sits
      in a level+1 input and the entry to its left or to its right. */
  lemma MarkerPlace(c: Setting, x: Entry, y: Entry) returns (m: nat, j: nat)
    requires c.Wf() && x in c.Inputs() && y in Contents(c.Stay1()) && x.ikey.user == y.ikey.user
    ensures c.lo <= m < c.hi && x in c.parents[m].entries
    ensures j < |c.parents| && (j < c.lo || c.hi <= j) && y in c.parents[j].entries
  {
    var g :| g in c.Stay1() && y in g.entries;
    j := IndexOutside(c.parents, c.lo, c.hi, g);
    if x in Contents(c.in0) {
      var f :| f in c.in0 && x in f.entries;
      DisjointRangesShareNoKey(f, g, x, y);
      assert false;
    }
    var f :| f in Files(c.parents[c.lo..c.hi]) && x in f.entries;
    m := IndexInside(c.parents, c.lo, c.hi, f);
  }

  lemma BaseKeyHasNoDeeperEntry(deeper: set<File>, k: UserKey, e: Entry)
    requires IsBase(deeper, k) && e in Contents(deeper)
    ensures e.ikey.user != k
  {
    var f :| f in deeper && e in f.entries;
    EntryInRange(f, e);
  }

  lemma FirstEntryIsNewestOfFile(f: File, e: Entry)
    requires e in f.entries && e.ikey.user == f.entries[0].ikey.user
    ensures e == f.entries[0] || Less(f.entries[0].ikey, e.ikey)
    ensures e.ikey.seqno <= f.entries[0].ikey.seqno
  {
    var i :| 0 <= i < |f.entries| && f.entries[i] == e;
    if i > 0 {
      assert Less(f.entries[0].ikey, f.entries[i].ikey);
      CompareIsLexicographic(f.entries[0].ikey, e.ikey);
    }
  }

  lemma ExposedSits(c: Setting, smallest: nat, x: Entry, y: Entry)
    requires c.InBounds() && NewerThan(c.above, c.Inputs())
    requires Exposes(c.Rest(), c.Inputs(), smallest, c.deeper, x, y)
    ensures y in Contents(c.Stay1())
  {
    assert y !in c.above;
    if y in Contents(c.deeper) { BaseKeyHasNoDeeperEntry(c.deeper, x.ikey.user, y); }
  }

  /** An older entry of `x`'s key behind the inputs puts a no-newer one at the head of file `hi`. */
  lemma NextFileContinuesKey(parents: seq<File>, m: nat, hi: nat, j: nat, x: Entry, y: Entry)
    requires LevelSorted(parents) && UniqueSeq(Contents(Files(parents)))
    requires m < hi <= j < |parents| && x in parents[m].entries && y in parents[j].entries
    requires x.ikey.user == y.ikey.user
    ensures Largest(parents[hi-1]).user == Smallest(parents[hi]).user == x.ikey.user
    ensures y.ikey.seqno <= parents[hi].entries[0].ikey.seqno < x.ikey.seqno
  {
    LaterSameKeyMeansBoundary(parents, m, hi, j, x, y);
    var z := parents[hi].entries[0];
    EarlierFileIsNewer(parents, m, hi, x, z);
    if j == hi {
      FirstEntryIsNewestOfFile(parents[j], y);
    } else {
      EarlierFileIsNewer(parents, hi, j, z, y);
    }
  }

  lemma NewestOfSubset(A: set<Entry>, B: set<Entry>, k: UserKey, s: nat, x: Entry)
    requires B <= A && x in B && IsNewest(A, k, s, x)
    ensures IsNewest(B, k, s, x)
  {
  }

  lemma NearIsInStore(c: Setting)
    requires c.InBounds() && LevelSorted(c.parents)
    ensures c.Near() <= c.Rest() + c.Inputs()
  {
    LeftPartStays(c);
    assert Contents(Files(c.parents[..c.lo])) <= Contents(c.Stay1());
  }

  lemma NextHeadIsExposed(c: Setting, k: UserKey, s: nat, y: Entry)
    requires c.InBounds() && LevelSorted(c.parents) && UniqueSeq(c.Rest())
    requires IsNewest(c.Rest(), k, s, y) && c.hi < |c.parents|
    requires var z := c.parents[c.hi].entries[0]; Sees(z, k, s) && y.ikey.seqno <= z.ikey.seqno
    ensures y == c.parents[c.hi].entries[0]
  {
    HiStays(c);
    EntryOfFile(c.Stay1(), c.parents[c.hi], c.parents[c.hi].entries[0]);
  }

  lemma EntryOfFile(fs: set<File>, f: File, e: Entry)
    requires f in fs && e in f.entries
    ensures e in Contents(fs)
  {
  }

  lemma ExposureSeen(c: Setting, m: nat, j: nat, x: Entry, y: Entry)
    requires c.InBounds() && LevelSorted(c.parents) && UniqueSeq(c.Rest()) && UniqueSeq(Contents(Files(c.parents)))
    requires c.lo <= m < c.hi && x in c.parents[m].entries
    requires j < |c.parents| && (j < c.lo || c.hi <= j) && y in c.parents[j].entries
    requires y.ikey.seqno <= x.ikey.seqno && IsNewest(c.Rest(), x.ikey.user, x.ikey.seqno, y)
    ensures c.hi < |c.parents| && y == c.parents[c.hi].entries[0]
    ensures Largest(c.parents[c.hi-1]).user == Smallest(c.parents[c.hi]).user == x.ikey.user
  {
    hide UniqueSeq, Less;
    if j < c.lo { EarlierFileIsNewer(c.parents, j, m, y, x); }
    NextFileContinuesKey(c.parents, m, c.hi, j, x, y);
    var z := c.parents[c.hi].entries[0];
    assert Sees(z, x.ikey.user, x.ikey.seqno) && y.ikey.seqno <= z.ikey.seqno;
    NextHeadIsExposed(c, x.ikey.user, x.ikey.seqno, y);
  }

  /** An exposure is always the hazard at the right edge of the level+1 inputs. */
  lemma ExposureIsHazard(c: Setting, smallest: nat, x: Entry, y: Entry)
    requires c.Wf() && Exposes(c.Rest(), c.Inputs(), smallest, c.deeper, x, y)
    ensures c.Hazard(smallest)
  {
    ExposedSits(c, smallest, x, y);
    ParentEntriesUnique(c);
    var m, j := MarkerPlace(c, x, y);
    ExposureSeen(c, m, j, x, y);
    NearIsInStore(c);
    NewestOfSubset(c.Rest() + c.Inputs(), c.Near(), x.ikey.user, smallest, x);
  }

  lemma HiStays(c: Setting)
    requires c.InBounds() && LevelSorted(c.parents)
    ensures c.hi < |c.parents| ==> c.parents[c.hi] in c.Stay1()
  {
    if c.hi < |c.parents| && c.parents[c.hi] in Files(c.parents[c.lo..c.hi]) {
      var m := IndexInside(c.parents, c.lo, c.hi, c.parents[c.hi]);
      LargestAscend(c.parents, m, c.hi);
    }
  }

  lemma LeftPartStays(c: Setting)
    requires c.InBounds() && LevelSorted(c.parents)
    ensures Files(c.parents[..c.lo]) <= c.Stay1()
  {
    forall g | g in Files(c.parents[..c.lo]) ensures g in c.Stay1() {
      var i :| 0 <= i < c.lo && c.parents[..c.lo][i] == g;
      if g in Files(c.parents[c.lo..c.hi]) {
        var m := IndexInside(c.parents, c.lo, c.hi, g);
        LargestAscend(c.parents, i, m);
      }
    }
  }

  /** Every entry of the marker's key outside the inputs is newer and near, or no newer than `z`. */
  lemma RestOfMarkerKey(c: Setting, m: nat, x: Entry, z: Entry, d: Entry)
    requires c.Wf() && c.lo <= m < c.hi < |c.parents| && x in c.parents[m].entries && x in c.Inputs()
    requires z == c.parents[c.hi].entries[0] && z.ikey.user == x.ikey.user && IsBase(c.deeper, x.ikey.user)
    requires d in c.Rest() && d.ikey.user == x.ikey.user
    ensures (d.ikey.seqno > x.ikey.seqno && d in c.Near()) || d.ikey.seqno <= z.ikey.seqno
  {
    ParentEntriesUnique(c);
    if d !in c.above {
      if d in Contents(c.deeper) {
        BaseKeyHasNoDeeperEntry(c.deeper, x.ikey.user, d);
      }
      var m', j := MarkerPlace(c, x, d);
      StayEntry(c, m', j, x, z, d);
    }
  }

  lemma MarkerBeforeHead(c: Setting, x: Entry) returns (m: nat)
    requires c.Wf() && c.hi < |c.parents| && x in c.Inputs() && x.ikey.user == Smallest(c.parents[c.hi]).user
    ensures c.lo <= m < c.hi && x in c.parents[m].entries
    ensures c.parents[c.hi].entries[0] in c.Rest()
    ensures c.parents[c.hi].entries[0].ikey.seqno < x.ikey.seqno
  {
    HiStays(c);
    ParentEntriesUnique(c);
    var z := c.parents[c.hi].entries[0];
    EntryOfFile(c.Stay1(), c.parents[c.hi], z);
    var j;
    m, j := MarkerPlace(c, x, z);
    EarlierFileIsNewer(c.parents, m, c.hi, x, z);
  }

  lemma MarkerKeyOutside(c: Setting, m: nat, x: Entry)
    requires c.Wf() && c.lo <= m < c.hi < |c.parents| && x in c.parents[m].entries && x in c.Inputs()
    requires Smallest(c.parents[c.hi]).user == x.ikey.user && IsBase(c.deeper, x.ikey.user)
    ensures forall d :: d in c.Rest() && d.ikey.user == x.ikey.user ==>
              (d.ikey.seqno > x.ikey.seqno && d in c.Near()) || d.ikey.seqno <= Smallest(c.parents[c.hi]).seqno
  {
    forall d | d in c.Rest() && d.ikey.user == x.ikey.user
      ensures (d.ikey.seqno > x.ikey.seqno && d in c.Near()) || d.ikey.seqno <= Smallest(c.parents[c.hi]).seqno
    {
      RestOfMarkerKey(c, m, x, c.parents[c.hi].entries[0], d);
    }
  }

  /** And the hazard does expose the value next door. */
  lemma HazardExposes(c: Setting, smallest: nat, x: Entry)
    requires c.Wf() && c.Hazard(smallest)
    requires x in c.Inputs() && x.ikey.kind.Deletion?
    requires IsNewest(c.Near(), Smallest(c.parents[c.hi]).user, smallest, x)
    ensures Exposes(c.Rest(), c.Inputs(), smallest, c.deeper, x, c.parents[c.hi].entries[0])
  {
    var m := MarkerBeforeHead(c, x);
    MarkerKeyOutside(c, m, x);
    MarkerOverValue(c.Rest(), c.Inputs(), c.Near(), smallest, x, c.parents[c.hi].entries[0]);
  }

  lemma MarkerOverValue(Rest: set<Entry>, In: set<Entry>, Near: set<Entry>, smallest: nat, x: Entry, z: Entry)
    requires x in In && In <= Near && z in Rest && Sees(z, x.ikey.user, x.ikey.seqno)
    requires z.ikey.seqno < x.ikey.seqno && IsNewest(Near, x.ikey.user, smallest, x)
    requires forall d :: d in Rest && d.ikey.user == x.ikey.user ==>
               (d.ikey.seqno > x.ikey.seqno && d in Near) || d.ikey.seqno <= z.ikey.seqno
    ensures IsNewest(Rest + In, x.ikey.user, smallest, x)
    ensures IsNewest(Rest, x.ikey.user, x.ikey.seqno, z)
  {
  }

  lemma StayEntry(c: Setting, m: nat, j: nat, x: Entry, z: Entry, d: Entry)
    requires c.Wf() && c.lo <= m < c.hi < |c.parents| && x in c.parents[m].entries
    requires z == c.parents[c.hi].entries[0] && d.ikey.user == x.ikey.user == z.ikey.user
    requires j < |c.parents| && (j < c.lo || c.hi <= j) && d in c.parents[j].entries
    ensures j < c.lo ==> d.ikey.seqno > x.ikey.seqno && d in Contents(Files(c.parents[..c.lo]))
    ensures c.hi <= j ==> d.ikey.seqno <= z.ikey.seqno < x.ikey.seqno
  {
    ParentEntriesUnique(c);
    if j < c.lo {
      EarlierFileIsNewer(c.parents, j, m, d, x);
      assert c.parents[..c.lo][j] == c.parents[j];
    } else {
      EarlierFileIsNewer(c.parents, m, c.hi, x, z);
      if j == c.hi {
        FirstEntryIsNewestOfFile(c.parents[j], d);
      } else {
        EarlierFileIsNewer(c.parents, c.hi, j, z, d);
      }
    }
  }

  /** The exact condition: a compaction keeps every read at or above the smallest
      snapshot if and only if the edge between its level+1 inputs and the next
      file is not hazardous. */
  lemma CompactionSafeIff(c: Setting, smallest: nat)
    requires c.Wf()
    ensures ReadsAgree(c.Rest() + Survivors(c.Inputs(), smallest, c.deeper), c.Rest() + c.Inputs(), smallest)
            <==> !c.Hazard(smallest)
  {
    CompactionPreservesReadsIff(c.Rest(), c.Inputs(), smallest, c.deeper);
    if c.Hazard(smallest) {
      var x :| x in c.Inputs() && x.ikey.kind.Deletion? &&
               IsNewest(c.Near(), Smallest(c.parents[c.hi]).user, smallest, x);
      HazardExposes(c, smallest, x);
    }
    if exists x, y :: Exposes(c.Rest(), c.Inputs(), smallest, c.deeper, x, y) {
      var x, y :| Exposes(c.Rest(), c.Inputs(), smallest, c.deeper, x, y);
      ExposureIsHazard(c, smallest, x, y);
    }
  }

  // ---------- the hazard is real ----------

  function Put(k: UserKey, s: nat, v: UserValue): Entry {
    Entry(InternalKey(k, s, Value), v)
  }

  function Del(k: UserKey, s: nat): Entry {
    Entry(InternalKey(k, s, Deletion), "")
  }

  const CHILD: File := TableFile(6, 1, [Put(0, 5, "new")])
  const LEFT: File := TableFile(4, 3, [Put(0, 4, "newer"), Put(0, 2, "older"), Del(1, 3)])
  const RIGHT: File := TableFile(5, 1, [Put(1, 1, "deleted")])

  lemma ExampleContents()
    ensures Contents({CHILD}) == {Put(0, 5, "new")}
    ensures Contents({LEFT}) == {Put(0, 4, "newer"), Put(0, 2, "older"), Del(1, 3)}
    ensures Contents({RIGHT}) == {Put(1, 1, "deleted")}
  {
    assert Put(0, 5, "new") in CHILD.entries && Put(1, 1, "deleted") in RIGHT.entries;
    assert LEFT.entries[0] in LEFT.entries && LEFT.entries[1] in LEFT.entries && LEFT.entries[2] in LEFT.entries;
  }

  lemma ExampleOverlap()
    ensures Overlapping([LEFT, RIGHT], Range(Some(0), Some(0))) == [LEFT]
  {
    var r := Range(Some(0), Some(0));
    assert [LEFT, RIGHT][..1] == [LEFT] && [LEFT][..0] == [];
    assert Overlapping([LEFT], r) == [LEFT];
  }

  /** Key 1 was deleted at 3 and its old value sits in the next file. Compacting the
      child selects only the left parent ... */
  lemma SelectionMissesBoundary()
    ensures LevelSorted([LEFT, RIGHT])
    ensures Overlapping([LEFT, RIGHT], Range(Some(Smallest(CHILD).user), Some(Largest(CHILD).user))) == [LEFT]
    ensures SelectedFrom([CHILD], [LEFT, RIGHT], [CHILD], [LEFT])
  {
    ExampleOverlap();
    assert IsHull([CHILD], 0, 0) by { assert CHILD in [CHILD]; }
    ParentsCompleteSelection([LEFT, RIGHT], [CHILD], 0, 0);
    assert Contents(Files([CHILD]) - Files([CHILD])) == {};
  }

  /** ... which drops the marker, so that key 1 reads as its deleted value again. */
  lemma DroppedMarkerRevives()
    ensures var In := Contents({CHILD}) + Contents({LEFT});
            Read(Contents({RIGHT}) + In, 1, 5) == None &&
            Read(Contents({RIGHT}) + Survivors(In, 5, {}), 1, 5) == Some("deleted")
  {
    ExampleContents();
    var x, y := Del(1, 3), Put(1, 1, "deleted");
    var In := Contents({CHILD}) + Contents({LEFT});
    NewestIs(Contents({RIGHT}) + In, 1, 5, x);
    var Out := Survivors(In, 5, {});
    assert Obsolete(x, 5, {}) && x !in Out && Out <= In;
    NewestIs(Contents({RIGHT}) + Out, 1, 5, y);
  }
}
