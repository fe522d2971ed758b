/** A compaction under way, seen as the setting whose hazard decides whether finishing it
    keeps every read (db/version_set.cc, db/db_impl.cc). */
module StoreHazards {
  import opened InternalKeys
  import opened FlatSpec
  import opened Versions
  import opened CompactionRules
  import opened CompactionInputs
  import opened BoundaryHazards
  import opened Store
  import opened StoreInvariants

  // ---------- a level in key order ----------

  ghost predicate IsLeftmost(fs: set<File>, f: File) {
    f in fs && forall g :: g in fs && g != f ==> Less(Largest(f), Smallest(g))
  }

  lemma LeftmostExists(fs: set<File>)
    requires LevelDisjoint(fs) && fs != {}
    ensures exists f :: IsLeftmost(fs, f)
  {
    var f :| f in fs;
    var rest := fs - {f};
    if rest == {} {
      assert fs == {f};
      assert IsLeftmost(fs, f);
    } else {
      LeftmostExists(rest);
      var m :| IsLeftmost(rest, m);
      LeftmostOfTwo(fs, f, m);
    }
  }

  lemma LeftmostOfTwo(fs: set<File>, f: File, m: File)
    requires LevelDisjoint(fs) && f in fs && m in fs && f != m && IsLeftmost(fs - {f}, m)
    ensures IsLeftmost(fs, f) || IsLeftmost(fs, m)
  {
    if Less(Largest(f), Smallest(m)) {
      forall g | g in fs && g != f ensures Less(Largest(f), Smallest(g)) {
        if g != m {
          SmallestToLargest(m);
          assert g in fs - {f};
          CompareIsLexicographic(Largest(f), Smallest(m));
          CompareIsLexicographic(Smallest(m), Largest(m));
          CompareIsLexicographic(Largest(m), Smallest(g));
          CompareIsLexicographic(Largest(f), Smallest(g));
        }
      }
      assert IsLeftmost(fs, f);
    } else {
      assert IsLeftmost(fs, m);
    }
  }

  ghost function InOrder(fs: set<File>): (s: seq<File>)
    requires LevelDisjoint(fs)
    ensures LevelSorted(s) && Files(s) == fs
  {
    if fs == {} then []
    else
      LeftmostExists(fs);
      var f :| IsLeftmost(fs, f);
      var rest := InOrder(fs - {f});
      LeftmostFirst(fs, f, rest);
      [f] + rest
  }

  lemma LeftmostFirst(fs: set<File>, f: File, rest: seq<File>)
    requires IsLeftmost(fs, f) && LevelSorted(rest) && Files(rest) == fs - {f}
    ensures LevelSorted([f] + rest) && Files([f] + rest) == fs
  {
    forall i | 0 <= i < |rest| ensures Less(Largest(f), Smallest(rest[i])) {
      assert rest[i] in Files(rest);
    }
    FilesCons(f, rest);
  }

  lemma FilesCons(f: File, rest: seq<File>)
    ensures Files([f] + rest) == {f} + Files(rest)
  {
    forall g | g in rest ensures g in [f] + rest {
      var i :| 0 <= i < |rest| && rest[i] == g;
      assert ([f] + rest)[i+1] == g;
    }
  }

  // ---------- the inputs as a stretch of the output level ----------

  ghost predicate Stretch(parents: seq<File>, in1: set<File>, lo: nat, hi: nat) {
    lo <= hi <= |parents| && Files(parents[lo..hi]) == in1
  }

  lemma StretchExists(parents: seq<File>, in1: set<File>)
    requires LevelSorted(parents) && in1 <= Files(parents)
    requires forall g :: g in Files(parents) - in1 ==> LeftOf(g, in1) || RightOf(g, in1)
    ensures exists lo, hi :: Stretch(parents, in1, lo, hi)
  {
    if in1 == {} {
      assert Stretch(parents, in1, 0, 0);
    } else {
      var lo, hi := FirstIn(parents, in1), LastIn(parents, in1);
      forall j | lo <= j < hi ensures parents[j] in in1 {
        if parents[j] !in in1 {
          assert parents[j] in Files(parents) - in1;
          NotBetween(parents, in1, lo, j, hi - 1);
        }
      }
      StretchOf(parents, in1, lo, hi);
    }
  }

  lemma StretchOf(parents: seq<File>, in1: set<File>, lo: nat, hi: nat)
    requires in1 <= Files(parents) && lo <= hi <= |parents|
    requires forall j :: 0 <= j < |parents| ==> (parents[j] in in1 <==> lo <= j < hi)
    ensures Stretch(parents, in1, lo, hi)
  {
    forall f | f in in1 ensures f in Files(parents[lo..hi]) {
      var i :| 0 <= i < |parents| && parents[i] == f;
      assert parents[lo..hi][i - lo] == f;
    }
  }

  ghost function FirstIn(parents: seq<File>, in1: set<File>): (lo: nat)
    requires in1 <= Files(parents) && in1 != {}
    ensures lo < |parents| && parents[lo] in in1 && forall i :: 0 <= i < lo ==> parents[i] !in in1
  {
    if parents[0] in in1 then 0
    else
      assert Files(parents) == {parents[0]} + Files(parents[1..]);
      1 + FirstIn(parents[1..], in1)
  }

  ghost function LastIn(parents: seq<File>, in1: set<File>): (hi: nat)
    requires in1 <= Files(parents) && in1 != {}
    ensures 0 < hi <= |parents| && parents[hi-1] in in1 && forall i :: hi <= i < |parents| ==> parents[i] !in in1
  {
    var n := |parents| - 1;
    if parents[n] in in1 then n + 1
    else
      assert Files(parents) == Files(parents[..n]) + {parents[n]};
      LastIn(parents[..n], in1)
  }

  lemma NotBetween(parents: seq<File>, in1: set<File>, lo: nat, j: nat, last: nat)
    requires LevelSorted(parents) && lo <= j <= last < |parents| && parents[lo] in in1 && parents[last] in in1
    ensures !LeftOf(parents[j], in1) && !RightOf(parents[j], in1)
  {
    SmallestToLargest(parents[j]);
    SmallestToLargest(parents[lo]);
    SmallestToLargest(parents[last]);
    CompareIsLexicographic(Largest(parents[j]), Smallest(parents[lo]));
    CompareIsLexicographic(Largest(parents[last]), Smallest(parents[j]));
    CompareIsLexicographic(Largest(parents[lo]), Smallest(parents[j]));
    CompareIsLexicographic(Largest(parents[j]), Smallest(parents[last]));
    CompareIsLexicographic(Smallest(parents[j]), Largest(parents[j]));
    CompareIsLexicographic(Smallest(parents[lo]), Largest(parents[lo]));
    CompareIsLexicographic(Smallest(parents[last]), Largest(parents[last]));
  }

  // ---------- the setting of a pending compaction ----------

  function Shallow(levels: seq<set<File>>, p: Pending): set<File>
    requires p.level < |levels|
  {
    (set l, f | 0 <= l < p.level && f in levels[l] :: f) + (levels[p.level] - p.in0)
  }

  ghost function Above(st: State, p: Pending): set<Entry>
    requires p.level + 1 < |st.levels|
  {
    st.mem + ImmEntries(st) + Contents(Shallow(st.levels, p)) + Contents(p.arrived) +
    Contents(Deeper(st.levels, p.level) - p.deeper)
  }

  ghost function HazardSetting(st: State): (c: Setting)
    requires Wf(st) && st.pending.Some?
    ensures c.InBounds() && c.in0 == st.pending.value.in0 && c.deeper == st.pending.value.deeper
    ensures c.Inputs() == Inputs(st.pending.value) && c.above == Above(st, st.pending.value)
    ensures LevelSorted(c.parents) && Files(c.parents) == st.levels[st.pending.value.level + 1] - st.pending.value.arrived
    ensures c.Stay1() == st.levels[st.pending.value.level + 1] - st.pending.value.in1 - st.pending.value.arrived
  {
    var p := st.pending.value;
    var parents := InOrder(st.levels[p.level + 1] - p.arrived);
    SidesOfIn1(st, p);
    StretchExists(parents, p.in1);
    var lo, hi :| Stretch(parents, p.in1, lo, hi);
    Setting(Above(st, p), p.in0, parents, lo, hi, p.deeper)
  }

  lemma SidesOfIn1(st: State, p: Pending)
    requires Wf(st) && WfPending(st.levels, p)
    ensures forall g :: g in st.levels[p.level + 1] - p.arrived - p.in1 ==> LeftOf(g, p.in1) || RightOf(g, p.in1)
  {
    hide Wf, NewerThan;
    forall g | g in st.levels[p.level + 1] - p.arrived - p.in1 ensures LeftOf(g, p.in1) || RightOf(g, p.in1) {
      assert LeftOf(g, p.in0 + p.in1) || RightOf(g, p.in0 + p.in1);
    }
  }

  // ---------- what the inputs leave behind ----------

  lemma InputsAreStored(st: State, p: Pending)
    requires Wf(st) && WfPending(st.levels, p)
    ensures All(st) == Outside(st, p) + Inputs(p)
  {
    var without := LevelsWithout(st.levels, p);
    forall e ensures e in FileEntries(st.levels) <==> e in FileEntries(without) + Inputs(p) {
      if e in FileEntries(st.levels) {
        var l, f :| 0 <= l < |st.levels| && f in st.levels[l] && e in f.entries;
        if l == p.level && f in p.in0 {
          assert e in Contents(p.in0);
        } else if l == p.level + 1 && f in p.in1 {
          assert e in Contents(p.in1);
        } else {
          assert f in without[l];
        }
      } else {
        NotStored(st.levels, p, e);
      }
    }
  }

  lemma NotStored(levels: seq<set<File>>, p: Pending, e: Entry)
    requires |levels| == NUM_LEVELS && WfPending(levels, p) && e !in FileEntries(levels)
    ensures e !in FileEntries(LevelsWithout(levels, p)) + Inputs(p)
  {
    var without := LevelsWithout(levels, p);
    forall l, f: File | 0 <= l < |without| && f in without[l] ensures e !in f.entries {
      assert f in levels[l];
    }
    forall f | f in p.in0 ensures e !in f.entries { assert f in levels[p.level]; }
    forall f | f in p.in1 ensures e !in f.entries { assert f in levels[p.level + 1]; }
  }

  lemma OutputsAreStored(st: State, p: Pending, outs: set<File>)
    requires Wf(st) && WfPending(st.levels, p)
    ensures st.mem + ImmEntries(st) + FileEntries(Installed(st.levels, p, outs)) == Outside(st, p) + Contents(outs)
  {
    var without, installed := LevelsWithout(st.levels, p), Installed(st.levels, p, outs);
    forall e | e in FileEntries(installed) ensures e in FileEntries(without) + Contents(outs) {
      var l, f: File :| 0 <= l < |installed| && f in installed[l] && e in f.entries;
      if f in without[l] {
        assert e in FileEntries(without);
      } else {
        assert f in outs;
      }
    }
    forall e | e in FileEntries(without) ensures e in FileEntries(installed) {
      var l, f: File :| 0 <= l < |without| && f in without[l] && e in f.entries;
      assert f in installed[l];
    }
    forall e | e in Contents(outs) ensures e in FileEntries(installed) {
      var f :| f in outs && e in f.entries;
      assert f in installed[p.level + 1];
    }
  }

  lemma NewerSharesNone(A: set<Entry>, B: set<Entry>, e: Entry)
    requires NewerThan(A, B) && e in A
    ensures e !in B
  {
  }

  lemma LevelsShareNone(levels: seq<set<File>>, l: nat, m: nat, e: Entry)
    requires WfLevelSets(levels) && l < |levels| && m < |levels| && l != m && e in Contents(levels[l])
    ensures e !in Contents(levels[m])
  {
    if l < m {
      NewerSharesNone(Contents(levels[l]), Contents(levels[m]), e);
    } else {
      assert NewerThan(Contents(levels[m]), Contents(levels[l]));
    }
  }

  lemma FileOutsideIn0(levels: seq<set<File>>, p: Pending, l: nat, g: File, e: Entry)
    requires WfLevelSets(levels) && WfPending(levels, p) && l < |levels|
    requires g in LevelsWithout(levels, p)[l] && e in g.entries
    ensures e !in Contents(p.in0)
  {
    if l == p.level {
      NewerSharesNone(Contents(levels[p.level] - p.in0), Contents(p.in0), e);
    } else if l == p.level + 1 {
      forall f | f in p.in0 ensures e !in f.entries {
        if e in f.entries { DisjointRangesShareNoKey(f, g, e, e); }
      }
    } else {
      assert e in Contents(levels[l]);
      LevelsShareNone(levels, l, p.level, e);
      ContentsMono(p.in0, levels[p.level]);
    }
  }

  lemma FileOutsideIn1(levels: seq<set<File>>, p: Pending, l: nat, g: File, e: Entry)
    requires WfLevelSets(levels) && WfPending(levels, p) && l < |levels|
    requires g in LevelsWithout(levels, p)[l] && e in g.entries
    ensures e !in Contents(p.in1)
  {
    if l == p.level + 1 {
      forall f | f in p.in1 ensures e !in f.entries {
        SidesShareNoEntry(g, f, e);
      }
    } else {
      assert g in levels[l] && e in Contents(levels[l]);
      LevelsShareNone(levels, l, p.level + 1, e);
      ContentsMono(p.in1, levels[p.level + 1]);
    }
  }

  lemma SidesShareNoEntry(g: File, f: File, e: Entry)
    requires e in g.entries
    ensures Less(Largest(g), Smallest(f)) || Less(Largest(f), Smallest(g)) ==> e !in f.entries
  {
    if e in f.entries {
      EntryInRange(f, e);
      EntryInRange(g, e);
      CompareIsLexicographic(Largest(g), Smallest(f));
      CompareIsLexicographic(Largest(f), Smallest(g));
      CompareIsLexicographic(Largest(g), e.ikey);
      CompareIsLexicographic(Largest(f), e.ikey);
      CompareIsLexicographic(e.ikey, Smallest(f));
      CompareIsLexicographic(e.ikey, Smallest(g));
    }
  }

  lemma OutsideIsDisjoint(st: State, p: Pending)
    requires Wf(st) && WfPending(st.levels, p)
    ensures Outside(st, p) !! Inputs(p)
  {
    MemoryParts(st);
    forall e | e in Inputs(p) ensures e !in Outside(st, p) {
      InputWritten(st, p, e);
      var without := LevelsWithout(st.levels, p);
      forall l, g: File | 0 <= l < |without| && g in without[l] ensures e !in g.entries {
        if e in g.entries {
          FileOutsideIn0(st.levels, p, l, g, e);
          FileOutsideIn1(st.levels, p, l, g, e);
        }
      }
    }
  }


  lemma OutsideIsRest(st: State)
    requires Wf(st) && st.pending.Some?
    ensures Outside(st, st.pending.value) == HazardSetting(st).Rest()
  {
    var p, c := st.pending.value, HazardSetting(st);
    forall e | e in FileEntries(LevelsWithout(st.levels, p)) ensures e in c.Rest() {
      OutsideInRest(st, p, c, e);
    }
    forall e | e in c.Rest() ensures e in Outside(st, p) {
      RestInOutside(st, p, c, e);
    }
  }

  lemma OutsideInRest(st: State, p: Pending, c: Setting, e: Entry)
    requires Wf(st) && WfPending(st.levels, p) && c.InBounds() && c.deeper == p.deeper
    requires c.above == Above(st, p) && c.Stay1() == st.levels[p.level + 1] - p.in1 - p.arrived
    requires e in FileEntries(LevelsWithout(st.levels, p))
    ensures e in c.Rest()
  {
    var without := LevelsWithout(st.levels, p);
    var l, f: File :| 0 <= l < |without| && f in without[l] && e in f.entries;
    OutsideFile(st, p, l, f);
    if f in c.Stay1() {
      assert e in Contents(c.Stay1());
    } else if f in p.deeper {
      assert e in Contents(p.deeper);
    }
  }

  lemma RestInOutside(st: State, p: Pending, c: Setting, e: Entry)
    requires Wf(st) && WfPending(st.levels, p) && c.InBounds() && c.deeper == p.deeper
    requires c.above == Above(st, p) && c.Stay1() == st.levels[p.level + 1] - p.in1 - p.arrived
    requires e in c.Rest()
    ensures e in Outside(st, p)
  {
    hide Shallow, Deeper, LevelsWithout, NewerThan;
    if e in Contents(Shallow(st.levels, p)) {
      var f :| f in Shallow(st.levels, p) && e in f.entries;
      FileIsOutside(st, p, f, e);
    } else if e in Contents(c.Stay1()) {
      var f :| f in c.Stay1() && e in f.entries;
      FileIsOutside(st, p, f, e);
    } else if e in Contents(p.arrived) {
      var f :| f in p.arrived && e in f.entries;
      FileIsOutside(st, p, f, e);
    } else if e !in st.mem + ImmEntries(st) {
      var f :| f in Deeper(st.levels, p.level) && e in f.entries;
      FileIsOutside(st, p, f, e);
    }
  }

  lemma FileIsOutside(st: State, p: Pending, f: File, e: Entry)
    requires Wf(st) && WfPending(st.levels, p) && e in f.entries
    requires f in Shallow(st.levels, p) || f in st.levels[p.level + 1] - p.in1 || f in Deeper(st.levels, p.level)
    ensures e in Outside(st, p)
  {
    var l := LevelOutside(st, p, f);
    assert e in FileEntries(LevelsWithout(st.levels, p));
  }

  lemma OutsideFile(st: State, p: Pending, l: nat, f: File)
    requires Wf(st) && WfPending(st.levels, p) && l < |st.levels| && f in LevelsWithout(st.levels, p)[l]
    ensures f in Shallow(st.levels, p) || f in st.levels[p.level + 1] - p.in1 || f in Deeper(st.levels, p.level)
  {
    hide Wf;
  }

  lemma LevelOutside(st: State, p: Pending, f: File) returns (l: nat)
    requires Wf(st) && WfPending(st.levels, p)
    requires f in Shallow(st.levels, p) || f in st.levels[p.level + 1] - p.in1 || f in Deeper(st.levels, p.level)
    ensures l < |st.levels| && f in LevelsWithout(st.levels, p)[l]
  {
    hide Wf;
    if exists m :: 0 <= m < p.level && f in st.levels[m] {
      l :| 0 <= l < p.level && f in st.levels[l];
    } else if f in st.levels[p.level] - p.in0 {
      l := p.level;
    } else if f in st.levels[p.level + 1] - p.in1 {
      l := p.level + 1;
    } else {
      l :| p.level + 2 <= l < |st.levels| && f in st.levels[l];
    }
  }

  lemma AboveIsNewer(st: State)
    requires Wf(st) && st.pending.Some?
    ensures NewerThan(Above(st, st.pending.value), Inputs(st.pending.value))
  {
    var p := st.pending.value;
    StoreParts(st);
    forall a, b | a in Above(st, p) && b in Inputs(p) && a.ikey.user == b.ikey.user ensures a.ikey.seqno > b.ikey.seqno {
      InputLevel(st, p, b);
      if a !in st.mem + ImmEntries(st) && a !in Contents(p.arrived) && a !in Contents(Deeper(st.levels, p.level) - p.deeper) {
        var f :| f in Shallow(st.levels, p) && a in f.entries;
        ShallowIsNewer(st, p, f, a, b);
      }
    }
  }

  lemma InputLevel(st: State, p: Pending, b: Entry)
    requires Wf(st) && WfPending(st.levels, p) && b in Inputs(p)
    ensures b in FileEntries(st.levels)
    ensures b in Contents(p.in0) || b in Contents(st.levels[p.level + 1])
    ensures b in Contents(p.in0) ==> b in Contents(st.levels[p.level])
  {
    var f :| (f in p.in0 || f in p.in1) && b in f.entries;
    assert f in st.levels[p.level] || f in st.levels[p.level + 1];
  }

  lemma ShallowIsNewer(st: State, p: Pending, f: File, a: Entry, b: Entry)
    requires Wf(st) && WfPending(st.levels, p) && f in Shallow(st.levels, p) && a in f.entries && b in Inputs(p)
    requires a.ikey.user == b.ikey.user
    ensures a.ikey.seqno > b.ikey.seqno
  {
    InputLevel(st, p, b);
    if f in st.levels[p.level] - p.in0 {
      assert a in Contents(st.levels[p.level] - p.in0) && a in Contents(st.levels[p.level]);
      assert NewerThan(Contents(st.levels[p.level]), Contents(st.levels[p.level + 1]));
    } else {
      var l :| 0 <= l < p.level && f in st.levels[l];
      assert a in Contents(st.levels[l]);
      assert NewerThan(Contents(st.levels[l]), Contents(st.levels[p.level]));
      assert NewerThan(Contents(st.levels[l]), Contents(st.levels[p.level + 1]));
    }
  }

  lemma SettingIsWf(st: State)
    requires Wf(st) && st.pending.Some?
    ensures HazardSetting(st).Wf()
  {
    var p, c := st.pending.value, HazardSetting(st);
    OutsideIsRest(st);
    InputsAreStored(st, p);
    OutsideIsDisjoint(st, p);
    StoreParts(st);
    AboveIsNewer(st);
  }

  /** Finishing a compaction keeps every read from its smallest snapshot up if and only if
      the right edge of its level+1 inputs is not hazardous. */
  lemma FinishSafeIff(st: State, outs: set<File>)
    requires Wf(st) && Enabled(st, FinishCompaction(outs))
    ensures ReadsAgree(All(Apply(st, FinishCompaction(outs))), All(st), st.pending.value.smallest)
            <==> !HazardSetting(st).Hazard(st.pending.value.smallest)
  {
    var p := st.pending.value;
    SettingIsWf(st);
    OutsideIsRest(st);
    InputsAreStored(st, p);
    OutputsAreStored(st, p, outs);
    CompactionSafeIff(HazardSetting(st), p.smallest);
  }

  lemma RightEdge(c: Setting)
    requires c.InBounds() && LevelSorted(c.parents)
    ensures c.lo < c.hi < |c.parents| ==>
              c.parents[c.hi-1] in Files(c.parents[c.lo..c.hi]) && c.parents[c.hi] in c.Stay1() &&
              Less(Largest(c.parents[c.hi-1]), Smallest(c.parents[c.hi]))
  {
    HiStays(c);
    if c.lo < c.hi < |c.parents| {
      assert c.parents[c.hi-1] == c.parents[c.lo..c.hi][c.hi - 1 - c.lo];
    }
  }

  /** A sufficient guard: no user key continues from a level+1 input into a file left there. */
  lemma NoBoundaryNoHazard(c: Setting, smallest: nat)
    requires c.InBounds() && LevelSorted(c.parents)
    requires forall f, g :: f in Files(c.parents[c.lo..c.hi]) && g in c.Stay1() ==> !IsBoundary(g, Largest(f))
    ensures !c.Hazard(smallest)
  {
    RightEdge(c);
  }
}
