/** Every step keeps the store well formed and faithful to its history. */
module StoreInvariants {
  import opened InternalKeys
  import opened FlatSpec
  import opened Versions
  import opened CompactionRules
  import opened CompactionInputs
  import opened Store

  // ---------- the history and its parts ----------

  lemma HistoryUnique(hist: seq<Entry>)
    requires Numbered(hist)
    ensures UniqueSeq(Elems(hist))
  {
  }

  ghost predicate Earlier(A: set<Entry>, B: set<Entry>) {
    forall a, b :: a in A && b in B ==> a.ikey.seqno < b.ikey.seqno
  }

  lemma EarlierIsOlder(A: set<Entry>, B: set<Entry>)
    requires Earlier(A, B)
    ensures NewerThan(B, A) && A !! B
  {
  }

  lemma HistorySplit(hist: seq<Entry>, n: nat)
    requires Numbered(hist) && n <= |hist|
    ensures Elems(hist[..n]) <= Elems(hist) && Elems(hist[n..]) <= Elems(hist)
    ensures Earlier(Elems(hist[..n]), Elems(hist[n..]))
  {
  }

  lemma HistorySlice(hist: seq<Entry>, lo: nat, hi: nat)
    requires Numbered(hist) && lo <= hi <= |hist|
    ensures Elems(hist[lo..hi]) <= Elems(hist)
    ensures Earlier(Elems(hist[..lo]), Elems(hist[lo..hi])) && Earlier(Elems(hist[lo..hi]), Elems(hist[hi..]))
    ensures Earlier(Elems(hist[..lo]), Elems(hist[hi..]))
  {
  }

  lemma HistoryUpTo(hist: seq<Entry>, last: nat)
    requires NumberedUpTo(hist, last)
    ensures forall e :: e in Elems(hist) ==> e.ikey.seqno <= last
  {
  }

  lemma FileEntriesOld(st: State)
    requires Wf(st)
    ensures FileEntries(st.levels) <= Elems(st.hist[..st.flushed]) <= Elems(st.hist)
  {
    forall e | e in FileEntries(st.levels) ensures e in Elems(st.hist[..st.flushed]) {
      var l, f :| 0 <= l < |st.levels| && f in st.levels[l] && e in f.entries;
      assert e in Elems(f.entries);
    }
  }

  /** The parts of a well-formed store are parts of its history, memory newer than files. */
  lemma StoreParts(st: State)
    requires Wf(st)
    ensures All(st) <= Elems(st.hist) && UniqueSeq(Elems(st.hist))
    ensures NewerThan(st.mem, ImmEntries(st) + FileEntries(st.levels))
    ensures NewerThan(ImmEntries(st), FileEntries(st.levels))
    ensures forall e :: e in All(st) ==> e.ikey.seqno <= st.lastSeq
  {
    hide WfLevelSets, FilesFrom, WfSnapshots, Underway, UniqueSeq;
    HistoryUnique(st.hist);
    MemoryParts(st);
    FileEntriesOld(st);
    HistoryUpTo(st.hist, st.lastSeq);
  }

  /** The memtables are disjoint ends of the history. */
  lemma MemoryParts(st: State)
    requires WfMemory(st)
    ensures st.mem + ImmEntries(st) <= Elems(st.hist)
    ensures Earlier(Elems(st.hist[..st.flushed]), ImmEntries(st)) && Earlier(Elems(st.hist[..st.flushed]), st.mem)
    ensures Earlier(ImmEntries(st), st.mem)
  {
    hide Numbered, NumberedUpTo;
    HistorySplit(st.hist, st.memStart);
    HistorySlice(st.hist, st.flushed, st.memStart);
  }

  /** A read at or below the end of a history is not changed by what is appended later. */
  lemma HistoryReadStable(hist: seq<Entry>, later: seq<Entry>, k: UserKey, s: nat)
    requires Numbered(hist) && Numbered(later) && hist <= later
    requires forall i :: |hist| <= i < |later| ==> later[i].ikey.seqno > s
    ensures Read(Elems(later), k, s) == Read(Elems(hist), k, s)
  {
    HistoryUnique(hist);
    HistoryUnique(later);
    assert Elems(hist) <= Elems(later);
    forall e | e in Elems(later) && Sees(e, k, s) ensures e in Elems(hist) {
      var i :| 0 <= i < |later| && later[i] == e;
      assert hist[i] == later[i];
    }
    if Newest(Elems(hist), k, s).Some? {
      NewestIs(Elems(later), k, s, Newest(Elems(hist), k, s).value);
    }
  }

  // ---------- level structure ----------

  lemma ContentsUnion(A: set<File>, B: set<File>)
    ensures Contents(A + B) == Contents(A) + Contents(B)
  {
  }

  lemma ContentsMono(A: set<File>, B: set<File>)
    requires A <= B
    ensures Contents(A) <= Contents(B)
  {
  }

  lemma OutsInHull(outs: set<File>, ins: set<File>, g: File)
    requires Contents(outs) <= Contents(ins)
    ensures LeftOf(g, ins) ==> LeftOf(g, outs)
    ensures RightOf(g, ins) ==> RightOf(g, outs)
  {
    forall o | o in outs
      ensures LeftOf(g, ins) ==> Less(Largest(g), Smallest(o))
      ensures RightOf(g, ins) ==> Less(Largest(o), Smallest(g))
    {
      var a, b := o.entries[0], o.entries[|o.entries|-1];
      assert a in o.entries && b in o.entries;
      assert a in Contents(outs) && b in Contents(outs);
      var f :| f in ins && a in f.entries;
      var h :| h in ins && b in h.entries;
      EntryInRange(f, a);
      EntryInRange(h, b);
      CompareIsLexicographic(Largest(g), Smallest(f));
      CompareIsLexicographic(a.ikey, Smallest(f));
      CompareIsLexicographic(Largest(g), a.ikey);
      CompareIsLexicographic(Largest(h), Smallest(g));
      CompareIsLexicographic(Largest(h), b.ikey);
      CompareIsLexicographic(b.ikey, Smallest(g));
    }
  }

  /** A sorted run cut from the inputs fits beside the files that stay in level+1. */
  lemma InstalledLevelDisjoint(stay1: set<File>, ins: set<File>, outs: set<File>)
    requires LevelDisjoint(stay1) && LevelDisjoint(outs) && Contents(outs) <= Contents(ins)
    requires forall g :: g in stay1 ==> LeftOf(g, ins) || RightOf(g, ins)
    ensures LevelDisjoint(stay1 + outs)
  {
    forall g, o | g in stay1 && o in outs && g != o
      ensures Less(Largest(g), Smallest(o)) || Less(Largest(o), Smallest(g))
    {
      OutsInHull(outs, ins, g);
    }
  }

  /** What a level of the new version may contain. */
  lemma InstalledContents(levels: seq<set<File>>, p: Pending, outs: set<File>, l: nat)
    requires |levels| == NUM_LEVELS && WfPending(levels, p) && Contents(outs) <= Inputs(p) && l < |levels|
    ensures l != p.level + 1 ==> Contents(Installed(levels, p, outs)[l]) <= Contents(levels[l])
    ensures l == p.level + 1 ==> Contents(Installed(levels, p, outs)[l]) <= Contents(levels[l]) + Contents(levels[p.level])
    ensures l == p.level ==> Contents(Installed(levels, p, outs)[l]) <= Contents(levels[p.level] - p.in0)
    ensures l == p.level + 1 ==> Contents(Installed(levels, p, outs)[l]) <= Contents(levels[l]) + Contents(p.in0)
  {
    ContentsUnion(levels[p.level+1] - p.in1, outs);
    ContentsMono(levels[p.level+1] - p.in1, levels[p.level+1]);
    ContentsMono(levels[p.level] - p.in0, levels[p.level]);
    ContentsMono(p.in1, levels[p.level+1]);
    ContentsMono(p.in0, levels[p.level]);
  }

  lemma InstalledNewer(levels: seq<set<File>>, p: Pending, outs: set<File>, l: nat, m: nat)
    requires WfLevelSets(levels) && WfPending(levels, p) && Contents(outs) <= Inputs(p) && l < m < |levels|
    ensures NewerThan(Contents(Installed(levels, p, outs)[l]), Contents(Installed(levels, p, outs)[m]))
  {
    InstalledContents(levels, p, outs, l);
    InstalledContents(levels, p, outs, m);
    assert NewerThan(Contents(levels[l]), Contents(levels[m]));
    if m == p.level + 1 && l < p.level {
      assert NewerThan(Contents(levels[l]), Contents(levels[p.level]));
    } else if l == p.level + 1 {
      assert NewerThan(Contents(levels[p.level]), Contents(levels[m]));
    }
  }

  /** An output made of entries of inputs that all avoid a table is beside it, unless it spans it. */
  lemma BesideOrSpans(ins: set<File>, outs: set<File>, f: File, o: File)
    requires (forall g :: g in ins ==> RangesDisjoint(f, g)) && Contents(outs) <= Contents(ins) && o in outs
    ensures Less(Largest(f), Smallest(o)) || Less(Largest(o), Smallest(f)) <==> !Spans(o, f)
  {
    var a, b := o.entries[0], o.entries[|o.entries|-1];
    EntryAvoids(ins, outs, f, o, a);
    EntryAvoids(ins, outs, f, o, b);
    SmallestToLargest(o);
    SmallestToLargest(f);
    CompareIsLexicographic(Smallest(o), Largest(o));
    CompareIsLexicographic(Smallest(f), Largest(f));
    CompareIsLexicographic(Largest(f), Smallest(o));
    CompareIsLexicographic(Largest(o), Smallest(f));
  }

  lemma EntryAvoids(ins: set<File>, outs: set<File>, f: File, o: File, e: Entry)
    requires (forall g :: g in ins ==> RangesDisjoint(f, g)) && Contents(outs) <= Contents(ins) && o in outs
    requires e in o.entries
    ensures e.ikey.user < Smallest(f).user || Largest(f).user < e.ikey.user
  {
    assert e in Contents(outs);
    var g :| g in ins && e in g.entries;
    EntryInRange(g, e);
  }

  /** The output level stays in order exactly when no output spans a table that arrived. */
  lemma InstalledDisjointIff(stay1: set<File>, arrived: set<File>, ins: set<File>, outs: set<File>)
    requires LevelDisjoint(stay1 + arrived) && LevelDisjoint(outs) && Contents(outs) <= Contents(ins)
    requires forall g :: g in stay1 ==> LeftOf(g, ins) || RightOf(g, ins)
    requires forall f, g :: f in arrived && g in ins ==> RangesDisjoint(f, g)
    ensures LevelDisjoint(stay1 + arrived + outs) <==> NoneSpans(outs, arrived)
  {
    InstalledLevelDisjoint(stay1, ins, outs);
    forall f, o | f in arrived && o in outs
      ensures Less(Largest(f), Smallest(o)) || Less(Largest(o), Smallest(f)) <==> !Spans(o, f)
    {
      BesideOrSpans(ins, outs, f, o);
    }
    if NoneSpans(outs, arrived) {
      TwoDisjoint(stay1, arrived, outs);
    } else {
      var o, f :| o in outs && f in arrived && Spans(o, f);
      assert o in stay1 + arrived + outs && f in stay1 + arrived + outs && o != f;
    }
  }

  lemma TwoDisjoint(stay1: set<File>, arrived: set<File>, outs: set<File>)
    requires LevelDisjoint(stay1 + arrived) && LevelDisjoint(stay1 + outs)
    requires forall f, o :: f in arrived && o in outs ==> Less(Largest(f), Smallest(o)) || Less(Largest(o), Smallest(f))
    ensures LevelDisjoint(stay1 + arrived + outs)
  {
    hide Less;
    forall f, g | f in stay1 + arrived + outs && g in stay1 + arrived + outs && f != g
      ensures Less(Largest(f), Smallest(g)) || Less(Largest(g), Smallest(f))
    {
      if f in stay1 + arrived && g in stay1 + arrived {
      } else if f in stay1 + outs && g in stay1 + outs {
      } else if f in arrived {
        assert g in outs;
      } else {
        assert f in outs && g in arrived;
      }
    }
  }

  /** After install level 0 is still ordered by number and every level still newer than the next; every
      level above 0 is still disjoint exactly when no output spans a table that arrived. */
  lemma InstallKeepsLevels(levels: seq<set<File>>, p: Pending, outs: set<File>)
    requires WfLevelSets(levels) && WfPending(levels, p)
    requires Contents(outs) <= Inputs(p) && LevelDisjoint(outs)
    ensures WfLevelSets(Installed(levels, p, outs)) <==> NoneSpans(outs, p.arrived)
  {
    hide NewerThan, Contents, Less, NoneSpans;
    var levels' := Installed(levels, p, outs);
    forall l, m | 0 <= l < m < |levels'| ensures NewerThan(Contents(levels'[l]), Contents(levels'[m])) {
      InstalledNewer(levels, p, outs, l, m);
    }
    ContentsUnion(p.in0, p.in1);
    var stay1 := levels[p.level+1] - p.in1 - p.arrived;
    assert stay1 + p.arrived == levels[p.level+1] - p.in1;
    InstalledDisjointIff(stay1, p.arrived, p.in0 + p.in1, outs);
    assert levels'[p.level+1] == stay1 + p.arrived + outs;
    assert levels'[0] <= levels[0];
  }

  lemma FlushedNewer(levels: seq<set<File>>, f: File, level: nat, l: nat, m: nat)
    requires WfLevelSets(levels) && level < |levels| && NewerThan(Elems(f.entries), FileEntries(levels))
    requires level == 0 || NoOverlapTo(levels, f, level)
    requires l < m < |levels|
    ensures var levels' := levels[level := levels[level] + {f}];
            NewerThan(Contents(levels'[l]), Contents(levels'[m]))
  {
    var levels' := levels[level := levels[level] + {f}];
    ContentsUnion(levels[level], {f});
    assert NewerThan(Contents(levels[l]), Contents(levels[m]));
    forall a, b | a in Contents(levels'[l]) && b in Contents(levels'[m]) && a.ikey.user == b.ikey.user
      ensures a.ikey.seqno > b.ikey.seqno
    {
      var g: File :| g in levels'[l] && a in g.entries;
      var h: File :| h in levels'[m] && b in h.entries;
      if l == level && g == f {
        assert a in Elems(f.entries) && b in FileEntries(levels);
      } else if m == level && h == f {
        DisjointRangesShareNoKey(f, g, b, a);
      } else {
        assert a in Contents(levels[l]) && b in Contents(levels[m]);
      }
    }
  }

  /** A flushed table keeps the level structure: newest in level 0, or clear of
      everything down to the level it is put in. */
  lemma FlushKeepsLevels(levels: seq<set<File>>, f: File, level: nat)
    requires WfLevelSets(levels) && level < |levels| && NewerThan(Elems(f.entries), FileEntries(levels))
    requires level == 0 || NoOverlapTo(levels, f, level)
    requires forall g :: g in levels[0] ==> g.number < f.number
    ensures WfLevelSets(levels[level := levels[level] + {f}])
  {
    var levels' := levels[level := levels[level] + {f}];
    forall l, m | 0 <= l < m < |levels'| ensures NewerThan(Contents(levels'[l]), Contents(levels'[m])) {
      FlushedNewer(levels, f, level, l, m);
    }
    if level == 0 {
      forall g | g in levels[0] ensures NewerThan(Elems(f.entries), Elems(g.entries)) {
        assert Elems(g.entries) <= FileEntries(levels);
      }
    } else {
      forall g | g in levels[level] ensures Less(Largest(g), Smallest(f)) || Less(Largest(f), Smallest(g)) {
        assert RangesDisjoint(f, g);
        CompareIsLexicographic(Largest(g), Smallest(f));
        CompareIsLexicographic(Largest(f), Smallest(g));
      }
    }
  }

  // ---------- the pending compaction survives other steps ----------

  lemma NewerPart(A: set<Entry>, B: set<Entry>, C: set<Entry>)
    requires NewerThan(A, B) && C <= B
    ensures NewerThan(A, C)
  {
  }

  lemma FlushKeepsStayNewer(level: set<File>, in0: set<File>, f: File)
    requires in0 <= level && NewerThan(Contents(level - in0), Contents(in0))
    requires NewerThan(Elems(f.entries), Contents(level)) && f !in level
    ensures NewerThan(Contents(level + {f} - in0), Contents(in0))
  {
    forall a, b | a in Contents(level + {f} - in0) && b in Contents(in0) && a.ikey.user == b.ikey.user
      ensures a.ikey.seqno > b.ikey.seqno
    {
      var g :| g in level + {f} - in0 && a in g.entries;
      if g == f {
        assert a in Elems(f.entries) && b in Contents(level);
      } else {
        assert a in Contents(level - in0);
      }
    }
  }

  lemma FlushKeepsDeeper(levels: seq<set<File>>, f: File, level: nat, at: nat)
    requires level < |levels|
    ensures Deeper(levels, at) <= Deeper(levels[level := levels[level] + {f}], at)
  {
    var levels' := levels[level := levels[level] + {f}];
    forall e | e in Deeper(levels, at) ensures e in Deeper(levels', at) {
      var l :| at + 2 <= l < |levels| && e in levels[l];
      assert e in levels'[l];
    }
  }

  lemma FlushKeepsPending(levels: seq<set<File>>, f: File, level: nat, p: Pending)
    requires WfLevelSets(levels) && WfPending(levels, p) && level < |levels|
    requires NewerThan(Elems(f.entries), FileEntries(levels))
    requires forall l :: 0 <= l < |levels| ==> f !in levels[l]
    requires level == 0 || NoOverlapTo(levels, f, level)
    ensures WfPending(levels[level := levels[level] + {f}], WithArrival(Some(p), f, level).value)
  {
    hide NewerThan, RangesDisjoint;
    var levels' := levels[level := levels[level] + {f}];
    FlushKeepsDeeper(levels, f, level, p.level);
    if level == p.level {
      assert Contents(levels[p.level]) <= FileEntries(levels);
      NewerPart(Elems(f.entries), FileEntries(levels), Contents(levels[p.level]));
      FlushKeepsStayNewer(levels[p.level], p.in0, f);
    } else if level == p.level + 1 {
      ArrivalApart(levels, f, p);
      assert levels'[level] - p.in1 - (p.arrived + {f}) == levels[level] - p.in1 - p.arrived;
    }
  }

  lemma ArrivalApart(levels: seq<set<File>>, f: File, p: Pending)
    requires |levels| == NUM_LEVELS && WfPending(levels, p)
    requires NewerThan(Elems(f.entries), FileEntries(levels)) && NoOverlapTo(levels, f, p.level + 1)
    ensures Apart(p.(arrived := p.arrived + {f}))
  {
    ContentsUnion(p.arrived, {f});
    assert Contents({f}) == Elems(f.entries);
    forall b | b in Inputs(p) ensures b in FileEntries(levels) {
      var h :| (h in p.in0 || h in p.in1) && b in h.entries;
      assert h in levels[p.level] || h in levels[p.level + 1];
    }
    forall g | g in p.in0 + p.in1 ensures RangesDisjoint(f, g) {
      assert g in levels[p.level] || g in levels[p.level + 1];
    }
  }

  lemma FlushKeepsBelow(levels: seq<set<File>>, f: File, level: nat, p: Pending)
    requires |levels| == NUM_LEVELS && WfPending(levels, p) && level < |levels|
    requires NewerThan(Elems(f.entries), FileEntries(levels))
    requires NewerThan(Contents(Deeper(levels, p.level) - p.deeper), Inputs(p))
    ensures NewerThan(Contents(Deeper(levels[level := levels[level] + {f}], p.level) - p.deeper), Inputs(p))
  {
    var levels' := levels[level := levels[level] + {f}];
    forall a, b | a in Contents(Deeper(levels', p.level) - p.deeper) && b in Inputs(p) && a.ikey.user == b.ikey.user
      ensures a.ikey.seqno > b.ikey.seqno
    {
      var g :| g in Deeper(levels', p.level) - p.deeper && a in g.entries;
      if g == f {
        var h :| (h in p.in0 || h in p.in1) && b in h.entries;
        assert h in levels[p.level] || h in levels[p.level + 1];
        assert a in Elems(f.entries) && b in FileEntries(levels);
      } else {
        assert g in Deeper(levels, p.level);
        assert a in Contents(Deeper(levels, p.level) - p.deeper);
      }
    }
  }

  lemma LevelCount(levels: seq<set<File>>)
    requires WfLevelSets(levels)
    ensures |levels| == NUM_LEVELS
  {
  }

  // ---------- each step keeps the store well formed ----------

  lemma WriteKeepsWf(st: State, ops: seq<Op>)
    requires Wf(st) && Enabled(st, Write(ops))
    ensures Wf(Apply(st, Write(ops)))
  {
    hide WfLevelSets, FilesFrom, WfPending, NewerThan;
    var es := Stamp(ops, st.lastSeq + 1);
    var hist' := st.hist + es;
    assert hist'[..st.flushed] == st.hist[..st.flushed];
    assert hist'[st.flushed..st.memStart] == st.hist[st.flushed..st.memStart];
    assert hist'[st.memStart..] == st.hist[st.memStart..] + es;
  }

  /** The numbers a failed write took are never used; nothing else changes. */
  lemma FailKeepsWf(st: State, ops: seq<Op>)
    requires Wf(st) && Enabled(st, FailWrite(ops))
    ensures Wf(Apply(st, FailWrite(ops)))
  {
    hide WfLevelSets, FilesFrom, WfPending, NewerThan;
  }

  lemma RotateKeepsWf(st: State)
    requires Wf(st) && Enabled(st, Rotate)
    ensures Wf(Apply(st, Rotate))
  {
    hide WfLevelSets, FilesFrom, WfPending, NewerThan;
    assert st.hist[st.flushed..|st.hist|] == st.hist[st.memStart..];
  }

  lemma FlushedIsFresh(st: State, f: File)
    requires Wf(st) && st.imm.Some? && Elems(f.entries) == st.imm.value
    ensures NewerThan(Elems(f.entries), FileEntries(st.levels))
    ensures forall l :: 0 <= l < |st.levels| ==> f !in st.levels[l]
  {
    var e := f.entries[0];
    assert e in f.entries;
    forall l | 0 <= l < |st.levels| && f in st.levels[l] ensures e in FileEntries(st.levels) {
    }
    StoreParts(st);
    FileEntriesOld(st);
    HistorySlice(st.hist, st.flushed, st.memStart);
    assert e in Elems(f.entries);
  }

  lemma FlushKeepsWf(st: State, file: Option<File>, level: nat)
    requires Wf(st) && Enabled(st, Flush(file, level))
    ensures Wf(Apply(st, Flush(file, level)))
  {
    hide WfLevelSets, WfPending, NewerThan, RangesDisjoint;
    LevelCount(st.levels);
    var st' := Apply(st, Flush(file, level));
    assert st.hist[..st.memStart] == st.hist[..st.flushed] + st.hist[st.flushed..st.memStart];
    assert Elems(st.hist[..st.flushed]) <= Elems(st.hist[..st.memStart]);
    assert Elems(st.hist[st.flushed..st.memStart]) <= Elems(st.hist[..st.memStart]);
    if file.Some? {
      var f := file.value;
      FlushedIsFresh(st, f);
      FlushKeepsLevels(st.levels, f, level);
      if st.pending.Some? {
        FlushKeepsPending(st.levels, f, level, st.pending.value);
        FlushKeepsBelow(st.levels, f, level, st.pending.value);
        assert Underway(st', st'.pending.value);
      }
      FlushKeepsFiles(st, f, level);
    }
  }

  lemma FlushKeepsFiles(st: State, f: File, level: nat)
    requires Wf(st) && st.imm.Some? && level < |st.levels|
    requires Elems(f.entries) == st.imm.value && f.number >= st.nextFile
    ensures FilesFrom(st.levels[level := st.levels[level] + {f}], Elems(st.hist[..st.memStart]), f.number + 1)
  {
    var levels' := st.levels[level := st.levels[level] + {f}];
    var upto := st.hist[..st.memStart];
    assert upto == st.hist[..st.flushed] + st.hist[st.flushed..st.memStart];
    forall l, g: File | 0 <= l < |levels'| && g in levels'[l]
      ensures g.number < f.number + 1 && Elems(g.entries) <= Elems(upto)
    {
      if g != f {
        assert g in st.levels[l];
        assert Elems(g.entries) <= Elems(st.hist[..st.flushed]);
      }
    }
  }

  lemma InstallKeepsFiles(st: State, p: Pending, outs: set<File>, nextFile: nat)
    requires Wf(st) && WfPending(st.levels, p) && Contents(outs) <= Inputs(p)
    requires nextFile >= st.nextFile && forall f :: f in outs ==> f.number < nextFile
    ensures FilesFrom(Installed(st.levels, p, outs), Elems(st.hist[..st.flushed]), nextFile)
  {
    hide WfLevelSets, NewerThan;
    var levels' := Installed(st.levels, p, outs);
    forall l, f: File | 0 <= l < |levels'| && f in levels'[l]
      ensures f.number < nextFile && Elems(f.entries) <= Elems(st.hist[..st.flushed])
    {
      if f in st.levels[l] {
      } else {
        forall e | e in f.entries ensures e in Elems(st.hist[..st.flushed]) {
          assert e in Contents(outs);
          InputWritten(st, p, e);
        }
      }
    }
  }

  lemma InputWritten(st: State, p: Pending, e: Entry)
    requires Wf(st) && WfPending(st.levels, p) && e in Inputs(p)
    ensures e in Elems(st.hist[..st.flushed])
  {
    var g :| (g in p.in0 || g in p.in1) && e in g.entries;
    assert g in st.levels[p.level] || g in st.levels[p.level + 1];
    assert e in Elems(g.entries);
  }

  lemma StartKeepsWf(st: State, at: nat, in0: set<File>, in1: set<File>)
    requires Wf(st) && Enabled(st, StartCompaction(at, in0, in1))
    ensures Wf(Apply(st, StartCompaction(at, in0, in1)))
  {
    hide WfLevelSets, FilesFrom;
    LevelCount(st.levels);
    var p := Pending(at, in0, in1, SmallestSnapshot(st), Deeper(st.levels, at));
    assert Contents(Deeper(st.levels, at) - p.deeper) == {};
    assert Underway(Apply(st, StartCompaction(at, in0, in1)), p);
  }

  lemma {:induction false} NumberPastBound(outs: set<File>, from: nat, n: nat)
    requires from <= n && forall f :: f in outs ==> f.number < n
    ensures NumberPast(outs, from) <= n
  {
    if outs != {} {
      forall f | f in outs ensures NumberPast(outs - {f}, from) <= n {
        NumberPastBound(outs - {f}, from, n);
      }
    }
  }

  lemma FinishKeepsWf(st: State, outs: set<File>)
    requires Wf(st) && Enabled(st, FinishCompaction(outs))
    ensures Wf(Apply(st, FinishCompaction(outs))) <==> Fits(st, FinishCompaction(outs))
  {
    hide WfLevelSets, FilesFrom;
    LevelCount(st.levels);
    var p := st.pending.value;
    InstallKeepsLevels(st.levels, p, outs);
    InstallKeepsFiles(st, p, outs, NumberPast(outs, st.nextFile));
  }

  lemma MoveKeepsWf(st: State, from: nat, moved: File)
    requires Wf(st) && Enabled(st, TrivialMove(from, moved))
    ensures Wf(Apply(st, TrivialMove(from, moved)))
  {
    hide WfLevelSets;
    LevelCount(st.levels);
    var p := Pending(from, {moved}, {}, 0, {});
    InstallKeepsLevels(st.levels, p, {moved});
    assert moved in st.levels[from];
    InstallKeepsFiles(st, p, {moved}, st.nextFile);
  }

  /** Every step keeps the store well formed but one: installing a table that spans a table flushed
      into the output level while the compaction ran. */
  lemma StepKeepsWf(st: State, step: Step)
    requires Wf(st) && Enabled(st, step)
    ensures Wf(Apply(st, step)) <==> Fits(st, step)
  {
    match step
    case Write(ops) => WriteKeepsWf(st, ops);
    case FailWrite(ops) => FailKeepsWf(st, ops);
    case Rotate => RotateKeepsWf(st);
    case Flush(file, level) => FlushKeepsWf(st, file, level);
    case StartCompaction(at, in0, in1) => StartKeepsWf(st, at, in0, in1);
    case FinishCompaction(outs) => FinishKeepsWf(st, outs);
    case AbortCompaction =>
    case TrivialMove(from, moved) => MoveKeepsWf(st, from, moved);
    case TakeSnapshot =>
    case ReleaseSnapshot(index) =>
  }
}
