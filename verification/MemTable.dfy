/** What a batch of operations does to every later read (include/leveldb/write_batch.h: "The updates are applied in the
    order in which they are added"). */
module WrittenReads {
  import opened InternalKeys
  import opened FlatSpec
  import opened Versions
  import opened Store

  /** The operation at `i` is the last of the first `n` on the key. */
  predicate LastOn(ops: seq<Op>, n: nat, k: UserKey, i: nat)
    requires n <= |ops|
  {
    i < n && ops[i].key == k && forall j :: i < j < n ==> ops[j].key != k
  }

  /** How many operations numbered from `first` on a read at `s` sees. */
  function SeenAt(size: nat, first: nat, s: nat): (n: nat)
    ensures n <= size
  {
    if s < first then 0 else if s - first < size then s - first + 1 else size
  }

  /** A read sees what the last operation on its key that is not too new has put there, nothing if it deleted the
      key, and what was read before if none is on it. */
  ghost predicate TakesEffect(before: set<Entry>, after: set<Entry>, ops: seq<Op>, first: nat) {
    forall k: UserKey, s: nat ::
      && (forall i: nat :: LastOn(ops, SeenAt(|ops|, first, s), k, i) ==>
            Read(after, k, s) == match ops[i] case PutOp(_, v) => Some(v) case DeleteOp(_) => None)
      && ((forall i :: 0 <= i < SeenAt(|ops|, first, s) ==> ops[i].key != k) ==> Read(after, k, s) == Read(before, k, s))
  }

  lemma StampTakesEffect(before: set<Entry>, ops: seq<Op>, first: nat)
    requires UniqueSeq(before) && forall e :: e in before ==> e.ikey.seqno < first
    ensures TakesEffect(before, before + Elems(Stamp(ops, first)), ops, first)
  {
    var es := Stamp(ops, first);
    var after := before + Elems(es);
    forall k: UserKey, s: nat, i: nat | LastOn(ops, SeenAt(|ops|, first, s), k, i)
      ensures Read(after, k, s) == match ops[i] case PutOp(_, v) => Some(v) case DeleteOp(_) => None
    {
      StampedIsNewest(before, ops, first, k, s, i);
    }
    forall k: UserKey, s: nat | forall i :: 0 <= i < SeenAt(|ops|, first, s) ==> ops[i].key != k
      ensures Read(after, k, s) == Read(before, k, s)
    {
      UnnamedReads(before, ops, first, k, s);
    }
  }

  lemma StampUnique(before: set<Entry>, ops: seq<Op>, first: nat)
    requires UniqueSeq(before) && forall e :: e in before ==> e.ikey.seqno < first
    ensures UniqueSeq(before + Elems(Stamp(ops, first)))
  {
  }

  lemma StampedIsNewest(before: set<Entry>, ops: seq<Op>, first: nat, k: UserKey, s: nat, i: nat)
    requires UniqueSeq(before) && (forall e :: e in before ==> e.ikey.seqno < first)
    requires LastOn(ops, SeenAt(|ops|, first, s), k, i)
    ensures Newest(before + Elems(Stamp(ops, first)), k, s) == Some(Stamp(ops, first)[i])
  {
    var es := Stamp(ops, first);
    StampUnique(before, ops, first);
    forall d | d in Elems(es) && Sees(d, k, s) ensures d.ikey.seqno <= first + i {
      var j :| 0 <= j < |es| && es[j] == d;
    }
    assert es[i] in Elems(es);
    NewestIs(before + Elems(es), k, s, es[i]);
  }

  lemma UnnamedReads(before: set<Entry>, ops: seq<Op>, first: nat, k: UserKey, s: nat)
    requires UniqueSeq(before) && (forall e :: e in before ==> e.ikey.seqno < first)
    requires forall i :: 0 <= i < SeenAt(|ops|, first, s) ==> ops[i].key != k
    ensures Newest(before + Elems(Stamp(ops, first)), k, s) == Newest(before, k, s)
  {
    var es := Stamp(ops, first);
    StampUnique(before, ops, first);
    forall d | d in Elems(es) ensures !Sees(d, k, s) {
      var j :| 0 <= j < |es| && es[j] == d;
    }
    if Newest(before, k, s).Some? {
      NewestIs(before + Elems(es), k, s, Newest(before, k, s).value);
    }
  }
}

/** The memtable (db/memtable.cc): a sorted set of entries, filled from write batches
    (db/write_batch.cc, MemTableInserter). */
module MemTables {
  import opened InternalKeys
  import opened FlatSpec
  import opened Versions
  import opened Store
  import opened WrittenReads

  function Insertion(es: seq<Entry>, e: Entry): (r: seq<Entry>)
    requires Sorted(es) && forall d :: d in es ==> d.ikey != e.ikey
    ensures Sorted(r) && Elems(r) == Elems(es) + {e}
  {
    if es == [] || Less(e.ikey, es[0].ikey) then
      BeforeAll(es, e);
      [e] + es
    else
      var rest := Insertion(es[1..], e);
      HeadFirst(es, e, rest);
      [es[0]] + rest
  }

  lemma BeforeAll(es: seq<Entry>, e: Entry)
    requires Sorted(es) && (es == [] || Less(e.ikey, es[0].ikey))
    ensures Sorted([e] + es) && Elems([e] + es) == Elems(es) + {e}
  {
    forall i | 0 <= i < |es| ensures Less(e.ikey, es[i].ikey) {
      if i > 0 { LessTransitive(e.ikey, es[0].ikey, es[i].ikey); }
    }
  }

  lemma HeadFirst(es: seq<Entry>, e: Entry, rest: seq<Entry>)
    requires es != [] && Sorted(es) && !Less(e.ikey, es[0].ikey) && e.ikey != es[0].ikey
    requires Sorted(rest) && Elems(rest) == Elems(es[1..]) + {e}
    ensures Sorted([es[0]] + rest) && Elems([es[0]] + rest) == Elems(es) + {e}
  {
    CompareIsLexicographic(e.ikey, es[0].ikey);
    forall i | 0 <= i < |rest| ensures Less(es[0].ikey, rest[i].ikey) {
      assert rest[i] in Elems(rest);
      if rest[i] != e {
        var j :| 0 <= j < |es[1..]| && es[1..][j] == rest[i];
        assert es[j+1] == rest[i];
      }
    }
    ElemsCons(es[0], rest);
    ElemsCons(es[0], es[1..]);
    assert es == [es[0]] + es[1..];
  }

  lemma ElemsCons(e: Entry, es: seq<Entry>)
    ensures Elems([e] + es) == {e} + Elems(es)
  {
    forall d | d in es ensures d in [e] + es {
      var i :| 0 <= i < |es| && es[i] == d;
      assert ([e] + es)[i+1] == d;
    }
  }

  class MemTable {
    var table: seq<Entry>

    constructor ()
      ensures table == []
    {
      table := [];
    }

    method Add(s: nat, kind: ValueType, key: UserKey, value: UserValue)
      requires Sorted(table) && forall e :: e in table ==> e.ikey != InternalKey(key, s, kind)
      modifies this
      ensures Sorted(table) && Elems(table) == old(Elems(table)) + {Entry(InternalKey(key, s, kind), value)}
    {
      table := Insertion(table, Entry(InternalKey(key, s, kind), value));
    }

    /** The newest entry of the key visible at `s`, found by one seek. */
    method Get(k: UserKey, s: nat) returns (r: SaverState)
      requires Sorted(table)
      ensures r.Hit? ==> IsNewest(Elems(table), k, s, r.e)
      ensures r.Missed? ==> Absent(Elems(table), k, s)
    {
      ProbeFindsNewest(table, k, s);
      var i := FirstAtOrAfter(table, SeekKey(k, s));
      if i < |table| && table[i].ikey.user == k {
        return Hit(table[i]);
      }
      return Missed;
    }

    /** WriteBatchInternal::InsertInto: the operations take consecutive sequence numbers. */
    method InsertInto(ops: seq<Op>, first: nat)
      requires Sorted(table) && forall e :: e in table ==> e.ikey.seqno < first
      modifies this
      ensures Sorted(table) && Elems(table) == old(Elems(table)) + Elems(Stamp(ops, first))
      ensures forall e :: e in table ==> e.ikey.seqno < first + |ops|
      ensures UniqueSeq(old(Elems(table))) ==> TakesEffect(old(Elems(table)), Elems(table), ops, first)
    {
      hide TakesEffect;
      if UniqueSeq(Elems(table)) {
        StampTakesEffect(Elems(table), ops, first);
      }
      var sequence := first;
      var i := 0;
      while i < |ops|
        invariant 0 <= i <= |ops| && sequence == first + i && Sorted(table)
        invariant Elems(table) == old(Elems(table)) + Elems(Stamp(ops, first)[..i])
        invariant forall e :: e in table ==> e.ikey.seqno < sequence
      {
        ghost var before := Elems(table);
        ghost var es := Stamp(ops, first);
        assert es[..i+1] == es[..i] + [es[i]];
        match ops[i] {
          case PutOp(k, v) => Add(sequence, Value, k, v);
          case DeleteOp(k) => Add(sequence, Deletion, k, "");
        }
        sequence := sequence + 1;
        i := i + 1;
        forall e | e in table ensures e.ikey.seqno < sequence {
          assert e in before + {es[i-1]};
        }
      }
      assert Stamp(ops, first)[..i] == Stamp(ops, first);
    }
  }
}
