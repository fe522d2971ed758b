/** The user-facing iterator over a merged internal stream (db/db_iter.cc). */
module DBIterator {
  import opened InternalKeys
  import opened Versions

  // ---------- what the iterator should show ----------

  predicate Visible(es: seq<Entry>, s: nat, i: nat) {
    i < |es| && es[i].ikey.seqno <= s
  }

  /** Position `i` holds the newest visible entry of its user key, and it is a value. */
  predicate Yields(es: seq<Entry>, s: nat, i: nat) {
    && Visible(es, s, i) && es[i].ikey.kind.Value?
    && forall j :: 0 <= j < i && es[j].ikey.user == es[i].ikey.user ==> !Visible(es, s, j)
  }

  ghost predicate LeastYield(es: seq<Entry>, s: nat, from: nat, above: Option<UserKey>, r: Option<nat>) {
    match r
    case None => forall i :: from <= i < |es| && Yields(es, s, i) ==> above.Some? && es[i].ikey.user <= above.value
    case Some(c) =>
      && from <= c < |es| && Yields(es, s, c) && (above.Some? ==> es[c].ikey.user > above.value)
      && forall i :: from <= i < c && Yields(es, s, i) ==> above.Some? && es[i].ikey.user <= above.value
  }

  ghost predicate GreatestYield(es: seq<Entry>, s: nat, upto: nat, r: Option<nat>) {
    match r
    case None => forall i :: 0 <= i < upto && i < |es| ==> !Yields(es, s, i)
    case Some(c) =>
      && c < upto && c < |es| && Yields(es, s, c)
      && forall i :: c < i < upto && i < |es| ==> !Yields(es, s, i)
  }

  lemma UsersAscend(es: seq<Entry>, i: nat, j: nat)
    requires Sorted(es) && i <= j < |es|
    ensures es[i].ikey.user <= es[j].ikey.user
    ensures i < j && es[i].ikey.user == es[j].ikey.user ==> es[i].ikey.seqno >= es[j].ikey.seqno
  {
    if i < j { CompareIsLexicographic(es[i].ikey, es[j].ikey); }
  }

  lemma YieldsOncePerKey(es: seq<Entry>, s: nat, i: nat, j: nat)
    requires Sorted(es) && i < j < |es| && Yields(es, s, i) && Yields(es, s, j)
    ensures es[i].ikey.user < es[j].ikey.user
  {
    UsersAscend(es, i, j);
  }

  // ---------- the internal iterator ----------

  /** A cursor over a strictly sorted internal stream (memtables and tables, merged). */
  class InternalIterator {
    const es: seq<Entry>
    var pos: Option<nat>

    constructor (es: seq<Entry>)
      requires Sorted(es)
      ensures this.es == es && Ok()
    {
      this.es := es;
      pos := None;
    }

    predicate Ok()
      reads this
    {
      Sorted(es) && (pos.Some? ==> pos.value < |es|)
    }

    predicate Valid()
      reads this
    {
      pos.Some?
    }

    function Current(): Entry
      requires Ok() && Valid()
      reads this
    {
      es[pos.value]
    }

    method SeekToFirst()
      requires Ok()
      modifies this
      ensures Ok() && pos == if es == [] then None else Some(0)
    {
      pos := if es == [] then None else Some(0);
    }

    method SeekToLast()
      requires Ok()
      modifies this
      ensures Ok() && pos == if es == [] then None else Some(|es| - 1)
    {
      pos := if es == [] then None else Some(|es| - 1);
    }

    method Seek(target: InternalKey)
      requires Ok()
      modifies this
      ensures Ok()
      ensures var i := FirstAtOrAfter(es, target); pos == if i < |es| then Some(i) else None
    {
      var i := FirstAtOrAfter(es, target);
      pos := if i < |es| then Some(i) else None;
    }

    method Next()
      requires Ok() && Valid()
      modifies this
      ensures Ok() && pos == if old(pos.value) + 1 < |es| then Some(old(pos.value) + 1) else None
    {
      pos := if pos.value + 1 < |es| then Some(pos.value + 1) else None;
    }

    method Prev()
      requires Ok() && Valid()
      modifies this
      ensures Ok() && pos == if old(pos.value) > 0 then Some(old(pos.value) - 1) else None
    {
      pos := if pos.value > 0 then Some(pos.value - 1) else None;
    }
  }

  // ---------- the user iterator ----------

  datatype Direction = Forward | Reverse

  class DBIter {
    const iter: InternalIterator
    const sequence: nat
    var savedKey: Option<UserKey>
    var savedValue: UserValue
    var direction: Direction
    var valid: bool
    /** The index of the entry the iterator shows. */
    ghost var cur: nat

    constructor (iter: InternalIterator, sequence: nat)
      requires iter.Ok()
      ensures Ok() && !valid && this.iter == iter && this.sequence == sequence
    {
      this.iter, this.sequence := iter, sequence;
      savedKey, savedValue := None, "";
      direction, valid := Forward, false;
      cur := 0;
    }

    /** Moving forward the internal iterator sits on the entry shown; moving backward it
        sits before every entry of the saved key, with only invisible entries between. */
    ghost predicate Ok()
      reads this, iter
    {
      && iter.Ok()
      && (valid ==>
           && Yields(iter.es, sequence, cur)
           && (direction.Forward? ==> iter.pos == Some(cur))
           && (direction.Reverse? ==>
                && savedKey == Some(iter.es[cur].ikey.user) && savedValue == iter.es[cur].value
                && JustBefore(iter.es, iter.pos, cur)))
    }

    ghost predicate JustBefore(es: seq<Entry>, pos: Option<nat>, c: nat)
      requires c < |es|
    {
      match pos
      case None => forall j :: 0 <= j < c ==> !Visible(es, sequence, j)
      case Some(p) =>
        && p < c && es[p].ikey.user < es[c].ikey.user && EndsItsKey(es, p)
        && forall j :: p < j < c ==> !Visible(es, sequence, j)
    }

    function Key(): UserKey
      requires Ok() && valid
      reads this, iter
      ensures Key() == iter.es[cur].ikey.user
    {
      if direction.Forward? then iter.Current().ikey.user else savedKey.value
    }

    function Val(): UserValue
      requires Ok() && valid
      reads this, iter
      ensures Val() == iter.es[cur].value
    {
      if direction.Forward? then iter.Current().value else savedValue
    }

    /** Forward scan for the next entry to show; entries at or below the skip key are hidden. */
    method FindNextUserEntry(skipping0: bool)
      requires iter.Ok() && iter.Valid() && direction.Forward?
      requires skipping0 ==> savedKey.Some?
      requires forall j :: 0 <= j < iter.pos.value && Visible(iter.es, sequence, j) ==>
                 iter.es[j].ikey.user < iter.es[iter.pos.value].ikey.user ||
                 (skipping0 && iter.es[j].ikey.user <= savedKey.value)
      requires skipping0 ==> forall j :: iter.pos.value <= j < |iter.es| && Visible(iter.es, sequence, j) ==>
                 savedKey.value <= iter.es[j].ikey.user
      modifies this, iter
      ensures Ok() && direction.Forward?
      ensures LeastYield(iter.es, sequence, old(iter.pos.value), if skipping0 then old(savedKey) else None,
                         if valid then Some(cur) else None)
    {
      hide Yields, Less, Sorted, Scanning, LeastYield;
      ScanStarts(iter.es, sequence, iter.pos.value, if skipping0 then savedKey else None);
      ghost var es, start, above := iter.es, iter.pos.value, if skipping0 then savedKey else None;
      var skipping := skipping0;
      while iter.Valid()
        invariant iter.Ok() && direction.Forward?
        invariant Scanning(es, sequence, start, Limit(iter.pos, es), above, if skipping then savedKey else None)
        invariant skipping ==> savedKey.Some?
        decreases |es| - Limit(iter.pos, es)
      {
        var ikey := iter.Current().ikey;
        ghost var q := iter.pos.value;
        ghost var skip := if skipping then savedKey else None;
        if ikey.seqno <= sequence {
          if ikey.kind.Deletion? {
            savedKey := Some(ikey.user);
            skipping := true;
            ScanDeletion(es, sequence, start, q, above, skip);
          } else if skipping && ikey.user <= savedKey.value {
            ScanHidden(es, sequence, start, q, above, skip);
          } else {
            ScanFound(es, sequence, start, q, above, skip);
            valid := true;
            cur := q;
            savedKey := None;
            return;
          }
        } else {
          ScanInvisible(es, sequence, start, q, above, skip);
        }
        iter.Next();
      }
      ScanEnds(es, sequence, start, above, if skipping then savedKey else None);
      savedKey := None;
      valid := false;
    }

    method SeekToFirst()
      requires Ok()
      modifies this, iter
      ensures Ok()
      ensures LeastYield(iter.es, sequence, 0, None, if valid then Some(cur) else None)
    {
      direction := Forward;
      savedValue := "";
      valid := false;
      iter.SeekToFirst();
      if iter.Valid() {
        FindNextUserEntry(false);
      } else {
        valid := false;
      }
    }

    /** Positions at the first key at or after the target that is visible. */
    method Seek(target: UserKey)
      requires Ok()
      modifies this, iter
      ensures Ok()
      ensures valid ==> target <= iter.es[cur].ikey.user
      ensures forall i :: 0 <= i < (if valid then cur else |iter.es|) && Yields(iter.es, sequence, i) ==>
                iter.es[i].ikey.user < target
    {
      direction := Forward;
      savedValue := "";
      savedKey := None;
      valid := false;
      ghost var es := iter.es;
      ghost var start := FirstAtOrAfter(es, SeekKey(target, sequence));
      iter.Seek(SeekKey(target, sequence));
      SeekLandsRight(es, target, sequence);
      if iter.Valid() {
        FindNextUserEntry(false);
      } else {
        valid := false;
      }
      assert valid ==> start <= cur;
    }

    method Next()
      requires Ok() && valid
      modifies this, iter
      ensures Ok()
      ensures LeastYield(iter.es, sequence, old(cur) + 1, None, if valid then Some(cur) else None)
    {
      ghost var es, c := iter.es, cur;
      forall i | 0 <= i < |es| ensures i <= c ==> es[i].ikey.user <= es[c].ikey.user
        ensures c <= i ==> es[c].ikey.user <= es[i].ikey.user
      {
        if i <= c { UsersAscend(es, i, c); } else { UsersAscend(es, c, i); }
      }
      forall i | c < i < |es| && Yields(es, sequence, i) ensures es[c].ikey.user < es[i].ikey.user {
        YieldsOncePerKey(es, sequence, c, i);
      }
      if direction.Reverse? {
        direction := Forward;
        valid := false;
        if !iter.Valid() {
          iter.SeekToFirst();
        } else {
          iter.Next();
        }
      } else {
        savedKey := Some(iter.Current().ikey.user);
      }
      FindNextUserEntry(true);
    }

    /** Backward scan: the entry to show is the last value still standing for its key
        when an earlier key, or the front of the stream, is reached. */
    method FindPrevUserEntry()
      requires iter.Ok() && direction.Reverse?
      requires iter.Valid() ==> EndsItsKey(iter.es, iter.pos.value)
      modifies this, iter
      ensures Ok() && (direction.Forward? <==> !valid)
      ensures GreatestYield(iter.es, sequence, if old(iter.pos).Some? then old(iter.pos.value) + 1 else 0,
                            if valid then Some(cur) else None)
    {
      hide Compare;
      ghost var es, s := iter.es, sequence;
      ghost var upto := Done(iter.pos);
      var valueType := Deletion;
      ghost var c: nat := 0;
      if iter.Valid() {
        while iter.Valid()
          invariant iter.Ok() && direction.Reverse?
          invariant Done(iter.pos) <= upto <= |es|
          invariant forall i :: Done(iter.pos) <= i < upto && Yields(es, s, i) ==> valueType.Value? && i == c
          invariant valueType.Value? ==> Standing(es, s, Done(iter.pos), c, upto)
          invariant valueType.Value? ==> savedKey == Some(es[c].ikey.user) && savedValue == es[c].value
          decreases Done(iter.pos)
        {
          var e := iter.Current();
          ghost var q := iter.pos.value;
          if e.ikey.seqno <= sequence {
            if !valueType.Deletion? && e.ikey.user < savedKey.value {
              BreakEndsKey(es, s, q, c);
              break;
            }
            if valueType.Value? { UsersAscend(es, q, c); }
            valueType := e.ikey.kind;
            if valueType.Deletion? {
              savedKey, savedValue := None, "";
            } else {
              savedKey, savedValue := Some(e.ikey.user), e.value;
              c := q;
            }
          }
          iter.Prev();
        }
      }
      if valueType.Deletion? {
        valid := false;
        savedKey, savedValue := None, "";
        direction := Forward;
      } else {
        StandingYields(es, s, Done(iter.pos), c, upto);
        valid := true;
        cur := c;
      }
    }

    method SeekToLast()
      requires Ok()
      modifies this, iter
      ensures Ok()
      ensures GreatestYield(iter.es, sequence, |iter.es|, if valid then Some(cur) else None)
    {
      direction := Reverse;
      savedValue := "";
      valid := false;
      iter.SeekToLast();
      FindPrevUserEntry();
    }

    method Prev()
      requires Ok() && valid
      modifies this, iter
      ensures Ok()
      ensures GreatestYield(iter.es, sequence, old(cur), if valid then Some(cur) else None)
    {
      ghost var es, s, c := iter.es, sequence, cur;
      if direction.Forward? {
        savedKey := Some(iter.Current().ikey.user);
        while true
          invariant iter.Ok() && iter.Valid() && iter.pos.value <= c
          invariant savedKey == Some(es[c].ikey.user) && valid
          invariant forall j :: iter.pos.value <= j <= c ==> es[j].ikey.user == es[c].ikey.user
          decreases iter.pos.value
        {
          iter.Prev();
          if !iter.Valid() {
            NoYieldInRun(es, s, 0, c);
            valid := false;
            savedKey, savedValue := None, "";
            return;
          }
          UsersAscend(es, iter.pos.value, c);
          if iter.Current().ikey.user < savedKey.value {
            break;
          }
        }
        NoYieldInRun(es, s, iter.pos.value + 1, c);
        direction := Reverse;
      } else {
        NoYieldInvisible(es, s, Done(iter.pos), c);
      }
      FindPrevUserEntry();
    }
  }

  /** How many entries of the stream a backward scan has still to look at. */
  ghost function Done(pos: Option<nat>): nat {
    if pos.Some? then pos.value + 1 else 0
  }

  /** `c` is a visible value, and nothing visible has been passed since. */
  ghost predicate Standing(es: seq<Entry>, s: nat, from: nat, c: nat, upto: nat) {
    && from <= c < upto && c < |es| && Visible(es, s, c) && es[c].ikey.kind.Value?
    && forall j :: from <= j < c ==> !Visible(es, s, j)
  }

  lemma StandingYields(es: seq<Entry>, s: nat, from: nat, c: nat, upto: nat)
    requires Sorted(es) && Standing(es, s, from, c, upto) && (from > 0 ==> es[from-1].ikey.user < es[c].ikey.user)
    ensures Yields(es, s, c)
  {
    forall j | 0 <= j < from ensures es[j].ikey.user < es[c].ikey.user { UsersAscend(es, j, from - 1); }
  }

  lemma BreakEndsKey(es: seq<Entry>, s: nat, q: nat, c: nat)
    requires Sorted(es) && q < c < |es| && Visible(es, s, q) && es[q].ikey.user < es[c].ikey.user
    requires forall j :: q < j < c ==> !Visible(es, s, j)
    ensures EndsItsKey(es, q)
  {
    UsersAscend(es, q, q + 1);
    assert q + 1 < c ==> !Visible(es, s, q + 1);
  }

  lemma SeekLandsRight(es: seq<Entry>, target: UserKey, s: nat)
    requires Sorted(es)
    ensures var start := FirstAtOrAfter(es, SeekKey(target, s));
            && (forall j :: 0 <= j < start && Visible(es, s, j) ==> es[j].ikey.user < target)
            && (forall j :: start <= j < |es| ==> target <= es[j].ikey.user)
  {
    var start := FirstAtOrAfter(es, SeekKey(target, s));
    forall j | 0 <= j < |es|
      ensures j < start && Visible(es, s, j) ==> es[j].ikey.user < target
      ensures start <= j ==> target <= es[j].ikey.user
    {
      SeekKeySplits(es[j].ikey, target, s);
      if start <= j {
        SeekKeySplits(es[start].ikey, target, s);
        UsersAscend(es, start, j);
      }
    }
  }

  /** A forward scan has looked at [start, q): nothing it passed had to be shown, every
      visible entry passed is at or below the skip key, and a skip key beyond the one
      given is that of a deletion marker passed. */
  ghost predicate Scanning(es: seq<Entry>, s: nat, start: nat, q: nat, above: Option<UserKey>, skip: Option<UserKey>) {
    && Sorted(es) && start <= q <= |es| && start < |es|
    && (forall j :: 0 <= j < start && Visible(es, s, j) ==>
         es[j].ikey.user < es[start].ikey.user || (above.Some? && es[j].ikey.user <= above.value))
    && (above.Some? ==> forall j :: start <= j < |es| && Visible(es, s, j) ==> above.value <= es[j].ikey.user)
    && (above.Some? ==> skip.Some? && above.value <= skip.value)
    && (forall j :: start <= j < q && Visible(es, s, j) ==> skip.Some? && es[j].ikey.user <= skip.value)
    && (skip != above ==> SkipFromMarker(es, s, start, q, skip))
    && (forall i :: start <= i < q && Yields(es, s, i) ==> above.Some? && es[i].ikey.user <= above.value)
  }

  ghost predicate SkipFromMarker(es: seq<Entry>, s: nat, start: nat, q: nat, skip: Option<UserKey>)
    requires q <= |es|
  {
    exists j :: start <= j < q && Visible(es, s, j) && es[j].ikey.kind.Deletion? && Some(es[j].ikey.user) == skip
  }

  lemma ScanDeletion(es: seq<Entry>, s: nat, start: nat, q: nat, above: Option<UserKey>, skip: Option<UserKey>)
    requires Scanning(es, s, start, q, above, skip)
    requires q < |es| && Visible(es, s, q) && es[q].ikey.kind.Deletion?
    ensures Scanning(es, s, start, q + 1, above, Some(es[q].ikey.user))
  {
    forall j | start <= j <= q ensures es[j].ikey.user <= es[q].ikey.user { UsersAscend(es, j, q); }
    assert SkipFromMarker(es, s, start, q + 1, Some(es[q].ikey.user));
  }

  lemma ScanHidden(es: seq<Entry>, s: nat, start: nat, q: nat, above: Option<UserKey>, skip: Option<UserKey>)
    requires Scanning(es, s, start, q, above, skip)
    requires q < |es| && Visible(es, s, q) && es[q].ikey.kind.Value? && skip.Some? && es[q].ikey.user <= skip.value
    ensures Scanning(es, s, start, q + 1, above, skip)
  {
    if skip != above {
      var j :| start <= j < q && Visible(es, s, j) && es[j].ikey.kind.Deletion? && Some(es[j].ikey.user) == skip;
      UsersAscend(es, j, q);
      assert !Yields(es, s, q);
      assert SkipFromMarker(es, s, start, q + 1, skip);
    }
  }

  lemma ScanInvisible(es: seq<Entry>, s: nat, start: nat, q: nat, above: Option<UserKey>, skip: Option<UserKey>)
    requires Scanning(es, s, start, q, above, skip) && q < |es| && !Visible(es, s, q)
    ensures Scanning(es, s, start, q + 1, above, skip)
  {
    if skip != above {
      var j :| start <= j < q && Visible(es, s, j) && es[j].ikey.kind.Deletion? && Some(es[j].ikey.user) == skip;
      assert SkipFromMarker(es, s, start, q + 1, skip);
    }
  }

  lemma ScanFound(es: seq<Entry>, s: nat, start: nat, q: nat, above: Option<UserKey>, skip: Option<UserKey>)
    requires Scanning(es, s, start, q, above, skip)
    requires q < |es| && Visible(es, s, q) && es[q].ikey.kind.Value? && (skip.Some? ==> es[q].ikey.user > skip.value)
    ensures Yields(es, s, q) && LeastYield(es, s, start, above, Some(q))
  {
    UsersAscend(es, start, q);
  }

  lemma ScanStarts(es: seq<Entry>, s: nat, start: nat, above: Option<UserKey>)
    requires Sorted(es) && start < |es|
    requires forall j :: 0 <= j < start && Visible(es, s, j) ==>
               es[j].ikey.user < es[start].ikey.user || (above.Some? && es[j].ikey.user <= above.value)
    requires above.Some? ==> forall j :: start <= j < |es| && Visible(es, s, j) ==> above.value <= es[j].ikey.user
    ensures Scanning(es, s, start, start, above, above)
  {
  }

  lemma ScanEnds(es: seq<Entry>, s: nat, start: nat, above: Option<UserKey>, skip: Option<UserKey>)
    requires Scanning(es, s, start, |es|, above, skip)
    ensures LeastYield(es, s, start, above, None)
  {
  }

  /** Where a forward scan stands: its position, or the end of the stream. */
  ghost function Limit(pos: Option<nat>, es: seq<Entry>): nat {
    if pos.Some? then pos.value else |es|
  }

  /** `p` is the last entry of its user key. */
  predicate EndsItsKey(es: seq<Entry>, p: nat) {
    p < |es| && (p + 1 < |es| ==> es[p].ikey.user < es[p+1].ikey.user)
  }

  lemma NoYieldInRun(es: seq<Entry>, s: nat, from: nat, c: nat)
    requires c < |es| && Yields(es, s, c)
    requires forall j :: from <= j <= c ==> es[j].ikey.user == es[c].ikey.user
    ensures forall j :: from <= j < c ==> !Yields(es, s, j)
  {
  }

  lemma NoYieldInvisible(es: seq<Entry>, s: nat, from: nat, c: nat)
    requires c < |es| && forall j :: from <= j < c ==> !Visible(es, s, j)
    ensures forall j :: from <= j < c ==> !Yields(es, s, j)
  {
  }
}

/** The iterator as a cursor over the list of keys a snapshot can see. */
module IteratorMeaning {
  import opened InternalKeys
  import opened FlatSpec
  import opened Versions
  import opened DBIterator

  /** The positions shown, in order. */
  function Shown(es: seq<Entry>, s: nat, n: nat): (l: seq<nat>)
    requires n <= |es|
    ensures forall p :: 0 <= p < |l| ==> l[p] < n
  {
    if n == 0 then []
    else if Yields(es, s, n - 1) then Shown(es, s, n - 1) + [n - 1]
    else Shown(es, s, n - 1)
  }

  lemma {:induction false} ShownAscends(es: seq<Entry>, s: nat, n: nat)
    requires n <= |es|
    ensures Lists(es, s, n, Shown(es, s, n))
  {
    hide Yields;
    if n > 0 { ShownAscends(es, s, n - 1); }
  }

  /** `l` names exactly the shown positions below `n`, ascending. */
  ghost predicate Lists(es: seq<Entry>, s: nat, n: nat, l: seq<nat>) {
    && n <= |es|
    && (forall p :: 0 <= p < |l| ==> l[p] < n && Yields(es, s, l[p]))
    && (forall p, q :: 0 <= p < q < |l| ==> l[p] < l[q])
    && (forall i :: 0 <= i < n && Yields(es, s, i) ==> i in l)
  }

  /** The list shown is the flat reading of the stream: its keys ascend strictly, and a
      key with its value is on it exactly when a read at the snapshot returns that value. */
  lemma ShownIsRead(es: seq<Entry>, s: nat)
    requires Sorted(es) && UniqueSeq(Elems(es))
    ensures var l := Shown(es, s, |es|);
            && (forall p, q :: 0 <= p < q < |l| ==> es[l[p]].ikey.user < es[l[q]].ikey.user)
            && (forall k, v :: Read(Elems(es), k, s) == Some(v) <==>
                 exists p :: 0 <= p < |l| && es[l[p]].ikey.user == k && es[l[p]].value == v)
  {
    hide Shown, Yields, Sorted, UniqueSeq, Read;
    ShownAscends(es, s, |es|);
    var l := Shown(es, s, |es|);
    forall p, q | 0 <= p < q < |l| ensures es[l[p]].ikey.user < es[l[q]].ikey.user {
      YieldsOncePerKey(es, s, l[p], l[q]);
    }
    forall k, v ensures Read(Elems(es), k, s) == Some(v) <==>
                        exists p :: 0 <= p < |l| && es[l[p]].ikey.user == k && es[l[p]].value == v {
      ListIsRead(es, s, l, k, v);
    }
  }

  lemma ListIsRead(es: seq<Entry>, s: nat, l: seq<nat>, k: UserKey, v: UserValue)
    requires Sorted(es) && UniqueSeq(Elems(es)) && Lists(es, s, |es|, l)
    ensures Read(Elems(es), k, s) == Some(v) <==>
            exists p :: 0 <= p < |l| && es[l[p]].ikey.user == k && es[l[p]].value == v
  {
    hide Yields, Sorted, UniqueSeq, Read;
    if Read(Elems(es), k, s) == Some(v) {
      var i := ReadIsYielded(es, s, k);
      var p :| 0 <= p < |l| && l[p] == i;
      assert es[l[p]].ikey.user == k && es[l[p]].value == v;
    }
    if p :| 0 <= p < |l| && es[l[p]].ikey.user == k && es[l[p]].value == v {
      YieldIsNewest(es, s, l[p]);
    }
  }

  lemma YieldIsNewest(es: seq<Entry>, s: nat, i: nat)
    requires Sorted(es) && UniqueSeq(Elems(es)) && i < |es| && Yields(es, s, i)
    ensures Read(Elems(es), es[i].ikey.user, s) == Some(es[i].value)
  {
    forall d | d in Elems(es) && Sees(d, es[i].ikey.user, s) ensures d.ikey.seqno <= es[i].ikey.seqno {
      var j :| 0 <= j < |es| && es[j] == d;
      if i < j { UsersAscend(es, i, j); }
    }
    NewestIs(Elems(es), es[i].ikey.user, s, es[i]);
  }

  lemma ReadIsYielded(es: seq<Entry>, s: nat, k: UserKey) returns (i: nat)
    requires Sorted(es) && UniqueSeq(Elems(es)) && Read(Elems(es), k, s).Some?
    ensures i < |es| && Yields(es, s, i) && es[i].ikey.user == k && Read(Elems(es), k, s) == Some(es[i].value)
  {
    var e := Newest(Elems(es), k, s).value;
    i :| 0 <= i < |es| && es[i] == e;
    forall j | 0 <= j < i && es[j].ikey.user == k ensures !Visible(es, s, j) {
      UsersAscend(es, j, i);
      assert es[j] in Elems(es);
      CompareIsLexicographic(es[j].ikey, es[i].ikey);
    }
  }

  datatype Move = ToFirst | ToLast | To(target: UserKey) | Forth | Back

  /** What a move does to a position on the list. */
  ghost function Walk(es: seq<Entry>, l: seq<nat>, at: Option<nat>, m: Move): Option<nat>
    requires forall p :: 0 <= p < |l| ==> l[p] < |es|
  {
    match m
    case ToFirst => if l == [] then None else Some(0)
    case ToLast => if l == [] then None else Some(|l| - 1)
    case To(t) => FirstFrom(es, l, t, 0)
    case Forth => if at.Some? && at.value + 1 < |l| then Some(at.value + 1) else None
    case Back => if at.Some? && at.value > 0 then Some(at.value - 1) else None
  }

  ghost function FirstFrom(es: seq<Entry>, l: seq<nat>, t: UserKey, p: nat): (r: Option<nat>)
    requires p <= |l| && forall p :: 0 <= p < |l| ==> l[p] < |es|
    ensures r.Some? ==> p <= r.value < |l| && es[l[r.value]].ikey.user >= t &&
                        forall q :: p <= q < r.value ==> es[l[q]].ikey.user < t
    ensures r.None? ==> forall q :: p <= q < |l| ==> es[l[q]].ikey.user < t
    decreases |l| - p
  {
    if p == |l| then None else if es[l[p]].ikey.user >= t then Some(p) else FirstFrom(es, l, t, p + 1)
  }

  ghost function WalkAll(es: seq<Entry>, l: seq<nat>, moves: seq<Move>): Option<nat>
    requires forall p :: 0 <= p < |l| ==> l[p] < |es|
  {
    if moves == [] then None else Walk(es, l, WalkAll(es, l, moves[..|moves|-1]), moves[|moves|-1])
  }

  ghost predicate Sits(es: seq<Entry>, s: nat, at: Option<nat>, r: Option<nat>) {
    var l := Shown(es, s, |es|);
    if at.None? then r.None? else at.value < |l| && r == Some(l[at.value])
  }

  lemma LeastSits(es: seq<Entry>, s: nat, from: nat, r: Option<nat>, p: nat)
    requires LeastYield(es, s, from, None, r)
    requires p <= |Shown(es, s, |es|)|
    requires forall q :: 0 <= q < p ==> Shown(es, s, |es|)[q] < from
    requires forall q :: p <= q < |Shown(es, s, |es|)| ==> from <= Shown(es, s, |es|)[q]
    ensures Sits(es, s, if p < |Shown(es, s, |es|)| then Some(p) else None, r)
  {
    ShownAscends(es, s, |es|);
    var l := Shown(es, s, |es|);
    assert p < |l| ==> Yields(es, s, l[p]);
    if r.Some? {
      var q :| 0 <= q < |l| && l[q] == r.value;
      assert p <= q;
    }
  }

  lemma GreatestSits(es: seq<Entry>, s: nat, upto: nat, r: Option<nat>, p: nat)
    requires GreatestYield(es, s, upto, r)
    requires p <= |Shown(es, s, |es|)|
    requires forall q :: 0 <= q < p ==> Shown(es, s, |es|)[q] < upto
    requires forall q :: p <= q < |Shown(es, s, |es|)| ==> upto <= Shown(es, s, |es|)[q]
    ensures Sits(es, s, if p > 0 then Some(p - 1) else None, r)
  {
    ShownAscends(es, s, |es|);
    var l := Shown(es, s, |es|);
    assert p > 0 ==> Yields(es, s, l[p-1]);
    if r.Some? {
      var q :| 0 <= q < |l| && l[q] == r.value;
      assert q < p;
    }
  }

  ghost function Spot(it: DBIter): Option<nat>
    reads it
  {
    if it.valid then Some(it.cur) else None
  }

  method Step(it: DBIter, m: Move, ghost at: Option<nat>)
    requires it.Ok() && Sits(it.iter.es, it.sequence, at, Spot(it))
    modifies it, it.iter
    ensures it.Ok()
    ensures var es := it.iter.es;
            Sits(es, it.sequence, Walk(es, Shown(es, it.sequence, |es|), at, m), Spot(it))
  {
    ghost var es, s := it.iter.es, it.sequence;
    match m
    case ToFirst => StepToEnd(it, true);
    case ToLast => StepToEnd(it, false);
    case To(t) =>
      it.Seek(t);
      SeekSits(es, s, t, Spot(it));
    case Forth => StepForth(it, at);
    case Back => StepBack(it, at);
  }

  method StepToEnd(it: DBIter, first: bool)
    requires it.Ok()
    modifies it, it.iter
    ensures it.Ok()
    ensures var es := it.iter.es;
            Sits(es, it.sequence, Walk(es, Shown(es, it.sequence, |es|), None, if first then ToFirst else ToLast), Spot(it))
  {
    ghost var es, s := it.iter.es, it.sequence;
    ShownAscends(es, s, |es|);
    if first {
      it.SeekToFirst();
      LeastSits(es, s, 0, Spot(it), 0);
    } else {
      it.SeekToLast();
      GreatestSits(es, s, |es|, Spot(it), |Shown(es, s, |es|)|);
    }
  }

  method StepForth(it: DBIter, ghost at: Option<nat>)
    requires it.Ok() && Sits(it.iter.es, it.sequence, at, Spot(it))
    modifies it, it.iter
    ensures it.Ok()
    ensures var es := it.iter.es;
            Sits(es, it.sequence, Walk(es, Shown(es, it.sequence, |es|), at, Forth), Spot(it))
  {
    hide Yields, Shown, LeastYield;
    ghost var es, s := it.iter.es, it.sequence;
    ShownAscends(es, s, |es|);
    if it.valid {
      it.Next();
      LeastSits(es, s, Shown(es, s, |es|)[at.value] + 1, Spot(it), at.value + 1);
    }
  }

  method StepBack(it: DBIter, ghost at: Option<nat>)
    requires it.Ok() && Sits(it.iter.es, it.sequence, at, Spot(it))
    modifies it, it.iter
    ensures it.Ok()
    ensures var es := it.iter.es;
            Sits(es, it.sequence, Walk(es, Shown(es, it.sequence, |es|), at, Back), Spot(it))
  {
    ghost var es, s := it.iter.es, it.sequence;
    ShownAscends(es, s, |es|);
    if it.valid {
      it.Prev();
      GreatestSits(es, s, Shown(es, s, |es|)[at.value], Spot(it), at.value);
    }
  }

  lemma SeekSits(es: seq<Entry>, s: nat, t: UserKey, r: Option<nat>)
    requires Sorted(es)
    requires r.Some? ==> r.value < |es| && Yields(es, s, r.value) && t <= es[r.value].ikey.user
    requires forall i :: 0 <= i < (if r.Some? then r.value else |es|) && Yields(es, s, i) ==> es[i].ikey.user < t
    ensures Sits(es, s, FirstFrom(es, Shown(es, s, |es|), t, 0), r)
  {
    ShownAscends(es, s, |es|);
    var l := Shown(es, s, |es|);
    var at := FirstFrom(es, l, t, 0);
    assert at.Some? ==> Yields(es, s, l[at.value]);
    if r.Some? {
      var q :| 0 <= q < |l| && l[q] == r.value;
      assert at.Some? && at.value <= q;
    }
  }

  /** Any mix of seeks and steps in either direction leaves the iterator on exactly the
      element of the visible list that the same mix of moves reaches there. */
  method Drive(es: seq<Entry>, s: nat, moves: seq<Move>) returns (shown: Option<(UserKey, UserValue)>)
    requires Sorted(es)
    ensures var l := Shown(es, s, |es|);
            match WalkAll(es, l, moves)
            case None => shown.None?
            case Some(p) => p < |l| && shown == Some((es[l[p]].ikey.user, es[l[p]].value))
  {
    ShownAscends(es, s, |es|);
    var iter := new InternalIterator(es);
    var it := new DBIter(iter, s);
    var i := 0;
    while i < |moves|
      invariant 0 <= i <= |moves| && it.Ok() && it.iter == iter && it.sequence == s && fresh(it) && fresh(iter)
      invariant Sits(es, s, WalkAll(es, Shown(es, s, |es|), moves[..i]), Spot(it))
    {
      assert moves[..i+1][..i] == moves[..i];
      Step(it, moves[i], WalkAll(es, Shown(es, s, |es|), moves[..i]));
      i := i + 1;
    }
    assert moves[..i] == moves;
    shown := if it.valid then Some((it.Key(), it.Val())) else None;
  }

  /** A step and the step back return to the same entry, across the change of direction. */
  method ThereAndBack(it: DBIter, forthFirst: bool)
    requires it.Ok() && it.valid
    modifies it, it.iter
    ensures it.Ok()
    ensures it.valid ==> it.cur == old(it.cur) && it.Key() == old(it.Key()) && it.Val() == old(it.Val())
    ensures !it.valid ==> if forthFirst then LeastYield(it.iter.es, it.sequence, old(it.cur) + 1, None, None)
                          else GreatestYield(it.iter.es, it.sequence, old(it.cur), None)
  {
    if forthFirst {
      it.Next();
      if it.valid { it.Prev(); }
    } else {
      it.Prev();
      if it.valid { it.Next(); }
    }
  }
}
