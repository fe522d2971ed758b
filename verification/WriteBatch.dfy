/** The bytes of a write batch (db/write_batch.cc): a header holding a sequence number and a count,
    then one tagged record per operation. */
module BatchFormat {
  import opened InternalKeys
  import opened LogFormat
  import opened Coding

  datatype Record = Put(key: seq<Byte>, value: seq<Byte>) | Delete(key: seq<Byte>)

  datatype Status = Good | Corruption(message: string)

  const HEADER: nat := 12

  /** What 32 bits keep of a count. */
  function Wrap32(n: nat): (r: nat)
    ensures r < TWO_32
  {
    if n < TWO_32 then n else Wrap32(n - TWO_32)
  }

  lemma {:induction false} Wrap32IsModulo(n: nat)
    ensures Wrap32(n) == n % 0x1_0000_0000
  {
    if n >= TWO_32 { Wrap32IsModulo(n - TWO_32); }
  }

  predicate FitsRecord(r: Record) {
    |r.key| < TWO_32 && (r.Put? ==> |r.value| < TWO_32)
  }

  predicate FitAll(rs: seq<Record>) {
    forall i :: 0 <= i < |rs| ==> FitsRecord(rs[i])
  }

  function Printed(r: Record): (bs: seq<Byte>)
    ensures bs != []
  {
    match r
    case Put(key, value) => [1] + (LengthPrefixed(key) + LengthPrefixed(value))
    case Delete(key) => [0] + LengthPrefixed(key)
  }

  function Records(rs: seq<Record>): seq<Byte> {
    if rs == [] then [] else Records(rs[..|rs| - 1]) + Printed(rs[|rs| - 1])
  }

  function Count(rep: seq<Byte>): nat
    requires |rep| >= HEADER
  {
    DecodeFixed32(rep[8..HEADER])
  }

  function Sequence(rep: seq<Byte>): nat
    requires |rep| >= HEADER
  {
    DecodeFixed64(rep[..8])
  }

  /** `rep` is the batch of these operations, starting at sequence number `first`; the count is
      kept in 32 bits. */
  predicate IsBatch(rep: seq<Byte>, first: nat, rs: seq<Record>) {
    |rep| >= HEADER && Sequence(rep) == first && Count(rep) == Wrap32(|rs|) && rep[HEADER..] == Records(rs)
  }

  datatype Step = Refused(message: string) | Took(record: Record, rest: seq<Byte>)

  function ParsePut(input: seq<Byte>): (r: Step)
    ensures r.Took? ==> |r.rest| < |input|
  {
    var key := GetLengthPrefixed(input);
    if key.None? then Refused("bad WriteBatch Put") else
    var value := GetLengthPrefixed(key.value.rest);
    if value.None? then Refused("bad WriteBatch Put")
    else Took(Put(key.value.value, value.value.value), value.value.rest)
  }

  function ParseDelete(input: seq<Byte>): (r: Step)
    ensures r.Took? ==> |r.rest| < |input|
  {
    var key := GetLengthPrefixed(input);
    if key.None? then Refused("bad WriteBatch Delete") else Took(Delete(key.value.value), key.value.rest)
  }

  function Next(input: seq<Byte>): (r: Step)
    requires input != []
    ensures r.Took? ==> |r.rest| < |input|
  {
    if input[0] == 1 then ParsePut(input[1..])
    else if input[0] == 0 then ParseDelete(input[1..])
    else Refused("unknown WriteBatch tag")
  }

  /** The records an iteration hands over before its input ends or a record is refused. */
  function Walk(input: seq<Byte>): (seq<Record>, Status)
    decreases |input|
  {
    if input == [] then ([], Good)
    else match Next(input)
      case Refused(message) => ([], Corruption(message))
      case Took(record, rest) => var (rs, status) := Walk(rest); ([record] + rs, status)
  }

  /** What iterating over a batch's bytes hands to the handler, and how it ends. */
  function Iterated(rep: seq<Byte>): (seq<Record>, Status) {
    if |rep| < HEADER then ([], Corruption("malformed WriteBatch (too small)"))
    else
      var (rs, status) := Walk(rep[HEADER..]);
      if status.Good? && Wrap32(|rs|) != Count(rep) then (rs, Corruption("WriteBatch has wrong count"))
      else (rs, status)
  }

  // ---------- printing then parsing ----------

  lemma Associate(x: seq<Byte>, y: seq<Byte>, z: seq<Byte>)
    ensures x + y + z == x + (y + z)
  {
  }

  lemma TagThenRest(tag: Byte, body: seq<Byte>)
    ensures ([tag] + body)[0] == tag && ([tag] + body)[1..] == body
  {
  }

  lemma PutReadsBack(key: seq<Byte>, value: seq<Byte>, rest: seq<Byte>)
    requires |key| < TWO_32 && |value| < TWO_32
    ensures ParsePut(LengthPrefixed(key) + LengthPrefixed(value) + rest) == Took(Put(key, value), rest)
  {
    Associate(LengthPrefixed(key), LengthPrefixed(value), rest);
    LengthPrefixedReadsBack(key, LengthPrefixed(value) + rest);
    LengthPrefixedReadsBack(value, rest);
  }

  lemma DeleteReadsBack(key: seq<Byte>, rest: seq<Byte>)
    requires |key| < TWO_32
    ensures ParseDelete(LengthPrefixed(key) + rest) == Took(Delete(key), rest)
  {
    LengthPrefixedReadsBack(key, rest);
  }

  lemma RecordReadsBack(r: Record, rest: seq<Byte>)
    requires FitsRecord(r)
    ensures Printed(r) + rest != [] && Next(Printed(r) + rest) == Took(r, rest)
  {
    match r {
      case Put(key, value) =>
        var body := LengthPrefixed(key) + LengthPrefixed(value);
        Associate([1], body, rest);
        TagThenRest(1, body + rest);
        PutReadsBack(key, value, rest);
      case Delete(key) =>
        Associate([0], LengthPrefixed(key), rest);
        TagThenRest(0, LengthPrefixed(key) + rest);
        DeleteReadsBack(key, rest);
    }
  }

  lemma RecordsSnoc(rs: seq<Record>, r: Record)
    ensures Records(rs + [r]) == Records(rs) + Printed(r)
  {
    assert (rs + [r])[..|rs|] == rs;
  }

  lemma {:induction false} RecordsConcat(a: seq<Record>, b: seq<Record>)
    ensures Records(a + b) == Records(a) + Records(b)
    decreases |b|
  {
    if b == [] {
      assert a + b == a;
    } else {
      var c, last := b[..|b| - 1], b[|b| - 1];
      RecordsConcat(a, c);
      Unsnoc(a, b);
      RecordsSnoc(a + c, last);
      Associate(Records(a), Records(c), Printed(last));
    }
  }

  lemma Unsnoc(a: seq<Record>, b: seq<Record>)
    requires b != []
    ensures a + b[..|b| - 1] + [b[|b| - 1]] == a + b
  {
  }

  lemma RecordsOne(r: Record)
    ensures Records([r]) == Printed(r)
  {
    assert [r][..0] == [];
  }

  lemma Uncons(rs: seq<Record>)
    requires rs != []
    ensures [rs[0]] + rs[1..] == rs
  {
  }

  lemma RecordsHead(rs: seq<Record>)
    requires rs != []
    ensures Records(rs) == Printed(rs[0]) + Records(rs[1..])
  {
    Uncons(rs);
    RecordsConcat([rs[0]], rs[1..]);
    RecordsOne(rs[0]);
  }

  lemma WalkStep(r: Record, rest: seq<Byte>)
    requires FitsRecord(r)
    ensures Walk(Printed(r) + rest) == ([r] + Walk(rest).0, Walk(rest).1)
  {
    RecordReadsBack(r, rest);
  }

  lemma {:induction false} WalkReadsBack(rs: seq<Record>)
    requires FitAll(rs)
    ensures Walk(Records(rs)) == (rs, Good)
    decreases |rs|
  {
    if rs != [] {
      RecordsHead(rs);
      WalkStep(rs[0], Records(rs[1..]));
      WalkReadsBack(rs[1..]);
      Uncons(rs);
    }
  }

  /** Iterating over a batch hands over its operations, in order, and ends well. */
  lemma BatchReadsBack(rep: seq<Byte>, first: nat, rs: seq<Record>)
    requires IsBatch(rep, first, rs) && FitAll(rs)
    ensures Iterated(rep) == (rs, Good)
  {
    WalkReadsBack(rs);
  }

  /** The operations a batch's bytes name. */
  function Contents(rep: seq<Byte>): seq<Record> {
    Iterated(rep).0
  }

  /** The bytes are exactly those of the operations they name. */
  predicate Sound(rep: seq<Byte>) {
    |rep| >= HEADER && FitAll(Contents(rep)) && IsBatch(rep, Sequence(rep), Contents(rep))
  }

  lemma BatchIsSound(rep: seq<Byte>, first: nat, rs: seq<Record>)
    requires IsBatch(rep, first, rs) && FitAll(rs)
    ensures Sound(rep) && Contents(rep) == rs && Sequence(rep) == first && Iterated(rep).1.Good?
  {
    BatchReadsBack(rep, first, rs);
  }

  // ---------- changing a batch ----------

  function WithCount(rep: seq<Byte>, n: nat): seq<Byte>
    requires |rep| >= HEADER && n < TWO_32
  {
    rep[..8] + Fixed32(n) + rep[HEADER..]
  }

  function WithSequence(rep: seq<Byte>, first: nat): seq<Byte>
    requires |rep| >= HEADER
  {
    Fixed64(first) + rep[8..]
  }

  lemma {:induction false} WrapAdd(m: nat, n: nat)
    ensures Wrap32(Wrap32(m) + n) == Wrap32(m + n)
  {
    if m >= TWO_32 { WrapAdd(m - TWO_32, n); }
  }

  lemma CountsAdd(m: nat, n: nat)
    ensures Wrap32(Wrap32(m) + Wrap32(n)) == Wrap32(m + n)
  {
    WrapAdd(m, Wrap32(n));
    WrapAdd(n, m);
  }

  /** `joined` is `rep` with its count set to `n` and more bytes behind it. */
  predicate Extends(rep: seq<Byte>, joined: seq<Byte>, n: nat, more: seq<Byte>) {
    && |rep| >= HEADER && |joined| >= HEADER
    && Sequence(joined) == Sequence(rep)
    && Count(joined) == n
    && joined[HEADER..] == rep[HEADER..] + more
  }

  lemma Recounted(rep: seq<Byte>, n: nat, more: seq<Byte>)
    requires |rep| >= HEADER && n < TWO_32
    ensures Extends(rep, WithCount(rep, n) + more, n, more)
  {
    var joined := WithCount(rep, n) + more;
    assert joined[..8] == rep[..8] && joined[8..HEADER] == Fixed32(n);
    Fixed32RoundTrip(n);
  }

  lemma JoinRecords(rep: seq<Byte>, joined: seq<Byte>, a: seq<Record>, b: seq<Record>)
    requires |rep| >= HEADER && |joined| >= HEADER && rep[HEADER..] == Records(a)
    requires joined[HEADER..] == rep[HEADER..] + Records(b)
    ensures joined[HEADER..] == Records(a + b)
  {
    RecordsConcat(a, b);
  }

  lemma SameWrap(m: nat, n: nat)
    requires m == n
    ensures Wrap32(m) == Wrap32(n)
  {
  }

  lemma JoinCount(a: seq<Record>, b: seq<Record>, c: nat, d: nat)
    requires c == Wrap32(|a|) && d == Wrap32(|b|)
    ensures Wrap32(c + d) == Wrap32(|a + b|)
  {
    CountsAdd(|a|, |b|);
    SameWrap(|a| + |b|, |a + b|);
  }

  /** Two batches in one: the records follow each other under the joint count. */
  lemma JoinIsBatch(rep: seq<Byte>, joined: seq<Byte>, w: nat, first: nat, a: seq<Record>, b: seq<Record>)
    requires IsBatch(rep, first, a)
    requires Extends(rep, joined, w, Records(b)) && w == Wrap32(|a + b|)
    ensures IsBatch(joined, first, a + b)
  {
    JoinRecords(rep, joined, a, b);
  }

  lemma ResequencedIsBatch(rep: seq<Byte>, first: nat, first': nat, rs: seq<Record>)
    requires IsBatch(rep, first, rs) && first' < TWO_64
    ensures IsBatch(WithSequence(rep, first'), first', rs)
  {
    var rep' := WithSequence(rep, first');
    assert rep'[..8] == Fixed64(first') && rep'[8..HEADER] == rep[8..HEADER] && rep'[HEADER..] == rep[HEADER..];
    Fixed64RoundTrip(first');
  }
}

/** The batch object. */
module WriteBatches {
  import opened InternalKeys
  import opened LogFormat
  import opened Coding
  import opened BatchFormat
  import opened FlatSpec
  import Store
  import MemTables
  import WrittenReads

  /** What a record asks of the store, given the rank of a key and the text of a value. */
  function Meaning(r: Record, rank: seq<Byte> -> UserKey, text: seq<Byte> -> UserValue): Store.Op {
    match r
    case Put(key, value) => Store.PutOp(rank(key), text(value))
    case Delete(key) => Store.DeleteOp(rank(key))
  }

  function Meanings(rs: seq<Record>, rank: seq<Byte> -> UserKey, text: seq<Byte> -> UserValue): (ops: seq<Store.Op>)
    ensures |ops| == |rs|
  {
    seq(|rs|, i requires 0 <= i < |rs| => Meaning(rs[i], rank, text))
  }

  /** The record at `i` is the last of the first `n` on the key. */
  predicate LastRecordOn(rs: seq<Record>, n: nat, rank: seq<Byte> -> UserKey, k: UserKey, i: nat)
    requires n <= |rs|
  {
    i < n && rank(rs[i].key) == k && forall j :: i < j < n ==> rank(rs[j].key) != k
  }

  /** A read at `s` of a key gives the value of the last Put on it among the records numbered up to `s`, nothing if
      the last on it is a Delete, and what was read before if none is on it. */
  ghost predicate BatchTakesEffect(before: set<Entry>, after: set<Entry>, rs: seq<Record>, first: nat,
                                   rank: seq<Byte> -> UserKey, text: seq<Byte> -> UserValue)
  {
    forall k: UserKey, s: nat ::
      var n := WrittenReads.SeenAt(|rs|, first, s);
      && (forall i: nat :: LastRecordOn(rs, n, rank, k, i) ==>
            Read(after, k, s) == match rs[i] case Put(_, value) => Some(text(value)) case Delete(_) => None)
      && ((forall i :: 0 <= i < n ==> rank(rs[i].key) != k) ==> Read(after, k, s) == Read(before, k, s))
  }

  lemma MeaningsTakeEffect(before: set<Entry>, after: set<Entry>, rs: seq<Record>, first: nat,
                           rank: seq<Byte> -> UserKey, text: seq<Byte> -> UserValue)
    requires WrittenReads.TakesEffect(before, after, Meanings(rs, rank, text), first)
    ensures BatchTakesEffect(before, after, rs, first, rank, text)
  {
    var ops := Meanings(rs, rank, text);
    forall k: UserKey, s: nat, i: nat | LastRecordOn(rs, WrittenReads.SeenAt(|rs|, first, s), rank, k, i)
      ensures Read(after, k, s) == match rs[i] case Put(_, value) => Some(text(value)) case Delete(_) => None
    {
      assert WrittenReads.LastOn(ops, WrittenReads.SeenAt(|ops|, first, s), k, i);
    }
  }

  /** The empty batch. */
  lemma BlankIsBatch(rep: seq<Byte>)
    requires rep == Zeros(HEADER)
    ensures Sound(rep) && Contents(rep) == [] && Sequence(rep) == 0
  {
    BatchIsSound(rep, 0, []);
  }

  lemma Appended(rep: seq<Byte>, joined: seq<Byte>, w: nat, rs: seq<Record>)
    requires Sound(rep) && FitAll(rs)
    requires Extends(rep, joined, w, Records(rs)) && w == Wrap32(|Contents(rep) + rs|)
    ensures Sound(joined) && Contents(joined) == Contents(rep) + rs && Sequence(joined) == Sequence(rep)
  {
    JoinIsBatch(rep, joined, w, Sequence(rep), Contents(rep), rs);
    BatchIsSound(joined, Sequence(rep), Contents(rep) + rs);
  }

  lemma AppendedCount(rep: seq<Byte>, added: nat, rs: seq<Record>)
    requires Sound(rep) && added == Wrap32(|rs|)
    ensures Wrap32(Count(rep) + added) == Wrap32(|Contents(rep) + rs|)
  {
    JoinCount(Contents(rep), rs, Count(rep), added);
  }

  lemma HasHeader(rep: seq<Byte>)
    requires Sound(rep)
    ensures |rep| >= HEADER
  {
  }

  class WriteBatch {
    var rep: seq<Byte>

    constructor ()
      ensures Sound(rep) && Contents(rep) == [] && Sequence(rep) == 0
    {
      rep := Zeros(HEADER);
      BlankIsBatch(Zeros(HEADER));
    }

    method Clear()
      modifies this
      ensures Sound(rep) && Contents(rep) == [] && Sequence(rep) == 0
    {
      rep := Zeros(HEADER);
      BlankIsBatch(rep);
    }

    /** SetCount, then bytes behind the last record. */
    method Patch(count: nat, more: seq<Byte>)
      requires |rep| >= HEADER && count < TWO_32
      modifies this
      ensures Extends(old(rep), rep, count, more)
    {
      Recounted(rep, count, more);
      rep := WithCount(rep, count) + more;
    }

    method Extend(added: nat, more: seq<Byte>, ghost rs: seq<Record>)
      requires Sound(rep) && FitAll(rs) && added == Wrap32(|rs|) && more == Records(rs)
      modifies this
      ensures Sound(rep) && Contents(rep) == old(Contents(rep)) + rs && Sequence(rep) == old(Sequence(rep))
    {
      hide Count, Sound, Contents, Extends, Wrap32, Records, Sequence;
      HasHeader(rep);
      ghost var before := rep;
      AppendedCount(rep, added, rs);
      var count := Wrap32(Count(rep) + added);
      Patch(count, more);
      Appended(before, rep, count, rs);
    }

    method Put(key: seq<Byte>, value: seq<Byte>)
      requires Sound(rep) && |key| < TWO_32 && |value| < TWO_32
      modifies this
      ensures Sound(rep) && Sequence(rep) == old(Sequence(rep))
      ensures Contents(rep) == old(Contents(rep)) + [Record.Put(key, value)]
    {
      RecordsOne(Record.Put(key, value));
      Extend(1, Printed(Record.Put(key, value)), [Record.Put(key, value)]);
    }

    method Delete(key: seq<Byte>)
      requires Sound(rep) && |key| < TWO_32
      modifies this
      ensures Sound(rep) && Sequence(rep) == old(Sequence(rep))
      ensures Contents(rep) == old(Contents(rep)) + [Record.Delete(key)]
    {
      RecordsOne(Record.Delete(key));
      Extend(1, Printed(Record.Delete(key)), [Record.Delete(key)]);
    }

    /** Appending a batch, possibly itself, appends its operations. */
    method Append(source: WriteBatch)
      requires Sound(rep) && Sound(source.rep)
      modifies this
      ensures Sound(rep) && Contents(rep) == old(Contents(rep)) + old(Contents(source.rep))
      ensures Sequence(rep) == old(Sequence(rep))
    {
      Extend(Count(source.rep), source.rep[HEADER..], Contents(source.rep));
    }

    method SetSequence(first: nat)
      requires Sound(rep) && first < TWO_64
      modifies this
      ensures Sound(rep) && Contents(rep) == old(Contents(rep)) && Sequence(rep) == first
    {
      ResequencedIsBatch(rep, Sequence(rep), first, Contents(rep));
      BatchIsSound(WithSequence(rep, first), first, Contents(rep));
      rep := WithSequence(rep, first);
    }

    /** The records handed to a handler, in order, and the final status. */
    method Iterate() returns (handled: seq<Record>, status: Status)
      ensures (handled, status) == Iterated(rep)
    {
      hide Count, Next;
      if |rep| < HEADER {
        return [], Corruption("malformed WriteBatch (too small)");
      }
      handled, status := [], Good;
      var input := rep[HEADER..];
      var found := 0;
      assert handled + Walk(input).0 == Walk(input).0;
      while input != []
        invariant found == |handled|
        invariant Walk(rep[HEADER..]) == (handled + Walk(input).0, Walk(input).1)
        decreases |input|
      {
        found := found + 1;
        var step := Next(input);
        if step.Refused? {
          assert handled + Walk(input).0 == handled;
          return handled, Corruption(step.message);
        }
        assert handled + Walk(input).0 == handled + [step.record] + Walk(step.rest).0;
        handled, input := handled + [step.record], step.rest;
      }
      assert handled + Walk(input).0 == handled;
      if Wrap32(found) != Count(rep) {
        status := Corruption("WriteBatch has wrong count");
      }
    }

    /** Each record handed over enters the memtable under the next sequence number. */
    method InsertInto(mem: MemTables.MemTable, rank: seq<Byte> -> UserKey, text: seq<Byte> -> UserValue)
        returns (status: Status)
      requires |rep| >= HEADER
      requires Sorted(mem.table) && forall e :: e in mem.table ==> e.ikey.seqno < Sequence(rep)
      modifies mem
      ensures status == Iterated(rep).1
      ensures Sorted(mem.table)
      ensures Elems(mem.table) ==
              old(Elems(mem.table)) + Elems(Store.Stamp(Meanings(Contents(rep), rank, text), Sequence(rep)))
      ensures UniqueSeq(old(Elems(mem.table))) ==>
                BatchTakesEffect(old(Elems(mem.table)), Elems(mem.table), Contents(rep), Sequence(rep), rank, text)
    {
      hide WrittenReads.TakesEffect, BatchTakesEffect;
      var handled;
      handled, status := Iterate();
      ghost var before := Elems(mem.table);
      mem.InsertInto(Meanings(handled, rank, text), Sequence(rep));
      if UniqueSeq(before) {
        MeaningsTakeEffect(before, Elems(mem.table), handled, Sequence(rep), rank, text);
      }
    }
  }
}
