/** Internal keys, entries and their order (db/dbformat.h, db/dbformat.cc).

    A user key is represented by its rank under the user comparator: the store
    only ever compares user keys, and a run mentions finitely many of them. */
module InternalKeys {
  type UserKey = int
  type UserValue = string

  datatype Option<+T> = None | Some(value: T)

  datatype ValueType = Deletion | Value

  const MAX_SEQUENCE_NUMBER: nat := 0x100_0000_0000_0000 - 1
  const NUM_LEVELS: nat := 7

  datatype InternalKey = InternalKey(user: UserKey, seqno: nat, kind: ValueType)

  datatype Entry = Entry(ikey: InternalKey, value: UserValue)

  function TypeCode(t: ValueType): nat {
    if t.Deletion? then 0 else 1
  }

  /** The 64-bit trailer of an internal key: sequence number shifted over the type byte. */
  function PackSequenceAndType(seqno: nat, t: ValueType): nat {
    seqno * 0x100 + TypeCode(t)
  }

  function Tag(k: InternalKey): nat {
    PackSequenceAndType(k.seqno, k.kind)
  }

  /** Three-way comparison: user key ascending, then packed trailer descending. */
  function Compare(a: InternalKey, b: InternalKey): int {
    if a.user < b.user then -1
    else if a.user > b.user then 1
    else if Tag(a) > Tag(b) then -1
    else if Tag(a) < Tag(b) then 1
    else 0
  }

  predicate Less(a: InternalKey, b: InternalKey) {
    Compare(a, b) < 0
  }

  /** The key a lookup of `user` at snapshot `s` seeks to (kValueTypeForSeek is kTypeValue). */
  function SeekKey(user: UserKey, s: nat): InternalKey {
    InternalKey(user, s, Value)
  }

  /** The trailer fits 64 bits, and both parts can be read back from it. */
  lemma TrailerRoundTrip(seqno: nat, t: ValueType)
    requires seqno <= MAX_SEQUENCE_NUMBER
    ensures PackSequenceAndType(seqno, t) < 0x1_0000_0000_0000_0000
    ensures PackSequenceAndType(seqno, t) / 0x100 == seqno
    ensures PackSequenceAndType(seqno, t) % 0x100 == TypeCode(t)
  {
  }

  /** The packed comparison is the lexicographic one: user key up, sequence
      number down, type down; it is a strict total order whose ties are equal keys. */
  lemma CompareIsLexicographic(a: InternalKey, b: InternalKey)
    ensures Less(a, b) <==>
            a.user < b.user ||
            (a.user == b.user &&
             (a.seqno > b.seqno || (a.seqno == b.seqno && a.kind.Value? && b.kind.Deletion?)))
    ensures Compare(a, b) == 0 <==> a == b
    ensures Compare(a, b) == -Compare(b, a)
  {
  }

  lemma LessTransitive(a: InternalKey, b: InternalKey, c: InternalKey)
    requires Less(a, b) && Less(b, c)
    ensures Less(a, c)
  {
  }

  /** Entries of `user` at or after the seek key of snapshot `s` are exactly those written by `s`. */
  lemma SeekKeySplits(k: InternalKey, user: UserKey, s: nat)
    ensures !Less(k, SeekKey(user, s)) && k.user == user <==> k.user == user && k.seqno <= s
    ensures Less(k, SeekKey(user, s)) <==> k.user < user || (k.user == user && k.seqno > s)
  {
  }

  /** Strictly ascending by internal key: the shape of every memtable and table. */
  predicate Sorted(es: seq<Entry>) {
    forall i, j :: 0 <= i < j < |es| ==> Less(es[i].ikey, es[j].ikey)
  }

  function Elems(es: seq<Entry>): set<Entry> {
    set e | e in es
  }
}

/** The flat meaning of the store: a bag of entries in which a read at sequence
    number `s` returns the newest entry of the key written at or before `s`. */
module FlatSpec {
  import opened InternalKeys

  predicate Sees(e: Entry, k: UserKey, s: nat) {
    e.ikey.user == k && e.ikey.seqno <= s
  }

  /** No two entries carry the same sequence number. */
  ghost predicate UniqueSeq(S: set<Entry>) {
    forall a, b :: a in S && b in S && a.ikey.seqno == b.ikey.seqno ==> a == b
  }

  ghost predicate IsNewest(S: set<Entry>, k: UserKey, s: nat, e: Entry) {
    e in S && Sees(e, k, s) &&
    forall d :: d in S && Sees(d, k, s) ==> d.ikey.seqno <= e.ikey.seqno
  }

  ghost predicate Absent(S: set<Entry>, k: UserKey, s: nat) {
    forall e :: e in S ==> !Sees(e, k, s)
  }

  lemma NewestExists(S: set<Entry>, k: UserKey, s: nat)
    requires !Absent(S, k, s)
    ensures exists e :: IsNewest(S, k, s, e)
  {
    var d :| d in S && Sees(d, k, s);
    var R := S - {d};
    if Absent(R, k, s) {
      assert IsNewest(S, k, s, d);
    } else {
      NewestExists(R, k, s);
      var e :| IsNewest(R, k, s, e);
      assert IsNewest(S, k, s, if e.ikey.seqno <= d.ikey.seqno then d else e);
    }
  }

  ghost function Newest(S: set<Entry>, k: UserKey, s: nat): (r: Option<Entry>)
    ensures r.Some? ==> IsNewest(S, k, s, r.value)
    ensures r.None? <==> Absent(S, k, s)
  {
    if Absent(S, k, s) then None
    else
      NewestExists(S, k, s);
      var e :| IsNewest(S, k, s, e);
      Some(e)
  }

  /** What a user sees in an entry: a deletion marker reads as nothing. */
  function Outcome(r: Option<Entry>): Option<UserValue> {
    if r.Some? && r.value.ikey.kind.Value? then Some(r.value.value) else None
  }

  ghost function Read(S: set<Entry>, k: UserKey, s: nat): Option<UserValue> {
    Outcome(Newest(S, k, s))
  }

  lemma NewestIs(S: set<Entry>, k: UserKey, s: nat, e: Entry)
    requires UniqueSeq(S) && IsNewest(S, k, s, e)
    ensures Newest(S, k, s) == Some(e)
  {
  }

  /** Every entry of A is newer than every entry of B for the same user key. */
  ghost predicate NewerThan(A: set<Entry>, B: set<Entry>) {
    forall a, b :: a in A && b in B && a.ikey.user == b.ikey.user ==> a.ikey.seqno > b.ikey.seqno
  }

  /** The layering law: a hit in the newer layer is final, a miss defers to the rest. */
  lemma NewestOfLayers(A: set<Entry>, B: set<Entry>, k: UserKey, s: nat)
    requires UniqueSeq(A + B) && NewerThan(A, B)
    ensures Newest(A + B, k, s) == if Newest(A, k, s).Some? then Newest(A, k, s) else Newest(B, k, s)
  {
    if Newest(A, k, s).Some? {
      NewestIs(A + B, k, s, Newest(A, k, s).value);
    } else if Newest(B, k, s).Some? {
      NewestIs(A + B, k, s, Newest(B, k, s).value);
    }
  }
}
