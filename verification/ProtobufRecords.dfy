/** Which bytes the decoder accepts and what they come to, whoever wrote them: arrays packed or not, fields repeated, messages in
    parts, unknown fields anywhere, numbers of any length (pb_decode.c). */
module MessageRecords {
  import opened InternalKeys
  import opened LogFormat
  import opened Coding
  import opened MessageSchemas
  import opened WireFormat
  import opened MessageEncoder
  import opened MessageDecoder
  import opened CodingGrammar
  import opened ValueGrammar
  import MessageRoundTrip

  // ---------- records and the values they carry ----------

  /** A record: one value of a field, a packed run of items, a nested message as records of its own, or one of a field that the
      message does not have. */
  datatype Part =
    | Item(field: nat, value: Value)
    | Run(field: nat, items: seq<Value>)
    | Inner(field: nat, message: Parts)
    | Other

  datatype Parts = Parts(list: seq<Part>)

  predicate IsArray(f: Field) {
    f.rule.Repeated? || f.rule.FixedCount?
  }

  ghost predicate SpellsValue(k: Kind, b: seq<Byte>, v: Value)
    requires !k.Message?
  {
    if Packable(k) then v.Scalar? && SpellsScalar(k, b, v.n) else v.Blob? && SpellsBlob(k, b, v.bytes)
  }

  /** Scalars one behind the other. */
  ghost predicate SpellsItems(k: Kind, b: seq<Byte>, items: seq<Value>)
    requires Packable(k)
    decreases |items|
  {
    if items == [] then b == []
    else exists m: nat :: m <= |b| && SpellsValue(k, b[..m], items[0]) && SpellsItems(k, b[m..], items[1..])
  }

  /** Up to `m` a key. */
  predicate Keyed(record: seq<Byte>, tag: nat, wt: nat, m: nat) {
    wt < 8 && m <= |record| && Reads32(record[..m], 8 * tag + wt)
  }

  /** Up to `j` a key, from there to `m` the length of what follows. */
  predicate Framed(record: seq<Byte>, tag: nat, wt: nat, j: nat, m: nat) {
    Keyed(record, tag, wt, j) && j <= m <= |record| && Reads32(record[j..m], |record| - m)
  }

  /** The record's bytes. The wire type matters only for arrays of numbers and for fields that the message does not have. */
  ghost predicate Spells(s: Schema, p: Part, record: seq<Byte>)
    decreases p
  {
    match p
    case Other =>
      exists m: nat, tag: nat, wt: nat ::
        Keyed(record, tag, wt, m) && tag + wt > 0 && Skippable(wt, record[m..]) &&
        forall i :: 0 <= i < |s.fields| ==> s.fields[i].tag != tag
    case Item(i, v) =>
      i < |s.fields| && !s.fields[i].kind.Message? &&
      exists m: nat, wt: nat ::
        Keyed(record, s.fields[i].tag, wt, m) && !(wt == 2 && IsArray(s.fields[i]) && Packable(s.fields[i].kind)) &&
        SpellsValue(s.fields[i].kind, record[m..], v)
    case Run(i, items) =>
      i < |s.fields| && IsArray(s.fields[i]) && Packable(s.fields[i].kind) &&
      exists j: nat, m: nat :: Framed(record, s.fields[i].tag, 2, j, m) && SpellsItems(s.fields[i].kind, record[m..], items)
    case Inner(i, message) =>
      i < |s.fields| && s.fields[i].kind.Message? &&
      exists j: nat, m: nat, wt: nat ::
        Framed(record, s.fields[i].tag, wt, j, m) && SpellsMessage(s.fields[i].kind.schema, message, record[m..])
  }

  /** The bytes of the first `n` records, one behind the other. */
  ghost predicate SpellAll(s: Schema, ps: Parts, n: nat, body: seq<Byte>)
    requires n <= |ps.list|
    decreases ps, n
  {
    if n == 0 then body == []
    else exists front, record :: SpellAll(s, ps, n - 1, front) && Spells(s, ps.list[n-1], record) && body == front + record
  }

  /** All records, to the end or to a key that is zero. */
  ghost predicate SpellsMessage(s: Schema, ps: Parts, body: seq<Byte>)
    decreases ps, |ps.list| + 1
  {
    exists k: nat :: k <= |body| && SpellAll(s, ps, |ps.list|, body[..k]) && (k == |body| || Ends(body[k..]))
  }

  predicate Ends(rest: seq<Byte>) {
    exists z: nat :: z <= |rest| && Reads32(rest[..z], 0)
  }

  predicate On(p: Part, i: nat) {
    !p.Other? && p.field == i
  }

  /** A record of another member of the same union. */
  predicate Rival(s: Schema, p: Part, i: nat)
    requires i < |s.fields|
  {
    && !p.Other? && p.field < |s.fields| && p.field != i
    && s.fields[i].rule.Oneof? && s.fields[p.field].rule == s.fields[i].rule
  }

  predicate Touched(ps: Parts, n: nat, i: nat)
    requires n <= |ps.list|
  {
    exists k :: 0 <= k < n && On(ps.list[k], i)
  }

  // ---------- what the records come to ----------

  function ItemsHeld(slot: Slot): seq<Value> {
    match slot case Many(items) => items case _ => []
  }

  /** The content of a nested message that more of it is merged into: what is there, or its defaults. */
  function SlotsHeld(schema: Schema, slot: Slot): (r: seq<Slot>)
    ensures |r| == |schema.fields|
  {
    match slot
    case One(Nested(slots)) => if |slots| == |schema.fields| then slots else DefaultSlots(schema)
    case Present(Nested(slots)) => if |slots| == |schema.fields| then slots else DefaultSlots(schema)
    case _ => DefaultSlots(schema)
  }

  /** The items that a record adds to an array. */
  function Carried(s: Schema, p: Part, i: nat): seq<Value>
    requires i < |s.fields|
    decreases p
  {
    if !On(p, i) then []
    else
      match p
      case Item(_, v) => [v]
      case Run(_, items) => items
      case Inner(_, m) =>
        if s.fields[i].kind.Message? then
          [Nested(Merged(s.fields[i].kind.schema, DefaultSlots(s.fields[i].kind.schema), m, |m.list|))]
        else []
      case Other => []
  }

  /** All items that the first `n` records add to an array. */
  function ItemsOf(s: Schema, ps: Parts, n: nat, i: nat): seq<Value>
    requires i < |s.fields| && n <= |ps.list|
    decreases ps, n, 0
  {
    if n == 0 then [] else ItemsOf(s, ps, n - 1, i) + Carried(s, ps.list[n-1], i)
  }

  /** The array of fixed count that the last record of any such array is on. */
  function LastFixed(s: Schema, ps: Parts, n: nat): (r: Option<nat>)
    requires n <= |ps.list|
    ensures r.Some? ==> r.value < |s.fields| && s.fields[r.value].rule.FixedCount?
  {
    if n == 0 then None
    else
      var p := ps.list[n-1];
      if !p.Other? && p.field < |s.fields| && s.fields[p.field].rule.FixedCount? then Some(p.field) else LastFixed(s, ps, n - 1)
  }

  /** The items of an array of fixed count since a record of another one came in between. */
  function GroupOf(s: Schema, ps: Parts, n: nat, i: nat): seq<Value>
    requires i < |s.fields| && n <= |ps.list|
    decreases ps, n, 0
  {
    if n == 0 then []
    else if On(ps.list[n-1], i) then
      (if LastFixed(s, ps, n - 1) == Some(i) then GroupOf(s, ps, n - 1, i) else []) + Carried(s, ps.list[n-1], i)
    else GroupOf(s, ps, n - 1, i)
  }

  function Filled(f: Field, v: Value): Slot {
    if f.rule.Oneof? || f.rule.Optional? then Present(v) else One(v)
  }

  /** A field that is no array: its last value, or the merge of the parts of its message, unless another member of its
      union came later. */
  function SingleAfter(s: Schema, slots: seq<Slot>, ps: Parts, n: nat, i: nat): Slot
    requires i < |s.fields| == |slots| && n <= |ps.list|
    decreases ps, n, 0
  {
    if n == 0 then slots[i]
    else
      var p, f := ps.list[n-1], s.fields[i];
      if On(p, i) then
        match p
        case Item(_, v) => Filled(f, v)
        case Inner(_, m) =>
          if f.kind.Message? then
            Filled(f, Nested(Merged(f.kind.schema, SlotsHeld(f.kind.schema, SingleAfter(s, slots, ps, n - 1, i)), m, |m.list|)))
          else SingleAfter(s, slots, ps, n - 1, i)
        case Run(_, _) => SingleAfter(s, slots, ps, n - 1, i)
        case Other => Absent
      else if Rival(s, p, i) then Absent
      else SingleAfter(s, slots, ps, n - 1, i)
  }

  function FieldAfter(s: Schema, slots: seq<Slot>, ps: Parts, n: nat, i: nat): Slot
    requires i < |s.fields| == |slots| && n <= |ps.list|
    decreases ps, n, 1
  {
    match s.fields[i].rule
    case Repeated(_) => if Touched(ps, n, i) then Many(ItemsHeld(slots[i]) + ItemsOf(s, ps, n, i)) else slots[i]
    case FixedCount(_) => if Touched(ps, n, i) then Many(GroupOf(s, ps, n, i)) else slots[i]
    case _ => SingleAfter(s, slots, ps, n, i)
  }

  /** The message after the first `n` records. */
  function Merged(s: Schema, slots: seq<Slot>, ps: Parts, n: nat): (r: seq<Slot>)
    requires n <= |ps.list|
    ensures |slots| == |s.fields| ==> |r| == |s.fields|
    decreases ps, n, 2
  {
    if |slots| != |s.fields| then slots
    else seq(|s.fields|, i requires 0 <= i < |s.fields| => FieldAfter(s, slots, ps, n, i))
  }

  // ---------- when they are accepted ----------

  /** Record `n` fits: the array has room for its items, the array of fixed count before it is full, its message is accepted. */
  predicate Fits(s: Schema, slots: seq<Slot>, ps: Parts, n: nat)
    requires |slots| == |s.fields| && n < |ps.list|
    decreases ps, n, 3
  {
    var p := ps.list[n];
    (!p.Other? && p.field < |s.fields|) ==>
      var f, i := s.fields[p.field], p.field;
      match f.rule
      case Repeated(max) =>
        && (Carried(s, p, i) == [] || |ItemsHeld(slots[i])| + |ItemsOf(s, ps, n + 1, i)| <= max)
        && (p.Inner? && f.kind.Message? ==> Accepted(f.kind.schema, DefaultSlots(f.kind.schema), p.message))
      case FixedCount(count) =>
        && (LastFixed(s, ps, n).Some? && LastFixed(s, ps, n) != Some(i) ==> Full(s, ps, n))
        && |GroupOf(s, ps, n + 1, i)| <= count
        && (p.Inner? && f.kind.Message? ==> Accepted(f.kind.schema, DefaultSlots(f.kind.schema), p.message))
      case _ =>
        p.Inner? && f.kind.Message? ==>
          Accepted(f.kind.schema, SlotsHeld(f.kind.schema, SingleAfter(s, slots, ps, n, i)), p.message)
  }

  /** The last array of fixed count has all its items. */
  predicate Full(s: Schema, ps: Parts, n: nat)
    requires n <= |ps.list|
  {
    var last := LastFixed(s, ps, n);
    last.Some? ==> |GroupOf(s, ps, n, last.value)| == s.fields[last.value].rule.count
  }

  predicate AllFit(s: Schema, slots: seq<Slot>, ps: Parts, n: nat)
    requires |slots| == |s.fields| && n <= |ps.list|
    decreases ps, n, 2
  {
    n == 0 || (AllFit(s, slots, ps, n - 1) && Fits(s, slots, ps, n - 1))
  }

  /** None of the first sixty-four required fields is missing. */
  predicate NoneMissing(s: Schema, ps: Parts, n: nat)
    requires n <= |ps.list|
  {
    forall i :: 0 <= i < |s.fields| && s.fields[i].rule.Required? && RequiredBefore(s, i) < 64 ==> Touched(ps, n, i)
  }

  predicate Accepted(s: Schema, slots: seq<Slot>, ps: Parts)
    requires |slots| == |s.fields|
    decreases ps, |ps.list| + 1, 0
  {
    var n := |ps.list|;
    AllFit(s, slots, ps, n) && Full(s, ps, n) && NoneMissing(s, ps, n)
  }

  // ---------- where the decoder stands ----------

  function SeenAfter(s: Schema, ps: Parts, n: nat): set<nat>
    requires n <= |ps.list|
  {
    if n == 0 then {}
    else
      var p := ps.list[n-1];
      SeenAfter(s, ps, n - 1) +
      if !p.Other? && p.field < |s.fields| && s.fields[p.field].rule.Required? && RequiredBefore(s, p.field) < MAX_REQUIRED
      then {RequiredBefore(s, p.field)} else {}
  }

  predicate Tracked(s: Schema, seen: set<nat>) {
    forall k :: 0 <= k < TrackedRequired(s) ==> k in seen
  }

  function After(s: Schema, slots: seq<Slot>, ps: Parts, n: nat): (m: Filling)
    requires |slots| == |s.fields| && n <= |ps.list|
    ensures |m.slots| == |s.fields|
  {
    var last := LastFixed(s, ps, n);
    Filling(Merged(s, slots, ps, n), SeenAfter(s, ps, n), last, if last.Some? then |GroupOf(s, ps, n, last.value)| else 0)
  }

  lemma TouchedNext(ps: Parts, n: nat, i: nat)
    requires n < |ps.list|
    ensures Touched(ps, n + 1, i) <==> Touched(ps, n, i) || On(ps.list[n], i)
  {
    if Touched(ps, n, i) {
      var k :| 0 <= k < n && On(ps.list[k], i);
      assert 0 <= k < n + 1;
    }
    if On(ps.list[n], i) {
      assert 0 <= n < n + 1;
    }
  }

  lemma ItemsNext(s: Schema, ps: Parts, n: nat, i: nat)
    requires i < |s.fields| && n < |ps.list|
    ensures ItemsOf(s, ps, n + 1, i) == ItemsOf(s, ps, n, i) + Carried(s, ps.list[n], i)
    ensures !On(ps.list[n], i) ==> ItemsOf(s, ps, n + 1, i) == ItemsOf(s, ps, n, i)
  {
    hide Carried;
    if !On(ps.list[n], i) {
      NotCarried(s, ps.list[n], i);
    }
  }

  lemma NotCarried(s: Schema, p: Part, i: nat)
    requires i < |s.fields| && !On(p, i)
    ensures Carried(s, p, i) == []
  {
  }

  /** What the record is not about stays. */
  lemma {:induction false} OthersStay(s: Schema, slots: seq<Slot>, ps: Parts, n: nat, i: nat)
    requires i < |s.fields| == |slots| && n < |ps.list| && !On(ps.list[n], i) && !Rival(s, ps.list[n], i)
    ensures FieldAfter(s, slots, ps, n + 1, i) == FieldAfter(s, slots, ps, n, i)
  {
    hide ItemsOf, Touched;
    TouchedNext(ps, n, i);
    ItemsNext(s, ps, n, i);
    GroupStays(s, ps, n, i);
  }

  lemma UnionIsSelected(s: Schema, slots: seq<Slot>, ps: Parts, n: nat, i: nat)
    requires i < |s.fields| == |slots| && n < |ps.list| && Rival(s, ps.list[n], i)
    ensures FieldAfter(s, slots, ps, n + 1, i) == Absent
  {
  }

  lemma {:induction false} MergedNext(s: Schema, slots: seq<Slot>, ps: Parts, n: nat, i: nat)
    requires |slots| == |s.fields| && n < |ps.list| && i < |s.fields| && On(ps.list[n], i)
    ensures Merged(s, slots, ps, n + 1)
         == (if s.fields[i].rule.Oneof? then Selected(s, Merged(s, slots, ps, n), i) else Merged(s, slots, ps, n))
            [i := FieldAfter(s, slots, ps, n + 1, i)]
  {
    hide FieldAfter;
    var a, b := Merged(s, slots, ps, n), Merged(s, slots, ps, n + 1);
    var sel := if s.fields[i].rule.Oneof? then Selected(s, a, i) else a;
    forall j | 0 <= j < |s.fields| && j != i ensures b[j] == sel[j] {
      if Rival(s, ps.list[n], j) {
        UnionIsSelected(s, slots, ps, n, j);
      } else {
        OthersStay(s, slots, ps, n, j);
      }
    }
  }

  lemma {:induction false} NothingMerged(s: Schema, slots: seq<Slot>, ps: Parts, n: nat)
    requires |slots| == |s.fields| && n < |ps.list| && ps.list[n].Other?
    ensures After(s, slots, ps, n + 1) == After(s, slots, ps, n)
  {
    hide FieldAfter, GroupOf;
    forall j | 0 <= j < |s.fields| ensures Merged(s, slots, ps, n + 1)[j] == Merged(s, slots, ps, n)[j] {
      OthersStay(s, slots, ps, n, j);
    }
    assert Merged(s, slots, ps, n + 1) == Merged(s, slots, ps, n);
    var last := LastFixed(s, ps, n);
    if last.Some? {
      GroupStays(s, ps, n, last.value);
    }
  }

  lemma GroupStays(s: Schema, ps: Parts, n: nat, i: nat)
    requires i < |s.fields| && n < |ps.list| && !On(ps.list[n], i)
    ensures GroupOf(s, ps, n + 1, i) == GroupOf(s, ps, n, i)
  {
  }

  lemma StartsAt(s: Schema, slots: seq<Slot>, ps: Parts)
    requires |slots| == |s.fields|
    ensures After(s, slots, ps, 0) == Filling(slots, {}, None, 0)
  {
    forall i | 0 <= i < |slots| ensures FieldAfter(s, slots, ps, 0, i) == slots[i] {
      assert !Touched(ps, 0, i);
    }
    assert Merged(s, slots, ps, 0) == slots;
  }

  // ---------- values ----------

  lemma BaseIsHeld(f: Field, slot: Slot)
    requires f.kind.Message?
    ensures Base(f.kind, Current(f, slot)).Nested? && Base(f.kind, Current(f, slot)).slots == SlotsHeld(f.kind.schema, slot)
    ensures Base(f.kind, ZeroValue(f.kind)) == Nested(DefaultSlots(f.kind.schema))
  {
  }

  lemma ValueIff(k: Kind, b: seq<Byte>, rest: seq<Byte>, into: Value, v: Value)
    requires WfKind(k) && !k.Message?
    ensures DecodedValue(k, b + rest, into) == Ok(Read(v, rest)) <==> SpellsValue(k, b, v)
  {
    hide DecodedScalar, DecodedBlob, SpellsScalar, SpellsBlob, WfKind;
    if Packable(k) && v.Scalar? {
      ScalarIff(k, b, rest, v.n);
    } else if !Packable(k) && v.Blob? {
      BlobIff(k, b, rest, v.bytes);
    }
  }

  /** A run decoded behind items that are there already. */
  lemma {:induction false} RunAdds(k: Kind, b: seq<Byte>, items: seq<Value>, had: seq<Value>, max: nat)
    requires WfKind(k) && Packable(k) && SpellsItems(k, b, items)
    ensures if items == [] || |had| + |items| <= max then DecodedRun(k, b, had, max) == Ok(had + items)
            else DecodedRun(k, b, had, max).Err?
    decreases |items|
  {
    hide DecodedScalar, SpellsValue, WfKind;
    if items == [] {
      assert had + items == had;
    } else {
      var m: nat :| m <= |b| && SpellsValue(k, b[..m], items[0]) && SpellsItems(k, b[m..], items[1..]);
      ValueIff(k, b[..m], b[m..], items[0], items[0]);
      assert b == b[..m] + b[m..];
      RunAdds(k, b[m..], items[1..], had + [items[0]], max);
      assert had + items == had + [items[0]] + items[1..];
    }
  }

  // ---------- one record ----------

  /** The decoder is given a value and stores it, or refuses it. */
  ghost predicate Gives(r: Result<Read<Value>>, ok: bool, v: Value, rest: seq<Byte>) {
    if ok then r == Ok(Read(v, rest)) else r.Err?
  }

  lemma PlainGives(f: Field, b: seq<Byte>, v: Value, rest: seq<Byte>, into: Value)
    requires WfKind(f.kind) && !f.kind.Message? && SpellsValue(f.kind, b, v)
    ensures Gives(DecodedValue(f.kind, b + rest, into), true, v, rest)
  {
    hide DecodedValue, SpellsValue;
    ValueIff(f.kind, b, rest, into, v);
  }

  /** A length and what it is the length of. */
  lemma LengthTakes(b: seq<Byte>, m: nat, rest: seq<Byte>, shortage: string)
    requires m <= |b| && Reads32(b[..m], |b| - m)
    ensures TakeDelimited(b + rest, shortage) == Ok(Read(b[m..], rest))
  {
    hide Reads32, DecodeVarint32;
    Two(b, m, rest);
    Number32Iff(b[..m], b[m..] + rest, |b| - m);
    assert (b[m..] + rest)[..|b|-m] == b[m..] && (b[m..] + rest)[|b|-m..] == rest;
  }

  /** A nested message, merged into what is given. */
  lemma {:induction false} InnerGives(k: Kind, into: Value, m: Parts, b: seq<Byte>, at: nat, rest: seq<Byte>, base: seq<Slot>)
    requires WfKind(k) && k.Message? && at <= |b| && Reads32(b[..at], |b| - at) && SpellsMessage(k.schema, m, b[at..])
    requires Base(k, into).Nested? && Base(k, into).slots == base && |base| == |k.schema.fields|
    ensures Gives(DecodedValue(k, b + rest, into), Accepted(k.schema, base, m),
                  Nested(Merged(k.schema, base, m, |m.list|)), rest)
    decreases m, |m.list| + 2, 0
  {
    hide Accepted, Merged, WfKind, Reads32, SpellsMessage, TakeDelimited;
    SchemaIsWf(k);
    LengthTakes(b, at, rest, "parent stream too short");
    PartsDecode(k.schema, base, m, b[at..]);
  }

  lemma SchemaIsWf(k: Kind)
    requires WfKind(k) && k.Message?
    ensures WfSchema(k.schema)
  {
  }

  /** What the loop makes of the first records. */
  lemma {:induction false} PartsLoop(s: Schema, slots: seq<Slot>, ps: Parts, n: nat, body: seq<Byte>, rest: seq<Byte>)
    requires WfSchema(s) && |slots| == |s.fields| && n <= |ps.list| && SpellAll(s, ps, n, body)
    ensures if AllFit(s, slots, ps, n) then
              DecodedLoop(s, After(s, slots, ps, 0), body + rest) == DecodedLoop(s, After(s, slots, ps, n), rest)
            else DecodedLoop(s, After(s, slots, ps, 0), body + rest).Err?
    decreases ps, n, 1
  {
    hide After, WfSchema, Fits, Spells, DecodedTurn;
    if n == 0 {
      assert body + rest == rest;
    } else {
      var front, record :| SpellAll(s, ps, n - 1, front) && Spells(s, ps.list[n-1], record) && body == front + record;
      assert front + record + rest == front + (record + rest);
      PartsLoop(s, slots, ps, n - 1, front, record + rest);
      if AllFit(s, slots, ps, n - 1) {
        PartTurns(s, slots, ps, n - 1, record, rest);
      }
    }
  }

  /** Any sequence of records decodes to what they come to, and is refused exactly when it does not fit. */
  lemma {:induction false} PartsDecode(s: Schema, slots: seq<Slot>, ps: Parts, body: seq<Byte>)
    requires WfSchema(s) && |slots| == |s.fields| && SpellsMessage(s, ps, body)
    ensures Decoded(s, slots, body).Ok? <==> Accepted(s, slots, ps)
    ensures Decoded(s, slots, body).Ok? ==> Decoded(s, slots, body).value == Merged(s, slots, ps, |ps.list|)
    decreases ps, |ps.list| + 1, 0
  {
    hide AllFit, Merged, WfSchema, GroupOf, LastFixed, SeenAfter, AllSeen, NoneMissing;
    var n := |ps.list|;
    StartsAt(s, slots, ps);
    var k: nat :| k <= |body| && SpellAll(s, ps, n, body[..k]) && (k == |body| || Ends(body[k..]));
    PartsLoop(s, slots, ps, n, body[..k], body[k..]);
    assert body[..k] + body[k..] == body;
    EndsThere(s, After(s, slots, ps, n), body[k..]);
    SeenIsTouched(s, ps, n);
    EndsFull(s, slots, ps, n);
  }

  lemma EndsThere(s: Schema, m: Filling, rest: seq<Byte>)
    requires |m.slots| == |s.fields| && (rest == [] || Ends(rest))
    ensures DecodedLoop(s, m, rest) == Ok(m)
  {
    hide DecodeVarint32, Reads32;
    if rest != [] {
      var z: nat :| z <= |rest| && Reads32(rest[..z], 0);
      Number32Iff(rest[..z], rest[z..], 0);
      assert rest == rest[..z] + rest[z..];
    }
  }

  lemma {:induction false} EndsFull(s: Schema, slots: seq<Slot>, ps: Parts, n: nat)
    requires |slots| == |s.fields| && n <= |ps.list|
    ensures Unfinished(s, After(s, slots, ps, n)) <==> !Full(s, ps, n)
    ensures AllSeen(s, After(s, slots, ps, n)) <==> Tracked(s, SeenAfter(s, ps, n))
    ensures DecodedLoop(s, After(s, slots, ps, n), []) == Ok(After(s, slots, ps, n))
    ensures After(s, slots, ps, n).slots == Merged(s, slots, ps, n)
  {
    hide GroupOf, Merged, SeenAfter, TrackedRequired;
    var m := After(s, slots, ps, n);
    assert m.seen == SeenAfter(s, ps, n);
  }

  /** A record behind its key. */
  lemma KeyedTurn(s: Schema, m: Filling, i: nat, wt: nat, record: seq<Byte>, at: nat, rest: seq<Byte>)
    requires WfSchema(s) && |m.slots| == |s.fields| && i < |s.fields| && Keyed(record, s.fields[i].tag, wt, at)
    ensures var r := DecodedField(s, i, wt, record[at..] + rest, m);
            && record + rest != []
            && DecodedTurn(s, m, record + rest) == if r.Err? then Fail(r.message) else Go(r.value.value, r.value.rest)
  {
    hide DecodedField, DecodeVarint32, Reads32;
    var key := 8 * s.fields[i].tag + wt;
    Two(record, at, rest);
    Number32Iff(record[..at], record[at..] + rest, key);
    assert key / 8 == s.fields[i].tag && key % 8 == wt;
    FoundAt(s, i, 0);
    NotEmpty(record[..at], key);
  }

  lemma NotEmpty(b: seq<Byte>, v: nat)
    requires Reads32(b, v)
    ensures b != []
  {
  }

  lemma {:induction false} FoundAt(s: Schema, i: nat, from: nat)
    requires WfSchema(s) && from <= i < |s.fields|
    ensures FindField(s, s.fields[i].tag, from) == i
    decreases i - from
  {
    if from < i {
      FoundAt(s, i, from + 1);
    }
  }

  // ---------- fields that are no arrays ----------

  lemma {:induction false} SingleTurns(s: Schema, slots: seq<Slot>, ps: Parts, n: nat, i: nat, wt: nat, value: seq<Byte>,
                                       rest: seq<Byte>, ok: bool, v: Value)
    requires WfSchema(s) && |slots| == |s.fields| && n < |ps.list| && i < |s.fields| && On(ps.list[n], i)
    requires !IsArray(s.fields[i]) && FieldAfter(s, slots, ps, n + 1, i) == Filled(s.fields[i], v)
    requires Gives(DecodedValue(s.fields[i].kind, value + rest, Current(s.fields[i], FieldAfter(s, slots, ps, n, i))),
                   ok, v, rest)
    ensures var r := DecodedField(s, i, wt, value + rest, After(s, slots, ps, n));
            if ok then r == Ok(Read(After(s, slots, ps, n + 1), rest)) else r.Err?
  {
    hide FieldAfter, Merged, WfSchema, GroupOf;
    var m := After(s, slots, ps, n);
    MergedAt(s, slots, ps, n, i);
    MergedNext(s, slots, ps, n, i);
    var last := LastFixed(s, ps, n);
    if last.Some? {
      GroupStays(s, ps, n, last.value);
    }
    assert ok ==> After(s, slots, ps, n + 1) == MessageRoundTrip.Stored(s, m, i, v) by {
      assert After(s, slots, ps, n + 1).slots == MessageRoundTrip.Stored(s, m, i, v).slots;
    }
  }

  lemma MergedAt(s: Schema, slots: seq<Slot>, ps: Parts, n: nat, i: nat)
    requires |slots| == |s.fields| && n <= |ps.list| && i < |s.fields|
    ensures Merged(s, slots, ps, n)[i] == FieldAfter(s, slots, ps, n, i)
  {
  }

  lemma {:induction false} SinglePartTurns(s: Schema, slots: seq<Slot>, ps: Parts, n: nat, record: seq<Byte>, rest: seq<Byte>)
    requires WfSchema(s) && |slots| == |s.fields| && n < |ps.list| && Spells(s, ps.list[n], record)
    requires !ps.list[n].Other? && !IsArray(s.fields[ps.list[n].field])
    ensures record + rest != []
    ensures if Fits(s, slots, ps, n)
            then DecodedTurn(s, After(s, slots, ps, n), record + rest) == Go(After(s, slots, ps, n + 1), rest)
            else DecodedTurn(s, After(s, slots, ps, n), record + rest).Fail?
    decreases ps, n, 4
  {
    hide After, DecodedTurn, DecodedValue, DecodedField, WfSchema, Merged, Accepted;
    hide SlotsHeld, SpellsValue, Reads32, Current, SpellsMessage;
    var p := ps.list[n];
    var i, f := p.field, s.fields[p.field];
    KindIsWf(s, i);
    var slot := FieldAfter(s, slots, ps, n, i);
    match p
    case Item(_, v) =>
      var at: nat, wt: nat :| Keyed(record, f.tag, wt, at) && SpellsValue(f.kind, record[at..], v);
      PlainGives(f, record[at..], v, rest, Current(f, slot));
      KeyedTurn(s, After(s, slots, ps, n), i, wt, record, at, rest);
      SingleTurns(s, slots, ps, n, i, wt, record[at..], rest, true, v);
    case Inner(_, m) =>
      var j: nat, at: nat, wt: nat :| Framed(record, f.tag, wt, j, at) && SpellsMessage(f.kind.schema, m, record[at..]);
      var b := record[j..];
      assert b[..at-j] == record[j..at] && b[at-j..] == record[at..];
      BaseIsHeld(f, slot);
      var base := SlotsHeld(f.kind.schema, slot);
      InnerGives(f.kind, Current(f, slot), m, b, at - j, rest, base);
      KeyedTurn(s, After(s, slots, ps, n), i, wt, record, j, rest);
      SingleTurns(s, slots, ps, n, i, wt, b, rest, Accepted(f.kind.schema, base, m),
                  Nested(Merged(f.kind.schema, base, m, |m.list|)));
    case Run(_, _) => assert false;
  }

  lemma KindIsWf(s: Schema, i: nat)
    requires WfSchema(s) && i < |s.fields|
    ensures WfKind(s.fields[i].kind)
  {
  }

  // ---------- arrays ----------

  /** The items are added to those that are there, or there is no room for them, or they are refused. */
  ghost predicate Adds(r: Result<Read<seq<Value>>>, had: seq<Value>, items: seq<Value>, ok: bool, max: nat, rest: seq<Byte>) {
    if ok && (items == [] || |had| + |items| <= max) then r == Ok(Read(had + items, rest)) else r.Err?
  }

  predicate InnerAccepted(s: Schema, p: Part, i: nat)
    requires i < |s.fields|
  {
    p.Inner? && s.fields[i].kind.Message? ==>
      Accepted(s.fields[i].kind.schema, DefaultSlots(s.fields[i].kind.schema), p.message)
  }

  lemma ItemAdds(f: Field, wt: nat, b: seq<Byte>, v: Value, rest: seq<Byte>, had: seq<Value>, max: nat)
    requires WfKind(f.kind) && !f.kind.Message? && SpellsValue(f.kind, b, v) && !(wt == 2 && Packable(f.kind))
    ensures Adds(DecodedItems(f, wt, b + rest, had, max), had, [v], true, max, rest)
  {
    hide DecodedValue, SpellsValue, WfKind;
    ValueIff(f.kind, b, rest, ZeroValue(f.kind), v);
  }

  lemma RunAddsItems(f: Field, items: seq<Value>, b: seq<Byte>, at: nat, rest: seq<Byte>, had: seq<Value>, max: nat)
    requires WfKind(f.kind) && Packable(f.kind) && at <= |b| && Reads32(b[..at], |b| - at) && SpellsItems(f.kind, b[at..], items)
    ensures Adds(DecodedItems(f, 2, b + rest, had, max), had, items, true, max, rest)
  {
    hide TakeDelimited, SpellsItems, Reads32, WfKind;
    LengthTakes(b, at, rest, "parent stream too short");
    RunAdds(f.kind, b[at..], items, had, max);
  }

  lemma {:induction false} InnerAdds(f: Field, wt: nat, m: Parts, b: seq<Byte>, at: nat, rest: seq<Byte>, had: seq<Value>,
                                     max: nat)
    requires WfKind(f.kind) && f.kind.Message? && at <= |b| && Reads32(b[..at], |b| - at)
    requires SpellsMessage(f.kind.schema, m, b[at..])
    ensures var base := DefaultSlots(f.kind.schema);
            Adds(DecodedItems(f, wt, b + rest, had, max), had,
                 [Nested(Merged(f.kind.schema, base, m, |m.list|))], Accepted(f.kind.schema, base, m), max, rest)
    decreases m, |m.list| + 2, 1
  {
    hide DecodedValue, Merged, Accepted, WfKind, Reads32, SpellsMessage;
    BaseIsHeld(f, Absent);
    InnerGives(f.kind, ZeroValue(f.kind), m, b, at, rest, DefaultSlots(f.kind.schema));
  }

  /** A record of an array adds the items it carries. */
  lemma {:induction false} ArrayPartAdds(s: Schema, p: Part, record: seq<Byte>, rest: seq<Byte>, had: seq<Value>, max: nat)
      returns (wt: nat, at: nat)
    requires WfSchema(s) && Spells(s, p, record) && !p.Other? && IsArray(s.fields[p.field])
    ensures Keyed(record, s.fields[p.field].tag, wt, at)
    ensures Adds(DecodedItems(s.fields[p.field], wt, record[at..] + rest, had, max), had, Carried(s, p, p.field),
                 InnerAccepted(s, p, p.field), max, rest)
    decreases p, 1
  {
    hide DecodedItems, WfSchema, Merged, Accepted, SpellsValue, SpellsItems, SpellsMessage, Reads32;
    var i, f := p.field, s.fields[p.field];
    KindIsWf(s, i);
    match p
    case Item(_, v) =>
      at, wt :| Keyed(record, f.tag, wt, at) && !(wt == 2 && IsArray(f) && Packable(f.kind)) &&
        SpellsValue(f.kind, record[at..], v);
      ItemAdds(f, wt, record[at..], v, rest, had, max);
    case Run(_, items) =>
      var m: nat;
      wt := 2;
      at, m :| Framed(record, f.tag, 2, at, m) && SpellsItems(f.kind, record[m..], items);
      var b := record[at..];
      assert b[..m-at] == record[at..m] && b[m-at..] == record[m..];
      RunAddsItems(f, items, b, m - at, rest, had, max);
    case Inner(_, message) =>
      var m: nat;
      at, m, wt :| Framed(record, f.tag, wt, at, m) && SpellsMessage(f.kind.schema, message, record[m..]);
      var b := record[at..];
      assert b[..m-at] == record[at..m] && b[m-at..] == record[m..];
      InnerAdds(f, wt, message, b, m - at, rest, had, max);
  }

  lemma {:induction false} NoneCarried(s: Schema, ps: Parts, n: nat, i: nat)
    requires i < |s.fields| && n <= |ps.list| && !Touched(ps, n, i)
    ensures ItemsOf(s, ps, n, i) == []
  {
    if n > 0 {
      TouchedNext(ps, n - 1, i);
      NoneCarried(s, ps, n - 1, i);
    }
  }

  /** What the array holds before and after the record. */
  lemma RepeatedHolds(s: Schema, slots: seq<Slot>, ps: Parts, n: nat, i: nat)
    requires |slots| == |s.fields| && n < |ps.list| && i < |s.fields| && On(ps.list[n], i) && s.fields[i].rule.Repeated?
    ensures var had, items := ItemsHeld(slots[i]) + ItemsOf(s, ps, n, i), Carried(s, ps.list[n], i);
            && Items(FieldAfter(s, slots, ps, n, i)) == had
            && FieldAfter(s, slots, ps, n + 1, i) == Many(had + items)
            && (Fits(s, slots, ps, n) <==>
                  (items == [] || |had| + |items| <= s.fields[i].rule.max) && InnerAccepted(s, ps.list[n], i))
  {
    hide Accepted, Carried, ItemsOf, Touched;
    TouchedNext(ps, n, i);
    ItemsNext(s, ps, n, i);
    var had, items := ItemsHeld(slots[i]) + ItemsOf(s, ps, n, i), Carried(s, ps.list[n], i);
    if !Touched(ps, n, i) {
      NoneCarried(s, ps, n, i);
      assert ItemsHeld(slots[i]) + [] == ItemsHeld(slots[i]);
    }
    assert had + items == ItemsHeld(slots[i]) + ItemsOf(s, ps, n + 1, i);
  }

  /** Only the array changes where the decoder stands. */
  lemma RepeatedMoves(s: Schema, slots: seq<Slot>, ps: Parts, n: nat, i: nat)
    requires |slots| == |s.fields| && n < |ps.list| && i < |s.fields| && On(ps.list[n], i) && s.fields[i].rule.Repeated?
    ensures var m := After(s, slots, ps, n);
            && m.slots[i] == FieldAfter(s, slots, ps, n, i)
            && After(s, slots, ps, n + 1) == m.(slots := m.slots[i := FieldAfter(s, slots, ps, n + 1, i)])
  {
    hide FieldAfter, Merged, GroupOf;
    MergedAt(s, slots, ps, n, i);
    MergedNext(s, slots, ps, n, i);
    var last := LastFixed(s, ps, n);
    if last.Some? {
      GroupStays(s, ps, n, last.value);
    }
    assert SeenAfter(s, ps, n + 1) == SeenAfter(s, ps, n);
  }

  lemma {:induction false} RepeatedTurns(s: Schema, slots: seq<Slot>, ps: Parts, n: nat, i: nat, wt: nat, value: seq<Byte>,
                                         rest: seq<Byte>)
    requires WfSchema(s) && |slots| == |s.fields| && n < |ps.list| && i < |s.fields| && On(ps.list[n], i)
    requires s.fields[i].rule.Repeated?
    requires var had := ItemsHeld(slots[i]) + ItemsOf(s, ps, n, i);
             Adds(DecodedItems(s.fields[i], wt, value + rest, had, s.fields[i].rule.max), had, Carried(s, ps.list[n], i),
                  InnerAccepted(s, ps.list[n], i), s.fields[i].rule.max, rest)
    ensures var r := DecodedField(s, i, wt, value + rest, After(s, slots, ps, n));
            if Fits(s, slots, ps, n) then r == Ok(Read(After(s, slots, ps, n + 1), rest)) else r.Err?
  {
    hide After, Merged, FieldAfter, Fits, WfSchema, ItemsOf, DecodedItems, Carried, InnerAccepted, Items;
    RepeatedHolds(s, slots, ps, n, i);
    RepeatedMoves(s, slots, ps, n, i);
  }

  lemma {:induction false} FixedIsTouched(s: Schema, ps: Parts, n: nat)
    requires n <= |ps.list| && LastFixed(s, ps, n).Some?
    ensures Touched(ps, n, LastFixed(s, ps, n).value)
  {
    if LastFixed(s, ps, n) == LastFixed(s, ps, n - 1) && !On(ps.list[n-1], LastFixed(s, ps, n).value) {
      FixedIsTouched(s, ps, n - 1);
    }
    TouchedNext(ps, n - 1, LastFixed(s, ps, n).value);
  }

  lemma {:induction false} FixedTurns(s: Schema, slots: seq<Slot>, ps: Parts, n: nat, i: nat, wt: nat, value: seq<Byte>,
                                      rest: seq<Byte>)
    requires WfSchema(s) && |slots| == |s.fields| && n < |ps.list| && i < |s.fields| && On(ps.list[n], i)
    requires s.fields[i].rule.FixedCount? && (LastFixed(s, ps, n) == Some(i) ==> |GroupOf(s, ps, n, i)| <= s.fields[i].rule.count)
    requires var had := if LastFixed(s, ps, n) == Some(i) then GroupOf(s, ps, n, i) else [];
             Adds(DecodedItems(s.fields[i], wt, value + rest, had, s.fields[i].rule.count), had, Carried(s, ps.list[n], i),
                  InnerAccepted(s, ps.list[n], i), s.fields[i].rule.count, rest)
    ensures var r := DecodedField(s, i, wt, value + rest, After(s, slots, ps, n));
            if Fits(s, slots, ps, n) then r == Ok(Read(After(s, slots, ps, n + 1), rest)) else r.Err?
  {
    hide Merged, WfSchema, DecodedItems, Accepted, Carried;
    var m := After(s, slots, ps, n);
    TouchedNext(ps, n, i);
    MergedAt(s, slots, ps, n, i);
    MergedNext(s, slots, ps, n, i);
    var last := LastFixed(s, ps, n);
    if last == Some(i) {
      FixedIsTouched(s, ps, n);
      assert Items(m.slots[i]) == GroupOf(s, ps, n, i);
    }
    assert Unfinished(s, m) <==> !Full(s, ps, n);
    var had, items := if last == Some(i) then GroupOf(s, ps, n, i) else [], Carried(s, ps.list[n], i);
    assert SeenAfter(s, ps, n + 1) == SeenAfter(s, ps, n);
    assert GroupOf(s, ps, n + 1, i) == had + items && FieldAfter(s, slots, ps, n + 1, i) == Many(had + items);
    assert Fits(s, slots, ps, n) <==>
      (last.Some? && last != Some(i) ==> Full(s, ps, n)) && |had + items| <= s.fields[i].rule.count
      && InnerAccepted(s, ps.list[n], i);
    assert items == [] ==> had + items == had;
  }

  lemma {:induction false} ArrayPartTurns(s: Schema, slots: seq<Slot>, ps: Parts, n: nat, record: seq<Byte>, rest: seq<Byte>)
    requires WfSchema(s) && |slots| == |s.fields| && n < |ps.list| && Spells(s, ps.list[n], record) && AllFit(s, slots, ps, n)
    requires !ps.list[n].Other? && IsArray(s.fields[ps.list[n].field])
    ensures record + rest != []
    ensures if Fits(s, slots, ps, n)
            then DecodedTurn(s, After(s, slots, ps, n), record + rest) == Go(After(s, slots, ps, n + 1), rest)
            else DecodedTurn(s, After(s, slots, ps, n), record + rest).Fail?
    decreases ps, n, 4
  {
    hide After, DecodedTurn, DecodedItems, DecodedField, WfSchema, Carried, Spells, InnerAccepted, Fits, Reads32, GroupOf;
    var p := ps.list[n];
    var i := p.field;
    SpelledField(s, p, record);
    if s.fields[i].rule.Repeated? {
      var had := ItemsHeld(slots[i]) + ItemsOf(s, ps, n, i);
      var wt, at := ArrayPartAdds(s, p, record, rest, had, s.fields[i].rule.max);
      RepeatedTurns(s, slots, ps, n, i, wt, record[at..], rest);
      KeyedTurn(s, After(s, slots, ps, n), i, wt, record, at, rest);
    } else {
      var had := if LastFixed(s, ps, n) == Some(i) then GroupOf(s, ps, n, i) else [];
      var wt, at := ArrayPartAdds(s, p, record, rest, had, s.fields[i].rule.count);
      GroupFits(s, slots, ps, n);
      FixedTurns(s, slots, ps, n, i, wt, record[at..], rest);
      KeyedTurn(s, After(s, slots, ps, n), i, wt, record, at, rest);
    }
  }

  lemma SpelledField(s: Schema, p: Part, record: seq<Byte>)
    requires Spells(s, p, record) && !p.Other?
    ensures p.field < |s.fields|
  {
  }

  /** What has been accepted of an array of fixed count is no more than it holds. */
  lemma {:induction false} GroupFits(s: Schema, slots: seq<Slot>, ps: Parts, n: nat)
    requires |slots| == |s.fields| && n <= |ps.list| && AllFit(s, slots, ps, n)
    ensures var last := LastFixed(s, ps, n);
            last.Some? ==> |GroupOf(s, ps, n, last.value)| <= s.fields[last.value].rule.count
  {
    if n > 0 {
      GroupFits(s, slots, ps, n - 1);
      var last := LastFixed(s, ps, n);
      if last.Some? && !On(ps.list[n-1], last.value) {
        GroupStays(s, ps, n - 1, last.value);
      }
    }
  }

  lemma OtherTurn(s: Schema, m: Filling, record: seq<Byte>, at: nat, tag: nat, wt: nat, rest: seq<Byte>)
    requires |m.slots| == |s.fields| && Keyed(record, tag, wt, at) && tag + wt > 0 && Skippable(wt, record[at..])
    requires forall i :: 0 <= i < |s.fields| ==> s.fields[i].tag != tag
    ensures record + rest != [] && DecodedTurn(s, m, record + rest) == Go(m, rest)
  {
    hide Reads32, Skippable, DecodeVarint32, SkipField;
    var key := 8 * tag + wt;
    Two(record, at, rest);
    Number32Iff(record[..at], record[at..] + rest, key);
    assert key / 8 == tag && key % 8 == wt;
    SkipIff(wt, record[at..], rest);
    NotEmpty(record[..at], key);
  }

  lemma {:induction false} PartTurns(s: Schema, slots: seq<Slot>, ps: Parts, n: nat, record: seq<Byte>, rest: seq<Byte>)
    requires WfSchema(s) && |slots| == |s.fields| && n < |ps.list| && Spells(s, ps.list[n], record) && AllFit(s, slots, ps, n)
    ensures record + rest != []
    ensures if Fits(s, slots, ps, n)
            then DecodedTurn(s, After(s, slots, ps, n), record + rest) == Go(After(s, slots, ps, n + 1), rest)
            else DecodedTurn(s, After(s, slots, ps, n), record + rest).Fail?
    decreases ps, n, 5
  {
    hide After, DecodedTurn, WfSchema, AllFit, Skippable, Reads32;
    var p := ps.list[n];
    if p.Other? {
      var at: nat, tag: nat, wt: nat :|
        Keyed(record, tag, wt, at) && tag + wt > 0 && Skippable(wt, record[at..]) &&
        forall i :: 0 <= i < |s.fields| ==> s.fields[i].tag != tag;
      OtherTurn(s, After(s, slots, ps, n), record, at, tag, wt, rest);
      NothingMerged(s, slots, ps, n);
    } else if IsArray(s.fields[p.field]) {
      ArrayPartTurns(s, slots, ps, n, record, rest);
    } else {
      SinglePartTurns(s, slots, ps, n, record, rest);
    }
  }

  // ---------- required fields ----------

  lemma {:induction false} RequiredRises(s: Schema, i: nat, j: nat)
    requires i <= j <= |s.fields|
    ensures RequiredBefore(s, i) <= RequiredBefore(s, j)
    ensures i < j && s.fields[i].rule.Required? ==> RequiredBefore(s, i) < RequiredBefore(s, j)
  {
    if i < j {
      RequiredRises(s, i, j - 1);
    }
  }

  lemma {:induction false} NthRequired(s: Schema, n: nat, k: nat) returns (i: nat)
    requires n <= |s.fields| && k < RequiredBefore(s, n)
    ensures i < n && s.fields[i].rule.Required? && RequiredBefore(s, i) == k
  {
    if k < RequiredBefore(s, n - 1) {
      i := NthRequired(s, n - 1, k);
    } else {
      i := n - 1;
    }
  }

  lemma {:induction false} SeenMeans(s: Schema, ps: Parts, n: nat, i: nat)
    requires n <= |ps.list| && i < |s.fields| && s.fields[i].rule.Required? && RequiredBefore(s, i) < MAX_REQUIRED
    ensures RequiredBefore(s, i) in SeenAfter(s, ps, n) <==> Touched(ps, n, i)
  {
    if n > 0 {
      SeenMeans(s, ps, n - 1, i);
      TouchedNext(ps, n - 1, i);
      var p := ps.list[n-1];
      if !p.Other? && p.field < |s.fields| && s.fields[p.field].rule.Required? && p.field != i {
        if p.field < i { RequiredRises(s, p.field, i); } else { RequiredRises(s, i, p.field); }
      }
    }
  }

  lemma {:induction false} SeenIsTouched(s: Schema, ps: Parts, n: nat)
    requires n <= |ps.list|
    ensures Tracked(s, SeenAfter(s, ps, n)) <==> NoneMissing(s, ps, n)
  {
    hide SeenAfter, Touched;
    var seen := SeenAfter(s, ps, n);
    forall i | 0 <= i < |s.fields| && s.fields[i].rule.Required? && RequiredBefore(s, i) < MAX_REQUIRED
      ensures RequiredBefore(s, i) < TrackedRequired(s)
      ensures RequiredBefore(s, i) in seen <==> Touched(ps, n, i)
    {
      SeenMeans(s, ps, n, i);
      RequiredRises(s, i, |s.fields|);
    }
    if NoneMissing(s, ps, n) {
      forall k | 0 <= k < TrackedRequired(s) ensures k in seen {
        var i := NthRequired(s, |s.fields|, k);
        assert Touched(ps, n, i);
      }
    }
  }

  // ---------- what this means field by field ----------

  /** No record from `k` on is on the field or on a rival of it. */
  predicate QuietFrom(s: Schema, ps: Parts, k: nat, n: nat, i: nat)
    requires i < |s.fields| && n <= |ps.list|
  {
    forall j :: k <= j < n ==> !On(ps.list[j], i) && !Rival(s, ps.list[j], i)
  }

  lemma {:induction false} QuietKeeps(s: Schema, slots: seq<Slot>, ps: Parts, k: nat, n: nat, i: nat)
    requires |slots| == |s.fields| && i < |s.fields| && k <= n <= |ps.list| && QuietFrom(s, ps, k, n, i)
    ensures FieldAfter(s, slots, ps, n, i) == FieldAfter(s, slots, ps, k, i)
  {
    if k < n {
      OthersStay(s, slots, ps, n - 1, i);
      QuietKeeps(s, slots, ps, k, n - 1, i);
    }
  }

  /** A field that is no array holds its last value, and before any the one it had. */
  lemma LastValueIsHeld(s: Schema, slots: seq<Slot>, ps: Parts, n: nat, i: nat, k: nat)
    requires |slots| == |s.fields| && i < |s.fields| && !IsArray(s.fields[i]) && k < n <= |ps.list|
    requires ps.list[k].Item? && On(ps.list[k], i) && QuietFrom(s, ps, k + 1, n, i)
    ensures Merged(s, slots, ps, n)[i]
         == if s.fields[i].rule.Oneof? || s.fields[i].rule.Optional? then Present(ps.list[k].value) else One(ps.list[k].value)
  {
    QuietKeeps(s, slots, ps, k + 1, n, i);
  }

  lemma UnnamedIsKept(s: Schema, slots: seq<Slot>, ps: Parts, n: nat, i: nat)
    requires |slots| == |s.fields| && i < |s.fields| && n <= |ps.list| && QuietFrom(s, ps, 0, n, i)
    ensures Merged(s, slots, ps, n)[i] == slots[i]
  {
    QuietKeeps(s, slots, ps, 0, n, i);
    StartsAt(s, slots, ps);
  }

  /** A field of a new message that no record is on holds its default, or nothing if it can be absent. */
  lemma UnnamedHasDefault(s: Schema, ps: Parts, n: nat, i: nat)
    requires i < |s.fields| && n <= |ps.list| && QuietFrom(s, ps, 0, n, i)
    ensures var f, r := s.fields[i], Merged(s, DefaultSlots(s), ps, n)[i];
            if IsArray(f) then r == Many([])
            else if f.rule.Optional? || f.rule.Oneof? then r == Absent
            else if f.initial.Some? && !f.kind.Message? then r == One(f.initial.value)
            else if Packable(f.kind) then r == One(Scalar(0))
            else if f.kind.Message? then r == One(Nested(DefaultSlots(f.kind.schema)))
            else r.One? && r.value.Blob? && |r.value.bytes| == (if f.kind.FixedBytes? then f.kind.length else 0) &&
                 forall j :: 0 <= j < |r.value.bytes| ==> r.value.bytes[j] == 0
  {
    hide Merged, QuietFrom, DefaultSlots;
    UnnamedIsKept(s, DefaultSlots(s), ps, n, i);
    DefaultStands(s, i);
    var f := s.fields[i];
    if f.rule.Required? || f.rule.Singular? {
      DefaultIs(f);
    }
  }

  lemma DefaultIs(f: Field)
    requires f.rule.Required? || f.rule.Singular?
    ensures DefaultSlot(f) == One(if f.initial.Some? && !f.kind.Message? then f.initial.value else ZeroValue(f.kind))
  {
    assert DefaultSlot(f) == One(DefaultValue(f));
  }

  lemma DefaultStands(s: Schema, i: nat)
    requires i < |s.fields|
    ensures DefaultSlots(s)[i] == DefaultSlot(s.fields[i])
  {
  }

  /** A union holds its last member only. */
  lemma UnionHoldsLast(s: Schema, slots: seq<Slot>, ps: Parts, n: nat, i: nat, k: nat)
    requires |slots| == |s.fields| && i < |s.fields| && k < n <= |ps.list|
    requires Rival(s, ps.list[k], i) && QuietFrom(s, ps, k + 1, n, i)
    ensures Merged(s, slots, ps, n)[i] == Absent
  {
    UnionIsSelected(s, slots, ps, k, i);
    QuietKeeps(s, slots, ps, k + 1, n, i);
  }

  // ---------- nothing else is accepted ----------

  predicate Leaves(input: seq<Byte>, rest: seq<Byte>) {
    |rest| <= |input| && input[|input|-|rest|..] == rest
  }

  lemma ValueLeaves(k: Kind, input: seq<Byte>, into: Value)
    requires !k.Message? && DecodedValue(k, input, into).Ok?
    ensures Leaves(input, DecodedValue(k, input, into).value.rest)
  {
    hide DecodeVarint32, DecodeVarint, Taken, Cut;
    if k.Word32? || k.Word64? {
    } else if k.Int? || k.Uint? || k.Sint? {
      Number64Leaves(input);
    } else {
      Number32Leaves(input);
    }
  }

  lemma Number64Leaves(input: seq<Byte>)
    requires DecodeVarint(input).Ok?
    ensures Leaves(input, DecodeVarint(input).value.rest)
  {
    hide GetVarint64;
    Varint64Leaves(input);
  }

  lemma {:induction false} SkipVarintLeaves(input: seq<Byte>)
    requires SkipVarint(input).Ok?
    ensures Leaves(input, SkipVarint(input).value)
    decreases |input|
  {
    if input[0] >= 128 {
      SkipVarintLeaves(input[1..]);
    }
  }

  lemma SkipLeaves(wt: nat, input: seq<Byte>)
    requires SkipField(input, wt).Ok?
    ensures Leaves(input, SkipField(input, wt).value)
  {
    hide DecodeVarint32, SkipVarint;
    if wt == 0 {
      SkipVarintLeaves(input);
    } else if wt == 2 {
      Number32Leaves(input);
    }
  }

  /** What is delimited stands behind its length. */
  lemma LengthStands(input: seq<Byte>, shortage: string) returns (j: nat)
    requires TakeDelimited(input, shortage).Ok?
    ensures var r := TakeDelimited(input, shortage).value;
            var k := |input| - |r.rest|;
            j <= k <= |input| && Reads32(input[..j], k - j) && r.value == input[j..k] && r.rest == input[k..]
  {
    hide DecodeVarint32, Reads32;
    var size := DecodeVarint32(input).value;
    Number32Leaves(input);
    j := |input| - |size.rest|;
    assert input[..j] + size.rest == input && size.rest == input[j..];
    Number32Iff(input[..j], size.rest, size.value);
  }

  lemma {:induction false} RunSpells(k: Kind, b: seq<Byte>, had: seq<Value>, max: nat) returns (items: seq<Value>)
    requires WfKind(k) && Packable(k) && DecodedRun(k, b, had, max).Ok?
    ensures SpellsItems(k, b, items)
    decreases |b|
  {
    hide DecodedScalar, SpellsValue, WfKind;
    items := [];
    if b != [] {
      var r := DecodedScalar(k, b).value;
      ValueLeaves(k, b, r.value);
      var m := |b| - |r.rest|;
      ValueIff(k, b[..m], b[m..], r.value, r.value);
      assert b == b[..m] + b[m..];
      var more := RunSpells(k, r.rest, had + [r.value], max);
      items := [r.value] + more;
      assert items[1..] == more;
    }
  }

  lemma KeyStays(input: seq<Byte>, k: nat, tag: nat, wt: nat, at: nat)
    requires at <= k <= |input| && Keyed(input, tag, wt, at)
    ensures Keyed(input[..k], tag, wt, at)
  {
    assert input[..k][..at] == input[..at];
  }

  /** A value that was read makes the record that it was read from. */
  lemma {:induction false} ValueSpells(s: Schema, i: nat, wt: nat, input: seq<Byte>, at: nat, into: Value)
      returns (p: Part, k: nat)
    requires WfSchema(s) && i < |s.fields| && Keyed(input, s.fields[i].tag, wt, at)
    requires !(wt == 2 && IsArray(s.fields[i]) && Packable(s.fields[i].kind))
    requires DecodedValue(s.fields[i].kind, input[at..], into).Ok?
    ensures at <= k <= |input| && input[k..] == DecodedValue(s.fields[i].kind, input[at..], into).value.rest
    ensures Spells(s, p, input[..k])
    decreases s, 0
  {
    hide WfSchema, WfKind, SpellsValue, SpellsMessage, Reads32;
    KindIsWf(s, i);
    var f := s.fields[i];
    var r := DecodedValue(f.kind, input[at..], into).value;
    if !f.kind.Message? {
      hide DecodedValue;
      ValueLeaves(f.kind, input[at..], into);
      k := |input| - |r.rest|;
      p := Item(i, r.value);
      assert input[at..] == input[at..k] + r.rest;
      ValueIff(f.kind, input[at..k], r.rest, into, r.value);
      KeyStays(input, k, f.tag, wt, at);
      assert input[..k][at..] == input[at..k];
    } else {
      hide TakeDelimited, Framed, Keyed;
      SchemaIsWf(f.kind);
      var j;
      j, k := BodyStands(input, f.tag, wt, at);
      var body := input[j..k];
      var message := MessageSpells(f.kind.schema, Base(f.kind, into).slots, body);
      p := Inner(i, message);
      assert input[..k][j..] == body;
    }
  }

  /** Key, length and body. */
  lemma BodyStands(input: seq<Byte>, tag: nat, wt: nat, at: nat) returns (j: nat, k: nat)
    requires Keyed(input, tag, wt, at) && TakeDelimited(input[at..], "parent stream too short").Ok?
    ensures var r := TakeDelimited(input[at..], "parent stream too short").value;
            at <= j <= k <= |input| && Framed(input[..k], tag, wt, at, j) && r.value == input[j..k] && r.rest == input[k..]
  {
    hide TakeDelimited, Reads32;
    var r := TakeDelimited(input[at..], "parent stream too short").value;
    var l := LengthStands(input[at..], "parent stream too short");
    j, k := at + l, |input| - |r.rest|;
    KeyStays(input, k, tag, wt, at);
    assert input[at..][l..k-at] == input[j..k] && input[at..][..l] == input[at..j] && input[at..][k-at..] == input[k..];
    assert input[..k][at..j] == input[at..j];
  }

  lemma {:induction false} ItemsSpell(s: Schema, i: nat, wt: nat, input: seq<Byte>, at: nat, had: seq<Value>, max: nat)
      returns (p: Part, k: nat)
    requires WfSchema(s) && i < |s.fields| && Keyed(input, s.fields[i].tag, wt, at) && IsArray(s.fields[i])
    requires DecodedItems(s.fields[i], wt, input[at..], had, max).Ok?
    ensures at <= k <= |input| && input[k..] == DecodedItems(s.fields[i], wt, input[at..], had, max).value.rest
    ensures Spells(s, p, input[..k])
    decreases s, 1
  {
    hide WfSchema, WfKind, SpellsItems, SpellsMessage, Reads32, DecodedValue, DecodedRun, TakeDelimited;
    KindIsWf(s, i);
    var f := s.fields[i];
    var r := DecodedItems(f, wt, input[at..], had, max).value;
    if wt == 2 && Packable(f.kind) {
      var j;
      j, k := BodyStands(input, f.tag, wt, at);
      var body := input[j..k];
      var items := RunSpells(f.kind, body, had, max);
      p := Run(i, items);
      assert input[..k][j..] == body;
    } else {
      p, k := ValueSpells(s, i, wt, input, at, ZeroValue(f.kind));
    }
  }

  lemma {:induction false} FieldSpells(s: Schema, i: nat, wt: nat, input: seq<Byte>, at: nat, m: Filling)
      returns (p: Part, k: nat)
    requires WfSchema(s) && i < |s.fields| == |m.slots| && Keyed(input, s.fields[i].tag, wt, at)
    requires DecodedField(s, i, wt, input[at..], m).Ok?
    ensures k <= |input| && input[k..] == DecodedField(s, i, wt, input[at..], m).value.rest
    ensures Spells(s, p, input[..k])
    decreases s, 2
  {
    hide WfSchema, Spells, Keyed, DecodedValue, DecodedItems;
    var f, slot := s.fields[i], m.slots[i];
    match f.rule
    case Repeated(max) => p, k := ItemsSpell(s, i, wt, input, at, Items(slot), max);
    case FixedCount(count) => p, k := ItemsSpell(s, i, wt, input, at, if m.fixed == Some(i) then Items(slot) else [], count);
    case _ => p, k := ValueSpells(s, i, wt, input, at, Current(f, slot));
  }

  /** What one turn has passed is a record. */
  lemma {:induction false} TurnSpells(s: Schema, m: Filling, input: seq<Byte>) returns (p: Part, k: nat)
    requires WfSchema(s) && |m.slots| == |s.fields| && input != [] && DecodedTurn(s, m, input).Go?
    ensures k <= |input| && input[k..] == DecodedTurn(s, m, input).rest && Spells(s, p, input[..k])
    decreases s, 3
  {
    hide WfSchema, DecodedField, DecodeVarint32, Reads32, Skippable, SkipField, FindField;
    var key := DecodeVarint32(input).value;
    var tag, wt := key.value / 8, key.value % 8;
    Number32Leaves(input);
    var at := |input| - |key.rest|;
    assert input == input[..at] + key.rest && input[at..] == key.rest;
    Number32Iff(input[..at], key.rest, key.value);
    assert Keyed(input, tag, wt, at);
    var i := FindField(s, tag, 0);
    if i == |s.fields| {
      var rest := SkipField(key.rest, wt).value;
      SkipLeaves(wt, key.rest);
      k := |input| - |rest|;
      p := Other;
      assert key.rest == input[at..k] + rest;
      SkipIff(wt, input[at..k], rest);
      KeyStays(input, k, tag, wt, at);
      assert input[..k][at..] == input[at..k];
    } else {
      p, k := FieldSpells(s, i, wt, input, at, m);
    }
  }

  lemma {:induction false} InFront(s: Schema, p: Part, record: seq<Byte>, ps: Parts, n: nat, body: seq<Byte>)
    requires n <= |ps.list| && Spells(s, p, record) && SpellAll(s, ps, n, body)
    ensures SpellAll(s, Parts([p] + ps.list), n + 1, record + body)
    decreases n
  {
    hide Spells;
    var qs := Parts([p] + ps.list);
    if n == 0 {
      assert record + body == [] + record && SpellAll(s, qs, 0, []);
    } else {
      var front, last :| SpellAll(s, ps, n - 1, front) && Spells(s, ps.list[n-1], last) && body == front + last;
      InFront(s, p, record, ps, n - 1, front);
      assert record + body == (record + front) + last && qs.list[n] == ps.list[n-1];
    }
  }

  lemma StopsAtEnd(s: Schema, m: Filling, input: seq<Byte>)
    requires |m.slots| == |s.fields| && input != [] && DecodedTurn(s, m, input).Stop?
    ensures Ends(input)
  {
    hide DecodeVarint32, Reads32, DecodedField, SkipField;
    var key := DecodeVarint32(input).value;
    Number32Leaves(input);
    var at := |input| - |key.rest|;
    assert input == input[..at] + key.rest;
    Number32Iff(input[..at], key.rest, 0);
  }

  lemma {:induction false} LoopSpells(s: Schema, m: Filling, input: seq<Byte>) returns (ps: Parts)
    requires WfSchema(s) && |m.slots| == |s.fields| && DecodedLoop(s, m, input).Ok?
    ensures SpellsMessage(s, ps, input)
    decreases s, 4, |input|
  {
    hide WfSchema, DecodedTurn, Spells, Ends;
    ps := Parts([]);
    if input == [] || DecodedTurn(s, m, input).Stop? {
      if input != [] {
        StopsAtEnd(s, m, input);
      }
      assert SpellAll(s, ps, 0, input[..0]) && input[0..] == input;
    } else {
      var t := DecodedTurn(s, m, input);
      var p, k := TurnSpells(s, m, input);
      var more := LoopSpells(s, t.m, t.rest);
      var j: nat :| j <= |t.rest| && SpellAll(s, more, |more.list|, t.rest[..j]) && (j == |t.rest| || Ends(t.rest[j..]));
      InFront(s, p, input[..k], more, |more.list|, t.rest[..j]);
      ps := Parts([p] + more.list);
      TakesMore(input, k, j);
    }
  }

  lemma {:induction false} MessageSpells(s: Schema, slots: seq<Slot>, body: seq<Byte>) returns (ps: Parts)
    requires WfSchema(s) && |slots| == |s.fields| && Decoded(s, slots, body).Ok?
    ensures SpellsMessage(s, ps, body)
    decreases s, 5
  {
    hide WfSchema, DecodedLoop, SpellsMessage;
    ps := LoopSpells(s, Filling(slots, {}, None, 0), body);
  }

  /** The decoder accepts exactly the bytes that spell records that are accepted, and gives what they come to. */
  lemma DecodedIff(s: Schema, slots: seq<Slot>, body: seq<Byte>, result: seq<Slot>)
    requires WfSchema(s) && |slots| == |s.fields|
    ensures Decoded(s, slots, body) == Ok(result) <==>
            exists ps :: SpellsMessage(s, ps, body) && Accepted(s, slots, ps) && result == Merged(s, slots, ps, |ps.list|)
  {
    hide WfSchema, Decoded, SpellsMessage, Accepted, Merged;
    forall ps | SpellsMessage(s, ps, body)
      ensures Decoded(s, slots, body).Ok? <==> Accepted(s, slots, ps)
      ensures Decoded(s, slots, body).Ok? ==> Decoded(s, slots, body).value == Merged(s, slots, ps, |ps.list|)
    {
      PartsDecode(s, slots, ps, body);
    }
    if Decoded(s, slots, body).Ok? {
      var ps := MessageSpells(s, slots, body);
    }
  }

  // ---------- a message in parts ----------

  function Behind(a: Parts, b: Parts): (r: Parts)
    ensures |r.list| == |a.list| + |b.list|
  {
    Parts(a.list + b.list)
  }

  predicate NoFixedCounts(s: Schema) {
    forall i :: 0 <= i < |s.fields| ==> !s.fields[i].rule.FixedCount?
  }

  lemma {:induction false} FrontItems(s: Schema, a: Parts, b: Parts, n: nat, i: nat)
    requires i < |s.fields| && n <= |a.list|
    ensures ItemsOf(s, Behind(a, b), n, i) == ItemsOf(s, a, n, i)
  {
    hide Carried;
    if n > 0 {
      FrontItems(s, a, b, n - 1, i);
    }
  }

  lemma {:induction false} BackItems(s: Schema, a: Parts, b: Parts, n: nat, i: nat)
    requires i < |s.fields| && n <= |b.list|
    ensures ItemsOf(s, Behind(a, b), |a.list| + n, i) == ItemsOf(s, a, |a.list|, i) + ItemsOf(s, b, n, i)
  {
    hide Carried;
    if n == 0 {
      FrontItems(s, a, b, |a.list|, i);
      assert ItemsOf(s, a, |a.list|, i) + [] == ItemsOf(s, a, |a.list|, i);
    } else {
      BackItems(s, a, b, n - 1, i);
      var x, y, z := ItemsOf(s, a, |a.list|, i), ItemsOf(s, b, n - 1, i), Carried(s, b.list[n-1], i);
      assert Behind(a, b).list[|a.list| + n - 1] == b.list[n-1];
      assert x + y + z == x + (y + z);
    }
  }

  lemma {:induction false} FrontSingle(s: Schema, slots: seq<Slot>, a: Parts, b: Parts, n: nat, i: nat)
    requires i < |s.fields| == |slots| && n <= |a.list|
    ensures SingleAfter(s, slots, Behind(a, b), n, i) == SingleAfter(s, slots, a, n, i)
  {
    hide Merged;
    if n > 0 {
      FrontSingle(s, slots, a, b, n - 1, i);
      assert Behind(a, b).list[n-1] == a.list[n-1];
    }
  }

  lemma {:induction false} BackSingle(s: Schema, slots: seq<Slot>, a: Parts, b: Parts, n: nat, i: nat)
    requires i < |s.fields| == |slots| && n <= |b.list| && !IsArray(s.fields[i])
    ensures SingleAfter(s, slots, Behind(a, b), |a.list| + n, i) == SingleAfter(s, Merged(s, slots, a, |a.list|), b, n, i)
  {
    if n == 0 {
      FrontSingle(s, slots, a, b, |a.list|, i);
    } else {
      BackSingle(s, slots, a, b, n - 1, i);
      assert Behind(a, b).list[|a.list| + n - 1] == b.list[n-1];
    }
  }

  lemma TouchedBehind(a: Parts, b: Parts, i: nat)
    ensures Touched(Behind(a, b), |a.list| + |b.list|, i) <==> Touched(a, |a.list|, i) || Touched(b, |b.list|, i)
  {
    var n, l := |a.list|, Behind(a, b).list;
    if Touched(a, n, i) {
      var k :| 0 <= k < n && On(a.list[k], i);
      assert On(l[k], i);
    }
    if Touched(b, |b.list|, i) {
      var k :| 0 <= k < |b.list| && On(b.list[k], i);
      assert l[n + k] == b.list[k] && On(l[n + k], i);
    }
    if Touched(Behind(a, b), n + |b.list|, i) {
      var k :| 0 <= k < n + |b.list| && On(l[k], i);
      assert if k < n then On(a.list[k], i) else On(b.list[k - n], i);
    }
  }

  lemma {:induction false} ArrayIsMerged(s: Schema, slots: seq<Slot>, a: Parts, b: Parts, i: nat)
    requires |slots| == |s.fields| && i < |s.fields| && s.fields[i].rule.Repeated?
    ensures FieldAfter(s, Merged(s, slots, a, |a.list|), b, |b.list|, i)
         == FieldAfter(s, slots, Behind(a, b), |a.list| + |b.list|, i)
  {
    hide ItemsOf, SingleAfter, Touched, Behind;
    TouchedBehind(a, b, i);
    BackItems(s, a, b, |b.list|, i);
    MidItems(s, slots, a, i);
    MergedAt(s, slots, a, |a.list|, i);
    var h, x, y := ItemsHeld(slots[i]), ItemsOf(s, a, |a.list|, i), ItemsOf(s, b, |b.list|, i);
    if !Touched(b, |b.list|, i) {
      NoneCarried(s, b, |b.list|, i);
      assert x + y == x;
    }
    assert h + x + y == h + (x + y);
  }

  lemma {:induction false} FieldIsMerged(s: Schema, slots: seq<Slot>, a: Parts, b: Parts, mid: seq<Slot>, both: Parts, i: nat)
    requires |slots| == |mid| == |s.fields| && i < |s.fields| && !s.fields[i].rule.FixedCount?
    requires mid == Merged(s, slots, a, |a.list|) && both == Behind(a, b)
    ensures FieldAfter(s, mid, b, |b.list|, i) == FieldAfter(s, slots, both, |both.list|, i)
  {
    hide ItemsOf, SingleAfter, Touched, Merged;
    if s.fields[i].rule.Repeated? {
      ArrayIsMerged(s, slots, a, b, i);
    } else {
      BackSingle(s, slots, a, b, |b.list|, i);
    }
  }

  lemma {:induction false} SameFields(s: Schema, slots: seq<Slot>, ps: Parts, slots': seq<Slot>, ps': Parts)
    requires |slots| == |slots'| == |s.fields|
    requires forall i :: 0 <= i < |s.fields| ==>
               FieldAfter(s, slots, ps, |ps.list|, i) == FieldAfter(s, slots', ps', |ps'.list|, i)
    ensures Merged(s, slots, ps, |ps.list|) == Merged(s, slots', ps', |ps'.list|)
  {
    hide FieldAfter;
  }

  lemma {:induction false} FieldsAreMerged(s: Schema, slots: seq<Slot>, a: Parts, b: Parts, mid: seq<Slot>, both: Parts)
    requires |slots| == |mid| == |s.fields| && NoFixedCounts(s)
    requires mid == Merged(s, slots, a, |a.list|) && both == Behind(a, b)
    ensures forall i :: 0 <= i < |s.fields| ==>
              FieldAfter(s, mid, b, |b.list|, i) == FieldAfter(s, slots, both, |both.list|, i)
  {
    hide FieldAfter, Merged, Behind;
    forall i | 0 <= i < |s.fields| ensures FieldAfter(s, mid, b, |b.list|, i) == FieldAfter(s, slots, both, |both.list|, i) {
      NotFixed(s, i);
      FieldIsMerged(s, slots, a, b, mid, both, i);
    }
  }

  /** Two records of a nested message come to one that holds the fields of both. */
  lemma {:induction false} PartsAreMerged(s: Schema, slots: seq<Slot>, a: Parts, b: Parts)
    requires |slots| == |s.fields| && NoFixedCounts(s)
    ensures Merged(s, Merged(s, slots, a, |a.list|), b, |b.list|) == Merged(s, slots, Behind(a, b), |Behind(a, b).list|)
  {
    hide FieldAfter, Merged, Behind, NoFixedCounts;
    var mid, both := Merged(s, slots, a, |a.list|), Behind(a, b);
    FieldsAreMerged(s, slots, a, b, mid, both);
    SameFields(s, mid, b, slots, both);
  }

  lemma NotFixed(s: Schema, i: nat)
    requires i < |s.fields| && NoFixedCounts(s)
    ensures !s.fields[i].rule.FixedCount?
  {
  }

  lemma MidItems(s: Schema, slots: seq<Slot>, a: Parts, i: nat)
    requires |slots| == |s.fields| && i < |s.fields| && s.fields[i].rule.Repeated?
    ensures ItemsHeld(Merged(s, slots, a, |a.list|)[i]) == ItemsHeld(slots[i]) + ItemsOf(s, a, |a.list|, i)
  {
    hide ItemsOf, Touched;
    if !Touched(a, |a.list|, i) {
      NoneCarried(s, a, |a.list|, i);
      assert ItemsHeld(slots[i]) + [] == ItemsHeld(slots[i]);
    }
  }

  // ---------- one array, not packed ----------

  const Four := Schema([Field(1, Int(32), Repeated(4), None)])

  const Ones := Parts([Item(0, Scalar(1)), Item(0, Scalar(2))])

  /** The array [1, 2] as an encoder writes it that does not pack: 08 01 08 02. */
  lemma UnpackedIsRead()
    ensures DecodedFresh(Four, [8, 1, 8, 2]) == Ok([Many([Scalar(1), Scalar(2)])])
  {
    hide SpellsMessage, Accepted, Merged, Decoded;
    OnesAreSpelled();
    OnesAreAccepted();
    PartsDecode(Four, DefaultSlots(Four), Ones, [8, 1, 8, 2]);
  }

  lemma OnesAreSpelled()
    ensures SpellsMessage(Four, Ones, [8, 1, 8, 2])
  {
    hide SpellAll, SpellsMessage, Spells;
    OneByteItem(1);
    OneByteItem(2);
    NoneSpelled(Four, Ones);
    OneMoreSpelled(Four, Ones, 0, [], [8, 1]);
    assert [] + [8, 1] == [8, 1];
    OneMoreSpelled(Four, Ones, 1, [8, 1], [8, 2]);
    assert [8, 1] + [8, 2] == [8, 1, 8, 2];
    WholeIsSpelled(Four, Ones, [8, 1, 8, 2]);
  }

  lemma NoneSpelled(s: Schema, ps: Parts)
    ensures SpellAll(s, ps, 0, [])
  {
  }

  lemma OneMoreSpelled(s: Schema, ps: Parts, n: nat, front: seq<Byte>, record: seq<Byte>)
    requires n < |ps.list| && SpellAll(s, ps, n, front) && Spells(s, ps.list[n], record)
    ensures SpellAll(s, ps, n + 1, front + record)
  {
    hide Spells;
  }

  lemma WholeIsSpelled(s: Schema, ps: Parts, body: seq<Byte>)
    requires SpellAll(s, ps, |ps.list|, body)
    ensures SpellsMessage(s, ps, body)
  {
    hide SpellAll;
    assert body[..|body|] == body;
  }

  lemma OneByteItem(n: Byte)
    requires n < 128
    ensures Spells(Four, Item(0, Scalar(n)), [8, n])
  {
    var record: seq<Byte> := [8, n];
    OneByteNumber(8);
    OneByteNumber(n);
    assert record[..1] == [8] && record[1..] == [n];
    assert Keyed(record, Four.fields[0].tag, 0, 1);
    assert Spells64([n], n) && Denotes(Int(32), n, n) && Holds(Int(32), n);
    assert SpellsScalar(Int(32), [n], n);
  }

  lemma OneByteNumber(n: Byte)
    requires n < 128
    ensures Reads32([n], n) && Spells64([n], n)
  {
    assert GroupsValue([n]) == n;
  }

  lemma OnesAreAccepted()
    ensures Accepted(Four, DefaultSlots(Four), Ones)
    ensures Merged(Four, DefaultSlots(Four), Ones, 2) == [Many([Scalar(1), Scalar(2)])]
  {
    assert On(Ones.list[1], 0) && Touched(Ones, 2, 0);
    assert DefaultSlots(Four) == [Many([])] && [] + [Scalar(1), Scalar(2)] == [Scalar(1), Scalar(2)];
    assert ItemsOf(Four, Ones, 1, 0) == [Scalar(1)] && ItemsOf(Four, Ones, 2, 0) == [Scalar(1), Scalar(2)];
    assert Fits(Four, DefaultSlots(Four), Ones, 0) && Fits(Four, DefaultSlots(Four), Ones, 1);
  }
}
