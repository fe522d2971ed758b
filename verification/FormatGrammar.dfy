/** The bytes that spell a varint or a length-prefixed string, and that the readers take exactly those (util/coding.h, as
    db/version_edit.cc and db/write_batch.cc use it). */
module CodingGrammar {
  import opened InternalKeys
  import opened LogFormat
  import opened Coding

  /** All bytes but the last have their high bit set. */
  predicate IsVarint(b: seq<Byte>) {
    0 < |b| && b[|b|-1] < 128 && forall i :: 0 <= i < |b| - 1 ==> b[i] >= 128
  }

  /** Groups of seven bits, low group first. */
  function GroupsValue(b: seq<Byte>): nat {
    if b == [] then 0 else GroupsValue(b[..|b|-1]) + Scaled(b[|b|-1] % 128, |b| - 1)
  }

  function Scaled(v: nat, n: nat): nat {
    if n == 0 then v else 128 * Scaled(v, n - 1)
  }

  /** At most `limit` bytes, leading zeros allowed; what exceeds the width is lost. */
  predicate SpellsVarint(b: seq<Byte>, limit: nat, modulus: nat, v: nat) {
    IsVarint(b) && |b| <= limit && 0 < modulus && v == GroupsValue(b) % modulus
  }

  predicate Spells32(b: seq<Byte>, v: nat) {
    SpellsVarint(b, 5, TWO_32, v)
  }

  predicate Spells64(b: seq<Byte>, v: nat) {
    SpellsVarint(b, 10, TWO_64, v)
  }

  /** A length and as many bytes. */
  predicate SpellsPrefixed(b: seq<Byte>, s: seq<Byte>) {
    |s| <= |b| && b[|b|-|s|..] == s && Spells32(b[..|b|-|s|], |s|)
  }

  lemma {:induction false} LowGroup(b: seq<Byte>)
    requires b != []
    ensures GroupsValue(b) == b[0] % 128 + 128 * GroupsValue(b[1..])
  {
    var n := |b| - 1;
    if n > 0 {
      LowGroup(b[..n]);
      assert b[..n][1..] == b[1..][..n-1] && b[1..][n-1] == b[n];
    }
  }

  lemma IsVarintFrom(b: seq<Byte>)
    requires b != []
    ensures IsVarint(b) <==> if b[0] < 128 then |b| == 1 else IsVarint(b[1..])
  {
    if b[0] >= 128 && IsVarint(b[1..]) {
      assert forall i :: 0 < i < |b| - 1 ==> b[i] == b[1..][i-1];
    }
  }

  /** What is left is the end of what there was. */
  lemma {:induction false} VarintLeaves(input: seq<Byte>, limit: nat)
    requires GetVarint(input, limit).Some?
    ensures var rest := GetVarint(input, limit).value.rest; input == input[..|input|-|rest|] + rest
    decreases limit
  {
    if input[0] >= 128 {
      VarintLeaves(input[1..], limit - 1);
      OneMore(input, GetVarint(input, limit).value.rest);
    }
  }

  lemma OneMore(s: seq<Byte>, rest: seq<Byte>)
    requires s != [] && |rest| < |s| && s[1..] == s[1..][..|s|-1-|rest|] + rest
    ensures s == s[..|s|-|rest|] + rest
  {
    assert s == [s[0]] + s[1..];
  }

  lemma {:induction false} VarintIff(b: seq<Byte>, rest: seq<Byte>, limit: nat, v: nat)
    ensures GetVarint(b + rest, limit) == Some(Parsed(v, rest)) <==> IsVarint(b) && |b| <= limit && v == GroupsValue(b)
    decreases limit
  {
    if b != [] && limit > 0 {
      LowGroup(b);
      IsVarintFrom(b);
      assert (b + rest)[1..] == b[1..] + rest;
      if b[0] < 128 {
        assert |b| > 1 ==> b[1..] + rest != rest by { assert |b| > 1 ==> |b[1..] + rest| > |rest|; }
        assert |b| == 1 ==> b[1..] == [] && [] + rest == rest && GroupsValue([]) == 0;
      } else {
        var w := GroupsValue(b[1..]);
        VarintIff(b[1..], rest, limit - 1, w);
        var r := GetVarint(b[1..] + rest, limit - 1);
        if r.Some? && r.value.rest == rest {
          VarintIff(b[1..], rest, limit - 1, r.value.value);
        }
      }
    } else if b == [] {
      assert b + rest == rest;
    }
  }

  lemma Varint32Iff(b: seq<Byte>, rest: seq<Byte>, v: nat)
    ensures GetVarint32(b + rest) == Some(Parsed(v, rest)) <==> Spells32(b, v)
  {
    hide GetVarint, GroupsValue, IsVarint;
    VarintIff(b, rest, 5, GroupsValue(b));
    var r := GetVarint(b + rest, 5);
    if r.Some? {
      VarintIff(b, rest, 5, r.value.value);
    }
  }

  lemma Varint64Iff(b: seq<Byte>, rest: seq<Byte>, v: nat)
    ensures GetVarint64(b + rest) == Some(Parsed(v, rest)) <==> Spells64(b, v)
  {
    hide GetVarint, GroupsValue, IsVarint;
    VarintIff(b, rest, 10, GroupsValue(b));
    var r := GetVarint(b + rest, 10);
    if r.Some? {
      VarintIff(b, rest, 10, r.value.value);
    }
  }

  lemma PrefixedIff(b: seq<Byte>, rest: seq<Byte>, s: seq<Byte>)
    ensures GetLengthPrefixed(b + rest) == Some(Parsed(s, rest)) <==> SpellsPrefixed(b, s)
  {
    hide GetVarint32, Spells32;
    if SpellsPrefixed(b, s) {
      var head := b[..|b|-|s|];
      Varint32Iff(head, s + rest, |s|);
      assert b + rest == head + (s + rest);
      assert (s + rest)[..|s|] == s && (s + rest)[|s|..] == rest;
    }
    if GetLengthPrefixed(b + rest) == Some(Parsed(s, rest)) {
      var n := GetVarint32(b + rest).value;
      Varint32Leaves(b + rest);
      assert n.rest == s + rest;
      var head := (b + rest)[..|b + rest| - |n.rest|];
      assert b + rest == head + s + rest;
      assert |head| + |s| == |b|;
      assert (b + rest)[..|b|] == b && (head + s + rest)[..|b|] == head + s;
      assert b == head + s;
      Varint32Iff(head, s + rest, |s|);
      assert head + (s + rest) == b + rest;
    }
  }

  lemma Varint32Leaves(input: seq<Byte>)
    requires GetVarint32(input).Some?
    ensures var rest := GetVarint32(input).value.rest; input == input[..|input|-|rest|] + rest
  {
    VarintLeaves(input, 5);
  }

  lemma Varint64Leaves(input: seq<Byte>)
    requires GetVarint64(input).Some?
    ensures var rest := GetVarint64(input).value.rest; input == input[..|input|-|rest|] + rest
  {
    VarintLeaves(input, 10);
  }

  lemma PrefixedLeaves(input: seq<Byte>)
    requires GetLengthPrefixed(input).Some?
    ensures var rest := GetLengthPrefixed(input).value.rest; input == input[..|input|-|rest|] + rest
  {
    hide GetVarint32;
    Varint32Leaves(input);
    var n := GetVarint32(input).value;
    assert input == input[..|input|-|n.rest|] + n.rest[..n.value] + n.rest[n.value..];
  }

  /** A first part is read; what it leaves is the end of the second. */
  lemma Splits(b: seq<Byte>, rest: seq<Byte>, behind: seq<Byte>)
    requires |rest| <= |behind| <= |b| + |rest| && b + rest == (b + rest)[..|b|+|rest|-|behind|] + behind
    ensures var m := |b| + |rest| - |behind|; b == b[..m] + b[m..] && b[..m] + behind == b + rest && b[m..] + rest == behind
  {
    var m := |b| + |rest| - |behind|;
    assert (b + rest)[..m] == b[..m];
    assert behind == (b + rest)[m..] == b[m..] + rest;
  }

  lemma SliceBehind(b: seq<Byte>, k: nat, n: nat, j: nat)
    requires k + n <= j <= |b|
    ensures b[k+n..j] == b[k..][n..j-k]
  {
  }

  lemma TakesMore(b: seq<Byte>, k: nat, j: nat)
    requires k + j <= |b|
    ensures b[..k+j] == b[..k] + b[k..][..j] && b[k+j..] == b[k..][j..]
  {
    var x, y := b[k..][..j], b[k..][j..];
    assert forall i :: 0 <= i < j ==> x[i] == b[k..][i] == b[k+i];
    assert |y| == |b| - k - j && forall i :: 0 <= i < |y| ==> y[i] == b[k+j..][i];
  }

  lemma Two(b: seq<Byte>, m: nat, rest: seq<Byte>)
    requires m <= |b|
    ensures b + rest == b[..m] + (b[m..] + rest)
  {
  }
}

/** Which bytes are a write batch (db/write_batch.cc). */
module BatchGrammar {
  import opened InternalKeys
  import opened LogFormat
  import opened Coding
  import opened CodingGrammar
  import opened BatchFormat

  /** A one, a key and a value; or a zero and a key. */
  predicate SpellsRecord(b: seq<Byte>, r: Record) {
    match r
    case Put(key, value) =>
      b != [] && b[0] == 1 && exists m: nat :: 0 < m <= |b| && SpellsPrefixed(b[1..m], key) && SpellsPrefixed(b[m..], value)
    case Delete(key) => b != [] && b[0] == 0 && SpellsPrefixed(b[1..], key)
  }

  /** The records one after the other. */
  predicate SpellsRecords(b: seq<Byte>, rs: seq<Record>) {
    if rs == [] then b == []
    else exists m: nat :: m <= |b| && SpellsRecord(b[..m], rs[0]) && SpellsRecords(b[m..], rs[1..])
  }

  lemma NextIff(b: seq<Byte>, rest: seq<Byte>, r: Record)
    requires b + rest != []
    ensures Next(b + rest) == Took(r, rest) <==> SpellsRecord(b, r)
  {
    hide GetLengthPrefixed, SpellsPrefixed;
    if SpellsRecord(b, r) {
      RecordIsTaken(b, rest, r);
    }
    if Next(b + rest) == Took(r, rest) {
      TakenIsRecord(b, rest, r);
    }
  }

  lemma RecordIsTaken(b: seq<Byte>, rest: seq<Byte>, r: Record)
    requires SpellsRecord(b, r)
    ensures Next(b + rest) == Took(r, rest)
  {
    hide GetLengthPrefixed, SpellsPrefixed;
    match r
    case Put(key, value) =>
      var m: nat :| 0 < m <= |b| && SpellsPrefixed(b[1..m], key) && SpellsPrefixed(b[m..], value);
      PrefixedIff(b[1..m], b[m..] + rest, key);
      PrefixedIff(b[m..], rest, value);
      assert (b + rest)[1..] == b[1..m] + (b[m..] + rest);
    case Delete(key) =>
      PrefixedIff(b[1..], rest, key);
      assert (b + rest)[1..] == b[1..] + rest;
  }

  lemma TakenIsRecord(b: seq<Byte>, rest: seq<Byte>, r: Record)
    requires b + rest != [] && Next(b + rest) == Took(r, rest)
    ensures SpellsRecord(b, r)
  {
    hide GetLengthPrefixed, SpellsPrefixed;
    assert |b + rest| > |rest|;
    var body := b[1..];
    assert (b + rest)[1..] == body + rest && b[0] == (b + rest)[0];
    match r
    case Put(key, value) =>
      var behind := GetLengthPrefixed(body + rest).value.rest;
      PrefixedLeaves(body + rest);
      PrefixedLeaves(behind);
      var m := |b| + |rest| - |behind|;
      assert |rest| <= |behind| && 0 < m <= |b|;
      assert b[1..m] + behind == body + rest && b[m..] + rest == behind by {
        Splits(body, rest, behind);
        assert body[..m-1] == b[1..m] && body[m-1..] == b[m..];
      }
      PrefixedIff(b[1..m], behind, key);
      PrefixedIff(b[m..], rest, value);
    case Delete(key) => PrefixedIff(body, rest, key);
  }

  lemma NextLeaves(input: seq<Byte>)
    requires input != [] && Next(input).Took?
    ensures var rest := Next(input).rest; input == input[..|input|-|rest|] + rest
  {
    hide GetLengthPrefixed;
    PrefixedLeaves(input[1..]);
    assert input == [input[0]] + input[1..];
    if input[0] == 1 {
      var behind := GetLengthPrefixed(input[1..]).value.rest;
      PrefixedLeaves(behind);
      assert input == [input[0]] + (input[1..][..|input|-1-|behind|] + behind);
    }
  }

  lemma SomeBytes(b: seq<Byte>, r: Record)
    requires SpellsRecord(b, r)
    ensures b != []
  {
  }

  /** Iterating over the bytes hands over these records and ends well exactly if the bytes spell them. */
  lemma {:induction false} WalkIff(b: seq<Byte>, rs: seq<Record>)
    ensures Walk(b) == (rs, Good) <==> SpellsRecords(b, rs)
    decreases |b|
  {
    hide Next, SpellsRecord;
    if b == [] {
      forall r ensures !SpellsRecord([], r) {
        if SpellsRecord([], r) {
          SomeBytes([], r);
        }
      }
    } else {
      if SpellsRecords(b, rs) && rs != [] {
        var m: nat :| m <= |b| && SpellsRecord(b[..m], rs[0]) && SpellsRecords(b[m..], rs[1..]);
        assert b == b[..m] + b[m..];
        NextIff(b[..m], b[m..], rs[0]);
        WalkIff(b[m..], rs[1..]);
        assert rs == [rs[0]] + rs[1..];
      }
      if Walk(b) == (rs, Good) {
        var rest := Next(b).rest;
        NextLeaves(b);
        var m := |b| - |rest|;
        assert b[m..] == rest;
        NextIff(b[..m], rest, rs[0]);
        WalkIff(rest, rs[1..]);
      }
    }
  }

  /** Whatever the bytes, what is handed over is spelled at their front; what is not taken does not begin with a record. */
  lemma {:induction false} WalkTakes(b: seq<Byte>) returns (m: nat)
    ensures m <= |b| && SpellsRecords(b[..m], Walk(b).0) && (Walk(b).1.Good? <==> m == |b|)
    ensures Walk(b).1 != Good ==> forall n: nat, r :: m < n <= |b| ==> !SpellsRecord(b[m..n], r)
    decreases |b|
  {
    hide Next, SpellsRecord;
    m := 0;
    assert b[..0] == [];
    if b != [] && Next(b).Took? {
      var r, rest := Next(b).record, Next(b).rest;
      NextLeaves(b);
      var k := |b| - |rest|;
      assert b[k..] == rest;
      NextIff(b[..k], rest, r);
      var n := WalkTakes(rest);
      m := k + n;
      assert b[..m][..k] == b[..k] && b[..m][k..] == rest[..n];
      assert Walk(b).0[0] == r && Walk(b).0[1..] == Walk(rest).0;
      if Walk(b).1 != Good {
        forall j: nat, q | m < j <= |b| ensures !SpellsRecord(b[m..j], q) {
          SliceBehind(b, k, n, j);
        }
      }
    } else if b != [] {
      forall n: nat, r | 0 < n <= |b| ensures !SpellsRecord(b[0..n], r) {
        NextIff(b[0..n], b[n..], r);
        assert b == b[0..n] + b[n..];
      }
    }
  }

  /** A batch is twelve bytes, the last four its count, and that many records. */
  lemma BatchIff(rep: seq<Byte>, rs: seq<Record>)
    ensures Iterated(rep) == (rs, Good) <==>
            |rep| >= 12 && SpellsRecords(rep[12..], rs)
            && |rs| % 0x1_0000_0000
               == rep[8] as int + 0x100 * rep[9] as int + 0x1_0000 * rep[10] as int + 0x100_0000 * rep[11] as int
  {
    hide Walk, SpellsRecords;
    if |rep| >= 12 {
      WalkIff(rep[12..], rs);
      WrapsModulo(|rs|);
      assert rep[8..12][0] == rep[8] && rep[8..12][1] == rep[9] && rep[8..12][2] == rep[10] && rep[8..12][3] == rep[11];
    }
  }

  lemma {:induction false} WrapsModulo(n: nat)
    ensures Wrap32(n) == n % 0x1_0000_0000
  {
    if n >= 0x1_0000_0000 {
      WrapsModulo(n - 0x1_0000_0000);
    }
  }
}

/** Which bytes are a version edit, and what its fields come to (db/version_edit.cc). */
module EditGrammar {
  import opened InternalKeys
  import opened LogFormat
  import opened Coding
  import opened CodingGrammar
  import opened VersionEditFields
  import opened VersionEditRoundTrip

  predicate SpellsLevel(b: seq<Byte>, level: nat) {
    Spells32(b, level) && level < 7
  }

  predicate SpellsKeys(b: seq<Byte>, smallest: seq<Byte>, largest: seq<Byte>) {
    exists m: nat :: m <= |b| && SpellsPrefixed(b[..m], smallest) && SpellsPrefixed(b[m..], largest)
  }

  predicate SpellsFile(b: seq<Byte>, file: FileEntry) {
    exists m: nat, n: nat :: m <= n <= |b| &&
      Spells64(b[..m], file.number) && Spells64(b[m..n], file.fileSize) && SpellsKeys(b[n..], file.smallest, file.largest)
  }

  predicate SpellsPayload(b: seq<Byte>, f: Field) {
    match f
    case Comparator(name) => SpellsPrefixed(b, name)
    case LogNumber(n) => Spells64(b, n)
    case PrevLogNumber(n) => Spells64(b, n)
    case NextFileNumber(n) => Spells64(b, n)
    case LastSequence(n) => Spells64(b, n)
    case CompactPointer(level, key) => exists m: nat :: m <= |b| && SpellsLevel(b[..m], level) && SpellsPrefixed(b[m..], key)
    case DeletedFile(level, number) => exists m: nat :: m <= |b| && SpellsLevel(b[..m], level) && Spells64(b[m..], number)
    case NewFile(level, file) => exists m: nat :: m <= |b| && SpellsLevel(b[..m], level) && SpellsFile(b[m..], file)
  }

  /** A tag and what belongs to it. */
  predicate SpellsField(b: seq<Byte>, f: Field) {
    exists m: nat :: m <= |b| && Spells32(b[..m], TagOf(f)) && SpellsPayload(b[m..], f)
  }

  predicate SpellsFields(b: seq<Byte>, fs: seq<Field>) {
    if fs == [] then b == []
    else exists m: nat :: m <= |b| && SpellsField(b[..m], fs[0]) && SpellsFields(b[m..], fs[1..])
  }

  // ---------- one field ----------

  lemma LevelIff(b: seq<Byte>, rest: seq<Byte>, level: nat)
    ensures GetLevel(b + rest) == Some(Parsed(level, rest)) <==> SpellsLevel(b, level)
  {
    Varint32Iff(b, rest, level);
  }

  lemma LevelLeaves(input: seq<Byte>)
    requires GetLevel(input).Some?
    ensures var rest := GetLevel(input).value.rest; input == input[..|input|-|rest|] + rest
  {
    Varint32Leaves(input);
  }

  lemma PointerIff(b: seq<Byte>, rest: seq<Byte>, level: nat, key: seq<Byte>)
    ensures ParseCompactPointer(b + rest) == Some(Parsed(CompactPointer(level, key), rest))
            <==> SpellsPayload(b, CompactPointer(level, key))
  {
    hide GetLevel, GetLengthPrefixed, SpellsLevel, SpellsPrefixed;
    if SpellsPayload(b, CompactPointer(level, key)) {
      var m: nat :| m <= |b| && SpellsLevel(b[..m], level) && SpellsPrefixed(b[m..], key);
      Two(b, m, rest);
      LevelIff(b[..m], b[m..] + rest, level);
      PrefixedIff(b[m..], rest, key);
    }
    if ParseCompactPointer(b + rest) == Some(Parsed(CompactPointer(level, key), rest)) {
      var behind := GetLevel(b + rest).value.rest;
      LevelLeaves(b + rest);
      PrefixedLeaves(behind);
      Splits(b, rest, behind);
      var m := |b| + |rest| - |behind|;
      LevelIff(b[..m], behind, level);
      PrefixedIff(b[m..], rest, key);
    }
  }

  lemma DeletedIff(b: seq<Byte>, rest: seq<Byte>, level: nat, number: nat)
    ensures ParseDeletedFile(b + rest) == Some(Parsed(DeletedFile(level, number), rest))
            <==> SpellsPayload(b, DeletedFile(level, number))
  {
    hide GetLevel, GetVarint64, SpellsLevel, Spells64;
    if SpellsPayload(b, DeletedFile(level, number)) {
      var m: nat :| m <= |b| && SpellsLevel(b[..m], level) && Spells64(b[m..], number);
      Two(b, m, rest);
      LevelIff(b[..m], b[m..] + rest, level);
      Varint64Iff(b[m..], rest, number);
    }
    if ParseDeletedFile(b + rest) == Some(Parsed(DeletedFile(level, number), rest)) {
      var behind := GetLevel(b + rest).value.rest;
      LevelLeaves(b + rest);
      Varint64Leaves(behind);
      Splits(b, rest, behind);
      var m := |b| + |rest| - |behind|;
      LevelIff(b[..m], behind, level);
      Varint64Iff(b[m..], rest, number);
    }
  }

  lemma KeysAreTaken(b: seq<Byte>, rest: seq<Byte>, smallest: seq<Byte>, largest: seq<Byte>)
    requires SpellsKeys(b, smallest, largest)
    ensures var r := GetLengthPrefixed(b + rest);
            r.Some? && r.value.value == smallest && GetLengthPrefixed(r.value.rest) == Some(Parsed(largest, rest))
  {
    hide GetLengthPrefixed, SpellsPrefixed;
    var k: nat :| k <= |b| && SpellsPrefixed(b[..k], smallest) && SpellsPrefixed(b[k..], largest);
    Two(b, k, rest);
    PrefixedIff(b[..k], b[k..] + rest, smallest);
    PrefixedIff(b[k..], rest, largest);
  }

  lemma TakenAreKeys(b: seq<Byte>, rest: seq<Byte>, smallest: seq<Byte>, largest: seq<Byte>)
    requires var r := GetLengthPrefixed(b + rest);
             r.Some? && r.value.value == smallest && GetLengthPrefixed(r.value.rest) == Some(Parsed(largest, rest))
    ensures SpellsKeys(b, smallest, largest)
  {
    hide GetLengthPrefixed, SpellsPrefixed;
    var behind := GetLengthPrefixed(b + rest).value.rest;
    PrefixedLeaves(b + rest);
    PrefixedLeaves(behind);
    Splits(b, rest, behind);
    var k := |b| + |rest| - |behind|;
    PrefixedIff(b[..k], behind, smallest);
    PrefixedIff(b[k..], rest, largest);
  }

  lemma FileIsTaken(b: seq<Byte>, rest: seq<Byte>, level: nat, file: FileEntry)
    requires SpellsPayload(b, NewFile(level, file))
    ensures ParseNewFile(b + rest) == Some(Parsed(NewFile(level, file), rest))
  {
    hide GetLevel, GetVarint64, GetLengthPrefixed, SpellsLevel, Spells64, SpellsKeys;
    var m: nat :| m <= |b| && SpellsLevel(b[..m], level) && SpellsFile(b[m..], file);
    Two(b, m, rest);
    LevelIff(b[..m], b[m..] + rest, level);
    var c := b[m..];
    var i: nat, j: nat :| i <= j <= |c| &&
      Spells64(c[..i], file.number) && Spells64(c[i..j], file.fileSize) && SpellsKeys(c[j..], file.smallest, file.largest);
    Two(c, i, rest);
    Varint64Iff(c[..i], c[i..] + rest, file.number);
    Two(c[i..], j - i, rest);
    assert c[i..][..j-i] == c[i..j] && c[i..][j-i..] == c[j..];
    Varint64Iff(c[i..j], c[j..] + rest, file.fileSize);
    KeysAreTaken(c[j..], rest, file.smallest, file.largest);
  }

  lemma TakenIsFile(b: seq<Byte>, rest: seq<Byte>, level: nat, file: FileEntry)
    requires ParseNewFile(b + rest) == Some(Parsed(NewFile(level, file), rest))
    ensures SpellsPayload(b, NewFile(level, file))
  {
    hide GetLevel, GetVarint64, GetLengthPrefixed, SpellsLevel, Spells64, SpellsKeys;
    var r1 := GetLevel(b + rest).value.rest;
    var r2 := GetVarint64(r1).value.rest;
    var r3 := GetVarint64(r2).value.rest;
    LevelLeaves(b + rest);
    Splits(b, rest, r1);
    var m := |b| + |rest| - |r1|;
    LevelIff(b[..m], r1, level);
    var c := b[m..];
    Varint64Leaves(r1);
    Splits(c, rest, r2);
    var i := |c| + |rest| - |r2|;
    Varint64Iff(c[..i], r2, file.number);
    Varint64Leaves(r2);
    Splits(c[i..], rest, r3);
    var j := |c| + |rest| - |r3|;
    assert c[i..][..j-i] == c[i..j] && c[i..][j-i..] == c[j..];
    Varint64Iff(c[i..j], r3, file.fileSize);
    TakenAreKeys(c[j..], rest, file.smallest, file.largest);
    assert SpellsFile(c, file);
  }

  lemma PayloadIff(b: seq<Byte>, rest: seq<Byte>, tag: nat, f: Field)
    requires KnownTag(tag)
    ensures ParsePayload(tag, b + rest) == Some(Parsed(f, rest)) <==> tag == TagOf(f) && SpellsPayload(b, f)
  {
    hide GetVarint64, GetLengthPrefixed, ParseCompactPointer, ParseDeletedFile, ParseNewFile, Spells64, SpellsPrefixed;
    hide SpellsFile, SpellsLevel;
    KindsOfParts(tag, b + rest);
    match f
    case Comparator(name) => PrefixedIff(b, rest, name);
    case LogNumber(n) => Varint64Iff(b, rest, n);
    case PrevLogNumber(n) => Varint64Iff(b, rest, n);
    case NextFileNumber(n) => Varint64Iff(b, rest, n);
    case LastSequence(n) => Varint64Iff(b, rest, n);
    case CompactPointer(level, key) => PointerIff(b, rest, level, key);
    case DeletedFile(level, number) => DeletedIff(b, rest, level, number);
    case NewFile(level, file) =>
      if SpellsPayload(b, f) {
        FileIsTaken(b, rest, level, file);
      }
      if tag == 7 && ParseNewFile(b + rest) == Some(Parsed(f, rest)) {
        TakenIsFile(b, rest, level, file);
      }
  }

  lemma KindsOfParts(tag: nat, input: seq<Byte>)
    requires KnownTag(tag)
    ensures var r := ParsePayload(tag, input); r.Some? ==> TagOf(r.value.value) == tag
  {
  }

  lemma PayloadLeaves(tag: nat, input: seq<Byte>)
    requires KnownTag(tag) && ParsePayload(tag, input).Some?
    ensures var rest := ParsePayload(tag, input).value.rest; input == input[..|input|-|rest|] + rest
  {
    hide GetLevel, GetVarint64, GetLengthPrefixed, KnownTag;
    if tag == 1 {
      PrefixedLeaves(input);
    } else if tag == 2 || tag == 3 || tag == 4 {
      Varint64Leaves(input);
    } else if tag == 5 {
      LevelLeaves(input);
      PrefixedLeaves(GetLevel(input).value.rest);
      Longer(input, GetLevel(input).value.rest, ParsePayload(tag, input).value.rest);
    } else if tag == 6 {
      LevelLeaves(input);
      Varint64Leaves(GetLevel(input).value.rest);
      Longer(input, GetLevel(input).value.rest, ParsePayload(tag, input).value.rest);
    } else if tag == 7 {
      var r1 := GetLevel(input).value.rest;
      var r2 := GetVarint64(r1).value.rest;
      var r3 := GetVarint64(r2).value.rest;
      var r4 := GetLengthPrefixed(r3).value.rest;
      LevelLeaves(input);
      Varint64Leaves(r1);
      Longer(input, r1, r2);
      Varint64Leaves(r2);
      Longer(input, r2, r3);
      PrefixedLeaves(r3);
      Longer(input, r3, r4);
      PrefixedLeaves(r4);
      Longer(input, r4, GetLengthPrefixed(r4).value.rest);
    } else {
      Varint64Leaves(input);
    }
  }

  lemma Longer(a: seq<Byte>, b: seq<Byte>, c: seq<Byte>)
    requires |c| <= |b| <= |a| && a == a[..|a|-|b|] + b && b == b[..|b|-|c|] + c
    ensures a == a[..|a|-|c|] + c
  {
    assert a[|a|-|c|..] == b[|b|-|c|..] == c;
  }

  lemma NextIff(b: seq<Byte>, rest: seq<Byte>, f: Field)
    ensures Next(b + rest) == Took(f, rest) <==> SpellsField(b, f)
  {
    hide GetVarint32, ParsePayload, Spells32, SpellsPayload;
    if SpellsField(b, f) {
      var m: nat :| m <= |b| && Spells32(b[..m], TagOf(f)) && SpellsPayload(b[m..], f);
      Two(b, m, rest);
      Varint32Iff(b[..m], b[m..] + rest, TagOf(f));
      PayloadIff(b[m..], rest, TagOf(f), f);
    }
    if Next(b + rest) == Took(f, rest) {
      var tag := GetVarint32(b + rest).value;
      Varint32Leaves(b + rest);
      PayloadLeaves(tag.value, tag.rest);
      Splits(b, rest, tag.rest);
      var m := |b| + |rest| - |tag.rest|;
      Varint32Iff(b[..m], tag.rest, tag.value);
      PayloadIff(b[m..], rest, tag.value, f);
    }
  }

  lemma NextLeaves(input: seq<Byte>)
    requires Next(input).Took?
    ensures var rest := Next(input).rest; input == input[..|input|-|rest|] + rest
  {
    hide GetVarint32, ParsePayload;
    var tag := GetVarint32(input).value;
    Varint32Leaves(input);
    PayloadLeaves(tag.value, tag.rest);
    Longer(input, tag.rest, Next(input).rest);
  }

  // ---------- a whole edit ----------

  lemma FrontFirst(e: Edit, f: Field, fs: seq<Field>)
    ensures AbsorbAll(e, [f] + fs) == AbsorbAll(Absorb(e, f), fs)
  {
    AbsorbConcat(e, [f], fs);
    assert AbsorbAll(e, [f]) == Absorb(e, f) by {
      assert [f][..0] == [];
      assert AbsorbAll(e, [f][..0]) == e;
    }
  }

  /** Whatever the bytes, the edit has taken the fields they begin with, and the end is good exactly if that is all of
      them; what is refused does not begin with a field. */
  lemma {:induction false} ReadTakes(e: Edit, b: seq<Byte>) returns (m: nat, fs: seq<Field>)
    ensures m <= |b| && SpellsFields(b[..m], fs)
    ensures ReadInto(e, b).0 == AbsorbAll(e, fs) && (ReadInto(e, b).1.Good? <==> m == |b|)
    ensures ReadInto(e, b).1 != Good ==> forall n: nat, f :: m < n <= |b| ==> !SpellsField(b[m..n], f)
    decreases |b|
  {
    hide Next, SpellsField, AbsorbAll;
    m, fs := 0, [];
    assert b[..0] == [] && AbsorbAll(e, []) == e by { NothingAbsorbed(e); }
    EndIsEmpty(b);
    match Next(b)
    case Took(f, rest) =>
      NextLeaves(b);
      var k := |b| - |rest|;
      assert b[k..] == rest;
      NextIff(b[..k], rest, f);
      var n, more := ReadTakes(Absorb(e, f), rest);
      m, fs := k + n, [f] + more;
      FrontFirst(e, f, more);
      assert b[..m][..k] == b[..k] && b[..m][k..] == rest[..n] && fs[1..] == more;
      if ReadInto(e, b).1 != Good {
        forall j: nat, g | m < j <= |b| ensures !SpellsField(b[m..j], g) {
          SliceBehind(b, k, n, j);
        }
      }
    case Refused(_) =>
      forall n: nat, f | 0 < n <= |b| ensures !SpellsField(b[0..n], f) {
        NextIff(b[0..n], b[n..], f);
        assert b == b[0..n] + b[n..];
      }
    case AtEnd =>
  }

  lemma NothingAbsorbed(e: Edit)
    ensures AbsorbAll(e, []) == e
  {
  }

  lemma EndIsEmpty(b: seq<Byte>)
    ensures Next(b).AtEnd? <==> b == []
  {
  }

  /** Bytes that spell fields are read as those fields. */
  lemma {:induction false} SpelledIsRead(e: Edit, b: seq<Byte>, fs: seq<Field>)
    requires SpellsFields(b, fs)
    ensures ReadInto(e, b) == (AbsorbAll(e, fs), Good)
    decreases |fs|
  {
    hide Next, SpellsField, AbsorbAll;
    EndIsEmpty(b);
    if fs == [] {
      NothingAbsorbed(e);
    } else {
      var m: nat :| m <= |b| && SpellsField(b[..m], fs[0]) && SpellsFields(b[m..], fs[1..]);
      NextIff(b[..m], b[m..], fs[0]);
      assert b == b[..m] + b[m..] && fs == [fs[0]] + fs[1..];
      SpelledIsRead(Absorb(e, fs[0]), b[m..], fs[1..]);
      FrontFirst(e, fs[0], fs[1..]);
    }
  }

  // ---------- what the fields come to ----------

  /** The last of the fields that carries one, else what was there. */
  ghost predicate HoldsLast<T>(was: Option<T>, now: Option<T>, fs: seq<Field>, carried: Field -> Option<T>) {
    if forall i :: 0 <= i < |fs| ==> carried(fs[i]).None? then now == was
    else exists i ::
      0 <= i < |fs| && carried(fs[i]).Some? && now == carried(fs[i]) && forall j :: i < j < |fs| ==> carried(fs[j]).None?
  }

  lemma NextHolds<T>(was: Option<T>, mid: Option<T>, now: Option<T>, fs: seq<Field>, carried: Field -> Option<T>)
    requires fs != [] && HoldsLast(was, mid, fs[..|fs|-1], carried)
    requires now == if carried(fs[|fs|-1]).Some? then carried(fs[|fs|-1]) else mid
    ensures HoldsLast(was, now, fs, carried)
  {
    var n := |fs| - 1;
    var front := fs[..n];
    if carried(fs[n]).None? {
      if forall i :: 0 <= i < n ==> carried(front[i]).None? {
        forall i | 0 <= i < |fs| ensures carried(fs[i]).None? {
          assert i < n ==> fs[i] == front[i];
        }
      } else {
        var i :| 0 <= i < n && carried(front[i]).Some? && mid == carried(front[i]) &&
                 forall j :: i < j < n ==> carried(front[j]).None?;
        assert fs[i] == front[i];
        forall j | i < j < |fs| ensures carried(fs[j]).None? {
          assert j < n ==> fs[j] == front[j];
        }
      }
    }
  }

  function LogOf(f: Field): Option<nat> { if f.LogNumber? then Some(f.number) else None }
  function PrevLogOf(f: Field): Option<nat> { if f.PrevLogNumber? then Some(f.number) else None }
  function NextFileOf(f: Field): Option<nat> { if f.NextFileNumber? then Some(f.number) else None }
  function LastSequenceOf(f: Field): Option<nat> { if f.LastSequence? then Some(f.number) else None }
  function NameOf(f: Field): Option<seq<Byte>> { if f.Comparator? then Some(f.name) else None }

  function FilesOf(fs: seq<Field>): seq<(nat, FileEntry)> {
    if fs == [] then []
    else FilesOf(fs[..|fs|-1]) + if fs[|fs|-1].NewFile? then [(fs[|fs|-1].level, fs[|fs|-1].file)] else []
  }

  function PointersOf(fs: seq<Field>): seq<(nat, seq<Byte>)> {
    if fs == [] then []
    else PointersOf(fs[..|fs|-1]) + if fs[|fs|-1].CompactPointer? then [(fs[|fs|-1].level, fs[|fs|-1].key)] else []
  }

  /** The edit holds the last of each number, all files and pointers in order, and the set of deleted files in theirs. */
  lemma {:induction false} FieldsComeTo(e: Edit, fs: seq<Field>)
    requires Ascending(e.deletedFiles)
    ensures var r := AbsorbAll(e, fs);
            && HoldsLast(e.logNumber, r.logNumber, fs, LogOf) && HoldsLast(e.prevLogNumber, r.prevLogNumber, fs, PrevLogOf)
            && HoldsLast(e.nextFileNumber, r.nextFileNumber, fs, NextFileOf)
            && HoldsLast(e.lastSequence, r.lastSequence, fs, LastSequenceOf)
            && HoldsLast(e.comparator, r.comparator, fs, NameOf)
            && r.newFiles == e.newFiles + FilesOf(fs) && r.compactPointers == e.compactPointers + PointersOf(fs)
            && Ascending(r.deletedFiles)
            && forall p :: p in r.deletedFiles <==> p in e.deletedFiles || DeletedFile(p.0, p.1) in fs
  {
    hide HoldsLast, Ascending, Inserted;
    if fs == [] {
      NoneHolds(e);
    } else {
      var n := |fs| - 1;
      var mid, r := AbsorbAll(e, fs[..n]), AbsorbAll(e, fs);
      FieldsComeTo(e, fs[..n]);
      NextHolds(e.logNumber, mid.logNumber, r.logNumber, fs, LogOf);
      NextHolds(e.prevLogNumber, mid.prevLogNumber, r.prevLogNumber, fs, PrevLogOf);
      NextHolds(e.nextFileNumber, mid.nextFileNumber, r.nextFileNumber, fs, NextFileOf);
      NextHolds(e.lastSequence, mid.lastSequence, r.lastSequence, fs, LastSequenceOf);
      NextHolds(e.comparator, mid.comparator, r.comparator, fs, NameOf);
      assert fs == fs[..n] + [fs[n]];
      if fs[n].DeletedFile? {
        InsertedIsSet(mid.deletedFiles, (fs[n].level, fs[n].number));
      }
    }
  }

  lemma NoneHolds(e: Edit)
    ensures HoldsLast(e.logNumber, e.logNumber, [], LogOf) && HoldsLast(e.prevLogNumber, e.prevLogNumber, [], PrevLogOf)
    ensures HoldsLast(e.nextFileNumber, e.nextFileNumber, [], NextFileOf)
    ensures HoldsLast(e.lastSequence, e.lastSequence, [], LastSequenceOf) && HoldsLast(e.comparator, e.comparator, [], NameOf)
  {
  }
}
