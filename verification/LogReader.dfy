/** What reading a log file gives, whatever its bytes are, and the reader that does it (db/log_reader.cc). */
module LogReader {
  import opened InternalKeys
  import opened LogFormat

  const ZERO_TYPE: nat := 0
  const EOF: nat := 5
  const BAD_RECORD: nat := 6

  /** What a physical record does to the logical record being put together. */
  datatype Progress =
    | More(reports: nat, scratch: seq<Byte>, inFragmentedRecord: bool)
    | Done(reports: nat, record: Option<seq<Byte>>)

  function Assemble(kind: nat, fragment: seq<Byte>, scratch: seq<Byte>, inFragmentedRecord: bool): Progress {
    var dangling := if inFragmentedRecord && scratch != [] then 1 else 0;
    match kind
    case 1 => Done(dangling, Some(fragment))
    case 2 => More(dangling, fragment, true)
    case 3 => if inFragmentedRecord then More(0, scratch + fragment, true) else More(1, scratch, false)
    case 4 => if inFragmentedRecord then Done(0, Some(scratch + fragment)) else More(1, scratch, false)
    case 5 => Done(0, None)
    case 6 => if inFragmentedRecord then More(1, [], false) else More(0, scratch, false)
    case _ => More(1, [], false)
  }

  /** The payload length field of a buffered header. */
  function BufferedLength(b: seq<Byte>): nat
    requires |b| >= HEADER_SIZE
  {
    (b[4] as int) + (b[5] as int) * 0x100
  }

  // ---------- what the bytes of a file mean ----------

  /** What stands at an offset: nothing more, bytes to drop, or a physical record. */
  datatype Parse = AtEof | Bad(reports: nat, next: nat) | Good(kind: nat, fragment: seq<Byte>, next: nat)

  /** Where the block of an offset ends, or the file. */
  function BlockEnd(size: nat, pos: nat): (end: nat)
    requires pos < size
    ensures pos < end <= size
  {
    var end := (pos / BLOCK_SIZE + 1) * BLOCK_SIZE;
    if end <= size then end else size
  }

  function ParseBuffer(c: Crc, b: seq<Byte>, p: nat, short: bool): (r: Parse)
    requires |b| >= HEADER_SIZE
    ensures !r.AtEof? ==> p < r.next <= p + |b|
  {
    var length := BufferedLength(b);
    if HEADER_SIZE + length > |b| then if short then AtEof else Bad(1, p + |b|)
    else if b[6] == 0 && length == 0 then Bad(0, p + |b|)
    else if c.unmask(DecodeFixed32(b)) != c.sum(b[6..HEADER_SIZE+length]) then Bad(1, p + |b|)
    else Good(b[6], b[HEADER_SIZE..HEADER_SIZE+length], p + HEADER_SIZE + length)
  }

  /** Past a trailer, the header of a physical record; a last block may be short. */
  function ParseAt(c: Crc, whole: seq<Byte>, pos: nat): (r: Parse)
    requires pos <= |whole|
    ensures !r.AtEof? ==> pos < r.next <= |whole|
  {
    var p := pos + PadLength(pos);
    if p + HEADER_SIZE > |whole| then AtEof
    else
      var end := BlockEnd(|whole|, p);
      HeaderInBlock(|whole|, pos);
      ParseBuffer(c, whole[p..end], p, end % BLOCK_SIZE != 0)
  }

  lemma HeaderInBlock(size: nat, pos: nat)
    requires pos + PadLength(pos) + HEADER_SIZE <= size
    ensures pos + PadLength(pos) + HEADER_SIZE <= BlockEnd(size, pos + PadLength(pos))
  {
  }

  /** The record put together from an offset on, where it ends, and the complaints on the way. */
  datatype Reading = Reading(record: Option<seq<Byte>>, next: nat, reports: nat)

  function ReadFrom(c: Crc, whole: seq<Byte>, pos: nat, scratch: seq<Byte>, inFragmentedRecord: bool): (r: Reading)
    requires pos <= |whole|
    ensures r.record.Some? ==> pos < r.next <= |whole|
    decreases |whole| - pos
  {
    var parse := ParseAt(c, whole, pos);
    if parse.AtEof? then Reading(None, pos, 0)
    else
      var (kind, fragment, dropped) := if parse.Bad? then (BAD_RECORD, [], parse.reports) else (parse.kind, parse.fragment, 0);
      match Assemble(kind, fragment, scratch, inFragmentedRecord)
      case Done(reports, record) => Reading(record, parse.next, dropped + reports)
      case More(reports, scratch', in') =>
        var r := ReadFrom(c, whole, parse.next, scratch', in');
        r.(reports := dropped + reports + r.reports)
  }

  /** All records from an offset on. */
  function ReadEvery(c: Crc, whole: seq<Byte>, pos: nat): (seq<seq<Byte>>, nat)
    requires pos <= |whole|
    decreases |whole| - pos
  {
    var r := ReadFrom(c, whole, pos, [], false);
    if r.record.None? then ([], r.reports)
    else
      var (rest, reports) := ReadEvery(c, whole, r.next);
      ([r.record.value] + rest, r.reports + reports)
  }

  // ---------- the reader ----------

  class Reader {
    const crc: Crc
    /** The file, and its part not yet read in. */
    const whole: seq<Byte>
    var file: seq<Byte>
    var buffer: seq<Byte>
    var eof: bool
    var corruptions: nat

    constructor (crc: Crc, whole: seq<Byte>)
      requires WfCrc(crc)
      ensures Valid() && Pos() == 0 && corruptions == 0
      ensures this.crc == crc && this.whole == whole
    {
      this.crc, this.whole := crc, whole;
      file, buffer, eof, corruptions := whole, [], false, 0;
    }

    function Remaining(): nat
      reads this
    {
      |buffer| + |file|
    }

    /** The buffer holds what is left of the last block read. */
    ghost predicate Valid()
      reads this
    {
      && WfCrc(crc)
      && Remaining() <= |whole|
      && whole[|whole| - Remaining()..] == buffer + file
      && (if eof then file == [] && |buffer| <= |whole| % BLOCK_SIZE
          else (|whole| - |file|) % BLOCK_SIZE == 0 && |buffer| <= BLOCK_SIZE)
    }

    ghost function Pos(): nat
      requires Valid()
      reads this
    {
      |whole| - Remaining()
    }

    method ReportCorruption()
      modifies this`corruptions
      ensures corruptions == old(corruptions) + 1
    {
      corruptions := corruptions + 1;
    }

    /** SequentialFile::Read of one block. */
    method ReadBlock()
      requires Valid() && !eof && |buffer| < HEADER_SIZE
      modifies this
      ensures corruptions == old(corruptions)
      ensures Valid() && Pos() == old(Pos()) + |old(buffer)| && Pos() % BLOCK_SIZE == 0
      ensures old(file) == [] ==> buffer == []
      ensures !eof ==> |buffer| == BLOCK_SIZE && |file| < |old(file)|
      ensures eof ==> |buffer| == |whole| - Pos()
    {
      ghost var skipped := Remaining() - |file|;
      var n := if |file| < BLOCK_SIZE then |file| else BLOCK_SIZE;
      assert whole[|whole| - |file|..] == file;
      buffer, file := file[..n], file[n..];
      assert buffer + file == old(file);
      if n < BLOCK_SIZE {
        eof := true;
      }
    }

    /** The next physical record, or what is wrong there. */
    method ReadPhysicalRecord() returns (kind: nat, fragment: seq<Byte>)
      requires Valid()
      modifies this
      ensures Valid()
      ensures match ParseAt(crc, whole, old(Pos()))
              case AtEof => kind == EOF && fragment == [] && corruptions == old(corruptions)
              case Bad(reports, next) =>
                kind == BAD_RECORD && fragment == [] && corruptions == old(corruptions) + reports && Pos() == next
              case Good(k, f, next) => kind == k && fragment == f && corruptions == old(corruptions) && Pos() == next
    {
      hide PadLength;
      ghost var pos0 := Pos();
      var more := FillBuffer();
      if !more {
        return EOF, [];
      }
      BufferIsBlock(|whole|, |file|, |buffer|, eof);
      assert buffer == whole[Pos()..BlockEnd(|whole|, Pos())];
      kind, fragment := ParseBuffered();
    }

    /** Takes one record off a buffer that holds at least its header. */
    method ParseBuffered() returns (kind: nat, fragment: seq<Byte>)
      requires Valid() && |buffer| >= HEADER_SIZE
      modifies this`buffer, this`corruptions
      ensures Valid()
      ensures match ParseBuffer(crc, old(buffer), old(Pos()), eof)
              case AtEof => kind == EOF && fragment == [] && corruptions == old(corruptions)
              case Bad(reports, next) =>
                kind == BAD_RECORD && fragment == [] && corruptions == old(corruptions) + reports && Pos() == next
              case Good(k, f, next) => kind == k && fragment == f && corruptions == old(corruptions) && Pos() == next
    {
      fragment := [];
      var length := BufferedLength(buffer);
      var kindByte := buffer[6] as nat;
      if HEADER_SIZE + length > |buffer| {
        DropBuffer();
        if !eof {
          ReportCorruption();
          return BAD_RECORD, [];
        }
        return EOF, [];
      }
      if kindByte == ZERO_TYPE && length == 0 {
        DropBuffer();
        return BAD_RECORD, [];
      }
      if crc.unmask(DecodeFixed32(buffer)) != crc.sum(buffer[6..HEADER_SIZE+length]) {
        DropBuffer();
        ReportCorruption();
        return BAD_RECORD, [];
      }
      kind, fragment := kindByte, buffer[HEADER_SIZE..HEADER_SIZE+length];
      Consume(HEADER_SIZE + length);
    }

    /** Makes a whole header available, skipping a trailer; says no at the end of the file. */
    method FillBuffer() returns (more: bool)
      requires Valid()
      modifies this
      ensures Valid() && corruptions == old(corruptions)
      ensures more <==> old(Pos()) + PadLength(old(Pos())) + HEADER_SIZE <= |whole|
      ensures more ==> |buffer| >= HEADER_SIZE && Pos() == old(Pos()) + PadLength(old(Pos()))
    {
      PadWithinBlock(|whole|, |file|, |buffer|, eof);
      ghost var pos0 := Pos();
      while |buffer| < HEADER_SIZE
        invariant Valid() && corruptions == old(corruptions)
        invariant |buffer| >= HEADER_SIZE ==> Pos() == pos0 + PadLength(pos0)
        invariant |buffer| < HEADER_SIZE && !eof ==> Pos() == pos0 && |buffer| == PadLength(pos0)
        invariant |buffer| < HEADER_SIZE && eof ==> pos0 <= Pos() <= pos0 + PadLength(pos0)
        decreases |file|, !eof
      {
        if !eof {
          ReadBlock();
        } else {
          DropBuffer();
          return false;
        }
      }
      return true;
    }

    /** The next logical record, or None at the end of the file. */
    method ReadRecord() returns (r: Option<seq<Byte>>)
      requires Valid()
      modifies this
      ensures Valid()
      ensures var reading := ReadFrom(crc, whole, old(Pos()), [], false);
              r == reading.record && corruptions == old(corruptions) + reading.reports && (r.Some? ==> Pos() == reading.next)
    {
      hide ParseAt;
      var scratch: seq<Byte> := [];
      var inFragmentedRecord := false;
      ghost var goal := ReadFrom(crc, whole, Pos(), [], false);
      while true
        invariant Valid()
        invariant var reading := ReadFrom(crc, whole, Pos(), scratch, inFragmentedRecord);
                  goal == reading.(reports := goal.reports) &&
                  corruptions + reading.reports == old(corruptions) + goal.reports
        decreases |whole| - Pos()
      {
        ghost var here := ReadFrom(crc, whole, Pos(), scratch, inFragmentedRecord);
        var kind, fragment := ReadPhysicalRecord();
        var next := Assemble(kind, fragment, scratch, inFragmentedRecord);
        corruptions := corruptions + next.reports;
        if next.Done? {
          return next.record;
        }
        scratch, inFragmentedRecord := next.scratch, next.inFragmentedRecord;
      }
    }

    method DropBuffer()
      requires Valid()
      modifies this`buffer
      ensures Valid() && buffer == []
    {
      assert whole[|whole| - |file|..] == file;
      buffer := [];
    }

    method Consume(n: nat)
      requires Valid() && n <= |buffer|
      modifies this`buffer
      ensures Valid() && buffer == old(buffer)[n..] && Pos() == old(Pos()) + n
    {
      assert whole[|whole| - Remaining() + n..] == buffer[n..] + file;
      buffer := buffer[n..];
    }
  }

  /** The reader skips a trailer exactly where the writer fills one. */
  lemma PadWithinBlock(whole: nat, file: nat, buffer: nat, eof: bool)
    requires buffer + file <= whole
    requires if eof then file == 0 && buffer <= whole % BLOCK_SIZE
             else (whole - file) % BLOCK_SIZE == 0 && buffer <= BLOCK_SIZE
    ensures var pos := whole - file - buffer;
            && (buffer >= HEADER_SIZE ==> PadLength(pos) == 0)
            && (buffer < HEADER_SIZE && !eof ==> PadLength(pos) == buffer)
  {
  }

  /** The buffer of a reader ends where the block ends. */
  lemma BufferIsBlock(size: nat, file: nat, buffer: nat, eof: bool)
    requires buffer + file <= size && buffer > 0
    requires if eof then file == 0 && buffer <= size % BLOCK_SIZE
             else (size - file) % BLOCK_SIZE == 0 && buffer <= BLOCK_SIZE
    ensures BlockEnd(size, size - file - buffer) == size - file
    ensures eof <==> (size - file) % BLOCK_SIZE != 0
  {
  }
}

/** What a reader returns of a file of any bytes stands there as a record, and a record it comes to is returned
    (db/log_reader.cc). */
module LogSafety {
  import opened InternalKeys
  import opened LogFormat
  import opened LogReader

  /** At the offset, past a trailer, stands a fragment of that type in its block, and its checksum is right. */
  predicate Fragment(c: Crc, whole: seq<Byte>, pos: nat, kind: Byte, payload: seq<Byte>, next: nat) {
    var p := pos + PadLength(pos);
    && next == p + 7 + |payload| <= |whole| && p % BLOCK_SIZE + 7 + |payload| <= BLOCK_SIZE
    && whole[p + 4] as int + 256 * whole[p + 5] as int == |payload| && whole[p + 6] == kind
    && whole[p + 7..next] == payload
    && c.unmask(DecodeFixed32(whole[p..p + 4])) == c.sum([kind] + payload)
  }

  /** Fragments one behind the other hold the record: a single one of type 1, or one of type 2, any of type 3 and one of
      type 4; the beginning may have been read already. */
  ghost predicate Fragments(c: Crc, whole: seq<Byte>, pos: nat, begun: bool, data: seq<Byte>, next: nat)
    decreases |whole| - pos
  {
    pos <= |whole| &&
    (|| Fragment(c, whole, pos, if begun then 4 else 1, data, next)
     || exists n: nat, mid: nat :: n <= |data| && pos < mid && Fragment(c, whole, pos, if begun then 3 else 2, data[..n], mid) &&
          Fragments(c, whole, mid, true, data[n..], next))
  }

  lemma BufferParts(whole: seq<Byte>, p: nat, end: nat, n: nat)
    requires 7 <= n && p + n <= end <= |whole|
    ensures var b := whole[p..end];
            && DecodeFixed32(b) == DecodeFixed32(whole[p..p + 4])
            && b[4] == whole[p + 4] && b[5] == whole[p + 5] && b[6] == whole[p + 6]
            && b[6..n] == [b[6]] + whole[p + 7..p + n] && b[7..n] == whole[p + 7..p + n]
  {
    var b, x := whole[p..end], whole[p + 7..p + n];
    var y := b[7..n];
    forall i | 0 <= i < n - 7 ensures y[i] == x[i] {
      assert y[i] == b[7 + i] == whole[p + 7 + i];
    }
    assert |x| == |y| && y == x;
    assert b[0] == whole[p] && b[1] == whole[p + 1] && b[2] == whole[p + 2] && b[3] == whole[p + 3];
    assert b[6..n] == [b[6]] + y;
  }

  lemma GoodIsFragment(c: Crc, whole: seq<Byte>, pos: nat)
    requires pos <= |whole| && ParseAt(c, whole, pos).Good?
    ensures var parse := ParseAt(c, whole, pos);
            parse.kind < 256 && Fragment(c, whole, pos, parse.kind, parse.fragment, parse.next)
  {
    var p := pos + PadLength(pos);
    HeaderInBlock(|whole|, pos);
    var b := whole[p..BlockEnd(|whole|, p)];
    var length := BufferedLength(b);
    BufferParts(whole, p, BlockEnd(|whole|, p), 7 + length);
  }

  /** From inside a record or not: what comes out is the rest of it, or a record that begins further on. */
  lemma {:induction false} ReadIsWritten(c: Crc, whole: seq<Byte>, pos: nat, scratch: seq<Byte>, inside: bool) returns (start: nat)
    requires pos <= |whole| && ReadFrom(c, whole, pos, scratch, inside).record.Some?
    ensures var r := ReadFrom(c, whole, pos, scratch, inside);
            || (pos <= start && Fragments(c, whole, start, false, r.record.value, r.next))
            || (inside && scratch <= r.record.value && Fragments(c, whole, pos, true, r.record.value[|scratch|..], r.next))
    decreases |whole| - pos
  {
    hide ParseAt, Fragment;
    var parse, r := ParseAt(c, whole, pos), ReadFrom(c, whole, pos, scratch, inside);
    start := pos;
    if parse.Bad? {
      start := ReadIsWritten(c, whole, parse.next, if inside then [] else scratch, false);
    } else {
      GoodIsFragment(c, whole, pos);
      match Assemble(parse.kind, parse.fragment, scratch, inside)
      case Done(_, record) =>
        assert inside ==> (scratch + parse.fragment)[|scratch|..] == parse.fragment;
      case More(_, scratch', in') =>
        start := ReadIsWritten(c, whole, parse.next, scratch', in');
        if in' && !(parse.next <= start && Fragments(c, whole, start, false, r.record.value, r.next)) {
          Continues(c, whole, pos, parse, scratch, inside, r.record.value, r.next);
          start := pos;
        }
    }
  }

  lemma Continues(c: Crc, whole: seq<Byte>, pos: nat, parse: Parse, scratch: seq<Byte>, inside: bool, data: seq<Byte>, next: nat)
    requires pos <= |whole| && parse.Good? && parse.kind < 256 && pos < parse.next
    requires Fragment(c, whole, pos, parse.kind, parse.fragment, parse.next)
    requires var m := Assemble(parse.kind, parse.fragment, scratch, inside);
             m.More? && m.inFragmentedRecord && m.scratch <= data && Fragments(c, whole, parse.next, true, data[|m.scratch|..], next)
    ensures Fragments(c, whole, pos, false, data, next)
         || (inside && scratch <= data && Fragments(c, whole, pos, true, data[|scratch|..], next))
  {
    hide Fragment;
    var n := |parse.fragment|;
    if parse.kind == 2 {
      assert data[..n] == parse.fragment;
    } else {
      var rest := data[|scratch|..];
      assert (scratch + parse.fragment)[|scratch|..] == parse.fragment;
      assert rest[..n] == parse.fragment && rest[n..] == data[|scratch + parse.fragment|..];
    }
  }

  lemma FragmentIsGood(c: Crc, whole: seq<Byte>, pos: nat, kind: Byte, payload: seq<Byte>, next: nat)
    requires pos <= |whole| && kind != 0 && Fragment(c, whole, pos, kind, payload, next)
    ensures ParseAt(c, whole, pos) == Good(kind, payload, next)
  {
    var p := pos + PadLength(pos);
    HeaderInBlock(|whole|, pos);
    InBlock(p, |whole|, 7 + |payload|);
    var b := whole[p..BlockEnd(|whole|, p)];
    var n := 7 + |payload|;
    BufferParts(whole, p, BlockEnd(|whole|, p), n);
  }

  lemma InBlock(p: nat, size: nat, n: nat)
    requires p % BLOCK_SIZE + n <= BLOCK_SIZE && 0 < n && p + n <= size
    ensures p + n <= BlockEnd(size, p)
  {
  }

  /** A record that stands where the reader comes to, or the rest of one it is inside of, is read without complaint. */
  lemma {:induction false} FragmentsAreRead(c: Crc, whole: seq<Byte>, pos: nat, scratch: seq<Byte>, begun: bool, data: seq<Byte>,
                                            next: nat)
    requires Fragments(c, whole, pos, begun, data, next) && (!begun ==> scratch == [])
    ensures pos <= |whole| && ReadFrom(c, whole, pos, scratch, begun) == Reading(Some(scratch + data), next, 0)
    decreases |whole| - pos
  {
    hide ParseAt, Fragment;
    if Fragment(c, whole, pos, if begun then 4 else 1, data, next) {
      FragmentIsGood(c, whole, pos, if begun then 4 else 1, data, next);
      assert !begun ==> scratch + data == data;
    } else {
      var n: nat, mid: nat :| n <= |data| && pos < mid && Fragment(c, whole, pos, if begun then 3 else 2, data[..n], mid) &&
        Fragments(c, whole, mid, true, data[n..], next);
      FragmentIsGood(c, whole, pos, if begun then 3 else 2, data[..n], mid);
      var scratch' := scratch + data[..n];
      assert !begun ==> scratch' == data[..n];
      FragmentsAreRead(c, whole, mid, scratch', true, data[n..], next);
      assert scratch' + data[n..] == scratch + data;
    }
  }

  /** Every record read of a file, whatever its bytes, stands there in fragments with right checksums. */
  lemma NothingMadeUp(c: Crc, whole: seq<Byte>, pos: nat) returns (start: nat)
    requires pos <= |whole| && ReadFrom(c, whole, pos, [], false).record.Some?
    ensures var r := ReadFrom(c, whole, pos, [], false); pos <= start && Fragments(c, whole, start, false, r.record.value, r.next)
  {
    start := ReadIsWritten(c, whole, pos, [], false);
  }

  // ---------- without complaint ----------

  /** Too few bytes are left for a header, or for what the header claims, in a block that is the last and not whole. */
  predicate AtEnd(whole: seq<Byte>, pos: nat)
    requires pos <= |whole|
  {
    var p := pos + PadLength(pos);
    || p + 7 > |whole|
    || (|whole| < (p / BLOCK_SIZE + 1) * BLOCK_SIZE && p + 7 + whole[p + 4] as int + 256 * whole[p + 5] as int > |whole|)
  }

  /** A header of type and length zero, as in a part of a file that has never been written: the rest of the block is left out. */
  predicate Blank(whole: seq<Byte>, pos: nat, next: nat)
    requires pos <= |whole|
  {
    var p := pos + PadLength(pos);
    p + 7 <= |whole| && whole[p + 4] == whole[p + 5] == whole[p + 6] == 0 && next == BlockEnd(|whole|, p)
  }

  /** From the offset on whole records stand behind one another, the last perhaps cut off by the end of the file. A record may
      begin anew behind an empty beginning of one. The types 5 and 6 are those the reader keeps for the end and for what is
      bad. */
  ghost predicate Unbroken(c: Crc, whole: seq<Byte>, pos: nat, begun: bool, held: bool)
    requires pos <= |whole|
    decreases |whole| - pos
  {
    || AtEnd(whole, pos)
    || (!begun && exists next: nat :: pos < next <= |whole| && Blank(whole, pos, next) && Unbroken(c, whole, next, false, false))
    || exists kind: Byte, payload, next: nat ::
         pos < next <= |whole| && Fragment(c, whole, pos, kind, payload, next) &&
         match kind
         case 1 => !held && Unbroken(c, whole, next, false, false)
         case 2 => !held && Unbroken(c, whole, next, true, payload != [])
         case 3 => begun && Unbroken(c, whole, next, true, held || payload != [])
         case 4 => begun && Unbroken(c, whole, next, false, false)
         case 5 => true
         case 6 => !begun && Unbroken(c, whole, next, false, false)
         case _ => false
  }

  lemma EndIff(c: Crc, whole: seq<Byte>, pos: nat)
    requires pos <= |whole|
    ensures ParseAt(c, whole, pos).AtEof? <==> AtEnd(whole, pos)
    ensures forall next: nat :: !AtEnd(whole, pos) && Blank(whole, pos, next) ==> ParseAt(c, whole, pos) == Bad(0, next)
    ensures ParseAt(c, whole, pos).Bad? && ParseAt(c, whole, pos).reports == 0 ==> Blank(whole, pos, ParseAt(c, whole, pos).next)
  {
    var p := pos + PadLength(pos);
    if p + 7 <= |whole| {
      HeaderInBlock(|whole|, pos);
      var end := BlockEnd(|whole|, p);
      var b := whole[p..end];
      assert b[4] == whole[p + 4] && b[5] == whole[p + 5] && b[6] == whole[p + 6];
      EndOfBlock(|whole|, p);
    }
  }

  lemma EndOfBlock(size: nat, p: nat)
    requires p < size
    ensures BlockEnd(size, p) % BLOCK_SIZE != 0 ==> BlockEnd(size, p) == size < (p / BLOCK_SIZE + 1) * BLOCK_SIZE
    ensures size < (p / BLOCK_SIZE + 1) * BLOCK_SIZE ==> BlockEnd(size, p) == size && size % BLOCK_SIZE != 0
  {
  }

  /** All complaints of a reader that stands here. */
  function Complaints(c: Crc, whole: seq<Byte>, pos: nat, scratch: seq<Byte>, inside: bool): nat
    requires pos <= |whole|
  {
    var r := ReadFrom(c, whole, pos, scratch, inside);
    r.reports + if r.record.Some? then ReadEvery(c, whole, r.next).1 else 0
  }

  lemma ComplaintsNext(c: Crc, whole: seq<Byte>, pos: nat, scratch: seq<Byte>, inside: bool)
    requires pos <= |whole|
    ensures var parse, n := ParseAt(c, whole, pos), Complaints(c, whole, pos, scratch, inside);
            if parse.AtEof? then n == 0
            else
              var (kind, fragment, dropped) := if parse.Bad? then (6, [], parse.reports) else (parse.kind, parse.fragment, 0);
              match Assemble(kind, fragment, scratch, inside)
              case Done(reports, record) =>
                n == dropped + reports + if record.Some? then Complaints(c, whole, parse.next, [], false) else 0
              case More(reports, scratch', in') => n == dropped + reports + Complaints(c, whole, parse.next, scratch', in')
  {
    hide ParseAt;
  }

  lemma FragmentsAreGood(c: Crc, whole: seq<Byte>, pos: nat)
    requires pos <= |whole|
    ensures forall kind: Byte, payload, next: nat ::
              Fragment(c, whole, pos, kind, payload, next) && kind != 0 ==> ParseAt(c, whole, pos) == Good(kind, payload, next)
  {
    hide ParseAt, Fragment;
    forall kind: Byte, payload, next: nat | Fragment(c, whole, pos, kind, payload, next) && kind != 0
      ensures ParseAt(c, whole, pos) == Good(kind, payload, next)
    {
      FragmentIsGood(c, whole, pos, kind, payload, next);
    }
  }

  lemma {:induction false} QuietIff(c: Crc, whole: seq<Byte>, pos: nat, scratch: seq<Byte>, inside: bool)
    requires pos <= |whole|
    ensures Complaints(c, whole, pos, scratch, inside) == 0 <==> Unbroken(c, whole, pos, inside, inside && scratch != [])
    decreases |whole| - pos
  {
    hide ParseAt, Fragment, Complaints, AtEnd, Blank;
    var parse := ParseAt(c, whole, pos);
    ComplaintsNext(c, whole, pos, scratch, inside);
    EndIff(c, whole, pos);
    if parse.Bad? {
      QuietIff(c, whole, parse.next, scratch, false);
      FragmentsAreGood(c, whole, pos);
    } else if parse.Good? {
      GoodIsFragment(c, whole, pos);
      FragmentsAreGood(c, whole, pos);
      match Assemble(parse.kind, parse.fragment, scratch, inside)
      case Done(_, record) => QuietIff(c, whole, parse.next, [], false);
      case More(_, scratch', in') => QuietIff(c, whole, parse.next, scratch', in');
    }
  }

  /** A file is read without a complaint exactly if it is unbroken. */
  lemma NoComplaintIff(c: Crc, whole: seq<Byte>)
    ensures ReadEvery(c, whole, 0).1 == 0 <==> Unbroken(c, whole, 0, false, false)
  {
    QuietIff(c, whole, 0, [], false);
  }
}
