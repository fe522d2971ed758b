/** The block-framed log (db/log_format.h, db/log_writer.cc, db/log_reader.cc). */
module LogFormat {
  type Byte = b: int | 0 <= b < 256

  const BLOCK_SIZE: nat := 32768
  const HEADER_SIZE: nat := 7

  const FULL_TYPE: Byte := 1
  const FIRST_TYPE: Byte := 2
  const MIDDLE_TYPE: Byte := 3
  const LAST_TYPE: Byte := 4

  const TWO_32: nat := 0x1_0000_0000

  /** An uninterpreted checksum with its storage mask. */
  datatype Crc = Crc(sum: seq<Byte> -> nat, mask: nat -> nat, unmask: nat -> nat)

  ghost predicate WfCrc(c: Crc) {
    && (forall bs :: c.sum(bs) < TWO_32)
    && (forall v: nat :: v < TWO_32 ==> c.mask(v) < TWO_32 && c.unmask(c.mask(v)) == v)
  }

  function Fixed32(v: nat): (bs: seq<Byte>)
    requires v < TWO_32
    ensures |bs| == 4
  {
    [v % 0x100, v / 0x100 % 0x100, v / 0x1_0000 % 0x100, v / 0x100_0000]
  }

  function DecodeFixed32(bs: seq<Byte>): nat
    requires |bs| >= 4
  {
    (bs[0] as int) + (bs[1] as int) * 0x100 + (bs[2] as int) * 0x1_0000 + (bs[3] as int) * 0x100_0000
  }

  lemma Fixed32RoundTrip(v: nat)
    requires v < TWO_32
    ensures DecodeFixed32(Fixed32(v)) == v
  {
    assert v == v % 0x100 + v / 0x100 * 0x100;
    assert v / 0x100 == v / 0x100 % 0x100 + v / 0x1_0000 * 0x100;
    assert v / 0x1_0000 == v / 0x1_0000 % 0x100 + v / 0x100_0000 * 0x100;
  }

  /** Header (checksum, length, type) and payload of one physical record. */
  function Physical(c: Crc, t: Byte, payload: seq<Byte>): (bs: seq<Byte>)
    requires WfCrc(c) && |payload| <= 0xffff
    ensures |bs| == HEADER_SIZE + |payload|
  {
    Fixed32(c.mask(c.sum([t] + payload))) + [|payload| % 0x100, |payload| / 0x100, t] + payload
  }

  function Zeros(n: nat): (bs: seq<Byte>)
    ensures |bs| == n
  {
    seq(n, _ => 0)
  }

  /** Trailer bytes to fill when a header no longer fits the block at file offset `pos`. */
  function PadLength(pos: nat): nat {
    var leftover := BLOCK_SIZE - pos % BLOCK_SIZE;
    if leftover < HEADER_SIZE then leftover else 0
  }

  /** Payload bytes the next physical record takes of `left` bytes. */
  function FragmentLength(pos: nat, left: nat): (n: nat)
    ensures n <= left
    ensures (pos + PadLength(pos)) % BLOCK_SIZE + HEADER_SIZE + n <= BLOCK_SIZE
  {
    var avail := BLOCK_SIZE - (pos + PadLength(pos)) % BLOCK_SIZE - HEADER_SIZE;
    if left < avail then left else avail
  }

  function FragmentType(begin: bool, end: bool): Byte {
    if begin && end then FULL_TYPE else if begin then FIRST_TYPE else if end then LAST_TYPE else MIDDLE_TYPE
  }

  /** Padding and first physical record of the bytes `data` at file offset `pos`. */
  function Head(c: Crc, pos: nat, data: seq<Byte>, begin: bool): (bs: seq<Byte>)
    requires WfCrc(c)
    ensures |bs| == PadLength(pos) + HEADER_SIZE + FragmentLength(pos, |data|)
  {
    var n := FragmentLength(pos, |data|);
    Zeros(PadLength(pos)) + Physical(c, FragmentType(begin, n == |data|), data[..n])
  }

  lemma EmptyFragmentFillsBlock(pos: nat, left: nat)
    ensures left > 0 && FragmentLength(pos, left) == 0 ==>
              FragmentLength(pos + PadLength(pos) + HEADER_SIZE, left) > 0
  {
  }

  /** The bytes a logical record becomes at file offset `pos`. */
  function Emit(c: Crc, pos: nat, data: seq<Byte>, begin: bool): (bs: seq<Byte>)
    requires WfCrc(c)
    ensures Head(c, pos, data, begin) <= bs
    decreases |data|, if FragmentLength(pos, |data|) == 0 then 1 else 0
  {
    var n := FragmentLength(pos, |data|);
    var head := Head(c, pos, data, begin);
    if n == |data| then head
    else
      EmptyFragmentFillsBlock(pos, |data|);
      head + Emit(c, pos + |head|, data[n..], false)
  }

  /** The log file holding the given records. */
  function LogBytes(c: Crc, records: seq<seq<Byte>>): seq<Byte>
    requires WfCrc(c)
  {
    if records == [] then []
    else
      var n := |records| - 1;
      var front := LogBytes(c, records[..n]);
      front + Emit(c, |front|, records[n], true)
  }
}

module LogWriter {
  import opened LogFormat

  lemma Appended(dest: seq<Byte>, header: seq<Byte>, fragment: seq<Byte>)
    ensures dest + header + fragment == dest + (header + fragment)
  {
  }

  lemma OffsetMoves(length: nat, offset: nat, n: nat)
    requires offset % BLOCK_SIZE == length % BLOCK_SIZE
    ensures (offset + n) % BLOCK_SIZE == (length + n) % BLOCK_SIZE
  {
  }

  class Writer {
    const crc: Crc
    var dest: seq<Byte>
    var blockOffset: nat

    /** Opens a writer at the end of a file; an empty file is the fresh writer. */
    constructor (crc: Crc, dest: seq<Byte>)
      requires WfCrc(crc)
      ensures Valid() && this.crc == crc && this.dest == dest
    {
      this.crc, this.dest := crc, dest;
      blockOffset := |dest| % BLOCK_SIZE;
    }

    ghost predicate Valid()
      reads this
    {
      WfCrc(crc) && blockOffset <= BLOCK_SIZE && blockOffset % BLOCK_SIZE == |dest| % BLOCK_SIZE
    }

    /** Fragments the record over the blocks; even an empty record is emitted once. */
    method AddRecord(slice: seq<Byte>)
      requires Valid()
      modifies this
      ensures Valid() && dest == old(dest) + Emit(crc, |old(dest)|, slice, true)
    {
      WrittenIsEmit(crc, dest, slice, true);
      var left, begin := slice, true;
      while true
        invariant Valid() && Written(crc, dest, left, begin) == Written(crc, old(dest), slice, true)
        decreases |left|, if FragmentLength(|dest|, |left|) == 0 then 1 else 0
      {
        EmptyFragmentFillsBlock(|dest|, |left|);
        var n := AddFragment(left, begin);
        left := left[n..];
        begin := false;
        if |left| == 0 { break; }
      }
    }

    /** Fills the trailer of a block no header fits any more. */
    method FillTrailer()
      requires Valid()
      modifies this
      ensures Valid() && dest == old(dest) + Zeros(PadLength(|old(dest)|))
      ensures blockOffset == |dest| % BLOCK_SIZE
    {
      var leftover := BLOCK_SIZE - blockOffset;
      PadIsLeftover(|dest|, leftover);
      if leftover < HEADER_SIZE {
        if leftover > 0 {
          dest := dest + Zeros(leftover);
        }
        blockOffset := 0;
      }
    }

    /** One turn of the fragmentation loop: trailer, header and payload. */
    method AddFragment(left: seq<Byte>, begin: bool) returns (fragmentLength: nat)
      requires Valid()
      modifies this
      ensures Valid() && fragmentLength == FragmentLength(|old(dest)|, |left|)
      ensures dest == old(dest) + Head(crc, |old(dest)|, left, begin)
    {
      FillTrailer();
      assert |dest| == |old(dest)| + PadLength(|old(dest)|);
      TakeWhatFits(|old(dest)|, blockOffset, |left|);
      var avail := BLOCK_SIZE - blockOffset - HEADER_SIZE;
      fragmentLength := if |left| < avail then |left| else avail;
      EmitPhysicalRecord(FragmentType(begin, |left| == fragmentLength), left[..fragmentLength]);
      HeadParts(crc, old(dest), left, begin);
    }

    method EmitPhysicalRecord(t: Byte, fragment: seq<Byte>)
      requires Valid() && blockOffset + HEADER_SIZE + |fragment| <= BLOCK_SIZE
      modifies this
      ensures Valid() && dest == old(dest) + Physical(crc, t, fragment)
    {
      var sum := crc.mask(crc.sum([t] + fragment));
      var header := Fixed32(sum) + [|fragment| % 0x100, |fragment| / 0x100, t];
      Appended(dest, header, fragment);
      OffsetMoves(|dest|, blockOffset, HEADER_SIZE + |fragment|);
      dest := dest + header;
      dest := dest + fragment;
      blockOffset := blockOffset + HEADER_SIZE + |fragment|;
    }
  }

  lemma PadIsLeftover(pos: nat, leftover: nat)
    requires leftover <= BLOCK_SIZE && (BLOCK_SIZE - leftover) % BLOCK_SIZE == pos % BLOCK_SIZE
    ensures leftover < HEADER_SIZE && leftover > 0 ==> PadLength(pos) == leftover && (pos + leftover) % BLOCK_SIZE == 0
    ensures leftover == 0 ==> PadLength(pos) == 0 && pos % BLOCK_SIZE == 0
    ensures leftover >= HEADER_SIZE ==> PadLength(pos) == 0 && pos % BLOCK_SIZE == (BLOCK_SIZE - leftover) % BLOCK_SIZE
  {
  }

  lemma TakeWhatFits(pos: nat, blockOffset: nat, left: nat)
    requires blockOffset == (pos + PadLength(pos)) % BLOCK_SIZE
    ensures var avail := BLOCK_SIZE - blockOffset - HEADER_SIZE;
            0 <= avail <= 0xffff && FragmentLength(pos, left) == if left < avail then left else avail
  {
  }

  lemma HeadParts(c: Crc, front: seq<Byte>, data: seq<Byte>, begin: bool)
    requires WfCrc(c)
    ensures var n := FragmentLength(|front|, |data|);
            front + Head(c, |front|, data, begin) ==
            front + Zeros(PadLength(|front|)) + Physical(c, FragmentType(begin, n == |data|), data[..n])
  {
  }

  /** The file after the rest of a record has been written behind `front`. */
  function Written(c: Crc, front: seq<Byte>, data: seq<Byte>, begin: bool): seq<Byte>
    requires WfCrc(c)
    decreases |data|, if FragmentLength(|front|, |data|) == 0 then 1 else 0
  {
    var n := FragmentLength(|front|, |data|);
    var next := front + Head(c, |front|, data, begin);
    EmptyFragmentFillsBlock(|front|, |data|);
    if n == |data| then next else Written(c, next, data[n..], false)
  }

  lemma {:induction false} WrittenIsEmit(c: Crc, front: seq<Byte>, data: seq<Byte>, begin: bool)
    requires WfCrc(c)
    ensures Written(c, front, data, begin) == front + Emit(c, |front|, data, begin)
    decreases |data|, if FragmentLength(|front|, |data|) == 0 then 1 else 0
  {
    hide Head;
    var n := FragmentLength(|front|, |data|);
    EmptyFragmentFillsBlock(|front|, |data|);
    if n < |data| {
      var head := Head(c, |front|, data, begin);
      WrittenIsEmit(c, front + head, data[n..], false);
      Appended(front, head, Emit(c, |front| + |head|, data[n..], false));
    }
  }
}
