/**
 `deterministic_gzip`, and a reference reader for what it writes: a member as in section 2.3 of RFC 1952
 without optional fields, holding stored blocks as in section 3.2.4 of RFC 1951.
 */
module Gzip {
  import opened Bytes

  const LARGEST_BLOCK := 0xFFFF
  const HEADER: seq<byte> := [0x1f, 0x8b, 0x08, 0, 0, 0, 0, 0, 0, 0xff]

  /** The checksum of RFC 1952 section 8, taken as a function of the bytes. */
  type Checksum = seq<byte> -> nat

  function Little(n: nat, width: nat): (bytes: seq<byte>)
    ensures |bytes| == width
  {
    if width == 0 then [] else [n % 256] + Little(n / 256, width - 1)
  }

  function LittleEndian(bytes: seq<byte>): (n: nat) {
    if bytes == [] then 0 else bytes[0] + 256 * LittleEndian(bytes[1..])
  }

  lemma LittleOne(n: nat)
    requires n < 256
    ensures Little(n, 1) == [n] && LittleEndian([n as byte]) == n
  {
    assert Little(n / 256, 0) == [];
  }

  lemma LittleStep(n: nat, width: nat)
    requires width > 0
    ensures LittleEndian(Little(n, width)) == n % 256 + 256 * LittleEndian(Little(n / 256, width - 1))
  {
  }

  lemma LittleTwo(n: nat)
    ensures LittleEndian(Little(n, 2)) == n % 0x1_0000
  {
    hide Little, LittleEndian;
    LittleStep(n, 2);
    LittleDigit(n / 256);
    SplitDigit(n, 256);
  }

  lemma LittleDigit(n: nat)
    ensures LittleEndian(Little(n, 1)) == n % 256
  {
    LittleStep(n, 1);
  }

  lemma LittleThree(n: nat)
    ensures LittleEndian(Little(n, 3)) == n % 0x100_0000
  {
    hide Little, LittleEndian;
    LittleStep(n, 3);
    LittleTwo(n / 256);
    SplitDigit(n, 0x1_0000);
  }

  /** Four bytes hold a number modulo 2^32. */
  lemma LittleFour(n: nat)
    ensures LittleEndian(Little(n, 4)) == n % 0x1_0000_0000
  {
    hide Little, LittleEndian;
    LittleStep(n, 4);
    LittleThree(n / 256);
    SplitDigit(n, 0x100_0000);
  }

  // ---- Writing.

  function StoredBlock(final: bool, block: seq<byte>): seq<byte>
    requires |block| <= LARGEST_BLOCK
  {
    [if final then 1 else 0] + Little(|block|, 2) + Little(0xFFFF - |block|, 2) + block
  }

  /** The blocks of some data, full ones before a last one. */
  function Blocks(data: seq<byte>): (blocks: seq<seq<byte>>)
    ensures blocks != [] && forall b <- blocks :: |b| <= LARGEST_BLOCK
  {
    if |data| <= LARGEST_BLOCK then [data] else [data[..LARGEST_BLOCK]] + Blocks(data[LARGEST_BLOCK..])
  }

  function StoredBlocks(data: seq<byte>): seq<byte> {
    if |data| <= LARGEST_BLOCK then StoredBlock(true, data)
    else StoredBlock(false, data[..LARGEST_BLOCK]) + StoredBlocks(data[LARGEST_BLOCK..])
  }

  function Trailer(checksum: Checksum, data: seq<byte>): seq<byte> {
    Little(checksum(data), 4) + Little(|data|, 4)
  }

  function Member(checksum: Checksum, data: seq<byte>): seq<byte> {
    HEADER + StoredBlocks(data) + Trailer(checksum, data)
  }

  method DeterministicGzip(checksum: Checksum, data: seq<byte>) returns (compressed: seq<byte>)
    ensures compressed == Member(checksum, data)
    ensures ReadMember(checksum, compressed) == Some(data)
  {
    hide Little, ReadMember;
    compressed := HEADER;
    if data == [] {
      EmptyBlock();
      compressed := compressed + [0x01, 0x00, 0x00, 0xff, 0xff];
    } else {
      compressed := WriteBlocks(compressed, data);
    }
    compressed := compressed + Trailer(checksum, data);
    MemberReadsBack(checksum, data);
  }

  lemma EmptyBlock()
    ensures StoredBlocks([]) == [0x01, 0x00, 0x00, 0xff, 0xff]
  {
    LittleOne(0);
    LittleOne(0xFF);
    assert Little(0, 2) == [0, 0] && Little(0xFFFF, 2) == [0xff, 0xff];
  }

  method WriteBlocks(before: seq<byte>, data: seq<byte>) returns (compressed: seq<byte>)
    requires data != []
    ensures compressed == before + StoredBlocks(data)
  {
    hide StoredBlock;
    compressed := before;
    var position := 0;
    while position < |data|
      invariant position <= |data|
      invariant before + StoredBlocks(data)
                == compressed + if position < |data| then StoredBlocks(data[position..]) else []
      decreases |data| - position
    {
      var rest := data[position..];
      var block := if |rest| < LARGEST_BLOCK then rest else rest[..LARGEST_BLOCK];
      position := position + |block|;
      var final := position == |data|;
      assert if final then block == rest else rest[LARGEST_BLOCK..] == data[position..];
      var after := if final then [] else StoredBlocks(data[position..]);
      Associative(compressed, StoredBlock(final, block), after);
      compressed := compressed + StoredBlock(final, block);
    }
  }

  // ---- Reading.

  datatype Read = Read(blocks: seq<seq<byte>>, rest: seq<byte>)

  /** Stored blocks up to and with the first final one: type zero, a length and its complement, and the bytes. */
  function ReadBlocks(text: seq<byte>): Option<Read>
    decreases |text|
  {
    if |text| < 5 || text[0] / 2 % 4 != 0 then None
    else
      var length := LittleEndian(text[1..3]);
      if LittleEndian(text[3..5]) != 0xFFFF - length || |text| - 5 < length then None
      else
        var block := text[5..5 + length];
        var rest := text[5 + length..];
        if text[0] % 2 == 1 then Some(Read([block], rest))
        else match ReadBlocks(rest)
          case None => None
          case Some(more) => Some(Read([block] + more.blocks, more.rest))
  }

  /** The data of a member that is nothing but header, blocks, checksum and length modulo 2^32. */
  function ReadMember(checksum: Checksum, text: seq<byte>): Option<seq<byte>> {
    if |text| < 10 || text[..3] != [0x1f, 0x8b, 0x08] || text[3] != 0 then None
    else match ReadBlocks(text[10..])
      case None => None
      case Some(read) =>
        var data := Joined(read.blocks);
        if && |read.rest| == 8
           && LittleEndian(read.rest[..4]) == checksum(data) % 0x1_0000_0000
           && LittleEndian(read.rest[4..]) == |data| % 0x1_0000_0000
        then Some(data) else None
  }

  // ---- The round trip.

  lemma ReadOneBlock(final: bool, block: seq<byte>, rest: seq<byte>)
    requires |block| <= LARGEST_BLOCK
    ensures ReadBlocks(StoredBlock(final, block) + rest)
            == if final then Some(Read([block], rest))
               else match ReadBlocks(rest)
                    case None => None
                    case Some(more) => Some(Read([block] + more.blocks, more.rest))
  {
    hide Little, LittleEndian;
    var text := StoredBlock(final, block) + rest;
    BlockParts(final, block, rest);
    LittleTwo(|block|);
    LittleTwo(0xFFFF - |block|);
  }

  lemma BlockParts(final: bool, block: seq<byte>, rest: seq<byte>)
    requires |block| <= LARGEST_BLOCK
    ensures var text := StoredBlock(final, block) + rest;
            && |text| == 5 + |block| + |rest|
            && text[0] == (if final then 1 else 0)
            && text[1..3] == Little(|block|, 2) && text[3..5] == Little(0xFFFF - |block|, 2)
            && text[5..5 + |block|] == block && text[5 + |block|..] == rest
  {
    hide Little;
  }

  lemma {:induction false} BlocksReadBack(data: seq<byte>, rest: seq<byte>)
    ensures ReadBlocks(StoredBlocks(data) + rest) == Some(Read(Blocks(data), rest))
    decreases |data|
  {
    hide StoredBlock, ReadBlocks;
    if |data| <= LARGEST_BLOCK {
      ReadOneBlock(true, data, rest);
    } else {
      var tail := data[LARGEST_BLOCK..];
      BlocksReadBack(tail, rest);
      ReadOneBlock(false, data[..LARGEST_BLOCK], StoredBlocks(tail) + rest);
      Associative(StoredBlock(false, data[..LARGEST_BLOCK]), StoredBlocks(tail), rest);
    }
  }

  lemma {:induction false} BlocksJoin(data: seq<byte>)
    ensures Joined(Blocks(data)) == data
    decreases |data|
  {
    if |data| > LARGEST_BLOCK {
      BlocksJoin(data[LARGEST_BLOCK..]);
      assert Blocks(data)[1..] == Blocks(data[LARGEST_BLOCK..]);
      Split(data, LARGEST_BLOCK);
    } else {
      assert Joined([data]) == data + Joined([]);
    }
  }

  /** The reader recovers the data from what was written, whatever its length. */
  lemma MemberReadsBack(checksum: Checksum, data: seq<byte>)
    ensures ReadMember(checksum, Member(checksum, data)) == Some(data)
  {
    hide Little, LittleEndian, StoredBlocks, ReadBlocks, Blocks, Joined;
    var text := Member(checksum, data);
    var trailer := Trailer(checksum, data);
    Associative(HEADER, StoredBlocks(data), trailer);
    assert text[10..] == StoredBlocks(data) + trailer;
    assert text[..10] == HEADER && text[..3] == HEADER[..3] && text[3] == HEADER[3];
    BlocksReadBack(data, trailer);
    BlocksJoin(data);
    LittleFour(checksum(data));
    LittleFour(|data|);
    assert trailer[..4] == Little(checksum(data), 4) && trailer[4..] == Little(|data|, 4);
  }

  // ---- Where the final block stands.

  /** A block as it stands in the text, with its final bit. */
  datatype Framed = Framed(final: bool, block: seq<byte>)

  function Layout(framed: seq<Framed>): seq<byte>
    requires forall f <- framed :: |f.block| <= LARGEST_BLOCK
  {
    if framed == [] then [] else StoredBlock(framed[0].final, framed[0].block) + Layout(framed[1..])
  }

  function Frame(blocks: seq<seq<byte>>): (framed: seq<Framed>)
    ensures |framed| == |blocks|
    ensures forall i | 0 <= i < |blocks| :: framed[i] == Framed(i == |blocks| - 1, blocks[i])
  {
    seq(|blocks|, i requires 0 <= i < |blocks| => Framed(i == |blocks| - 1, blocks[i]))
  }

  lemma {:induction false} LaidOut(data: seq<byte>)
    ensures StoredBlocks(data) == Layout(Frame(Blocks(data)))
    decreases |data|
  {
    hide StoredBlock;
    if |data| <= LARGEST_BLOCK {
      assert Frame([data]) == [Framed(true, data)];
      assert Layout([Framed(true, data)]) == StoredBlock(true, data) + Layout([]);
    } else {
      var tail := data[LARGEST_BLOCK..];
      LaidOut(tail);
      var blocks, framed := Blocks(data), Frame(Blocks(data));
      assert blocks[1..] == Blocks(tail);
      assert framed[1..] == Frame(Blocks(tail));
      assert framed[0] == Framed(false, data[..LARGEST_BLOCK]);
      assert Layout(framed) == StoredBlock(false, data[..LARGEST_BLOCK]) + Layout(framed[1..]);
    }
  }

  /** All blocks but the last are full, and only the block of no data is empty. */
  ghost predicate FullButLast(blocks: seq<seq<byte>>, size: nat) {
    && blocks != []
    && (forall i | 0 <= i < |blocks| - 1 :: |blocks[i]| == LARGEST_BLOCK)
    && (size > 0 ==> |blocks[|blocks| - 1]| > 0)
    && (|blocks| - 1) * LARGEST_BLOCK + |blocks[|blocks| - 1]| == size
  }

  lemma {:induction false} BlocksAreFull(data: seq<byte>)
    ensures FullButLast(Blocks(data), |data|)
    decreases |data|
  {
    if |data| > LARGEST_BLOCK {
      var tail := data[LARGEST_BLOCK..];
      BlocksAreFull(tail);
      FullInFront(data[..LARGEST_BLOCK], Blocks(tail), |tail|);
    }
  }

  lemma FullInFront(first: seq<byte>, rest: seq<seq<byte>>, size: nat)
    requires |first| == LARGEST_BLOCK && FullButLast(rest, size) && size > 0
    ensures FullButLast([first] + rest, size + LARGEST_BLOCK)
  {
  }

  /** The text is blocks of which the last and no other is final, and all but the last are full. */
  lemma OnlyLastBlockIsFinal(data: seq<byte>)
    ensures StoredBlocks(data) == Layout(Frame(Blocks(data)))
    ensures forall i | 0 <= i < |Frame(Blocks(data))| ::
              Frame(Blocks(data))[i].final <==> i == |Frame(Blocks(data))| - 1
    ensures FullButLast(Blocks(data), |data|)
  {
    hide Blocks, Layout, StoredBlocks;
    LaidOut(data);
    BlocksAreFull(data);
  }
}
