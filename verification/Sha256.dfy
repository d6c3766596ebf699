/**
 SHA-256 as the compiler computes it: a state fed byte by byte, against the definition of FIPS 180-4
 (padding of section 5.1.1, block function of section 6.2.2).
 */
module Sha256 {
  import opened Bytes

  // ---- FIPS 180-4.

  /** A 32-bit word; addition wraps. */
  datatype Word = Word(bits: bv32) {
    function Plus(other: Word): Word { Word(bits + other.bits) }

    /** The four bytes of the word, most significant first. */
    function Bytes(): seq<byte> {
      [((bits >> 24) & 0xff) as int, ((bits >> 16) & 0xff) as int, ((bits >> 8) & 0xff) as int, (bits & 0xff) as int]
    }
  }

  function RotateRight(x: bv32, n: nat): bv32
    requires 0 < n < 32
  {
    (x >> n) | (x << (32 - n))
  }

  function WordOf(n: nat): Word
    requires n < 0x1_0000_0000
  {
    Word(n as bv32)
  }

  /** The table of round constants. */
  function RoundNumber(t: nat): (k: nat)
    requires t < 64
    ensures k < 0x1_0000_0000
  {
    match t
    case 0 => 0x428a2f98
    case 1 => 0x71374491
    case 2 => 0xb5c0fbcf
    case 3 => 0xe9b5dba5
    case 4 => 0x3956c25b
    case 5 => 0x59f111f1
    case 6 => 0x923f82a4
    case 7 => 0xab1c5ed5
    case 8 => 0xd807aa98
    case 9 => 0x12835b01
    case 10 => 0x243185be
    case 11 => 0x550c7dc3
    case 12 => 0x72be5d74
    case 13 => 0x80deb1fe
    case 14 => 0x9bdc06a7
    case 15 => 0xc19bf174
    case 16 => 0xe49b69c1
    case 17 => 0xefbe4786
    case 18 => 0x0fc19dc6
    case 19 => 0x240ca1cc
    case 20 => 0x2de92c6f
    case 21 => 0x4a7484aa
    case 22 => 0x5cb0a9dc
    case 23 => 0x76f988da
    case 24 => 0x983e5152
    case 25 => 0xa831c66d
    case 26 => 0xb00327c8
    case 27 => 0xbf597fc7
    case 28 => 0xc6e00bf3
    case 29 => 0xd5a79147
    case 30 => 0x06ca6351
    case 31 => 0x14292967
    case 32 => 0x27b70a85
    case 33 => 0x2e1b2138
    case 34 => 0x4d2c6dfc
    case 35 => 0x53380d13
    case 36 => 0x650a7354
    case 37 => 0x766a0abb
    case 38 => 0x81c2c92e
    case 39 => 0x92722c85
    case 40 => 0xa2bfe8a1
    case 41 => 0xa81a664b
    case 42 => 0xc24b8b70
    case 43 => 0xc76c51a3
    case 44 => 0xd192e819
    case 45 => 0xd6990624
    case 46 => 0xf40e3585
    case 47 => 0x106aa070
    case 48 => 0x19a4c116
    case 49 => 0x1e376c08
    case 50 => 0x2748774c
    case 51 => 0x34b0bcb5
    case 52 => 0x391c0cb3
    case 53 => 0x4ed8aa4a
    case 54 => 0x5b9cca4f
    case 55 => 0x682e6ff3
    case 56 => 0x748f82ee
    case 57 => 0x78a5636f
    case 58 => 0x84c87814
    case 59 => 0x8cc70208
    case 60 => 0x90befffa
    case 61 => 0xa4506ceb
    case 62 => 0xbef9a3f7
    case _ => 0xc67178f2
  }

  function RoundConstant(t: nat): Word
    requires t < 64
  {
    WordOf(RoundNumber(t))
  }

  /** The words a state begins with. */
  function InitialNumber(i: nat): (h: nat)
    requires i < 8
    ensures h < 0x1_0000_0000
  {
    match i
    case 0 => 0x6a09e667
    case 1 => 0xbb67ae85
    case 2 => 0x3c6ef372
    case 3 => 0xa54ff53a
    case 4 => 0x510e527f
    case 5 => 0x9b05688c
    case 6 => 0x1f83d9ab
    case _ => 0x5be0cd19
  }

  function InitialHash(): (h: seq<Word>)
    ensures |h| == 8
  {
    seq(8, i requires 0 <= i < 8 => WordOf(InitialNumber(i)))
  }

  function JoinBytes(a: byte, b: byte, c: byte, d: byte): Word {
    Word(((a as bv32) << 24) | ((b as bv32) << 16) | ((c as bv32) << 8) | (d as bv32))
  }

  function BlockWord(block: seq<byte>, i: nat): Word
    requires |block| == 64 && i < 16
  {
    JoinBytes(block[4 * i], block[4 * i + 1], block[4 * i + 2], block[4 * i + 3])
  }

  // The six functions of section 4.1.2.

  function Choice(x: bv32, y: bv32, z: bv32): bv32 { (x & y) ^ (!x & z) }
  function Majority(x: bv32, y: bv32, z: bv32): bv32 { (x & y) ^ (x & z) ^ (y & z) }
  function BigSigma0(x: bv32): bv32 { RotateRight(x, 2) ^ RotateRight(x, 13) ^ RotateRight(x, 22) }
  function BigSigma1(x: bv32): bv32 { RotateRight(x, 6) ^ RotateRight(x, 11) ^ RotateRight(x, 25) }
  function SmallSigma0(x: bv32): bv32 { RotateRight(x, 7) ^ RotateRight(x, 18) ^ (x >> 3) }
  function SmallSigma1(x: bv32): bv32 { RotateRight(x, 17) ^ RotateRight(x, 19) ^ (x >> 10) }

  function MixWords(w16: Word, w15: Word, w7: Word, w2: Word): Word {
    Word(w16.bits + SmallSigma0(w15.bits) + w7.bits + SmallSigma1(w2.bits))
  }

  function NextWord(w: seq<Word>): Word
    requires |w| >= 16
  {
    MixWords(w[|w| - 16], w[|w| - 15], w[|w| - 7], w[|w| - 2])
  }

  /** The first `n` words of the message schedule. */
  function Schedule(block: seq<byte>, n: nat): (w: seq<Word>)
    requires |block| == 64
    ensures |w| == n
  {
    if n == 0 then []
    else
      var before := Schedule(block, n - 1);
      before + [if n <= 16 then BlockWord(block, n - 1) else NextWord(before)]
  }

  datatype Working = Working(a: Word, b: Word, c: Word, d: Word, e: Word, f: Word, g: Word, h: Word)

  function Round(s: Working, k: Word, w: Word): Working {
    var temporary1 :=
      s.h.bits + BigSigma1(s.e.bits) + Choice(s.e.bits, s.f.bits, s.g.bits) + k.bits + w.bits;
    var temporary2 := BigSigma0(s.a.bits) + Majority(s.a.bits, s.b.bits, s.c.bits);
    Working(Word(temporary1 + temporary2), s.a, s.b, s.c, Word(s.d.bits + temporary1), s.e, s.f, s.g)
  }

  function Rounds(s: Working, w: seq<Word>, n: nat): Working
    requires n <= 64 && |w| == 64
  {
    if n == 0 then s else Round(Rounds(s, w, n - 1), RoundConstant(n - 1), w[n - 1])
  }

  function WorkingOf(hash: seq<Word>): Working
    requires |hash| == 8
  {
    Working(hash[0], hash[1], hash[2], hash[3], hash[4], hash[5], hash[6], hash[7])
  }

  /** The block function. */
  function Compress(hash: seq<Word>, block: seq<byte>): (next: seq<Word>)
    requires |hash| == 8 && |block| == 64
    ensures |next| == 8
  {
    var s := Rounds(WorkingOf(hash), Schedule(block, 64), 64);
    [hash[0].Plus(s.a), hash[1].Plus(s.b), hash[2].Plus(s.c), hash[3].Plus(s.d),
     hash[4].Plus(s.e), hash[5].Plus(s.f), hash[6].Plus(s.g), hash[7].Plus(s.h)]
  }

  /** The block function folded over the first `count` blocks of a message. */
  function HashBlocks(message: seq<byte>, count: nat): (hash: seq<Word>)
    requires 64 * count <= |message|
    ensures |hash| == 8
  {
    if count == 0 then InitialHash()
    else Compress(HashBlocks(message, count - 1), message[64 * (count - 1)..64 * count])
  }

  function BigEndianBytes(n: nat, count: nat): (bytes: seq<byte>)
    ensures |bytes| == count
  {
    if count == 0 then [] else BigEndianBytes(n / 256, count - 1) + [n % 256]
  }

  function Zeros(n: nat): (zeros: seq<byte>)
    ensures |zeros| == n
  {
    seq(n, _ => 0)
  }

  /** How many zero bytes bring a message and its terminator to eight bytes short of whole blocks. */
  function ZeroCount(length: nat): nat {
    (119 - length % 64) % 64
  }

  /** A count kept in 64 bits. */
  function Wrapped(n: nat): nat {
    n % 0x1_0000_0000_0000_0000
  }

  function Padded(message: seq<byte>): seq<byte> {
    message + [0x80] + Zeros(ZeroCount(|message|)) + BigEndianBytes(Wrapped(8 * |message|), 8)
  }

  function WordsBytes(words: seq<Word>): (bytes: seq<byte>)
    ensures |bytes| == 4 * |words|
  {
    if words == [] then [] else WordsBytes(words[..|words| - 1]) + words[|words| - 1].Bytes()
  }

  function Digest(message: seq<byte>): (digest: seq<byte>)
    ensures |digest| == 32
  {
    PaddedLength(message);
    WordsBytes(HashBlocks(Padded(message), |Padded(message)| / 64))
  }

  predicate FillsBlocks(length: nat, zeros: nat) {
    (length + 1 + zeros + 8) % 64 == 0
  }

  /** Padding fills whole blocks with the fewest zero bytes that can: one block more at most. */
  lemma PaddedLength(message: seq<byte>)
    ensures |Padded(message)| % 64 == 0
    ensures forall k | 0 <= k < ZeroCount(|message|) :: !FillsBlocks(|message|, k)
    ensures |Padded(message)| == 64 * (|message| / 64 + if |message| % 64 < 56 then 1 else 2)
  {
    hide BigEndianBytes, Zeros, Wrapped, ZeroCount;
    var blocks, rest := |message| / 64, |message| % 64;
    ZeroCountFrom(blocks, rest);
    assert |message| == 64 * blocks + rest;
    forall k | 0 <= k < ZeroCount(|message|) ensures !FillsBlocks(|message|, k) {
      if rest < 56 {
        assert |message| + 1 + k + 8 == 64 * blocks + (rest + 9 + k);
      } else {
        assert |message| + 1 + k + 8 == 64 * (blocks + 1) + (rest + 9 + k - 64);
      }
    }
  }

  /** Below 2^61 bytes the length field is the bit length itself, as the standard has it. */
  lemma LengthFieldIsExact(message: seq<byte>)
    requires |message| < 0x2000_0000_0000_0000
    ensures BigEndian(Padded(message)[|Padded(message)| - 8..]) == 8 * |message|
  {
    hide BigEndianBytes, BigEndian, Power256, Zeros, ZeroCount;
    var bits := 8 * |message|;
    BigEndianValue(bits, 8);
    PowerOfEight();
    assert Wrapped(bits) == bits;
    assert Padded(message)[|Padded(message)| - 8..] == BigEndianBytes(bits, 8);
  }

  lemma PowerOfEight()
    ensures Power256(8) == 0x1_0000_0000_0000_0000
  {
    assert Power256(4) == 0x1_0000_0000;
  }

  lemma {:induction false} BigEndianValue(n: nat, count: nat)
    ensures BigEndian(BigEndianBytes(n, count)) == n % Power256(count)
  {
    if count > 0 {
      BigEndianValue(n / 256, count - 1);
      SplitDigit(n, Power256(count - 1));
      var bytes := BigEndianBytes(n, count);
      assert bytes[..count - 1] == BigEndianBytes(n / 256, count - 1);
    }
  }

  /** Byte `i` of a big-endian number is what shifting and masking extracts. */
  lemma {:induction false} BigEndianByteAt(n: nat, count: nat, i: nat)
    requires i < count
    ensures BigEndianBytes(n, count)[i] == n / Power256(count - 1 - i) % 256
  {
    if i < count - 1 {
      BigEndianByteAt(n / 256, count - 1, i);
      SplitDigit(n, Power256(count - 2 - i));
    }
  }

  /** Blocks are hashed as they fill, so what follows them does not matter. */
  lemma {:induction false} HashBlocksPrefix(message: seq<byte>, more: seq<byte>, count: nat)
    requires 64 * count <= |message|
    ensures HashBlocks(message + more, count) == HashBlocks(message, count)
  {
    hide Compress;
    if count > 0 {
      HashBlocksPrefix(message, more, count - 1);
      assert (message + more)[64 * (count - 1)..64 * count] == message[64 * (count - 1)..64 * count];
    }
  }

  // ---- The compiler's state.

  class Sha256State {
    const hash: array<Word>
    const block: array<byte>
    var blockSize: nat
    var totalBytes: nat

    /** Everything fed so far: the message, and while finishing also its padding. */
    ghost var fed: seq<byte>
    ghost var blocks: nat

    /**
     The state is determined by what was fed: whole blocks are hashed, and the rest waits in the buffer,
     which may just have become full.
     */
    ghost predicate Holding()
      reads this, hash, block
    {
      && hash.Length == 8 && block.Length == 64 && hash as object != block
      && blockSize <= 64 && |fed| == 64 * blocks + blockSize
      && block[..blockSize] == fed[64 * blocks..]
      && hash[..] == HashBlocks(fed, blocks)
    }

    ghost predicate Valid()
      reads this, hash, block
    {
      Holding() && blockSize < 64 && totalBytes == Wrapped(|fed|)
    }

    constructor ()
      ensures Valid() && fed == [] && fresh(hash) && fresh(block)
    {
      hide InitialHash;
      var initial := InitialHash();
      hash := new Word[8](i requires 0 <= i < 8 => initial[i]);
      block := new byte[64](_ => 0);
      blockSize, totalBytes := 0, 0;
      fed, blocks := [], 0;
      new;
      assert hash[..] == initial == HashBlocks([], 0);
    }

    method Update(input: seq<byte>)
      requires Valid()
      modifies this, hash, block
      ensures Valid() && fed == old(fed) + input
    {
      hide HashBlocks, Wrapped;
      assert input[..0] == [];
      for i := 0 to |input|
        invariant Valid() && fed == old(fed) + input[..i]
      {
        CountOneMore(|fed|);
        PutByte(input[i]);
        totalBytes := Wrapped(totalBytes + 1);
        if blockSize == 64 {
          HashFullBlock();
        }
        assert input[..i + 1] == input[..i] + [input[i]];
      }
      assert input[..|input|] == input;
    }

    method PutByte(value: byte)
      requires Holding() && blockSize < 64
      modifies this`fed, this`blockSize, block
      ensures Holding() && fed == old(fed) + [value] && blockSize == old(blockSize) + 1
    {
      hide HashBlocks;
      HashBlocksPrefix(fed, [value], blocks);
      block[blockSize] := value;
      blockSize := blockSize + 1;
      fed := fed + [value];
      assert block[..blockSize] == fed[64 * blocks..];
    }

    method HashFullBlock()
      requires Holding() && blockSize == 64
      modifies this`blockSize, this`blocks, hash
      ensures Holding() && blockSize == 0
    {
      hide Compress, HashBlocks;
      assert block[..] == fed[64 * blocks..];
      HashBlocksStep(fed, blocks + 1);
      Transform();
      blockSize := 0;
      blocks := blocks + 1;
    }

    method Transform()
      requires hash.Length == 8 && block.Length == 64 && hash as object != block
      modifies hash
      ensures hash[..] == Compress(old(hash[..]), block[..])
    {
      hide Schedule, Round, RoundConstant;
      var w := ExpandSchedule();
      var s := WorkingOf(hash[..]);
      for index := 0 to 64
        invariant s == Rounds(WorkingOf(old(hash[..])), w, index)
      {
        s := Round(s, RoundConstant(index), w[index]);
      }
      AddWorking(s);
    }

    method AddWorking(s: Working)
      requires hash.Length == 8
      modifies hash
      ensures var h := old(hash[..]);
              hash[..] == [h[0].Plus(s.a), h[1].Plus(s.b), h[2].Plus(s.c), h[3].Plus(s.d),
                           h[4].Plus(s.e), h[5].Plus(s.f), h[6].Plus(s.g), h[7].Plus(s.h)]
    {
      hide Word.Plus;
      hash[0] := hash[0].Plus(s.a);
      hash[1] := hash[1].Plus(s.b);
      hash[2] := hash[2].Plus(s.c);
      hash[3] := hash[3].Plus(s.d);
      hash[4] := hash[4].Plus(s.e);
      hash[5] := hash[5].Plus(s.f);
      hash[6] := hash[6].Plus(s.g);
      hash[7] := hash[7].Plus(s.h);
    }

    method ExpandSchedule() returns (w: seq<Word>)
      requires block.Length == 64
      ensures w == Schedule(block[..], 64)
    {
      hide BlockWord, NextWord;
      var schedule := new Word[64](_ => Word(0));
      assert schedule[..0] == [];
      for index := 0 to 16
        invariant schedule[..index] == Schedule(block[..], index)
      {
        var word := WordAt(index * 4);
        schedule[index] := word;
        assert schedule[..index + 1] == schedule[..index] + [word];
      }
      for index := 16 to 64
        invariant schedule[..index] == Schedule(block[..], index)
      {
        ghost var before := schedule[..index];
        schedule[index] := NextWord(schedule[..index]);
        assert schedule[..index + 1] == before + [NextWord(before)];
      }
      assert schedule[..] == schedule[..64];
      return schedule[..];
    }

    /**
     Terminates the message and hashes what is left: one block more, or two when the length does not
     fit behind the terminator.
     */
    method Finish() returns (digest: seq<byte>)
      requires Valid()
      modifies this, hash, block
      ensures digest == Digest(old(fed))
    {
      hide HashBlocks, BigEndianBytes, WordsBytes, Zeros, ZeroCount, Wrapped;
      ghost var message := fed;
      var bitCount := Wrapped(totalBytes * 8);
      BitCount(|message|);
      PaddedLength(message);
      Terminate();
      AppendLength(bitCount);
      HashFullBlock();
      digest := DigestBytes();
    }

    /** Puts the terminator and the zero bytes, by way of a further block if they do not fit. */
    method Terminate()
      requires Valid()
      modifies this`fed, this`blockSize, this`blocks, hash, block
      ensures Holding() && blockSize == 56
      ensures fed == old(fed) + [0x80] + Zeros(ZeroCount(|old(fed)|))
    {
      hide HashBlocks, Zeros, ZeroCount;
      ghost var message, waiting := fed, blockSize;
      ZeroCountFrom(blocks, waiting);
      PutByte(0x80);
      ghost var zeros := 0;
      ZerosAppend(0);
      if blockSize > 56 {
        zeros := PutZeros(64, message, zeros);
        HashFullBlock();
      }
      zeros := PutZeros(56, message, zeros);
    }

    method PutZeros(limit: nat, ghost message: seq<byte>, ghost before: nat) returns (ghost zeros: nat)
      requires Holding() && blockSize <= limit <= 64
      requires fed == message + [0x80] + Zeros(before)
      modifies this`fed, this`blockSize, block
      ensures Holding() && blockSize == limit
      ensures zeros == before + limit - old(blockSize)
      ensures fed == message + [0x80] + Zeros(zeros)
    {
      hide HashBlocks, Zeros;
      zeros := before;
      while blockSize < limit
        invariant Holding() && blockSize <= limit
        invariant zeros == before + blockSize - old(blockSize)
        invariant fed == message + [0x80] + Zeros(zeros)
      {
        PutByte(0);
        ZerosAppend(zeros);
        zeros := zeros + 1;
      }
    }

    method AppendLength(bitCount: nat)
      requires Holding() && blockSize == 56
      modifies this`fed, this`blockSize, block
      ensures Holding() && blockSize == 64
      ensures fed == old(fed) + BigEndianBytes(bitCount, 8)
    {
      hide HashBlocks, BigEndianBytes;
      ghost var bytes := BigEndianBytes(bitCount, 8);
      for index := 0 to 8
        invariant Holding() && blockSize == 56 + index
        invariant fed == old(fed) + bytes[..index]
      {
        BigEndianByteAt(bitCount, 8, index);
        PutByte(bitCount / Power256(7 - index) % 256);
        assert bytes[..index + 1] == bytes[..index] + [bytes[index]];
      }
      assert bytes[..8] == bytes;
    }

    method DigestBytes() returns (digest: seq<byte>)
      requires hash.Length == 8
      ensures digest == WordsBytes(hash[..])
    {
      digest := [];
      for word := 0 to 8
        invariant digest == WordsBytes(hash[..word])
      {
        digest := digest + hash[word].Bytes();
        assert hash[..word + 1][..word] == hash[..word];
      }
      assert hash[..8] == hash[..];
    }

    method WordAt(offset: nat) returns (word: Word)
      requires block.Length == 64 && offset % 4 == 0 && offset + 4 <= 64
      ensures word == BlockWord(block[..], offset / 4)
    {
      word := JoinBytes(block[offset], block[offset + 1], block[offset + 2], block[offset + 3]);
    }
  }

  /** The digest as text: 64 lower-case hexadecimal digits. */
  predicate IsLowerHexFingerprint(text: string) {
    |text| == 64 && forall c <- text :: '0' <= c <= '9' || 'a' <= c <= 'f'
  }

  function Hex(bytes: seq<byte>): (text: string)
    ensures |text| == 2 * |bytes| && forall c <- text :: '0' <= c <= '9' || 'a' <= c <= 'f'
  {
    if bytes == [] then []
    else Hex(bytes[..|bytes| - 1]) + [HexDigit(bytes[|bytes| - 1] / 16), HexDigit(bytes[|bytes| - 1] % 16)]
  }

  /** The bytes of a text each of whose characters stands for one byte. */
  function TextBytes(text: string): seq<byte> {
    seq(|text|, i requires 0 <= i < |text| => text[i] as int % 256)
  }

  function HexDigest(text: string): (hex: string)
    ensures IsLowerHexFingerprint(hex)
  {
    Hex(Digest(TextBytes(text)))
  }

  lemma ZeroCountFrom(blocks: nat, waiting: nat)
    requires waiting < 64
    ensures ZeroCount(64 * blocks + waiting) == if waiting < 56 then 55 - waiting else 119 - waiting
  {
  }

  lemma ZerosAppend(n: nat)
    ensures Zeros(0) == [] && Zeros(n + 1) == Zeros(n) + [0]
  {
  }

  /** The counter wraps with the length, and the bit count with both. */
  lemma BitCount(length: nat)
    ensures Wrapped(Wrapped(length) * 8) == Wrapped(8 * length)
  {
    var m := 0x1_0000_0000_0000_0000;
    var q, r := length / m, length % m;
    assert length == m * q + r;
    assert 8 * length == m * (8 * q) + 8 * r;
    DivUnique(8 * length, m, 8 * q + 8 * r / m, 8 * r % m);
  }

  lemma CountOneMore(n: nat)
    ensures Wrapped(Wrapped(n) + 1) == Wrapped(n + 1)
  {
  }

  lemma HashBlocksStep(message: seq<byte>, count: nat)
    requires |message| == 64 * count && count > 0
    ensures HashBlocks(message, count) == Compress(HashBlocks(message, count - 1), message[64 * (count - 1)..])
  {
    hide Compress;
    assert message[64 * (count - 1)..64 * count] == message[64 * (count - 1)..];
  }

  /** The digest of a message depends on the message alone, however it is cut into updates. */
  method DigestOf(parts: seq<seq<byte>>) returns (digest: seq<byte>)
    ensures digest == Digest(Joined(parts))
  {
    hide Digest, Sha256State.Valid;
    var state := new Sha256State();
    for i := 0 to |parts|
      invariant state.Valid() && fresh(state) && fresh(state.hash) && fresh(state.block)
      invariant state.fed == Joined(parts[..i])
    {
      assert parts[..i + 1] == parts[..i] + [parts[i]];
      JoinedAppend(parts[..i], parts[i]);
      state.Update(parts[i]);
    }
    assert parts[..|parts|] == parts;
    digest := state.Finish();
  }
}
