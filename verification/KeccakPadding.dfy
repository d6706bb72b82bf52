/**
 The prover's byte padding against pad10*1 of section 5.1 of FIPS 202. The two agree on every length
 except those congruent to 135 modulo 136, where the prover emits one extra block.
 */
module KeccakPadding {
  import opened Bits
  import opened KeccakSpec
  import opened KeccakWitness

  /** What the code appends to a message of n bytes. */
  function CodePadding(n: nat): (pad: seq<Byte>)
    ensures |pad| >= 2 && (n + |pad|) % RATE_BYTES == 0
  {
    [1] + Zeros((RATE_BYTES - 2 + (RATE_BYTES - 1) * n) % RATE_BYTES) + [0x80]
  }

  function RateBlocks(bytes: seq<Byte>): (blocks: seq<RateBlock>)
    requires |bytes| % RATE_BYTES == 0
    ensures |blocks| * RATE_BYTES == |bytes|
  {
    if bytes == [] then [] else [bytes[..RATE_BYTES]] + RateBlocks(bytes[RATE_BYTES..])
  }

  function PaddedBlocks(message: seq<Byte>): seq<RateBlock>
  {
    RateBlocks(message + CodePadding(|message|))
  }

  function LaneBlocks(blocks: seq<RateBlock>): (lanes: seq<Block>)
    ensures |lanes| == |blocks|
  {
    seq(|blocks|, i requires 0 <= i < |blocks| => LanesOfBlock(blocks[i]))
  }

  /** Push 0x01, zeros until one byte short of a block boundary, then 0x80; cut into blocks. */
  method PadRateBlocks(message: seq<Byte>) returns (blocks: seq<RateBlock>)
    ensures blocks == PaddedBlocks(message)
  {
    hide CodePadding;
    var padded := PadBytes(message);
    blocks := [];
    var offset := 0;
    while offset < |padded|
      invariant 0 <= offset <= |padded| && (|padded| - offset) % RATE_BYTES == 0
      invariant blocks + RateBlocks(padded[offset..]) == RateBlocks(padded)
    {
      var chunk := padded[offset..offset + RATE_BYTES];
      assert padded[offset..][..RATE_BYTES] == chunk;
      assert padded[offset..][RATE_BYTES..] == padded[offset + RATE_BYTES..];
      blocks := blocks + [chunk];
      offset := offset + RATE_BYTES;
    }
  }

  method PadBytes(message: seq<Byte>) returns (padded: seq<Byte>)
    ensures padded == message + CodePadding(|message|)
  {
    hide CodePadding;
    padded := message + [1];
    ghost var zeros: nat := 0;
    while |padded| % RATE_BYTES != RATE_BYTES - 1
      invariant zeros <= |CodePadding(|message|)| - 2
      invariant padded == message + [1] + Zeros(zeros)
      decreases |CodePadding(|message|)| - zeros
    {
      ZerosShort(|message|, zeros);
      padded := padded + [0];
      zeros := zeros + 1;
    }
    ZerosShort(|message|, zeros);
    padded := padded + [0x80];
  }

  /** The zero count is the least that stops the loop. */
  lemma ZerosShort(n: nat, k: nat)
    requires k <= |CodePadding(n)| - 2
    ensures (n + 1 + k) % RATE_BYTES == RATE_BYTES - 1 <==> k == |CodePadding(n)| - 2
    ensures k == |CodePadding(n)| - 2 ==> CodePadding(n) == [1] + Zeros(k) + [0x80]
  {
    var full := |CodePadding(n)| - 2;
    assert (n + 2 + full) % RATE_BYTES == 0;
  }

  // ----- agreement with the standard -----

  function Falses(k: nat): seq<bool> { seq(k, _ => false) }

  lemma {:induction false} BitsOfZero(n: nat)
    ensures BitsOf(0, n) == Falses(n)
  {
    if n > 0 { BitsOfZero(n - 1); }
  }

  lemma {:induction false} BitsOfTopBit(n: nat)
    ensures BitsOf(Pow2(n), n + 1) == Falses(n) + [true]
  {
    if n > 0 { BitsOfTopBit(n - 1); }
  }

  lemma {:induction false} BitsOfZeros(k: nat)
    ensures BytesToBits(Zeros(k)) == Falses(8 * k)
  {
    hide BitsOf;
    if k > 0 {
      BitsOfZeros(k - 1);
      assert Zeros(k)[1..] == Zeros(k - 1);
      BitsOfZero(8);
    }
  }

  lemma MarkerBits()
    ensures BytesToBits([1]) == [true] + Falses(7)
    ensures BytesToBits([0x80]) == Falses(7) + [true]
  {
    BitsOfZero(7);
    assert BitsOf(1, 8) == [true] + BitsOf(0, 7);
    assert Pow2(7) == 0x80;
    BitsOfTopBit(7);
    OneByte(1);
    OneByte(0x80);
  }

  lemma OneByte(b: Byte)
    ensures BytesToBits([b]) == BitsOf(b, 8)
  {
    hide BitsOf;
    assert BytesToBits([b]) == ByteBits(b) + BytesToBits([]);
  }

  lemma BitsOfCodePadding(n: nat)
    ensures BytesToBits(CodePadding(n)) == [true] + Falses(8 * |CodePadding(n)| - 2) + [true]
  {
    hide CodePadding, BytesToBits;
    var k := |CodePadding(n)| - 2;
    ZerosShort(n, k);
    BitsOfZeros(k);
    MarkerBits();
    BytesToBitsConcat([1] + Zeros(k), [0x80]);
    BytesToBitsConcat([1], Zeros(k));
  }

  /** The number of zero bits of pad10*1 for whole-byte messages, against the code's. */
  lemma ZeroCounts(n: nat)
    ensures |Pad101(8 * n)| == 8 * |CodePadding(n)| <==> n % RATE_BYTES != RATE_BYTES - 1
    ensures n % RATE_BYTES == RATE_BYTES - 1 ==> |CodePadding(n)| == RATE_BYTES + 1 && |Pad101(8 * n)| == 8
  {
    var r, q := n % RATE_BYTES, n / RATE_BYTES;
    var zeros := (RATE_BYTES - 2 + (RATE_BYTES - 1) * n) % RATE_BYTES;
    assert (RATE_BYTES - 2 + (RATE_BYTES - 1) * n) == (RATE_BYTES - 2 - r) + RATE_BYTES * (n - q);
    assert zeros == (RATE_BYTES - 2 - r) % RATE_BYTES;
    assert 0 - 8 * n - 2 == (RATE_BITS - 2 - 8 * r) + RATE_BITS * (-q - 1);
    assert (0 - 8 * n - 2) % RATE_BITS == (RATE_BITS - 2 - 8 * r) % RATE_BITS;
  }

  /** The code's padding is pad10*1 exactly on lengths not congruent to 135 modulo 136. */
  lemma PaddingIsPad101(message: seq<Byte>)
    ensures BytesToBits(message + CodePadding(|message|)) == BytesToBits(message) + Pad101(8 * |message|)
       <==> |message| % RATE_BYTES != RATE_BYTES - 1
  {
    hide CodePadding, BytesToBits, Pad101;
    var n := |message|;
    BytesToBitsConcat(message, CodePadding(n));
    BitsOfCodePadding(n);
    ZeroCounts(n);
    PadShape(8 * n);
    if n % RATE_BYTES == RATE_BYTES - 1 {
      assert |BytesToBits(message + CodePadding(n))| != |BytesToBits(message) + Pad101(8 * n)|;
    } else {
      assert BytesToBits(CodePadding(n)) == Pad101(8 * n);
    }
  }

  lemma PadShape(length: nat)
    ensures Pad101(length) == [true] + Falses(|Pad101(length)| - 2) + [true]
  {
  }

  lemma {:induction false} BlocksOfBytes(bytes: seq<Byte>)
    requires |bytes| % RATE_BYTES == 0
    ensures 8 * |bytes| % RATE_BITS == 0
    ensures BlocksOfBits(BytesToBits(bytes)) == LaneBlocks(RateBlocks(bytes))
  {
    if bytes != [] {
      var head, tail := bytes[..RATE_BYTES], bytes[RATE_BYTES..];
      assert bytes == head + tail;
      BytesToBitsConcat(head, tail);
      BlocksOfBytes(tail);
      var bits := BytesToBits(bytes);
      assert bits[..RATE_BITS] == BytesToBits(head) && bits[RATE_BITS..] == BytesToBits(tail);
    }
  }

  /** Hashing the code's blocks is Keccak-256 wherever the padding is pad10*1. */
  lemma SpongeOfPaddedBlocks(message: seq<Byte>)
    requires |message| % RATE_BYTES != RATE_BYTES - 1
    ensures Digest(Sponge(LaneBlocks(PaddedBlocks(message)))) == Keccak256(message)
  {
    PaddingIsPad101(message);
    BlocksOfBytes(message + CodePadding(|message|));
  }

  /** Two messages with the same padded bytes are equal, the exceptional length included. */
  lemma PaddingInjective(a: seq<Byte>, b: seq<Byte>)
    requires a + CodePadding(|a|) == b + CodePadding(|b|)
    ensures a == b
  {
    if |a| < |b| {
      PaddedMarker(a, b);
    } else if |b| < |a| {
      PaddedMarker(b, a);
    } else {
      assert a == (a + CodePadding(|a|))[..|a|] && b == (b + CodePadding(|b|))[..|b|];
    }
  }

  lemma PaddedMarker(short: seq<Byte>, long: seq<Byte>)
    requires |short| < |long|
    ensures short + CodePadding(|short|) != long + CodePadding(|long|)
  {
    var s, l := short + CodePadding(|short|), long + CodePadding(|long|);
    assert l[|long|] == 1;
    if |s| == |l| {
      assert s[|long|] == CodePadding(|short|)[|long| - |short|] == 0;
    }
  }

  lemma {:induction false} RateBlocksInjective(a: seq<Byte>, b: seq<Byte>)
    requires |a| % RATE_BYTES == 0 && |b| % RATE_BYTES == 0
    requires RateBlocks(a) == RateBlocks(b)
    ensures a == b
  {
    if a != [] {
      assert RateBlocks(a)[1..] == RateBlocks(b)[1..];
      RateBlocksInjective(a[RATE_BYTES..], b[RATE_BYTES..]);
      assert a == a[..RATE_BYTES] + a[RATE_BYTES..] && b == b[..RATE_BYTES] + b[RATE_BYTES..];
    }
  }

  /** The whole padding step is injective on messages. */
  lemma PaddedBlocksInjective(a: seq<Byte>, b: seq<Byte>)
    requires PaddedBlocks(a) == PaddedBlocks(b)
    ensures a == b
  {
    RateBlocksInjective(a + CodePadding(|a|), b + CodePadding(|b|));
    PaddingInjective(a, b);
  }

  /**
   At length 135 the code spends two blocks where the standard spends one: the standard's padding is the
   single byte 0x81, which the code's padding does not contain.
   */
  lemma ExtraBlockAt135(message: seq<Byte>)
    requires |message| % RATE_BYTES == RATE_BYTES - 1
    ensures |PaddedBlocks(message)| == |message| / RATE_BYTES + 2
    ensures |BlocksOfBits(BytesToBits(message) + Pad101(8 * |message|))| == |message| / RATE_BYTES + 1
    ensures CodePadding(|message|) == [1] + Zeros(RATE_BYTES - 1) + [0x80] && 0x81 !in CodePadding(|message|)
    ensures Pad101(8 * |message|) == ByteBits(0x81)
  {
    var n := |message|;
    ZeroCounts(n);
    ZerosShort(n, |CodePadding(n)| - 2);
    PadShape(8 * n);
    Bits81();
  }

  lemma Bits81()
    ensures ByteBits(0x81) == [true] + Falses(6) + [true]
  {
    BitsOfTopBit(6);
    assert Pow2(6) == 64;
  }
}
