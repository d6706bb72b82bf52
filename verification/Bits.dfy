/** Bytes, little-endian bit strings and 64-bit lanes, as the prover code lays them out. */
module Bits {

  type Byte = b: int | 0 <= b < 256

  function Zeros(k: nat): (z: seq<Byte>)
    ensures |z| == k
  {
    seq(k, _ => 0)
  }

  /** A 64-bit word, least significant bit first. */
  type Lane = s: seq<bool> | |s| == 64 witness seq(64, _ => false)

  function Xor(a: bool, b: bool): bool { a != b }

  function Pow2(n: nat): nat
  {
    if n == 0 then 1 else 2 * Pow2(n - 1)
  }

  /** The n low bits of v, least significant first. */
  function BitsOf(v: nat, n: nat): (bits: seq<bool>)
    ensures |bits| == n
  {
    if n == 0 then [] else [v % 2 == 1] + BitsOf(v / 2, n - 1)
  }

  /** The number written by a bit string, least significant first. */
  function LittleEndian(bits: seq<bool>): (v: nat)
    ensures v < Pow2(|bits|)
  {
    if bits == [] then 0 else (if bits[0] then 1 else 0) + 2 * LittleEndian(bits[1..])
  }

  lemma {:induction false} BitsOfLittleEndian(bits: seq<bool>)
    ensures BitsOf(LittleEndian(bits), |bits|) == bits
  {
    if bits != [] {
      BitsOfLittleEndian(bits[1..]);
      assert bits == [bits[0]] + bits[1..];
    }
  }

  lemma {:induction false} LittleEndianBitsOf(v: nat, n: nat)
    requires v < Pow2(n)
    ensures LittleEndian(BitsOf(v, n)) == v
  {
    if n > 0 {
      LittleEndianBitsOf(v / 2, n - 1);
      assert BitsOf(v, n)[1..] == BitsOf(v / 2, n - 1);
    }
  }

  // ----- bytes as bits -----

  function ByteBits(b: Byte): (bits: seq<bool>)
    ensures |bits| == 8
  {
    BitsOf(b, 8)
  }

  function ByteOfBits(bits: seq<bool>): Byte
    requires |bits| == 8
  {
    assert Pow2(8) == 256;
    LittleEndian(bits)
  }

  lemma ByteRoundTrip(b: Byte)
    ensures ByteOfBits(ByteBits(b)) == b
  {
    assert Pow2(8) == 256;
    LittleEndianBitsOf(b, 8);
  }

  /** Bytes to bits, each byte least significant bit first. */
  function BytesToBits(bytes: seq<Byte>): (bits: seq<bool>)
    ensures |bits| == 8 * |bytes|
  {
    if bytes == [] then [] else ByteBits(bytes[0]) + BytesToBits(bytes[1..])
  }

  function BitsToBytes(bits: seq<bool>): (bytes: seq<Byte>)
    requires |bits| % 8 == 0
    ensures 8 * |bytes| == |bits|
  {
    if bits == [] then [] else [ByteOfBits(bits[..8])] + BitsToBytes(bits[8..])
  }

  lemma {:induction false} BytesToBitsToBytes(bits: seq<bool>)
    requires |bits| % 8 == 0
    ensures BytesToBits(BitsToBytes(bits)) == bits
  {
    if bits != [] {
      var bytes := BitsToBytes(bits);
      assert bytes[1..] == BitsToBytes(bits[8..]);
      BitsOfLittleEndian(bits[..8]);
      assert ByteBits(bytes[0]) == bits[..8];
      BytesToBitsToBytes(bits[8..]);
      assert bits == bits[..8] + bits[8..];
    }
  }

  lemma {:induction false} BitsToBytesToBits(bytes: seq<Byte>)
    ensures BitsToBytes(BytesToBits(bytes)) == bytes
  {
    if bytes != [] {
      hide ByteBits;
      ByteRoundTrip(bytes[0]);
      BitsToBytesToBits(bytes[1..]);
      var bits := BytesToBits(bytes);
      assert bits[..8] == ByteBits(bytes[0]) && bits[8..] == BytesToBits(bytes[1..]);
    }
  }

  lemma BytesToBitsInjective(a: seq<Byte>, b: seq<Byte>)
    requires BytesToBits(a) == BytesToBits(b)
    ensures a == b
  {
    BitsToBytesToBits(a);
    BitsToBytesToBits(b);
  }

  lemma {:induction false} BytesToBitsConcat(a: seq<Byte>, b: seq<Byte>)
    ensures BytesToBits(a + b) == BytesToBits(a) + BytesToBits(b)
  {
    hide ByteBits;
    if a == [] {
      assert a + b == b;
    } else {
      BytesToBitsConcat(a[1..], b);
      assert (a + b)[1..] == a[1..] + b;
    }
  }

  // ----- lanes -----

  function ZeroLane(): Lane { seq(64, _ => false) }

  function XorLane(a: Lane, b: Lane): Lane
  {
    seq(64, z requires 0 <= z < 64 => Xor(a[z], b[z]))
  }

  function LanesOfBits(bits: seq<bool>): (lanes: seq<Lane>)
    requires |bits| % 64 == 0
    ensures 64 * |lanes| == |bits|
  {
    if bits == [] then [] else [bits[..64]] + LanesOfBits(bits[64..])
  }

  function Flatten(lanes: seq<Lane>): (bits: seq<bool>)
    ensures |bits| == 64 * |lanes|
  {
    if lanes == [] then [] else lanes[0] + Flatten(lanes[1..])
  }

  lemma {:induction false} LanesOfFlatten(lanes: seq<Lane>)
    ensures LanesOfBits(Flatten(lanes)) == lanes
  {
    if lanes != [] {
      LanesOfFlatten(lanes[1..]);
      var bits := Flatten(lanes);
      assert bits[..64] == lanes[0] && bits[64..] == Flatten(lanes[1..]);
    }
  }

  lemma {:induction false} FlattenOfLanes(bits: seq<bool>)
    requires |bits| % 64 == 0
    ensures Flatten(LanesOfBits(bits)) == bits
  {
    if bits != [] {
      FlattenOfLanes(bits[64..]);
      assert LanesOfBits(bits)[1..] == LanesOfBits(bits[64..]);
      assert bits == bits[..64] + bits[64..];
    }
  }

  lemma {:induction false} LanesOfBitsConcat(a: seq<bool>, b: seq<bool>)
    requires |a| % 64 == 0 && |b| % 64 == 0
    ensures LanesOfBits(a + b) == LanesOfBits(a) + LanesOfBits(b)
  {
    if a == [] {
      assert a + b == b;
    } else {
      LanesOfBitsConcat(a[64..], b);
      assert (a + b)[..64] == a[..64] && (a + b)[64..] == a[64..] + b;
    }
  }

  /** u64::from_le_bytes on each group of eight bytes. */
  function LanesOfBytes(bytes: seq<Byte>): (lanes: seq<Lane>)
    requires |bytes| % 8 == 0
    ensures 8 * |lanes| == |bytes|
  {
    LanesOfBits(BytesToBits(bytes))
  }

  /** u64::to_le_bytes on each lane, concatenated. */
  function BytesOfLanes(lanes: seq<Lane>): (bytes: seq<Byte>)
    ensures |bytes| == 8 * |lanes|
  {
    assert 64 * |lanes| == 8 * (8 * |lanes|);
    BitsToBytes(Flatten(lanes))
  }

  lemma LanesOfBytesOfLanes(lanes: seq<Lane>)
    ensures LanesOfBytes(BytesOfLanes(lanes)) == lanes
  {
    hide BytesToBits, BitsToBytes, Flatten, LanesOfBits;
    assert |Flatten(lanes)| == 8 * (8 * |lanes|);
    BytesToBitsToBytes(Flatten(lanes));
    LanesOfFlatten(lanes);
  }

  lemma BytesOfLanesOfBytes(bytes: seq<Byte>)
    requires |bytes| % 8 == 0
    ensures BytesOfLanes(LanesOfBytes(bytes)) == bytes
  {
    FlattenOfLanes(BytesToBits(bytes));
    BitsToBytesToBits(bytes);
  }

  lemma LanesOfBytesConcat(a: seq<Byte>, b: seq<Byte>)
    requires |a| % 8 == 0 && |b| % 8 == 0
    ensures LanesOfBytes(a + b) == LanesOfBytes(a) + LanesOfBytes(b)
  {
    BytesToBitsConcat(a, b);
    LanesOfBitsConcat(BytesToBits(a), BytesToBits(b));
  }

  lemma LanesOfBytesSlice(bytes: seq<Byte>, lo: nat, hi: nat)
    requires lo <= hi && 8 * hi <= |bytes| && |bytes| % 8 == 0
    ensures LanesOfBytes(bytes[8 * lo..8 * hi]) == LanesOfBytes(bytes)[lo..hi]
  {
    var a, b, c := bytes[..8 * lo], bytes[8 * lo..8 * hi], bytes[8 * hi..];
    assert bytes == (a + b) + c;
    LanesOfBytesConcat(a + b, c);
    LanesOfBytesConcat(a, b);
  }
}
