/**
 The Keccak reference: the step mappings of section 3.2, the permutation of section 3.3, the sponge of
 section 4 and the padding of section 5.1 of FIPS 202, for Keccak[c=512] with a 256-bit digest.
 Lane x + 5y holds the bits A[x, y, .].
 */
module KeccakSpec {
  import opened Bits

  const RATE_BYTES := 136
  const RATE_BITS := 1088
  const RATE_LANES := 17
  const ROUNDS := 24

  type State = s: seq<Lane> | |s| == 25 witness seq(25, _ => ZeroLane())

  const RHO_OFFSETS: seq<int> := [
    0, 1, 62, 28, 27, 36, 44, 6, 55, 20, 3, 10, 43, 25, 39, 41, 45, 15, 21, 8, 18, 2, 61, 56, 14
  ]

  const ROUND_CONSTANTS: seq<nat> := [
    0x0000000000000001, 0x0000000000008082, 0x800000000000808a, 0x8000000080008000,
    0x000000000000808b, 0x0000000080000001, 0x8000000080008081, 0x8000000000008009,
    0x000000000000008a, 0x0000000000000088, 0x0000000080008009, 0x000000008000000a,
    0x000000008000808b, 0x800000000000008b, 0x8000000000008089, 0x8000000000008003,
    0x8000000000008002, 0x8000000000000080, 0x000000000000800a, 0x800000008000000a,
    0x8000000080008081, 0x8000000000008080, 0x0000000080000001, 0x8000000080008008
  ]

  function Rho(l: int): (r: int)
    requires 0 <= l < 25
    ensures 0 <= r < 64
  {
    RHO_OFFSETS[l]
  }

  function RoundConstant(round: int): Lane
    requires 0 <= round < ROUNDS
  {
    BitsOf(ROUND_CONSTANTS[round], 64)
  }

  function ZeroState(): State { seq(25, _ => ZeroLane()) }

  // ----- coordinates -----
  // Lane and bit coordinates wrap modulo 5 and 64; written by cases so that proofs stay linear.

  function ColOf(l: int): (x: int)
    requires 0 <= l < 25
    ensures 0 <= x < 5
  {
    if l < 5 then l else if l < 10 then l - 5 else if l < 15 then l - 10 else if l < 20 then l - 15 else l - 20
  }

  /** (x + 1) mod 5 and (x - 1) mod 5. */
  function NextCol(x: int): (n: int)
    requires 0 <= x < 5
    ensures 0 <= n < 5
  {
    if x == 4 then 0 else x + 1
  }

  function PrevCol(x: int): (n: int)
    requires 0 <= x < 5
    ensures 0 <= n < 5
  {
    if x == 0 then 4 else x - 1
  }

  /** The lane one column to the right in the same row. */
  function RightOf(l: int): (n: int)
    requires 0 <= l < 25
    ensures 0 <= n < 25
  {
    if ColOf(l) == 4 then l - 4 else l + 1
  }

  /** A'[x, y] = A[(x + 3y) mod 5, x]: the lane that pi moves to lane l. */
  function PiSource(l: int): (source: int)
    requires 0 <= l < 25
    ensures 0 <= source < 25
  {
    if l == 0 then 0 else if l == 1 then 6 else if l == 2 then 12 else if l == 3 then 18 else
    if l == 4 then 24 else if l == 5 then 3 else if l == 6 then 9 else if l == 7 then 10 else
    if l == 8 then 16 else if l == 9 then 22 else if l == 10 then 1 else if l == 11 then 7 else
    if l == 12 then 13 else if l == 13 then 19 else if l == 14 then 20 else if l == 15 then 4 else
    if l == 16 then 5 else if l == 17 then 11 else if l == 18 then 17 else if l == 19 then 23 else
    if l == 20 then 2 else if l == 21 then 8 else if l == 22 then 14 else if l == 23 then 15 else 21
  }

  /** The bit that a left rotation by k moves to position z: (z - k) mod 64. */
  function Back(z: int, k: int): (b: int)
    requires 0 <= z < 64 && 0 <= k < 64
    ensures 0 <= b < 64
  {
    if k <= z then z - k else z + 64 - k
  }

  lemma ColOfIsModular(l: int)
    requires 0 <= l < 25
    ensures ColOf(l) == l % 5
  {
  }

  lemma PiSourceIsModular(l: int)
    requires 0 <= l < 25
    ensures PiSource(l) == (l % 5 + 3 * (l / 5)) % 5 + 5 * (l % 5)
  {
  }

  lemma BackIsModular(z: int, k: int)
    requires 0 <= z < 64 && 0 <= k < 64
    ensures Back(z, k) == (z + 64 - k) % 64
  {
  }

  // ----- step mappings -----

  function ColumnParity(a: State, x: int, z: int): bool
    requires 0 <= x < 5 && 0 <= z < 64
  {
    Xor(Xor(Xor(Xor(a[x][z], a[x + 5][z]), a[x + 10][z]), a[x + 15][z]), a[x + 20][z])
  }

  function ThetaBit(a: State, l: int, z: int): bool
    requires 0 <= l < 25 && 0 <= z < 64
  {
    Xor(a[l][z], Xor(ColumnParity(a, PrevCol(ColOf(l)), z), ColumnParity(a, NextCol(ColOf(l)), Back(z, 1))))
  }

  function ThetaLane(a: State, l: int): Lane
    requires 0 <= l < 25
  {
    seq(64, z requires 0 <= z < 64 => ThetaBit(a, l, z))
  }

  function ThetaStep(a: State): State
  {
    seq(25, l requires 0 <= l < 25 => ThetaLane(a, l))
  }

  function RotateLeft(a: Lane, k: int): Lane
    requires 0 <= k < 64
  {
    seq(64, z requires 0 <= z < 64 => a[Back(z, k)])
  }

  function RhoStep(a: State): State
  {
    seq(25, l requires 0 <= l < 25 => RotateLeft(a[l], Rho(l)))
  }

  function PiStep(a: State): State
  {
    seq(25, l requires 0 <= l < 25 => a[PiSource(l)])
  }

  function ChiBit(a: State, l: int, z: int): bool
    requires 0 <= l < 25 && 0 <= z < 64
  {
    Xor(a[l][z], !a[RightOf(l)][z] && a[RightOf(RightOf(l))][z])
  }

  function ChiLane(a: State, l: int): Lane
    requires 0 <= l < 25
  {
    seq(64, z requires 0 <= z < 64 => ChiBit(a, l, z))
  }

  function ChiStep(a: State): State
  {
    seq(25, l requires 0 <= l < 25 => ChiLane(a, l))
  }

  function IotaStep(a: State, constant: Lane): State
  {
    a[0 := XorLane(a[0], constant)]
  }

  function Round(a: State, constant: Lane): State
  {
    IotaStep(ChiStep(PiStep(RhoStep(ThetaStep(a)))), constant)
  }

  function Rounds(a: State, k: nat): State
    requires k <= ROUNDS
  {
    if k == 0 then a else Round(Rounds(a, k - 1), RoundConstant(k - 1))
  }

  function KeccakF(a: State): State { Rounds(a, ROUNDS) }

  // ----- the step mappings in the coordinates of the standard -----

  /** Theta: every bit takes the parities of two columns, C[x - 1, z] and C[x + 1, z - 1]. */
  lemma ThetaInCoordinates(a: State, x: int, y: int, z: int)
    requires 0 <= x < 5 && 0 <= y < 5 && 0 <= z < 64
    ensures ThetaStep(a)[x + 5 * y][z]
         == Xor(Xor(a[x + 5 * y][z], ColumnParity(a, (x + 4) % 5, z)), ColumnParity(a, (x + 1) % 5, (z + 63) % 64))
  {
  }

  /** C[x, z] is the exclusive or of A[x, 0, z] to A[x, 4, z]: false exactly when an even number of them is set. */
  lemma ParityCounts(a: State, x: int, z: int)
    requires 0 <= x < 5 && 0 <= z < 64
    ensures ColumnParity(a, x, z) == (Count(a, x, 0, z) + Count(a, x, 1, z) + Count(a, x, 2, z) + Count(a, x, 3, z) + Count(a, x, 4, z) in {1, 3, 5})
  {
  }

  function Count(a: State, x: int, y: int, z: int): int
    requires 0 <= x < 5 && 0 <= y < 5 && 0 <= z < 64
  {
    if a[x + 5 * y][z] then 1 else 0
  }

  /** Rho and pi: A'[x, y, z] is the bit of lane (x + 3y, x) that a rotation by that lane's offset brings to z. */
  lemma RhoPiInCoordinates(a: State, x: int, y: int, z: int)
    requires 0 <= x < 5 && 0 <= y < 5 && 0 <= z < 64
    ensures var source := (x + 3 * y) % 5 + 5 * x;
            PiStep(RhoStep(a))[x + 5 * y][z] == a[source][(z + 64 - Rho(source)) % 64]
  {
    hide Rho;
    PiSourceIsModular(x + 5 * y);
    BackIsModular(z, Rho((x + 3 * y) % 5 + 5 * x));
  }

  /** Chi: A'[x, y, z] = A[x, y, z] + (A[x + 1, y, z] + 1) A[x + 2, y, z]. */
  lemma ChiInCoordinates(a: State, x: int, y: int, z: int)
    requires 0 <= x < 5 && 0 <= y < 5 && 0 <= z < 64
    ensures ChiStep(a)[x + 5 * y][z]
         == Xor(a[x + 5 * y][z], !a[(x + 1) % 5 + 5 * y][z] && a[(x + 2) % 5 + 5 * y][z])
  {
  }

  // ----- sponge -----

  type Block = b: seq<Lane> | |b| == 17 witness seq(17, _ => ZeroLane())

  function Absorb(a: State, block: Block): State
  {
    seq(25, l requires 0 <= l < 25 => if l < 17 then XorLane(a[l], block[l]) else a[l])
  }

  /** The state after absorbing and permuting every block in order, from the all-zero state. */
  function Sponge(blocks: seq<Block>): State
  {
    if blocks == [] then ZeroState()
    else KeccakF(Absorb(Sponge(blocks[..|blocks| - 1]), blocks[|blocks| - 1]))
  }

  function Digest(a: State): (bytes: seq<Byte>)
    ensures |bytes| == 32
  {
    BytesOfLanes(a[..4])
  }

  /** pad10*1 for the rate: one, the fewest zeros that fill the block, one. */
  function Pad101(length: nat): (pad: seq<bool>)
    ensures |pad| >= 2 && (length + |pad|) % RATE_BITS == 0
  {
    [true] + seq((0 - length - 2) % RATE_BITS, _ => false) + [true]
  }

  function BlocksOfBits(bits: seq<bool>): (blocks: seq<Block>)
    requires |bits| % RATE_BITS == 0
    ensures |blocks| * RATE_BITS == |bits|
  {
    if bits == [] then [] else [LanesOfBits(bits[..RATE_BITS])] + BlocksOfBits(bits[RATE_BITS..])
  }

  /** Keccak-256 with the original multi-rate padding (no SHA-3 suffix). */
  function Keccak256(message: seq<Byte>): (digest: seq<Byte>)
    ensures |digest| == 32
  {
    var bits := BytesToBits(message);
    Digest(Sponge(BlocksOfBits(bits + Pad101(|bits|))))
  }
}
