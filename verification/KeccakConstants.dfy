/**
 The round constants and rotation offsets of Keccak-f against the rules of FIPS 202 that generate them:
 the shift register of section 3.2.5 and the lane walk of section 3.2.2. Neither rule reads the tables.
 */
module KeccakConstants {
  import opened Bits
  import opened KeccakSpec

  /** The eight bits R[0] to R[7] of algorithm 5. */
  datatype Register = Register(r0: bool, r1: bool, r2: bool, r3: bool, r4: bool, r5: bool, r6: bool, r7: bool)

  /** One shift, with the bit that falls out fed back into R[0], R[4], R[5] and R[6]. */
  function Shift(r: Register): Register
  {
    Register(r.r7, r.r0, r.r1, r.r2, Xor(r.r3, r.r7), Xor(r.r4, r.r7), Xor(r.r5, r.r7), r.r6)
  }

  function After(t: nat): Register
  {
    if t == 0 then Register(true, false, false, false, false, false, false, false) else Shift(After(t - 1))
  }

  /** rc(t). */
  function RoundBit(t: nat): bool { After(t % 255).r0 }

  /** The constant of a round: rc(j + 7 round) at bit 2^j - 1 for j up to 6, and zero elsewhere. */
  function GeneratedConstant(round: nat): Lane
  {
    seq(64, z requires 0 <= z < 64 =>
      if z == 0 then RoundBit(7 * round) else if z == 1 then RoundBit(7 * round + 1)
      else if z == 3 then RoundBit(7 * round + 2) else if z == 7 then RoundBit(7 * round + 3)
      else if z == 15 then RoundBit(7 * round + 4) else if z == 31 then RoundBit(7 * round + 5)
      else if z == 63 then RoundBit(7 * round + 6) else false)
  }

  // ----- seven shifts give a round's constant -----

  function ShiftSeven(r: Register): Register { Shift(Shift(Shift(Shift(Shift(Shift(Shift(r))))))) }

  function Bit(b: bool): nat { if b then 1 else 0 }

  /** The bits that come out of seven shifts. */
  datatype Seven = Seven(c0: bool, c1: bool, c2: bool, c3: bool, c4: bool, c5: bool, c6: bool)

  function Output(r: Register): Seven
  {
    var r1 := Shift(r);
    var r2 := Shift(r1);
    var r3 := Shift(r2);
    var r4 := Shift(r3);
    var r5 := Shift(r4);
    Seven(r.r0, r1.r0, r2.r0, r3.r0, r4.r0, r5.r0, Shift(r5).r0)
  }

  /** The bits at the weights of their positions. */
  function Weighed(c: Seven): nat
  {
    Bit(c.c0) + 0x2 * Bit(c.c1) + 0x8 * Bit(c.c2) + 0x80 * Bit(c.c3) + 0x8000 * Bit(c.c4)
    + 0x8000_0000 * Bit(c.c5) + 0x8000_0000_0000_0000 * Bit(c.c6)
  }

  lemma SevenShifts(t: nat)
    ensures After(t + 7) == ShiftSeven(After(t))
  {
    hide Shift, After;
    SevenRegisters(t);
  }

  /** One round: the register seven shifts on, and the constant as the weighed bits that came out. */
  lemma OneRound(round: nat, held: Register, bits: Seven, constant: nat, next: Register)
    requires After(7 * round) == held
    requires ShiftSeven(held) == next && Output(held) == bits && Weighed(bits) == constant
    ensures After(7 * (round + 1)) == next && Weighed(Output(After(7 * round))) == constant
  {
    hide ShiftSeven, Weighed, Output, After;
    SevenShifts(7 * round);
    assert 7 * (round + 1) == 7 * round + 7;
  }

  lemma Rounds0To5()
    ensures After(7 * 6) == Register(true, false, true, false, true, true, false, false)
    ensures Weighed(Output(After(7 * 0))) == 0x1 && Weighed(Output(After(7 * 1))) == 0x8082
    ensures Weighed(Output(After(7 * 2))) == 0x800000000000808a && Weighed(Output(After(7 * 3))) == 0x8000000080008000
    ensures Weighed(Output(After(7 * 4))) == 0x808b && Weighed(Output(After(7 * 5))) == 0x80000001
  {
    assert After(7 * 0) == Register(true, false, false, false, false, false, false, false);
    hide After;
    OneRound(0, Register(true, false, false, false, false, false, false, false), Seven(true, false, false, false, false, false, false),
             0x1, Register(false, false, false, false, false, false, false, true));
    OneRound(1, Register(false, false, false, false, false, false, false, true), Seven(false, true, false, true, true, false, false),
             0x8082, Register(false, false, false, true, true, false, true, true));
    OneRound(2, Register(false, false, false, true, true, false, true, true), Seven(false, true, true, true, true, false, true),
             0x800000000000808a, Register(false, true, false, true, true, false, false, false));
    OneRound(3, Register(false, true, false, true, true, false, false, false), Seven(false, false, false, false, true, true, true),
             0x8000000080008000, Register(true, true, true, true, true, false, true, true));
    OneRound(4, Register(true, true, true, true, true, false, true, true), Seven(true, true, true, true, true, false, false),
             0x808b, Register(true, false, false, true, false, false, false, false));
    OneRound(5, Register(true, false, false, true, false, false, false, false), Seven(true, false, false, false, false, true, false),
             0x80000001, Register(true, false, true, false, true, true, false, false));
  }

  lemma Rounds6To11()
    requires After(7 * 6) == Register(true, false, true, false, true, true, false, false)
    ensures After(7 * 12) == Register(true, false, true, false, true, false, true, true)
    ensures Weighed(Output(After(7 * 6))) == 0x8000000080008081 && Weighed(Output(After(7 * 7))) == 0x8000000000008009
    ensures Weighed(Output(After(7 * 8))) == 0x8a && Weighed(Output(After(7 * 9))) == 0x88
    ensures Weighed(Output(After(7 * 10))) == 0x80008009 && Weighed(Output(After(7 * 11))) == 0x8000000a
  {
    hide After;
    OneRound(6, Register(true, false, true, false, true, true, false, false), Seven(true, false, false, true, true, true, true),
             0x8000000080008081, Register(true, true, true, true, false, false, true, false));
    OneRound(7, Register(true, true, true, true, false, false, true, false), Seven(true, false, true, false, true, false, true),
             0x8000000000008009, Register(false, true, false, true, false, false, true, true));
    OneRound(8, Register(false, true, false, true, false, false, true, true), Seven(false, true, true, true, false, false, false),
             0x8a, Register(false, false, false, false, true, true, true, false));
    OneRound(9, Register(false, false, false, false, true, true, true, false), Seven(false, false, true, true, false, false, false),
             0x88, Register(true, false, false, false, false, false, true, false));
    OneRound(10, Register(true, false, false, false, false, false, true, false), Seven(true, false, true, false, true, true, false),
             0x80008009, Register(false, false, true, true, false, true, true, true));
    OneRound(11, Register(false, false, true, true, false, true, true, true), Seven(false, true, true, false, false, true, false),
             0x8000000a, Register(true, false, true, false, true, false, true, true));
  }

  lemma Rounds12To17()
    requires After(7 * 12) == Register(true, false, true, false, true, false, true, true)
    ensures After(7 * 18) == Register(false, true, false, false, true, true, true, true)
    ensures Weighed(Output(After(7 * 12))) == 0x8000808b && Weighed(Output(After(7 * 13))) == 0x800000000000008b
    ensures Weighed(Output(After(7 * 14))) == 0x8000000000008089 && Weighed(Output(After(7 * 15))) == 0x8000000000008003
    ensures Weighed(Output(After(7 * 16))) == 0x8000000000008002 && Weighed(Output(After(7 * 17))) == 0x8000000000000080
  {
    hide After;
    OneRound(12, Register(true, false, true, false, true, false, true, true), Seven(true, true, true, true, true, true, false),
             0x8000808b, Register(true, false, true, true, false, false, true, true));
    OneRound(13, Register(true, false, true, true, false, false, true, true), Seven(true, true, true, true, false, false, true),
             0x800000000000008b, Register(true, true, false, false, false, true, true, false));
    OneRound(14, Register(true, true, false, false, false, true, true, false), Seven(true, false, true, true, true, false, true),
             0x8000000000008089, Register(true, true, false, true, false, true, false, true));
    OneRound(15, Register(true, true, false, true, false, true, false, true), Seven(true, true, false, false, true, false, true),
             0x8000000000008003, Register(false, true, false, true, false, true, false, true));
    OneRound(16, Register(false, true, false, true, false, true, false, true), Seven(false, true, false, false, true, false, true),
             0x8000000000008002, Register(false, true, false, true, false, true, false, false));
    OneRound(17, Register(false, true, false, true, false, true, false, false), Seven(false, false, false, true, false, false, true),
             0x8000000000000080, Register(false, true, false, false, true, true, true, true));
  }

  lemma Rounds18To23()
    requires After(7 * 18) == Register(false, true, false, false, true, true, true, true)
    ensures After(7 * 24) == Register(false, true, true, true, false, false, false, true)
    ensures Weighed(Output(After(7 * 18))) == 0x800a && Weighed(Output(After(7 * 19))) == 0x800000008000000a
    ensures Weighed(Output(After(7 * 20))) == 0x8000000080008081 && Weighed(Output(After(7 * 21))) == 0x8000000000008080
    ensures Weighed(Output(After(7 * 22))) == 0x80000001 && Weighed(Output(After(7 * 23))) == 0x8000000080008008
  {
    hide After;
    OneRound(18, Register(false, true, false, false, true, true, true, true), Seven(false, true, true, false, true, false, false),
             0x800a, Register(false, false, false, true, false, true, true, true));
    OneRound(19, Register(false, false, false, true, false, true, true, true), Seven(false, true, true, false, false, true, true),
             0x800000008000000a, Register(true, true, true, false, true, true, false, false));
    OneRound(20, Register(true, true, true, false, true, true, false, false), Seven(true, false, false, true, true, true, true),
             0x8000000080008081, Register(false, true, true, true, true, true, false, false));
    OneRound(21, Register(false, true, true, true, true, true, false, false), Seven(false, false, false, true, true, false, true),
             0x8000000000008080, Register(true, true, false, true, false, false, false, false));
    OneRound(22, Register(true, true, false, true, false, false, false, false), Seven(true, false, false, false, false, true, false),
             0x80000001, Register(false, false, true, false, false, false, true, false));
    OneRound(23, Register(false, false, true, false, false, false, true, false), Seven(false, false, true, false, true, true, true),
             0x8000000080008008, Register(false, true, true, true, false, false, false, true));
  }

  lemma EveryRound(round: nat)
    requires round < ROUNDS
    ensures Weighed(Output(After(7 * round))) == ROUND_CONSTANTS[round]
  {
    hide After, Output, Weighed;
    Rounds0To5();
    Rounds6To11();
    Rounds12To17();
    Rounds18To23();
  }

  // ----- the weights as bit positions -----

  lemma {:induction false} SkipZeros(bits: seq<bool>, n: nat)
    requires n <= |bits| && forall i :: 0 <= i < n ==> !bits[i]
    ensures LittleEndian(bits) == Pow2(n) * LittleEndian(bits[n..])
  {
    if n == 0 {
      assert bits[0..] == bits;
    } else {
      var rest := LittleEndian(bits[n..]);
      SkipZeros(bits[1..], n - 1);
      assert bits[1..][n - 1..] == bits[n..];
      assert 2 * (Pow2(n - 1) * rest) == (2 * Pow2(n - 1)) * rest;
    }
  }

  function From(bits: seq<bool>, k: nat): nat
    requires k <= |bits|
  {
    LittleEndian(bits[k..])
  }

  lemma OneBit(bits: seq<bool>, k: nat)
    requires k < |bits|
    ensures From(bits, k) == Bit(bits[k]) + 2 * From(bits, k + 1)
  {
    assert bits[k..][0] == bits[k] && bits[k..][1..] == bits[k + 1..];
  }

  lemma Gap(bits: seq<bool>, k: nat, n: nat)
    requires k + n <= |bits| && forall i :: k <= i < k + n ==> !bits[i]
    ensures From(bits, k) == Pow2(n) * From(bits, k + n)
  {
    SkipZeros(bits[k..], n);
    assert bits[k..][n..] == bits[k + n..];
  }

  /** A bit followed by n zeros. */
  lemma BitThenGap(bits: seq<bool>, k: nat, n: nat, scale: nat)
    requires k + 1 + n <= |bits| && scale == Pow2(n) && forall i :: k < i < k + 1 + n ==> !bits[i]
    ensures From(bits, k) == Bit(bits[k]) + 2 * (scale * From(bits, k + 1 + n))
  {
    hide From, Bit, Pow2;
    OneBit(bits, k);
    Gap(bits, k + 1, n);
  }

  lemma Powers()
    ensures Pow2(0) == 1 && Pow2(1) == 2 && Pow2(3) == 8 && Pow2(7) == 0x80 && Pow2(15) == 0x8000 && Pow2(31) == 0x8000_0000
  {
    assert Pow2(11) == 0x800 && Pow2(19) == 0x8_0000 && Pow2(23) == 0x80_0000 && Pow2(27) == 0x800_0000;
  }

  /** The positions 2^j - 1 of a lane. */
  predicate Marked(z: int) { z == 0 || z == 1 || z == 3 || z == 7 || z == 15 || z == 31 || z == 63 }

  ghost predicate Sparse(lane: Lane)
  {
    forall z :: 0 <= z < 64 && !Marked(z) ==> !lane[z]
  }

  lemma SparseLow(lane: Lane)
    requires Sparse(lane)
    ensures From(lane, 0) == Bit(lane[0]) + 2 * From(lane, 1)
    ensures From(lane, 1) == Bit(lane[1]) + 4 * From(lane, 3)
    ensures From(lane, 3) == Bit(lane[3]) + 0x10 * From(lane, 7)
  {
    Powers();
    hide From, Pow2, Bit;
    BitThenGap(lane, 0, 0, 1);
    BitThenGap(lane, 1, 1, 2);
    BitThenGap(lane, 3, 3, 8);
  }

  lemma SparseHigh(lane: Lane)
    requires Sparse(lane)
    ensures From(lane, 7) == Bit(lane[7]) + 0x100 * From(lane, 15)
    ensures From(lane, 15) == Bit(lane[15]) + 0x1_0000 * From(lane, 31)
    ensures From(lane, 31) == Bit(lane[31]) + 0x1_0000_0000 * From(lane, 63)
  {
    Powers();
    hide From, Pow2, Bit;
    BitThenGap(lane, 7, 7, 0x80);
    BitThenGap(lane, 15, 15, 0x8000);
    BitThenGap(lane, 31, 31, 0x8000_0000);
  }

  function Picked(lane: Lane): Seven
  {
    Seven(lane[0], lane[1], lane[3], lane[7], lane[15], lane[31], lane[63])
  }

  lemma PickedBits(lane: Lane)
    ensures var c := Picked(lane);
            && Bit(c.c0) == Bit(lane[0]) && Bit(c.c1) == Bit(lane[1]) && Bit(c.c2) == Bit(lane[3]) && Bit(c.c3) == Bit(lane[7])
            && Bit(c.c4) == Bit(lane[15]) && Bit(c.c5) == Bit(lane[31]) && Bit(c.c6) == Bit(lane[63])
  {
  }

  lemma SparseValue(lane: Lane)
    requires Sparse(lane)
    ensures LittleEndian(lane) == Weighed(Picked(lane))
  {
    hide From, Bit, Sparse, LittleEndian, Pow2, Picked;
    Ends(lane);
    SparseLow(lane);
    SparseHigh(lane);
    PickedBits(lane);
  }

  lemma Ends(lane: Lane)
    ensures LittleEndian(lane) == From(lane, 0) && From(lane, 63) == Bit(lane[63])
  {
    OneBit(lane, 63);
    assert lane[0..] == lane && lane[64..] == [];
  }

  lemma {:induction false} SevenBits(t: nat)
    requires t + 6 < 255
    ensures RoundBit(t) == After(t).r0 && RoundBit(t + 1) == After(t + 1).r0 && RoundBit(t + 2) == After(t + 2).r0
    ensures RoundBit(t + 3) == After(t + 3).r0 && RoundBit(t + 4) == After(t + 4).r0
    ensures RoundBit(t + 5) == After(t + 5).r0 && RoundBit(t + 6) == After(t + 6).r0
  {
    hide After;
  }

  lemma {:induction false} SevenRegisters(t: nat)
    ensures After(t + 1) == Shift(After(t)) && After(t + 2) == Shift(After(t + 1)) && After(t + 3) == Shift(After(t + 2))
    ensures After(t + 4) == Shift(After(t + 3)) && After(t + 5) == Shift(After(t + 4)) && After(t + 6) == Shift(After(t + 5))
    ensures After(t + 7) == Shift(After(t + 6))
  {
    hide Shift;
  }

  lemma GeneratedValue(round: nat)
    requires round < ROUNDS
    ensures LittleEndian(GeneratedConstant(round)) == Weighed(Output(After(7 * round)))
  {
    hide LittleEndian, After, Shift, RoundBit, Weighed;
    SevenBits(7 * round);
    SevenRegisters(7 * round);
    SparseValue(GeneratedConstant(round));
  }

  /** Every round constant is the one that the shift register generates: bit 2^j - 1 is rc(j + 7 round). */
  lemma RoundConstantGenerated(round: nat)
    requires round < ROUNDS
    ensures RoundConstant(round) == GeneratedConstant(round)
  {
    hide Weighed, After, Output, GeneratedConstant, LittleEndian, BitsOf, ROUND_CONSTANTS;
    EveryRound(round);
    GeneratedValue(round);
    BitsOfLittleEndian(GeneratedConstant(round));
  }

  // ----- rotation offsets -----

  /** Step t of the lane walk of section 3.2.2: from (1, 0), each (x, y) is followed by (y, 2x + 3y). */
  function Walk(t: nat): (at: (nat, nat))
    ensures at.0 < 5 && at.1 < 5
  {
    if t == 0 then (1, 0) else (Walk(t - 1).1, (2 * Walk(t - 1).0 + 3 * Walk(t - 1).1) % 5)
  }

  function WalkLane(t: nat): (l: nat)
    ensures l < 25
  {
    Walk(t).0 + 5 * Walk(t).1
  }

  lemma WalkOnce(t: nat, x: nat, y: nat)
    requires Walk(t) == (x, y)
    ensures Walk(t + 1) == (y, (2 * x + 3 * y) % 5)
  {
  }

  function Triangle(t: nat): nat { (t + 1) * (t + 2) / 2 % 64 }

  lemma Triangles()
    ensures Triangle(0) == 1 && Triangle(1) == 3 && Triangle(2) == 6 && Triangle(3) == 10 && Triangle(4) == 15 && Triangle(5) == 21
    ensures Triangle(6) == 28 && Triangle(7) == 36 && Triangle(8) == 45 && Triangle(9) == 55 && Triangle(10) == 2 && Triangle(11) == 14
    ensures Triangle(12) == 27 && Triangle(13) == 41 && Triangle(14) == 56 && Triangle(15) == 8 && Triangle(16) == 25 && Triangle(17) == 43
    ensures Triangle(18) == 62 && Triangle(19) == 18 && Triangle(20) == 39 && Triangle(21) == 61 && Triangle(22) == 20 && Triangle(23) == 44
  {
  }

  lemma Walk0To7()
    ensures Walk(8) == (1, 3)
    ensures WalkLane(0) == 1 && WalkLane(1) == 10 && WalkLane(2) == 7 && WalkLane(3) == 11
    ensures WalkLane(4) == 17 && WalkLane(5) == 18 && WalkLane(6) == 3 && WalkLane(7) == 5
  {
    assert Walk(0) == (1, 0);
    hide Walk;
    WalkOnce(0, 1, 0);
    WalkOnce(1, 0, 2);
    WalkOnce(2, 2, 1);
    WalkOnce(3, 1, 2);
    WalkOnce(4, 2, 3);
    WalkOnce(5, 3, 3);
    WalkOnce(6, 3, 0);
    WalkOnce(7, 0, 1);
  }

  lemma Walk8To15()
    requires Walk(8) == (1, 3)
    ensures Walk(16) == (3, 2)
    ensures WalkLane(8) == 16 && WalkLane(9) == 8 && WalkLane(10) == 21 && WalkLane(11) == 24
    ensures WalkLane(12) == 4 && WalkLane(13) == 15 && WalkLane(14) == 23 && WalkLane(15) == 19
  {
    hide Walk;
    WalkOnce(8, 1, 3);
    WalkOnce(9, 3, 1);
    WalkOnce(10, 1, 4);
    WalkOnce(11, 4, 4);
    WalkOnce(12, 4, 0);
    WalkOnce(13, 0, 3);
    WalkOnce(14, 3, 4);
    WalkOnce(15, 4, 3);
  }

  lemma Walk16To23()
    requires Walk(16) == (3, 2)
    ensures Walk(24) == (1, 0)
    ensures WalkLane(16) == 13 && WalkLane(17) == 12 && WalkLane(18) == 2 && WalkLane(19) == 20
    ensures WalkLane(20) == 14 && WalkLane(21) == 22 && WalkLane(22) == 9 && WalkLane(23) == 6
  {
    hide Walk;
    WalkOnce(16, 3, 2);
    WalkOnce(17, 2, 2);
    WalkOnce(18, 2, 0);
    WalkOnce(19, 0, 4);
    WalkOnce(20, 4, 2);
    WalkOnce(21, 2, 4);
    WalkOnce(22, 4, 1);
    WalkOnce(23, 1, 1);
  }

  /** Along the walk the offset at step t is the triangular number of t + 1, modulo 64. */
  lemma RhoAlongWalk(t: nat)
    requires t < 24
    ensures Rho(WalkLane(t)) == Triangle(t)
  {
    hide Triangle, Walk, WalkLane;
    Walk0To7();
    Walk8To15();
    Walk16To23();
    Triangles();
  }

  /** The walk meets every lane but lane 0, whose offset is zero. */
  lemma WalkMeetsAll(l: nat)
    requires l < 25
    ensures Rho(0) == 0
    ensures l > 0 ==> exists t: nat :: t < 24 && WalkLane(t) == l
  {
    hide WalkLane;
    Walk0To7();
    Walk8To15();
    Walk16To23();
  }
}
