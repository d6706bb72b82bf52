/**
 The lane-level computations of the prover: one round with its intermediate lanes, the rho/pi source
 search, block absorption and padding, each proved against the FIPS 202 reference.
 */
module KeccakWitness {
  import opened Bits
  import opened KeccakSpec

  /** Every intermediate lane of one round, in the order the trace stores them. */
  datatype RoundWitness = RoundWitness(
    p01: seq<Lane>,
    p23: seq<Lane>,
    p0123: seq<Lane>,
    c: seq<Lane>,
    d: seq<Lane>,
    b: seq<Lane>,
    chi: seq<Lane>,
    base: seq<Lane>,
    next: seq<Lane>)

  function LowPair(a: State, x: int): Lane
    requires 0 <= x < 5
  {
    XorLane(a[x], a[x + 5])
  }

  function HighPair(a: State, x: int): Lane
    requires 0 <= x < 5
  {
    XorLane(a[x + 10], a[x + 15])
  }

  function ParityLane(a: State, x: int): Lane
    requires 0 <= x < 5
  {
    seq(64, z requires 0 <= z < 64 => ColumnParity(a, x, z))
  }

  function EffectLane(a: State, x: int): Lane
    requires 0 <= x < 5
  {
    XorLane(ParityLane(a, PrevCol(x)), RotateLeft(ParityLane(a, NextCol(x)), 1))
  }

  /** Theta, rho and pi together: the input of chi. */
  function Linear(a: State): State { PiStep(RhoStep(ThetaStep(a))) }

  function ChiAuxLane(b: State, l: int): Lane
    requires 0 <= l < 25
  {
    seq(64, z requires 0 <= z < 64 => !b[RightOf(l)][z] && b[RightOf(RightOf(l))][z])
  }

  function LowPairs(a: State): seq<Lane>
  {
    seq(5, x requires 0 <= x < 5 => LowPair(a, x))
  }

  function HighPairs(a: State): seq<Lane>
  {
    seq(5, x requires 0 <= x < 5 => HighPair(a, x))
  }

  function QuadLanes(a: State): seq<Lane>
  {
    seq(5, x requires 0 <= x < 5 => XorLane(LowPair(a, x), HighPair(a, x)))
  }

  function ParityLanes(a: State): seq<Lane>
  {
    seq(5, x requires 0 <= x < 5 => ParityLane(a, x))
  }

  function EffectLanes(a: State): seq<Lane>
  {
    seq(5, x requires 0 <= x < 5 => EffectLane(a, x))
  }

  function ChiAuxLanes(b: State): seq<Lane>
  {
    seq(25, l requires 0 <= l < 25 => ChiAuxLane(b, l))
  }

  /** What one round must produce, each lane in terms of the reference step mappings. */
  function WitnessOf(a: State, constant: Lane): RoundWitness
  {
    var b := Linear(a);
    RoundWitness(LowPairs(a), HighPairs(a), QuadLanes(a), ParityLanes(a), EffectLanes(a),
                 b, ChiAuxLanes(b), ChiStep(b), Round(a, constant))
  }

  /** Where the scatter loop writes the rotated source lane. */
  function PiTarget(l: int): (target: int)
    requires 0 <= l < 25
    ensures 0 <= target < 25
  {
    if l == 0 then 0 else if l == 1 then 10 else if l == 2 then 20 else if l == 3 then 5 else
    if l == 4 then 15 else if l == 5 then 16 else if l == 6 then 1 else if l == 7 then 11 else
    if l == 8 then 21 else if l == 9 then 6 else if l == 10 then 7 else if l == 11 then 17 else
    if l == 12 then 2 else if l == 13 then 12 else if l == 14 then 22 else if l == 15 then 23 else
    if l == 16 then 8 else if l == 17 then 18 else if l == 18 then 3 else if l == 19 then 13 else
    if l == 20 then 14 else if l == 21 then 24 else if l == 22 then 9 else if l == 23 then 19 else 4
  }

  lemma PiTargetIsModular(l: int)
    requires 0 <= l < 25
    ensures PiTarget(l) == l / 5 + 5 * ((2 * (l % 5) + 3 * (l / 5)) % 5)
  {
  }

  lemma PiTargetOfSource(l: int)
    requires 0 <= l < 25
    ensures PiTarget(PiSource(l)) == l && PiSource(PiTarget(l)) == l
  {
  }

  lemma LinearLane(a: State, l: int)
    requires 0 <= l < 25
    ensures Linear(a)[PiTarget(l)] == RotateLeft(XorLane(a[l], EffectLane(a, ColOf(l))), Rho(l))
  {
    PiTargetOfSource(l);
    assert ThetaLane(a, l) == XorLane(a[l], EffectLane(a, ColOf(l)));
  }

  /** The linear search for the source lane of a target lane after rho and pi. */
  method InverseRhoPi(target: int) returns (source: int, rotation: int)
    requires 0 <= target < 25
    ensures source == PiSource(target) && rotation == Rho(PiSource(target))
  {
    PiTargetOfSource(target);
    var lane := 0;
    while lane < 25
      invariant 0 <= lane <= PiSource(target)
    {
      PiTargetIsModular(lane);
      var x, y := lane % 5, lane / 5;
      var mapped := y + 5 * ((2 * x + 3 * y) % 5);
      if mapped == target {
        PiTargetOfSource(lane);
        return lane, RHO_OFFSETS[lane];
      }
      lane := lane + 1;
    }
    assert false;
  }

  method ComputeRound(current: State, round: int) returns (w: RoundWitness)
    requires 0 <= round < ROUNDS
    ensures w == WitnessOf(current, RoundConstant(round))
  {
    var p01, p23, p0123, c := ComputeParities(current);
    var d := ComputeEffect(current, c);
    var b := ScatterRhoPi(current, d);
    var chi, base, next := ComputeChi(b, round);
    w := RoundWitness(p01, p23, p0123, c, d, b, chi, base, next);
  }

  method ComputeEffect(ghost current: State, c: seq<Lane>) returns (d: seq<Lane>)
    requires c == ParityLanes(current)
    ensures d == EffectLanes(current)
  {
    d := [];
    for x := 0 to 5
      invariant |d| == x
      invariant forall i :: 0 <= i < x ==> d[i] == EffectLane(current, i)
    {
      assert (x + 4) % 5 == PrevCol(x) && (x + 1) % 5 == NextCol(x);
      d := d + [XorLane(c[(x + 4) % 5], RotateLeft(c[(x + 1) % 5], 1))];
    }
  }

  method ComputeParities(current: State)
    returns (p01: seq<Lane>, p23: seq<Lane>, p0123: seq<Lane>, c: seq<Lane>)
    ensures p01 == LowPairs(current) && p23 == HighPairs(current)
    ensures p0123 == QuadLanes(current) && c == ParityLanes(current)
  {
    p01, p23, p0123, c := [], [], [], [];
    for x := 0 to 5
      invariant |p01| == |p23| == |p0123| == |c| == x
      invariant forall i :: 0 <= i < x ==> p01[i] == LowPair(current, i)
      invariant forall i :: 0 <= i < x ==> p23[i] == HighPair(current, i)
      invariant forall i :: 0 <= i < x ==> p0123[i] == QuadLanes(current)[i]
      invariant forall i :: 0 <= i < x ==> c[i] == ParityLane(current, i)
    {
      p01 := p01 + [XorLane(current[x], current[x + 5])];
      p23 := p23 + [XorLane(current[x + 10], current[x + 15])];
      p0123 := p0123 + [XorLane(p01[x], p23[x])];
      c := c + [XorLane(p0123[x], current[x + 20])];
      assert c[x] == ParityLane(current, x);
    }
  }

  /** The scatter loop: each source lane is rotated and written to its target. */
  method ScatterRhoPi(current: State, d: seq<Lane>) returns (b: State)
    requires d == EffectLanes(current)
    ensures b == Linear(current)
  {
    hide PiTarget, PiSource, Rho, RotateLeft, XorLane, Linear;
    ghost var linear := Linear(current);
    b := ZeroState();
    for source := 0 to 25
      invariant forall i :: 0 <= i < source ==> b[PiTarget(i)] == linear[PiTarget(i)]
    {
      ScatterStep(current, source);
      var x, y := source % 5, source / 5;
      var target := y + 5 * ((2 * x + 3 * y) % 5);
      b := b[target := RotateLeft(XorLane(current[source], d[x]), Rho(source))];
    }
    forall l | 0 <= l < 25
      ensures b[l] == linear[l]
    {
      PiTargetOfSource(l);
    }
  }

  lemma ScatterStep(a: State, source: int)
    requires 0 <= source < 25
    ensures PiTarget(source) == source / 5 + 5 * ((2 * (source % 5) + 3 * (source / 5)) % 5)
    ensures RotateLeft(XorLane(a[source], EffectLanes(a)[source % 5]), Rho(source)) == Linear(a)[PiTarget(source)]
    ensures forall i :: 0 <= i < source ==> PiTarget(i) != PiTarget(source)
  {
    PiTargetIsModular(source);
    ColOfIsModular(source);
    LinearLane(a, source);
    PiTargetOfSource(source);
    forall i | 0 <= i < source
      ensures PiTarget(i) != PiTarget(source)
    {
      PiTargetOfSource(i);
    }
  }

  /** The nested chi loop and the final round-constant xor. */
  method ComputeChi(b: State, round: int) returns (chi: seq<Lane>, base: seq<Lane>, next: seq<Lane>)
    requires 0 <= round < ROUNDS
    ensures chi == ChiAuxLanes(b)
    ensures base == ChiStep(b)
    ensures next == IotaStep(ChiStep(b), RoundConstant(round))
  {
    chi, base, next := [], [], [];
    for y := 0 to 5
      invariant |chi| == |base| == |next| == 5 * y
      invariant forall l :: 0 <= l < 5 * y ==> chi[l] == ChiAuxLane(b, l)
      invariant forall l :: 0 <= l < 5 * y ==> base[l] == next[l] == ChiLane(b, l)
    {
      for x := 0 to 5
        invariant |chi| == |base| == |next| == 5 * y + x
        invariant forall l :: 0 <= l < 5 * y + x ==> chi[l] == ChiAuxLane(b, l)
        invariant forall l :: 0 <= l < 5 * y + x ==> base[l] == next[l] == ChiLane(b, l)
      {
        var lane := x + 5 * y;
        ChiLaneAt(b, x, y);
        chi := chi + [AndNotLane(b[(x + 1) % 5 + 5 * y], b[(x + 2) % 5 + 5 * y])];
        base := base + [XorLane(b[lane], chi[lane])];
        next := next + [base[lane]];
      }
    }
    next := next[0 := XorLane(next[0], RoundConstant(round))];
  }

  lemma ChiLaneAt(b: State, x: int, y: int)
    requires 0 <= x < 5 && 0 <= y < 5
    ensures AndNotLane(b[(x + 1) % 5 + 5 * y], b[(x + 2) % 5 + 5 * y]) == ChiAuxLane(b, x + 5 * y)
    ensures XorLane(b[x + 5 * y], ChiAuxLane(b, x + 5 * y)) == ChiLane(b, x + 5 * y)
  {
    assert RightOf(x + 5 * y) == (x + 1) % 5 + 5 * y;
    assert RightOf(RightOf(x + 5 * y)) == (x + 2) % 5 + 5 * y;
  }

  /** (!a) & b, bit by bit. */
  function AndNotLane(a: Lane, b: Lane): Lane
  {
    seq(64, z requires 0 <= z < 64 => !a[z] && b[z])
  }

  // ----- blocks -----

  type RateBlock = b: seq<Byte> | |b| == 136 witness seq(136, _ => 0)

  function LanesOfBlock(block: RateBlock): Block { LanesOfBytes(block) }

  method AbsorbBlock(state: State, block: RateBlock) returns (absorbed: State)
    ensures absorbed == Absorb(state, LanesOfBlock(block))
  {
    absorbed := state;
    for lane := 0 to RATE_LANES
      invariant |absorbed| == 25
      invariant forall l :: 0 <= l < lane ==> absorbed[l] == XorLane(state[l], LanesOfBlock(block)[l])
      invariant forall l :: lane <= l < 25 ==> absorbed[l] == state[l]
    {
      var laneBytes := block[8 * lane..8 * (lane + 1)];
      LanesOfBytesSlice(block, lane, lane + 1);
      absorbed := absorbed[lane := XorLane(absorbed[lane], LanesOfBytes(laneBytes)[0])];
    }
  }
}
