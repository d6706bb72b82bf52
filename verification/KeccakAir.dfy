/**
 The polynomial constraints of one Keccak round row. Cell [lane][z] of a group stands for trace column
 64 * lane + z of that group. The main result is RoundExact: on a boolean state the round constraints
 have exactly one solution, the bits of the round witness.
 */
module KeccakAir {
  import opened Bits
  import opened KeccakSpec
  import opened KeccakWitness
  import opened PrimeField

  type Cells = seq<seq<int>>

  datatype Row = Row(
    state: Cells,
    p01: Cells,
    p23: Cells,
    p0123: Cells,
    c: Cells,
    d: Cells,
    b: Cells,
    chi: Cells,
    base: Cells,
    expected: Cells)

  /** n groups of 64 canonical field elements. */
  ghost predicate Canonical(p: int, m: Cells, n: int)
  {
    |m| == n && forall l :: 0 <= l < n ==> |m[l]| == 64 && forall z :: 0 <= z < 64 ==> 0 <= m[l][z] < p
  }

  ghost predicate CanonicalRow(p: int, row: Row)
  {
    && Canonical(p, row.state, 25)
    && Canonical(p, row.p01, 5) && Canonical(p, row.p23, 5) && Canonical(p, row.p0123, 5)
    && Canonical(p, row.c, 5) && Canonical(p, row.d, 5)
    && Canonical(p, row.b, 25) && Canonical(p, row.chi, 25)
    && Canonical(p, row.base, 25) && Canonical(p, row.expected, 25)
  }

  function BitCell(bit: bool): int { if bit then 1 else 0 }

  function LaneCells(lane: Lane): (cells: seq<int>)
    ensures |cells| == 64
  {
    seq(64, z requires 0 <= z < 64 => BitCell(lane[z]))
  }

  /** The cells m spell out the bits of these lanes. */
  ghost predicate Holds(m: Cells, lanes: seq<Lane>)
  {
    |m| == |lanes| && forall l :: 0 <= l < |lanes| ==> HoldsLane(m[l], lanes[l])
  }

  ghost predicate HoldsLane(cells: seq<int>, lane: Lane)
  {
    |cells| == 64 && forall z :: 0 <= z < 64 ==> cells[z] == BitCell(lane[z])
  }

  function XorExpr(a: int, b: int): int { a + b - a * b * 2 }

  lemma XorBits(u: bool, v: bool)
    ensures XorExpr(BitCell(u), BitCell(v)) == BitCell(Xor(u, v))
  {
  }

  /** selector * (cell - expression), the form of every round constraint. */
  function Gated(selector: int, cell: int, expr: int): int { selector * (cell - expr) }

  /** Sum of selector * (cell - value) over the first k block starts, the form of the absorb constraints. */
  function SelectedSum(starts: seq<int>, cell: int, values: seq<int>, k: nat): int
    requires k <= |starts| == |values|
  {
    if k == 0 then 0
    else SelectedSum(starts, cell, values, k - 1) + Gated(starts[k - 1], cell, values[k - 1])
  }

  lemma {:induction false} SelectedNone(starts: seq<int>, cell: int, values: seq<int>, k: nat)
    requires k <= |starts| == |values| && forall i :: 0 <= i < k ==> starts[i] == 0
    ensures SelectedSum(starts, cell, values, k) == 0
  {
    if k > 0 { SelectedNone(starts, cell, values, k - 1); }
  }

  lemma {:induction false} SelectedOne(starts: seq<int>, cell: int, values: seq<int>, m: nat, k: nat)
    requires m < k <= |starts| == |values|
    requires forall i :: 0 <= i < k ==> starts[i] == if i == m then 1 else 0
    ensures SelectedSum(starts, cell, values, k) == Gated(1, cell, values[m])
  {
    if k - 1 == m {
      SelectedNone(starts, cell, values, k - 1);
    } else {
      SelectedOne(starts, cell, values, m, k - 1);
    }
  }

  // ----- constraint families -----

  ghost predicate BooleanC(p: int, m: Cells, n: int)
    requires p > 1 && Canonical(p, m, n)
  {
    forall l, z :: 0 <= l < n && 0 <= z < 64 ==> Vanishes(p, m[l][z] * (m[l][z] - 1))
  }

  ghost predicate P01C(p: int, active: int, row: Row)
    requires p > 1 && CanonicalRow(p, row)
  {
    forall x, z :: 0 <= x < 5 && 0 <= z < 64 ==>
      Vanishes(p, Gated(active, row.p01[x][z], XorExpr(row.state[x][z], row.state[x + 5][z])))
  }

  ghost predicate P23C(p: int, active: int, row: Row)
    requires p > 1 && CanonicalRow(p, row)
  {
    forall x, z :: 0 <= x < 5 && 0 <= z < 64 ==>
      Vanishes(p, Gated(active, row.p23[x][z], XorExpr(row.state[x + 10][z], row.state[x + 15][z])))
  }

  ghost predicate P0123C(p: int, active: int, row: Row)
    requires p > 1 && CanonicalRow(p, row)
  {
    forall x, z :: 0 <= x < 5 && 0 <= z < 64 ==>
      Vanishes(p, Gated(active, row.p0123[x][z], XorExpr(row.p01[x][z], row.p23[x][z])))
  }

  ghost predicate ParityC(p: int, active: int, row: Row)
    requires p > 1 && CanonicalRow(p, row)
  {
    forall x, z :: 0 <= x < 5 && 0 <= z < 64 ==>
      Vanishes(p, Gated(active, row.c[x][z], XorExpr(row.p0123[x][z], row.state[x + 20][z])))
  }

  ghost predicate EffectC(p: int, active: int, row: Row)
    requires p > 1 && CanonicalRow(p, row)
  {
    forall x, z :: 0 <= x < 5 && 0 <= z < 64 ==>
      Vanishes(p, Gated(active, row.d[x][z], XorExpr(row.c[PrevCol(x)][z], row.c[NextCol(x)][Back(z, 1)])))
  }

  ghost predicate RhoPiC(p: int, active: int, row: Row)
    requires p > 1 && CanonicalRow(p, row)
  {
    forall l, z :: 0 <= l < 25 && 0 <= z < 64 ==>
      var source := PiSource(l);
      var from := Back(z, Rho(source));
      Vanishes(p, Gated(active, row.b[l][z], XorExpr(row.state[source][from], row.d[ColOf(source)][from])))
  }

  ghost predicate ChiC(p: int, active: int, row: Row)
    requires p > 1 && CanonicalRow(p, row)
  {
    forall l, z :: 0 <= l < 25 && 0 <= z < 64 ==>
      Vanishes(p, Gated(active, row.chi[l][z], (1 - row.b[RightOf(l)][z]) * row.b[RightOf(RightOf(l))][z]))
  }

  ghost predicate BaseC(p: int, active: int, row: Row)
    requires p > 1 && CanonicalRow(p, row)
  {
    forall l, z :: 0 <= l < 25 && 0 <= z < 64 ==>
      Vanishes(p, Gated(active, row.base[l][z], XorExpr(row.b[l][z], row.chi[l][z])))
  }

  function WithConstant(l: int, base: int, rc: int): int
  {
    if l == 0 then XorExpr(base, rc) else base
  }

  ghost predicate ExpectedC(p: int, active: int, rc: seq<int>, row: Row)
    requires p > 1 && CanonicalRow(p, row) && |rc| == 64
  {
    forall l, z :: 0 <= l < 25 && 0 <= z < 64 ==>
      Vanishes(p, Gated(active, row.expected[l][z], WithConstant(l, row.base[l][z], rc[z])))
  }

  ghost predicate LinkC(p: int, active: int, row: Row, next: Cells)
    requires p > 1 && CanonicalRow(p, row) && Canonical(p, next, 25)
  {
    forall l, z :: 0 <= l < 25 && 0 <= z < 64 ==>
      Vanishes(p, Gated(active, next[l][z], row.expected[l][z]))
  }

  /** Every constraint gated by the round selector, for a row and the state of its successor. */
  ghost predicate RoundC(p: int, active: int, rc: seq<int>, row: Row, next: Cells)
    requires p > 1 && CanonicalRow(p, row) && Canonical(p, next, 25) && |rc| == 64
  {
    && P01C(p, active, row) && P23C(p, active, row) && P0123C(p, active, row)
    && ParityC(p, active, row) && EffectC(p, active, row) && RhoPiC(p, active, row)
    && ChiC(p, active, row) && BaseC(p, active, row)
    && ExpectedC(p, active, rc, row) && LinkC(p, active, row, next)
  }

  /** The row stores the round witness. */
  ghost predicate RowHolds(row: Row, w: RoundWitness)
  {
    && Holds(row.p01, w.p01) && Holds(row.p23, w.p23) && Holds(row.p0123, w.p0123)
    && Holds(row.c, w.c) && Holds(row.d, w.d) && Holds(row.b, w.b)
    && Holds(row.chi, w.chi) && Holds(row.base, w.base) && Holds(row.expected, w.next)
  }

  // ----- one cell -----

  /** With the selector on, a gated constraint pins its cell to the expression's bit. */
  lemma Pin(p: int, cell: int, bit: bool)
    requires p > 1 && 0 <= cell < p
    ensures Vanishes(p, Gated(1, cell, BitCell(bit))) <==> cell == BitCell(bit)
  {
    DifferenceVanishes(p, cell, BitCell(bit));
  }

  lemma GatedOff(p: int, cell: int, expr: int)
    requires p > 1
    ensures Vanishes(p, Gated(0, cell, expr))
  {
  }

  // ----- each family pins its group -----

  lemma P01Exact(p: int, row: Row, s: State)
    requires p > 1 && CanonicalRow(p, row) && Holds(row.state, s)
    ensures P01C(p, 1, row) <==> Holds(row.p01, LowPairs(s))
  {
    hide XorExpr, Gated, Vanishes, BitCell, PiSource, Rho, ColOf, RightOf;
    forall x, z | 0 <= x < 5 && 0 <= z < 64
      ensures Vanishes(p, Gated(1, row.p01[x][z], XorExpr(row.state[x][z], row.state[x + 5][z])))
         <==> row.p01[x][z] == BitCell(LowPairs(s)[x][z])
    {
      XorBits(s[x][z], s[x + 5][z]);
      Pin(p, row.p01[x][z], LowPairs(s)[x][z]);
    }
  }

  lemma P23Exact(p: int, row: Row, s: State)
    requires p > 1 && CanonicalRow(p, row) && Holds(row.state, s)
    ensures P23C(p, 1, row) <==> Holds(row.p23, HighPairs(s))
  {
    hide XorExpr, Gated, Vanishes, BitCell, PiSource, Rho, ColOf, RightOf;
    forall x, z | 0 <= x < 5 && 0 <= z < 64
      ensures Vanishes(p, Gated(1, row.p23[x][z], XorExpr(row.state[x + 10][z], row.state[x + 15][z])))
         <==> row.p23[x][z] == BitCell(HighPairs(s)[x][z])
    {
      XorBits(s[x + 10][z], s[x + 15][z]);
      Pin(p, row.p23[x][z], HighPairs(s)[x][z]);
    }
  }

  lemma P0123Exact(p: int, row: Row, s: State)
    requires p > 1 && CanonicalRow(p, row) && Holds(row.p01, LowPairs(s)) && Holds(row.p23, HighPairs(s))
    ensures P0123C(p, 1, row) <==> Holds(row.p0123, QuadLanes(s))
  {
    hide XorExpr, Gated, Vanishes, BitCell, PiSource, Rho, ColOf, RightOf;
    forall x, z | 0 <= x < 5 && 0 <= z < 64
      ensures Vanishes(p, Gated(1, row.p0123[x][z], XorExpr(row.p01[x][z], row.p23[x][z])))
         <==> row.p0123[x][z] == BitCell(QuadLanes(s)[x][z])
    {
      XorBits(LowPair(s, x)[z], HighPair(s, x)[z]);
      Pin(p, row.p0123[x][z], QuadLanes(s)[x][z]);
    }
  }

  lemma ParityExact(p: int, row: Row, s: State)
    requires p > 1 && CanonicalRow(p, row) && Holds(row.state, s) && Holds(row.p0123, QuadLanes(s))
    ensures ParityC(p, 1, row) <==> Holds(row.c, ParityLanes(s))
  {
    hide XorExpr, Gated, Vanishes, BitCell, PiSource, Rho, ColOf, RightOf;
    forall x, z | 0 <= x < 5 && 0 <= z < 64
      ensures Vanishes(p, Gated(1, row.c[x][z], XorExpr(row.p0123[x][z], row.state[x + 20][z])))
         <==> row.c[x][z] == BitCell(ParityLanes(s)[x][z])
    {
      XorBits(QuadLanes(s)[x][z], s[x + 20][z]);
      Pin(p, row.c[x][z], ParityLanes(s)[x][z]);
    }
  }

  lemma EffectExact(p: int, row: Row, s: State)
    requires p > 1 && CanonicalRow(p, row) && Holds(row.c, ParityLanes(s))
    ensures EffectC(p, 1, row) <==> Holds(row.d, EffectLanes(s))
  {
    hide XorExpr, Gated, Vanishes, BitCell, PiSource, Rho, ColOf, RightOf;
    forall x, z | 0 <= x < 5 && 0 <= z < 64
      ensures Vanishes(p, Gated(1, row.d[x][z], XorExpr(row.c[PrevCol(x)][z], row.c[NextCol(x)][Back(z, 1)])))
         <==> row.d[x][z] == BitCell(EffectLanes(s)[x][z])
    {
      XorBits(ParityLane(s, PrevCol(x))[z], ParityLane(s, NextCol(x))[Back(z, 1)]);
      Pin(p, row.d[x][z], EffectLanes(s)[x][z]);
    }
  }

  lemma RhoPiExact(p: int, row: Row, s: State)
    requires p > 1 && CanonicalRow(p, row) && Holds(row.state, s) && Holds(row.d, EffectLanes(s))
    ensures RhoPiC(p, 1, row) <==> Holds(row.b, Linear(s))
  {
    hide XorExpr, Gated, Vanishes, BitCell, PiSource, Rho, ColOf, RightOf;
    forall l, z | 0 <= l < 25 && 0 <= z < 64
      ensures Vanishes(p, Gated(1, row.b[l][z], XorExpr(row.state[PiSource(l)][Back(z, Rho(PiSource(l)))], row.d[ColOf(PiSource(l))][Back(z, Rho(PiSource(l)))])))
         <==> row.b[l][z] == BitCell(Linear(s)[l][z])
    {
      var source := PiSource(l);
      var from := Back(z, Rho(source));
      LinearBit(s, l, z);
      XorBits(s[source][from], EffectLane(s, ColOf(source))[from]);
      Pin(p, row.b[l][z], Linear(s)[l][z]);
    }
  }

  lemma ChiExact(p: int, row: Row, b: State)
    requires p > 1 && CanonicalRow(p, row) && Holds(row.b, b)
    ensures ChiC(p, 1, row) <==> Holds(row.chi, ChiAuxLanes(b))
  {
    hide XorExpr, Gated, Vanishes, BitCell, PiSource, Rho, ColOf, RightOf;
    forall l, z | 0 <= l < 25 && 0 <= z < 64
      ensures Vanishes(p, Gated(1, row.chi[l][z], (1 - row.b[RightOf(l)][z]) * row.b[RightOf(RightOf(l))][z]))
         <==> row.chi[l][z] == BitCell(ChiAuxLanes(b)[l][z])
    {
      AndNotBits(b[RightOf(l)][z], b[RightOf(RightOf(l))][z]);
      Pin(p, row.chi[l][z], ChiAuxLanes(b)[l][z]);
    }
  }

  lemma BaseExact(p: int, row: Row, b: State)
    requires p > 1 && CanonicalRow(p, row) && Holds(row.b, b) && Holds(row.chi, ChiAuxLanes(b))
    ensures BaseC(p, 1, row) <==> Holds(row.base, ChiStep(b))
  {
    hide XorExpr, Gated, Vanishes, BitCell, PiSource, Rho, ColOf, RightOf;
    forall l, z | 0 <= l < 25 && 0 <= z < 64
      ensures Vanishes(p, Gated(1, row.base[l][z], XorExpr(row.b[l][z], row.chi[l][z])))
         <==> row.base[l][z] == BitCell(ChiStep(b)[l][z])
    {
      XorBits(b[l][z], ChiAuxLane(b, l)[z]);
      Pin(p, row.base[l][z], ChiStep(b)[l][z]);
    }
  }

  lemma ExpectedExact(p: int, row: Row, a: State, rc: seq<int>, constant: Lane)
    requires p > 1 && CanonicalRow(p, row) && Holds(row.base, a) && HoldsLane(rc, constant)
    ensures ExpectedC(p, 1, rc, row) <==> Holds(row.expected, IotaStep(a, constant))
  {
    hide XorExpr, Gated, Vanishes, BitCell, IotaStep;
    var out := IotaStep(a, constant);
    forall l, z | 0 <= l < 25 && 0 <= z < 64
      ensures Vanishes(p, Gated(1, row.expected[l][z], WithConstant(l, row.base[l][z], rc[z])))
         <==> row.expected[l][z] == BitCell(out[l][z])
    {
      XorBits(a[l][z], constant[z]);
      IotaBit(a, constant, l, z);
      Pin(p, row.expected[l][z], out[l][z]);
    }
    if ExpectedC(p, 1, rc, row) {
      forall l | 0 <= l < 25
        ensures HoldsLane(row.expected[l], out[l])
      {
        forall z | 0 <= z < 64
          ensures row.expected[l][z] == BitCell(out[l][z])
        {
          assert Vanishes(p, Gated(1, row.expected[l][z], WithConstant(l, row.base[l][z], rc[z])));
        }
      }
    }
  }

  lemma IotaBit(a: State, constant: Lane, l: int, z: int)
    requires 0 <= l < 25 && 0 <= z < 64
    ensures IotaStep(a, constant)[l][z] == if l == 0 then Xor(a[l][z], constant[z]) else a[l][z]
  {
  }

  lemma LinkExact(p: int, row: Row, next: Cells, a: State)
    requires p > 1 && CanonicalRow(p, row) && Canonical(p, next, 25) && Holds(row.expected, a)
    ensures LinkC(p, 1, row, next) <==> Holds(next, a)
  {
    hide Gated, Vanishes, BitCell;
    forall l, z | 0 <= l < 25 && 0 <= z < 64
      ensures Vanishes(p, Gated(1, next[l][z], row.expected[l][z])) <==> next[l][z] == BitCell(a[l][z])
    {
      Pin(p, next[l][z], a[l][z]);
    }
  }

  lemma AndNotBits(u: bool, v: bool)
    ensures (1 - BitCell(u)) * BitCell(v) == BitCell(!u && v)
  {
  }

  /** The gather form of theta, rho and pi that the rho/pi constraints use. */
  lemma LinearBit(s: State, l: int, z: int)
    requires 0 <= l < 25 && 0 <= z < 64
    ensures var source := PiSource(l);
            var from := Back(z, Rho(source));
            Linear(s)[l][z] == Xor(s[source][from], EffectLane(s, ColOf(source))[from])
  {
    LinearLane(s, PiSource(l));
    PiTargetOfSource(l);
  }

  /**
   On a row whose state cells are the bits of s, the round constraints hold exactly when every other
   cell is the matching bit of the round witness and the next row holds the round's output.
   */
  lemma RoundExact(p: int, rc: seq<int>, row: Row, next: Cells, s: State, constant: Lane)
    requires p > 1 && CanonicalRow(p, row) && Canonical(p, next, 25)
    requires Holds(row.state, s) && HoldsLane(rc, constant)
    ensures RoundC(p, 1, rc, row, next)
       <==> RowHolds(row, WitnessOf(s, constant)) && Holds(next, Round(s, constant))
  {
    hide P01C, P23C, P0123C, ParityC, EffectC, RhoPiC, ChiC, BaseC, ExpectedC, LinkC, Holds, CanonicalRow;
    hide LowPairs, HighPairs, QuadLanes, ParityLanes, EffectLanes, ChiAuxLanes, ChiStep, IotaStep, Linear;
    var b := Linear(s);
    P01Exact(p, row, s);
    P23Exact(p, row, s);
    if P01C(p, 1, row) && P23C(p, 1, row) {
      P0123Exact(p, row, s);
      if P0123C(p, 1, row) {
        ParityExact(p, row, s);
        if ParityC(p, 1, row) {
          EffectExact(p, row, s);
          if EffectC(p, 1, row) {
            RhoPiExact(p, row, s);
            if RhoPiC(p, 1, row) { TailExact(p, rc, row, next, b, constant); }
          }
        }
      }
    }
    RoundIsTail(s, constant);
  }

  lemma RoundIsTail(s: State, constant: Lane)
    ensures Round(s, constant) == IotaStep(ChiStep(Linear(s)), constant)
  {
  }

  lemma TailExact(p: int, rc: seq<int>, row: Row, next: Cells, b: State, constant: Lane)
    requires p > 1 && CanonicalRow(p, row) && Canonical(p, next, 25)
    requires Holds(row.b, b) && HoldsLane(rc, constant)
    ensures ChiC(p, 1, row) && BaseC(p, 1, row) && ExpectedC(p, 1, rc, row) && LinkC(p, 1, row, next)
       <==> && Holds(row.chi, ChiAuxLanes(b)) && Holds(row.base, ChiStep(b))
            && Holds(row.expected, IotaStep(ChiStep(b), constant))
            && Holds(next, IotaStep(ChiStep(b), constant))
  {
    hide ChiC, BaseC, ExpectedC, LinkC, Holds, CanonicalRow, ChiAuxLanes, ChiStep, IotaStep;
    ChiExact(p, row, b);
    if ChiC(p, 1, row) {
      BaseExact(p, row, b);
      if BaseC(p, 1, row) {
        ExpectedExact(p, row, ChiStep(b), rc, constant);
        if ExpectedC(p, 1, rc, row) { LinkExact(p, row, next, IotaStep(ChiStep(b), constant)); }
      }
    }
  }

  /** With the selector off, no round constraint says anything. */
  lemma RoundOff(p: int, rc: seq<int>, row: Row, next: Cells)
    requires p > 1 && CanonicalRow(p, row) && Canonical(p, next, 25) && |rc| == 64
    ensures RoundC(p, 0, rc, row, next)
  {
    hide Gated, Vanishes, XorExpr, WithConstant, PiSource, Rho, ColOf, RightOf, PrevCol, NextCol, Back;
    forall cell, expr
      ensures Vanishes(p, Gated(0, cell, expr))
    {
      GatedOff(p, cell, expr);
    }
  }
}
