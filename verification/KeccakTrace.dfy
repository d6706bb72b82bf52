/**
 Rows of a hash trace in logical order: 25 rows for each block, 24 of them round-active, followed by
 unused rows. Shared by the single-hash statement and by the unlock statement.
 */
module KeccakTrace {
  import opened Bits
  import opened KeccakSpec
  import opened KeccakWitness
  import opened PrimeField
  import opened KeccakAir
  import opened RowLayout

  const BLOCK_ROWS := 25

  // ----- selectors, by logical row, for a trace of n blocks -----

  function Active(n: nat, row: nat): int
  {
    if row < n * BLOCK_ROWS && row % BLOCK_ROWS != BLOCK_ROWS - 1 then 1 else 0
  }

  function ConstantCells(n: nat, row: nat): (cells: seq<int>)
    ensures |cells| == 64
  {
    if row < n * BLOCK_ROWS && row % BLOCK_ROWS < ROUNDS
    then LaneCells(RoundConstant(row % BLOCK_ROWS))
    else seq(64, _ => 0)
  }

  // ----- constraints on all rows -----

  ghost predicate CanonicalRows(p: int, rows: seq<Row>)
  {
    |rows| == N_ROWS && forall i :: 0 <= i < N_ROWS ==> CanonicalRow(p, rows[i])
  }

  /** Boolean state cells and the round constraints of row i. */
  ghost predicate TransitionRow(p: int, n: nat, rows: seq<Row>, i: nat)
    requires p > 1 && CanonicalRows(p, rows) && i < N_ROWS
  {
    && BooleanC(p, rows[i].state, 25)
    && RoundC(p, Active(n, i), ConstantCells(n, i), rows[i], rows[NextRow(i)].state)
  }

  ghost predicate Transitions(p: int, n: nat, rows: seq<Row>)
    requires p > 1 && CanonicalRows(p, rows)
  {
    forall i :: 0 <= i < N_ROWS ==> TransitionRow(p, n, rows, i)
  }

  // ----- soundness of a block -----

  /** The state that boolean cells spell out. */
  function StateOf(m: Cells): State
    requires |m| == 25 && forall l :: 0 <= l < 25 ==> |m[l]| == 64
  {
    seq(25, l requires 0 <= l < 25 => LaneOf(m[l]))
  }

  function LaneOf(cells: seq<int>): Lane
    requires |cells| == 64
  {
    seq(64, z requires 0 <= z < 64 => cells[z] == 1)
  }

  lemma BooleanStateHolds(p: int, m: Cells)
    requires Prime(p) && Canonical(p, m, 25) && BooleanC(p, m, 25)
    ensures Holds(m, StateOf(m))
  {
    forall l, z | 0 <= l < 25 && 0 <= z < 64
      ensures m[l][z] == BitCell(LaneOf(m[l])[z])
    {
      BooleanRoots(p, m[l][z]);
    }
  }

  /**
   On an active row with boolean state cells, the round constraints hold exactly for one assignment of the
   other cells and of the next state: the round witness of the state those cells spell out.
   */
  lemma BooleanRound(p: int, row: Row, next: Cells, constant: Lane)
    requires Prime(p) && CanonicalRow(p, row) && Canonical(p, next, 25) && BooleanC(p, row.state, 25)
    ensures RoundC(p, 1, LaneCells(constant), row, next)
       <==> RowHolds(row, WitnessOf(StateOf(row.state), constant)) && Holds(next, Round(StateOf(row.state), constant))
  {
    hide RoundC, RowHolds, WitnessOf, Round, StateOf;
    BooleanStateHolds(p, row.state);
    LaneCellsHold(constant);
    RoundExact(p, LaneCells(constant), row, next, StateOf(row.state), constant);
  }

  lemma RowSelectors(n: nat, k: nat, j: nat)
    requires k < n && j < BLOCK_ROWS
    ensures BLOCK_ROWS * k + j < n * BLOCK_ROWS
    ensures Active(n, BLOCK_ROWS * k + j) == if j < ROUNDS then 1 else 0
    ensures j < ROUNDS ==> ConstantCells(n, BLOCK_ROWS * k + j) == LaneCells(RoundConstant(j))
  {
    assert (BLOCK_ROWS * k + j) % BLOCK_ROWS == j;
  }

  /** A satisfying block that starts from s runs through the rounds of s. */
  lemma {:induction false} BlockRuns(p: int, n: nat, rows: seq<Row>, k: nat, s: State, j: nat)
    requires p > 1 && CanonicalRows(p, rows) && Transitions(p, n, rows)
    requires k < n && n * BLOCK_ROWS <= N_ROWS && j <= ROUNDS
    requires Holds(rows[BLOCK_ROWS * k].state, s)
    ensures Holds(rows[BLOCK_ROWS * k + j].state, Rounds(s, j))
  {
    hide Holds, RoundC, BooleanC, Round, RoundConstant, LaneCells, CanonicalRow, Active, ConstantCells;
    if j > 0 {
      BlockRuns(p, n, rows, k, s, j - 1);
      var i := BLOCK_ROWS * k + j - 1;
      RowSelectors(n, k, j - 1);
      assert TransitionRow(p, n, rows, i);
      LaneCellsHold(RoundConstant(j - 1));
      CanonicalStates(p, rows);
      RoundExact(p, ConstantCells(n, i), rows[i], rows[i + 1].state, Rounds(s, j - 1), RoundConstant(j - 1));
    }
  }

  lemma LaneCellsHold(lane: Lane)
    ensures HoldsLane(LaneCells(lane), lane)
  {
  }

  lemma CanonicalStates(p: int, rows: seq<Row>)
    requires CanonicalRows(p, rows)
    ensures forall i :: 0 <= i < N_ROWS ==> Canonical(p, rows[i].state, 25)
  {
  }

  // ----- the rows that the builder writes -----

  function FieldOf(lanes: seq<Lane>): (cells: Cells)
    ensures |cells| == |lanes|
  {
    seq(|lanes|, l requires 0 <= l < |lanes| => LaneCells(lanes[l]))
  }

  lemma FieldOfHolds(lanes: seq<Lane>)
    ensures Holds(FieldOf(lanes), lanes)
  {
  }

  function ZeroCells(n: nat): (cells: Cells)
    ensures |cells| == n
  {
    seq(n, _ => seq(64, _ => 0))
  }

  function ZeroRow(): Row
  {
    Row(ZeroCells(25), ZeroCells(5), ZeroCells(5), ZeroCells(5), ZeroCells(5), ZeroCells(5),
        ZeroCells(25), ZeroCells(25), ZeroCells(25), ZeroCells(25))
  }

  /** The cells of a witness, over the state already written in the row. */
  function FillWitness(row: Row, w: RoundWitness): Row
  {
    Row(row.state, FieldOf(w.p01), FieldOf(w.p23), FieldOf(w.p0123), FieldOf(w.c), FieldOf(w.d),
        FieldOf(w.b), FieldOf(w.chi), FieldOf(w.base), FieldOf(w.next))
  }

  /** Row j of a block that starts from s. */
  function BlockRow(s: State, j: nat): Row
    requires j < BLOCK_ROWS
  {
    var row := ZeroRow().(state := FieldOf(Rounds(s, j)));
    if j < ROUNDS then FillWitness(row, WitnessOf(Rounds(s, j), RoundConstant(j))) else row
  }

  /** Row i of the trace whose blocks start from these states. */
  function TraceRow(starts: seq<State>, i: nat): Row
  {
    if i < |starts| * BLOCK_ROWS then BlockRow(starts[i / BLOCK_ROWS], i % BLOCK_ROWS) else ZeroRow()
  }

  function TraceRows(starts: seq<State>): (rows: seq<Row>)
    ensures |rows| == N_ROWS
  {
    seq(N_ROWS, i requires 0 <= i < N_ROWS => TraceRow(starts, i))
  }

  lemma FieldOfCanonical(p: int, lanes: seq<Lane>)
    requires p > 1
    ensures Canonical(p, FieldOf(lanes), |lanes|)
  {
  }

  lemma ZeroRowCanonical(p: int)
    requires p > 1
    ensures CanonicalRow(p, ZeroRow())
  {
  }

  lemma WitnessSizes(a: State, constant: Lane)
    ensures var w := WitnessOf(a, constant);
            && |w.p01| == |w.p23| == |w.p0123| == |w.c| == |w.d| == 5
            && |w.b| == |w.chi| == |w.base| == |w.next| == 25
  {
  }

  lemma BlockRowCanonical(p: int, s: State, j: nat)
    requires p > 1 && j < BLOCK_ROWS
    ensures CanonicalRow(p, BlockRow(s, j))
  {
    hide FieldOf, Rounds, WitnessOf, Canonical;
    ZeroRowCanonical(p);
    var a := Rounds(s, j);
    FieldOfCanonical(p, a);
    if j < ROUNDS {
      var w := WitnessOf(a, RoundConstant(j));
      WitnessSizes(a, RoundConstant(j));
      FieldOfCanonical(p, w.p01);
      FieldOfCanonical(p, w.p23);
      FieldOfCanonical(p, w.p0123);
      FieldOfCanonical(p, w.c);
      FieldOfCanonical(p, w.d);
      FieldOfCanonical(p, w.b);
      FieldOfCanonical(p, w.chi);
      FieldOfCanonical(p, w.base);
      FieldOfCanonical(p, w.next);
    }
  }

  lemma TraceRowsCanonical(p: int, starts: seq<State>)
    requires p > 1
    ensures CanonicalRows(p, TraceRows(starts))
  {
    hide CanonicalRow, BlockRow, ZeroRow;
    forall i | 0 <= i < N_ROWS
      ensures CanonicalRow(p, TraceRow(starts, i))
    {
      ZeroRowCanonical(p);
      if i < |starts| * BLOCK_ROWS { BlockRowCanonical(p, starts[i / BLOCK_ROWS], i % BLOCK_ROWS); }
    }
  }

  lemma TraceRowAt(starts: seq<State>, k: nat, j: nat)
    requires k < |starts| && |starts| * BLOCK_ROWS <= N_ROWS && j < BLOCK_ROWS
    ensures BLOCK_ROWS * k + j < N_ROWS
    ensures TraceRows(starts)[BLOCK_ROWS * k + j] == BlockRow(starts[k], j)
  {
    hide BlockRow, ZeroRow;
    assert (BLOCK_ROWS * k + j) / BLOCK_ROWS == k && (BLOCK_ROWS * k + j) % BLOCK_ROWS == j;
  }

  lemma BlockRowState(s: State, j: nat)
    requires j < BLOCK_ROWS
    ensures Holds(BlockRow(s, j).state, Rounds(s, j))
  {
    FieldOfHolds(Rounds(s, j));
  }

  lemma BlockRowWitness(s: State, j: nat)
    requires j < ROUNDS
    ensures RowHolds(BlockRow(s, j), WitnessOf(Rounds(s, j), RoundConstant(j)))
  {
    hide FieldOf, Rounds, WitnessOf, Holds;
    var w := WitnessOf(Rounds(s, j), RoundConstant(j));
    FieldOfHolds(w.p01);
    FieldOfHolds(w.p23);
    FieldOfHolds(w.p0123);
    FieldOfHolds(w.c);
    FieldOfHolds(w.d);
    FieldOfHolds(w.b);
    FieldOfHolds(w.chi);
    FieldOfHolds(w.base);
    FieldOfHolds(w.next);
  }

  /** Every built row, used or not, satisfies the boolean and round constraints. */
  lemma TraceRowsTransition(p: int, starts: seq<State>)
    requires p > 1 && |starts| * BLOCK_ROWS <= N_ROWS
    ensures CanonicalRows(p, TraceRows(starts))
    ensures Transitions(p, |starts|, TraceRows(starts))
  {
    hide CanonicalRow, BooleanC, RoundC, TraceRow;
    var n, rows := |starts|, TraceRows(starts);
    TraceRowsCanonical(p, starts);
    CanonicalStates(p, rows);
    forall i | 0 <= i < N_ROWS
      ensures TransitionRow(p, n, rows, i)
    {
      if i < n * BLOCK_ROWS {
        var k, j := i / BLOCK_ROWS, i % BLOCK_ROWS;
        assert i == BLOCK_ROWS * k + j;
        UsedRowTransition(p, starts, k, j);
      } else {
        UnusedRowTransition(p, starts, i);
      }
    }
  }

  lemma UsedRowTransition(p: int, starts: seq<State>, k: nat, j: nat)
    requires p > 1 && |starts| * BLOCK_ROWS <= N_ROWS && k < |starts| && j < BLOCK_ROWS
    requires CanonicalRows(p, TraceRows(starts))
    ensures TransitionRow(p, |starts|, TraceRows(starts), BLOCK_ROWS * k + j)
  {
    hide CanonicalRow, BooleanC, RoundC, TraceRows, BlockRow, Rounds, Round, WitnessOf, Holds, LaneCells;
    hide Active, ConstantCells, RoundConstant, RowHolds;
    var n, rows, s, i := |starts|, TraceRows(starts), starts[k], BLOCK_ROWS * k + j;
    TraceRowAt(starts, k, j);
    RowSelectors(n, k, j);
    CanonicalStates(p, rows);
    BlockRowState(s, j);
    HoldsBoolean(p, rows[i].state, Rounds(s, j));
    if j < ROUNDS {
      TraceRowAt(starts, k, j + 1);
      BlockRowState(s, j + 1);
      BlockRowWitness(s, j);
      LaneCellsHold(RoundConstant(j));
      RoundsStep(s, j);
      RoundExact(p, ConstantCells(n, i), rows[i], rows[i + 1].state, Rounds(s, j), RoundConstant(j));
    } else {
      RoundOff(p, ConstantCells(n, i), rows[i], rows[NextRow(i)].state);
    }
  }

  lemma RoundsStep(s: State, j: nat)
    requires j < ROUNDS
    ensures Rounds(s, j + 1) == Round(Rounds(s, j), RoundConstant(j))
  {
  }

  lemma HoldsBoolean(p: int, m: Cells, s: State)
    requires p > 1 && Canonical(p, m, 25) && Holds(m, s)
    ensures BooleanC(p, m, 25)
  {
    forall l, z | 0 <= l < 25 && 0 <= z < 64
      ensures m[l][z] * (m[l][z] - 1) == 0
    {
      assert HoldsLane(m[l], s[l]);
    }
  }

  lemma UnusedRowTransition(p: int, starts: seq<State>, i: nat)
    requires p > 1 && |starts| * BLOCK_ROWS <= i < N_ROWS
    requires CanonicalRows(p, TraceRows(starts))
    ensures TransitionRow(p, |starts|, TraceRows(starts), i)
  {
    hide CanonicalRow, BooleanC, RoundC, BlockRow;
    var rows := TraceRows(starts);
    CanonicalStates(p, rows);
    ZeroStateHolds();
    HoldsBoolean(p, rows[i].state, ZeroState());
    RoundOff(p, ConstantCells(|starts|, i), rows[i], rows[NextRow(i)].state);
  }

  lemma ZeroStateHolds()
    ensures Holds(ZeroRow().state, ZeroState())
  {
  }

  // ----- writing rows -----

  /**
   Write a block into blank rows: the absorbed state, then 24 round witnesses and the state after each.
   */
  method WriteBlock(trace: seq<Row>, y: Layout, base: nat, absorbed: State)
    returns (written: seq<Row>, state: State)
    requires ValidLayout(y) && |trace| == N_ROWS && base + BLOCK_ROWS <= N_ROWS
    requires forall i :: base <= i < base + BLOCK_ROWS ==> trace[y.physical[i]] == ZeroRow()
    ensures |written| == N_ROWS && state == KeccakF(absorbed)
    ensures forall i :: 0 <= i < N_ROWS ==>
      written[y.physical[i]] == (if base <= i < base + BLOCK_ROWS then BlockRow(absorbed, i - base) else trace[y.physical[i]])
  {
    hide WitnessOf, Round, RoundConstant, FieldOf, ZeroRow, BlockRow, Rounds, FillWitness;
    state := absorbed;
    assert Rounds(absorbed, 0) == absorbed by { RoundsZero(absorbed); }
    written := trace[y.physical[base] := trace[y.physical[base]].(state := FieldOf(state))];
    for round := 0 to ROUNDS
      invariant |written| == N_ROWS && state == Rounds(absorbed, round)
      invariant written[y.physical[base + round]] == ZeroRow().(state := FieldOf(state))
      invariant forall i :: 0 <= i < N_ROWS && i != base + round ==>
        written[y.physical[i]] == (if base <= i < base + round then BlockRow(absorbed, i - base) else trace[y.physical[i]])
    {
      var w := ComputeRound(state, round);
      var row := base + round;
      WitnessRow(absorbed, round);
      written := written[y.physical[row] := FillWitness(written[y.physical[row]], w)];
      state := w.next;
      written := written[y.physical[row + 1] := written[y.physical[row + 1]].(state := FieldOf(state))];
    }
    LastRow(absorbed);
  }

  lemma RoundsZero(s: State)
    ensures Rounds(s, 0) == s
  {
  }

  lemma WitnessRow(s: State, j: nat)
    requires j < ROUNDS
    ensures var w := WitnessOf(Rounds(s, j), RoundConstant(j));
            && BlockRow(s, j) == FillWitness(ZeroRow().(state := FieldOf(Rounds(s, j))), w)
            && w.next == Rounds(s, j + 1)
  {
  }

  lemma LastRow(s: State)
    ensures BlockRow(s, ROUNDS) == ZeroRow().(state := FieldOf(Rounds(s, ROUNDS)))
    ensures KeccakF(s) == Rounds(s, ROUNDS)
  {
  }
}
