/** The preprocessed columns, written selector by selector in the layout's order. */
module KeccakSelectors {
  import opened Bits
  import opened KeccakSpec
  import opened KeccakAir
  import opened RowLayout
  import opened KeccakTrace
  import opened KeccakStatement

  type Column = c: seq<int> | |c| == N_ROWS witness seq(N_ROWS, _ => 0)

  function ZeroColumn(): Column { seq(N_ROWS, _ => 0) }

  datatype Columns = Columns(active: Column, final: Column, starts: seq<Column>, rc: seq<Column>)

  /** The values of a physical row across the columns. */
  function RowOf(c: Columns, r: nat): Selectors
    requires r < N_ROWS
  {
    Selectors(c.active[r], c.final[r],
              seq(|c.starts|, k requires 0 <= k < |c.starts| => c.starts[k][r]),
              seq(|c.rc|, z requires 0 <= z < |c.rc| => c.rc[z][r]))
  }

  /** A column that is 1 at one logical row. */
  method OneAt(y: Layout, row: nat) returns (c: Column)
    requires ValidLayout(y) && row < N_ROWS
    ensures forall i :: 0 <= i < N_ROWS ==> c[y.physical[i]] == if i == row then 1 else 0
  {
    c := ZeroColumn()[y.physical[row] := 1];
  }

  /** The round selector: every used row but the last of each block. */
  method ActiveColumn(n: nat, y: Layout) returns (c: Column)
    requires ValidLayout(y) && n * BLOCK_ROWS <= N_ROWS
    ensures forall i :: 0 <= i < N_ROWS ==> c[y.physical[i]] == Active(n, i)
  {
    c := ZeroColumn();
    for row := 0 to n * BLOCK_ROWS
      invariant forall i :: 0 <= i < N_ROWS ==> c[y.physical[i]] == if i < row then Active(n, i) else 0
    {
      if row % BLOCK_ROWS != BLOCK_ROWS - 1 { c := c[y.physical[row] := 1]; }
    }
  }

  /** One bit of the round constants on the used rows. */
  method ConstantColumn(n: nat, y: Layout, bit: nat) returns (c: Column)
    requires ValidLayout(y) && n * BLOCK_ROWS <= N_ROWS && bit < 64
    ensures forall i :: 0 <= i < N_ROWS ==> c[y.physical[i]] == ConstantCells(n, i)[bit]
  {
    hide RoundConstant;
    c := ZeroColumn();
    for row := 0 to n * BLOCK_ROWS
      invariant forall i :: 0 <= i < N_ROWS ==> c[y.physical[i]] == if i < row then ConstantCells(n, i)[bit] else 0
    {
      var round := row % BLOCK_ROWS;
      if round < ROUNDS { c := c[y.physical[row] := BitCell(RoundConstant(round)[bit])]; }
    }
  }

  /** All the columns of n blocks: each physical row holds the selectors of its logical row. */
  method BuildSelectors(n: nat, y: Layout) returns (c: Columns)
    requires ValidLayout(y) && 0 < n && n * BLOCK_ROWS <= N_ROWS
    ensures forall i :: 0 <= i < N_ROWS ==> RowOf(c, y.physical[i]) == SelectorsAt(n, i)
  {
    hide Active, ConstantCells;
    var active := ActiveColumn(n, y);
    var final := OneAt(y, n * BLOCK_ROWS - 1);
    var starts: seq<Column> := [];
    for block := 0 to n
      invariant |starts| == block
      invariant forall k, i :: 0 <= k < block && 0 <= i < N_ROWS ==> starts[k][y.physical[i]] == if i == k * BLOCK_ROWS then 1 else 0
    {
      var selector := OneAt(y, block * BLOCK_ROWS);
      starts := starts + [selector];
    }
    var rc: seq<Column> := [];
    for bit := 0 to 64
      invariant |rc| == bit
      invariant forall z, i :: 0 <= z < bit && 0 <= i < N_ROWS ==> rc[z][y.physical[i]] == ConstantCells(n, i)[z]
    {
      var column := ConstantColumn(n, y, bit);
      rc := rc + [column];
    }
    c := Columns(active, final, starts, rc);
    forall i | 0 <= i < N_ROWS ensures RowOf(c, y.physical[i]) == SelectorsAt(n, i) {
      var built, wanted := RowOf(c, y.physical[i]), SelectorsAt(n, i);
      assert built.starts == wanted.starts;
      assert built.rc == wanted.rc;
    }
  }
}
