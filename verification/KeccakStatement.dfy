/**
 The single-hash statement: public blocks and a public digest, constrained over 256 rows in an abstract
 storage order. Soundness and completeness are one equivalence with the sponge.
 */
module KeccakStatement {
  import opened Bits
  import opened KeccakSpec
  import opened KeccakWitness
  import opened KeccakPadding
  import opened PrimeField
  import opened KeccakAir
  import opened RowLayout
  import opened KeccakTrace

  datatype Selectors = Selectors(active: int, final: int, starts: seq<int>, rc: seq<int>)

  /** The canonical preprocessed values of a logical row, for n blocks. */
  function SelectorsAt(n: nat, row: nat): (sel: Selectors)
    ensures |sel.starts| == n && |sel.rc| == 64
  {
    Selectors(Active(n, row), if row == n * BLOCK_ROWS - 1 then 1 else 0,
              seq(n, k requires 0 <= k < n => if row == k * BLOCK_ROWS then 1 else 0),
              ConstantCells(n, row))
  }

  ghost predicate Fits(blocks: seq<RateBlock>)
  {
    0 < |blocks| && |blocks| * BLOCK_ROWS <= N_ROWS
  }

  // ----- constraints -----

  function BlockCells(block: RateBlock): (cells: Cells)
    ensures |cells| == RATE_LANES && forall l :: 0 <= l < RATE_LANES ==> |cells[l]| == 64
  {
    FieldOf(LanesOfBlock(block))
  }

  /** The value that absorption gives state cell [l][z] at the first row of block k. */
  function AbsorbedCell(k: nat, block: Cells, prev: int, l: nat, z: nat): int
    requires |block| == RATE_LANES && forall i :: 0 <= i < RATE_LANES ==> |block[i]| == 64
    requires l < 25 && z < 64
  {
    if k == 0 then (if l < RATE_LANES then block[l][z] else 0)
    else (if l < RATE_LANES then XorExpr(prev, block[l][z]) else prev)
  }

  function AbsorbedCells(blocks: seq<RateBlock>, prev: int, l: nat, z: nat): (values: seq<int>)
    requires l < 25 && z < 64
    ensures |values| == |blocks|
  {
    seq(|blocks|, k requires 0 <= k < |blocks| => AbsorbedCell(k, BlockCells(blocks[k]), prev, l, z))
  }

  ghost predicate AbsorbC(p: int, starts: seq<int>, blocks: seq<RateBlock>, prev: Cells, cur: Cells)
    requires p > 1 && |starts| == |blocks| && Canonical(p, prev, 25) && Canonical(p, cur, 25)
  {
    forall l, z :: 0 <= l < 25 && 0 <= z < 64 ==>
      Vanishes(p, SelectedSum(starts, cur[l][z], AbsorbedCells(blocks, prev[l][z], l, z), |blocks|))
  }

  ghost predicate DigestC(p: int, final: int, digest: seq<Byte>, cur: Cells)
    requires p > 1 && Canonical(p, cur, 25) && |digest| == 32
  {
    forall l, z :: 0 <= l < 4 && 0 <= z < 64 ==>
      Vanishes(p, Gated(final, cur[l][z], BitCell(LanesOfBytes(digest)[l][z])))
  }

  /** All constraints at logical row i, for rows of canonical field elements. */
  ghost predicate StatementRow(p: int, blocks: seq<RateBlock>, digest: seq<Byte>, i: nat, prev: Row, row: Row, next: Row)
  {
    && p > 1 && |digest| == 32
    && CanonicalRow(p, prev) && CanonicalRow(p, row) && CanonicalRow(p, next)
    && var sel := SelectorsAt(|blocks|, i);
    && BooleanC(p, row.state, 25)
    && AbsorbC(p, sel.starts, blocks, prev.state, row.state)
    && RoundC(p, sel.active, sel.rc, row, next.state)
    && DigestC(p, sel.final, digest, row.state)
  }

  ghost function Check(p: int, blocks: seq<RateBlock>, digest: seq<Byte>): RowCheck<Row>
  {
    (i: nat, prev: Row, row: Row, next: Row) => StatementRow(p, blocks, digest, i, prev, row, next)
  }

  /** The trace, stored in the layout's order, satisfies every constraint on every physical row. */
  ghost predicate Satisfied(p: int, y: Layout, trace: seq<Row>, blocks: seq<RateBlock>, digest: seq<Byte>)
    requires ValidLayout(y) && |trace| == N_ROWS
  {
    HoldsOnTrace(y, trace, Check(p, blocks, digest))
  }

  ghost predicate LogicalRowOk(p: int, rows: seq<Row>, blocks: seq<RateBlock>, digest: seq<Byte>, i: nat)
    requires |rows| == N_ROWS && i < N_ROWS
  {
    StatementRow(p, blocks, digest, i, rows[PrevRow(i)], rows[i], rows[NextRow(i)])
  }

  ghost predicate LogicallySatisfied(p: int, rows: seq<Row>, blocks: seq<RateBlock>, digest: seq<Byte>)
    requires |rows| == N_ROWS
  {
    forall i :: 0 <= i < N_ROWS ==> LogicalRowOk(p, rows, blocks, digest, i)
  }

  lemma SatisfiedLogically(p: int, y: Layout, trace: seq<Row>, blocks: seq<RateBlock>, digest: seq<Byte>)
    requires ValidLayout(y) && |trace| == N_ROWS
    ensures Satisfied(p, y, trace, blocks, digest)
       <==> LogicallySatisfied(p, LogicalRows(y, trace), blocks, digest)
  {
    hide StatementRow;
    var rows, check := LogicalRows(y, trace), Check(p, blocks, digest);
    LayoutInvisible(y, trace, check);
    assert forall i :: 0 <= i < N_ROWS ==> HoldsAt(rows, check, i) == LogicalRowOk(p, rows, blocks, digest, i);
  }

  lemma SatisfiedIsCanonical(p: int, rows: seq<Row>, blocks: seq<RateBlock>, digest: seq<Byte>)
    requires |rows| == N_ROWS && LogicallySatisfied(p, rows, blocks, digest)
    ensures p > 1 && |digest| == 32 && CanonicalRows(p, rows)
  {
    hide CanonicalRow, BooleanC, AbsorbC, RoundC, DigestC;
    assert LogicalRowOk(p, rows, blocks, digest, 0);
    forall i | 0 <= i < N_ROWS ensures CanonicalRow(p, rows[i]) {
      assert LogicalRowOk(p, rows, blocks, digest, i);
    }
  }

  // ----- absorption -----

  lemma AbsorbedCellIsBit(m: nat, block: RateBlock, s: State, l: nat, z: nat)
    requires l < 25 && z < 64 && (m == 0 ==> s == ZeroState())
    ensures AbsorbedCell(m, BlockCells(block), BitCell(s[l][z]), l, z)
         == BitCell(Absorb(s, LanesOfBlock(block))[l][z])
  {
    hide LanesOfBlock;
    if l < RATE_LANES { XorBits(s[l][z], LanesOfBlock(block)[l][z]); }
  }

  /** At the first row of block m the absorb constraints pin the state to the absorbed one. */
  lemma AbsorbExact(p: int, blocks: seq<RateBlock>, m: nat, prev: Cells, cur: Cells, s: State)
    requires p > 1 && m < |blocks| && Canonical(p, prev, 25) && Canonical(p, cur, 25)
    requires if m == 0 then s == ZeroState() else Holds(prev, s)
    ensures AbsorbC(p, SelectorsAt(|blocks|, m * BLOCK_ROWS).starts, blocks, prev, cur)
       <==> Holds(cur, Absorb(s, LanesOfBlock(blocks[m])))
  {
    hide SelectedSum, AbsorbedCell, Absorb, BlockCells, LanesOfBlock, Gated, Vanishes, BitCell;
    var starts := SelectorsAt(|blocks|, m * BLOCK_ROWS).starts;
    var absorbed := Absorb(s, LanesOfBlock(blocks[m]));
    forall l, z | 0 <= l < 25 && 0 <= z < 64
      ensures Vanishes(p, SelectedSum(starts, cur[l][z], AbsorbedCells(blocks, prev[l][z], l, z), |blocks|))
         <==> cur[l][z] == BitCell(absorbed[l][z])
    {
      StartsAt(blocks, m);
      SelectedOne(starts, cur[l][z], AbsorbedCells(blocks, prev[l][z], l, z), m, |blocks|);
      if m != 0 { assert HoldsLane(prev[l], s[l]); }
      FirstIgnoresPrev(m, BlockCells(blocks[m]), prev[l][z], BitCell(s[l][z]), l, z);
      AbsorbedCellIsBit(m, blocks[m], s, l, z);
      Pin(p, cur[l][z], absorbed[l][z]);
    }
    if AbsorbC(p, starts, blocks, prev, cur) {
      forall l | 0 <= l < 25
        ensures HoldsLane(cur[l], absorbed[l])
      {
        forall z | 0 <= z < 64
          ensures cur[l][z] == BitCell(absorbed[l][z])
        {
          assert Vanishes(p, SelectedSum(starts, cur[l][z], AbsorbedCells(blocks, prev[l][z], l, z), |blocks|));
        }
      }
    }
  }

  lemma StartsAt(blocks: seq<RateBlock>, m: nat)
    requires m < |blocks|
    ensures var starts := SelectorsAt(|blocks|, m * BLOCK_ROWS).starts;
            forall i :: 0 <= i < |blocks| ==> starts[i] == if i == m then 1 else 0
  {
  }

  lemma FirstIgnoresPrev(k: nat, block: Cells, u: int, v: int, l: nat, z: nat)
    requires |block| == RATE_LANES && forall i :: 0 <= i < RATE_LANES ==> |block[i]| == 64
    requires l < 25 && z < 64 && (k == 0 || u == v)
    ensures AbsorbedCell(k, block, u, l, z) == AbsorbedCell(k, block, v, l, z)
  {
  }

  /** On every other row the absorb constraints say nothing. */
  lemma AbsorbOff(p: int, blocks: seq<RateBlock>, row: nat, prev: Cells, cur: Cells)
    requires p > 1 && Canonical(p, prev, 25) && Canonical(p, cur, 25)
    requires forall m :: 0 <= m < |blocks| ==> row != m * BLOCK_ROWS
    ensures AbsorbC(p, SelectorsAt(|blocks|, row).starts, blocks, prev, cur)
  {
    hide SelectedSum, AbsorbedCells;
    var starts := SelectorsAt(|blocks|, row).starts;
    forall l, z | 0 <= l < 25 && 0 <= z < 64
      ensures SelectedSum(starts, cur[l][z], AbsorbedCells(blocks, prev[l][z], l, z), |blocks|) == 0
    {
      SelectedNone(starts, cur[l][z], AbsorbedCells(blocks, prev[l][z], l, z), |blocks|);
    }
  }

  // ----- digest -----

  lemma DigestExact(p: int, digest: seq<Byte>, cur: Cells, s: State)
    requires p > 1 && Canonical(p, cur, 25) && |digest| == 32 && Holds(cur, s)
    ensures DigestC(p, 1, digest, cur) <==> Digest(s) == digest
  {
    hide Gated, Vanishes, LanesOfBytes, BytesOfLanes;
    var lanes := LanesOfBytes(digest);
    forall l, z | 0 <= l < 4 && 0 <= z < 64
      ensures Vanishes(p, Gated(1, cur[l][z], BitCell(lanes[l][z]))) <==> s[l][z] == lanes[l][z]
    {
      assert HoldsLane(cur[l], s[l]);
      Pin(p, cur[l][z], lanes[l][z]);
    }
    BytesOfLanesOfBytes(digest);
    LanesOfBytesOfLanes(s[..4]);
    if DigestC(p, 1, digest, cur) {
      forall l | 0 <= l < 4
        ensures s[l] == lanes[l]
      {
        forall z | 0 <= z < 64
          ensures s[l][z] == lanes[l][z]
        {
          assert Vanishes(p, Gated(1, cur[l][z], BitCell(lanes[l][z])));
        }
      }
      assert s[..4] == lanes;
    }
    if Digest(s) == digest {
      assert s[..4] == lanes;
    }
  }

  lemma DigestOff(p: int, digest: seq<Byte>, cur: Cells)
    requires p > 1 && Canonical(p, cur, 25) && |digest| == 32
    ensures DigestC(p, 0, digest, cur)
  {
    hide Gated, Vanishes;
    forall cell, expr ensures Vanishes(p, Gated(0, cell, expr)) { GatedOff(p, cell, expr); }
  }

  // ----- soundness -----

  function StartState(blocks: seq<RateBlock>, k: nat): State
    requires k < |blocks|
  {
    Absorb(Sponge(LaneBlocks(blocks[..k])), LanesOfBlock(blocks[k]))
  }

  lemma SpongeStep(blocks: seq<RateBlock>, k: nat)
    requires k < |blocks|
    ensures Sponge(LaneBlocks(blocks[..k + 1])) == KeccakF(StartState(blocks, k))
  {
    hide KeccakF, Absorb, LanesOfBlock;
    var lanes := LaneBlocks(blocks[..k + 1]);
    assert lanes[..k] == LaneBlocks(blocks[..k]);
  }

  /** A block that starts from its sponge state ends in the next one. */
  lemma BlockEnds(p: int, rows: seq<Row>, blocks: seq<RateBlock>, digest: seq<Byte>, k: nat)
    requires p > 1 && CanonicalRows(p, rows) && |digest| == 32 && Fits(blocks) && k < |blocks|
    requires LogicallySatisfied(p, rows, blocks, digest)
    requires Holds(rows[BLOCK_ROWS * k].state, StartState(blocks, k))
    ensures Holds(rows[BLOCK_ROWS * k + ROUNDS].state, Sponge(LaneBlocks(blocks[..k + 1])))
  {
    hide Holds, Rounds, KeccakF, StartState, Sponge, LaneBlocks, CanonicalRow, LogicalRowOk, TransitionRow;
    RowsTransition(p, rows, blocks, digest);
    BlockRuns(p, |blocks|, rows, k, StartState(blocks, k), ROUNDS);
    SpongeStep(blocks, k);
    KeccakFIsRounds(StartState(blocks, k));
  }

  lemma StartRowExact(p: int, rows: seq<Row>, blocks: seq<RateBlock>, digest: seq<Byte>, k: nat, s: State)
    requires p > 1 && CanonicalRows(p, rows) && |digest| == 32 && Fits(blocks) && k < |blocks|
    requires LogicalRowOk(p, rows, blocks, digest, BLOCK_ROWS * k)
    requires if k == 0 then s == ZeroState() else Holds(rows[BLOCK_ROWS * k - 1].state, s)
    ensures Holds(rows[BLOCK_ROWS * k].state, Absorb(s, LanesOfBlock(blocks[k])))
  {
    hide Holds, RoundC, BooleanC, AbsorbC, DigestC, Absorb, SelectorsAt, LanesOfBlock, CanonicalRow;
    CanonicalStates(p, rows);
    AbsorbExact(p, blocks, k, rows[PrevRow(BLOCK_ROWS * k)].state, rows[BLOCK_ROWS * k].state, s);
  }

  /** The first row of every block holds the sponge state with that block absorbed. */
  lemma {:induction false} StartRowsSound(p: int, rows: seq<Row>, blocks: seq<RateBlock>, digest: seq<Byte>, k: nat)
    requires p > 1 && CanonicalRows(p, rows) && |digest| == 32 && Fits(blocks) && k < |blocks|
    requires LogicallySatisfied(p, rows, blocks, digest)
    ensures Holds(rows[BLOCK_ROWS * k].state, StartState(blocks, k))
  {
    hide Holds, StartState, LogicalRowOk, LanesOfBlock, LaneBlocks, CanonicalRow, Absorb, KeccakF;
    if k > 0 {
      StartRowsSound(p, rows, blocks, digest, k - 1);
      BlockEnds(p, rows, blocks, digest, k - 1);
    } else {
      assert LaneBlocks(blocks[..0]) == [];
    }
    assert LogicalRowOk(p, rows, blocks, digest, BLOCK_ROWS * k);
    StartRowExact(p, rows, blocks, digest, k, Sponge(LaneBlocks(blocks[..k])));
    StartStateIs(blocks, k);
  }

  lemma StartStateIs(blocks: seq<RateBlock>, k: nat)
    requires k < |blocks|
    ensures StartState(blocks, k) == Absorb(Sponge(LaneBlocks(blocks[..k])), LanesOfBlock(blocks[k]))
  {
  }

  lemma KeccakFIsRounds(s: State)
    ensures KeccakF(s) == Rounds(s, ROUNDS)
  {
  }

  lemma RowsTransition(p: int, rows: seq<Row>, blocks: seq<RateBlock>, digest: seq<Byte>)
    requires p > 1 && CanonicalRows(p, rows) && |digest| == 32
    requires LogicallySatisfied(p, rows, blocks, digest)
    ensures Transitions(p, |blocks|, rows)
  {
    hide RoundC, BooleanC, AbsorbC, DigestC, CanonicalRow;
    forall i | 0 <= i < N_ROWS
      ensures TransitionRow(p, |blocks|, rows, i)
    {
      assert LogicalRowOk(p, rows, blocks, digest, i);
    }
  }

  lemma LogicalSoundness(p: int, rows: seq<Row>, blocks: seq<RateBlock>, digest: seq<Byte>)
    requires p > 1 && CanonicalRows(p, rows) && |digest| == 32 && Fits(blocks)
    requires LogicallySatisfied(p, rows, blocks, digest)
    ensures Digest(Sponge(LaneBlocks(blocks))) == digest
  {
    hide Holds, StartState, LogicalRowOk, LaneBlocks, CanonicalRow, Digest, Sponge;
    var n := |blocks|;
    StartRowsSound(p, rows, blocks, digest, n - 1);
    BlockEnds(p, rows, blocks, digest, n - 1);
    assert blocks[..n] == blocks;
    assert LogicalRowOk(p, rows, blocks, digest, n * BLOCK_ROWS - 1);
    FinalRowExact(p, rows, blocks, digest, Sponge(LaneBlocks(blocks)));
  }

  lemma FinalRowExact(p: int, rows: seq<Row>, blocks: seq<RateBlock>, digest: seq<Byte>, s: State)
    requires p > 1 && CanonicalRows(p, rows) && |digest| == 32 && Fits(blocks)
    requires LogicalRowOk(p, rows, blocks, digest, |blocks| * BLOCK_ROWS - 1)
    requires Holds(rows[|blocks| * BLOCK_ROWS - 1].state, s)
    ensures Digest(s) == digest
  {
    hide Holds, RoundC, BooleanC, AbsorbC, DigestC, CanonicalRow, Digest, Active, ConstantCells;
    CanonicalStates(p, rows);
    DigestExact(p, digest, rows[|blocks| * BLOCK_ROWS - 1].state, s);
  }

  /** Any satisfying trace proves that the digest is the sponge of the blocks. */
  lemma Soundness(p: int, y: Layout, trace: seq<Row>, blocks: seq<RateBlock>, digest: seq<Byte>)
    requires ValidLayout(y) && |trace| == N_ROWS && Fits(blocks)
    requires Satisfied(p, y, trace, blocks, digest)
    ensures Digest(Sponge(LaneBlocks(blocks))) == digest
  {
    SatisfiedLogically(p, y, trace, blocks, digest);
    SatisfiedIsCanonical(p, LogicalRows(y, trace), blocks, digest);
    LogicalSoundness(p, LogicalRows(y, trace), blocks, digest);
  }

  /** For a preimage, the statement is the Keccak-256 relation wherever the padding is the standard's. */
  lemma SoundnessForPreimage(p: int, y: Layout, trace: seq<Row>, preimage: seq<Byte>, digest: seq<Byte>)
    requires ValidLayout(y) && |trace| == N_ROWS
    requires |preimage| % RATE_BYTES != RATE_BYTES - 1 && Fits(PaddedBlocks(preimage))
    requires Satisfied(p, y, trace, PaddedBlocks(preimage), digest)
    ensures Keccak256(preimage) == digest
  {
    Soundness(p, y, trace, PaddedBlocks(preimage), digest);
    SpongeOfPaddedBlocks(preimage);
  }

  // ----- completeness -----

  function StartStates(blocks: seq<RateBlock>): (starts: seq<State>)
    ensures |starts| == |blocks|
  {
    seq(|blocks|, k requires 0 <= k < |blocks| => StartState(blocks, k))
  }

  /** The rows that the trace builder writes for these blocks, in logical order. */
  function BuiltRows(blocks: seq<RateBlock>): (rows: seq<Row>)
    ensures |rows| == N_ROWS
  {
    TraceRows(StartStates(blocks))
  }

  lemma BuiltRowState(blocks: seq<RateBlock>, k: nat, j: nat)
    requires Fits(blocks) && k < |blocks| && j < BLOCK_ROWS
    ensures BLOCK_ROWS * k + j < N_ROWS
    ensures Holds(BuiltRows(blocks)[BLOCK_ROWS * k + j].state, Rounds(StartState(blocks, k), j))
  {
    hide BlockRow, TraceRows, StartState, Holds, Rounds;
    TraceRowAt(StartStates(blocks), k, j);
    BlockRowState(StartState(blocks, k), j);
  }

  lemma BuiltBlockEnd(blocks: seq<RateBlock>, k: nat)
    requires Fits(blocks) && k < |blocks|
    ensures BLOCK_ROWS * k + ROUNDS < N_ROWS
    ensures Holds(BuiltRows(blocks)[BLOCK_ROWS * k + ROUNDS].state, Sponge(LaneBlocks(blocks[..k + 1])))
  {
    hide BuiltRows, StartState, Holds, Rounds, KeccakF, Sponge, LaneBlocks;
    BuiltRowState(blocks, k, ROUNDS);
    SpongeStep(blocks, k);
    KeccakFIsRounds(StartState(blocks, k));
  }

  /** The first row of each built block absorbs its block into the state left by the previous row. */
  lemma BuiltStart(p: int, blocks: seq<RateBlock>, k: nat)
    requires p > 1 && Fits(blocks) && k < |blocks| && CanonicalRows(p, BuiltRows(blocks))
    ensures var rows, i := BuiltRows(blocks), k * BLOCK_ROWS;
            && Canonical(p, rows[PrevRow(i)].state, 25) && Canonical(p, rows[i].state, 25)
            && AbsorbC(p, SelectorsAt(|blocks|, i).starts, blocks, rows[PrevRow(i)].state, rows[i].state)
  {
    hide BuiltRows, StartState, Holds, Absorb, KeccakF, LaneBlocks, LanesOfBlock, AbsorbC, SelectorsAt, CanonicalRow;
    var rows, i := BuiltRows(blocks), k * BLOCK_ROWS;
    CanonicalStates(p, rows);
    BuiltRowState(blocks, k, 0);
    assert Rounds(StartState(blocks, k), 0) == StartState(blocks, k);
    StartStateIs(blocks, k);
    if k == 0 {
      assert LaneBlocks(blocks[..0]) == [];
    } else {
      BuiltBlockEnd(blocks, k - 1);
    }
    AbsorbExact(p, blocks, k, rows[PrevRow(i)].state, rows[i].state, Sponge(LaneBlocks(blocks[..k])));
  }

  lemma BuiltAbsorb(p: int, blocks: seq<RateBlock>, i: nat)
    requires p > 1 && Fits(blocks) && i < N_ROWS && CanonicalRows(p, BuiltRows(blocks))
    ensures var rows := BuiltRows(blocks);
            && Canonical(p, rows[PrevRow(i)].state, 25) && Canonical(p, rows[i].state, 25)
            && AbsorbC(p, SelectorsAt(|blocks|, i).starts, blocks, rows[PrevRow(i)].state, rows[i].state)
  {
    hide BuiltRows, AbsorbC, SelectorsAt, CanonicalRow;
    var rows := BuiltRows(blocks);
    CanonicalStates(p, rows);
    if k: nat :| k < |blocks| && i == k * BLOCK_ROWS {
      BuiltStart(p, blocks, k);
    } else {
      AbsorbOff(p, blocks, i, rows[PrevRow(i)].state, rows[i].state);
    }
  }

  lemma BuiltDigest(p: int, blocks: seq<RateBlock>, digest: seq<Byte>, i: nat)
    requires p > 1 && Fits(blocks) && |digest| == 32 && i < N_ROWS && CanonicalRows(p, BuiltRows(blocks))
    ensures Canonical(p, BuiltRows(blocks)[i].state, 25)
    ensures DigestC(p, SelectorsAt(|blocks|, i).final, digest, BuiltRows(blocks)[i].state)
       <==> i != |blocks| * BLOCK_ROWS - 1 || Digest(Sponge(LaneBlocks(blocks))) == digest
  {
    hide BuiltRows, DigestC, CanonicalRow, Active, ConstantCells, Sponge, LaneBlocks, Digest, Holds;
    var rows, n := BuiltRows(blocks), |blocks|;
    CanonicalStates(p, rows);
    if i == n * BLOCK_ROWS - 1 {
      BuiltBlockEnd(blocks, n - 1);
      assert blocks[..n] == blocks;
      DigestExact(p, digest, rows[i].state, Sponge(LaneBlocks(blocks)));
    } else {
      DigestOff(p, digest, rows[i].state);
    }
  }

  lemma BuiltRowsExact(p: int, blocks: seq<RateBlock>, digest: seq<Byte>)
    requires p > 1 && Fits(blocks) && |digest| == 32
    ensures CanonicalRows(p, BuiltRows(blocks))
    ensures LogicallySatisfied(p, BuiltRows(blocks), blocks, digest)
       <==> Digest(Sponge(LaneBlocks(blocks))) == digest
  {
    hide BooleanC, RoundC, AbsorbC, DigestC, TraceRows, Active, ConstantCells, Sponge, LaneBlocks, Digest, CanonicalRow;
    var rows := BuiltRows(blocks);
    TraceRowsTransition(p, StartStates(blocks));
    var final := |blocks| * BLOCK_ROWS - 1;
    forall i | 0 <= i < N_ROWS
      ensures LogicalRowOk(p, rows, blocks, digest, i)
         <==> i != final || Digest(Sponge(LaneBlocks(blocks))) == digest
    {
      assert TransitionRow(p, |blocks|, rows, i);
      BuiltAbsorb(p, blocks, i);
      BuiltDigest(p, blocks, digest, i);
    }
    assert LogicallySatisfied(p, rows, blocks, digest) ==> LogicalRowOk(p, rows, blocks, digest, final);
  }

  /**
   The built trace satisfies every constraint on all 256 rows, unused and wrap-around rows included,
   exactly when the claimed digest is the sponge digest of the blocks.
   */
  lemma Completeness(p: int, y: Layout, trace: seq<Row>, blocks: seq<RateBlock>, digest: seq<Byte>)
    requires p > 1 && ValidLayout(y) && |digest| == 32 && Fits(blocks)
    requires |trace| == N_ROWS && LogicalRows(y, trace) == BuiltRows(blocks)
    ensures Satisfied(p, y, trace, blocks, digest) <==> Digest(Sponge(LaneBlocks(blocks))) == digest
  {
    hide LogicalRowOk, Sponge, LaneBlocks, Digest, BuiltRows;
    BuiltRowsExact(p, blocks, digest);
    SatisfiedLogically(p, y, trace, blocks, digest);
  }

  // ----- the builder -----

  /** Absorb and write each block of a hash into blank rows from a start row; return the final state. */
  method WriteHash(trace: seq<Row>, y: Layout, start: nat, blocks: seq<RateBlock>)
    returns (written: seq<Row>, state: State)
    requires ValidLayout(y) && |trace| == N_ROWS && start + |blocks| * BLOCK_ROWS <= N_ROWS
    requires forall i :: start <= i < start + |blocks| * BLOCK_ROWS ==> trace[y.physical[i]] == ZeroRow()
    ensures |written| == N_ROWS && state == Sponge(LaneBlocks(blocks))
    ensures forall i :: 0 <= i < N_ROWS ==>
      written[y.physical[i]] == (if start <= i < start + |blocks| * BLOCK_ROWS
                                 then TraceRow(StartStates(blocks), i - start) else trace[y.physical[i]])
  {
    hide LanesOfBlock, Absorb, KeccakF, BlockRow, StartState, LaneBlocks, ZeroRow, Sponge, TraceRow;
    written, state := trace, ZeroState();
    EmptySponge(blocks);
    for b := 0 to |blocks|
      invariant |written| == N_ROWS && state == Sponge(LaneBlocks(blocks[..b]))
      invariant forall i :: 0 <= i < N_ROWS ==>
        written[y.physical[i]] == (if start <= i < start + b * BLOCK_ROWS
                                   then TraceRow(StartStates(blocks), i - start) else trace[y.physical[i]])
    {
      state := AbsorbBlock(state, blocks[b]);
      StartStateIs(blocks, b);
      written, state := WriteBlock(written, y, start + b * BLOCK_ROWS, state);
      HashBlock(blocks, b);
      SpongeStep(blocks, b);
    }
    assert blocks[..|blocks|] == blocks;
  }

  lemma HashBlock(blocks: seq<RateBlock>, b: nat)
    requires b < |blocks|
    ensures forall r :: b * BLOCK_ROWS <= r < (b + 1) * BLOCK_ROWS ==>
      TraceRow(StartStates(blocks), r) == BlockRow(StartState(blocks, b), r - b * BLOCK_ROWS)
  {
    hide BlockRow, StartState, ZeroRow;
    forall r | b * BLOCK_ROWS <= r < (b + 1) * BLOCK_ROWS
      ensures TraceRow(StartStates(blocks), r) == BlockRow(StartState(blocks, b), r - b * BLOCK_ROWS)
    {
      assert r / BLOCK_ROWS == b && r % BLOCK_ROWS == r - b * BLOCK_ROWS;
    }
  }

  lemma EmptySponge(blocks: seq<RateBlock>)
    ensures Sponge(LaneBlocks(blocks[..0])) == ZeroState()
  {
    assert LaneBlocks(blocks[..0]) == [];
  }

  method BuildTrace(blocks: seq<RateBlock>, y: Layout) returns (trace: seq<Row>)
    requires ValidLayout(y) && |blocks| * BLOCK_ROWS <= N_ROWS
    ensures |trace| == N_ROWS && LogicalRows(y, trace) == BuiltRows(blocks)
  {
    hide BlockRow, StartState, ZeroRow, Sponge;
    trace := seq(N_ROWS, _ => ZeroRow());
    var state;
    trace, state := WriteHash(trace, y, 0, blocks);
  }
}
