/**
 The unlock statement: four hashes chained over eight blocks of one trace. A secret and a nullifier seed
 sit in witness columns that are boolean on every row but never forced equal across rows; the secret is
 read at row 0, the seed's first lane at row 50 and its other lanes at row 75.
 */
module UnlockStatement {
  import opened Bits
  import opened KeccakSpec
  import opened KeccakWitness
  import opened KeccakPadding
  import opened PrimeField
  import opened RowLayout
  import opened KeccakAir
  import opened KeccakTrace
  import opened Abi
  import opened UnlockBlocks
  import KeccakStatement

  datatype Scope = OwnerPathOnly | Full

  datatype UnlockRow = UnlockRow(secret: Cells, seed: Cells, keccak: Row)

  /** The constants of the constraint evaluator. */
  datatype UnlockEval = UnlockEval(
    scope: Scope,
    identity: RateBlock,
    owner: RateBlock,
    nullifier0: RateBlock,
    nullifier1: RateBlock,
    proofInput: seq<RateBlock>,
    publicOwner: Bytes32,
    publicNullifier: Bytes32,
    publicProofInput: Bytes32)

  /** The evaluator's constants for public inputs and a claimed hash of them: the blocks with a blank
   (all-zero in the code) in place of the secret, root and seed. */
  function EvalClaiming(inputs: PublicInputs, scope: Scope, blank: Bytes32, claimed: Bytes32): (eval: UnlockEval)
    ensures |eval.proofInput| == 4 && eval.scope == scope
  {
    UnlockEval(scope, IdentityBlocks(blank)[0], OwnerBlocks(blank)[0],
               NullifierBlocks(inputs, blank)[0], NullifierBlocks(inputs, blank)[1], ProofInputBlocks(inputs),
               inputs.owner, inputs.nullifier, claimed)
  }

  /** The evaluator of the code claims the hash that it derives from the inputs. */
  function BuildEval(inputs: PublicInputs, scope: Scope, blank: Bytes32): (eval: UnlockEval)
  {
    EvalClaiming(inputs, scope, blank, DeriveProofInputHash(inputs))
  }

  function UsedBlocks(scope: Scope): nat { if scope.Full? then 8 else 2 }

  /** Block-start selectors of a logical row; blocks outside the scope are never selected. */
  function StartsAt(scope: Scope, row: nat): (starts: seq<int>)
    ensures |starts| == 8
  {
    seq(8, k requires 0 <= k < 8 => if k < UsedBlocks(scope) && row == k * BLOCK_ROWS then 1 else 0)
  }

  function OwnerFinal(row: nat): int { if row == 49 then 1 else 0 }

  function NullifierFinal(scope: Scope, row: nat): int { if scope.Full? && row == 99 then 1 else 0 }

  function ProofInputFinal(scope: Scope, row: nat): int { if scope.Full? && row == 199 then 1 else 0 }

  // ----- constraints -----

  ghost predicate CanonicalUnlock(p: int, row: UnlockRow)
  {
    Canonical(p, row.secret, 4) && Canonical(p, row.seed, 4) && CanonicalRow(p, row.keccak)
  }

  /** A constant block cell, zero above the rate. */
  function ConstantCell(block: RateBlock, l: nat, z: nat): int
    requires l < 25 && z < 64
  {
    KeccakStatement.AbsorbedCell(0, KeccakStatement.BlockCells(block), 0, l, z)
  }

  /** The previous state with a constant block absorbed. */
  function ContinuedCell(block: RateBlock, prev: int, l: nat, z: nat): int
    requires l < 25 && z < 64
  {
    KeccakStatement.AbsorbedCell(1, KeccakStatement.BlockCells(block), prev, l, z)
  }

  /** The value required of state cell [l][z] at the first row of block k. */
  function StartCell(eval: UnlockEval, k: nat, secret: Cells, seed: Cells, prev: Cells, l: nat, z: nat): int
    requires k < 8 && l < 25 && z < 64 && |eval.proofInput| == 4
    requires |secret| == |seed| == 4 && |prev| == 25
    requires forall i :: 0 <= i < 4 ==> |secret[i]| == |seed[i]| == 64
    requires forall i :: 0 <= i < 25 ==> |prev[i]| == 64
  {
    match k
    case 0 => if 4 <= l < 8 then secret[l - 4][z] else ConstantCell(eval.identity, l, z)
    case 1 => if 4 <= l < 8 then prev[l - 4][z] else ConstantCell(eval.owner, l, z)
    case 2 => if l == 16 then seed[0][z] else ConstantCell(eval.nullifier0, l, z)
    case 3 => if l < 3 then XorExpr(prev[l][z], seed[l + 1][z]) else ContinuedCell(eval.nullifier1, prev[l][z], l, z)
    case 4 => ConstantCell(eval.proofInput[0], l, z)
    case _ => ContinuedCell(eval.proofInput[k - 4], prev[l][z], l, z)
  }

  function StartCells(eval: UnlockEval, secret: Cells, seed: Cells, prev: Cells, l: nat, z: nat): (values: seq<int>)
    requires l < 25 && z < 64 && |eval.proofInput| == 4
    requires |secret| == |seed| == 4 && |prev| == 25
    requires forall i :: 0 <= i < 4 ==> |secret[i]| == |seed[i]| == 64
    requires forall i :: 0 <= i < 25 ==> |prev[i]| == 64
    ensures |values| == 8
  {
    seq(8, k requires 0 <= k < 8 => StartCell(eval, k, secret, seed, prev, l, z))
  }

  ghost predicate AbsorbC(p: int, eval: UnlockEval, starts: seq<int>, prev: Cells, row: UnlockRow)
    requires p > 1 && |starts| == 8 && |eval.proofInput| == 4 && Canonical(p, prev, 25) && CanonicalUnlock(p, row)
  {
    forall l, z :: 0 <= l < 25 && 0 <= z < 64 ==>
      Vanishes(p, SelectedSum(starts, row.keccak.state[l][z], StartCells(eval, row.secret, row.seed, prev, l, z), 8))
  }

  /** All constraints at logical row i, for rows of canonical field elements. */
  ghost predicate StatementRow(p: int, eval: UnlockEval, i: nat, prev: UnlockRow, row: UnlockRow, next: UnlockRow)
  {
    && p > 1 && |eval.proofInput| == 4
    && CanonicalUnlock(p, prev) && CanonicalUnlock(p, row) && CanonicalUnlock(p, next)
    && BooleanC(p, row.secret, 4) && BooleanC(p, row.seed, 4) && BooleanC(p, row.keccak.state, 25)
    && AbsorbC(p, eval, StartsAt(eval.scope, i), prev.keccak.state, row)
    && var n := UsedBlocks(eval.scope);
    && RoundC(p, Active(n, i), ConstantCells(n, i), row.keccak, next.keccak.state)
    && KeccakStatement.DigestC(p, OwnerFinal(i), eval.publicOwner, row.keccak.state)
    && KeccakStatement.DigestC(p, NullifierFinal(eval.scope, i), eval.publicNullifier, row.keccak.state)
    && KeccakStatement.DigestC(p, ProofInputFinal(eval.scope, i), eval.publicProofInput, row.keccak.state)
  }

  ghost function Check(p: int, eval: UnlockEval): RowCheck<UnlockRow>
  {
    (i: nat, prev: UnlockRow, row: UnlockRow, next: UnlockRow) => StatementRow(p, eval, i, prev, row, next)
  }

  /** The stored trace satisfies every constraint on every physical row. */
  ghost predicate Satisfied(p: int, y: Layout, trace: seq<UnlockRow>, eval: UnlockEval)
    requires ValidLayout(y) && |trace| == N_ROWS
  {
    HoldsOnTrace(y, trace, Check(p, eval))
  }

  ghost predicate RowOk(p: int, rows: seq<UnlockRow>, eval: UnlockEval, i: nat)
    requires |rows| == N_ROWS && i < N_ROWS
  {
    StatementRow(p, eval, i, rows[PrevRow(i)], rows[i], rows[NextRow(i)])
  }

  ghost predicate LogicallySatisfied(p: int, rows: seq<UnlockRow>, eval: UnlockEval)
    requires |rows| == N_ROWS
  {
    forall i :: 0 <= i < N_ROWS ==> RowOk(p, rows, eval, i)
  }

  lemma SatisfiedLogically(p: int, y: Layout, trace: seq<UnlockRow>, eval: UnlockEval)
    requires ValidLayout(y) && |trace| == N_ROWS
    ensures Satisfied(p, y, trace, eval) <==> LogicallySatisfied(p, LogicalRows(y, trace), eval)
  {
    hide StatementRow;
    var rows, check := LogicalRows(y, trace), Check(p, eval);
    LayoutInvisible(y, trace, check);
    assert forall i :: 0 <= i < N_ROWS ==> HoldsAt(rows, check, i) == RowOk(p, rows, eval, i);
  }

  // ----- the state each block starts from -----

  /** The absorbed state of block k when the hashes run on this secret, root and seed. */
  function UnlockStart(inputs: PublicInputs, secret: Bytes32, root: Bytes32, seed: Bytes32, k: nat): State
    requires k < 8
  {
    if k == 0 then KeccakStatement.StartState(IdentityBlocks(secret), 0)
    else if k == 1 then KeccakStatement.StartState(OwnerBlocks(root), 0)
    else if k < 4 then KeccakStatement.StartState(NullifierBlocks(inputs, seed), k - 2)
    else KeccakStatement.StartState(ProofInputBlocks(inputs), k - 4)
  }

  lemma FirstStart(blocks: seq<RateBlock>, l: nat, z: nat)
    requires 0 < |blocks| && l < 25 && z < 64
    ensures ConstantCell(blocks[0], l, z) == BitCell(KeccakStatement.StartState(blocks, 0)[l][z])
    ensures l < RATE_LANES ==> KeccakStatement.StartState(blocks, 0)[l] == LanesOfBlock(blocks[0])[l]
    ensures l >= RATE_LANES ==> !KeccakStatement.StartState(blocks, 0)[l][z]
  {
    hide LanesOfBlock;
    KeccakStatement.EmptySponge(blocks);
    KeccakStatement.AbsorbedCellIsBit(0, blocks[0], ZeroState(), l, z);
    if l < RATE_LANES {
      assert XorLane(ZeroLane(), LanesOfBlock(blocks[0])[l]) == LanesOfBlock(blocks[0])[l];
    }
  }

  lemma NextStart(blocks: seq<RateBlock>, i: nat, l: nat, z: nat)
    requires 0 < i < |blocks| && l < 25 && z < 64
    ensures var s := KeccakF(KeccakStatement.StartState(blocks, i - 1));
            && KeccakStatement.StartState(blocks, i) == Absorb(s, LanesOfBlock(blocks[i]))
            && ContinuedCell(blocks[i], BitCell(s[l][z]), l, z) == BitCell(KeccakStatement.StartState(blocks, i)[l][z])
  {
    hide LanesOfBlock, KeccakF, Absorb, KeccakStatement.BlockCells, KeccakStatement.StartState, KeccakStatement.AbsorbedCell;
    var s := KeccakF(KeccakStatement.StartState(blocks, i - 1));
    KeccakStatement.SpongeStep(blocks, i - 1);
    KeccakStatement.StartStateIs(blocks, i);
    KeccakStatement.AbsorbedCellIsBit(i, blocks[i], s, l, z);
    SameContinuation(i, KeccakStatement.BlockCells(blocks[i]), BitCell(s[l][z]), l, z);
  }

  lemma SameContinuation(i: nat, block: Cells, prev: int, l: nat, z: nat)
    requires i > 0 && |block| == RATE_LANES && forall j :: 0 <= j < RATE_LANES ==> |block[j]| == 64
    requires l < 25 && z < 64
    ensures KeccakStatement.AbsorbedCell(1, block, prev, l, z) == KeccakStatement.AbsorbedCell(i, block, prev, l, z)
  {
  }

  // ----- each block start -----

  ghost predicate Shapes(secret: Cells, seed: Cells, prev: Cells)
  {
    && |secret| == |seed| == 4 && |prev| == 25
    && (forall i :: 0 <= i < 4 ==> |secret[i]| == |seed[i]| == 64)
    && (forall i :: 0 <= i < 25 ==> |prev[i]| == 64)
  }

  /** What the cells around the first row of block k must hold for the hashes to run on these values. */
  ghost predicate Reads(inputs: PublicInputs, secret: Bytes32, root: Bytes32, seed: Bytes32,
                        k: nat, secretCells: Cells, seedCells: Cells, prev: Cells)
    requires k < 8 && Shapes(secretCells, seedCells, prev)
  {
    && (k == 0 ==> Holds(secretCells, LanesOfBytes(secret)))
    && (k == 1 ==> forall l :: 0 <= l < 4 ==> HoldsLane(prev[l], LanesOfBytes(root)[l]))
    && (k == 2 ==> HoldsLane(seedCells[0], LanesOfBytes(seed)[0]))
    && (k == 3 ==> forall l :: 1 <= l < 4 ==> HoldsLane(seedCells[l], LanesOfBytes(seed)[l]))
    && (k == 3 || k > 4 ==> Holds(prev, KeccakF(UnlockStart(inputs, secret, root, seed, k - 1))))
  }

  /** A first block that is constant except for argument lanes from lo to hi. */
  lemma PatchedStart(blocks: seq<RateBlock>, blank: RateBlock, lo: nat, hi: nat, arg: seq<Lane>, cells: Cells, l: nat, z: nat)
    requires 0 < |blocks| && l < 25 && z < 64 && lo <= hi <= RATE_LANES && hi - lo <= |arg| && hi - lo <= |cells|
    requires l < RATE_LANES ==>
      LanesOfBlock(blocks[0])[l] == if lo <= l < hi then arg[l - lo] else LanesOfBlock(blank)[l]
    requires lo <= l < hi ==> HoldsLane(cells[l - lo], arg[l - lo])
    ensures (if lo <= l < hi then cells[l - lo][z] else ConstantCell(blank, l, z))
         == BitCell(KeccakStatement.StartState(blocks, 0)[l][z])
  {
    hide LanesOfBlock, KeccakStatement.StartState, ConstantCell, BitCell;
    FirstStart(blocks, l, z);
    FirstStart([blank], l, z);
  }

  /** A continuation block that is constant except for its first n lanes. */
  lemma PatchedNext(blocks: seq<RateBlock>, blank: RateBlock, n: nat, arg: seq<Lane>, cells: Cells, prev: seq<int>, l: nat, z: nat)
    requires |blocks| == 2 && l < 25 && z < 64 && n <= RATE_LANES && n <= |arg| && n <= |cells|
    requires l < RATE_LANES ==> LanesOfBlock(blocks[1])[l] == if l < n then arg[l] else LanesOfBlock(blank)[l]
    requires l < n ==> HoldsLane(cells[l], arg[l])
    requires HoldsLane(prev, KeccakF(KeccakStatement.StartState(blocks, 0))[l])
    ensures (if l < n then XorExpr(prev[z], cells[l][z]) else ContinuedCell(blank, prev[z], l, z))
         == BitCell(KeccakStatement.StartState(blocks, 1)[l][z])
  {
    hide LanesOfBlock, KeccakStatement.StartState, KeccakF, BitCell, XorExpr, KeccakStatement.BlockCells;
    hide KeccakStatement.AbsorbedCell;
    var s := KeccakF(KeccakStatement.StartState(blocks, 0));
    NextStart(blocks, 1, l, z);
    if l < n {
      XorBits(s[l][z], arg[l][z]);
    } else {
      KeccakStatement.AbsorbedCellIsBit(1, blank, s, l, z);
    }
  }

  /** Under the right reads, the required cell is the bit of the state the hash starts the block from. */
  lemma StartCellIsBit(inputs: PublicInputs, scope: Scope, blank: Bytes32, claimed: Bytes32, secret: Bytes32, root: Bytes32, seed: Bytes32,
                       k: nat, secretCells: Cells, seedCells: Cells, prev: Cells, l: nat, z: nat)
    requires k < 8 && Shapes(secretCells, seedCells, prev) && l < 25 && z < 64
    requires Reads(inputs, secret, root, seed, k, secretCells, seedCells, prev)
    ensures StartCell(EvalClaiming(inputs, scope, blank, claimed), k, secretCells, seedCells, prev, l, z)
         == BitCell(UnlockStart(inputs, secret, root, seed, k)[l][z])
  {
    hide LanesOfBytes, LanesOfBlock, IdentityBlocks, OwnerBlocks, NullifierBlocks, ProofInputBlocks, KeccakF;
    hide KeccakStatement.StartState, ConstantCell, ContinuedCell, BitCell, DeriveProofInputHash, XorExpr;
    var lanes := LanesOfBytes(seed);
    if k == 0 {
      if l < RATE_LANES { IdentityLane(secret, blank, l); }
      PatchedStart(IdentityBlocks(secret), IdentityBlocks(blank)[0], 4, 8, LanesOfBytes(secret), secretCells, l, z);
    } else if k == 1 {
      if l < RATE_LANES { OwnerLane(root, blank, l); }
      PatchedStart(OwnerBlocks(root), OwnerBlocks(blank)[0], 4, 8, LanesOfBytes(root), prev, l, z);
    } else if k == 2 {
      if l < RATE_LANES { NullifierLane(inputs, seed, blank, l); }
      PatchedStart(NullifierBlocks(inputs, seed), NullifierBlocks(inputs, blank)[0], 16, 17, lanes, seedCells, l, z);
    } else if k == 3 {
      if l < RATE_LANES { NullifierLane(inputs, seed, blank, l); }
      assert HoldsLane(prev[l], KeccakF(UnlockStart(inputs, secret, root, seed, 2))[l]);
      PatchedNext(NullifierBlocks(inputs, seed), NullifierBlocks(inputs, blank)[1], 3, lanes[1..], seedCells[1..], prev[l], l, z);
    } else if k == 4 {
      FirstStart(ProofInputBlocks(inputs), l, z);
    } else {
      NextStart(ProofInputBlocks(inputs), k - 4, l, z);
      assert HoldsLane(prev[l], KeccakF(UnlockStart(inputs, secret, root, seed, k - 1))[l]);
    }
  }

  /** At the first row of an active block the absorb constraints pin the state. */
  lemma StartExact(p: int, inputs: PublicInputs, scope: Scope, blank: Bytes32, claimed: Bytes32, secret: Bytes32, root: Bytes32, seed: Bytes32,
                   k: nat, prev: Cells, row: UnlockRow)
    requires p > 1 && k < UsedBlocks(scope) && Canonical(p, prev, 25) && CanonicalUnlock(p, row)
    requires Reads(inputs, secret, root, seed, k, row.secret, row.seed, prev)
    ensures AbsorbC(p, EvalClaiming(inputs, scope, blank, claimed), StartsAt(scope, k * BLOCK_ROWS), prev, row)
       <==> Holds(row.keccak.state, UnlockStart(inputs, secret, root, seed, k))
  {
    hide SelectedSum, StartCell, UnlockStart, Reads, Gated, Vanishes, BitCell, EvalClaiming, CanonicalRow;
    var eval, starts, cur := EvalClaiming(inputs, scope, blank, claimed), StartsAt(scope, k * BLOCK_ROWS), row.keccak.state;
    var target := UnlockStart(inputs, secret, root, seed, k);
    CanonicalState(p, row.keccak);
    forall l, z | 0 <= l < 25 && 0 <= z < 64
      ensures Vanishes(p, SelectedSum(starts, cur[l][z], StartCells(eval, row.secret, row.seed, prev, l, z), 8))
         <==> cur[l][z] == BitCell(target[l][z])
    {
      SelectedOne(starts, cur[l][z], StartCells(eval, row.secret, row.seed, prev, l, z), k, 8);
      StartCellIsBit(inputs, scope, blank, claimed, secret, root, seed, k, row.secret, row.seed, prev, l, z);
      Pin(p, cur[l][z], target[l][z]);
    }
    if AbsorbC(p, eval, starts, prev, row) {
      forall l | 0 <= l < 25
        ensures HoldsLane(cur[l], target[l])
      {
        forall z | 0 <= z < 64
          ensures cur[l][z] == BitCell(target[l][z])
        {
          assert Vanishes(p, SelectedSum(starts, cur[l][z], StartCells(eval, row.secret, row.seed, prev, l, z), 8));
        }
      }
    }
  }

  lemma CanonicalState(p: int, row: Row)
    requires CanonicalRow(p, row)
    ensures Canonical(p, row.state, 25)
  {
  }

  lemma AbsorbOff(p: int, eval: UnlockEval, i: nat, prev: Cells, row: UnlockRow)
    requires p > 1 && |eval.proofInput| == 4 && Canonical(p, prev, 25) && CanonicalUnlock(p, row)
    requires forall k :: 0 <= k < UsedBlocks(eval.scope) ==> i != k * BLOCK_ROWS
    ensures AbsorbC(p, eval, StartsAt(eval.scope, i), prev, row)
  {
    hide SelectedSum, StartCells;
    var starts, cur := StartsAt(eval.scope, i), row.keccak.state;
    forall l, z | 0 <= l < 25 && 0 <= z < 64
      ensures SelectedSum(starts, cur[l][z], StartCells(eval, row.secret, row.seed, prev, l, z), 8) == 0
    {
      SelectedNone(starts, cur[l][z], StartCells(eval, row.secret, row.seed, prev, l, z), 8);
    }
  }
}
