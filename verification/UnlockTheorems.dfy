/**
 What a satisfying unlock trace proves, and when the honest trace satisfies it.
 */
module UnlockTheorems {
  import opened Bits
  import opened KeccakSpec
  import opened KeccakWitness
  import opened KeccakPadding
  import opened PrimeField
  import opened RowLayout
  import opened KeccakAir
  import opened KeccakTrace
  import opened Abi
  import opened UnlockBlocks
  import opened UnlockStatement
  import KeccakStatement

  // ----- hashing the padded preimages -----

  /** The last block of a padded message ends in the message's Keccak-256 digest. */
  lemma LastBlockDigest(message: seq<Byte>, blocks: seq<RateBlock>)
    requires blocks == PaddedBlocks(message) && |message| % RATE_BYTES != RATE_BYTES - 1 && 0 < |blocks|
    ensures Digest(KeccakF(KeccakStatement.StartState(blocks, |blocks| - 1))) == Keccak256(message)
  {
    hide KeccakF, Sponge, LaneBlocks, Digest, Keccak256, PaddedBlocks, KeccakStatement.StartState;
    KeccakStatement.SpongeStep(blocks, |blocks| - 1);
    assert blocks[..|blocks|] == blocks;
    SpongeOfPaddedBlocks(message);
  }

  lemma HashDigests(inputs: PublicInputs, secret: Bytes32, root: Bytes32, seed: Bytes32)
    ensures Digest(KeccakF(UnlockStart(inputs, secret, root, seed, 0))) == DeriveIdentityRoot(secret)
    ensures Digest(KeccakF(UnlockStart(inputs, secret, root, seed, 1))) == Keccak256(OwnerPreimage(root))
    ensures Digest(KeccakF(UnlockStart(inputs, secret, root, seed, 3)))
         == DeriveNullifier(inputs.owner, inputs.action, inputs.policy, seed)
    ensures Digest(KeccakF(UnlockStart(inputs, secret, root, seed, 7))) == DeriveProofInputHash(inputs)
  {
    hide KeccakF, Digest, Keccak256, PaddedBlocks, KeccakStatement.StartState, DomainHash;
    LastBlockDigest(IdentityPreimage(secret), IdentityBlocks(secret));
    LastBlockDigest(OwnerPreimage(root), OwnerBlocks(root));
    LastBlockDigest(NullifierPreimage(inputs.owner, inputs.action, inputs.policy, seed), NullifierBlocks(inputs, seed));
    LastBlockDigest(ProofInputPreimage(inputs), ProofInputBlocks(inputs));
  }

  // ----- reading the witness out of a satisfying trace -----

  function LanesOf(cells: Cells): (lanes: seq<Lane>)
    requires |cells| == 4 && forall l :: 0 <= l < 4 ==> |cells[l]| == 64
    ensures |lanes| == 4
  {
    seq(4, l requires 0 <= l < 4 => LaneOf(cells[l]))
  }

  lemma BooleanLanesHold(p: int, cells: Cells)
    requires Prime(p) && Canonical(p, cells, 4) && BooleanC(p, cells, 4)
    ensures Holds(cells, LanesOf(cells))
  {
    forall l, z | 0 <= l < 4 && 0 <= z < 64
      ensures cells[l][z] == BitCell(LaneOf(cells[l])[z])
    {
      BooleanRoots(p, cells[l][z]);
    }
  }

  function Cores(rows: seq<UnlockRow>): (cores: seq<Row>)
    ensures |cores| == |rows|
  {
    seq(|rows|, i requires 0 <= i < |rows| => rows[i].keccak)
  }

  ghost predicate CanonicalAll(p: int, rows: seq<UnlockRow>)
  {
    |rows| == N_ROWS && forall i :: 0 <= i < N_ROWS ==> CanonicalUnlock(p, rows[i])
  }

  lemma SatisfiedParts(p: int, rows: seq<UnlockRow>, eval: UnlockEval)
    requires |rows| == N_ROWS && LogicallySatisfied(p, rows, eval)
    ensures p > 1 && CanonicalAll(p, rows) && CanonicalRows(p, Cores(rows))
    ensures Transitions(p, UsedBlocks(eval.scope), Cores(rows))
  {
    hide CanonicalRow, Canonical, BooleanC, RoundC, AbsorbC, KeccakStatement.DigestC, Active, ConstantCells, StartsAt;
    assert RowOk(p, rows, eval, 0);
    forall i | 0 <= i < N_ROWS ensures CanonicalUnlock(p, rows[i]) {
      assert RowOk(p, rows, eval, i);
    }
    forall i | 0 <= i < N_ROWS ensures TransitionRow(p, UsedBlocks(eval.scope), Cores(rows), i) {
      assert RowOk(p, rows, eval, i);
    }
  }

  /** A block that starts from its hash state ends in the permuted one. */
  lemma BlockEnd(p: int, rows: seq<UnlockRow>, eval: UnlockEval, k: nat, s: State)
    requires |rows| == N_ROWS && LogicallySatisfied(p, rows, eval) && k < UsedBlocks(eval.scope)
    requires Holds(rows[k * BLOCK_ROWS].keccak.state, s)
    ensures Holds(rows[k * BLOCK_ROWS + ROUNDS].keccak.state, KeccakF(s))
  {
    hide Holds, Rounds, KeccakF, RowOk, TransitionRow, CanonicalRow, CanonicalUnlock;
    SatisfiedParts(p, rows, eval);
    BlockRuns(p, UsedBlocks(eval.scope), Cores(rows), k, s, ROUNDS);
    KeccakStatement.KeccakFIsRounds(s);
  }

  /** The secret is read at row 0 alone. */
  function SecretOf(rows: seq<UnlockRow>): Bytes32
    requires |rows| == N_ROWS && |rows[0].secret| == 4 && forall l :: 0 <= l < 4 ==> |rows[0].secret[l]| == 64
  {
    BytesOfLanes(LanesOf(rows[0].secret))
  }

  /** The seed is read at rows 50 and 75: one lane and three lanes. */
  function SeedOf(rows: seq<UnlockRow>): Bytes32
    requires |rows| == N_ROWS && |rows[50].seed| == |rows[75].seed| == 4
    requires forall l :: 0 <= l < 4 ==> |rows[50].seed[l]| == |rows[75].seed[l]| == 64
  {
    BytesOfLanes(LanesOf(rows[50].seed)[..1] + LanesOf(rows[75].seed)[1..])
  }

  lemma WitnessReads(p: int, rows: seq<UnlockRow>, eval: UnlockEval)
    requires Prime(p) && |rows| == N_ROWS && LogicallySatisfied(p, rows, eval)
    ensures CanonicalAll(p, rows)
    ensures Holds(rows[0].secret, LanesOfBytes(SecretOf(rows)))
    ensures HoldsLane(rows[50].seed[0], LanesOfBytes(SeedOf(rows))[0])
    ensures forall l :: 1 <= l < 4 ==> HoldsLane(rows[75].seed[l], LanesOfBytes(SeedOf(rows))[l])
  {
    hide CanonicalRow, RoundC, AbsorbC, KeccakStatement.DigestC, Active, ConstantCells, StartsAt, BytesOfLanes, LanesOfBytes;
    SatisfiedParts(p, rows, eval);
    assert RowOk(p, rows, eval, 0) && RowOk(p, rows, eval, 50) && RowOk(p, rows, eval, 75);
    BooleanLanesHold(p, rows[0].secret);
    BooleanLanesHold(p, rows[50].seed);
    BooleanLanesHold(p, rows[75].seed);
    LanesOfBytesOfLanes(LanesOf(rows[0].secret));
    LanesOfBytesOfLanes(LanesOf(rows[50].seed)[..1] + LanesOf(rows[75].seed)[1..]);
  }

  lemma RowAbsorbs(p: int, rows: seq<UnlockRow>, eval: UnlockEval, i: nat)
    requires |rows| == N_ROWS && i < N_ROWS && RowOk(p, rows, eval, i)
    ensures p > 1 && |eval.proofInput| == 4
    ensures CanonicalUnlock(p, rows[i]) && Canonical(p, rows[PrevRow(i)].keccak.state, 25)
    ensures AbsorbC(p, eval, StartsAt(eval.scope, i), rows[PrevRow(i)].keccak.state, rows[i])
  {
    hide BooleanC, RoundC, AbsorbC, KeccakStatement.DigestC, Active, ConstantCells, StartsAt;
  }

  /** The first four lanes of a state are the lanes of its digest. */
  lemma DigestLanes(prev: Cells, s: State, root: Bytes32)
    requires Holds(prev, s) && Digest(s) == root
    ensures forall l :: 0 <= l < 4 ==> HoldsLane(prev[l], LanesOfBytes(root)[l])
  {
    hide LanesOfBytes, BytesOfLanes, HoldsLane;
    LanesOfBytesOfLanes(s[..4]);
  }

  /** By induction over the blocks, every active block starts from the state of the honest hashes. */
  lemma {:induction false} StartsSound(p: int, rows: seq<UnlockRow>, inputs: PublicInputs, scope: Scope, blank: Bytes32, claimed: Bytes32,
                                       secret: Bytes32, seed: Bytes32, k: nat)
    requires |rows| == N_ROWS && LogicallySatisfied(p, rows, EvalClaiming(inputs, scope, blank, claimed))
    requires k < UsedBlocks(scope) && CanonicalAll(p, rows)
    requires Holds(rows[0].secret, LanesOfBytes(secret))
    requires HoldsLane(rows[50].seed[0], LanesOfBytes(seed)[0])
    requires forall l :: 1 <= l < 4 ==> HoldsLane(rows[75].seed[l], LanesOfBytes(seed)[l])
    ensures Holds(rows[k * BLOCK_ROWS].keccak.state, UnlockStart(inputs, secret, DeriveIdentityRoot(secret), seed, k))
  {
    hide Holds, HoldsLane, RowOk, CanonicalRow, Canonical, UnlockStart, EvalClaiming, KeccakF, Digest, AbsorbC, StartsAt;
    hide DeriveIdentityRoot, LanesOfBytes, DeriveNullifier, DeriveProofInputHash, OwnerPreimage, Keccak256;
    var eval, root, i := EvalClaiming(inputs, scope, blank, claimed), DeriveIdentityRoot(secret), k * BLOCK_ROWS;
    var prev := rows[PrevRow(i)].keccak.state;
    assert RowOk(p, rows, eval, i);
    RowAbsorbs(p, rows, eval, i);
    if k > 0 {
      StartsSound(p, rows, inputs, scope, blank, claimed, secret, seed, k - 1);
      BlockEnd(p, rows, eval, k - 1, UnlockStart(inputs, secret, root, seed, k - 1));
      assert PrevRow(i) == (k - 1) * BLOCK_ROWS + ROUNDS;
      if k == 1 {
        HashDigests(inputs, secret, root, seed);
        DigestLanes(prev, KeccakF(UnlockStart(inputs, secret, root, seed, 0)), root);
      }
    }
    CanonicalShapes(p, rows[i], prev);
    StartExact(p, inputs, scope, blank, claimed, secret, root, seed, k, prev, rows[i]);
  }

  lemma CanonicalShapes(p: int, row: UnlockRow, prev: Cells)
    requires CanonicalUnlock(p, row) && Canonical(p, prev, 25)
    ensures Shapes(row.secret, row.seed, prev)
  {
  }

  lemma FinalDigest(p: int, rows: seq<UnlockRow>, eval: UnlockEval, k: nat, s: State)
    requires |rows| == N_ROWS && LogicallySatisfied(p, rows, eval) && k < UsedBlocks(eval.scope)
    requires Holds(rows[k * BLOCK_ROWS].keccak.state, s)
    ensures k == 1 ==> Digest(KeccakF(s)) == eval.publicOwner
    ensures k == 3 ==> Digest(KeccakF(s)) == eval.publicNullifier
    ensures k == 7 ==> Digest(KeccakF(s)) == eval.publicProofInput
  {
    hide Holds, RoundC, BooleanC, AbsorbC, KeccakStatement.DigestC, Canonical, CanonicalRow, Digest, KeccakF, Active, ConstantCells, StartsAt;
    BlockEnd(p, rows, eval, k, s);
    var i := k * BLOCK_ROWS + ROUNDS;
    assert RowOk(p, rows, eval, i);
    CanonicalState(p, rows[i].keccak);
    if k == 1 { KeccakStatement.DigestExact(p, eval.publicOwner, rows[i].keccak.state, KeccakF(s)); }
    if k == 3 { KeccakStatement.DigestExact(p, eval.publicNullifier, rows[i].keccak.state, KeccakF(s)); }
    if k == 7 { KeccakStatement.DigestExact(p, eval.publicProofInput, rows[i].keccak.state, KeccakF(s)); }
  }

  /** The relation that an unlock proof is about. */
  ghost predicate Unlocks(scope: Scope, inputs: PublicInputs, secret: Bytes32, seed: Bytes32)
  {
    && DeriveOwner(secret) == inputs.owner
    && (scope.Full? ==> DeriveNullifier(inputs.owner, inputs.action, inputs.policy, seed) == inputs.nullifier)
  }

  lemma LogicalSoundness(p: int, rows: seq<UnlockRow>, inputs: PublicInputs, scope: Scope, blank: Bytes32, claimed: Bytes32)
    requires Prime(p) && |rows| == N_ROWS && LogicallySatisfied(p, rows, EvalClaiming(inputs, scope, blank, claimed))
    ensures CanonicalAll(p, rows) && Unlocks(scope, inputs, SecretOf(rows), SeedOf(rows))
    ensures scope.Full? ==> claimed == DeriveProofInputHash(inputs)
  {
    hide Holds, HoldsLane, RowOk, CanonicalRow, UnlockStart, KeccakF, Digest, LanesOfBytes, SecretOf, SeedOf;
    hide IdentityBlocks, OwnerBlocks, NullifierBlocks, ProofInputBlocks, OwnerPreimage, DeriveIdentityRoot, Keccak256, DeriveNullifier, DeriveProofInputHash;
    var eval := EvalClaiming(inputs, scope, blank, claimed);
    WitnessReads(p, rows, eval);
    var secret, seed := SecretOf(rows), SeedOf(rows);
    var root := DeriveIdentityRoot(secret);
    HashDigests(inputs, secret, root, seed);
    StartsSound(p, rows, inputs, scope, blank, claimed, secret, seed, 1);
    FinalDigest(p, rows, eval, 1, UnlockStart(inputs, secret, root, seed, 1));
    if scope.Full? {
      StartsSound(p, rows, inputs, scope, blank, claimed, secret, seed, 3);
      FinalDigest(p, rows, eval, 3, UnlockStart(inputs, secret, root, seed, 3));
      StartsSound(p, rows, inputs, scope, blank, claimed, secret, seed, 7);
      FinalDigest(p, rows, eval, 7, UnlockStart(inputs, secret, root, seed, 7));
    }
  }

  /**
   Every satisfying trace, in any storage order, contains one secret and one seed that open the public
   owner commitment and, in the full scope, the public nullifier: the secret is read off row 0, the first
   lane of the seed off row 50 and its other lanes off row 75. In the full scope a claimed hash of the
   public inputs is the hash of them.
   */
  lemma Soundness(p: int, y: Layout, trace: seq<UnlockRow>, inputs: PublicInputs, scope: Scope, blank: Bytes32, claimed: Bytes32)
    requires Prime(p) && ValidLayout(y) && |trace| == N_ROWS
    requires Satisfied(p, y, trace, EvalClaiming(inputs, scope, blank, claimed))
    ensures CanonicalAll(p, LogicalRows(y, trace))
    ensures Unlocks(scope, inputs, SecretOf(LogicalRows(y, trace)), SeedOf(LogicalRows(y, trace)))
    ensures scope.Full? ==> claimed == DeriveProofInputHash(inputs)
  {
    hide LogicallySatisfied, Satisfied, Unlocks, EvalClaiming;
    SatisfiedLogically(p, y, trace, EvalClaiming(inputs, scope, blank, claimed));
    LogicalSoundness(p, LogicalRows(y, trace), inputs, scope, blank, claimed);
  }

  // ----- the honest trace -----

  function HonestStarts(inputs: PublicInputs, scope: Scope, secret: Bytes32, seed: Bytes32): (starts: seq<State>)
    ensures |starts| == UsedBlocks(scope)
  {
    seq(UsedBlocks(scope), k requires 0 <= k < UsedBlocks(scope) =>
      UnlockStart(inputs, secret, DeriveIdentityRoot(secret), seed, k))
  }

  /** The rows the builder writes: constant witness columns beside the hash rows. */
  function HonestRows(inputs: PublicInputs, scope: Scope, secret: Bytes32, seed: Bytes32): (rows: seq<UnlockRow>)
    ensures |rows| == N_ROWS
  {
    var starts := HonestStarts(inputs, scope, secret, seed);
    seq(N_ROWS, i requires 0 <= i < N_ROWS =>
      UnlockRow(FieldOf(LanesOfBytes(secret)), FieldOf(LanesOfBytes(seed)), TraceRow(starts, i)))
  }

  lemma HonestCanonical(p: int, inputs: PublicInputs, scope: Scope, secret: Bytes32, seed: Bytes32)
    requires p > 1
    ensures CanonicalAll(p, HonestRows(inputs, scope, secret, seed))
    ensures CanonicalRows(p, Cores(HonestRows(inputs, scope, secret, seed)))
    ensures Transitions(p, UsedBlocks(scope), Cores(HonestRows(inputs, scope, secret, seed)))
    ensures Cores(HonestRows(inputs, scope, secret, seed)) == TraceRows(HonestStarts(inputs, scope, secret, seed))
  {
    hide CanonicalRow, TransitionRow, TraceRow, HonestStarts, LanesOfBytes, FieldOf, Canonical;
    var rows, starts := HonestRows(inputs, scope, secret, seed), HonestStarts(inputs, scope, secret, seed);
    assert Cores(rows) == TraceRows(starts);
    TraceRowsTransition(p, starts);
    FieldOfCanonical(p, LanesOfBytes(secret));
    FieldOfCanonical(p, LanesOfBytes(seed));
    forall i | 0 <= i < N_ROWS ensures CanonicalUnlock(p, rows[i]) {
      assert Cores(rows)[i] == rows[i].keccak;
    }
  }

  lemma LanesBoolean(p: int, cells: Cells, lanes: seq<Lane>)
    requires p > 1 && |lanes| == 4 && Canonical(p, cells, 4) && Holds(cells, lanes)
    ensures BooleanC(p, cells, 4)
  {
    forall l, z | 0 <= l < 4 && 0 <= z < 64
      ensures cells[l][z] * (cells[l][z] - 1) == 0
    {
      assert HoldsLane(cells[l], lanes[l]);
    }
  }

  lemma HonestState(inputs: PublicInputs, scope: Scope, secret: Bytes32, seed: Bytes32, k: nat, j: nat)
    requires k < UsedBlocks(scope) && j < BLOCK_ROWS
    ensures k * BLOCK_ROWS + j < N_ROWS
    ensures Holds(HonestRows(inputs, scope, secret, seed)[k * BLOCK_ROWS + j].keccak.state,
                  Rounds(UnlockStart(inputs, secret, DeriveIdentityRoot(secret), seed, k), j))
  {
    hide TraceRow, UnlockStart, Holds, Rounds, BlockRow, LanesOfBytes, FieldOf, DeriveIdentityRoot;
    var starts := HonestStarts(inputs, scope, secret, seed);
    TraceRowAt(starts, k, j);
    assert TraceRows(starts)[BLOCK_ROWS * k + j] == TraceRow(starts, BLOCK_ROWS * k + j);
    BlockRowState(starts[k], j);
  }

  lemma HonestEnd(inputs: PublicInputs, scope: Scope, secret: Bytes32, seed: Bytes32, k: nat)
    requires k < UsedBlocks(scope)
    ensures Holds(HonestRows(inputs, scope, secret, seed)[k * BLOCK_ROWS + ROUNDS].keccak.state,
                  KeccakF(UnlockStart(inputs, secret, DeriveIdentityRoot(secret), seed, k)))
  {
    hide HonestRows, UnlockStart, Holds, Rounds, KeccakF, DeriveIdentityRoot;
    HonestState(inputs, scope, secret, seed, k, ROUNDS);
    KeccakStatement.KeccakFIsRounds(UnlockStart(inputs, secret, DeriveIdentityRoot(secret), seed, k));
  }

  lemma HonestReads(inputs: PublicInputs, scope: Scope, secret: Bytes32, seed: Bytes32, k: nat)
    requires k < UsedBlocks(scope) && CanonicalAll(2, HonestRows(inputs, scope, secret, seed))
    ensures var rows, i := HonestRows(inputs, scope, secret, seed), k * BLOCK_ROWS;
            var prev := rows[PrevRow(i)].keccak.state;
            && Shapes(rows[i].secret, rows[i].seed, prev)
            && Reads(inputs, secret, DeriveIdentityRoot(secret), seed, k, rows[i].secret, rows[i].seed, prev)
  {
    hide UnlockStart, Holds, KeccakF, DeriveIdentityRoot, CanonicalRow, TraceRow, FieldOf, LanesOfBytes, Digest, Keccak256, OwnerPreimage, DeriveNullifier, DeriveProofInputHash;
    var rows, i, root := HonestRows(inputs, scope, secret, seed), k * BLOCK_ROWS, DeriveIdentityRoot(secret);
    var prev := rows[PrevRow(i)].keccak.state;
    CanonicalState(2, rows[PrevRow(i)].keccak);
    CanonicalShapes(2, rows[i], prev);
    FieldOfHolds(LanesOfBytes(secret));
    FieldOfHolds(LanesOfBytes(seed));
    SeedLanesHold(rows[i].seed, LanesOfBytes(seed));
    if k > 0 {
      HonestEnd(inputs, scope, secret, seed, k - 1);
      if k == 1 {
        HashDigests(inputs, secret, root, seed);
        DigestLanes(prev, KeccakF(UnlockStart(inputs, secret, root, seed, 0)), root);
      }
    }
  }

  lemma SeedLanesHold(cells: Cells, lanes: seq<Lane>)
    requires Holds(cells, lanes)
    ensures forall l :: 0 <= l < |lanes| ==> HoldsLane(cells[l], lanes[l])
  {
  }

  lemma HonestAbsorb(p: int, inputs: PublicInputs, scope: Scope, blank: Bytes32, claimed: Bytes32, secret: Bytes32, seed: Bytes32, i: nat)
    requires p > 1 && i < N_ROWS
    requires CanonicalAll(p, HonestRows(inputs, scope, secret, seed))
    ensures var rows := HonestRows(inputs, scope, secret, seed);
            && Canonical(p, rows[PrevRow(i)].keccak.state, 25)
            && AbsorbC(p, EvalClaiming(inputs, scope, blank, claimed), StartsAt(scope, i), rows[PrevRow(i)].keccak.state, rows[i])
  {
    hide HonestRows, AbsorbC, StartsAt, EvalClaiming, UnlockStart, Reads, CanonicalRow, DeriveIdentityRoot, Holds, TransitionRow, TraceRows, HonestStarts;
    var rows, root := HonestRows(inputs, scope, secret, seed), DeriveIdentityRoot(secret);
    CanonicalState(p, rows[PrevRow(i)].keccak);
    if k: nat :| k < UsedBlocks(scope) && i == k * BLOCK_ROWS {
      HonestCanonical(2, inputs, scope, secret, seed);
      HonestReads(inputs, scope, secret, seed, k);
      HonestState(inputs, scope, secret, seed, k, 0);
      RoundsZero(UnlockStart(inputs, secret, root, seed, k));
      StartExact(p, inputs, scope, blank, claimed, secret, root, seed, k, rows[PrevRow(i)].keccak.state, rows[i]);
    } else {
      AbsorbOff(p, EvalClaiming(inputs, scope, blank, claimed), i, rows[PrevRow(i)].keccak.state, rows[i]);
    }
  }

  /** A final digest constraint on the honest trace compares the public value with the hash. */
  lemma HonestDigest(p: int, inputs: PublicInputs, scope: Scope, secret: Bytes32, seed: Bytes32,
                     i: nat, k: nat, selector: int, digest: Bytes32)
    requires p > 1 && i < N_ROWS && k < 8 && CanonicalAll(p, HonestRows(inputs, scope, secret, seed))
    requires selector == if k < UsedBlocks(scope) && i == k * BLOCK_ROWS + ROUNDS then 1 else 0
    ensures Canonical(p, HonestRows(inputs, scope, secret, seed)[i].keccak.state, 25)
    ensures KeccakStatement.DigestC(p, selector, digest, HonestRows(inputs, scope, secret, seed)[i].keccak.state)
       <==> selector == 0 || Digest(KeccakF(UnlockStart(inputs, secret, DeriveIdentityRoot(secret), seed, k))) == digest
  {
    hide HonestRows, KeccakStatement.DigestC, UnlockStart, CanonicalRow, DeriveIdentityRoot, Holds, Digest, KeccakF;
    var rows := HonestRows(inputs, scope, secret, seed);
    CanonicalState(p, rows[i].keccak);
    if selector == 1 {
      HonestEnd(inputs, scope, secret, seed, k);
      KeccakStatement.DigestExact(p, digest, rows[i].keccak.state,
                                  KeccakF(UnlockStart(inputs, secret, DeriveIdentityRoot(secret), seed, k)));
    } else {
      KeccakStatement.DigestOff(p, digest, rows[i].keccak.state);
    }
  }

  lemma HonestRowOk(p: int, inputs: PublicInputs, scope: Scope, blank: Bytes32, claimed: Bytes32, secret: Bytes32, seed: Bytes32, i: nat)
    requires p > 1 && i < N_ROWS && CanonicalAll(p, HonestRows(inputs, scope, secret, seed))
    requires CanonicalRows(p, Cores(HonestRows(inputs, scope, secret, seed)))
    requires Transitions(p, UsedBlocks(scope), Cores(HonestRows(inputs, scope, secret, seed)))
    ensures RowOk(p, HonestRows(inputs, scope, secret, seed), EvalClaiming(inputs, scope, blank, claimed), i)
       <==> && (OwnerFinal(i) == 1 ==> DeriveOwner(secret) == inputs.owner)
            && (NullifierFinal(scope, i) == 1 ==>
                  DeriveNullifier(inputs.owner, inputs.action, inputs.policy, seed) == inputs.nullifier)
            && (ProofInputFinal(scope, i) == 1 ==> DeriveProofInputHash(inputs) == claimed)
  {
    hide AbsorbC, StartsAt, UnlockStart, CanonicalRow, DeriveIdentityRoot, Digest, KeccakF, KeccakStatement.DigestC;
    hide IdentityBlocks, OwnerBlocks, NullifierBlocks, ProofInputBlocks, TraceRow, FieldOf, LanesOfBytes;
    hide Active, ConstantCells, BooleanC, RoundC, Keccak256, OwnerPreimage, DeriveNullifier, DeriveProofInputHash, HonestStarts;
    var rows, root := HonestRows(inputs, scope, secret, seed), DeriveIdentityRoot(secret);
    assert TransitionRow(p, UsedBlocks(scope), Cores(rows), i);
    FieldOfHolds(LanesOfBytes(secret));
    FieldOfHolds(LanesOfBytes(seed));
    LanesBoolean(p, rows[i].secret, LanesOfBytes(secret));
    LanesBoolean(p, rows[i].seed, LanesOfBytes(seed));
    HonestAbsorb(p, inputs, scope, blank, claimed, secret, seed, i);
    HashDigests(inputs, secret, root, seed);
    HonestDigest(p, inputs, scope, secret, seed, i, 1, OwnerFinal(i), inputs.owner);
    HonestDigest(p, inputs, scope, secret, seed, i, 3, NullifierFinal(scope, i), inputs.nullifier);
    HonestDigest(p, inputs, scope, secret, seed, i, 7, ProofInputFinal(scope, i), claimed);
  }

  /**
   The honest trace satisfies every constraint exactly when its secret and seed open the public inputs and,
   in the full scope, the claimed hash is the hash of the inputs.
   */
  lemma Completeness(p: int, y: Layout, trace: seq<UnlockRow>, inputs: PublicInputs, scope: Scope, blank: Bytes32, claimed: Bytes32,
                     secret: Bytes32, seed: Bytes32)
    requires p > 1 && ValidLayout(y) && |trace| == N_ROWS
    requires LogicalRows(y, trace) == HonestRows(inputs, scope, secret, seed)
    ensures Satisfied(p, y, trace, EvalClaiming(inputs, scope, blank, claimed)) <==> Unlocks(scope, inputs, secret, seed) && (scope.Full? ==> claimed == DeriveProofInputHash(inputs))
  {
    hide HonestRows, RowOk, EvalClaiming, DeriveOwner, DeriveNullifier, DeriveProofInputHash, CanonicalUnlock, TransitionRow, CanonicalRow, HonestStarts;
    var rows, eval := HonestRows(inputs, scope, secret, seed), EvalClaiming(inputs, scope, blank, claimed);
    SatisfiedLogically(p, y, trace, eval);
    HonestCanonical(p, inputs, scope, secret, seed);
    forall i | 0 <= i < N_ROWS
      ensures RowOk(p, rows, eval, i)
         <==> && (OwnerFinal(i) == 1 ==> DeriveOwner(secret) == inputs.owner)
              && (NullifierFinal(scope, i) == 1 ==>
                    DeriveNullifier(inputs.owner, inputs.action, inputs.policy, seed) == inputs.nullifier)
              && (ProofInputFinal(scope, i) == 1 ==> DeriveProofInputHash(inputs) == claimed)
    {
      HonestRowOk(p, inputs, scope, blank, claimed, secret, seed, i);
    }
    if LogicallySatisfied(p, rows, eval) {
      assert RowOk(p, rows, eval, 49) && RowOk(p, rows, eval, 99) && RowOk(p, rows, eval, 199);
    }
  }

  /** The evaluator of the code, which derives the hash it claims: what its constraints accept and refuse. */
  lemma CodeEvaluator(p: int, y: Layout, trace: seq<UnlockRow>, inputs: PublicInputs, scope: Scope, blank: Bytes32)
    requires Prime(p) && ValidLayout(y) && |trace| == N_ROWS
    ensures Satisfied(p, y, trace, BuildEval(inputs, scope, blank)) ==>
      && CanonicalAll(p, LogicalRows(y, trace))
      && Unlocks(scope, inputs, SecretOf(LogicalRows(y, trace)), SeedOf(LogicalRows(y, trace)))
    ensures forall secret: Bytes32, seed: Bytes32 :: LogicalRows(y, trace) == HonestRows(inputs, scope, secret, seed) ==>
      (Satisfied(p, y, trace, BuildEval(inputs, scope, blank)) <==> Unlocks(scope, inputs, secret, seed))
  {
    hide Satisfied, Unlocks, EvalClaiming, HonestRows, DeriveProofInputHash, SecretOf, SeedOf, LogicalRows, CanonicalAll;
    var claimed := DeriveProofInputHash(inputs);
    if Satisfied(p, y, trace, BuildEval(inputs, scope, blank)) {
      Soundness(p, y, trace, inputs, scope, blank, claimed);
    }
    forall secret: Bytes32, seed: Bytes32 | LogicalRows(y, trace) == HonestRows(inputs, scope, secret, seed)
      ensures Satisfied(p, y, trace, BuildEval(inputs, scope, blank)) <==> Unlocks(scope, inputs, secret, seed)
    {
      Completeness(p, y, trace, inputs, scope, blank, claimed, secret, seed);
    }
  }
}
