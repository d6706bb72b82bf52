/**
 The unlock trace builder: witness columns filled with the same bits on every row, and the hashes written
 one after another into the hash columns.
 */
module UnlockBuilder {
  import opened Bits
  import opened KeccakSpec
  import opened KeccakWitness
  import opened KeccakPadding
  import opened RowLayout
  import opened KeccakAir
  import opened KeccakTrace
  import opened Abi
  import opened UnlockBlocks
  import opened UnlockStatement
  import opened UnlockTheorems
  import KeccakStatement

  /** Rows start.. of a hash are the honest rows from block k on. */
  lemma HashRows(inputs: PublicInputs, scope: Scope, secret: Bytes32, seed: Bytes32, blocks: seq<RateBlock>, k: nat)
    requires k + |blocks| <= UsedBlocks(scope)
    requires forall b :: 0 <= b < |blocks| ==>
      KeccakStatement.StartState(blocks, b) == UnlockStart(inputs, secret, DeriveIdentityRoot(secret), seed, k + b)
    ensures forall r :: 0 <= r < |blocks| * BLOCK_ROWS ==>
      TraceRow(KeccakStatement.StartStates(blocks), r) == TraceRow(HonestStarts(inputs, scope, secret, seed), k * BLOCK_ROWS + r)
  {
    hide BlockRow, KeccakStatement.StartState, UnlockStart, DeriveIdentityRoot;
    forall r | 0 <= r < |blocks| * BLOCK_ROWS
      ensures TraceRow(KeccakStatement.StartStates(blocks), r) == TraceRow(HonestStarts(inputs, scope, secret, seed), k * BLOCK_ROWS + r)
    {
      RowNumber(k, r);
    }
  }

  lemma RowNumber(k: nat, r: nat)
    ensures (k * BLOCK_ROWS + r) / BLOCK_ROWS == k + r / BLOCK_ROWS
    ensures (k * BLOCK_ROWS + r) % BLOCK_ROWS == r % BLOCK_ROWS
  {
  }

  /** The stored rows below `used` are the honest ones, and the others are blank. */
  ghost predicate Written(trace: seq<Row>, y: Layout, starts: seq<State>, used: nat)
    requires ValidLayout(y) && |trace| == N_ROWS
  {
    forall i :: 0 <= i < N_ROWS ==> trace[y.physical[i]] == if i < used then TraceRow(starts, i) else ZeroRow()
  }

  /** One hash, written into the next blank rows. */
  method WriteNext(trace: seq<Row>, y: Layout, ghost starts: seq<State>, blocks: seq<RateBlock>, k: nat)
    returns (written: seq<Row>, state: State)
    requires ValidLayout(y) && |trace| == N_ROWS && (k + |blocks|) * BLOCK_ROWS <= N_ROWS
    requires Written(trace, y, starts, k * BLOCK_ROWS)
    requires forall r :: 0 <= r < |blocks| * BLOCK_ROWS ==>
      TraceRow(KeccakStatement.StartStates(blocks), r) == TraceRow(starts, k * BLOCK_ROWS + r)
    ensures |written| == N_ROWS && state == Sponge(LaneBlocks(blocks))
    ensures Written(written, y, starts, (k + |blocks|) * BLOCK_ROWS)
  {
    hide TraceRow, Sponge, LaneBlocks, ZeroRow, KeccakStatement.StartStates;
    written, state := KeccakStatement.WriteHash(trace, y, k * BLOCK_ROWS, blocks);
    forall i | 0 <= i < N_ROWS
      ensures written[y.physical[i]] == if i < (k + |blocks|) * BLOCK_ROWS then TraceRow(starts, i) else ZeroRow()
    {
      if k * BLOCK_ROWS <= i < (k + |blocks|) * BLOCK_ROWS {
        assert TraceRow(KeccakStatement.StartStates(blocks), i - k * BLOCK_ROWS) == TraceRow(starts, k * BLOCK_ROWS + (i - k * BLOCK_ROWS));
      }
    }
  }

  /** The digest that the builder carries from the identity hash to the owner hash. */
  lemma IdentityDigest(secret: Bytes32)
    ensures Digest(Sponge(LaneBlocks(IdentityBlocks(secret)))) == DeriveIdentityRoot(secret)
  {
    hide Sponge, LaneBlocks, Keccak256, Digest, PaddedBlocks, DomainHash;
    SpongeOfPaddedBlocks(IdentityPreimage(secret));
  }

  /** The builder, for a secret, a seed and public inputs. */
  method BuildUnlockTrace(y: Layout, inputs: PublicInputs, scope: Scope, secret: Bytes32, seed: Bytes32)
    returns (trace: seq<UnlockRow>)
    requires ValidLayout(y)
    ensures |trace| == N_ROWS && LogicalRows(y, trace) == HonestRows(inputs, scope, secret, seed)
  {
    hide TraceRow, Sponge, LaneBlocks, HonestStarts, UnlockStart, KeccakStatement.StartState, Digest, Keccak256, LanesOfBytes, FieldOf;
    hide IdentityBlocks, OwnerBlocks, NullifierBlocks, ProofInputBlocks, DeriveIdentityRoot, ZeroRow, KeccakStatement.StartStates;
    ghost var starts := HonestStarts(inputs, scope, secret, seed);
    ghost var root := DeriveIdentityRoot(secret);
    var core := seq(N_ROWS, _ => ZeroRow());
    var state;

    var identity := IdentityBlocks(secret);
    BlockStarts(inputs, secret, root, seed);
    HashRows(inputs, scope, secret, seed, identity, 0);
    core, state := WriteNext(core, y, starts, identity, 0);
    IdentityDigest(secret);
    var digest := Digest(state);

    var owner := OwnerBlocks(digest);
    HashRows(inputs, scope, secret, seed, owner, 1);
    core, state := WriteNext(core, y, starts, owner, 1);

    if scope.Full? {
      var nullifier := NullifierBlocks(inputs, seed);
      HashRows(inputs, scope, secret, seed, nullifier, 2);
      core, state := WriteNext(core, y, starts, nullifier, 2);
      var proofInput := ProofInputBlocks(inputs);
      HashRows(inputs, scope, secret, seed, proofInput, 4);
      core, state := WriteNext(core, y, starts, proofInput, 4);
    }

    var secretCells, seedCells := FieldOf(LanesOfBytes(secret)), FieldOf(LanesOfBytes(seed));
    trace := seq(N_ROWS, r requires 0 <= r < N_ROWS => UnlockRow(secretCells, seedCells, core[r]));
    BlankRows(inputs, scope, secret, seed);
    assert forall i :: 0 <= i < N_ROWS ==> LogicalRows(y, trace)[i] == HonestRows(inputs, scope, secret, seed)[i];
  }

  lemma BlockStarts(inputs: PublicInputs, secret: Bytes32, root: Bytes32, seed: Bytes32)
    ensures forall b :: 0 <= b < 1 ==> KeccakStatement.StartState(IdentityBlocks(secret), b) == UnlockStart(inputs, secret, root, seed, b)
    ensures forall b :: 0 <= b < 1 ==> KeccakStatement.StartState(OwnerBlocks(root), b) == UnlockStart(inputs, secret, root, seed, 1 + b)
    ensures forall b :: 0 <= b < 2 ==>
      KeccakStatement.StartState(NullifierBlocks(inputs, seed), b) == UnlockStart(inputs, secret, root, seed, 2 + b)
    ensures forall b :: 0 <= b < 4 ==>
      KeccakStatement.StartState(ProofInputBlocks(inputs), b) == UnlockStart(inputs, secret, root, seed, 4 + b)
  {
    hide KeccakStatement.StartState, IdentityBlocks, OwnerBlocks, NullifierBlocks, ProofInputBlocks;
  }

  /** Past the used blocks the honest rows are blank. */
  lemma BlankRows(inputs: PublicInputs, scope: Scope, secret: Bytes32, seed: Bytes32)
    ensures forall i :: UsedBlocks(scope) * BLOCK_ROWS <= i < N_ROWS ==>
      TraceRow(HonestStarts(inputs, scope, secret, seed), i) == ZeroRow()
  {
    hide BlockRow, ZeroRow, UnlockStart;
  }
}
