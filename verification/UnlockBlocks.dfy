/**
 Which lanes of the padded unlock preimages are constants and which carry the secret, the identity root
 or the nullifier seed.
 */
module UnlockBlocks {
  import opened Bits
  import opened KeccakSpec
  import opened KeccakWitness
  import opened KeccakPadding
  import opened Abi

  function IdentityBlocks(secret: Bytes32): (blocks: seq<RateBlock>)
    ensures |blocks| == 1
  {
    PaddingSizes();
    PaddedBlocks(IdentityPreimage(secret))
  }

  function OwnerBlocks(root: Bytes32): (blocks: seq<RateBlock>)
    ensures |blocks| == 1
  {
    PaddingSizes();
    PaddedBlocks(OwnerPreimage(root))
  }

  function NullifierBlocks(inputs: PublicInputs, seed: Bytes32): (blocks: seq<RateBlock>)
    ensures |blocks| == 2
  {
    PaddingSizes();
    PaddedBlocks(NullifierPreimage(inputs.owner, inputs.action, inputs.policy, seed))
  }

  function ProofInputBlocks(inputs: PublicInputs): (blocks: seq<RateBlock>)
    ensures |blocks| == 4
  {
    PaddingSizes();
    PaddedBlocks(ProofInputPreimage(inputs))
  }

  lemma PaddingSizes()
    ensures |CodePadding(64)| == 72 && |CodePadding(160)| == 112 && |CodePadding(416)| == 128
  {
  }

  /** A 64-byte preimage: four domain lanes, four argument lanes, padding. */
  lemma OneBlockLanes(domain: Bytes32, x: Bytes32, blank: Bytes32, l: nat)
    requires l < RATE_LANES
    ensures |PaddedBlocks(domain + x)| == |PaddedBlocks(domain + blank)| == 1
    ensures LanesOfBlock(PaddedBlocks(domain + x)[0])[l]
         == if 4 <= l < 8 then LanesOfBytes(x)[l - 4] else LanesOfBlock(PaddedBlocks(domain + blank)[0])[l]
  {
    hide CodePadding, LanesOfBytes;
    PaddingSizes();
    OneBlock(domain, x);
    OneBlock(domain, blank);
  }

  lemma OneBlock(domain: Bytes32, x: Bytes32)
    ensures |CodePadding(64)| == 72
    ensures |PaddedBlocks(domain + x)| == 1
    ensures LanesOfBlock(PaddedBlocks(domain + x)[0])
         == LanesOfBytes(domain) + LanesOfBytes(x) + LanesOfBytes(CodePadding(64))
  {
    hide CodePadding, LanesOfBytes;
    PaddingSizes();
    var bytes := domain + x + CodePadding(64);
    assert bytes == (domain + x) + CodePadding(|domain + x|);
    assert bytes[..RATE_BYTES] == bytes && bytes[RATE_BYTES..] == [];
    LanesOfBytesConcat(domain + x, CodePadding(64));
    LanesOfBytesConcat(domain, x);
  }

  lemma IdentityLane(secret: Bytes32, blank: Bytes32, l: nat)
    requires l < RATE_LANES
    ensures LanesOfBlock(IdentityBlocks(secret)[0])[l]
         == if 4 <= l < 8 then LanesOfBytes(secret)[l - 4] else LanesOfBlock(IdentityBlocks(blank)[0])[l]
  {
    hide LanesOfBlock, LanesOfBytes, DomainHash, PaddedBlocks;
    OneBlockLanes(DomainHash(DOMAIN_IDENTITY_ROOT), secret, blank, l);
  }

  lemma OwnerLane(root: Bytes32, blank: Bytes32, l: nat)
    requires l < RATE_LANES
    ensures LanesOfBlock(OwnerBlocks(root)[0])[l]
         == if 4 <= l < 8 then LanesOfBytes(root)[l - 4] else LanesOfBlock(OwnerBlocks(blank)[0])[l]
  {
    hide LanesOfBlock, LanesOfBytes, DomainHash, PaddedBlocks;
    OneBlockLanes(DomainHash(DOMAIN_OWNER_COMMITMENT), root, blank, l);
  }

  /** The seed straddles two blocks: its first lane ends block 0, the other three open block 1. */
  lemma TwoBlocks(prefix: seq<Byte>, seed: Bytes32)
    requires |prefix| == 128
    ensures |CodePadding(160)| == 112
    ensures |PaddedBlocks(prefix + seed)| == 2
    ensures LanesOfBlock(PaddedBlocks(prefix + seed)[0]) == LanesOfBytes(prefix) + LanesOfBytes(seed)[..1]
    ensures LanesOfBlock(PaddedBlocks(prefix + seed)[1]) == LanesOfBytes(seed)[1..] + LanesOfBytes(CodePadding(160))
  {
    hide CodePadding, LanesOfBytes;
    PaddingSizes();
    var bytes := (prefix + seed) + CodePadding(|prefix + seed|);
    var first, second := prefix + seed[..8], seed[8..] + CodePadding(160);
    assert bytes[..RATE_BYTES] == first && bytes[RATE_BYTES..] == second;
    assert second[..RATE_BYTES] == second && second[RATE_BYTES..] == [];
    assert RateBlocks(second) == [second];
    LanesOfBytesConcat(prefix, seed[..8]);
    LanesOfBytesConcat(seed[8..], CodePadding(160));
    LanesOfBytesSlice(seed, 0, 1);
    LanesOfBytesSlice(seed, 1, 4);
    assert seed[0..8] == seed[..8] && seed[8..32] == seed[8..];
  }

  lemma NullifierLane(inputs: PublicInputs, seed: Bytes32, blank: Bytes32, l: nat)
    requires l < RATE_LANES
    ensures LanesOfBlock(NullifierBlocks(inputs, seed)[0])[l]
         == if l == 16 then LanesOfBytes(seed)[0] else LanesOfBlock(NullifierBlocks(inputs, blank)[0])[l]
    ensures LanesOfBlock(NullifierBlocks(inputs, seed)[1])[l]
         == if l < 3 then LanesOfBytes(seed)[l + 1] else LanesOfBlock(NullifierBlocks(inputs, blank)[1])[l]
  {
    hide LanesOfBlock, LanesOfBytes, DomainHash, PaddedBlocks, CodePadding;
    var prefix := DomainHash(DOMAIN_NULLIFIER) + inputs.owner + inputs.action + inputs.policy;
    TwoBlocks(prefix, seed);
    TwoBlocks(prefix, blank);
  }
}
