/** The preimage byte layouts that the unlock statement hashes. */
module Abi {
  import opened Bits
  import opened BigEndian
  import opened KeccakSpec

  type Bytes32 = b: seq<Byte> | |b| == 32 witness seq(32, _ => 0)

  datatype PublicInputs = PublicInputs(
    owner: Bytes32,
    action: Bytes32,
    policy: Bytes32,
    nullifier: Bytes32,
    consumer: Bytes32,
    expiry: nat)

  const DOMAIN_IDENTITY_ROOT := "PHIL_IDENTITY_ROOT_V1"
  const DOMAIN_OWNER_COMMITMENT := "PHIL_OWNER_COMMITMENT_CANONICAL_V1"
  const DOMAIN_NULLIFIER := "PHIL_NULLIFIER_V1"
  const DOMAIN_UNLOCK_PROOF_INPUTS := "PHIL_UNLOCK_PROOF_INPUTS_V1"
  const PROOF_VERSION := "v1"
  const PROOF_TYPE := "stwo-unlock-keccak-v1"

  /** The bytes of an ASCII label. */
  function LabelBytes(text: string): (bytes: seq<Byte>)
    ensures |bytes| == |text|
  {
    seq(|text|, i requires 0 <= i < |text| => if text[i] as int < 256 then text[i] as int else 0)
  }

  function DomainHash(text: string): Bytes32 { Keccak256(LabelBytes(text)) }

  function IdentityPreimage(secret: Bytes32): (encoded: seq<Byte>)
    ensures |encoded| == 64
  {
    DomainHash(DOMAIN_IDENTITY_ROOT) + secret
  }

  function OwnerPreimage(root: Bytes32): (encoded: seq<Byte>)
    ensures |encoded| == 64
  {
    DomainHash(DOMAIN_OWNER_COMMITMENT) + root
  }

  function NullifierPreimage(owner: Bytes32, action: Bytes32, policy: Bytes32, seed: Bytes32): (encoded: seq<Byte>)
    ensures |encoded| == 160
  {
    DomainHash(DOMAIN_NULLIFIER) + owner + action + policy + seed
  }

  /** A number as a big-endian 32-byte word. */
  function Word(value: nat): Bytes32 { Fixed(value, 32) }

  /** Length word, then the bytes padded with zeros to whole words. */
  function StringTail(value: string): (tail: seq<Byte>)
    ensures |tail| == 32 + (|value| + 31) / 32 * 32
  {
    Word(|value|) + LabelBytes(value) + seq((|value| + 31) / 32 * 32 - |value|, _ => 0)
  }

  /** The nine head words: domain, two tail offsets, five public words, expiry. */
  function ProofInputHead(inputs: PublicInputs, typeOffset: nat): (encoded: seq<Byte>)
    ensures |encoded| == 288
  {
    DomainHash(DOMAIN_UNLOCK_PROOF_INPUTS) + Word(288) + Word(typeOffset)
    + inputs.owner + inputs.action + inputs.policy + inputs.nullifier + inputs.consumer + Word(inputs.expiry)
  }

  function VersionTail(): (tail: seq<Byte>)
    ensures |tail| == 64
  {
    assert |PROOF_VERSION| == 2;
    StringTail(PROOF_VERSION)
  }

  function TypeTail(): (tail: seq<Byte>)
    ensures |tail| == 64
  {
    assert |PROOF_TYPE| == 21;
    StringTail(PROOF_TYPE)
  }

  function ProofInputPreimage(inputs: PublicInputs): (encoded: seq<Byte>)
    ensures |encoded| == 416
  {
    ProofInputHead(inputs, 288 + |VersionTail()|) + VersionTail() + TypeTail()
  }

  function DeriveIdentityRoot(secret: Bytes32): Bytes32 { Keccak256(IdentityPreimage(secret)) }

  function DeriveOwner(secret: Bytes32): Bytes32 { Keccak256(OwnerPreimage(DeriveIdentityRoot(secret))) }

  function DeriveNullifier(owner: Bytes32, action: Bytes32, policy: Bytes32, seed: Bytes32): Bytes32
  {
    Keccak256(NullifierPreimage(owner, action, policy, seed))
  }

  function DeriveProofInputHash(inputs: PublicInputs): Bytes32 { Keccak256(ProofInputPreimage(inputs)) }

  // ----- what the layouts bind -----

  lemma WordInjective(v: nat, w: nat)
    requires v < 0x1_0000_0000_0000_0000 && w < 0x1_0000_0000_0000_0000 && Word(v) == Word(w)
    ensures v == w
  {
    assert Pow256(8) == 0x1_0000_0000_0000_0000;
    Grows(8, 32);
    ValueOfFixed(v, 32);
    ValueOfFixed(w, 32);
  }

  lemma {:induction false} Grows(m: nat, n: nat)
    requires m <= n
    ensures Pow256(m) <= Pow256(n)
  {
    if m < n { Grows(m, n - 1); }
  }

  /** The nullifier preimage determines owner, action, policy and seed. */
  lemma NullifierPreimageInjective(owner: Bytes32, action: Bytes32, policy: Bytes32, seed: Bytes32,
                                   owner': Bytes32, action': Bytes32, policy': Bytes32, seed': Bytes32)
    requires NullifierPreimage(owner, action, policy, seed) == NullifierPreimage(owner', action', policy', seed')
    ensures owner == owner' && action == action' && policy == policy' && seed == seed'
  {
    hide DomainHash;
    NullifierParts(owner, action, policy, seed);
    NullifierParts(owner', action', policy', seed');
  }

  lemma NullifierParts(owner: Bytes32, action: Bytes32, policy: Bytes32, seed: Bytes32)
    ensures var b := NullifierPreimage(owner, action, policy, seed);
            && b[..32] == DomainHash(DOMAIN_NULLIFIER)
            && b[32..64] == owner && b[64..96] == action && b[96..128] == policy && b[128..] == seed
  {
    hide DomainHash;
  }

  /** Each public input has its own place in the proof-input preimage. */
  lemma ProofInputParts(inputs: PublicInputs)
    ensures var b := ProofInputPreimage(inputs);
            && b[96..128] == inputs.owner && b[128..160] == inputs.action && b[160..192] == inputs.policy
            && b[192..224] == inputs.nullifier && b[224..256] == inputs.consumer && b[256..288] == Word(inputs.expiry)
  {
    hide DomainHash, Word, VersionTail, TypeTail;
    var typeOffset := 288 + |VersionTail()|;
    HeadParts(inputs, typeOffset);
    var head := ProofInputHead(inputs, typeOffset);
    assert ProofInputPreimage(inputs)[..288] == head;
    forall i, j | 0 <= i <= j <= 288 ensures ProofInputPreimage(inputs)[i..j] == head[i..j] {
      assert ProofInputPreimage(inputs)[i..j] == ProofInputPreimage(inputs)[..288][i..j];
    }
  }

  lemma HeadParts(inputs: PublicInputs, typeOffset: nat)
    ensures var b := ProofInputHead(inputs, typeOffset);
            && b[96..128] == inputs.owner && b[128..160] == inputs.action && b[160..192] == inputs.policy
            && b[192..224] == inputs.nullifier && b[224..256] == inputs.consumer && b[256..288] == Word(inputs.expiry)
  {
    hide DomainHash, Word;
  }

  /** The proof-input preimage determines every public input. */
  lemma ProofInputInjective(x: PublicInputs, y: PublicInputs)
    requires x.expiry < 0x1_0000_0000_0000_0000 && y.expiry < 0x1_0000_0000_0000_0000
    requires ProofInputPreimage(x) == ProofInputPreimage(y)
    ensures x == y
  {
    hide DomainHash, Word, ProofInputPreimage;
    ProofInputParts(x);
    ProofInputParts(y);
    WordInjective(x.expiry, y.expiry);
  }

  // ----- the layouts, byte by byte -----

  // The labels as the bytes that are hashed.
  const IDENTITY_ROOT_BYTES: seq<Byte> := [
    0x50, 0x48, 0x49, 0x4c, 0x5f, 0x49, 0x44, 0x45, 0x4e, 0x54, 0x49, 0x54, 0x59, 0x5f, 0x52, 0x4f, 0x4f,
    0x54, 0x5f, 0x56, 0x31]
  const OWNER_COMMITMENT_BYTES: seq<Byte> := [
    0x50, 0x48, 0x49, 0x4c, 0x5f, 0x4f, 0x57, 0x4e, 0x45, 0x52, 0x5f, 0x43, 0x4f, 0x4d, 0x4d, 0x49, 0x54,
    0x4d, 0x45, 0x4e, 0x54, 0x5f, 0x43, 0x41, 0x4e, 0x4f, 0x4e, 0x49, 0x43, 0x41, 0x4c, 0x5f, 0x56, 0x31]
  const NULLIFIER_BYTES: seq<Byte> := [
    0x50, 0x48, 0x49, 0x4c, 0x5f, 0x4e, 0x55, 0x4c, 0x4c, 0x49, 0x46, 0x49, 0x45, 0x52, 0x5f, 0x56, 0x31]
  const UNLOCK_PROOF_INPUTS_BYTES: seq<Byte> := [
    0x50, 0x48, 0x49, 0x4c, 0x5f, 0x55, 0x4e, 0x4c, 0x4f, 0x43, 0x4b, 0x5f, 0x50, 0x52, 0x4f, 0x4f, 0x46,
    0x5f, 0x49, 0x4e, 0x50, 0x55, 0x54, 0x53, 0x5f, 0x56, 0x31]
  const VERSION_BYTES: seq<Byte> := [0x76, 0x31]
  const TYPE_BYTES: seq<Byte> := [
    0x73, 0x74, 0x77, 0x6f, 0x2d, 0x75, 0x6e, 0x6c, 0x6f, 0x63, 0x6b, 0x2d, 0x6b, 0x65, 0x63, 0x63, 0x61,
    0x6b, 0x2d, 0x76, 0x31]

  lemma IdentityRootLabel()
    ensures LabelBytes(DOMAIN_IDENTITY_ROOT) == IDENTITY_ROOT_BYTES
  {
  }

  lemma OwnerCommitmentLabel()
    ensures LabelBytes(DOMAIN_OWNER_COMMITMENT) == OWNER_COMMITMENT_BYTES
  {
  }

  lemma NullifierLabel()
    ensures LabelBytes(DOMAIN_NULLIFIER) == NULLIFIER_BYTES
  {
  }

  lemma UnlockProofInputsLabel()
    ensures LabelBytes(DOMAIN_UNLOCK_PROOF_INPUTS) == UNLOCK_PROOF_INPUTS_BYTES
  {
  }

  lemma VersionLabel()
    ensures LabelBytes(PROOF_VERSION) == VERSION_BYTES
  {
  }

  lemma TypeLabel()
    ensures LabelBytes(PROOF_TYPE) == TYPE_BYTES
  {
  }

  /** The four derivations as nested digests of spelled-out bytes. */
  lemma DerivationsExactly(inputs: PublicInputs, secret: Bytes32, seed: Bytes32)
    ensures DeriveIdentityRoot(secret) == Keccak256(Keccak256(IDENTITY_ROOT_BYTES) + secret)
    ensures DeriveOwner(secret)
         == Keccak256(Keccak256(OWNER_COMMITMENT_BYTES) + Keccak256(Keccak256(IDENTITY_ROOT_BYTES) + secret))
    ensures DeriveNullifier(inputs.owner, inputs.action, inputs.policy, seed)
         == Keccak256(Keccak256(NULLIFIER_BYTES) + inputs.owner + inputs.action + inputs.policy + seed)
    ensures DeriveProofInputHash(inputs) == Keccak256(ProofInputPreimage(inputs))
  {
    hide Keccak256, LabelBytes, ProofInputPreimage;
    IdentityRootLabel();
    OwnerCommitmentLabel();
    NullifierLabel();
  }

  /** Domain hash, then argument. */
  lemma OneArgumentParts(secret: Bytes32, root: Bytes32)
    ensures IdentityPreimage(secret)[..32] == Keccak256(IDENTITY_ROOT_BYTES) && IdentityPreimage(secret)[32..] == secret
    ensures OwnerPreimage(root)[..32] == Keccak256(OWNER_COMMITMENT_BYTES) && OwnerPreimage(root)[32..] == root
  {
    hide Keccak256, LabelBytes;
    IdentityRootLabel();
    OwnerCommitmentLabel();
  }

  ghost predicate TextAt(encoded: seq<Byte>, at: nat, text: seq<Byte>)
  {
    && at + 32 + |text| <= |encoded|
    && Value(encoded[at..at + 32]) == |text|
    && encoded[at + 32..at + 32 + |text|] == text
    && forall i :: at + 32 + |text| <= i < at + 64 && i < |encoded| ==> encoded[i] == 0
  }

  /**
   The proof-input preimage in full: the domain hash, the offsets of two texts, six words of public inputs,
   and at the offsets the length and bytes of the version and of the type, padded with zeros.
   */
  lemma ProofInputLayout(inputs: PublicInputs)
    requires inputs.expiry < 0x1_0000_0000_0000_0000
    ensures var b := ProofInputPreimage(inputs);
            && b[..32] == Keccak256(UNLOCK_PROOF_INPUTS_BYTES)
            && b[96..128] == inputs.owner && b[128..160] == inputs.action && b[160..192] == inputs.policy
            && b[192..224] == inputs.nullifier && b[224..256] == inputs.consumer && Value(b[256..288]) == inputs.expiry
            && Value(b[32..64]) == 288 && TextAt(b, 288, VERSION_BYTES)
            && Value(b[64..96]) == 352 && TextAt(b, 352, TYPE_BYTES) && |b| == 352 + 64
  {
    hide Word, VersionTail, TypeTail, StringTail, LabelBytes, Keccak256, Value;
    var b := ProofInputPreimage(inputs);
    assert |VersionTail()| == 64;
    var head := ProofInputHead(inputs, 352);
    HeadWords(inputs, 352);
    ProofInputParts(inputs);
    assert b == head + VersionTail() + TypeTail();
    assert b[..288] == head && b[288..352] == VersionTail() && b[352..416] == TypeTail();
    assert b[..32] == b[..288][..32] && b[32..64] == b[..288][32..64] && b[64..96] == b[..288][64..96];
    WordValue(288);
    WordValue(352);
    WordValue(inputs.expiry);
    UnlockProofInputsLabel();
    TailsRead();
    TailAt(b, 288, VersionTail(), VERSION_BYTES);
    TailAt(b, 352, TypeTail(), TYPE_BYTES);
  }

  lemma HeadWords(inputs: PublicInputs, typeOffset: nat)
    ensures var b := ProofInputHead(inputs, typeOffset);
            b[..32] == DomainHash(DOMAIN_UNLOCK_PROOF_INPUTS) && b[32..64] == Word(288) && b[64..96] == Word(typeOffset)
  {
    hide DomainHash, Word;
  }

  lemma WordValue(v: nat)
    requires v < 0x1_0000_0000_0000_0000
    ensures Value(Word(v)) == v
  {
    assert Pow256(8) == 0x1_0000_0000_0000_0000;
    Grows(8, 32);
    ValueOfFixed(v, 32);
  }

  lemma TailsRead()
    ensures TextAt(VersionTail(), 0, VERSION_BYTES) && TextAt(TypeTail(), 0, TYPE_BYTES)
  {
    hide Word, LabelBytes, Value, StringTail;
    VersionLabel();
    TypeLabel();
    TailReads(PROOF_VERSION);
    TailReads(PROOF_TYPE);
  }

  lemma TailReads(text: string)
    requires |text| <= 32
    ensures TextAt(StringTail(text), 0, LabelBytes(text))
  {
    hide Word, LabelBytes, Value;
    WordValue(|text|);
    var tail := StringTail(text);
    assert tail[0..32] == Word(|text|) && tail[32..32 + |text|] == LabelBytes(text);
  }

  lemma TailAt(b: seq<Byte>, at: nat, tail: seq<Byte>, text: seq<Byte>)
    requires at + 64 <= |b| && |tail| == 64 && b[at..at + 64] == tail && |text| <= 32 && TextAt(tail, 0, text)
    ensures TextAt(b, at, text)
  {
    hide Value;
    assert b[at..at + 32] == b[at..at + 64][0..32];
    forall k | 0 <= k < |text| ensures b[at + 32..at + 32 + |text|][k] == text[k] {
      assert b[at..at + 64][32 + k] == tail[32..32 + |text|][k];
    }
    forall i | at + 32 + |text| <= i < at + 64 ensures b[i] == 0 {
      assert b[i] == tail[i - at];
    }
  }
}
