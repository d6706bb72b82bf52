/**
 * The data of identity recovery, with its cryptography as terms: a hash is the value it was
 * taken of, and a sealed payload is its key, its associated data and its plaintext.  Equal
 * hashes therefore have equal inputs, and a payload opens under the key and the associated
 * data it was sealed with and under no other.
 *
 * 32-byte identifiers are numbers, ordered as their hexadecimal texts are.
 */
module RecoveryTerms {
  const UINT64_MAX: nat := 0xffff_ffff_ffff_ffff
  const SECRET_MAX: nat := 0x7ffffff_ffffffff_ffffffff_ffffffff_ffffffff_ffffffff_ffffffff_ffffffff

  predicate PositiveUInt64(n: nat) { 1 <= n <= UINT64_MAX }

  // ---- The continuity package ------------------------------------------------------

  datatype RecordStatus = Active | Suspended | Revoked
  datatype BindingStatus = BindingActive | BindingSuspended | PendingReconciliation

  datatype Scope = Scope(commitment: nat, descriptor: nat, status: RecordStatus)
  datatype Account = Account(id: nat, scope: nat, network: nat, binding: nat, validatorEpoch: nat, status: BindingStatus)
  datatype Device = Device(id: nat, kind: nat, publicKey: nat, deviceEpoch: nat, status: RecordStatus)

  datatype Package = Package(
    format: nat, suite: nat, secret: nat, root: Digest, owner: Digest, dataRootKey: nat,
    dataEpoch: nat, deviceEpoch: nat, recoveryEpoch: nat, validatorEpoch: nat, capabilityEpoch: nat,
    scopes: seq<Scope>, accounts: seq<Account>, devices: seq<Device>,
    policyVersion: nat, policyHash: Digest,
    revocationEpoch: nat, revocationRoot: Digest, revokedCapabilities: seq<nat>,
    auditCount: nat, auditHead: Digest)

  // ---- Hashes, keys and payloads ------------------------------------------------------

  datatype Operation = DataRecovery | SetReplacement

  datatype Digest =
    | Value(n: nat)
    | IdentityRoot(secret: nat)
    | OwnerCommitment(secret: nat)
    | PayloadHash(payload: Payload)
    | WrapperHash(wrappedPair: Pair, wrapped: Payload)
    | ShareChecksum(sharing: nat, shareSet: nat, shareEpoch: nat, holder: nat, contributions: seq<Contribution>)
    | BundleHash(bundle: Bundle)
    | RequestHash(operation: Operation, requestBundle: Digest, requestedAt: nat, notBefore: nat, expiresAt: nat,
                  approval: Digest, targets: seq<nat>, evidence: seq<nat>)
    | RecoveryAudit(previousHead: Digest, auditRequest: Digest, auditEpoch: nat, auditNumber: nat)
    | ReplacementAudit(replacedHead: Digest, replacementRequest: Digest, replacementEpoch: nat)
    | RevocationRoot(previousRoot: Digest, newCapabilityEpoch: nat)
    | CompletionHash(completed: Operation, completedRequest: Digest, oldSet: nat, newSet: nat, completedAt: nat)

  predicate NonZero(d: Digest) { d != Value(0) }

  datatype Pair = P12 | P13 | P23

  /** A random package key, or the key two contributions give for one pair of one set. */
  datatype Key = PackageKey(n: nat) | PairKey(left: nat, right: nat, set_: nat, epoch: nat, pair: Pair)

  datatype Aad =
    | PackageAad(format: nat, encryption: nat, sharing: nat, packageSet: nat, packageEpoch: nat, counter: nat, createdAt: nat)
    | WrapperAad(wrapSharing: nat, wrapSet: nat, wrapEpoch: nat, wrapCounter: nat, ciphertextHash: Digest, wrapPair: Pair)

  datatype Plaintext = PackageText(package: Package) | KeyText(key: Key)

  /** Forged: bytes that no sealing produced, of some length. */
  datatype Payload =
    | Sealed(iv: nat, sealKey: Key, aad: Aad, plaintext: Plaintext)
    | Forged(n: nat, length: nat)

  // ---- Shares and bundles --------------------------------------------------------------

  datatype Contribution = Contribution(pair: Pair, material: nat)

  datatype Share = Share(format: nat, sharing: nat, set_: nat, epoch: nat, holder: nat,
                         contributions: seq<Contribution>, checksum: Digest)

  datatype Envelope = Envelope(format: nat, encryption: nat, sharing: nat, set_: nat, epoch: nat, counter: nat,
                               createdAt: nat, ciphertextHash: Digest)

  datatype KeyWrapper = KeyWrapper(pair: Pair, payload: Payload, hash: Digest)

  datatype Bundle = Bundle(format: nat, envelope: Envelope, encrypted: Payload, wrappers: seq<KeyWrapper>)

  // Identifiers of the formats and suites.
  const PACKAGE_FORMAT: nat := 1
  const IDENTITY_SUITE: nat := 2
  const ENCRYPTION_SUITE: nat := 3
  const SHARING_SUITE: nat := 4
  const SHARE_FORMAT: nat := 5
  const BUNDLE_FORMAT: nat := 6

  function Open(key: Key, p: Payload, aad: Aad): (r: Opened)
    ensures r.Plain? <==> p.Sealed? && p.sealKey == key && p.aad == aad
    ensures r.Plain? ==> r.plaintext == p.plaintext
  {
    if p.Sealed? && p.sealKey == key && p.aad == aad then Plain(p.plaintext) else NotAuthentic
  }

  datatype Opened = Plain(plaintext: Plaintext) | NotAuthentic

  datatype Error =
    | SecretInvalid | FieldInvalid | ScopeMismatch | NotSorted | AccountScopeMissing | CapabilityEpochMismatch
    | PackageFormatUnsupported | IdentityMismatch | NotCanonical
    | BundleFormatInvalid | SuiteUnsupported | CiphertextHashMismatch | WrapperSetInvalid | WrapperHashMismatch
    | ExactTwoSharesRequired | ShareInvalid | ShareChecksumMismatch | DuplicateShare | RollbackRejected | MixedShareSet
    | KeyUnwrapFailed | PackageAuthenticationFailed | PackageCodecInvalid | EpochMismatch | Overflow
    | DelayPolicyInvalid | NotificationRequired | NotificationEvidenceRequired
    | RequestTimeInvalid | RequestBindingInvalid | RequestNotPending | RequestOperationMismatch
    | DelayActive | RequestExpired | RequestBundleMismatch

  datatype Result<T> = Ok(value: T) | Err(error: Error)
}
