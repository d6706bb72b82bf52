/**
 * Network capabilities, policy bundles, migration ceremonies and claims, over any scheme
 * registry.  Hashes of records are the records themselves.
 */
module PostQuantum {
  import opened Wrappers
  import opened SchemeRegistry

  const UINT64_MAX: nat := 0xffff_ffff_ffff_ffff

  predicate Positive(n: nat) { 1 <= n <= UINT64_MAX }

  datatype Mode = ClassicalOnly | HybridAnd | PostQuantumOnly {
    function Rank(): nat { match this case ClassicalOnly => 1 case HybridAnd => 2 case PostQuantumOnly => 3 }
  }

  datatype Enforcement = LocalOnly | ContractCandidate | NetworkEnforced | Unsupported

  datatype Capability = Capability(
    network: nat, registryEpoch: nat, registryHash: nat, epoch: nat, accountModel: nat, enforcement: Enforcement, maximum: Mode,
    signatures: set<SchemeId>, proofs: set<SchemeId>, verifiers: set<SchemeId>, pathAvailable: bool,
    authority: nat, implementation: nat, evidence: nat)

  datatype Bundle = Bundle(
    registryEpoch: nat, registryHash: nat, epoch: nat, mode: Mode, device: set<SchemeId>, validator: set<SchemeId>,
    recovery: set<SchemeId>, keyEstablishment: set<SchemeId>, hashes: set<SchemeId>, symmetric: set<SchemeId>, kdfs: set<SchemeId>,
    proof: SchemeId, verifier: SchemeId, capability: Digest, recoveryIndependence: nat)

  datatype Trusted = Trusted(
    registryEpoch: nat, registryHash: nat, network: nat, authority: nat, capabilityFloor: nat, expectedCapability: Digest,
    policyEpoch: nat, expectedPolicy: Digest)

  datatype Digest = CapabilityDigest(c: Capability) | BundleDigest(b: Bundle) | TrustedDigest(t: Trusted) | Unknown(n: nat)

  /** A record as it travels, with the hash it claims. */
  datatype Hashed<T> = Hashed(body: T, hash: Digest)

  /** What is current: the registry's records, its epoch (which is 1) and its hash. */
  datatype Setting = Setting(reg: Registry, hash: nat)

  const REGISTRY_EPOCH: nat := 1

  // ---- Capabilities ----------------------------------------------------------------------

  predicate CapabilityAllowed(st: Setting, c: Capability) {
    var reg := st.reg;
    c.signatures != {} && AllAdmissible(reg, c.signatures, Signature) && AllAdmissible(reg, c.proofs, Proof)
    && AllAdmissible(reg, c.verifiers, Verifier) && (c.proofs == {} <==> c.verifiers == {}) && Compatible(reg, c.proofs, c.verifiers)
    && c.registryEpoch == REGISTRY_EPOCH && c.registryHash == st.hash
    && c.network != 0 && Positive(c.epoch) && c.accountModel != 0 && c.authority != 0 && c.implementation != 0 && c.evidence != 0
    && (c.maximum != ClassicalOnly ==> c.enforcement == NetworkEnforced)
    && (c.pathAvailable ==> c.enforcement == NetworkEnforced)
    && (c.maximum.HybridAnd? ==>
          AllActive(reg, c.signatures) && AllActive(reg, c.proofs) && AllActive(reg, c.verifiers)
          && Has(reg, c.signatures, Vulnerable) && Has(reg, c.signatures, Resistant)
          && Has(reg, c.proofs, Resistant) && Has(reg, c.verifiers, Resistant))
    && (c.maximum.PostQuantumOnly? ==>
          AllActive(reg, c.signatures) && AllActive(reg, c.proofs) && AllActive(reg, c.verifiers)
          && AllResistant(reg, c.signatures) && AllResistant(reg, c.proofs) && AllResistant(reg, c.verifiers))
  }

  /** Builds a capability from the lists as given, in which nothing may be repeated. */
  function CreateCapability(st: Setting, c: Capability, signatures: seq<SchemeId>, proofs: seq<SchemeId>, verifiers: seq<SchemeId>): Option<Hashed<Capability>>
  {
    var d := c.(signatures := SetOf(signatures), proofs := SetOf(proofs), verifiers := SetOf(verifiers));
    if NoRepeats(signatures) && NoRepeats(proofs) && NoRepeats(verifiers) && CapabilityAllowed(st, d)
    then Some(Hashed(d, CapabilityDigest(d))) else None
  }

  function SetOf(ids: seq<SchemeId>): set<SchemeId> { set id | id in ids }

  predicate NoRepeats(ids: seq<SchemeId>) {
    forall i, j :: 0 <= i < j < |ids| ==> ids[i] != ids[j]
  }

  /** Rebuilding a capability record and comparing the hash it claims. */
  predicate CapabilityCanonical(st: Setting, c: Hashed<Capability>) {
    CapabilityAllowed(st, c.body) && c.hash == CapabilityDigest(c.body)
  }

  predicate TrustedValid(t: Hashed<Trusted>) {
    Positive(t.body.registryEpoch) && t.body.registryHash != 0 && t.body.network != 0 && t.body.authority != 0
    && Positive(t.body.capabilityFloor) && Positive(t.body.policyEpoch) && t.hash == TrustedDigest(t.body)
  }

  predicate CapabilityTrusted(st: Setting, c: Hashed<Capability>, t: Hashed<Trusted>) {
    CapabilityCanonical(st, c) && TrustedValid(t)
    && t.body.registryEpoch == c.body.registryEpoch && t.body.registryHash == c.body.registryHash
    && t.body.network == c.body.network && t.body.authority == c.body.authority
    && c.body.epoch >= t.body.capabilityFloor && c.hash == t.body.expectedCapability
  }

  // ---- Policies --------------------------------------------------------------------------

  predicate SchemesAllowed(reg: Registry, b: Bundle) {
    AllAdmissible(reg, b.device, Signature) && AllAdmissible(reg, b.validator, Signature)
    && AllAdmissible(reg, b.recovery, RecoveryProtection) && AllAdmissible(reg, b.keyEstablishment, KeyEstablishment)
    && AllAdmissible(reg, b.hashes, HashFunction) && AllAdmissible(reg, b.symmetric, Symmetric) && AllAdmissible(reg, b.kdfs, Kdf)
    && Admissible(reg, b.proof, Proof) && Admissible(reg, b.verifier, Verifier)
    && b.device != {} && b.validator != {} && b.recovery != {} && b.keyEstablishment != {} && b.hashes != {}
    && b.symmetric != {} && b.kdfs != {}
    && AllActive(reg, AllSchemes(b))
  }

  function AllSchemes(b: Bundle): set<SchemeId> {
    b.device + b.validator + b.recovery + b.keyEstablishment + b.hashes + b.symmetric + b.kdfs + {b.proof, b.verifier}
  }

  predicate ModeFits(reg: Registry, b: Bundle) {
    match b.mode
    case HybridAnd =>
      Has(reg, b.device, Vulnerable) && Has(reg, b.device, Resistant) && Has(reg, b.validator, Vulnerable) && Has(reg, b.validator, Resistant)
      && AllResistant(reg, b.recovery) && Has(reg, b.keyEstablishment, Vulnerable) && Has(reg, b.keyEstablishment, Resistant)
      && AllResistant(reg, {b.proof}) && AllResistant(reg, {b.verifier})
    case PostQuantumOnly =>
      AllResistant(reg, b.device) && AllResistant(reg, b.validator) && AllResistant(reg, b.recovery)
      && AllResistant(reg, b.keyEstablishment) && AllResistant(reg, {b.proof}) && AllResistant(reg, {b.verifier})
    case ClassicalOnly =>
      var s := b.device + b.validator + b.keyEstablishment;
      !Has(reg, s, Resistant) && !Has(reg, s, HybridPosture)
  }

  /** The bundle built from a draft for a network capability. */
  predicate BundleAllowed(st: Setting, b: Bundle, c: Hashed<Capability>) {
    CapabilityCanonical(st, c) && SchemesAllowed(st.reg, b) && Positive(b.epoch)
    && b.mode.Rank() <= c.body.maximum.Rank()
    && b.device + b.validator <= c.body.signatures && b.proof in c.body.proofs && b.verifier in c.body.verifiers
    && Verifies(st.reg, b.verifier, b.proof) && ModeFits(st.reg, b) && b.recoveryIndependence != 0
  }

  /** Building a bundle: registry and capability are those of the network record. */
  function BuildBundle(st: Setting, draft: Bundle, c: Hashed<Capability>): Option<Hashed<Bundle>> {
    var b := draft.(registryEpoch := c.body.registryEpoch, registryHash := c.body.registryHash, capability := CapabilityDigest(c.body));
    if BundleAllowed(st, b, c) then Some(Hashed(b, BundleDigest(b))) else None
  }

  function CreateBundle(st: Setting, draft: Bundle, c: Hashed<Capability>, t: Hashed<Trusted>): Option<Hashed<Bundle>> {
    if !TrustedValid(t) || !CapabilityTrusted(st, c, t) then None
    else
      match BuildBundle(st, draft, c)
      case None => None
      case Some(b) => if b.body.epoch == t.body.policyEpoch && b.hash == t.body.expectedPolicy then Some(b) else None
  }

  function ValidateBundle(st: Setting, b: Hashed<Bundle>, c: Hashed<Capability>, t: Hashed<Trusted>): Option<Hashed<Bundle>> {
    match CreateBundle(st, b.body, c, t)
    case None => None
    case Some(rebuilt) =>
      if rebuilt.hash != b.hash || rebuilt.body.registryEpoch != b.body.registryEpoch || rebuilt.body.registryHash != b.body.registryHash
      then None else Some(rebuilt)
  }

  // ---- Ceremonies ------------------------------------------------------------------------

  datatype CeremonyKind = EnrollHybrid | RotateWithinMode | RetireClassical | EmergencyFreeze

  datatype Ceremony = Ceremony(
    kind: CeremonyKind, fromBundle: Hashed<Bundle>, toBundle: Hashed<Bundle>, fromCapability: Hashed<Capability>,
    toCapability: Hashed<Capability>, fromTrusted: Hashed<Trusted>, toTrusted: Hashed<Trusted>,
    fromDevice: nat, toDevice: nat, fromValidator: nat, toValidator: nat, fromRecovery: nat, toRecovery: nat,
    newKeys: nat, userApproval: nat, recoveryApproval: nat, review: nat, notBefore: nat, expiresAt: nat, freeze: bool)

  predicate KindFits(k: CeremonyKind, from: Mode, to: Mode, freeze: bool) {
    (k.EnrollHybrid? ==> from.ClassicalOnly? && to.HybridAnd?) && (k.RotateWithinMode? ==> from == to)
    && (k.RetireClassical? ==> from.HybridAnd? && to.PostQuantumOnly?) && (freeze <==> k.EmergencyFreeze?)
  }

  predicate NextEpoch(from: nat, to: nat) { Positive(from) && Positive(to) && to == from + 1 }

  /** The conditions under which a ceremony record is created. */
  predicate CeremonyAllowed(st: Setting, x: Ceremony) {
    var fromB, toB, fromC, toC := x.fromBundle.body, x.toBundle.body, x.fromCapability, x.toCapability;
    toB.epoch == fromB.epoch + 1 && toB.registryEpoch >= fromB.registryEpoch && toB.mode.Rank() >= fromB.mode.Rank()
    && CapabilityTrusted(st, fromC, x.fromTrusted) && CapabilityTrusted(st, toC, x.toTrusted)
    && ValidateBundle(st, x.fromBundle, fromC, x.fromTrusted).Some? && ValidateBundle(st, x.toBundle, toC, x.toTrusted).Some?
    && fromC.body.network == toC.body.network && fromC.body.authority == toC.body.authority
    && toC.body.epoch >= fromC.body.epoch && (toC.hash != fromC.hash ==> toC.body.epoch > fromC.body.epoch)
    && x.toTrusted.body.capabilityFloor >= x.fromTrusted.body.capabilityFloor && x.toTrusted.body.policyEpoch >= x.fromTrusted.body.policyEpoch
    && NextEpoch(x.fromDevice, x.toDevice) && NextEpoch(x.fromValidator, x.toValidator) && NextEpoch(x.fromRecovery, x.toRecovery)
    && KindFits(x.kind, fromB.mode, toB.mode, x.freeze)
    && x.newKeys != 0 && x.userApproval != 0 && x.recoveryApproval != 0 && x.review != 0
    && x.notBefore <= UINT64_MAX && Positive(x.expiresAt) && x.notBefore <= x.expiresAt
  }

  // ---- Claims ----------------------------------------------------------------------------

  datatype Claim = AlgorithmAgileOnly | LocalHybrid | NetworkHybrid | PostQuantumScope

  datatype Reason = NotImplemented | ModeNotEnforced | PathNotDeployed | StillVulnerable

  datatype Assessment = Assessment(claim: Claim, reasons: seq<Reason>)

  predicate Implemented(reg: Registry, ids: set<SchemeId>) {
    forall id :: id in ids ==>
      Lookup(reg, id).Some? && Lookup(reg, id).value.lifecycle.ActiveReference?
      && (Lookup(reg, id).value.evidence.ImplementedLocal? || Lookup(reg, id).value.evidence.EvidenceNetworkEnforced?
          || Lookup(reg, id).value.evidence.IndependentlyReviewed?)
  }

  /** The verdict, with the reasons in the order they are pushed. */
  method Assess(st: Setting, bundle: Hashed<Bundle>, c: Hashed<Capability>, t: Hashed<Trusted>) returns (r: Option<Assessment>)
    ensures r.Some? <==> ValidateBundle(st, bundle, c, t).Some?
    ensures r.Some? ==>
      var enforced := c.body.enforcement == NetworkEnforced && c.body.pathAvailable;
      var implemented := Implemented(st.reg, AllSchemes(bundle.body));
      && r.value.claim
         == (if bundle.body.mode.ClassicalOnly? || !implemented then AlgorithmAgileOnly
             else if !enforced then LocalHybrid
             else if bundle.body.mode.PostQuantumOnly? then PostQuantumScope else NetworkHybrid)
      && r.value.reasons
         == (if implemented then [] else [NotImplemented]) + (if c.body.pathAvailable then [] else [PathNotDeployed])
            + (if bundle.body.mode.ClassicalOnly? then [StillVulnerable] else [])
  {
    hide ValidateBundle, Implemented, BundleAllowed, CapabilityTrusted, AllSchemes;
    var reasons: seq<Reason> := [];
    var validated := ValidateBundle(st, bundle, c, t);
    if validated.None? { return None; }
    ValidatedFields(st, bundle, c, t);
    var b := validated.value.body;
    var local := Implemented(st.reg, AllSchemes(b));
    if !local { reasons := reasons + [NotImplemented]; }
    if c.body.maximum.Rank() < b.mode.Rank() { reasons := reasons + [ModeNotEnforced]; }
    if !c.body.pathAvailable { reasons := reasons + [PathNotDeployed]; }
    if b.mode.ClassicalOnly? { return Some(Assessment(AlgorithmAgileOnly, reasons + [StillVulnerable])); }
    if !local { return Some(Assessment(AlgorithmAgileOnly, reasons)); }
    if c.body.enforcement != NetworkEnforced || !c.body.pathAvailable || c.body.maximum.Rank() < b.mode.Rank() {
      return Some(Assessment(LocalHybrid, reasons));
    }
    return Some(Assessment(if b.mode.PostQuantumOnly? then PostQuantumScope else NetworkHybrid, reasons));
  }

  /** An accepted bundle is rebuilt from its own fields and the capability it was checked
      with; the hash it claims is the hash of exactly that. */
  lemma ValidatedFields(st: Setting, b: Hashed<Bundle>, c: Hashed<Capability>, t: Hashed<Trusted>)
    requires ValidateBundle(st, b, c, t).Some?
    ensures var v := ValidateBundle(st, b, c, t).value;
      CapabilityTrusted(st, c, t) && BundleAllowed(st, v.body, c)
      && v.body == b.body.(capability := CapabilityDigest(c.body)) && v.hash == b.hash == BundleDigest(v.body)
      && v.body.mode.Rank() <= c.body.maximum.Rank() && AllSchemes(v.body) == AllSchemes(b.body)
  {
    hide CapabilityAllowed, SchemesAllowed, ModeFits, Verifies;
  }
}
