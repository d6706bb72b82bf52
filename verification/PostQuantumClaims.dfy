/**
 * What the registry allows to be claimed, and chains of ceremonies: each starts from a bundle
 * with the hash the one before it ended with.
 */
module PostQuantumClaims {
  import opened Wrappers
  import opened SchemeRegistry
  import opened PostQuantum

  // ---- What the registry allows -----------------------------------------------------------

  /** A capability above classical-only contains an active quantum-resistant signature scheme. */
  lemma AboveClassicalNeedsSignature(st: Setting, c: Capability)
    requires CapabilityAllowed(st, c) && !c.maximum.ClassicalOnly?
    ensures ActiveResistantSignature(st.reg)
  {
    hide Lookup, Compatible;
    var id :| id in c.signatures && Lookup(st.reg, id).Some? && Lookup(st.reg, id).value.posture.Resistant?;
    assert Admissible(st.reg, id, Signature);
  }

  /** The capability that admits one such scheme and no proof at all. */
  lemma OneSignature(st: Setting, id: SchemeId) returns (c: Capability)
    requires st.hash != 0 && Admissible(st.reg, id, Signature)
    requires Lookup(st.reg, id).value.lifecycle.ActiveReference? && Lookup(st.reg, id).value.posture.Resistant?
    ensures c.maximum.PostQuantumOnly? && CreateCapability(st, c, [id], [], []).Some?
  {
    hide Lookup, Verifies, Has;
    c := Capability(1, REGISTRY_EPOCH, st.hash, 1, 1, NetworkEnforced, PostQuantumOnly, {id}, {}, {}, false, 1, 1, 1);
    assert SetOf([id]) == {id} && SetOf([]) == {};
  }

  /** Building a capability above classical-only succeeds for some input. */
  ghost predicate AboveClassicalBuildable(st: Setting) {
    exists c: Capability, signatures, proofs, verifiers ::
      !c.maximum.ClassicalOnly? && CreateCapability(st, c, signatures, proofs, verifiers).Some?
  }

  /** And one is enough: a capability above classical-only can be built exactly when the
      registry has an active quantum-resistant signature scheme. */
  lemma AboveClassicalExactly(st: Setting)
    requires st.hash != 0
    ensures AboveClassicalBuildable(st) <==> ActiveResistantSignature(st.reg)
  {
    hide Lookup, CapabilityAllowed;
    if c: Capability, signatures, proofs, verifiers :|
      !c.maximum.ClassicalOnly? && CreateCapability(st, c, signatures, proofs, verifiers).Some?
    {
      AboveClassicalNeedsSignature(st, CreateCapability(st, c, signatures, proofs, verifiers).value.body);
    }
    if ActiveResistantSignature(st.reg) {
      var id :| Admissible(st.reg, id, Signature) && Lookup(st.reg, id).value.lifecycle.ActiveReference?
                && Lookup(st.reg, id).value.posture.Resistant?;
      var c := OneSignature(st, id);
    }
  }

  /** Over the frozen registry every capability and every policy is classical-only. */
  lemma FrozenIsClassical(st: Setting, b: Bundle, c: Hashed<Capability>)
    requires st.reg == FROZEN
    ensures CapabilityAllowed(st, c.body) ==> c.body.maximum.ClassicalOnly?
    ensures BundleAllowed(st, b, c) ==> b.mode.ClassicalOnly?
    ensures st.hash != 0 ==> !AboveClassicalBuildable(st)
  {
    hide CapabilityAllowed, SchemesAllowed, ModeFits, Verifies, ActiveResistantSignature, AboveClassicalBuildable;
    FrozenHasNoResistantSignature();
    if st.hash != 0 { AboveClassicalExactly(st); }
    if CapabilityAllowed(st, c.body) && !c.body.maximum.ClassicalOnly? {
      AboveClassicalNeedsSignature(st, c.body);
    }
  }

  /** So hybrid enrollment and classical retirement always fail there. */
  lemma FrozenCeremonies(st: Setting, x: Ceremony)
    requires st.reg == FROZEN && CeremonyAllowed(st, x)
    ensures !x.kind.EnrollHybrid? && !x.kind.RetireClassical?
    ensures x.fromBundle.body.mode.ClassicalOnly? && x.toBundle.body.mode.ClassicalOnly?
  {
    hide BundleAllowed, CapabilityTrusted, ValidateBundle, AllSchemes;
    ValidatedFields(st, x.fromBundle, x.fromCapability, x.fromTrusted);
    ValidatedFields(st, x.toBundle, x.toCapability, x.toTrusted);
    FrozenIsClassical(st, ValidateBundle(st, x.fromBundle, x.fromCapability, x.fromTrusted).value.body, x.fromCapability);
    FrozenIsClassical(st, ValidateBundle(st, x.toBundle, x.toCapability, x.toTrusted).value.body, x.toCapability);
  }

  /** And every successful assessment claims algorithm agility only. */
  method AssessFrozen(hash: nat, bundle: Hashed<Bundle>, c: Hashed<Capability>, t: Hashed<Trusted>) returns (r: Option<Assessment>)
    ensures r.Some? <==> ValidateBundle(Setting(FROZEN, hash), bundle, c, t).Some?
    ensures r.Some? ==> r.value.claim == AlgorithmAgileOnly && StillVulnerable in r.value.reasons
  {
    hide ValidateBundle, Implemented, BundleAllowed, CapabilityTrusted, AllSchemes;
    var st := Setting(FROZEN, hash);
    r := Assess(st, bundle, c, t);
    if r.Some? {
      ValidatedFields(st, bundle, c, t);
      FrozenIsClassical(st, ValidateBundle(st, bundle, c, t).value.body, c);
    }
  }

  // ---- What the frozen registry does admit ------------------------------------------------

  /** The reference capability: the P-256 signature, the Noir proof and its verifier. */
  function ReferenceCapability(st: Setting): Hashed<Capability> {
    var c := Capability(1, REGISTRY_EPOCH, st.hash, 1, 1, LocalOnly, ClassicalOnly, {P256Sha256}, {NoirUltraHonk}, {GaragaVerifier},
                        false, 1, 1, 1);
    Hashed(c, CapabilityDigest(c))
  }

  function ReferenceBundle(st: Setting, epoch: nat): Hashed<Bundle> {
    var b := Bundle(REGISTRY_EPOCH, st.hash, epoch, ClassicalOnly, {P256Sha256}, {P256Sha256}, {PairwiseRecovery}, {P256Ecies},
                    {Sha256}, {Aes256Gcm}, {HkdfSha256}, NoirUltraHonk, GaragaVerifier, ReferenceCapability(st).hash, 1);
    Hashed(b, BundleDigest(b))
  }

  /** The trusted state in which that bundle is current. */
  function ReferenceTrust(st: Setting, epoch: nat): Hashed<Trusted> {
    var t := Trusted(REGISTRY_EPOCH, st.hash, 1, 1, 1, ReferenceCapability(st).hash, epoch, ReferenceBundle(st, epoch).hash);
    Hashed(t, TrustedDigest(t))
  }

  /** An active scheme of a kind. */
  predicate Usable(reg: Registry, id: SchemeId, kind: Kind) {
    Admissible(reg, id, kind) && Lookup(reg, id).value.lifecycle.ActiveReference?
  }

  /** The registry has the reference schemes. */
  predicate HasReferences(reg: Registry) {
    Usable(reg, P256Sha256, Signature) && Usable(reg, P256Ecies, KeyEstablishment) && Usable(reg, Sha256, HashFunction)
    && Usable(reg, Aes256Gcm, Symmetric) && Usable(reg, HkdfSha256, Kdf) && Usable(reg, PairwiseRecovery, RecoveryProtection)
    && Usable(reg, NoirUltraHonk, Proof) && Usable(reg, GaragaVerifier, Verifier) && Verifies(reg, GaragaVerifier, NoirUltraHonk)
    && Lookup(reg, P256Sha256).value.posture.Vulnerable? && Lookup(reg, P256Ecies).value.posture.Vulnerable?
  }

  lemma FrozenFields()
    ensures |FROZEN| == 17
    ensures FROZEN[0].kind.Signature? && FROZEN[0].lifecycle.ActiveReference? && FROZEN[0].posture.Vulnerable?
    ensures FROZEN[4].kind.KeyEstablishment? && FROZEN[4].lifecycle.ActiveReference? && FROZEN[4].posture.Vulnerable?
    ensures FROZEN[7].kind.HashFunction? && FROZEN[7].lifecycle.ActiveReference?
    ensures FROZEN[9].kind.Symmetric? && FROZEN[9].lifecycle.ActiveReference?
    ensures FROZEN[10].kind.Kdf? && FROZEN[10].lifecycle.ActiveReference?
    ensures FROZEN[11].kind.RecoveryProtection? && FROZEN[11].lifecycle.ActiveReference?
    ensures FROZEN[12].kind.Proof? && FROZEN[12].lifecycle.ActiveReference?
    ensures FROZEN[15].kind.Verifier? && FROZEN[15].lifecycle.ActiveReference? && FROZEN[15].proofs == [NoirUltraHonk]
  {
  }

  lemma FrozenHasReferences()
    ensures HasReferences(FROZEN)
  {
    FrozenFields();
    hide Lookup, FROZEN;
    FrozenLookup(P256Sha256);
    FrozenLookup(P256Ecies);
    FrozenLookup(Sha256);
    FrozenLookup(Aes256Gcm);
    FrozenLookup(HkdfSha256);
    FrozenLookup(PairwiseRecovery);
    FrozenLookup(NoirUltraHonk);
    FrozenLookup(GaragaVerifier);
  }

  lemma ReferenceCapabilityAllowed(st: Setting)
    requires HasReferences(st.reg) && st.hash != 0
    ensures CapabilityAllowed(st, ReferenceCapability(st).body)
  {
    hide Lookup, Has, AllActive, AllResistant;
  }

  lemma ReferenceSchemesAllowed(st: Setting, epoch: nat)
    requires HasReferences(st.reg)
    ensures SchemesAllowed(st.reg, ReferenceBundle(st, epoch).body)
  {
    hide Lookup, Verifies;
  }

  lemma ReferenceModeFits(st: Setting, epoch: nat)
    requires HasReferences(st.reg)
    ensures ModeFits(st.reg, ReferenceBundle(st, epoch).body)
  {
    hide Lookup, Verifies, Admissible;
  }

  /** So the results about the frozen registry are not about nothing: a capability and a
      bundle for every policy epoch are accepted there. */
  lemma FrozenAdmits(hash: nat, epoch: nat)
    requires hash != 0 && Positive(epoch)
    ensures var st := Setting(FROZEN, hash);
      CapabilityTrusted(st, ReferenceCapability(st), ReferenceTrust(st, epoch))
      && ValidateBundle(st, ReferenceBundle(st, epoch), ReferenceCapability(st), ReferenceTrust(st, epoch)) == Some(ReferenceBundle(st, epoch))
  {
    FrozenHasReferences();
    ReferenceAdmits(Setting(FROZEN, hash), epoch);
  }

  lemma ReferenceAdmits(st: Setting, epoch: nat)
    requires HasReferences(st.reg) && st.hash != 0 && Positive(epoch)
    ensures CapabilityTrusted(st, ReferenceCapability(st), ReferenceTrust(st, epoch))
    ensures ValidateBundle(st, ReferenceBundle(st, epoch), ReferenceCapability(st), ReferenceTrust(st, epoch)) == Some(ReferenceBundle(st, epoch))
  {
    hide CapabilityAllowed, SchemesAllowed, ModeFits, Lookup, Admissible;
    ReferenceCapabilityAllowed(st);
    ReferenceSchemesAllowed(st, epoch);
    ReferenceModeFits(st, epoch);
  }

  /** And a rotation from each such bundle to the next. */
  lemma FrozenRotates(hash: nat, epoch: nat) returns (x: Ceremony)
    requires hash != 0 && Positive(epoch) && Positive(epoch + 1)
    ensures CeremonyAllowed(Setting(FROZEN, hash), x) && x.fromBundle.body.epoch == epoch
  {
    hide ValidateBundle, CapabilityTrusted, FROZEN;
    var st := Setting(FROZEN, hash);
    FrozenAdmits(hash, epoch);
    FrozenAdmits(hash, epoch + 1);
    x := Ceremony(RotateWithinMode, ReferenceBundle(st, epoch), ReferenceBundle(st, epoch + 1), ReferenceCapability(st), ReferenceCapability(st),
                  ReferenceTrust(st, epoch), ReferenceTrust(st, epoch + 1), 1, 2, 1, 2, 1, 2, 1, 1, 1, 1, 0, 1, false);
  }

  // ---- Chains ------------------------------------------------------------------------------

  ghost predicate Chain(st: Setting, xs: seq<Ceremony>) {
    (forall i :: 0 <= i < |xs| ==> CeremonyAllowed(st, xs[i]))
    && forall i :: 0 < i < |xs| ==> xs[i].fromBundle.hash == xs[i - 1].toBundle.hash
  }

  /** A link by bundle hash is a link of everything: the same bundle, bound to the same
      network capability. */
  lemma LinkBinds(st: Setting, x: Ceremony, y: Ceremony)
    requires CeremonyAllowed(st, x) && CeremonyAllowed(st, y) && y.fromBundle.hash == x.toBundle.hash
    ensures y.fromBundle.body.epoch == x.toBundle.body.epoch && y.fromBundle.body.mode == x.toBundle.body.mode
    ensures y.fromBundle.body.registryEpoch == x.toBundle.body.registryEpoch
    ensures y.fromCapability == x.toCapability
  {
    hide BundleAllowed, ValidateBundle, AllSchemes, CapabilityAllowed, TrustedValid;
    ValidatedFields(st, x.toBundle, x.toCapability, x.toTrusted);
    ValidatedFields(st, y.fromBundle, y.fromCapability, y.fromTrusted);
  }

  /** What one ceremony does to the epochs and the mode. */
  lemma CeremonySteps(st: Setting, x: Ceremony)
    requires CeremonyAllowed(st, x)
    ensures x.toBundle.body.epoch == x.fromBundle.body.epoch + 1
    ensures x.toBundle.body.mode.Rank() >= x.fromBundle.body.mode.Rank()
    ensures x.toBundle.body.registryEpoch >= x.fromBundle.body.registryEpoch
    ensures x.toCapability.body.epoch >= x.fromCapability.body.epoch
    ensures x.toCapability.body.network == x.fromCapability.body.network && x.toCapability.body.authority == x.fromCapability.body.authority
  {
    hide CapabilityTrusted, ValidateBundle;
  }

  /** Along every chain the policy epoch rises by one per ceremony, the mode, the registry
      epoch and the capability epoch never fall, and network and authority stay the same. */
  lemma {:induction false} ChainMonotone(st: Setting, xs: seq<Ceremony>, i: nat, j: nat)
    requires Chain(st, xs) && i <= j < |xs|
    ensures xs[j].toBundle.body.epoch == xs[i].fromBundle.body.epoch + (j - i) + 1
    ensures xs[j].toBundle.body.mode.Rank() >= xs[i].fromBundle.body.mode.Rank()
    ensures xs[j].toBundle.body.registryEpoch >= xs[i].fromBundle.body.registryEpoch
    ensures xs[j].toCapability.body.epoch >= xs[i].fromCapability.body.epoch
    ensures xs[j].toCapability.body.network == xs[i].fromCapability.body.network
    ensures xs[j].toCapability.body.authority == xs[i].fromCapability.body.authority
    decreases j - i
  {
    hide CeremonyAllowed, Mode.Rank;
    CeremonySteps(st, xs[j]);
    if i < j {
      ChainMonotone(st, xs, i, j - 1);
      assert xs[j].fromBundle.hash == xs[j - 1].toBundle.hash;
      LinkBinds(st, xs[j - 1], xs[j]);
    }
  }
}
