/**
 * The checks of capabilities, policies and ceremonies in the order in which they are made, each with the code it
 * fails with, proved to let through exactly what the predicates of PostQuantum describe.
 */
module PostQuantumChecks {
  import opened Wrappers
  import opened SchemeRegistry
  import opened PostQuantum

  datatype Code =
    | SetEmpty | SetDuplicate | SchemeUnknown | KindMismatch | NotAdmissible | ProofVerifierIncompatible
    | RegistryTrustMismatch | ValueInvalid | NetworkModeOverclaim | NetworkPathOverclaim | CandidateNotActivatable
    | HybridComponentsRequired | NetworkComponentsIncomplete | ClassicalComponentForbidden
    | CapabilityHashMismatch | TrustedHashMismatch | ProvenanceMismatch | CapabilityStale | CapabilityUntrusted
    | PolicyExceedsNetwork | NetworkSchemeUnsupported | ProofVerifierNotResistant | ClassicalModeMismatch
    | PolicyEpochTransition | RegistryDowngrade | SecurityDowngrade | PolicyRefused | CrossNetwork | AuthorityRotation
    | CapabilityDowngrade | CapabilityEpochTransition | TrustedDowngrade | AuthorityEpochTransition
    | EnrollmentTransition | RotationModeChange | RetirementTransition | FreezeRequired | WindowInvalid

  /** The codes of a list of schemes by itself, and those of a mode. */
  predicate SetCode(c: Code) {
    c.SetEmpty? || c.SetDuplicate? || c.SchemeUnknown? || c.KindMismatch? || c.NotAdmissible? || c.CandidateNotActivatable?
  }

  predicate ModeCode(c: Code) {
    c.HybridComponentsRequired? || c.ClassicalComponentForbidden? || c.ProofVerifierNotResistant? || c.ClassicalModeMismatch?
  }

  // ---- Sets of schemes -------------------------------------------------------------------

  method NormalizeSchemeIds(reg: Registry, ids: seq<SchemeId>, kind: Kind, allowEmpty: bool) returns (r: Option<Code>)
    ensures r.None? <==> (allowEmpty || ids != []) && NoRepeats(ids) && AllAdmissible(reg, SetOf(ids), kind)
    ensures r == Some(SetEmpty) <==> !allowEmpty && ids == []
    ensures r == Some(SetDuplicate) <==> !NoRepeats(ids)
    ensures r.Some? ==> SetCode(r.value)
  {
    if !allowEmpty && |ids| == 0 { return Some(SetEmpty); }
    if !NoRepeats(ids) { return Some(SetDuplicate); }
    for k := 0 to |ids|
      invariant forall j :: 0 <= j < k ==> Admissible(reg, ids[j], kind)
    {
      assert ids[k] in SetOf(ids);
      var record := Lookup(reg, ids[k]);
      if record.None? { return Some(SchemeUnknown); }
      if record.value.kind != kind { return Some(KindMismatch); }
      if record.value.lifecycle == Forbidden || record.value.lifecycle == Retired { return Some(NotAdmissible); }
    }
    return None;
  }

  method Postures(reg: Registry, ids: seq<SchemeId>) returns (postures: set<Posture>)
    ensures forall p :: p in postures <==> Has(reg, SetOf(ids), p)
  {
    postures := {};
    for k := 0 to |ids|
      invariant forall p :: p in postures <==> Occurs(reg, ids[..k], p)
    {
      var record := Lookup(reg, ids[k]);
      if record.Some? { postures := postures + {record.value.posture}; }
      assert ids[..k + 1] == ids[..k] + [ids[k]];
    }
    assert ids[..|ids|] == ids;
    forall p ensures Has(reg, SetOf(ids), p) <==> Occurs(reg, ids, p) {}
  }

  ghost predicate Occurs(reg: Registry, ids: seq<SchemeId>, p: Posture) {
    exists id :: id in ids && Lookup(reg, id).Some? && Lookup(reg, id).value.posture == p
  }

  method RequireHybridSet(reg: Registry, ids: seq<SchemeId>) returns (r: Option<Code>)
    ensures r == if Has(reg, SetOf(ids), Vulnerable) && Has(reg, SetOf(ids), Resistant) then None else Some(HybridComponentsRequired)
  {
    var postures := Postures(reg, ids);
    return if Vulnerable !in postures || Resistant !in postures then Some(HybridComponentsRequired) else None;
  }

  method RequirePostQuantumSet(reg: Registry, ids: seq<SchemeId>) returns (r: Option<Code>)
    ensures r == if AllResistant(reg, SetOf(ids)) then None else Some(ClassicalComponentForbidden)
  {
    for k := 0 to |ids|
      invariant forall j :: 0 <= j < k ==> Lookup(reg, ids[j]).Some? && Lookup(reg, ids[j]).value.posture == Resistant
    {
      assert ids[k] in SetOf(ids);
      var record := Lookup(reg, ids[k]);
      if record.None? || record.value.posture != Resistant { return Some(ClassicalComponentForbidden); }
    }
    return None;
  }

  method RequireActiveSet(reg: Registry, ids: seq<SchemeId>) returns (r: Option<Code>)
    ensures r == if AllActive(reg, SetOf(ids)) then None else Some(CandidateNotActivatable)
  {
    for k := 0 to |ids|
      invariant forall j :: 0 <= j < k ==> Lookup(reg, ids[j]).Some? && Lookup(reg, ids[j]).value.lifecycle == ActiveReference
    {
      assert ids[k] in SetOf(ids);
      var record := Lookup(reg, ids[k]);
      if record.None? || record.value.lifecycle != ActiveReference { return Some(CandidateNotActivatable); }
    }
    return None;
  }

  /** Whether a list of verifiers has one for the proof, or a list of proofs one for the verifier. */
  method SomeVerifies(reg: Registry, verifiers: seq<SchemeId>, proofs: seq<SchemeId>) returns (found: bool)
    ensures found <==> exists v, p :: v in verifiers && p in proofs && Verifies(reg, v, p)
  {
    for i := 0 to |verifiers|
      invariant forall k, p :: 0 <= k < i && p in proofs ==> !Verifies(reg, verifiers[k], p)
    {
      var record := Lookup(reg, verifiers[i]);
      if record.Some? {
        for j := 0 to |proofs|
          invariant forall k :: 0 <= k < j ==> !Verifies(reg, verifiers[i], proofs[k])
        {
          if proofs[j] in record.value.proofs {
            assert Verifies(reg, verifiers[i], proofs[j]);
            return true;
          }
        }
      }
    }
    return false;
  }

  method RequireCompatibleSets(reg: Registry, proofs: seq<SchemeId>, verifiers: seq<SchemeId>) returns (r: Option<Code>)
    ensures r == if Compatible(reg, SetOf(proofs), SetOf(verifiers)) then None else Some(ProofVerifierIncompatible)
  {
    hide Verifies;
    for k := 0 to |proofs|
      invariant forall j :: 0 <= j < k ==> exists v :: v in verifiers && Verifies(reg, v, proofs[j])
    {
      assert proofs[k] in SetOf(proofs);
      var found := SomeVerifies(reg, verifiers, [proofs[k]]);
      assert forall p :: p in [proofs[k]] <==> p == proofs[k];
      if !found { return Some(ProofVerifierIncompatible); }
    }
    for k := 0 to |verifiers|
      invariant forall j :: 0 <= j < k ==> exists p :: p in proofs && Verifies(reg, verifiers[j], p)
    {
      assert verifiers[k] in SetOf(verifiers);
      var found := SomeVerifies(reg, [verifiers[k]], proofs);
      assert forall v :: v in [verifiers[k]] <==> v == verifiers[k];
      if !found { return Some(ProofVerifierIncompatible); }
    }
    return None;
  }

  // ---- Capabilities ------------------------------------------------------------------------

  method RequireActiveNetwork(reg: Registry, signatures: seq<SchemeId>, proofs: seq<SchemeId>, verifiers: seq<SchemeId>) returns (r: Option<Code>)
    ensures r == if AllActive(reg, SetOf(signatures)) && AllActive(reg, SetOf(proofs)) && AllActive(reg, SetOf(verifiers))
                 then None else Some(CandidateNotActivatable)
  {
    r := RequireActiveSet(reg, signatures);
    if r.Some? { return; }
    r := RequireActiveSet(reg, proofs);
    if r.Some? { return; }
    r := RequireActiveSet(reg, verifiers);
  }

  method RequireResistantNetwork(reg: Registry, signatures: seq<SchemeId>, proofs: seq<SchemeId>, verifiers: seq<SchemeId>) returns (r: Option<Code>)
    ensures r == if AllResistant(reg, SetOf(signatures)) && AllResistant(reg, SetOf(proofs)) && AllResistant(reg, SetOf(verifiers))
                 then None else Some(ClassicalComponentForbidden)
  {
    r := RequirePostQuantumSet(reg, signatures);
    if r.Some? { return; }
    r := RequirePostQuantumSet(reg, proofs);
    if r.Some? { return; }
    r := RequirePostQuantumSet(reg, verifiers);
  }

  method NormalizeNetworkSchemes(reg: Registry, signatures: seq<SchemeId>, proofs: seq<SchemeId>, verifiers: seq<SchemeId>) returns (r: Option<Code>)
    ensures r.None?
       <==> NoRepeats(signatures) && NoRepeats(proofs) && NoRepeats(verifiers) && SetOf(signatures) != {}
            && AllAdmissible(reg, SetOf(signatures), Signature) && AllAdmissible(reg, SetOf(proofs), Proof)
            && AllAdmissible(reg, SetOf(verifiers), Verifier) && (SetOf(proofs) == {} <==> SetOf(verifiers) == {})
            && Compatible(reg, SetOf(proofs), SetOf(verifiers))
  {
    hide AllAdmissible, Compatible, NoRepeats;
    EmptySets(signatures);
    EmptySets(proofs);
    EmptySets(verifiers);
    r := NormalizeSchemeIds(reg, signatures, Signature, false);
    if r.Some? { return; }
    r := NormalizeSchemeIds(reg, proofs, Proof, true);
    if r.Some? { return; }
    r := NormalizeSchemeIds(reg, verifiers, Verifier, true);
    if r.Some? { return; }
    if (|proofs| == 0) != (|verifiers| == 0) { return Some(ProofVerifierIncompatible); }
    r := RequireCompatibleSets(reg, proofs, verifiers);
  }

  lemma EmptySets(ids: seq<SchemeId>)
    ensures SetOf(ids) == {} <==> ids == []
  {
    if ids != [] { assert ids[0] in SetOf(ids); }
  }

  /** Building a capability from the lists given. */
  method CreateNetworkCapability(st: Setting, c: Capability, signatures: seq<SchemeId>, proofs: seq<SchemeId>, verifiers: seq<SchemeId>)
    returns (r: Option<Code>)
    ensures r.None? <==> CreateCapability(st, c, signatures, proofs, verifiers).Some?
  {
    hide AllAdmissible, Compatible, AllActive, AllResistant, Has, NoRepeats, SetOf;
    r := NormalizeNetworkSchemes(st.reg, signatures, proofs, verifiers);
    if r.Some? { return; }
    if c.registryEpoch != 1 || c.registryHash != st.hash { return Some(RegistryTrustMismatch); }
    if c.network == 0 || c.epoch < 1 || c.epoch > 0xffff_ffff_ffff_ffff || c.accountModel == 0 || c.authority == 0
       || c.implementation == 0 || c.evidence == 0 { return Some(ValueInvalid); }
    if !c.maximum.ClassicalOnly? && !c.enforcement.NetworkEnforced? { return Some(NetworkModeOverclaim); }
    if c.pathAvailable && !c.enforcement.NetworkEnforced? { return Some(NetworkPathOverclaim); }
    if c.maximum.HybridAnd? {
      r := RequireActiveNetwork(st.reg, signatures, proofs, verifiers);
      if r.Some? { return; }
      r := RequireHybridSet(st.reg, signatures);
      if r.Some? { return; }
      var proofPostures := Postures(st.reg, proofs);
      var verifierPostures := Postures(st.reg, verifiers);
      if Resistant !in proofPostures || Resistant !in verifierPostures { return Some(NetworkComponentsIncomplete); }
    }
    if c.maximum.PostQuantumOnly? {
      r := RequireActiveNetwork(st.reg, signatures, proofs, verifiers);
      if r.Some? { return; }
      r := RequireResistantNetwork(st.reg, signatures, proofs, verifiers);
      if r.Some? { return; }
    }
    return None;
  }

  method ValidateTrustedState(t: Hashed<Trusted>) returns (r: Option<Code>)
    ensures r.None? <==> TrustedValid(t)
    ensures r == None || r == Some(ValueInvalid) || r == Some(TrustedHashMismatch)
  {
    var b := t.body;
    if b.registryEpoch < 1 || b.registryEpoch > 0xffff_ffff_ffff_ffff { return Some(ValueInvalid); }
    if b.registryHash == 0 || b.network == 0 || b.authority == 0 { return Some(ValueInvalid); }
    if b.capabilityFloor < 1 || b.capabilityFloor > 0xffff_ffff_ffff_ffff { return Some(ValueInvalid); }
    if b.policyEpoch < 1 || b.policyEpoch > 0xffff_ffff_ffff_ffff { return Some(ValueInvalid); }
    if t.hash != TrustedDigest(b) { return Some(TrustedHashMismatch); }
    return None;
  }

  /** A capability against the trusted state, given that it is canonical. */
  method ValidateNetworkCapability(st: Setting, c: Hashed<Capability>, t: Hashed<Trusted>) returns (r: Option<Code>)
    ensures r.None? <==> CapabilityTrusted(st, c, t)
    ensures r == Some(CapabilityStale) ==> c.body.epoch < t.body.capabilityFloor
    ensures r == Some(CapabilityUntrusted) ==> c.hash != t.body.expectedCapability
    ensures r.Some? ==> r.value != PolicyEpochTransition && r.value != SecurityDowngrade
  {
    hide CapabilityAllowed, TrustedValid;
    if !CapabilityAllowed(st, c.body) || c.hash != CapabilityDigest(c.body) { return Some(CapabilityHashMismatch); }
    r := ValidateTrustedState(t);
    if r.Some? { return; }
    if t.body.registryEpoch != c.body.registryEpoch || t.body.registryHash != c.body.registryHash { return Some(RegistryTrustMismatch); }
    if t.body.network != c.body.network || t.body.authority != c.body.authority { return Some(ProvenanceMismatch); }
    if c.body.epoch < t.body.capabilityFloor { return Some(CapabilityStale); }
    if c.hash != t.body.expectedCapability { return Some(CapabilityUntrusted); }
    return None;
  }

  // ---- Policies ----------------------------------------------------------------------------

  /** A policy as it is drafted, with lists. */
  datatype Draft = Draft(
    epoch: nat, mode: Mode, device: seq<SchemeId>, validator: seq<SchemeId>, recovery: seq<SchemeId>, keyEstablishment: seq<SchemeId>,
    hashes: seq<SchemeId>, symmetric: seq<SchemeId>, kdfs: seq<SchemeId>, proof: SchemeId, verifier: SchemeId, recoveryIndependence: nat)

  function Drafted(d: Draft): Bundle {
    Bundle(0, 0, d.epoch, d.mode, SetOf(d.device), SetOf(d.validator), SetOf(d.recovery), SetOf(d.keyEstablishment), SetOf(d.hashes),
           SetOf(d.symmetric), SetOf(d.kdfs), d.proof, d.verifier, Unknown(0), d.recoveryIndependence)
  }

  function Lists(d: Draft): (lists: seq<(seq<SchemeId>, Kind)>)
    ensures |lists| == 9
  {
    [(d.device, Signature), (d.validator, Signature), (d.recovery, RecoveryProtection), (d.keyEstablishment, KeyEstablishment),
     (d.hashes, HashFunction), (d.symmetric, Symmetric), (d.kdfs, Kdf), ([d.proof], Proof), ([d.verifier], Verifier)]
  }

  ghost predicate ListFits(reg: Registry, entry: (seq<SchemeId>, Kind)) {
    entry.0 != [] && NoRepeats(entry.0) && AllAdmissible(reg, SetOf(entry.0), entry.1)
  }

  ghost predicate DistinctLists(d: Draft) {
    NoRepeats(d.device) && NoRepeats(d.validator) && NoRepeats(d.recovery) && NoRepeats(d.keyEstablishment) && NoRepeats(d.hashes)
    && NoRepeats(d.symmetric) && NoRepeats(d.kdfs)
  }

  /** The nine lists normalized in turn, and then required to be active in turn. */
  method NormalizePolicySchemes(reg: Registry, d: Draft) returns (r: Option<Code>)
    ensures r.None? <==> DistinctLists(d) && SchemesAllowed(reg, Drafted(d))
    ensures r.Some? ==> SetCode(r.value)
  {
    var lists := Lists(d);
    hide Lists, ListFits, SchemesAllowed, DistinctLists;
    for k := 0 to |lists|
      invariant forall j :: 0 <= j < k ==> ListFits(reg, lists[j])
    {
      r := NormalizeSchemeIds(reg, lists[k].0, lists[k].1, false);
      ListFitsMeans(reg, lists[k]);
      if r.Some? {
        PolicyLists(reg, d);
        return;
      }
    }
    for k := 0 to |lists|
      invariant forall j :: 0 <= j < k ==> AllActive(reg, SetOf(lists[j].0))
    {
      r := RequireActiveSet(reg, lists[k].0);
      if r.Some? {
        PolicyLists(reg, d);
        return;
      }
    }
    PolicyLists(reg, d);
    return None;
  }

  lemma ListFitsMeans(reg: Registry, entry: (seq<SchemeId>, Kind))
    ensures ListFits(reg, entry) <==> entry.0 != [] && NoRepeats(entry.0) && AllAdmissible(reg, SetOf(entry.0), entry.1)
  {
  }

  lemma SingleSet(id: SchemeId)
    ensures SetOf([id]) == {id} && NoRepeats([id])
  {
  }

  lemma ActiveUnion(reg: Registry, d: Draft)
    ensures AllActive(reg, AllSchemes(Drafted(d)))
       <==> AllActive(reg, SetOf(d.device)) && AllActive(reg, SetOf(d.validator)) && AllActive(reg, SetOf(d.recovery))
            && AllActive(reg, SetOf(d.keyEstablishment)) && AllActive(reg, SetOf(d.hashes)) && AllActive(reg, SetOf(d.symmetric))
            && AllActive(reg, SetOf(d.kdfs)) && AllActive(reg, {d.proof}) && AllActive(reg, {d.verifier})
  {
    hide Lookup, SetOf;
    var all := AllSchemes(Drafted(d));
    assert SetOf(d.device) <= all && SetOf(d.validator) <= all && SetOf(d.recovery) <= all && SetOf(d.keyEstablishment) <= all;
    assert SetOf(d.hashes) <= all && SetOf(d.symmetric) <= all && SetOf(d.kdfs) <= all && {d.proof} <= all && {d.verifier} <= all;
  }

  lemma PolicyLists(reg: Registry, d: Draft)
    ensures (forall j :: 0 <= j < 9 ==> ListFits(reg, Lists(d)[j])) && (forall j :: 0 <= j < 9 ==> AllActive(reg, SetOf(Lists(d)[j].0)))
       <==> DistinctLists(d) && SchemesAllowed(reg, Drafted(d))
  {
    hide ListFits, Lists;
    hide AllActive, AllAdmissible, NoRepeats, SetOf, Admissible;
    ActiveUnion(reg, d);
    SingleSet(d.proof);
    SingleSet(d.verifier);
    SingleAdmissible(reg, d.proof, Proof);
    SingleAdmissible(reg, d.verifier, Verifier);
    EmptySets(d.device);
    EmptySets(d.validator);
    EmptySets(d.recovery);
    EmptySets(d.keyEstablishment);
    EmptySets(d.hashes);
    EmptySets(d.symmetric);
    EmptySets(d.kdfs);
    AllNine(reg, d);
    ListFitsMeans(reg, (d.device, Signature));
    ListFitsMeans(reg, (d.validator, Signature));
    ListFitsMeans(reg, (d.recovery, RecoveryProtection));
    ListFitsMeans(reg, (d.keyEstablishment, KeyEstablishment));
    ListFitsMeans(reg, (d.hashes, HashFunction));
    ListFitsMeans(reg, (d.symmetric, Symmetric));
    ListFitsMeans(reg, (d.kdfs, Kdf));
    ListFitsMeans(reg, ([d.proof], Proof));
    ListFitsMeans(reg, ([d.verifier], Verifier));
  }

  lemma AllNine(reg: Registry, d: Draft)
    ensures (forall j :: 0 <= j < 9 ==> ListFits(reg, Lists(d)[j]))
       <==> ListFits(reg, (d.device, Signature)) && ListFits(reg, (d.validator, Signature)) && ListFits(reg, (d.recovery, RecoveryProtection))
            && ListFits(reg, (d.keyEstablishment, KeyEstablishment)) && ListFits(reg, (d.hashes, HashFunction))
            && ListFits(reg, (d.symmetric, Symmetric)) && ListFits(reg, (d.kdfs, Kdf)) && ListFits(reg, ([d.proof], Proof))
            && ListFits(reg, ([d.verifier], Verifier))
    ensures (forall j :: 0 <= j < 9 ==> AllActive(reg, SetOf(Lists(d)[j].0)))
       <==> AllActive(reg, SetOf(d.device)) && AllActive(reg, SetOf(d.validator)) && AllActive(reg, SetOf(d.recovery))
            && AllActive(reg, SetOf(d.keyEstablishment)) && AllActive(reg, SetOf(d.hashes)) && AllActive(reg, SetOf(d.symmetric))
            && AllActive(reg, SetOf(d.kdfs)) && AllActive(reg, SetOf([d.proof])) && AllActive(reg, SetOf([d.verifier]))
  {
    hide ListFits, AllActive, SetOf;
    var l := Lists(d);
    assert l[0].0 == d.device && l[1].0 == d.validator && l[2].0 == d.recovery && l[3].0 == d.keyEstablishment && l[4].0 == d.hashes;
    assert l[5].0 == d.symmetric && l[6].0 == d.kdfs && l[7].0 == [d.proof] && l[8].0 == [d.verifier];
    assert (forall j :: 0 <= j < 9 ==> ListFits(reg, l[j])) ==>
      ListFits(reg, l[0]) && ListFits(reg, l[1]) && ListFits(reg, l[2]) && ListFits(reg, l[3]) && ListFits(reg, l[4])
      && ListFits(reg, l[5]) && ListFits(reg, l[6]) && ListFits(reg, l[7]) && ListFits(reg, l[8]);
  }

  lemma SingleAdmissible(reg: Registry, id: SchemeId, kind: Kind)
    ensures AllAdmissible(reg, {id}, kind) <==> Admissible(reg, id, kind)
  {
  }

  /** The posture rules of a mode. */
  method RequireMode(reg: Registry, d: Draft) returns (r: Option<Code>)
    ensures r.None? <==> ModeFits(reg, Drafted(d))
    ensures r.Some? ==> ModeCode(r.value)
  {
    hide Has, AllResistant, SetOf;
    SingleSet(d.proof);
    SingleSet(d.verifier);
    match d.mode
    case HybridAnd =>
      r := RequireHybridSet(reg, d.device);
      if r.Some? { return; }
      r := RequireHybridSet(reg, d.validator);
      if r.Some? { return; }
      r := RequirePostQuantumSet(reg, d.recovery);
      if r.Some? { return; }
      r := RequireHybridSet(reg, d.keyEstablishment);
      if r.Some? { return; }
      var proof := RequirePostQuantumSet(reg, [d.proof]);
      var verifier := RequirePostQuantumSet(reg, [d.verifier]);
      return if proof.Some? || verifier.Some? then Some(ProofVerifierNotResistant) else None;
    case PostQuantumOnly =>
      var all := [d.device, d.validator, d.recovery, d.keyEstablishment, [d.proof], [d.verifier]];
      assert all[0] == d.device && all[1] == d.validator && all[2] == d.recovery && all[3] == d.keyEstablishment
          && all[4] == [d.proof] && all[5] == [d.verifier];
      for k := 0 to |all|
        invariant forall j :: 0 <= j < k ==> AllResistant(reg, SetOf(all[j]))
      {
        r := RequirePostQuantumSet(reg, all[k]);
        if r.Some? { return; }
      }
      return None;
    case ClassicalOnly =>
      var lists := [d.device, d.validator, d.keyEstablishment];
      assert lists[0] == d.device && lists[1] == d.validator && lists[2] == d.keyEstablishment;
      HasUnion(reg, d, Resistant);
      HasUnion(reg, d, HybridPosture);
      for k := 0 to |lists|
        invariant forall j :: 0 <= j < k ==> !Has(reg, SetOf(lists[j]), Resistant) && !Has(reg, SetOf(lists[j]), HybridPosture)
      {
        var postures := Postures(reg, lists[k]);
        if Resistant in postures || HybridPosture in postures { return Some(ClassicalModeMismatch); }
      }
      return None;
  }

  lemma HasUnion(reg: Registry, d: Draft, p: Posture)
    ensures Has(reg, SetOf(d.device) + SetOf(d.validator) + SetOf(d.keyEstablishment), p)
       <==> Has(reg, SetOf(d.device), p) || Has(reg, SetOf(d.validator), p) || Has(reg, SetOf(d.keyEstablishment), p)
  {
    hide SetOf, Lookup;
  }

  /** Building a policy from a draft for a network capability. */
  method BuildPolicyBundle(st: Setting, d: Draft, c: Hashed<Capability>) returns (r: Option<Code>)
    ensures r.None? <==> DistinctLists(d) && BuildBundle(st, Drafted(d), c).Some?
    ensures r == Some(PolicyExceedsNetwork) ==> c.body.maximum.Rank() < d.mode.Rank()
    ensures r == Some(NetworkSchemeUnsupported) ==>
      !(SetOf(d.device) + SetOf(d.validator) <= c.body.signatures && d.proof in c.body.proofs && d.verifier in c.body.verifiers)
  {
    hide SchemesAllowed, ModeFits, CapabilityAllowed, Verifies, DistinctLists, SetOf;
    BuildsExactly(st, d, c);
    if !CapabilityAllowed(st, c.body) || c.hash != CapabilityDigest(c.body) { return Some(CapabilityHashMismatch); }
    r := NormalizePolicySchemes(st.reg, d);
    if r.Some? { return; }
    if d.epoch < 1 || d.epoch > 0xffff_ffff_ffff_ffff { return Some(ValueInvalid); }
    if d.mode.Rank() > c.body.maximum.Rank() { return Some(PolicyExceedsNetwork); }
    var signatures := d.device + d.validator;
    SetOfBoth(d.device, d.validator);
    for k := 0 to |signatures|
      invariant forall j :: 0 <= j < k ==> signatures[j] in c.body.signatures
    {
      if signatures[k] !in c.body.signatures {
        InSetOf(signatures, k);
        return Some(NetworkSchemeUnsupported);
      }
    }
    SubsetOfList(signatures, c.body.signatures);
    if d.proof !in c.body.proofs || d.verifier !in c.body.verifiers { return Some(NetworkSchemeUnsupported); }
    if !Verifies(st.reg, d.verifier, d.proof) { return Some(ProofVerifierIncompatible); }
    r := RequireMode(st.reg, d);
    if r.Some? { return; }
    if d.recoveryIndependence == 0 { return Some(ValueInvalid); }
    return None;
  }

  lemma SetOfBoth(a: seq<SchemeId>, b: seq<SchemeId>)
    ensures SetOf(a + b) == SetOf(a) + SetOf(b)
  {
  }

  lemma InSetOf(ids: seq<SchemeId>, k: nat)
    requires k < |ids|
    ensures ids[k] in SetOf(ids)
  {
  }

  lemma SubsetOfList(ids: seq<SchemeId>, s: set<SchemeId>)
    requires forall j :: 0 <= j < |ids| ==> ids[j] in s
    ensures SetOf(ids) <= s
  {
  }

  lemma BuildsExactly(st: Setting, d: Draft, c: Hashed<Capability>)
    ensures BuildBundle(st, Drafted(d), c).Some?
       <==> CapabilityCanonical(st, c) && SchemesAllowed(st.reg, Drafted(d)) && 1 <= d.epoch <= 0xffff_ffff_ffff_ffff
            && d.mode.Rank() <= c.body.maximum.Rank() && SetOf(d.device) + SetOf(d.validator) <= c.body.signatures
            && d.proof in c.body.proofs && d.verifier in c.body.verifiers && Verifies(st.reg, d.verifier, d.proof)
            && ModeFits(st.reg, Drafted(d)) && d.recoveryIndependence != 0
  {
    hide AllAdmissible, AllActive, Has, AllResistant, SetOf, Verifies, CapabilityCanonical, Admissible;
  }

  /** When a policy is accepted: its capability is trusted, rebuilding it under that capability is allowed and gives the
      hash it claims, and epoch and hash are the trusted current ones. */
  lemma ValidateExactly(st: Setting, b: Hashed<Bundle>, c: Hashed<Capability>, t: Hashed<Trusted>)
    ensures var rebuilt := b.body.(registryEpoch := c.body.registryEpoch, registryHash := c.body.registryHash,
                                   capability := CapabilityDigest(c.body));
      && (ValidateBundle(st, b, c, t).Some?
          <==> && CapabilityTrusted(st, c, t) && BundleAllowed(st, rebuilt, c)
               && b.hash == BundleDigest(rebuilt) && t.body.expectedPolicy == b.hash && t.body.policyEpoch == b.body.epoch
               && b.body.registryEpoch == c.body.registryEpoch && b.body.registryHash == c.body.registryHash)
      && (ValidateBundle(st, b, c, t).Some? ==> ValidateBundle(st, b, c, t).value == Hashed(rebuilt, b.hash))
  {
    hide BundleAllowed, CapabilityCanonical, TrustedValid;
  }

  // ---- Ceremonies ---------------------------------------------------------------------------

  /** The checks of a migration ceremony, in order. */
  method CreateMigrationCeremony(st: Setting, x: Ceremony) returns (r: Option<Code>)
    ensures r.None? <==> CeremonyAllowed(st, x)
    ensures r == Some(PolicyEpochTransition) <==> x.toBundle.body.epoch != x.fromBundle.body.epoch + 1
    ensures r == Some(SecurityDowngrade) ==> x.toBundle.body.mode.Rank() < x.fromBundle.body.mode.Rank()
  {
    hide CapabilityTrusted, ValidateBundle;
    var fromB, toB, fromC, toC := x.fromBundle.body, x.toBundle.body, x.fromCapability, x.toCapability;
    if toB.epoch != fromB.epoch + 1 { return Some(PolicyEpochTransition); }
    if toB.registryEpoch < fromB.registryEpoch { return Some(RegistryDowngrade); }
    if toB.mode.Rank() < fromB.mode.Rank() { return Some(SecurityDowngrade); }
    r := ValidateNetworkCapability(st, fromC, x.fromTrusted);
    if r.Some? { return; }
    r := ValidateNetworkCapability(st, toC, x.toTrusted);
    if r.Some? { return; }
    if ValidateBundle(st, x.fromBundle, fromC, x.fromTrusted).None? || ValidateBundle(st, x.toBundle, toC, x.toTrusted).None? {
      return Some(PolicyRefused);
    }
    if fromC.body.network != toC.body.network { return Some(CrossNetwork); }
    if fromC.body.authority != toC.body.authority { return Some(AuthorityRotation); }
    if toC.body.epoch < fromC.body.epoch { return Some(CapabilityDowngrade); }
    if toC.hash != fromC.hash && toC.body.epoch <= fromC.body.epoch { return Some(CapabilityEpochTransition); }
    if x.toTrusted.body.capabilityFloor < x.fromTrusted.body.capabilityFloor
       || x.toTrusted.body.policyEpoch < x.fromTrusted.body.policyEpoch { return Some(TrustedDowngrade); }
    var pairs := [(x.fromDevice, x.toDevice), (x.fromValidator, x.toValidator), (x.fromRecovery, x.toRecovery)];
    assert pairs[0] == (x.fromDevice, x.toDevice) && pairs[1] == (x.fromValidator, x.toValidator) && pairs[2] == (x.fromRecovery, x.toRecovery);
    for k := 0 to |pairs|
      invariant forall j :: 0 <= j < k ==> NextEpoch(pairs[j].0, pairs[j].1)
    {
      var from, to := pairs[k].0, pairs[k].1;
      if from < 1 || from > 0xffff_ffff_ffff_ffff || to < 1 || to > 0xffff_ffff_ffff_ffff { return Some(ValueInvalid); }
      if to != from + 1 { return Some(AuthorityEpochTransition); }
    }
    if x.kind == EnrollHybrid && (fromB.mode != ClassicalOnly || toB.mode != HybridAnd) { return Some(EnrollmentTransition); }
    if x.kind == RotateWithinMode && fromB.mode != toB.mode { return Some(RotationModeChange); }
    if x.kind == RetireClassical && (fromB.mode != HybridAnd || toB.mode != PostQuantumOnly) { return Some(RetirementTransition); }
    if x.freeze != (x.kind == EmergencyFreeze) { return Some(FreezeRequired); }
    if x.notBefore > 0xffff_ffff_ffff_ffff || x.expiresAt < 1 || x.expiresAt > 0xffff_ffff_ffff_ffff { return Some(ValueInvalid); }
    if x.expiresAt < x.notBefore { return Some(WindowInvalid); }
    if x.newKeys == 0 || x.userApproval == 0 || x.recoveryApproval == 0 || x.review == 0 { return Some(ValueInvalid); }
    return None;
  }

  // ---- The frozen registry, by its groups -----------------------------------------------------

  /** Which schemes of the frozen registry are active, candidates or forbidden, and which are quantum-vulnerable,
      resistant or unassessed. */
  lemma FrozenGroups(id: SchemeId)
    requires !id.Other?
    ensures Lookup(FROZEN, id).Some?
    ensures var r := Lookup(FROZEN, id).value;
      && (r.lifecycle == SpecifiedCandidate
          <==> id in {MlDsa65, SlhDsa128s, MlKem768, MlKem1024, TransparentStark, StarkVerifier})
      && (r.lifecycle == Forbidden <==> id == Stwo)
      && r.lifecycle in {ActiveReference, SpecifiedCandidate, Forbidden}
      && (r.posture == Vulnerable <==> id in {P256Sha256, Secp256k1Keccak, P256Ecies, NoirUltraHonk, GaragaVerifier})
      && (r.posture == Unassessed <==> id in {TransparentStark, Stwo, StarkVerifier})
      && r.posture in {Vulnerable, Resistant, Unassessed}
  {
    FrozenLookup(id);
    hide Lookup, FROZEN;
    FrozenGroup(Position(id));
  }

  lemma FrozenGroup(i: nat)
    requires i < |FROZEN|
    ensures var r := FROZEN[i];
      && (r.lifecycle == SpecifiedCandidate
          <==> r.id in {MlDsa65, SlhDsa128s, MlKem768, MlKem1024, TransparentStark, StarkVerifier})
      && (r.lifecycle == Forbidden <==> r.id == Stwo)
      && r.lifecycle in {ActiveReference, SpecifiedCandidate, Forbidden}
      && (r.posture == Vulnerable <==> r.id in {P256Sha256, Secp256k1Keccak, P256Ecies, NoirUltraHonk, GaragaVerifier})
      && (r.posture == Unassessed <==> r.id in {TransparentStark, Stwo, StarkVerifier})
      && r.posture in {Vulnerable, Resistant, Unassessed}
  {
  }

  /** Its kinds, evidence, retirements and the proofs of its verifiers. */
  lemma FrozenRecords(i: nat)
    requires i < |FROZEN|
    ensures var r := FROZEN[i];
      && (r.kind == Signature <==> r.id in {P256Sha256, Secp256k1Keccak, MlDsa65, SlhDsa128s})
      && (r.kind == KeyEstablishment <==> r.id in {P256Ecies, MlKem768, MlKem1024})
      && (r.kind == HashFunction <==> r.id in {Sha256, Keccak256}) && (r.kind == Symmetric <==> r.id == Aes256Gcm)
      && (r.kind == Kdf <==> r.id == HkdfSha256) && (r.kind == RecoveryProtection <==> r.id == PairwiseRecovery)
      && (r.kind == Proof <==> r.id in {NoirUltraHonk, TransparentStark, Stwo})
      && (r.kind == Verifier <==> r.id in {GaragaVerifier, StarkVerifier})
  {
  }

  lemma FrozenEvidence(i: nat)
    requires i < |FROZEN|
    ensures var r := FROZEN[i];
      && (r.evidence == IndependentlyReviewed
          <==> r.id in {P256Sha256, P256Ecies, Keccak256, Aes256Gcm, HkdfSha256, NoirUltraHonk, GaragaVerifier})
      && (r.evidence == ImplementedLocal <==> r.id in {Secp256k1Keccak, Sha256, PairwiseRecovery, Stwo})
      && (r.evidence == PlatformDocumented <==> r.id in {MlDsa65, MlKem768, MlKem1024})
      && (r.evidence == SpecifiedOnly <==> r.id in {SlhDsa128s, TransparentStark, StarkVerifier})
      && r.retiredEpoch == (if r.id == Stwo then 1 else 0)
      && r.proofs == (if r.id == GaragaVerifier then [NoirUltraHonk] else if r.id == StarkVerifier then [TransparentStark] else [])
  {
  }
}
