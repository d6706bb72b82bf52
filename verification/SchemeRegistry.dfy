/** The frozen registry of cryptographic schemes, and what a scheme set must satisfy. */
module SchemeRegistry {
  import opened Wrappers

  datatype Kind = Signature | KeyEstablishment | HashFunction | Proof | Verifier | Symmetric | Kdf | RecoveryProtection
  datatype Posture = Vulnerable | Resistant | HybridPosture | Unassessed
  datatype Lifecycle = ActiveReference | SpecifiedCandidate | Deprecated | Retired | Forbidden
  datatype Evidence = SpecifiedOnly | ImplementedLocal | PlatformDocumented | EvidenceNetworkEnforced | IndependentlyReviewed

  datatype SchemeId =
    | P256Sha256 | Secp256k1Keccak | MlDsa65 | SlhDsa128s | P256Ecies | MlKem768 | MlKem1024 | Sha256 | Keccak256 | Aes256Gcm
    | HkdfSha256 | PairwiseRecovery | NoirUltraHonk | TransparentStark | Stwo | GaragaVerifier | StarkVerifier | Other(n: nat)

  datatype Record = Record(
    id: SchemeId, kind: Kind, posture: Posture, lifecycle: Lifecycle, evidence: Evidence,
    proofs: seq<SchemeId>, retiredEpoch: nat)

  type Registry = seq<Record>

  /** The records, in the order of the source. */
  const FROZEN: Registry := [
    Record(P256Sha256, Signature, Vulnerable, ActiveReference, IndependentlyReviewed, [], 0),
    Record(Secp256k1Keccak, Signature, Vulnerable, ActiveReference, ImplementedLocal, [], 0),
    Record(MlDsa65, Signature, Resistant, SpecifiedCandidate, PlatformDocumented, [], 0),
    Record(SlhDsa128s, Signature, Resistant, SpecifiedCandidate, SpecifiedOnly, [], 0),
    Record(P256Ecies, KeyEstablishment, Vulnerable, ActiveReference, IndependentlyReviewed, [], 0),
    Record(MlKem768, KeyEstablishment, Resistant, SpecifiedCandidate, PlatformDocumented, [], 0),
    Record(MlKem1024, KeyEstablishment, Resistant, SpecifiedCandidate, PlatformDocumented, [], 0),
    Record(Sha256, HashFunction, Resistant, ActiveReference, ImplementedLocal, [], 0),
    Record(Keccak256, HashFunction, Resistant, ActiveReference, IndependentlyReviewed, [], 0),
    Record(Aes256Gcm, Symmetric, Resistant, ActiveReference, IndependentlyReviewed, [], 0),
    Record(HkdfSha256, Kdf, Resistant, ActiveReference, IndependentlyReviewed, [], 0),
    Record(PairwiseRecovery, RecoveryProtection, Resistant, ActiveReference, ImplementedLocal, [], 0),
    Record(NoirUltraHonk, Proof, Vulnerable, ActiveReference, IndependentlyReviewed, [], 0),
    Record(TransparentStark, Proof, Unassessed, SpecifiedCandidate, SpecifiedOnly, [], 0),
    Record(Stwo, Proof, Unassessed, Forbidden, ImplementedLocal, [], 1),
    Record(GaragaVerifier, Verifier, Vulnerable, ActiveReference, IndependentlyReviewed, [NoirUltraHonk], 0),
    Record(StarkVerifier, Verifier, Unassessed, SpecifiedCandidate, SpecifiedOnly, [TransparentStark], 0)
  ]

  function Lookup(reg: Registry, id: SchemeId): (r: Option<Record>)
    ensures r.Some? ==> r.value in reg && r.value.id == id
    ensures r.None? ==> forall i :: 0 <= i < |reg| ==> reg[i].id != id
  {
    if reg == [] then None else if reg[0].id == id then Some(reg[0]) else Lookup(reg[1..], id)
  }

  // ---- The registry's own check -----------------------------------------------------------

  predicate RecordFits(reg: Registry, r: Record) {
    ((r.retiredEpoch > 0) <==> r.lifecycle.Retired? || r.lifecycle.Forbidden?)
    && (r.kind.Verifier? ==>
          forall k :: 0 <= k < |r.proofs| ==> Lookup(reg, r.proofs[k]).Some? && Lookup(reg, r.proofs[k]).value.kind.Proof?)
  }

  predicate RegistryValid(reg: Registry) {
    (forall i, j :: 0 <= i < j < |reg| ==> reg[i].id != reg[j].id)
    && forall i :: 0 <= i < |reg| ==> RecordFits(reg, reg[i])
  }

  /** The validation loop, with the set of identifiers seen; an identifier is the hash of a
      label, so distinct identifiers have distinct labels. */
  method ValidateRegistry(reg: Registry) returns (ok: bool)
    ensures ok <==> RegistryValid(reg)
  {
    hide RecordFits;
    var ids: set<SchemeId> := {};
    for i := 0 to |reg|
      invariant forall id :: id in ids <==> exists k :: 0 <= k < i && reg[k].id == id
      invariant forall j, k :: 0 <= j < k < i ==> reg[j].id != reg[k].id
      invariant forall k :: 0 <= k < i ==> RecordFits(reg, reg[k])
    {
      var record := reg[i];
      if record.id in ids { return false; }
      ids := ids + {record.id};
      var fits := CheckRecord(reg, record);
      if !fits { return false; }
    }
    return true;
  }

  method CheckRecord(reg: Registry, record: Record) returns (ok: bool)
    ensures ok <==> RecordFits(reg, record)
  {
    var retired := record.retiredEpoch > 0;
    var inactive := record.lifecycle.Retired? || record.lifecycle.Forbidden?;
    if retired != inactive { return false; }
    if record.kind.Verifier? {
      for k := 0 to |record.proofs|
        invariant forall j :: 0 <= j < k ==>
          Lookup(reg, record.proofs[j]).Some? && Lookup(reg, record.proofs[j]).value.kind.Proof?
      {
        var proof := Lookup(reg, record.proofs[k]);
        if proof.None? || !proof.value.kind.Proof? { return false; }
      }
    }
    return true;
  }

  // ---- Scheme sets ------------------------------------------------------------------------

  predicate Admissible(reg: Registry, id: SchemeId, kind: Kind) {
    var r := Lookup(reg, id);
    r.Some? && r.value.kind == kind && !r.value.lifecycle.Forbidden? && !r.value.lifecycle.Retired?
  }

  predicate AllAdmissible(reg: Registry, ids: set<SchemeId>, kind: Kind) {
    forall id :: id in ids ==> Admissible(reg, id, kind)
  }

  predicate Has(reg: Registry, ids: set<SchemeId>, posture: Posture) {
    exists id :: id in ids && Lookup(reg, id).Some? && Lookup(reg, id).value.posture == posture
  }

  predicate AllResistant(reg: Registry, ids: set<SchemeId>) {
    forall id :: id in ids ==> Lookup(reg, id).Some? && Lookup(reg, id).value.posture.Resistant?
  }

  predicate AllActive(reg: Registry, ids: set<SchemeId>) {
    forall id :: id in ids ==> Lookup(reg, id).Some? && Lookup(reg, id).value.lifecycle.ActiveReference?
  }

  predicate Verifies(reg: Registry, verifier: SchemeId, proof: SchemeId) {
    Lookup(reg, verifier).Some? && proof in Lookup(reg, verifier).value.proofs
  }

  /** Every proof has a verifier and every verifier a proof. */
  predicate Compatible(reg: Registry, proofs: set<SchemeId>, verifiers: set<SchemeId>) {
    (forall p :: p in proofs ==> exists v :: v in verifiers && Verifies(reg, v, p))
    && forall v :: v in verifiers ==> exists p :: p in proofs && Verifies(reg, v, p)
  }

  /** Some active signature scheme is quantum-resistant. */
  ghost predicate ActiveResistantSignature(reg: Registry) {
    exists id :: Admissible(reg, id, Signature) && Lookup(reg, id).value.lifecycle.ActiveReference?
                 && Lookup(reg, id).value.posture.Resistant?
  }

  /** A record that is no active quantum-resistant signature scheme. */
  predicate Unhelpful(r: Record) {
    !(r.kind.Signature? && r.lifecycle.ActiveReference? && r.posture.Resistant?)
  }

  lemma FrozenRecord(i: nat)
    requires i < |FROZEN|
    ensures Unhelpful(FROZEN[i])
  {
    hide Lookup;
  }

  /** The frozen registry has none. */
  lemma FrozenHasNoResistantSignature()
    ensures !ActiveResistantSignature(FROZEN)
  {
    var reg := FROZEN;
    forall i | 0 <= i < |reg| ensures Unhelpful(reg[i]) { FrozenRecord(i); }
    NoneResistant(reg);
  }

  lemma NoneResistant(reg: Registry)
    requires forall i :: 0 <= i < |reg| ==> Unhelpful(reg[i])
    ensures !ActiveResistantSignature(reg)
  {
    hide Lookup;
  }

  // ---- The frozen registry passes its own check ------------------------------------------------

  lemma {:induction false} LookupAt(reg: Registry, i: nat)
    requires forall j, k :: 0 <= j < k < |reg| ==> reg[j].id != reg[k].id
    requires i < |reg|
    ensures Lookup(reg, reg[i].id) == Some(reg[i])
  {
    if i > 0 {
      assert reg[0].id != reg[i].id;
      LookupAt(reg[1..], i - 1);
    }
  }

  /** Where each identifier stands. */
  function Position(id: SchemeId): nat {
    match id
    case P256Sha256 => 0 case Secp256k1Keccak => 1 case MlDsa65 => 2 case SlhDsa128s => 3 case P256Ecies => 4
    case MlKem768 => 5 case MlKem1024 => 6 case Sha256 => 7 case Keccak256 => 8 case Aes256Gcm => 9 case HkdfSha256 => 10
    case PairwiseRecovery => 11 case NoirUltraHonk => 12 case TransparentStark => 13 case Stwo => 14
    case GaragaVerifier => 15 case StarkVerifier => 16 case Other(n) => 17 + n
  }

  lemma FrozenPositions(i: nat)
    requires i < |FROZEN|
    ensures Position(FROZEN[i].id) == i
  {
  }

  lemma FrozenLookup(id: SchemeId)
    requires Position(id) < |FROZEN|
    ensures Lookup(FROZEN, id) == Some(FROZEN[Position(id)])
  {
    hide Lookup;
    var reg := FROZEN;
    FrozenDistinct();
    FrozenPositions(Position(id));
    SamePosition(FROZEN[Position(id)].id, id);
    LookupAt(reg, Position(id));
  }

  lemma SamePosition(a: SchemeId, b: SchemeId)
    requires Position(a) == Position(b)
    ensures a == b
  {
  }

  lemma FrozenDistinct()
    ensures forall i, j :: 0 <= i < j < |FROZEN| ==> FROZEN[i].id != FROZEN[j].id
  {
    hide Position;
    forall i, j | 0 <= i < j < |FROZEN| ensures FROZEN[i].id != FROZEN[j].id {
      FrozenPositions(i);
      FrozenPositions(j);
    }
  }

  lemma FrozenRetirements(i: nat)
    requires i < |FROZEN|
    ensures (FROZEN[i].retiredEpoch > 0) <==> FROZEN[i].lifecycle.Retired? || FROZEN[i].lifecycle.Forbidden?
    ensures FROZEN[i].kind.Verifier? ==>
      FROZEN[i].proofs == [NoirUltraHonk] || FROZEN[i].proofs == [TransparentStark]
  {
    hide Lookup;
  }

  lemma FrozenProofs()
    ensures Lookup(FROZEN, NoirUltraHonk).Some? && Lookup(FROZEN, NoirUltraHonk).value.kind.Proof?
    ensures Lookup(FROZEN, TransparentStark).Some? && Lookup(FROZEN, TransparentStark).value.kind.Proof?
  {
    hide Lookup, FROZEN;
    FrozenKinds();
    FrozenLookup(NoirUltraHonk);
    FrozenLookup(TransparentStark);
  }

  lemma FrozenKinds()
    ensures |FROZEN| == 17 && FROZEN[12].kind.Proof? && FROZEN[13].kind.Proof?
  {
  }

  lemma FrozenValid()
    ensures RegistryValid(FROZEN)
  {
    hide Lookup, FROZEN;
    FrozenDistinct();
    FrozenProofs();
    forall i | 0 <= i < |FROZEN| ensures RecordFits(FROZEN, FROZEN[i]) {
      FrozenRetirements(i);
    }
  }
}
