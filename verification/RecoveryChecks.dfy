/**
 * What the public checks of shares, bundles, floors and requests accept, each as a condition on the
 * fields of its subject, and what a completed operation leaves behind.
 */
module RecoveryChecks {
  import opened Wrappers
  import opened RecoveryTerms
  import opened RecoveryPackage
  import opened RecoveryBundle
  import opened RecoveryRequests
  import opened RecoveryCreation

  // ---- Shares and bundles --------------------------------------------------------------

  /** The shares that pass are the shares that creating a bundle can produce. */
  lemma ValidShareExactly(s: Share)
    ensures ValidateShare(s).None?
       <==> exists rnd: Randomness, epoch: nat, holder: nat ::
              rnd.set_ != 0 && In64(epoch) && 1 <= holder <= 3 && s == CreateShare(rnd, epoch, holder)
  {
    if ValidateShare(s).None? {
      var rnd := RandomnessFor(s);
      assert s.contributions == [s.contributions[0], s.contributions[1]];
      assert s == CreateShare(rnd, s.epoch, s.holder);
    }
    if rnd: Randomness, epoch: nat, holder: nat :|
         rnd.set_ != 0 && In64(epoch) && 1 <= holder <= 3 && s == CreateShare(rnd, epoch, holder) {
      CreatedShareValid(rnd, epoch, holder);
    }
  }

  /** A random source that yields the contributions of one share. */
  ghost function RandomnessFor(s: Share): Randomness
    requires ValidateShare(s).None?
  {
    var first, second := s.contributions[0].material, s.contributions[1].material;
    if s.holder == 1 then Randomness(s.set_, 0, 0, ByPair(0, 0, 0), ByPair(first, second, 0), ByPair(0, 0, 0))
    else if s.holder == 2 then Randomness(s.set_, 0, 0, ByPair(0, 0, 0), ByPair(0, 0, second), ByPair(first, 0, 0))
    else Randomness(s.set_, 0, 0, ByPair(0, 0, 0), ByPair(0, 0, 0), ByPair(0, first, second))
  }

  /** The contributions of a share, pair by pair: a holder contributes to the two pairs that include it. */
  lemma PairsExactly(holder: nat, p: Pair)
    requires 1 <= holder <= 3
    ensures p in PairsFor(holder) <==> holder == LeftOf(p) || holder == RightOf(p)
    ensures 1 <= LeftOf(p) < RightOf(p) <= 3 && PairOf(LeftOf(p), RightOf(p)) == p
    ensures PairsFor(holder)[0] != PairsFor(holder)[1]
  {
  }

  /** The checks a bundle passes, field by field. */
  lemma BundleSafeExactly(b: Bundle)
    ensures BundleFault(b).None?
       <==> && b.format == BUNDLE_FORMAT && b.envelope.format == PACKAGE_FORMAT
            && b.envelope.encryption == ENCRYPTION_SUITE && b.envelope.sharing == SHARING_SUITE
            && b.envelope.set_ != 0 && In64(b.envelope.epoch) && In64(b.envelope.counter) && In64(b.envelope.createdAt)
            && b.envelope.ciphertextHash == PayloadHash(b.encrypted)
            && |b.wrappers| == 3 && b.wrappers[0].pair == P12 && b.wrappers[1].pair == P13 && b.wrappers[2].pair == P23
            && forall i :: 0 <= i < 3 ==>
                 KeyLength(b.wrappers[i].payload) && b.wrappers[i].hash == WrapperHash(b.wrappers[i].pair, b.wrappers[i].payload)
  {
  }

  lemma BundleRefusal(b: Bundle)
    requires BundleFault(b).Some?
    ensures BundleFault(b).value in {BundleFormatInvalid, SuiteUnsupported, CiphertextHashMismatch, WrapperSetInvalid, WrapperHashMismatch}
    ensures b.format != BUNDLE_FORMAT <==> BundleFault(b) == Some(BundleFormatInvalid)
    ensures BundleFault(b) == Some(CiphertextHashMismatch) ==> b.envelope.ciphertextHash != PayloadHash(b.encrypted)
    ensures BundleFault(b) == Some(WrapperHashMismatch) ==>
      exists i :: 0 <= i < |b.wrappers| && b.wrappers[i].hash != WrapperHash(b.wrappers[i].pair, b.wrappers[i].payload)
  {
  }

  /** A pair key binds both contributions, the set, the epoch and the pair. */
  lemma PairKeyBinds(e: Envelope, p: Pair, left: nat, right: nat, e': Envelope, p': Pair, left': nat, right': nat)
    ensures PairKeyOf(e, p, left, right) == PairKeyOf(e', p', left', right')
       <==> left == left' && right == right' && e.set_ == e'.set_ && e.epoch == e'.epoch && p == p'
  {
  }

  /** The associated data of the package binds every field of the envelope but the hash, and that of a
      wrapper binds set, epoch, counter, hash and pair. */
  lemma AadBinds(e: Envelope, p: Pair, e': Envelope, p': Pair)
    ensures PackageAadOf(e) == PackageAadOf(e') <==> e == e'.(ciphertextHash := e.ciphertextHash)
    ensures WrapperAadOf(e, p) == WrapperAadOf(e', p')
       <==> e.sharing == e'.sharing && e.set_ == e'.set_ && e.epoch == e'.epoch && e.counter == e'.counter
            && e.ciphertextHash == e'.ciphertextHash && p == p'
  {
  }

  /** A floor refuses exactly the bundles below it, by epoch and then by counter. */
  lemma FloorExactly(e: Envelope, floor: Option<Floor>)
    ensures FloorFault(e, floor).None?
       <==> (floor.Some? ==>
               In64(floor.value.epoch) && In64(floor.value.counter)
               && (floor.value.epoch < e.epoch || (floor.value.epoch == e.epoch && floor.value.counter <= e.counter)))
    ensures FloorFault(e, floor).Some? ==>
      FloorFault(e, floor).value == if In64(floor.value.epoch) && In64(floor.value.counter) then RollbackRejected else FieldInvalid
  {
  }

  /** What two shares of one set give for a pair: the key of its wrapper. */
  ghost predicate OpensPair(b: Bundle, left: Share, right: Share, pair: Pair, key: Key)
    requires |b.wrappers| == 3
  {
    exists iv: nat, leftMaterial: nat, rightMaterial: nat ::
      && Contribution(pair, leftMaterial) in left.contributions && Contribution(pair, rightMaterial) in right.contributions
      && WrapperFor(b, pair).payload
         == Sealed(iv, PairKey(leftMaterial, rightMaterial, b.envelope.set_, b.envelope.epoch, pair),
                   WrapperAadOf(b.envelope, pair), KeyText(key))
  }

  /** Everything that must be so for an arbitrary bundle and two shares, in order of holder, to give a package. */
  ghost predicate Yields(derive: Derivation, b: Bundle, left: Share, right: Share, p: Package)
    requires |b.wrappers| == 3
  {
    && ValidateShare(left).None? && ValidateShare(right).None? && left.holder < right.holder
    && left.set_ == right.set_ == b.envelope.set_ && left.epoch == right.epoch == b.envelope.epoch
    && (exists key: Key, iv: nat ::
          OpensPair(b, left, right, PairOf(left.holder, right.holder), key)
          && b.encrypted == Sealed(iv, key, PackageAadOf(b.envelope), PackageText(p)))
    && Canonical(derive, p) && p.recoveryEpoch == b.envelope.epoch
  }

  /** When any bundle restores, and to what. */
  lemma RestoreMeaning(derive: Derivation, b: Bundle, shares: seq<Share>, floor: Option<Floor>, p: Package)
    ensures Restore(derive, b, shares, floor) == Ok(p)
       <==> && BundleFault(b).None? && FloorFault(b.envelope, floor).None? && |shares| == 2
            && (Yields(derive, b, shares[0], shares[1], p) || Yields(derive, b, shares[1], shares[0], p))
  {
    if BundleFault(b).None? { BundleSafeExactly(b); }
    hide BundleFault, FloorFault, Yields, Restore;
    if Restore(derive, b, shares, floor) == Ok(p) { RestoreGives(derive, b, shares, floor, p); }
    if BundleFault(b).None? && FloorFault(b.envelope, floor).None? && |shares| == 2 {
      assert shares == [shares[0], shares[1]];
      if Yields(derive, b, shares[0], shares[1], p) { RestoreFrom(derive, b, shares[0], shares[1], shares, floor, p); }
      if Yields(derive, b, shares[1], shares[0], p) { RestoreFrom(derive, b, shares[1], shares[0], shares, floor, p); }
    }
  }

  lemma RestoreGives(derive: Derivation, b: Bundle, shares: seq<Share>, floor: Option<Floor>, p: Package)
    requires Restore(derive, b, shares, floor) == Ok(p)
    ensures BundleFault(b).None? && FloorFault(b.envelope, floor).None? && |shares| == 2 && |b.wrappers| == 3
    ensures Yields(derive, b, shares[0], shares[1], p) || Yields(derive, b, shares[1], shares[0], p)
  {
    hide FloorFault, Canonical, ValidatePackage, WrapperAadOf, PackageAadOf, ValidateShare, ContributionFor;
    var sel := SelectPair(shares).value;
    var key := PairKeyOf(b.envelope, sel.pair, ContributionFor(sel.left, sel.pair), ContributionFor(sel.right, sel.pair));
    var wrapped := WrapperFor(b, sel.pair).payload;
    assert Open(key, wrapped, WrapperAadOf(b.envelope, sel.pair)).Plain?;
    ValidateExactly(derive, b.encrypted.plaintext.package);
    MaterialOf(sel.left, sel.pair);
    MaterialOf(sel.right, sel.pair);
    assert wrapped == Sealed(wrapped.iv, key, WrapperAadOf(b.envelope, sel.pair), KeyText(wrapped.plaintext.key));
    assert OpensPair(b, sel.left, sel.right, sel.pair, wrapped.plaintext.key);
    assert b.encrypted == Sealed(b.encrypted.iv, wrapped.plaintext.key, PackageAadOf(b.envelope), PackageText(p));
  }

  lemma RestoreFrom(derive: Derivation, b: Bundle, left: Share, right: Share, shares: seq<Share>, floor: Option<Floor>, p: Package)
    requires BundleFault(b).None? && FloorFault(b.envelope, floor).None? && |b.wrappers| == 3
    requires Yields(derive, b, left, right, p) && (shares == [left, right] || shares == [right, left])
    ensures Restore(derive, b, shares, floor) == Ok(p)
  {
    hide FloorFault, Canonical, ValidatePackage, WrapperAadOf, PackageAadOf, ValidateShare, BundleFault, WrapperFor, SelectPair;
    hide OpensPair, ContributionFor, PairKeyOf, Open;
    SuitesAgree(b, left);
    SuitesAgree(b, right);
    Selecting(left, right, shares);
    ValidateExactly(derive, p);
    var pair := PairOf(left.holder, right.holder);
    var key, iv :| OpensPair(b, left, right, pair, key) && b.encrypted == Sealed(iv, key, PackageAadOf(b.envelope), PackageText(p));
    WrapperOpens(b, left, right, pair, key);
    assert Open(key, b.encrypted, PackageAadOf(b.envelope)) == Plain(PackageText(p));
    hide Yields;
    RestoreOpens(derive, b, Selected(pair, left, right), shares, floor, key, p);
  }

  /** The walk through the operation once every step is known to succeed. */
  lemma RestoreOpens(derive: Derivation, b: Bundle, sel: Selected, shares: seq<Share>, floor: Option<Floor>, key: Key, p: Package)
    requires BundleFault(b).None? && FloorFault(b.envelope, floor).None? && |b.wrappers| == 3 && SelectPair(shares) == Ok(sel)
    requires ShareMatches(sel.left, b.envelope) && ShareMatches(sel.right, b.envelope)
    requires ValidateShare(sel.left).None? && ValidateShare(sel.right).None?
    requires sel.left.holder == LeftOf(sel.pair) && sel.right.holder == RightOf(sel.pair)
    requires Open(PairKeyOf(b.envelope, sel.pair, ContributionFor(sel.left, sel.pair), ContributionFor(sel.right, sel.pair)),
                  WrapperFor(b, sel.pair).payload, WrapperAadOf(b.envelope, sel.pair)) == Plain(KeyText(key))
    requires Open(key, b.encrypted, PackageAadOf(b.envelope)) == Plain(PackageText(p))
    requires ValidatePackage(derive, p) == Ok(p) && p.recoveryEpoch == b.envelope.epoch
    ensures Restore(derive, b, shares, floor) == Ok(p)
  {
    hide ContributionFor, PairKeyOf, Open;
    hide FloorFault, ValidatePackage, WrapperAadOf, PackageAadOf, ValidateShare, BundleFault, WrapperFor, SelectPair;
  }

  lemma WrapperOpens(b: Bundle, left: Share, right: Share, pair: Pair, key: Key)
    requires |b.wrappers| == 3 && OpensPair(b, left, right, pair, key) && ValidateShare(left).None? && ValidateShare(right).None?
    requires left.holder == LeftOf(pair) && right.holder == RightOf(pair)
    ensures Open(PairKeyOf(b.envelope, pair, ContributionFor(left, pair), ContributionFor(right, pair)),
                 WrapperFor(b, pair).payload, WrapperAadOf(b.envelope, pair)) == Plain(KeyText(key))
  {
    hide ValidateShare, ContributionFor, WrapperFor, WrapperAadOf;
    MaterialOf(left, pair);
    MaterialOf(right, pair);
  }

  lemma Selecting(left: Share, right: Share, shares: seq<Share>)
    requires ValidateShare(left).None? && ValidateShare(right).None? && left.holder < right.holder
    requires shares == [left, right] || shares == [right, left]
    ensures left.holder >= 1 && right.holder <= 3
    ensures SelectPair(shares) == Ok(Selected(PairOf(left.holder, right.holder), left, right))
  {
  }

  lemma SuitesAgree(b: Bundle, s: Share)
    requires BundleFault(b).None? && ValidateShare(s).None?
    ensures s.sharing == b.envelope.sharing
  {
  }

  lemma MaterialOf(s: Share, pair: Pair)
    requires ValidateShare(s).None? && (s.holder == LeftOf(pair) || s.holder == RightOf(pair))
    ensures forall n: nat :: Contribution(pair, n) in s.contributions <==> n == ContributionFor(s, pair)
  {
  }

  // ---- Requests ------------------------------------------------------------------------

  /** The requests that pass: ordered times, paired increasing lists, and an identifier that binds them. */
  ghost predicate SoundRequest(q: Request) {
    q.format == REQUEST_FORMAT && q.approval != Value(0)
    && 1 <= q.requestedAt < q.notBefore < q.expiresAt < 0x1_0000_0000_0000_0000
    && 0 < |q.targets| == |q.evidence| && 0 !in q.targets && 0 !in q.evidence
    && (forall i, j :: 0 <= i < j < |q.targets| ==> q.targets[i] < q.targets[j])
    && (forall i, j :: 0 <= i < j < |q.evidence| ==> q.evidence[i] < q.evidence[j])
    && q.id == RequestHash(q.operation, q.bundleHash, q.requestedAt, q.notBefore, q.expiresAt, q.approval, q.targets, q.evidence)
    && q.status != Cancelled(Value(0)) && q.status != Completed(Value(0))
  }

  lemma SoundExactly(q: Request)
    ensures RequestFault(q).None? <==> SoundRequest(q)
  {
    NonZeroAgree(q.targets);
    NonZeroAgree(q.evidence);
  }

  /** When a request is accepted for an operation, and why it is refused. */
  lemma PendingExactly(q: Request, b: Bundle, operation: Operation, at: nat)
    ensures PendingFault(q, b, operation, at).None?
       <==> SoundRequest(q) && q.status == PendingDelay && q.operation == operation && q.bundleHash == BundleHash(b)
            && q.notBefore <= at <= q.expiresAt
    ensures SoundRequest(q) && PendingFault(q, b, operation, at).Some? ==>
      PendingFault(q, b, operation, at).value
      == if q.status != PendingDelay then RequestNotPending
         else if q.operation != operation then RequestOperationMismatch
         else if !In64(at) then FieldInvalid
         else if at < q.notBefore then DelayActive
         else if q.expiresAt < at then RequestExpired
         else RequestBundleMismatch
  {
    SoundExactly(q);
    if SoundRequest(q) { assert q.expiresAt < 0x1_0000_0000_0000_0000; }
  }

  /** Cancelling takes a sound pending request and a reason, and changes the status alone. */
  lemma CancelExactly(q: Request, reason: Digest)
    ensures Cancel(q, reason).Ok? <==> SoundRequest(q) && q.status == PendingDelay && reason != Value(0)
    ensures Cancel(q, reason).Ok? ==> Cancel(q, reason).value == q.(status := Cancelled(reason))
  {
    SoundExactly(q);
  }

  // ---- Completed operations ------------------------------------------------------------

  /** A recovery succeeds exactly for an accepted request, shares that restore the bundle over the floor,
      and four counters with room; the random source gives a non-zero set identifier. */
  lemma CompleteRecoveryExactly(derive: Derivation, q: Request, b: Bundle, shares: seq<Share>, at: nat, floor: Option<Floor>,
                                rnd: Randomness)
    requires rnd.set_ != 0
    ensures CompleteRecovery(derive, q, b, shares, at, floor, rnd).Ok?
       <==> && SoundRequest(q) && q.status == PendingDelay && q.operation == DataRecovery && q.bundleHash == BundleHash(b)
            && q.notBefore <= at <= q.expiresAt
            && Restore(derive, b, shares, floor).Ok?
            && var p := Restore(derive, b, shares, floor).value;
            && p.recoveryEpoch < 0xffff_ffff_ffff_ffff && p.deviceEpoch < 0xffff_ffff_ffff_ffff
            && p.capabilityEpoch < 0xffff_ffff_ffff_ffff && p.auditCount < 0xffff_ffff_ffff_ffff
    ensures PendingFault(q, b, DataRecovery, at).None? && Restore(derive, b, shares, floor).Ok?
            && CompleteRecovery(derive, q, b, shares, at, floor, rnd).Err? ==>
      CompleteRecovery(derive, q, b, shares, at, floor, rnd).error == Overflow
  {
    PendingExactly(q, b, DataRecovery, at);
    if Restore(derive, b, shares, floor).Ok? && In64(at) {
      var p := Restore(derive, b, shares, floor).value;
      RestoredCanonical(derive, b, shares, floor);
      if RoomForRecovery(p) {
        RecoveryCanonical(derive, p, q.id);
        FinishExactly(derive, q, b, p, AfterRecovery(p, q.id), at, rnd);
      }
    }
  }

  lemma ReplaceSetExactly(derive: Derivation, q: Request, b: Bundle, shares: seq<Share>, at: nat, floor: Option<Floor>,
                          rnd: Randomness)
    requires rnd.set_ != 0
    ensures ReplaceSet(derive, q, b, shares, at, floor, rnd).Ok?
       <==> && SoundRequest(q) && q.status == PendingDelay && q.operation == SetReplacement && q.bundleHash == BundleHash(b)
            && q.notBefore <= at <= q.expiresAt
            && Restore(derive, b, shares, floor).Ok?
            && var p := Restore(derive, b, shares, floor).value;
            && p.recoveryEpoch < 0xffff_ffff_ffff_ffff && p.auditCount < 0xffff_ffff_ffff_ffff
    ensures PendingFault(q, b, SetReplacement, at).None? && Restore(derive, b, shares, floor).Ok?
            && ReplaceSet(derive, q, b, shares, at, floor, rnd).Err? ==>
      ReplaceSet(derive, q, b, shares, at, floor, rnd).error == Overflow
  {
    PendingExactly(q, b, SetReplacement, at);
    if Restore(derive, b, shares, floor).Ok? && In64(at) {
      var p := Restore(derive, b, shares, floor).value;
      RestoredCanonical(derive, b, shares, floor);
      if RoomForReplacement(p) {
        ReplacementCanonical(derive, p, q.id);
        FinishExactly(derive, q, b, p, AfterReplacement(p, q.id), at, rnd);
      }
    }
  }

  /** The hashes that a recovery chains: each binds the one before it, the request and the new epochs. */
  lemma RecoveryHashes(derive: Derivation, q: Request, b: Bundle, shares: seq<Share>, at: nat, floor: Option<Floor>, rnd: Randomness)
    requires CompleteRecovery(derive, q, b, shares, at, floor, rnd).Ok?
    ensures var c := CompleteRecovery(derive, q, b, shares, at, floor, rnd).value;
      var p, n := c.recovered, c.next;
      n.revocationRoot == RevocationRoot(p.revocationRoot, p.capabilityEpoch + 1)
      && n.auditHead == RecoveryAudit(p.auditHead, q.id, p.recoveryEpoch + 1, p.auditCount + 1)
      && c.request == q.(status := Completed(CompletionHash(DataRecovery, q.id, b.envelope.set_, rnd.set_, at)))
      && c.created.bundle.envelope.set_ == rnd.set_ && c.created.bundle.envelope.epoch == p.recoveryEpoch + 1
      && c.created.bundle.envelope.counter == 1 && c.created.bundle.envelope.createdAt == at
  {
    OperationMeaning(derive, q, b, shares, at, floor, rnd);
    PendingExactly(q, b, DataRecovery, at);
    var c := CompleteRecovery(derive, q, b, shares, at, floor, rnd).value;
    assert Canonical(derive, c.next) && rnd.set_ != 0 && PositiveUInt64(at);
    FinishExactly(derive, q, b, c.recovered, c.next, at, rnd);
    BundleFields(rnd, c.next, 1, at);
  }

  lemma ReplacementHashes(derive: Derivation, q: Request, b: Bundle, shares: seq<Share>, at: nat, floor: Option<Floor>, rnd: Randomness)
    requires ReplaceSet(derive, q, b, shares, at, floor, rnd).Ok?
    ensures var c := ReplaceSet(derive, q, b, shares, at, floor, rnd).value;
      var p, n := c.recovered, c.next;
      n.auditHead == ReplacementAudit(p.auditHead, q.id, p.recoveryEpoch + 1)
      && c.request == q.(status := Completed(CompletionHash(SetReplacement, q.id, b.envelope.set_, rnd.set_, at)))
      && c.created.bundle.envelope.set_ == rnd.set_ && c.created.bundle.envelope.epoch == p.recoveryEpoch + 1
      && c.created.bundle.envelope.counter == 1 && c.created.bundle.envelope.createdAt == at
  {
    OperationMeaning(derive, q, b, shares, at, floor, rnd);
    PendingExactly(q, b, SetReplacement, at);
    var c := ReplaceSet(derive, q, b, shares, at, floor, rnd).value;
    assert Canonical(derive, c.next) && rnd.set_ != 0 && PositiveUInt64(at);
    FinishExactly(derive, q, b, c.recovered, c.next, at, rnd);
    BundleFields(rnd, c.next, 1, at);
  }
}
