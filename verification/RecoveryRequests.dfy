/**
 * Delayed recovery requests, and the two operations that use one up: recovering the identity
 * data and replacing the recovery set.
 */
module RecoveryRequests {
  import opened Wrappers
  import opened RecoveryTerms
  import opened RecoveryPackage
  import opened RecoveryBundle

  const REQUEST_FORMAT: nat := 7

  datatype Status = PendingDelay | Cancelled(reason: Digest) | Completed(completion: Digest)

  datatype Request = Request(
    format: nat, operation: Operation, id: Digest, bundleHash: Digest, requestedAt: nat, notBefore: nat, expiresAt: nat,
    approval: Digest, targets: seq<nat>, evidence: seq<nat>, status: Status)

  function RequestId(q: Request): Digest {
    RequestHash(q.operation, q.bundleHash, q.requestedAt, q.notBefore, q.expiresAt, q.approval, q.targets, q.evidence)
  }

  predicate AllNonZero(ids: seq<nat>) {
    forall i :: 0 <= i < |ids| ==> ids[i] != 0
  }

  function Sorted(ids: seq<nat>): seq<nat> { SortBy((n: nat) => n, ids) }

  function CreateRequest(b: Bundle, operation: Operation, requestedAt: nat, delay: nat, expiresAfter: nat, approval: Digest,
                         targets: seq<nat>, evidence: seq<nat>): Result<Request>
  {
    if BundleFault(b).Some? then Err(BundleFault(b).value)
    else if !PositiveUInt64(requestedAt) || !PositiveUInt64(delay) || !PositiveUInt64(expiresAfter) then Err(FieldInvalid)
    else if expiresAfter <= delay then Err(DelayPolicyInvalid)
    else if targets == [] then Err(NotificationRequired)
    else if !AllNonZero(targets) then Err(FieldInvalid)
    else if !Increasing(Sorted(targets)) then Err(NotSorted)
    else if !AllNonZero(evidence) then Err(FieldInvalid)
    else if !Increasing(Sorted(evidence)) then Err(NotSorted)
    else if |Sorted(evidence)| != |Sorted(targets)| then Err(NotificationEvidenceRequired)
    else if !NonZero(approval) then Err(FieldInvalid)
    else if requestedAt + delay > UINT64_MAX || requestedAt + expiresAfter > UINT64_MAX then Err(FieldInvalid)
    else
      var q := Request(REQUEST_FORMAT, operation, Value(0), BundleHash(b), requestedAt, requestedAt + delay,
                       requestedAt + expiresAfter, approval, Sorted(targets), Sorted(evidence), PendingDelay);
      Ok(q.(id := RequestId(q)))
  }

  /** The checks every use of a request starts with. */
  function RequestFault(q: Request): Option<Error> {
    if q.format != REQUEST_FORMAT then Some(FieldInvalid)
    else if !PositiveUInt64(q.requestedAt) || !PositiveUInt64(q.notBefore) || !PositiveUInt64(q.expiresAt) then Some(FieldInvalid)
    else if q.notBefore <= q.requestedAt || q.expiresAt <= q.notBefore then Some(RequestTimeInvalid)
    else if !AllNonZero(q.targets) || !AllNonZero(q.evidence) then Some(FieldInvalid)
    else if !Increasing(q.targets) || !Increasing(q.evidence) then Some(NotSorted)
    else if q.targets == [] || |q.targets| != |q.evidence| then Some(NotificationEvidenceRequired)
    else if !NonZero(q.approval) then Some(FieldInvalid)
    else if q.id != RequestId(q) then Some(RequestBindingInvalid)
    else if q.status.Cancelled? && !NonZero(q.status.reason) then Some(FieldInvalid)
    else if q.status.Completed? && !NonZero(q.status.completion) then Some(FieldInvalid)
    else None
  }

  function PendingFault(q: Request, b: Bundle, operation: Operation, at: nat): Option<Error> {
    if RequestFault(q).Some? then RequestFault(q)
    else if !q.status.PendingDelay? then Some(RequestNotPending)
    else if q.operation != operation then Some(RequestOperationMismatch)
    else if !PositiveUInt64(at) then Some(FieldInvalid)
    else if at < q.notBefore then Some(DelayActive)
    else if at > q.expiresAt then Some(RequestExpired)
    else if BundleHash(b) != q.bundleHash then Some(RequestBundleMismatch)
    else None
  }

  function Cancel(q: Request, reason: Digest): Result<Request> {
    if RequestFault(q).Some? then Err(RequestFault(q).value)
    else if !q.status.PendingDelay? then Err(RequestNotPending)
    else if !NonZero(reason) then Err(FieldInvalid)
    else Ok(q.(status := Cancelled(reason)))
  }

  // ---- The next package ------------------------------------------------------------------

  function SuspendedAccounts(accounts: seq<Account>): (r: seq<Account>)
    ensures |r| == |accounts|
  {
    seq(|accounts|, i requires 0 <= i < |accounts| => accounts[i].(status := PendingReconciliation))
  }

  function RevokedDevices(devices: seq<Device>, epoch: nat): (r: seq<Device>)
    ensures |r| == |devices|
  {
    seq(|devices|, i requires 0 <= i < |devices| => devices[i].(deviceEpoch := epoch, status := Revoked))
  }

  function AfterRecovery(p: Package, request: Digest): Package {
    p.(deviceEpoch := p.deviceEpoch + 1, recoveryEpoch := p.recoveryEpoch + 1, capabilityEpoch := p.capabilityEpoch + 1,
       accounts := SuspendedAccounts(p.accounts), devices := RevokedDevices(p.devices, p.deviceEpoch + 1),
       revocationEpoch := p.capabilityEpoch + 1, revocationRoot := RevocationRoot(p.revocationRoot, p.capabilityEpoch + 1),
       auditCount := p.auditCount + 1,
       auditHead := RecoveryAudit(p.auditHead, request, p.recoveryEpoch + 1, p.auditCount + 1))
  }

  function AfterReplacement(p: Package, request: Digest): Package {
    p.(recoveryEpoch := p.recoveryEpoch + 1, auditCount := p.auditCount + 1,
       auditHead := ReplacementAudit(p.auditHead, request, p.recoveryEpoch + 1))
  }

  predicate RoomForRecovery(p: Package) {
    p.recoveryEpoch < UINT64_MAX && p.deviceEpoch < UINT64_MAX && p.capabilityEpoch < UINT64_MAX && p.auditCount < UINT64_MAX
  }

  predicate RoomForReplacement(p: Package) {
    p.recoveryEpoch < UINT64_MAX && p.auditCount < UINT64_MAX
  }

  datatype Completion = Completion(request: Request, recovered: Package, next: Package, created: Created)

  /** Seals the next package under a new set and closes the request. */
  function Finish(derive: Derivation, q: Request, b: Bundle, recovered: Package, input: Package, at: nat, rnd: Randomness): Result<Completion> {
    match CreatePackage(derive, input)
    case Err(e) => Err(e)
    case Ok(next) =>
      match CreateBundle(derive, next, 1, at, rnd)
      case Err(e) => Err(e)
      case Ok(created) =>
        var completion := CompletionHash(q.operation, q.id, b.envelope.set_, created.bundle.envelope.set_, at);
        Ok(Completion(q.(status := Completed(completion)), recovered, next, created))
  }

  function CompleteRecovery(derive: Derivation, q: Request, b: Bundle, shares: seq<Share>, at: nat, floor: Option<Floor>,
                            rnd: Randomness): Result<Completion>
  {
    if PendingFault(q, b, DataRecovery, at).Some? then Err(PendingFault(q, b, DataRecovery, at).value)
    else
      match Restore(derive, b, shares, floor)
      case Err(e) => Err(e)
      case Ok(p) =>
        if !RoomForRecovery(p) then Err(Overflow)
        else Finish(derive, q, b, p, AfterRecovery(p, q.id), at, rnd)
  }

  function ReplaceSet(derive: Derivation, q: Request, b: Bundle, shares: seq<Share>, at: nat, floor: Option<Floor>,
                      rnd: Randomness): Result<Completion>
  {
    if PendingFault(q, b, SetReplacement, at).Some? then Err(PendingFault(q, b, SetReplacement, at).value)
    else
      match Restore(derive, b, shares, floor)
      case Err(e) => Err(e)
      case Ok(p) =>
        if !RoomForReplacement(p) then Err(Overflow)
        else Finish(derive, q, b, p, AfterReplacement(p, q.id), at, rnd)
  }

  // ---- Requests --------------------------------------------------------------------------

  /** A created request is accepted for its operation and bundle exactly from the end of the
      delay to the expiry. */
  lemma CreatedRequestWindow(b: Bundle, operation: Operation, requestedAt: nat, delay: nat, expiresAfter: nat, approval: Digest,
                             targets: seq<nat>, evidence: seq<nat>, bundle: Bundle, wanted: Operation, at: nat)
    requires CreateRequest(b, operation, requestedAt, delay, expiresAfter, approval, targets, evidence).Ok?
    ensures var q := CreateRequest(b, operation, requestedAt, delay, expiresAfter, approval, targets, evidence).value;
      PendingFault(q, bundle, wanted, at).None?
      <==> wanted == operation && bundle == b && requestedAt + delay <= at <= requestedAt + expiresAfter
  {
    hide Increasing, SortBy, BundleFault;
    SortNonZero(targets);
    SortNonZero(evidence);
    SortLength(targets);
  }

  lemma {:induction false} SortLength(ids: seq<nat>)
    ensures |Sorted(ids)| == |ids|
  {
    if ids != [] {
      SortLength(ids[..|ids| - 1]);
      InsertNonZero(Sorted(ids[..|ids| - 1]), ids[|ids| - 1]);
    }
  }

  lemma {:induction false} InsertNonZero(ids: seq<nat>, n: nat)
    ensures var r := Insert((n: nat) => n, ids, n);
      |r| == |ids| + 1 && (AllNonZero(ids) && n != 0 ==> AllNonZero(r))
  {
    if ids != [] && ids[|ids| - 1] > n { InsertNonZero(ids[..|ids| - 1], n); }
  }

  lemma {:induction false} SortNonZero(ids: seq<nat>)
    requires AllNonZero(ids)
    ensures AllNonZero(Sorted(ids))
  {
    if ids != [] {
      SortNonZero(ids[..|ids| - 1]);
      InsertNonZero(Sorted(ids[..|ids| - 1]), ids[|ids| - 1]);
    }
  }

  /** Whatever a use of a request returns as that request is never accepted again. */
  lemma RetiredForGood(derive: Derivation, q: Request, b: Bundle, shares: seq<Share>, at: nat, floor: Option<Floor>,
                       rnd: Randomness, reason: Digest)
    requires !q.status.PendingDelay?
    ensures CompleteRecovery(derive, q, b, shares, at, floor, rnd).Err?
    ensures ReplaceSet(derive, q, b, shares, at, floor, rnd).Err?
    ensures Cancel(q, reason).Err?
  {
    hide Increasing, Restore;
  }

  /** Cancelling only returns a new record.  The caller's own copy of a cancelled request is
      accepted exactly where it was before: for its operation and bundle, inside its window. */
  lemma CancelLeavesCopy(q: Request, reason: Digest, b: Bundle, operation: Operation, at: nat)
    requires Cancel(q, reason).Ok?
    ensures PendingFault(q, b, operation, at).None?
       <==> operation == q.operation && BundleHash(b) == q.bundleHash && q.notBefore <= at <= q.expiresAt
  {
    hide Increasing, AllNonZero;
  }

  lemma ReturnedRequestsRetired(derive: Derivation, q: Request, b: Bundle, shares: seq<Share>, at: nat, floor: Option<Floor>,
                                rnd: Randomness, reason: Digest)
    ensures Cancel(q, reason).Ok? ==> Cancel(q, reason).value.status.Cancelled?
    ensures CompleteRecovery(derive, q, b, shares, at, floor, rnd).Ok? ==>
      CompleteRecovery(derive, q, b, shares, at, floor, rnd).value.request.status.Completed?
    ensures ReplaceSet(derive, q, b, shares, at, floor, rnd).Ok? ==>
      ReplaceSet(derive, q, b, shares, at, floor, rnd).value.request.status.Completed?
  {
    hide Restore, CreatePackage, CreateBundle, PendingFault;
  }

  // ---- The two operations -------------------------------------------------------------------

  lemma SameIds(p: Package, request: Digest)
    ensures var n := AfterRecovery(p, request);
      AccountIds(n) == AccountIds(p) && DeviceIds(n) == DeviceIds(p) && ScopeIds(n) == ScopeIds(p)
  {
  }

  lemma RecoveryCanonical(derive: Derivation, p: Package, request: Digest)
    requires Canonical(derive, p) && RoomForRecovery(p)
    ensures Canonical(derive, AfterRecovery(p, request))
  {
    hide Increasing, AccountIds, DeviceIds, ScopeIds;
    SameIds(p, request);
  }

  lemma ReplacementCanonical(derive: Derivation, p: Package, request: Digest)
    requires Canonical(derive, p) && RoomForReplacement(p)
    ensures Canonical(derive, AfterReplacement(p, request))
  {
    hide Increasing;
  }

  lemma FinishExactly(derive: Derivation, q: Request, b: Bundle, recovered: Package, next: Package, at: nat, rnd: Randomness)
    requires Canonical(derive, next) && PositiveUInt64(at)
    ensures Finish(derive, q, b, recovered, next, at, rnd).Ok? <==> rnd.set_ != 0
    ensures rnd.set_ != 0 ==>
      var c := Finish(derive, q, b, recovered, next, at, rnd).value;
      c.recovered == recovered && c.next == next && c.created.bundle == BundleOf(rnd, next, 1, at)
      && c.request == q.(status := Completed(CompletionHash(q.operation, q.id, b.envelope.set_, rnd.set_, at)))
  {
    hide Canonical, CreatePackage, CreateBundle, BundleOf;
    CreateOfCanonical(derive, next);
    CreateExactly(derive, next, 1, at, rnd);
    BundleFields(rnd, next, 1, at);
  }

  /** What a successful operation on any bundle has found and made. */
  lemma OperationMeaning(derive: Derivation, q: Request, b: Bundle, shares: seq<Share>, at: nat, floor: Option<Floor>, rnd: Randomness)
    ensures CompleteRecovery(derive, q, b, shares, at, floor, rnd).Ok? ==>
      var c := CompleteRecovery(derive, q, b, shares, at, floor, rnd).value;
      Restore(derive, b, shares, floor) == Ok(c.recovered) && c.next == AfterRecovery(c.recovered, q.id)
      && c.created.bundle == BundleOf(rnd, c.next, 1, at) && CreateInputs(derive, c.next, 1, at, rnd)
      && PendingFault(q, b, DataRecovery, at).None?
    ensures ReplaceSet(derive, q, b, shares, at, floor, rnd).Ok? ==>
      var c := ReplaceSet(derive, q, b, shares, at, floor, rnd).value;
      Restore(derive, b, shares, floor) == Ok(c.recovered) && c.next == AfterReplacement(c.recovered, q.id)
      && c.created.bundle == BundleOf(rnd, c.next, 1, at) && CreateInputs(derive, c.next, 1, at, rnd)
      && PendingFault(q, b, SetReplacement, at).None?
  {
    hide Canonical, Finish, Restore, BundleOf, AfterRecovery, AfterReplacement, RoomForRecovery, RoomForReplacement, RequestFault;
    var restored := Restore(derive, b, shares, floor);
    if restored.Ok? {
      var p := restored.value;
      RestoredCanonical(derive, b, shares, floor);
      if RoomForRecovery(p) && PositiveUInt64(at) {
        RecoveryCanonical(derive, p, q.id);
        FinishExactly(derive, q, b, p, AfterRecovery(p, q.id), at, rnd);
      }
      if RoomForReplacement(p) && PositiveUInt64(at) {
        ReplacementCanonical(derive, p, q.id);
        FinishExactly(derive, q, b, p, AfterReplacement(p, q.id), at, rnd);
      }
    }
  }

  lemma RestoredCanonical(derive: Derivation, b: Bundle, shares: seq<Share>, floor: Option<Floor>)
    requires Restore(derive, b, shares, floor).Ok?
    ensures Canonical(derive, Restore(derive, b, shares, floor).value)
    ensures Restore(derive, b, shares, floor).value.recoveryEpoch == b.envelope.epoch
    ensures FloorFault(b.envelope, floor).None?
  {
    hide Canonical, BundleFault, SelectPair, ValidatePackage, ContributionFor, FloorFault;
    forall p ensures ValidatePackage(derive, p).Ok? ==> ValidatePackage(derive, p).value == p && Canonical(derive, p) {
      ValidateExactly(derive, p);
    }
  }

  /** The floor decides only whether restoring is refused, not what is restored. */
  lemma FloorOnlyRefuses(derive: Derivation, b: Bundle, shares: seq<Share>, floor: Option<Floor>, floor': Option<Floor>)
    requires Restore(derive, b, shares, floor).Ok?
    ensures Restore(derive, b, shares, floor')
         == if FloorFault(b.envelope, floor').Some? then Err(FloorFault(b.envelope, floor').value) else Restore(derive, b, shares, floor)
  {
    hide BundleFault, SelectPair, ValidatePackage, ContributionFor, FloorFault;
  }

  /** The times at which an accepted request is accepted: all of its window. */
  lemma WindowExactly(q: Request, b: Bundle, operation: Operation, at: nat, at': nat)
    requires PendingFault(q, b, operation, at).None?
    ensures PendingFault(q, b, operation, at').None? <==> q.notBefore <= at' <= q.expiresAt
  {
    hide Increasing, AllNonZero;
  }

  /** When a request that was once accepted is accepted again with the same bundle and shares:
      exactly inside its window and under every floor that does not refuse the bundle, which
      includes no floor and every floor not raised past it.  Nothing else stops the replay. */
  lemma ReplayExactly(derive: Derivation, q: Request, b: Bundle, shares: seq<Share>, at: nat, floor: Option<Floor>, rnd: Randomness,
                      at': nat, floor': Option<Floor>, rnd': Randomness)
    ensures CompleteRecovery(derive, q, b, shares, at, floor, rnd).Ok? ==>
      (CompleteRecovery(derive, q, b, shares, at', floor', rnd').Ok?
       <==> q.notBefore <= at' <= q.expiresAt && FloorFault(b.envelope, floor').None? && rnd'.set_ != 0)
    ensures ReplaceSet(derive, q, b, shares, at, floor, rnd).Ok? ==>
      (ReplaceSet(derive, q, b, shares, at', floor', rnd').Ok?
       <==> q.notBefore <= at' <= q.expiresAt && FloorFault(b.envelope, floor').None? && rnd'.set_ != 0)
  {
    hide Canonical, Finish, Restore, BundleOf, AfterRecovery, AfterReplacement, RoomForRecovery, RoomForReplacement, RequestFault, FloorFault;
    var restored := Restore(derive, b, shares, floor);
    if restored.Ok? {
      var p := restored.value;
      FloorOnlyRefuses(derive, b, shares, floor, floor');
      RestoredCanonical(derive, b, shares, floor);
      if PendingFault(q, b, DataRecovery, at).None? && RoomForRecovery(p) {
        WindowExactly(q, b, DataRecovery, at, at');
        RecoveryCanonical(derive, p, q.id);
        if PositiveUInt64(at') { FinishExactly(derive, q, b, p, AfterRecovery(p, q.id), at', rnd'); }
      }
      if PendingFault(q, b, SetReplacement, at).None? && RoomForReplacement(p) {
        WindowExactly(q, b, SetReplacement, at, at');
        ReplacementCanonical(derive, p, q.id);
        if PositiveUInt64(at') { FinishExactly(derive, q, b, p, AfterReplacement(p, q.id), at', rnd'); }
      }
    }
  }

  /** What a recovery does to the package: every credential is revoked at the new device
      epoch and every account binding pending, each otherwise as it was; the identity stays,
      and each epoch it touches moves by exactly one. */
  lemma RecoveryEffect(derive: Derivation, q: Request, b: Bundle, shares: seq<Share>, at: nat, floor: Option<Floor>, rnd: Randomness)
    requires CompleteRecovery(derive, q, b, shares, at, floor, rnd).Ok?
    ensures var c := CompleteRecovery(derive, q, b, shares, at, floor, rnd).value;
      var p, n := c.recovered, c.next;
      n.(deviceEpoch := p.deviceEpoch, recoveryEpoch := p.recoveryEpoch, capabilityEpoch := p.capabilityEpoch, accounts := p.accounts,
         devices := p.devices, revocationEpoch := p.revocationEpoch, revocationRoot := p.revocationRoot,
         auditCount := p.auditCount, auditHead := p.auditHead) == p
      && n.recoveryEpoch == p.recoveryEpoch + 1 && n.deviceEpoch == p.deviceEpoch + 1
      && n.capabilityEpoch == p.capabilityEpoch + 1 && n.revocationEpoch == n.capabilityEpoch && n.auditCount == p.auditCount + 1
      && |n.devices| == |p.devices| && |n.accounts| == |p.accounts|
      && (forall i :: 0 <= i < |p.devices| ==>
            n.devices[i].status == Revoked && n.devices[i].deviceEpoch == n.deviceEpoch
            && n.devices[i].(status := p.devices[i].status, deviceEpoch := p.devices[i].deviceEpoch) == p.devices[i])
      && (forall i :: 0 <= i < |p.accounts| ==>
            n.accounts[i].status == PendingReconciliation && n.accounts[i].(status := p.accounts[i].status) == p.accounts[i])
  {
    hide CompleteRecovery, Restore, CreateInputs, BundleOf, PendingFault;
    OperationMeaning(derive, q, b, shares, at, floor, rnd);
  }

  /** A replacement changes the recovery epoch and the audit state, and nothing else. */
  lemma ReplacementEffect(derive: Derivation, q: Request, b: Bundle, shares: seq<Share>, at: nat, floor: Option<Floor>, rnd: Randomness)
    requires ReplaceSet(derive, q, b, shares, at, floor, rnd).Ok?
    ensures var c := ReplaceSet(derive, q, b, shares, at, floor, rnd).value;
      var p, n := c.recovered, c.next;
      n.(recoveryEpoch := p.recoveryEpoch, auditCount := p.auditCount, auditHead := p.auditHead) == p
      && n.recoveryEpoch == p.recoveryEpoch + 1 && n.auditCount == p.auditCount + 1
  {
    hide ReplaceSet, Restore, CreateInputs, BundleOf, PendingFault;
    OperationMeaning(derive, q, b, shares, at, floor, rnd);
  }
}
