/**
 * The composed mint authorization and its replay store.  A call asks the store about four
 * single-use values, and reserves all four before it releases a signature; every question
 * and the reservation itself is awaited, so other calls may run in between.
 *
 * The call is modelled twice: as a machine that takes one step per awaited operation, and as
 * a method on a store object that runs without interruption.
 */
module ReplayStore {
  import opened Wrappers

  datatype Reservation = Reservation(digest: nat, nullifier: nat, approvalNonce: nat, accountNonce: nat)

  /** The four single-use values are each different. */
  predicate Apart(a: Reservation, b: Reservation) {
    a.digest != b.digest && a.nullifier != b.nullifier && a.approvalNonce != b.approvalNonce && a.accountNonce != b.accountNonce
  }

  /** What a call is given: the trusted state it compares with the envelope, and the verdicts
      of the derivations and verifiers it consults. */
  datatype Request = Request(
    reservation: Reservation,
    emergencyStop: bool, scopeActive: bool, policyActive: bool, proofDescriptorActive: bool, deviceActive: bool,
    recoveryStateCurrent: bool, validatorActive: bool, cancelled: bool, denied: bool,
    bindingsMatch: bool, envelopeMatches: bool,
    now: int, validAfter: int, validUntil: int, valueWei: int, valueLimit: int,
    maximumFee: int, feeLimit: int, boundFee: int, currentAccountNonce: int,
    publicInputsBound: bool, proofValid: bool, deviceApprovalValid: bool, approvalDigest: nat, account: nat)

  datatype Failure =
    | AuthorityInactive | BindingMismatch | EnvelopeMismatch | Expired | NonzeroValue | FeeLimitExceeded | AccountNonceMismatch
    | PublicInputsUnbound | ProofInvalid | ApprovalInvalid | ApprovalReplay | EnvelopeReplay | NullifierReplay | AccountNonceReplay
    | ReservationRefused

  datatype Release = Release(reservation: Reservation, approvalDigest: nat, account: nat, validUntil: int, maximumFee: int)

  function ReleaseOf(q: Request): Release {
    Release(q.reservation, q.approvalDigest, q.account, q.validUntil, q.feeLimit)
  }

  // ---- The store -----------------------------------------------------------------

  type Store = seq<Reservation>

  predicate HasDigest(s: Store, n: nat) { exists i :: 0 <= i < |s| && s[i].digest == n }
  predicate HasNullifier(s: Store, n: nat) { exists i :: 0 <= i < |s| && s[i].nullifier == n }
  predicate HasApprovalNonce(s: Store, n: nat) { exists i :: 0 <= i < |s| && s[i].approvalNonce == n }
  predicate HasAccountNonce(s: Store, n: nat) { exists i :: 0 <= i < |s| && s[i].accountNonce == n }

  predicate Fresh(s: Store, r: Reservation) {
    forall i :: 0 <= i < |s| ==> Apart(s[i], r)
  }

  /** No single-use value is reserved twice. */
  predicate SingleUse(s: Store) {
    forall i, j :: 0 <= i < j < |s| ==> Apart(s[i], s[j])
  }

  /** The store's contract: which of the two reserve operations it has, and whether it can
      recognize an exact earlier reservation. */
  datatype Contract = Contract(atomic: bool, recognizes: bool)

  /** An atomic reserve checks all four values and inserts in one step; a plain one inserts. */
  function Reserve(c: Contract, s: Store, r: Reservation): Option<Store> {
    if c.atomic && !Fresh(s, r) then None else Some(s + [r])
  }

  // ---- The machine ----------------------------------------------------------------

  /** Where a call is: between two awaited operations, or finished. */
  datatype Position =
    | Start
    | Queried(resuming: bool)
    | Proved(resuming: bool)
    | Noted(resuming: bool, consumed: bool)
    | Approved(resuming: bool)
    | DigestFresh(resuming: bool)
    | NullifierFresh(resuming: bool)
    | AllFresh(resuming: bool)
    | Released(release: Release)
    | Refused(failure: Failure)

  datatype Moved = Moved(store: Store, position: Position)

  function InitialFault(q: Request): Option<Failure> {
    if q.emergencyStop || !q.scopeActive || !q.policyActive || !q.proofDescriptorActive || !q.deviceActive
       || !q.recoveryStateCurrent || !q.validatorActive || q.cancelled || q.denied then Some(AuthorityInactive)
    else if !q.bindingsMatch then Some(BindingMismatch)
    else None
  }

  function EnvelopeFault(q: Request): Option<Failure> {
    if !q.envelopeMatches then Some(EnvelopeMismatch)
    else if q.now < q.validAfter || q.now > q.validUntil then Some(Expired)
    else if q.valueWei != 0 || q.valueLimit != 0 then Some(NonzeroValue)
    else if q.maximumFee > q.feeLimit || q.maximumFee > q.boundFee then Some(FeeLimitExceeded)
    else if q.currentAccountNonce != q.reservation.accountNonce then Some(AccountNonceMismatch)
    else if !q.publicInputsBound then Some(PublicInputsUnbound)
    else if !q.proofValid then Some(ProofInvalid)
    else None
  }

  /** The checks that do not depend on the store. */
  predicate Acceptable(q: Request) {
    InitialFault(q).None? && EnvelopeFault(q).None? && q.deviceApprovalValid
  }

  /** One awaited operation and the code up to the next. */
  function Move(c: Contract, s: Store, q: Request, p: Position): Moved {
    var r := q.reservation;
    match p
    case Start =>
      if InitialFault(q).Some? then Moved(s, Refused(InitialFault(q).value)) else Moved(s, Queried(c.recognizes && r in s))
    case Queried(resuming) =>
      if EnvelopeFault(q).Some? then Moved(s, Refused(EnvelopeFault(q).value)) else Moved(s, Proved(resuming))
    case Proved(resuming) => Moved(s, Noted(resuming, !resuming && HasApprovalNonce(s, r.approvalNonce)))
    case Noted(resuming, consumed) =>
      if consumed then Moved(s, Refused(ApprovalReplay))
      else if !q.deviceApprovalValid then Moved(s, Refused(ApprovalInvalid))
      else Moved(s, Approved(resuming))
    case Approved(resuming) =>
      if !resuming && HasDigest(s, r.digest) then Moved(s, Refused(EnvelopeReplay)) else Moved(s, DigestFresh(resuming))
    case DigestFresh(resuming) =>
      if !resuming && HasNullifier(s, r.nullifier) then Moved(s, Refused(NullifierReplay)) else Moved(s, NullifierFresh(resuming))
    case NullifierFresh(resuming) =>
      if !resuming && HasAccountNonce(s, r.accountNonce) then Moved(s, Refused(AccountNonceReplay)) else Moved(s, AllFresh(resuming))
    case AllFresh(resuming) =>
      if resuming then Moved(s, Released(ReleaseOf(q)))
      else
        (match Reserve(c, s, r)
         case None => Moved(s, Refused(ReservationRefused))
         case Some(t) => Moved(t, Released(ReleaseOf(q))))
    case Released(_) => Moved(s, p)
    case Refused(_) => Moved(s, p)
  }

  // ---- The call without interruption ---------------------------------------------------

  datatype Answer = Answer(store: Store, result: Position)

  /** The verdict of a call that nothing interrupts. */
  function Authorize(c: Contract, s: Store, q: Request): Answer {
    var r := q.reservation;
    var resuming := c.recognizes && r in s;
    if InitialFault(q).Some? then Answer(s, Refused(InitialFault(q).value))
    else if EnvelopeFault(q).Some? then Answer(s, Refused(EnvelopeFault(q).value))
    else if !resuming && HasApprovalNonce(s, r.approvalNonce) then Answer(s, Refused(ApprovalReplay))
    else if !q.deviceApprovalValid then Answer(s, Refused(ApprovalInvalid))
    else if resuming then Answer(s, Released(ReleaseOf(q)))
    else if HasDigest(s, r.digest) then Answer(s, Refused(EnvelopeReplay))
    else if HasNullifier(s, r.nullifier) then Answer(s, Refused(NullifierReplay))
    else if HasAccountNonce(s, r.accountNonce) then Answer(s, Refused(AccountNonceReplay))
    else Answer(s + [r], Released(ReleaseOf(q)))
  }

  /** The store object and the call as the source writes it. */
  class LocalStore {
    const recognizes: bool
    var reservations: Store

    constructor (recognizesReservations: bool)
      ensures reservations == [] && recognizes == recognizesReservations
    {
      reservations := [];
      recognizes := recognizesReservations;
    }

    method ReserveNow(r: Reservation)
      modifies this`reservations
      ensures reservations == old(reservations) + [r]
    {
      reservations := reservations + [r];
    }

    method AuthorizeComposition(q: Request) returns (result: Position)
      modifies this
      ensures Answer(reservations, result) == Authorize(Contract(false, recognizes), old(reservations), q)
    {
      hide InitialFault, EnvelopeFault, HasDigest, HasNullifier, HasApprovalNonce, HasAccountNonce;
      var initial := InitialFault(q);
      if initial.Some? { return Refused(initial.value); }
      var reservation := q.reservation;
      var resuming := recognizes && reservation in reservations;
      var fault := EnvelopeFault(q);
      if fault.Some? { return Refused(fault.value); }
      var consumed: set<nat> := {};
      if !resuming && HasApprovalNonce(reservations, reservation.approvalNonce) {
        consumed := consumed + {reservation.approvalNonce};
      }
      if reservation.approvalNonce in consumed { return Refused(ApprovalReplay); }
      if !q.deviceApprovalValid { return Refused(ApprovalInvalid); }
      if !resuming && HasDigest(reservations, reservation.digest) { return Refused(EnvelopeReplay); }
      if !resuming && HasNullifier(reservations, reservation.nullifier) { return Refused(NullifierReplay); }
      if !resuming && HasAccountNonce(reservations, reservation.accountNonce) { return Refused(AccountNonceReplay); }
      if !resuming { ReserveNow(reservation); }
      return Released(ReleaseOf(q));
    }
  }

  // ---- Sequential runs ---------------------------------------------------------------

  function Run(c: Contract, s: Store, calls: seq<Request>): Store {
    if calls == [] then s else Authorize(c, Run(c, s, calls[..|calls| - 1]), calls[|calls| - 1]).store
  }

  lemma AuthorizeKeeps(c: Contract, s: Store, q: Request)
    requires SingleUse(s)
    ensures SingleUse(Authorize(c, s, q).store) && s <= Authorize(c, s, q).store
    ensures Authorize(c, s, q).result.Released? ==> q.reservation in Authorize(c, s, q).store
    ensures Authorize(c, s, q).result.Released? ==> Acceptable(q) && Authorize(c, s, q).result.release == ReleaseOf(q)
  {
    hide InitialFault, EnvelopeFault;
    var r, a := q.reservation, Authorize(c, s, q);
    if a.store != s {
      forall i | 0 <= i < |s| ensures Apart(s[i], r) {
      }
      assert a.store == s + [r];
    }
  }

  /** Over every run of uninterrupted calls no single-use value is ever reserved twice, and
      reservations are only added. */
  lemma {:induction false} RunKeeps(c: Contract, s: Store, calls: seq<Request>)
    requires SingleUse(s)
    ensures SingleUse(Run(c, s, calls)) && s <= Run(c, s, calls)
  {
    hide Authorize, SingleUse;
    if calls != [] {
      RunKeeps(c, s, calls[..|calls| - 1]);
      AuthorizeKeeps(c, Run(c, s, calls[..|calls| - 1]), calls[|calls| - 1]);
    }
  }

  /** After a release, and any calls in between, making the same call again adds nothing and
      gives the same release, if the store recognizes reservations; if it does not, the call
      is refused as a replay. */
  lemma RepeatedCall(c: Contract, s: Store, q: Request, between: seq<Request>)
    requires SingleUse(s) && Authorize(c, s, q).result.Released?
    ensures var t := Run(c, Authorize(c, s, q).store, between);
      Authorize(c, t, q) == if c.recognizes then Answer(t, Authorize(c, s, q).result) else Answer(t, Refused(ApprovalReplay))
  {
    hide InitialFault, EnvelopeFault, SingleUse, Run, HasDigest, HasNullifier, HasAccountNonce;
    AuthorizeKeeps(c, s, q);
    var u := Authorize(c, s, q).store;
    RunKeeps(c, u, between);
    var t := Run(c, u, between);
    var i :| 0 <= i < |u| && u[i] == q.reservation;
    assert t[i] == q.reservation;
  }

  /** A release without an exact earlier reservation means all four values were unused. */
  lemma ReleasedExactly(c: Contract, s: Store, q: Request)
    requires SingleUse(s)
    ensures Authorize(c, s, q).result.Released?
       <==> Acceptable(q) && (Fresh(s, q.reservation) || (c.recognizes && q.reservation in s))
  {
    hide InitialFault, EnvelopeFault;
    var r := q.reservation;
    if Fresh(s, r) {
      assert !HasApprovalNonce(s, r.approvalNonce) && !HasDigest(s, r.digest) && !HasNullifier(s, r.nullifier) && !HasAccountNonce(s, r.accountNonce);
      assert r !in s;
    } else {
      var i :| 0 <= i < |s| && !Apart(s[i], r);
    }
  }
}
