/**
 * The V2 account: states are immutable values; validating an operation issues a context
 * object, and applying a transition consumes one and returns the next state.  The sets of
 * issued and consumed contexts belong to the module and are updated in place.
 */
module Account {
  import opened Wrappers

  const RECOVERY_DELAY: nat := 172800
  const RECOVERY_EXPIRY: nat := 604800
  const UINT48: nat := 0x1_0000_0000_0000
  const UINT64: nat := 0x1_0000_0000_0000_0000

  // ---- State -------------------------------------------------------------------

  /** One sequence per nonce lane; the lanes' keys are 0, 1 and 2. */
  datatype Nonces = Nonces(ordinary: nat, maintenance: nat, recovery: nat)

  datatype Nonce = Nonce(key: nat, sequence: nat)

  datatype ValidatorStatus = ValidatorActive | ValidatorRevoked
  datatype ValidatorRecovery = NoRecovery | RecoveryInProgress | ConfigRotationInProgress

  datatype Validator = Validator(
    address: nat, keyBinding: nat, epoch: nat, status: ValidatorStatus, recoveryEpoch: nat, recovery: ValidatorRecovery,
    consumedDigests: seq<nat>, consumedNonces: seq<Nonce>)

  datatype Lifecycle = Normal | RecoveryActive | RecoveryCompleted | RecoveryCancelled

  datatype Pending = Pending(
    requestId: nat, address: nat, keyBinding: nat, epoch: nat, sourceEpoch: nat, sourceRecoveryEpoch: nat,
    requestedAt: nat, executableAfter: nat, expiresAt: nat, evidence: nat)

  /** The validator commitment, by the inputs of its hash. */
  datatype Commitment = Commitment(address: nat, keyBinding: nat)

  datatype State = State(
    validator: Validator, nonces: Nonces, commitment: Commitment, locked: bool, lifecycle: Lifecycle, pending: Option<Pending>)

  predicate Unique<T(==)>(s: seq<T>) {
    forall i, j :: 0 <= i < j < |s| ==> s[i] != s[j]
  }

  predicate ValidatorValid(v: Validator) {
    v.address != 0 && v.keyBinding != 0 && 1 <= v.epoch < UINT64 && 1 <= v.recoveryEpoch < UINT64
    && Unique(v.consumedDigests) && Unique(v.consumedNonces)
  }

  predicate PendingValid(p: Pending) {
    p.requestId != 0 && p.address != 0 && p.keyBinding != 0 && p.evidence != 0
    && p.epoch < UINT64 && p.sourceEpoch < UINT64 && p.sourceRecoveryEpoch < UINT64
    && p.requestedAt < p.executableAfter < p.expiresAt < UINT48
  }

  /** What the state constructor accepts; every function of the module starts from it. */
  predicate Valid(s: State) {
    ValidatorValid(s.validator)
    && s.commitment == Commitment(s.validator.address, s.validator.keyBinding)
    && (s.pending.Some? ==> PendingValid(s.pending.value))
    && (s.lifecycle.RecoveryActive? <==> s.pending.Some?)
    && (s.lifecycle.RecoveryActive? <==> s.validator.recovery.RecoveryInProgress?)
    && s.nonces.ordinary < UINT64 && s.nonces.maintenance < UINT64 && s.nonces.recovery < UINT64
  }

  function Checked(s: State): Option<State> {
    if Valid(s) then Some(s) else None
  }

  function Expected(n: Nonces, key: nat): Option<nat> {
    if key == 0 then Some(n.ordinary) else if key == 1 then Some(n.maintenance) else if key == 2 then Some(n.recovery) else None
  }

  function Increment(n: Nonces, key: nat): Option<Nonces> {
    match Expected(n, key)
    case None => None
    case Some(current) =>
      if current == UINT64 - 1 then None
      else
        Some(Nonces(if key == 0 then current + 1 else n.ordinary,
                    if key == 1 then current + 1 else n.maintenance,
                    if key == 2 then current + 1 else n.recovery))
  }

  // ---- Validation ----------------------------------------------------------------

  datatype Action =
    | Confirm(target: nat)
    | Transfer(amount: nat)
    | RotateValidator(address: nat, keyBinding: nat, epoch: nat)
    | RequestRecovery(requestId: nat, address: nat, keyBinding: nat, epoch: nat)
    | CancelRecovery(requestId: nat)

  /** An operation to validate, with the verdicts of the parts outside this module: the
      intent codec, the fund lifecycle digest and the authorization engine. */
  datatype Request = Request(
    callerIsEntryPoint: bool, unrestricted: bool, paymaster: bool, keyedNonce: nat, intentEncodes: bool, header: Nonce,
    userOperationBound: bool, action: Option<Action>, confirmationTarget: nat, fundsReleasable: bool,
    authorization: Option<nat>, transitionAgrees: bool)

  datatype Failure =
    | StateInvalid | CallerNotEntryPoint | ExecutionLocked | UnrestrictedExecution | PaymasterProhibited | NonceKeyUnsupported
    | NonceStale | NonceFuture | NonceEnvelopeMismatch | UserOperationMismatch | ActionNotImplemented
    | ConfirmationTargetMismatch | FundLifecycle | AuthorizationRejected

  /** An accepted validation: it binds the whole state it was made for. */
  datatype Context = Context(id: nat, state: State, nonce: Nonce, action: Action, digest: nat)

  function Decomposed(keyedNonce: nat): Nonce {
    Nonce(keyedNonce / UINT64, keyedNonce % UINT64)
  }

  function ValidationFault(s: State, q: Request): Option<Failure> {
    var nonce := Decomposed(q.keyedNonce);
    var expected := Expected(s.nonces, nonce.key);
    if !Valid(s) then Some(StateInvalid)
    else if !q.callerIsEntryPoint then Some(CallerNotEntryPoint)
    else if s.locked then Some(ExecutionLocked)
    else if q.unrestricted then Some(UnrestrictedExecution)
    else if q.paymaster then Some(PaymasterProhibited)
    else if q.keyedNonce >= UINT64 * UINT64 * UINT64 * UINT64 then Some(NonceEnvelopeMismatch)
    else if !q.intentEncodes then Some(AuthorizationRejected)
    else if expected.None? then Some(NonceKeyUnsupported)
    else if nonce.sequence < expected.value then Some(NonceStale)
    else if nonce.sequence > expected.value then Some(NonceFuture)
    else if nonce != q.header then Some(NonceEnvelopeMismatch)
    else if !q.userOperationBound then Some(UserOperationMismatch)
    else if q.action.None? then Some(ActionNotImplemented)
    else if q.action.value.Confirm? && q.action.value.target != q.confirmationTarget then Some(ConfirmationTargetMismatch)
    else if q.action.value.Transfer? && !q.fundsReleasable then Some(FundLifecycle)
    else if q.authorization.None? then Some(AuthorizationRejected)
    else if !q.transitionAgrees then Some(NonceEnvelopeMismatch)
    else None
  }

  function ContextFor(id: nat, s: State, q: Request): Context
    requires ValidationFault(s, q).None?
  {
    Context(id, s, Decomposed(q.keyedNonce), q.action.value, q.authorization.value)
  }

  // ---- Validator transitions ---------------------------------------------------------

  function ConsumeAuthorization(v: Validator, digest: nat, nonce: Nonce): Option<Validator> {
    if digest == 0 || digest in v.consumedDigests || nonce in v.consumedNonces then None
    else Some(v.(consumedDigests := v.consumedDigests + [digest], consumedNonces := v.consumedNonces + [nonce]))
  }

  /** An ordinary rotation, or the one that completes a recovery; the epoch moves by one. */
  function Rotate(v: Validator, address: nat, keyBinding: nat, epoch: nat, completing: bool): Option<Validator> {
    if epoch != v.epoch + 1 || epoch >= UINT64 || address == 0 || keyBinding == 0 then None
    else if !completing then
      if v.recovery != NoRecovery || v.status != ValidatorActive then None
      else Some(v.(address := address, keyBinding := keyBinding, epoch := epoch))
    else if v.recovery != RecoveryInProgress || v.recoveryEpoch + 1 >= UINT64 then None
    else
      Some(v.(address := address, keyBinding := keyBinding, epoch := epoch, status := ValidatorActive,
              recoveryEpoch := v.recoveryEpoch + 1, recovery := NoRecovery))
  }

  // ---- Transitions -----------------------------------------------------------------

  /** The state after a context's action, its nonce and authorization already consumed. */
  function Acted(s: State, v: Validator, nonces: Nonces, c: Context, now: nat): Option<State> {
    match c.action
    case RotateValidator(address, keyBinding, epoch) =>
      (match Rotate(v, address, keyBinding, epoch, false)
       case None => None
       case Some(w) => Checked(s.(validator := w, commitment := Commitment(w.address, w.keyBinding), nonces := nonces)))
    case RequestRecovery(id, address, keyBinding, epoch) =>
      if v.recovery != NoRecovery then None
      else
        Checked(s.(validator := v.(recovery := RecoveryInProgress), nonces := nonces, lifecycle := RecoveryActive,
                   pending := Some(Pending(id, address, keyBinding, epoch, s.validator.epoch, s.validator.recoveryEpoch,
                                           now, now + RECOVERY_DELAY, now + RECOVERY_EXPIRY, c.digest))))
    case CancelRecovery(id) =>
      if s.pending.None? || s.pending.value.requestId != id || v.recovery != RecoveryInProgress then None
      else Checked(s.(validator := v.(recovery := NoRecovery), nonces := nonces, lifecycle := RecoveryCancelled, pending := None))
    case _ => Checked(s.(validator := v, nonces := nonces))
  }

  /** Whether a context may be consumed for this state. */
  predicate Consumable(issued: map<nat, Context>, consumed: set<nat>, s: State, c: Context) {
    c.id in issued && issued[c.id] == c && c.id !in consumed && c.state == s
    && Expected(s.nonces, c.nonce.key) == Some(c.nonce.sequence)
  }

  datatype Applied = Applied(consumed: set<nat>, result: Option<State>)

  /** Applying a transition.  The context is consumed before the action is attempted, so a
      transition that fails after that point has used its context up. */
  function Apply(issued: map<nat, Context>, consumed: set<nat>, s: State, c: Context, now: nat): Applied {
    if !Valid(s) || now >= UINT48 || !Consumable(issued, consumed, s, c) then Applied(consumed, None)
    else
      var used := consumed + {c.id};
      match ConsumeAuthorization(s.validator, c.digest, c.nonce)
      case None => Applied(used, None)
      case Some(v) =>
        match Increment(s.nonces, c.nonce.key)
        case None => Applied(used, None)
        case Some(nonces) => Applied(used, Acted(s, v, nonces, c, now))
  }

  /** Completing a pending recovery, within its window. */
  function Complete(s: State, requestId: nat, now: nat): Option<State> {
    if !Valid(s) || now >= UINT48 || requestId == 0 then None
    else if !s.lifecycle.RecoveryActive? || s.pending.None? || s.pending.value.requestId != requestId then None
    else
      var p := s.pending.value;
      if now < p.executableAfter || now >= p.expiresAt then None
      else if p.sourceEpoch != s.validator.epoch || p.sourceRecoveryEpoch != s.validator.recoveryEpoch then None
      else
        match Rotate(s.validator, p.address, p.keyBinding, p.epoch, true)
        case None => None
        case Some(w) =>
          Checked(s.(validator := w, commitment := Commitment(w.address, w.keyBinding), lifecycle := RecoveryCompleted, pending := None))
  }

  // ---- The module's own state --------------------------------------------------------

  class AccountCore {
    var issued: map<nat, Context>
    var consumed: set<nat>
    var nextId: nat

    ghost predicate Fresh()
      reads this
    {
      (forall id :: id in issued ==> id < nextId && issued[id].id == id)
      && (forall id :: id in consumed ==> id in issued)
    }

    constructor ()
      ensures Fresh() && issued == map[] && consumed == {}
    {
      issued := map[];
      consumed := {};
      nextId := 0;
    }

    method ValidateOperation(s: State, q: Request) returns (c: Option<Context>, failure: Option<Failure>)
      requires Fresh()
      modifies this
      ensures Fresh() && consumed == old(consumed) && failure == ValidationFault(s, q)
      ensures failure.Some? ==> c == None && issued == old(issued)
      ensures failure.None? ==> old(nextId) !in old(issued) && c == Some(ContextFor(old(nextId), s, q))
      ensures failure.None? ==> issued == old(issued)[old(nextId) := c.value]
    {
      failure := ValidationFault(s, q);
      if failure.Some? { return None, failure; }
      var context := ContextFor(nextId, s, q);
      issued := issued[nextId := context];
      nextId := nextId + 1;
      return Some(context), None;
    }

    method ApplyTransition(s: State, c: Context, now: nat) returns (r: Option<State>)
      requires Fresh()
      modifies this`consumed
      ensures Fresh() && Applied(consumed, r) == Apply(issued, old(consumed), s, c, now)
    {
      hide Acted, Valid;
      if !Valid(s) || now >= UINT48 || !Consumable(issued, consumed, s, c) { return None; }
      consumed := consumed + {c.id};
      var v := ConsumeAuthorization(s.validator, c.digest, c.nonce);
      if v.None? { return None; }
      var nonces := Increment(s.nonces, c.nonce.key);
      if nonces.None? { return None; }
      r := Acted(s, v.value, nonces.value, c, now);
    }
  }
}
