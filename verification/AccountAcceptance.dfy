/**
 * When the account issues a context, applies one and completes a recovery: conditions on the fields of the
 * state, the request and the context, and the whole state that an application leaves.
 */
module AccountAcceptance {
  import opened Wrappers
  import opened Account

  // ---- States ----------------------------------------------------------------------

  ghost predicate Small(n: nat) { n < 0x1_0000_0000_0000_0000 }

  /** The states the constructor accepts: an addressed validator with no repeated authorization, committed to,
      three sequences in 64 bits, and a pending recovery exactly while one is active. */
  ghost predicate WellFormed(s: State) {
    var v := s.validator;
    && v.address != 0 && v.keyBinding != 0 && v.epoch != 0 && Small(v.epoch) && v.recoveryEpoch != 0 && Small(v.recoveryEpoch)
    && (forall i, j :: 0 <= i < |v.consumedDigests| && 0 <= j < |v.consumedDigests| && i != j ==>
          v.consumedDigests[i] != v.consumedDigests[j])
    && (forall i, j :: 0 <= i < |v.consumedNonces| && 0 <= j < |v.consumedNonces| && i != j ==>
          v.consumedNonces[i] != v.consumedNonces[j])
    && s.commitment.address == v.address && s.commitment.keyBinding == v.keyBinding
    && Small(s.nonces.ordinary) && Small(s.nonces.maintenance) && Small(s.nonces.recovery)
    && match s.pending
       case None => s.lifecycle != RecoveryActive && v.recovery != RecoveryInProgress
       case Some(p) =>
         && s.lifecycle == RecoveryActive && v.recovery == RecoveryInProgress
         && 0 !in [p.requestId, p.address, p.keyBinding, p.evidence]
         && Small(p.epoch) && Small(p.sourceEpoch) && Small(p.sourceRecoveryEpoch)
         && p.requestedAt < p.executableAfter < p.expiresAt < 0x1_0000_0000_0000
  }

  lemma ValidExactly(s: State)
    ensures Valid(s) <==> WellFormed(s)
  {
    hide Unique;
    UniqueExactly(s.validator.consumedDigests);
    UniqueExactly(s.validator.consumedNonces);
  }

  lemma UniqueExactly<T>(s: seq<T>)
    ensures Unique(s) <==> forall i, j :: 0 <= i < |s| && 0 <= j < |s| && i != j ==> s[i] != s[j]
  {
    if Unique(s) {
      forall i, j | 0 <= i < |s| && 0 <= j < |s| && i != j ensures s[i] != s[j] {
        assert if i < j then s[i] != s[j] else s[j] != s[i];
      }
    }
  }

  // ---- Issuing a context -------------------------------------------------------------

  /** The sequence of a lane, if there is such a lane. */
  ghost predicate LaneAt(n: Nonces, key: nat, sequence: nat) {
    (key == 0 && sequence == n.ordinary) || (key == 1 && sequence == n.maintenance) || (key == 2 && sequence == n.recovery)
  }

  /** What is needed for a context: the entry point calls an unlocked account, without anything unrestricted and
      without a paymaster, at the current sequence of a lane, and the parts outside agree. */
  ghost predicate Issuable(s: State, q: Request) {
    && WellFormed(s) && !s.locked && q.callerIsEntryPoint && !q.unrestricted && !q.paymaster && q.intentEncodes
    && q.keyedNonce == q.header.key * 0x1_0000_0000_0000_0000 + q.header.sequence
    && LaneAt(s.nonces, q.header.key, q.header.sequence)
    && q.userOperationBound && q.action.Some? && q.authorization.Some? && q.transitionAgrees
    && (q.action.value.Confirm? ==> q.action.value.target == q.confirmationTarget)
    && (q.action.value.Transfer? ==> q.fundsReleasable)
  }

  lemma Decomposes(keyedNonce: nat, key: nat, sequence: nat)
    requires Small(sequence)
    ensures Decomposed(keyedNonce) == Nonce(key, sequence) <==> keyedNonce == key * 0x1_0000_0000_0000_0000 + sequence
  {
  }

  lemma LaneExactly(n: Nonces, key: nat, sequence: nat)
    ensures Expected(n, key) == Some(sequence) <==> LaneAt(n, key, sequence)
  {
  }

  lemma IssuesExactly(s: State, q: Request)
    ensures ValidationFault(s, q).None? <==> Issuable(s, q)
  {
    hide Valid, WellFormed, LaneAt;
    ValidExactly(s);
    LaneExactly(s.nonces, q.header.key, q.header.sequence);
    if LaneAt(s.nonces, q.header.key, q.header.sequence) && WellFormed(s) { LaneSmall(s, q.header.key, q.header.sequence); }
    if Small(q.header.sequence) { Decomposes(q.keyedNonce, q.header.key, q.header.sequence); }
  }

  lemma LaneSmall(s: State, key: nat, sequence: nat)
    requires WellFormed(s) && LaneAt(s.nonces, key, sequence)
    ensures Small(sequence) && key < 3
  {
  }

  /** The context that is issued: this state, the nonce of the header, the action and the authorization's digest. */
  lemma ContextExactly(id: nat, s: State, q: Request)
    requires Issuable(s, q)
    ensures ValidationFault(s, q).None?
    ensures ContextFor(id, s, q) == Context(id, s, q.header, q.action.value, q.authorization.value)
  {
    hide Valid, WellFormed;
    IssuesExactly(s, q);
    LaneSmall(s, q.header.key, q.header.sequence);
    Decomposes(q.keyedNonce, q.header.key, q.header.sequence);
  }

  /** The code of the first condition that fails. */
  ghost function Code(s: State, q: Request): Failure {
    var key, sequence := q.keyedNonce / 0x1_0000_0000_0000_0000, q.keyedNonce % 0x1_0000_0000_0000_0000;
    if !WellFormed(s) then StateInvalid
    else if !q.callerIsEntryPoint then CallerNotEntryPoint
    else if s.locked then ExecutionLocked
    else if q.unrestricted then UnrestrictedExecution
    else if q.paymaster then PaymasterProhibited
    else if q.keyedNonce > 0xffffffff_ffffffff_ffffffff_ffffffff_ffffffff_ffffffff_ffffffff_ffffffff then NonceEnvelopeMismatch
    else if !q.intentEncodes then AuthorizationRejected
    else if key > 2 then NonceKeyUnsupported
    else if exists n: nat :: n > sequence && LaneAt(s.nonces, key, n) then NonceStale
    else if exists n: nat :: n < sequence && LaneAt(s.nonces, key, n) then NonceFuture
    else if q.header != Nonce(key, sequence) then NonceEnvelopeMismatch
    else if !q.userOperationBound then UserOperationMismatch
    else
      match q.action
      case None => ActionNotImplemented
      case Some(Confirm(target)) =>
        if target != q.confirmationTarget then ConfirmationTargetMismatch
        else if q.authorization == None then AuthorizationRejected else NonceEnvelopeMismatch
      case Some(Transfer(_)) =>
        if !q.fundsReleasable then FundLifecycle
        else if q.authorization == None then AuthorizationRejected else NonceEnvelopeMismatch
      case Some(_) => if q.authorization == None then AuthorizationRejected else NonceEnvelopeMismatch
  }

  lemma RefusedExactly(s: State, q: Request)
    requires !Issuable(s, q)
    ensures ValidationFault(s, q) == Some(Code(s, q))
  {
    hide Valid, WellFormed, Issuable, LaneAt;
    IssuesExactly(s, q);
    ValidExactly(s);
    var key := q.keyedNonce / 0x1_0000_0000_0000_0000;
    forall n: nat ensures LaneAt(s.nonces, key, n) <==> Expected(s.nonces, key) == Some(n) {
      LaneExactly(s.nonces, key, n);
    }
    if key <= 2 { assert LaneAt(s.nonces, key, Expected(s.nonces, key).value); }
  }

  // ---- Applying a context --------------------------------------------------------------

  /** The checks made before the context is consumed. */
  ghost predicate Usable(issued: map<nat, Context>, consumed: set<nat>, s: State, c: Context, now: nat) {
    && WellFormed(s) && now < 0x1_0000_0000_0000
    && c.id in issued && issued[c.id] == c && c.id !in consumed && c.state == s
    && LaneAt(s.nonces, c.nonce.key, c.nonce.sequence)
  }

  /** The authorization is new, the lane has room, and the action is possible in this state. */
  ghost predicate Possible(s: State, c: Context, now: nat) {
    && c.digest != 0 && c.digest !in s.validator.consumedDigests && c.nonce !in s.validator.consumedNonces
    && c.nonce.sequence < 0xffff_ffff_ffff_ffff
    && match c.action
       case RotateValidator(address, keyBinding, epoch) =>
         s.validator.recovery == NoRecovery && s.validator.status == ValidatorActive
         && address != 0 && keyBinding != 0 && epoch == s.validator.epoch + 1 && Small(epoch)
       case RequestRecovery(id, address, keyBinding, epoch) =>
         s.validator.recovery == NoRecovery && id != 0 && address != 0 && keyBinding != 0 && Small(epoch)
         && now + 604800 < 0x1_0000_0000_0000
       case CancelRecovery(id) => s.pending.Some? && s.pending.value.requestId == id
       case _ => true
  }

  /** The whole state after an application. */
  ghost function Advanced(s: State, c: Context, now: nat): State {
    var n, key := s.nonces, c.nonce.key;
    var v := s.validator.(consumedDigests := s.validator.consumedDigests + [c.digest],
                          consumedNonces := s.validator.consumedNonces + [c.nonce]);
    var t := s.(validator := v,
                nonces := match key
                          case 0 => Nonces(n.ordinary + 1, n.maintenance, n.recovery)
                          case 1 => Nonces(n.ordinary, n.maintenance + 1, n.recovery)
                          case _ => Nonces(n.ordinary, n.maintenance, n.recovery + 1));
    match c.action
    case RotateValidator(address, keyBinding, epoch) =>
      t.(validator := v.(address := address, keyBinding := keyBinding, epoch := epoch), commitment := Commitment(address, keyBinding))
    case RequestRecovery(id, address, keyBinding, epoch) =>
      t.(validator := v.(recovery := RecoveryInProgress), lifecycle := RecoveryActive,
         pending := Some(Pending(id, address, keyBinding, epoch, s.validator.epoch, s.validator.recoveryEpoch,
                                 now, now + 172800, now + 604800, c.digest)))
    case CancelRecovery(_) => t.(validator := v.(recovery := NoRecovery), lifecycle := RecoveryCancelled, pending := None)
    case _ => t
  }

  lemma AdvancedWellFormed(s: State, c: Context, now: nat)
    requires WellFormed(s) && LaneAt(s.nonces, c.nonce.key, c.nonce.sequence) && Possible(s, c, now)
    ensures WellFormed(Advanced(s, c, now))
  {
  }

  /** A context is used up exactly when it is usable, and the transition happens exactly if it is possible too. */
  lemma AppliesExactly(issued: map<nat, Context>, consumed: set<nat>, s: State, c: Context, now: nat)
    ensures Apply(issued, consumed, s, c, now)
         == if !Usable(issued, consumed, s, c, now) then Applied(consumed, None)
            else Applied(consumed + {c.id}, if Possible(s, c, now) then Some(Advanced(s, c, now)) else None)
  {
    hide Valid, WellFormed, Acted, Advanced;
    ValidExactly(s);
    LaneExactly(s.nonces, c.nonce.key, c.nonce.sequence);
    if Usable(issued, consumed, s, c, now) {
      if Possible(s, c, now) { AdvancedWellFormed(s, c, now); }
      ValidExactly(Advanced(s, c, now));
      ActsExactly(s, c, now);
    }
  }

  lemma ActsExactly(s: State, c: Context, now: nat)
    requires WellFormed(s) && LaneAt(s.nonces, c.nonce.key, c.nonce.sequence)
    ensures ConsumeAuthorization(s.validator, c.digest, c.nonce).Some? && Increment(s.nonces, c.nonce.key).Some?
       <==> c.digest != 0 && c.digest !in s.validator.consumedDigests && c.nonce !in s.validator.consumedNonces
            && c.nonce.sequence < 0xffff_ffff_ffff_ffff
    ensures ConsumeAuthorization(s.validator, c.digest, c.nonce).Some? && Increment(s.nonces, c.nonce.key).Some? ==>
      Acted(s, ConsumeAuthorization(s.validator, c.digest, c.nonce).value, Increment(s.nonces, c.nonce.key).value, c, now)
      == if Possible(s, c, now) then Some(Advanced(s, c, now)) else None
  {
    ValidExactly(Advanced(s, c, now));
    if Possible(s, c, now) { AdvancedWellFormed(s, c, now); }
  }

  // ---- Completing a recovery ------------------------------------------------------------

  /** The request is the pending one, its window is open, the validator is still the one it was made against, and
      both epochs have room. */
  ghost predicate Completable(s: State, requestId: nat, now: nat) {
    && WellFormed(s) && s.pending.Some?
    && var p := s.pending.value;
    && p.requestId == requestId && p.executableAfter <= now < p.expiresAt
    && p.sourceEpoch == s.validator.epoch && p.sourceRecoveryEpoch == s.validator.recoveryEpoch
    && p.epoch == s.validator.epoch + 1 && s.validator.recoveryEpoch < 0xffff_ffff_ffff_ffff
  }

  ghost function Completed(s: State): State
    requires s.pending.Some?
  {
    var p := s.pending.value;
    s.(validator := s.validator.(address := p.address, keyBinding := p.keyBinding, epoch := p.epoch, status := ValidatorActive,
                                 recoveryEpoch := s.validator.recoveryEpoch + 1, recovery := NoRecovery),
       commitment := Commitment(p.address, p.keyBinding), lifecycle := RecoveryCompleted, pending := None)
  }

  lemma CompletesExactly(s: State, requestId: nat, now: nat)
    ensures Complete(s, requestId, now).Some? <==> Completable(s, requestId, now)
    ensures Completable(s, requestId, now) ==> Complete(s, requestId, now) == Some(Completed(s))
  {
    hide Valid;
    ValidExactly(s);
    if s.pending.Some? { ValidExactly(Completed(s)); }
  }

  lemma DelaysInDays()
    ensures RECOVERY_DELAY == 2 * 24 * 60 * 60 && RECOVERY_EXPIRY == 7 * 24 * 60 * 60
  {
  }
}
