/**
 * The credential registry: an object that holds the credentials, the recovery policy, the
 * audit trail and the warnings, and the calls that change it.
 *
 * Every call is first a function from the whole state to the state it leaves behind, also
 * when it throws, and a method of the class that updates the fields one by one and is
 * proved to leave exactly that state.
 */
module CredentialRegistry {
  import opened Wrappers
  import opened CredentialList

  // ---- State -------------------------------------------------------------------

  datatype RecoveryState = Normal | RecoveryPending | RecoveryApproved | RecoveryCompleted

  /** The identifier of a recovery, by the inputs of its hash. */
  datatype RecoveryId = RecoveryId(mechanism: string, requestedAt: string)

  datatype Request = Request(
    id: RecoveryId, mechanism: string, reason: Option<string>, requestedAt: string, requestedBy: Option<string>)

  datatype Policy = Policy(
    state: RecoveryState, mechanisms: seq<string>, pending: Option<Request>,
    approvedAt: Option<string>, completedAt: Option<string>, completedBy: Option<string>)

  datatype EventKind =
    | CredentialAdded | CredentialRevoked | CredentialArchived | CredentialRotated | CredentialRenamed
    | CredentialUsed | RecoveryStarted | RecoveryWasApproved | RecoveryWasCompleted

  datatype Details =
    | AddedDetails(status: Status, provider: string, title: string)
    | RemovedDetails(previous: Status, reason: Option<string>)
    | RotatedDetails(newStatus: Status, oldArchived: bool)
    | RenamedDetails(previousTitle: string, newTitle: string)
    | UsedDetails(previousCount: Option<int>, newCount: Option<int>)
    | StartedDetails(mechanism: string, startReason: Option<string>)
    | RecoveryDetails(pendingMechanism: Option<string>)

  /** The event identifier, by the inputs of its hash. */
  datatype EventId = EventId(kind: EventKind, credential: string, related: string, occurredAt: string, sequence: nat)

  datatype Event = Event(
    id: EventId, kind: EventKind, credential: Option<string>, related: Option<string>, actor: Option<string>,
    occurredAt: string, details: Details)

  datatype Warning = NoActiveCredential | NoRecoveryPath

  datatype State = State(credentials: seq<Credential>, policy: Policy, audit: seq<Event>, warnings: set<Warning>)

  datatype Refusal =
    | UnknownCredential | NeedsAuthorization | InactiveActor | NeedsConfirmation | AlreadyExists | InactiveOld
    | CannotAuthorize | NeedsStrongerAuthentication | NotPending | NotApproved

  /** What a call leaves behind, and why it threw if it did. */
  datatype Outcome = Outcome(state: State, refusal: Option<Refusal>)

  datatype Authorization = Authorization(actor: Option<string>, recoveryApproved: bool, stronger: bool)

  datatype Confirmation = Confirmation(confirmed: bool, reason: Option<string>)

  // ---- Shared steps ----------------------------------------------------------------

  predicate Holds(cs: seq<Credential>, id: string, status: Status) {
    var c := Find(cs, id);
    c.Some? && c.value.status == status
  }

  /** An active actor, an approved recovery that is invoked, or the first credential. */
  function Authorize(s: State, auth: Authorization, adding: bool): Option<Refusal> {
    if auth.recoveryApproved && s.policy.state.RecoveryApproved? then None
    else if s.credentials == [] && adding then None
    else if auth.actor.None? then Some(NeedsAuthorization)
    else if Find(s.credentials, auth.actor.value).None? then Some(UnknownCredential)
    else if !Holds(s.credentials, auth.actor.value, Active) then Some(InactiveActor)
    else None
  }

  function CountOf(cs: seq<Credential>, status: Status): nat {
    if cs == [] then 0 else (if cs[0].status == status then 1 else 0) + CountOf(cs[1..], status)
  }

  function WarningsFor(cs: seq<Credential>): set<Warning> {
    (if CountOf(cs, Active) == 0 then {NoActiveCredential} else {})
    + (if CountOf(cs, RecoveryOnly) == 0 && CountOf(cs, Active) < 2 then {NoRecoveryPath} else {})
  }

  function TextOr(o: Option<string>): string {
    if o.Some? then o.value else ""
  }

  /** The trail with one more event, numbered by its position. */
  function Recorded(trail: seq<Event>, kind: EventKind, credential: Option<string>, related: Option<string>,
                    actor: Option<string>, now: string, details: Details): seq<Event>
  {
    trail + [Event(EventId(kind, TextOr(credential), TextOr(related), now, |trail|), kind, credential, related, actor, now, details)]
  }

  // ---- The calls, as functions of the state ------------------------------------------

  function Refuse(s: State, why: Refusal): Outcome { Outcome(s, Some(why)) }

  function Add(rank: Collation, s: State, c: Credential, auth: Authorization, now: string): Outcome {
    var refusal := Authorize(s, auth, true);
    if refusal.Some? then Refuse(s, refusal.value)
    else if Find(s.credentials, c.id).Some? then Refuse(s, AlreadyExists)
    else
      var cs := Sort(rank, s.credentials + [c]);
      Outcome(s.(credentials := cs, warnings := s.warnings + WarningsFor(cs),
                 audit := Recorded(s.audit, CredentialAdded, Some(c.id), None, auth.actor, now,
                                   AddedDetails(c.status, c.provider, c.title))), None)
  }

  /** Revoking and archiving differ in the status they set and the event they record. */
  function Remove(rank: Collation, s: State, id: string, to: Status, kind: EventKind, auth: Authorization,
                  confirmation: Confirmation, now: string): Outcome
  {
    var refusal := Authorize(s, auth, false);
    if refusal.Some? then Refuse(s, refusal.value)
    else if !confirmation.confirmed then Refuse(s, NeedsConfirmation)
    else if Find(s.credentials, id).None? then Refuse(s, UnknownCredential)
    else
      var cs := Sort(rank, Replace(s.credentials, id, ToStatus(to)));
      Outcome(s.(credentials := cs, warnings := s.warnings + WarningsFor(cs),
                 audit := Recorded(s.audit, kind, Some(id), None, auth.actor, now,
                                   RemovedDetails(Find(s.credentials, id).value.status, confirmation.reason))), None)
  }

  /** Whether a rotation gets past its checks, so that the new credential is inserted. */
  function RotationRefusal(s: State, retiring: string, c: Credential, auth: Authorization): Option<Refusal> {
    var refusal := Authorize(s, auth, false);
    if refusal.Some? then refusal
    else if Find(s.credentials, retiring).None? then Some(UnknownCredential)
    else if !Holds(s.credentials, retiring, Active) then Some(InactiveOld)
    else if Find(s.credentials, c.id).Some? then Some(AlreadyExists)
    else None
  }

  function Rotate(rank: Collation, s: State, retiring: string, c: Credential, archive: bool, auth: Authorization,
                  confirmation: Confirmation, now: string): Outcome
  {
    var refusal := RotationRefusal(s, retiring, c, auth);
    if refusal.Some? then Refuse(s, refusal.value)
    else
      var added := Sort(rank, s.credentials + [c]);
      if archive && !confirmation.confirmed then Refuse(s.(credentials := added), NeedsConfirmation)
      else
        var cs := if archive then Sort(rank, Replace(added, retiring, ToStatus(Archived))) else added;
        Outcome(s.(credentials := cs, warnings := s.warnings + WarningsFor(cs),
                   audit := Recorded(s.audit, CredentialRotated, Some(retiring), Some(c.id), auth.actor, now,
                                     RotatedDetails(c.status, archive))), None)
  }

  function Rename(rank: Collation, s: State, id: string, title: string, auth: Authorization, now: string): Outcome {
    var refusal := Authorize(s, auth, false);
    if refusal.Some? then Refuse(s, refusal.value)
    else if Find(s.credentials, id).None? then Refuse(s, UnknownCredential)
    else
      Outcome(s.(credentials := Sort(rank, Replace(s.credentials, id, ToTitle(title))),
                 audit := Recorded(s.audit, CredentialRenamed, Some(id), None, auth.actor, now,
                                   RenamedDetails(Find(s.credentials, id).value.title, title))), None)
  }

  function CanAuthorize(s: State, id: string): Option<Refusal> {
    if Find(s.credentials, id).None? then Some(UnknownCredential)
    else if !Holds(s.credentials, id, Active) then Some(CannotAuthorize)
    else None
  }

  function MarkUsed(rank: Collation, s: State, id: string, signCount: Option<int>, usedAt: Option<string>,
                    read: string, now: string): Outcome
  {
    var refusal := CanAuthorize(s, id);
    if refusal.Some? then Refuse(s, refusal.value)
    else
      var at := if usedAt.Some? then usedAt.value else read;
      var previous := Find(s.credentials, id).value.signCount;
      Outcome(s.(credentials := Sort(rank, Replace(s.credentials, id, ToUsed(at, signCount))),
                 audit := Recorded(s.audit, CredentialUsed, Some(id), None, Some(id), now,
                                   UsedDetails(previous, if signCount.Some? then signCount else previous))), None)
  }

  function StartRecovery(s: State, mechanism: string, reason: Option<string>, auth: Authorization,
                         read: string, now: string): Outcome
  {
    if !auth.stronger then Refuse(s, NeedsStrongerAuthentication)
    else if auth.actor.Some? && Find(s.credentials, auth.actor.value).None? then Refuse(s, UnknownCredential)
    else if auth.actor.Some? && !Holds(s.credentials, auth.actor.value, Active)
            && !Holds(s.credentials, auth.actor.value, RecoveryOnly) then Refuse(s, InactiveActor)
    else
      Outcome(s.(policy := s.policy.(state := RecoveryPending,
                                     pending := Some(Request(RecoveryId(mechanism, read), mechanism, reason, read, auth.actor))),
                 audit := Recorded(s.audit, RecoveryStarted, None, None, auth.actor, now, StartedDetails(mechanism, reason))), None)
  }

  function PendingMechanism(p: Policy): Option<string> {
    if p.pending.Some? then Some(p.pending.value.mechanism) else None
  }

  function ApproveRecovery(s: State, auth: Authorization, read: string, now: string): Outcome {
    if !s.policy.state.RecoveryPending? then Refuse(s, NotPending)
    else if !auth.stronger then Refuse(s, NeedsStrongerAuthentication)
    else
      Outcome(s.(policy := s.policy.(state := RecoveryApproved, approvedAt := Some(read)),
                 audit := Recorded(s.audit, RecoveryWasApproved, None, None, auth.actor, now,
                                   RecoveryDetails(PendingMechanism(s.policy)))), None)
  }

  function CompleteRecovery(s: State, finisher: string, auth: Authorization, read: string, now: string): Outcome {
    if !s.policy.state.RecoveryApproved? then Refuse(s, NotApproved)
    else if !auth.stronger then Refuse(s, NeedsStrongerAuthentication)
    else
      var refusal := CanAuthorize(s, finisher);
      if refusal.Some? then Refuse(s, refusal.value)
      else
        Outcome(s.(policy := s.policy.(state := RecoveryCompleted, completedAt := Some(read), completedBy := Some(finisher)),
                   warnings := s.warnings + WarningsFor(s.credentials),
                   audit := Recorded(s.audit, RecoveryWasCompleted, Some(finisher), None, auth.actor, now,
                                     RecoveryDetails(PendingMechanism(s.policy)))), None)
  }

  /** A call with the clock readings it makes: `read` first, `now` for its event. */
  datatype Call =
    | CallAdd(credential: Credential, auth: Authorization, now: string)
    | CallRevoke(id: string, auth: Authorization, confirmation: Confirmation, now: string)
    | CallArchive(id: string, auth: Authorization, confirmation: Confirmation, now: string)
    | CallRotate(retiring: string, credential: Credential, archive: bool, auth: Authorization, confirmation: Confirmation, now: string)
    | CallRename(id: string, title: string, auth: Authorization, now: string)
    | CallMarkUsed(id: string, signCount: Option<int>, usedAt: Option<string>, read: string, now: string)
    | CallStart(mechanism: string, reason: Option<string>, auth: Authorization, read: string, now: string)
    | CallApprove(auth: Authorization, read: string, now: string)
    | CallComplete(id: string, auth: Authorization, read: string, now: string)

  function Apply(rank: Collation, s: State, call: Call): Outcome {
    match call
    case CallAdd(c, auth, now) => Add(rank, s, c, auth, now)
    case CallRevoke(id, auth, conf, now) => Remove(rank, s, id, Revoked, CredentialRevoked, auth, conf, now)
    case CallArchive(id, auth, conf, now) => Remove(rank, s, id, Archived, CredentialArchived, auth, conf, now)
    case CallRotate(retiring, c, archive, auth, conf, now) => Rotate(rank, s, retiring, c, archive, auth, conf, now)
    case CallRename(id, title, auth, now) => Rename(rank, s, id, title, auth, now)
    case CallMarkUsed(id, n, usedAt, read, now) => MarkUsed(rank, s, id, n, usedAt, read, now)
    case CallStart(m, reason, auth, read, now) => StartRecovery(s, m, reason, auth, read, now)
    case CallApprove(auth, read, now) => ApproveRecovery(s, auth, read, now)
    case CallComplete(id, auth, read, now) => CompleteRecovery(s, id, auth, read, now)
  }

  // ---- The object ------------------------------------------------------------------

  class Registry {
    const rank: Collation
    var credentials: seq<Credential>
    var recoveryPolicy: Policy
    var auditTrail: seq<Event>
    var warnings: set<Warning>

    ghost function Snapshot(): State
      reads this
    {
      State(credentials, recoveryPolicy, auditTrail, warnings)
    }

    constructor (collation: Collation, initial: seq<Credential>, policy: Policy, trail: seq<Event>)
      ensures rank == collation
      ensures Snapshot() == State(Sort(collation, initial), policy, trail, {})
      ensures Sorted(rank, credentials) && multiset(credentials) == multiset(initial)
    {
      rank := collation;
      credentials := Sort(collation, initial);
      recoveryPolicy := policy;
      auditTrail := trail;
      warnings := {};
      new;
      SortSorted(collation, initial);
      SortContents(collation, initial);
    }

    method GetSnapshot() returns (s: State)
      ensures s == Snapshot()
    {
      s := State(credentials, recoveryPolicy, auditTrail, warnings);
    }

    method RecordEvent(kind: EventKind, credential: Option<string>, related: Option<string>, actor: Option<string>,
                       now: string, details: Details)
      modifies this`auditTrail
      ensures auditTrail == Recorded(old(auditTrail), kind, credential, related, actor, now, details)
    {
      var id := EventId(kind, TextOr(credential), TextOr(related), now, |auditTrail|);
      auditTrail := auditTrail + [Event(id, kind, credential, related, actor, now, details)];
    }

    /** Counts in one pass and adds a warning per missing safeguard. */
    method RecomputeAntiLockoutWarnings()
      modifies this`warnings
      ensures warnings == old(warnings) + WarningsFor(credentials)
    {
      var active, recovery := 0, 0;
      for i := 0 to |credentials|
        invariant active + CountOf(credentials[i..], Active) == CountOf(credentials, Active)
        invariant recovery + CountOf(credentials[i..], RecoveryOnly) == CountOf(credentials, RecoveryOnly)
      {
        assert credentials[i..][1..] == credentials[i + 1..];
        if credentials[i].status == Active { active := active + 1; }
        if credentials[i].status == RecoveryOnly { recovery := recovery + 1; }
      }
      if active == 0 { warnings := warnings + {NoActiveCredential}; }
      if recovery == 0 && active < 2 { warnings := warnings + {NoRecoveryPath}; }
    }

    method ReplaceCredential(id: string, u: Update)
      modifies this`credentials
      ensures credentials == Sort(rank, Replace(old(credentials), id, u))
    {
      credentials := Sort(rank, Replace(credentials, id, u));
    }

    method AddCredential(c: Credential, auth: Authorization, now: string) returns (r: Option<Refusal>)
      modifies this
      ensures Outcome(Snapshot(), r) == Apply(rank, old(Snapshot()), CallAdd(c, auth, now))
    {
      hide Sort, Replace, Authorize, WarningsFor, Recorded, Find;
      var refusal := Authorize(State(credentials, recoveryPolicy, auditTrail, warnings), auth, true);
      if refusal.Some? { return refusal; }
      if Find(credentials, c.id).Some? { return Some(AlreadyExists); }
      credentials := Sort(rank, credentials + [c]);
      RecomputeAntiLockoutWarnings();
      RecordEvent(CredentialAdded, Some(c.id), None, auth.actor, now, AddedDetails(c.status, c.provider, c.title));
      return None;
    }

    method RevokeCredential(id: string, auth: Authorization, confirmation: Confirmation, now: string) returns (r: Option<Refusal>)
      modifies this
      ensures Outcome(Snapshot(), r) == Apply(rank, old(Snapshot()), CallRevoke(id, auth, confirmation, now))
    {
      hide Sort, Replace, Authorize, WarningsFor, Recorded, Find;
      var refusal := Authorize(State(credentials, recoveryPolicy, auditTrail, warnings), auth, false);
      if refusal.Some? { return refusal; }
      if !confirmation.confirmed { return Some(NeedsConfirmation); }
      var known := Find(credentials, id);
      if known.None? { return Some(UnknownCredential); }
      ReplaceCredential(id, ToStatus(Revoked));
      RecomputeAntiLockoutWarnings();
      RecordEvent(CredentialRevoked, Some(id), None, auth.actor, now, RemovedDetails(known.value.status, confirmation.reason));
      return None;
    }

    method ArchiveCredential(id: string, auth: Authorization, confirmation: Confirmation, now: string) returns (r: Option<Refusal>)
      modifies this
      ensures Outcome(Snapshot(), r) == Apply(rank, old(Snapshot()), CallArchive(id, auth, confirmation, now))
    {
      hide Sort, Replace, Authorize, WarningsFor, Recorded, Find;
      var refusal := Authorize(State(credentials, recoveryPolicy, auditTrail, warnings), auth, false);
      if refusal.Some? { return refusal; }
      if !confirmation.confirmed { return Some(NeedsConfirmation); }
      var known := Find(credentials, id);
      if known.None? { return Some(UnknownCredential); }
      ReplaceCredential(id, ToStatus(Archived));
      RecomputeAntiLockoutWarnings();
      RecordEvent(CredentialArchived, Some(id), None, auth.actor, now, RemovedDetails(known.value.status, confirmation.reason));
      return None;
    }

    method RotateCredential(retiring: string, c: Credential, archive: bool, auth: Authorization, confirmation: Confirmation, now: string)
      returns (r: Option<Refusal>)
      modifies this
      ensures Outcome(Snapshot(), r) == Apply(rank, old(Snapshot()), CallRotate(retiring, c, archive, auth, confirmation, now))
    {
      hide Sort, Replace, Authorize, WarningsFor, Recorded, Find;
      var refusal := Authorize(State(credentials, recoveryPolicy, auditTrail, warnings), auth, false);
      if refusal.Some? { return refusal; }
      var known := Find(credentials, retiring);
      if known.None? { return Some(UnknownCredential); }
      if known.value.status != Active { return Some(InactiveOld); }
      if Find(credentials, c.id).Some? { return Some(AlreadyExists); }
      credentials := Sort(rank, credentials + [c]);
      if archive {
        if !confirmation.confirmed { return Some(NeedsConfirmation); }
        ReplaceCredential(retiring, ToStatus(Archived));
      }
      RecomputeAntiLockoutWarnings();
      RecordEvent(CredentialRotated, Some(retiring), Some(c.id), auth.actor, now, RotatedDetails(c.status, archive));
      return None;
    }

    method RenameCredential(id: string, title: string, auth: Authorization, now: string) returns (r: Option<Refusal>)
      modifies this
      ensures Outcome(Snapshot(), r) == Apply(rank, old(Snapshot()), CallRename(id, title, auth, now))
    {
      hide Sort, Replace, Authorize, WarningsFor, Recorded, Find;
      var refusal := Authorize(State(credentials, recoveryPolicy, auditTrail, warnings), auth, false);
      if refusal.Some? { return refusal; }
      var known := Find(credentials, id);
      if known.None? { return Some(UnknownCredential); }
      ReplaceCredential(id, ToTitle(title));
      RecordEvent(CredentialRenamed, Some(id), None, auth.actor, now, RenamedDetails(known.value.title, title));
      return None;
    }

    method MarkCredentialUsed(id: string, signCount: Option<int>, usedAt: Option<string>, read: string, now: string)
      returns (r: Option<Refusal>)
      modifies this
      ensures Outcome(Snapshot(), r) == Apply(rank, old(Snapshot()), CallMarkUsed(id, signCount, usedAt, read, now))
    {
      hide Sort, Replace, Authorize, WarningsFor, Recorded, Find;
      var known := Find(credentials, id);
      if known.None? { return Some(UnknownCredential); }
      if known.value.status != Active { return Some(CannotAuthorize); }
      ReplaceCredential(id, ToUsed(if usedAt.Some? then usedAt.value else read, signCount));
      var previous := known.value.signCount;
      RecordEvent(CredentialUsed, Some(id), None, Some(id), now,
                  UsedDetails(previous, if signCount.Some? then signCount else previous));
      return None;
    }

    method BeginRecovery(mechanism: string, reason: Option<string>, auth: Authorization, read: string, now: string)
      returns (r: Option<Refusal>)
      modifies this
      ensures Outcome(Snapshot(), r) == Apply(rank, old(Snapshot()), CallStart(mechanism, reason, auth, read, now))
    {
      hide Sort, Replace, Authorize, WarningsFor, Recorded, Find;
      if !auth.stronger { return Some(NeedsStrongerAuthentication); }
      if auth.actor.Some? {
        var actor := Find(credentials, auth.actor.value);
        if actor.None? { return Some(UnknownCredential); }
        if actor.value.status != Active && actor.value.status != RecoveryOnly { return Some(InactiveActor); }
      }
      recoveryPolicy := recoveryPolicy.(state := RecoveryPending,
                                        pending := Some(Request(RecoveryId(mechanism, read), mechanism, reason, read, auth.actor)));
      RecordEvent(RecoveryStarted, None, None, auth.actor, now, StartedDetails(mechanism, reason));
      return None;
    }

    method AllowRecovery(auth: Authorization, read: string, now: string) returns (r: Option<Refusal>)
      modifies this
      ensures Outcome(Snapshot(), r) == Apply(rank, old(Snapshot()), CallApprove(auth, read, now))
    {
      hide Sort, Replace, Authorize, WarningsFor, Recorded, Find;
      if recoveryPolicy.state != RecoveryPending { return Some(NotPending); }
      if !auth.stronger { return Some(NeedsStrongerAuthentication); }
      recoveryPolicy := recoveryPolicy.(state := RecoveryApproved, approvedAt := Some(read));
      RecordEvent(RecoveryWasApproved, None, None, auth.actor, now, RecoveryDetails(PendingMechanism(recoveryPolicy)));
      return None;
    }

    method FinishRecovery(finisher: string, auth: Authorization, read: string, now: string) returns (r: Option<Refusal>)
      modifies this
      ensures Outcome(Snapshot(), r) == Apply(rank, old(Snapshot()), CallComplete(finisher, auth, read, now))
    {
      hide Sort, Replace, Authorize, WarningsFor, Recorded, Find;
      if recoveryPolicy.state != RecoveryApproved { return Some(NotApproved); }
      if !auth.stronger { return Some(NeedsStrongerAuthentication); }
      var known := Find(credentials, finisher);
      if known.None? { return Some(UnknownCredential); }
      if known.value.status != Active { return Some(CannotAuthorize); }
      recoveryPolicy := recoveryPolicy.(state := RecoveryCompleted, completedAt := Some(read), completedBy := Some(finisher));
      RecomputeAntiLockoutWarnings();
      RecordEvent(RecoveryWasCompleted, Some(finisher), None, auth.actor, now, RecoveryDetails(PendingMechanism(recoveryPolicy)));
      return None;
    }
  }
}
