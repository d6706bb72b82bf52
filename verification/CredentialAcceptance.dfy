/**
 * When the registry accepts each of its nine calls, why it refuses the others, and what an accepted call
 * does to the policy, the trail and the warnings: conditions on the state and the call alone.
 */
module CredentialAcceptance {
  import opened Wrappers
  import opened CredentialList
  import opened CredentialRegistry

  // ---- Records by identifier -------------------------------------------------------

  ghost predicate Known(cs: seq<Credential>, id: string) {
    exists k :: 0 <= k < |cs| && cs[k].id == id
  }

  ghost predicate First(cs: seq<Credential>, id: string, k: int) {
    0 <= k < |cs| && cs[k].id == id && forall j :: 0 <= j < k ==> cs[j].id != id
  }

  /** The first record under the identifier has the status. */
  ghost predicate Has(cs: seq<Credential>, id: string, status: Status) {
    exists k :: First(cs, id, k) && cs[k].status == status
  }

  lemma {:induction false} FindsFirst(cs: seq<Credential>, id: string)
    ensures Find(cs, id).Some? <==> Known(cs, id)
    ensures forall k :: First(cs, id, k) ==> Find(cs, id) == Some(cs[k])
    ensures Known(cs, id) ==> exists k :: First(cs, id, k)
  {
    if cs != [] {
      if cs[0].id == id {
        assert First(cs, id, 0);
      } else {
        FindsFirst(cs[1..], id);
        forall k | First(cs, id, k) ensures Find(cs, id) == Some(cs[k]) {
          assert First(cs[1..], id, k - 1);
        }
        if Known(cs, id) {
          var k :| 0 <= k < |cs| && cs[k].id == id;
          assert cs[1..][k - 1].id == id;
          var m :| First(cs[1..], id, m);
          assert First(cs, id, m + 1) by {
            assert forall j :: 0 < j < m + 1 ==> cs[j] == cs[1..][j - 1];
          }
        }
      }
    }
  }

  lemma HoldsIsHas(cs: seq<Credential>, id: string)
    ensures forall status :: Holds(cs, id, status) <==> Has(cs, id, status)
    ensures Find(cs, id).Some? <==> Known(cs, id)
    ensures forall k :: First(cs, id, k) ==> Find(cs, id) == Some(cs[k])
  {
    FindsFirst(cs, id);
    hide Find;
    if Known(cs, id) { var k :| First(cs, id, k); }
  }

  // ---- Acceptance ------------------------------------------------------------------

  /** An approved recovery that is invoked, an empty registry that gets its first record, or an active actor. */
  ghost predicate Authorized(s: State, auth: Authorization, adding: bool) {
    (auth.recoveryApproved && s.policy.state == RecoveryApproved)
    || (adding && |s.credentials| == 0)
    || (auth.actor.Some? && Has(s.credentials, auth.actor.value, Active))
  }

  ghost predicate Permitted(s: State, call: Call) {
    match call
    case CallAdd(c, auth, _) => Authorized(s, auth, true) && !Known(s.credentials, c.id)
    case CallRevoke(id, auth, confirmation, _) =>
      Authorized(s, auth, false) && confirmation.confirmed && Known(s.credentials, id)
    case CallArchive(id, auth, confirmation, _) =>
      Authorized(s, auth, false) && confirmation.confirmed && Known(s.credentials, id)
    case CallRotate(retiring, c, archive, auth, confirmation, _) =>
      Authorized(s, auth, false) && Has(s.credentials, retiring, Active) && !Known(s.credentials, c.id)
      && (archive ==> confirmation.confirmed)
    case CallRename(id, _, auth, _) => Authorized(s, auth, false) && Known(s.credentials, id)
    case CallMarkUsed(id, _, _, _, _) => Has(s.credentials, id, Active)
    case CallStart(_, _, auth, _, _) =>
      auth.stronger
      && (auth.actor.Some? ==>
            Has(s.credentials, auth.actor.value, Active) || Has(s.credentials, auth.actor.value, RecoveryOnly))
    case CallApprove(auth, _, _) => s.policy.state == RecoveryPending && auth.stronger
    case CallComplete(id, auth, _, _) =>
      s.policy.state == RecoveryApproved && auth.stronger && Has(s.credentials, id, Active)
  }

  lemma AuthorizeExactly(s: State, auth: Authorization, adding: bool)
    ensures Authorize(s, auth, adding).None? <==> Authorized(s, auth, adding)
    ensures !Authorized(s, auth, adding) ==> Authorize(s, auth, adding) == Some(Unauthorized(s, auth))
  {
    hide Find, Holds, Has, Known;
    if auth.actor.Some? {
      HoldsIsHas(s.credentials, auth.actor.value);
      KnownFirst(s.credentials, auth.actor.value);
    }
  }

  /** Why a caller that is not authorized is turned away. */
  ghost function Unauthorized(s: State, auth: Authorization): Refusal {
    if auth.actor.None? then NeedsAuthorization
    else if !Known(s.credentials, auth.actor.value) then UnknownCredential
    else InactiveActor
  }

  /** A call is accepted exactly when it is permitted. */
  lemma AcceptedExactly(rank: Collation, s: State, call: Call)
    ensures Apply(rank, s, call).refusal.None? <==> Permitted(s, call)
  {
    hide Find, Holds, Has, Known, Authorize, Authorized, Sort, Replace, WarningsFor, Recorded;
    match call {
      case CallAdd(c, auth, _) =>
        AuthorizeExactly(s, auth, true);
        HoldsIsHas(s.credentials, c.id);
      case CallRevoke(id, auth, _, _) =>
        AuthorizeExactly(s, auth, false);
        HoldsIsHas(s.credentials, id);
      case CallArchive(id, auth, _, _) =>
        AuthorizeExactly(s, auth, false);
        HoldsIsHas(s.credentials, id);
      case CallRotate(retiring, c, _, auth, _, _) =>
        AuthorizeExactly(s, auth, false);
        HoldsIsHas(s.credentials, retiring);
        HoldsIsHas(s.credentials, c.id);
        KnownFirst(s.credentials, retiring);
      case CallRename(id, _, auth, _) =>
        AuthorizeExactly(s, auth, false);
        HoldsIsHas(s.credentials, id);
      case CallMarkUsed(id, _, _, _, _) =>
        HoldsIsHas(s.credentials, id);
        KnownFirst(s.credentials, id);
      case CallStart(_, _, auth, _, _) =>
        if auth.actor.Some? {
          HoldsIsHas(s.credentials, auth.actor.value);
          KnownFirst(s.credentials, auth.actor.value);
        }
      case CallApprove(_, _, _) =>
      case CallComplete(id, _, _, _) =>
        HoldsIsHas(s.credentials, id);
        KnownFirst(s.credentials, id);
    }
  }

  lemma KnownFirst(cs: seq<Credential>, id: string)
    ensures forall status :: Has(cs, id, status) ==> Known(cs, id)
  {
  }

  /** The first condition that a refused call fails, in the order of the checks. */
  ghost function Reason(s: State, call: Call): Refusal {
    match call
    case CallAdd(c, auth, _) => if !Authorized(s, auth, true) then Unauthorized(s, auth) else AlreadyExists
    case CallRevoke(id, auth, confirmation, _) =>
      if !Authorized(s, auth, false) then Unauthorized(s, auth)
      else if !confirmation.confirmed then NeedsConfirmation else UnknownCredential
    case CallArchive(id, auth, confirmation, _) =>
      if !Authorized(s, auth, false) then Unauthorized(s, auth)
      else if !confirmation.confirmed then NeedsConfirmation else UnknownCredential
    case CallRotate(retiring, c, _, auth, _, _) =>
      if !Authorized(s, auth, false) then Unauthorized(s, auth)
      else if !Known(s.credentials, retiring) then UnknownCredential
      else if !Has(s.credentials, retiring, Active) then InactiveOld
      else if Known(s.credentials, c.id) then AlreadyExists
      else NeedsConfirmation
    case CallRename(_, _, auth, _) => if !Authorized(s, auth, false) then Unauthorized(s, auth) else UnknownCredential
    case CallMarkUsed(id, _, _, _, _) => if !Known(s.credentials, id) then UnknownCredential else CannotAuthorize
    case CallStart(_, _, auth, _, _) =>
      if !auth.stronger then NeedsStrongerAuthentication
      else if auth.actor.Some? && !Known(s.credentials, auth.actor.value) then UnknownCredential
      else InactiveActor
    case CallApprove(auth, _, _) => if s.policy.state != RecoveryPending then NotPending else NeedsStrongerAuthentication
    case CallComplete(id, auth, _, _) =>
      if s.policy.state != RecoveryApproved then NotApproved
      else if !auth.stronger then NeedsStrongerAuthentication
      else if !Known(s.credentials, id) then UnknownCredential
      else CannotAuthorize
  }

  lemma RefusedExactly(rank: Collation, s: State, call: Call)
    requires !Permitted(s, call)
    ensures Apply(rank, s, call).refusal == Some(Reason(s, call))
  {
    hide Find, Holds, Has, Known, Authorize, Authorized, Unauthorized, Sort, Replace, WarningsFor, Recorded;
    match call {
      case CallAdd(c, auth, _) =>
        AuthorizeExactly(s, auth, true);
        HoldsIsHas(s.credentials, c.id);
      case CallRevoke(id, auth, _, _) =>
        AuthorizeExactly(s, auth, false);
        HoldsIsHas(s.credentials, id);
      case CallArchive(id, auth, _, _) =>
        AuthorizeExactly(s, auth, false);
        HoldsIsHas(s.credentials, id);
      case CallRotate(retiring, c, _, auth, _, _) =>
        AuthorizeExactly(s, auth, false);
        HoldsIsHas(s.credentials, retiring);
        HoldsIsHas(s.credentials, c.id);
      case CallRename(id, _, auth, _) =>
        AuthorizeExactly(s, auth, false);
        HoldsIsHas(s.credentials, id);
      case CallMarkUsed(id, _, _, _, _) => HoldsIsHas(s.credentials, id);
      case CallStart(_, _, auth, _, _) =>
        if auth.actor.Some? { HoldsIsHas(s.credentials, auth.actor.value); }
      case CallApprove(_, _, _) =>
      case CallComplete(id, _, _, _) => HoldsIsHas(s.credentials, id);
    }
  }

  // ---- Effects of an accepted call -----------------------------------------------------

  /** The policy after an accepted call: three calls move it, and each sets these fields alone. */
  lemma PolicyExactly(rank: Collation, s: State, call: Call)
    requires Permitted(s, call)
    ensures var p, q := s.policy, Apply(rank, s, call).state.policy;
      match call
      case CallStart(mechanism, reason, auth, read, _) =>
        q == Policy(RecoveryPending, p.mechanisms, Some(Request(RecoveryId(mechanism, read), mechanism, reason, read, auth.actor)),
                    p.approvedAt, p.completedAt, p.completedBy)
      case CallApprove(_, read, _) =>
        q == Policy(RecoveryApproved, p.mechanisms, p.pending, Some(read), p.completedAt, p.completedBy)
      case CallComplete(id, _, read, _) =>
        q == Policy(RecoveryCompleted, p.mechanisms, p.pending, p.approvedAt, Some(read), Some(id))
      case _ => q == p
  {
    hide Find, Holds, Has, Known, Authorize, Authorized, Sort, Replace, WarningsFor, Recorded, Permitted;
    AcceptedExactly(rank, s, call);
  }

  /** The event of an accepted call: kind, the credentials it is about, the actor and the details. */
  ghost predicate Describes(s: State, call: Call, e: Event) {
    match call
    case CallAdd(c, auth, now) =>
      e.kind == CredentialAdded && e.credential == Some(c.id) && e.related == None && e.actor == auth.actor
      && e.occurredAt == now && e.details == AddedDetails(c.status, c.provider, c.title)
    case CallRevoke(id, auth, confirmation, now) =>
      e.kind == CredentialRevoked && e.credential == Some(id) && e.related == None && e.actor == auth.actor
      && e.occurredAt == now
      && exists k :: First(s.credentials, id, k) && e.details == RemovedDetails(s.credentials[k].status, confirmation.reason)
    case CallArchive(id, auth, confirmation, now) =>
      e.kind == CredentialArchived && e.credential == Some(id) && e.related == None && e.actor == auth.actor
      && e.occurredAt == now
      && exists k :: First(s.credentials, id, k) && e.details == RemovedDetails(s.credentials[k].status, confirmation.reason)
    case CallRotate(retiring, c, archive, auth, _, now) =>
      e.kind == CredentialRotated && e.credential == Some(retiring) && e.related == Some(c.id) && e.actor == auth.actor
      && e.occurredAt == now && e.details == RotatedDetails(c.status, archive)
    case CallRename(id, title, auth, now) =>
      e.kind == CredentialRenamed && e.credential == Some(id) && e.related == None && e.actor == auth.actor
      && e.occurredAt == now
      && exists k :: First(s.credentials, id, k) && e.details == RenamedDetails(s.credentials[k].title, title)
    case CallMarkUsed(id, signCount, _, _, now) =>
      e.kind == CredentialUsed && e.credential == Some(id) && e.related == None && e.actor == Some(id)
      && e.occurredAt == now
      && exists k :: First(s.credentials, id, k)
           && e.details == UsedDetails(s.credentials[k].signCount, if signCount.Some? then signCount else s.credentials[k].signCount)
    case CallStart(mechanism, reason, auth, _, now) =>
      e.kind == RecoveryStarted && e.credential == None && e.related == None && e.actor == auth.actor
      && e.occurredAt == now && e.details == StartedDetails(mechanism, reason)
    case CallApprove(auth, _, now) =>
      e.kind == RecoveryWasApproved && e.credential == None && e.related == None && e.actor == auth.actor
      && e.occurredAt == now && e.details.RecoveryDetails?
      && (s.policy.pending.Some? ==> e.details.pendingMechanism == Some(s.policy.pending.value.mechanism))
      && (s.policy.pending.None? ==> e.details.pendingMechanism == None)
    case CallComplete(id, auth, _, now) =>
      e.kind == RecoveryWasCompleted && e.credential == Some(id) && e.related == None && e.actor == auth.actor
      && e.occurredAt == now && e.details.RecoveryDetails?
      && (s.policy.pending.Some? ==> e.details.pendingMechanism == Some(s.policy.pending.value.mechanism))
      && (s.policy.pending.None? ==> e.details.pendingMechanism == None)
  }

  /** The identifier of an event is derived from what it names, when it happened and its place in the trail. */
  ghost predicate Numbered(trail: seq<Event>, e: Event) {
    e.id.kind == e.kind && e.id.occurredAt == e.occurredAt && e.id.sequence == |trail|
    && e.id.credential == (if e.credential.Some? then e.credential.value else "")
    && e.id.related == (if e.related.Some? then e.related.value else "")
  }

  ghost predicate Recording(rank: Collation, s: State, call: Call) {
    exists e: Event ::
      Apply(rank, s, call).state.audit == s.audit + [e] && Numbered(s.audit, e) && Describes(s, call, e)
  }

  /** An accepted call records one event, and it describes the call. */
  lemma EventExactly(rank: Collation, s: State, call: Call)
    requires Permitted(s, call)
    ensures exists e: Event ::
      Apply(rank, s, call).state.audit == s.audit + [e] && Numbered(s.audit, e) && Describes(s, call, e)
  {
    hide Permitted, Apply, Describes, Numbered;
    AcceptedExactly(rank, s, call);
    if call.CallRevoke? || call.CallArchive? || call.CallRename? || call.CallMarkUsed? {
      EventOfChange(rank, s, call);
    } else {
      EventOfOther(rank, s, call);
    }
  }

  lemma EventOfChange(rank: Collation, s: State, call: Call)
    requires Apply(rank, s, call).refusal.None?
    requires call.CallRevoke? || call.CallArchive? || call.CallRename? || call.CallMarkUsed?
    ensures Recording(rank, s, call)
  {
    hide Holds, Authorize, Sort, Replace, WarningsFor, Find, Numbered, Recorded;
    FindsFirst(s.credentials, call.id);
    var k :| First(s.credentials, call.id, k);
    hide First, Known;
    var c := s.credentials[k];
    match call {
      case CallRevoke(id, auth, confirmation, now) =>
        Appended(s.audit, CredentialRevoked, Some(id), None, auth.actor, now, RemovedDetails(c.status, confirmation.reason));
      case CallArchive(id, auth, confirmation, now) =>
        Appended(s.audit, CredentialArchived, Some(id), None, auth.actor, now, RemovedDetails(c.status, confirmation.reason));
      case CallRename(id, title, auth, now) =>
        Appended(s.audit, CredentialRenamed, Some(id), None, auth.actor, now, RenamedDetails(c.title, title));
      case CallMarkUsed(id, signCount, _, _, now) =>
        Appended(s.audit, CredentialUsed, Some(id), None, Some(id), now,
                 UsedDetails(c.signCount, if signCount.Some? then signCount else c.signCount));
      case _ =>
    }
  }

  lemma EventOfOther(rank: Collation, s: State, call: Call)
    requires Apply(rank, s, call).refusal.None?
    requires !call.CallRevoke? && !call.CallArchive? && !call.CallRename? && !call.CallMarkUsed?
    ensures Recording(rank, s, call)
  {
    hide Holds, Authorize, Sort, Replace, WarningsFor, Find, Numbered, Recorded;
    match call {
      case CallAdd(c, auth, now) =>
        Appended(s.audit, CredentialAdded, Some(c.id), None, auth.actor, now, AddedDetails(c.status, c.provider, c.title));
      case CallRotate(retiring, c, archive, auth, _, now) =>
        Appended(s.audit, CredentialRotated, Some(retiring), Some(c.id), auth.actor, now, RotatedDetails(c.status, archive));
      case CallStart(mechanism, reason, auth, _, now) =>
        Appended(s.audit, RecoveryStarted, None, None, auth.actor, now, StartedDetails(mechanism, reason));
      case CallApprove(auth, _, now) =>
        Appended(s.audit, RecoveryWasApproved, None, None, auth.actor, now, RecoveryDetails(PendingMechanism(s.policy)));
      case CallComplete(id, auth, _, now) =>
        Appended(s.audit, RecoveryWasCompleted, Some(id), None, auth.actor, now, RecoveryDetails(PendingMechanism(s.policy)));
      case _ =>
    }
  }

  lemma Appended(trail: seq<Event>, kind: EventKind, credential: Option<string>, related: Option<string>,
                 actor: Option<string>, now: string, details: Details)
    ensures exists e: Event ::
      && Recorded(trail, kind, credential, related, actor, now, details) == trail + [e] && Numbered(trail, e)
      && e.kind == kind && e.credential == credential && e.related == related && e.actor == actor && e.occurredAt == now
      && e.details == details
  {
    var r := Recorded(trail, kind, credential, related, actor, now, details);
    assert r == trail + [r[|trail|]];
  }

  // ---- Warnings ------------------------------------------------------------------------

  ghost predicate NoneWith(cs: seq<Credential>, status: Status) {
    forall k :: 0 <= k < |cs| ==> cs[k].status != status
  }

  ghost predicate TwoWith(cs: seq<Credential>, status: Status) {
    exists i, j :: 0 <= i < j < |cs| && cs[i].status == status && cs[j].status == status
  }

  lemma NoneTail(cs: seq<Credential>, status: Status)
    requires cs != []
    ensures NoneWith(cs, status) <==> cs[0].status != status && NoneWith(cs[1..], status)
  {
    if cs[0].status != status && NoneWith(cs[1..], status) {
      forall k | 0 <= k < |cs| ensures cs[k].status != status {
        if k > 0 { assert cs[k] == cs[1..][k - 1]; }
      }
    }
  }

  lemma TwoTail(cs: seq<Credential>, status: Status)
    requires cs != []
    ensures TwoWith(cs, status)
       <==> TwoWith(cs[1..], status) || (cs[0].status == status && !NoneWith(cs[1..], status))
  {
    var tail := cs[1..];
    if i, j :| 0 <= i < j < |cs| && cs[i].status == status && cs[j].status == status {
      assert tail[j - 1].status == status;
      if i > 0 { assert tail[i - 1].status == status; }
    }
    if i, j :| 0 <= i < j < |tail| && tail[i].status == status && tail[j].status == status {
      assert cs[i + 1].status == status && cs[j + 1].status == status;
    }
    if cs[0].status == status && !NoneWith(tail, status) {
      var k :| 0 <= k < |tail| && tail[k].status == status;
      assert cs[k + 1].status == status;
    }
  }

  lemma {:induction false} CountMeaning(cs: seq<Credential>, status: Status)
    ensures CountOf(cs, status) == 0 <==> NoneWith(cs, status)
    ensures CountOf(cs, status) >= 2 <==> TwoWith(cs, status)
  {
    if cs != [] {
      hide NoneWith, TwoWith;
      CountMeaning(cs[1..], status);
      NoneTail(cs, status);
      TwoTail(cs, status);
    }
  }

  /** The warnings after an accepted call: those before, and what holds of the records now where the call looks. */
  lemma WarningsExactly(rank: Collation, s: State, call: Call)
    requires Permitted(s, call)
    ensures var t := Apply(rank, s, call).state;
      var looks := call.CallAdd? || call.CallRevoke? || call.CallArchive? || call.CallRotate? || call.CallComplete?;
      && (NoActiveCredential in t.warnings
          <==> NoActiveCredential in s.warnings || (looks && NoneWith(t.credentials, Active)))
      && (NoRecoveryPath in t.warnings
          <==> NoRecoveryPath in s.warnings
               || (looks && NoneWith(t.credentials, RecoveryOnly) && !TwoWith(t.credentials, Active)))
  {
    hide Holds, Has, Known, Authorize, Authorized, Sort, Replace, Permitted, Find, CountOf, NoneWith, TwoWith, Recorded;
    AcceptedExactly(rank, s, call);
    var cs := Apply(rank, s, call).state.credentials;
    CountMeaning(cs, Active);
    CountMeaning(cs, RecoveryOnly);
  }

  /** The order of the list: priority first, creation time among equals, the identifier last. */
  lemma OrderExactly(rank: Collation, a: Credential, b: Credential)
    ensures NotAfter(rank, a, b)
       <==> && a.priority <= b.priority
            && (a.priority == b.priority ==> rank(a.createdAt) <= rank(b.createdAt))
            && (a.priority == b.priority && rank(a.createdAt) == rank(b.createdAt) ==> rank(a.id) <= rank(b.id))
  {
  }
}
