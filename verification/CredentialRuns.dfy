/**
 * What holds over every run of registry calls: the list refines a map from identifiers to
 * records, records are never lost and never come back to life, a throwing call changes
 * nothing but for one exception, and every change of authority has a source.
 */
module CredentialRuns {
  import opened Wrappers
  import opened CredentialList
  import opened CredentialRegistry

  predicate Accepted(rank: Collation, s: State, call: Call) {
    Apply(rank, s, call).refusal.None?
  }

  /** A rotation that archives without confirmation, but passes the checks made before. */
  predicate HalfRotation(s: State, call: Call) {
    call.CallRotate? && call.archive && !call.confirmation.confirmed
    && RotationRefusal(s, call.retiring, call.credential, call.auth).None?
  }

  // ---- One call ----------------------------------------------------------------

  function WithStatus(r: Option<Credential>, s: Status): Option<Credential> {
    if r.Some? then Some(r.value.(status := s)) else None
  }

  function WithTitle(r: Option<Credential>, t: string): Option<Credential> {
    if r.Some? then Some(r.value.(title := t)) else None
  }

  function WithUse(r: Option<Credential>, at: string, n: Option<int>): Option<Credential> {
    if r.Some? then Some(r.value.(lastUsedAt := Some(at), signCount := if n.Some? then n else r.value.signCount)) else None
  }

  /** The record under id after an effective call, without the list. */
  function Meant(call: Call, id: string, before: Option<Credential>): Option<Credential> {
    match call
    case CallAdd(c, _, _) => if id == c.id then Some(c) else before
    case CallRevoke(x, _, _, _) => if id == x then WithStatus(before, Revoked) else before
    case CallArchive(x, _, _, _) => if id == x then WithStatus(before, Archived) else before
    case CallRotate(x, c, archive, _, confirmation, _) =>
      if id == c.id then Some(c)
      else if archive && confirmation.confirmed && id == x then WithStatus(before, Archived)
      else before
    case CallRename(x, title, _, _) => if id == x then WithTitle(before, title) else before
    case CallMarkUsed(x, n, usedAt, read, _) =>
      if id == x then WithUse(before, if usedAt.Some? then usedAt.value else read, n) else before
    case _ => before
  }

  lemma AddedList(rank: Collation, cs: seq<Credential>, c: Credential)
    requires Distinct(cs) && Find(cs, c.id).None?
    ensures var r := Sort(rank, cs + [c]);
      Distinct(r) && Sorted(rank, r) && forall id :: Find(r, id) == if id == c.id then Some(c) else Find(cs, id)
  {
    DistinctAppend(cs, c);
    SortKeeps(rank, cs + [c]);
    SortSorted(rank, cs + [c]);
    forall id ensures Find(Sort(rank, cs + [c]), id) == if id == c.id then Some(c) else Find(cs, id) {
      FindAppend(cs, c, id);
    }
  }

  lemma ReplacedList(rank: Collation, cs: seq<Credential>, x: string, u: Update)
    requires Distinct(cs)
    ensures var r := Sort(rank, Replace(cs, x, u));
      Distinct(r) && Sorted(rank, r)
      && forall id :: Find(r, id) == if id == x && Find(cs, id).Some? then Some(Updated(Find(cs, id).value, u)) else Find(cs, id)
  {
    hide Find, Updated, Replace, Sort, Distinct, Sorted;
    DistinctReplace(cs, x, u);
    SortKeeps(rank, Replace(cs, x, u));
    SortSorted(rank, Replace(cs, x, u));
    forall id ensures Find(Sort(rank, Replace(cs, x, u)), id)
                   == if id == x && Find(cs, id).Some? then Some(Updated(Find(cs, id).value, u)) else Find(cs, id) {
      FindReplace(cs, x, u, id);
    }
  }

  /** Each call does to the records what it is meant to, and keeps the list in order. */
  lemma StepMeaning(rank: Collation, s: State, call: Call)
    requires Distinct(s.credentials)
    ensures var t := Apply(rank, s, call).state;
      Distinct(t.credentials) && (Sorted(rank, s.credentials) ==> Sorted(rank, t.credentials))
      && forall id :: Find(t.credentials, id)
                      == if Accepted(rank, s, call) || HalfRotation(s, call) then Meant(call, id, Find(s.credentials, id))
                         else Find(s.credentials, id)
  {
    hide Sort, Replace, Find, Authorize, WarningsFor, Recorded, Distinct, Sorted, Holds;
    var cs := s.credentials;
    if Accepted(rank, s, call) || HalfRotation(s, call) {
      match call {
        case CallAdd(c, _, _) => AddedList(rank, cs, c);
        case CallRevoke(x, _, _, _) => ReplacedList(rank, cs, x, ToStatus(Revoked));
        case CallArchive(x, _, _, _) => ReplacedList(rank, cs, x, ToStatus(Archived));
        case CallRotate(x, c, archive, _, _, _) =>
          AddedList(rank, cs, c);
          if archive { ReplacedList(rank, Sort(rank, cs + [c]), x, ToStatus(Archived)); }
        case CallRename(x, title, _, _) => ReplacedList(rank, cs, x, ToTitle(title));
        case CallMarkUsed(x, n, usedAt, read, _) =>
          ReplacedList(rank, cs, x, ToUsed(if usedAt.Some? then usedAt.value else read, n));
        case _ =>
      }
    }
  }

  /** A throwing call leaves the state as it was, except the unconfirmed archiving rotation:
      that one has inserted the new credential, and done nothing else. */
  lemma ThrowExactly(rank: Collation, s: State, call: Call)
    requires Apply(rank, s, call).refusal.Some?
    ensures Apply(rank, s, call).state != s <==> HalfRotation(s, call)
    ensures HalfRotation(s, call) ==>
      Apply(rank, s, call) == Outcome(s.(credentials := Sort(rank, s.credentials + [call.credential])), Some(NeedsConfirmation))
  {
    hide Sort, Replace, Find, Authorize, WarningsFor, Recorded;
    if HalfRotation(s, call) {
      assert |Sort(rank, s.credentials + [call.credential])| == |s.credentials| + 1;
    }
  }

  /** Accepted calls record one event, numbered by its position; the others none. */
  lemma StepAudit(rank: Collation, s: State, call: Call)
    ensures var t := Apply(rank, s, call).state;
      s.warnings <= t.warnings && t.policy.mechanisms == s.policy.mechanisms
      && if Accepted(rank, s, call)
         then |t.audit| == |s.audit| + 1 && s.audit <= t.audit && t.audit[|s.audit|].id.sequence == |s.audit|
         else t.audit == s.audit
  {
    hide Sort, Replace, Find, Authorize, WarningsFor, Holds;
  }

  // ---- Runs --------------------------------------------------------------------

  function Run(rank: Collation, s: State, calls: seq<Call>): State {
    if calls == [] then s
    else Apply(rank, Run(rank, s, calls[..|calls| - 1]), calls[|calls| - 1]).state
  }

  function Acceptances(rank: Collation, s: State, calls: seq<Call>): nat {
    if calls == [] then 0
    else
      var init := calls[..|calls| - 1];
      Acceptances(rank, s, init) + if Accepted(rank, Run(rank, s, init), calls[|calls| - 1]) then 1 else 0
  }

  /** A record later in a run: still there, the same credential, and dead if it was. */
  predicate Later(before: Option<Credential>, after: Option<Credential>) {
    before.Some? ==>
      after.Some?
      && after.value.id == before.value.id && after.value.provider == before.value.provider
      && after.value.priority == before.value.priority && after.value.createdAt == before.value.createdAt
      && after.value.fixed == before.value.fixed
      && (after.value.status == Active ==> before.value.status == Active)
  }

  lemma StepLater(rank: Collation, s: State, call: Call, id: string)
    requires Distinct(s.credentials)
    ensures Later(Find(s.credentials, id), Find(Apply(rank, s, call).state.credentials, id))
  {
    hide Sort, Replace, Find, WarningsFor, Recorded, Distinct, Sorted;
    StepMeaning(rank, s, call);
  }

  /** Identifiers stay distinct and are never removed, a credential that is not active never
      becomes active, the list stays sorted, and nothing else about a record changes. */
  lemma {:induction false} RunKeepsCredentials(rank: Collation, s: State, calls: seq<Call>)
    requires Distinct(s.credentials) && Sorted(rank, s.credentials)
    ensures var t := Run(rank, s, calls);
      Distinct(t.credentials) && Sorted(rank, t.credentials)
      && forall id :: Later(Find(s.credentials, id), Find(t.credentials, id))
  {
    hide Apply, Find, Distinct, Sorted;
    if calls != [] {
      var init, last := calls[..|calls| - 1], calls[|calls| - 1];
      RunKeepsCredentials(rank, s, init);
      var t := Run(rank, s, init);
      StepMeaning(rank, t, last);
      forall id ensures Later(Find(s.credentials, id), Find(Run(rank, s, calls).credentials, id)) {
        StepLater(rank, t, last, id);
        assert Later(Find(s.credentials, id), Find(t.credentials, id));
      }
    }
  }

  /** The audit trail only grows, by one event per accepted call, numbered in order. */
  lemma {:induction false} RunKeepsAudit(rank: Collation, s: State, calls: seq<Call>)
    ensures var t := Run(rank, s, calls);
      s.audit <= t.audit && |t.audit| == |s.audit| + Acceptances(rank, s, calls)
      && s.warnings <= t.warnings && t.policy.mechanisms == s.policy.mechanisms
      && forall k :: |s.audit| <= k < |t.audit| ==> t.audit[k].id.sequence == k
  {
    hide Apply;
    if calls != [] {
      var init, last := calls[..|calls| - 1], calls[|calls| - 1];
      RunKeepsAudit(rank, s, init);
      StepAudit(rank, Run(rank, s, init), last);
    }
  }

  /** Hence the identifiers of the events of a run are pairwise distinct. */
  lemma EventsDistinct(rank: Collation, s: State, calls: seq<Call>, i: nat, j: nat)
    requires |s.audit| <= i < j < |Run(rank, s, calls).audit|
    ensures Run(rank, s, calls).audit[i].id != Run(rank, s, calls).audit[j].id
  {
    RunKeepsAudit(rank, s, calls);
  }

  // ---- Where authority comes from ---------------------------------------------------

  /** A call that manages credentials. */
  predicate Managing(call: Call) {
    call.CallAdd? || call.CallRevoke? || call.CallArchive? || call.CallRotate? || call.CallRename?
  }

  predicate AcceptedAt(rank: Collation, s: State, calls: seq<Call>, k: nat)
    requires k < |calls|
  {
    Accepted(rank, Run(rank, s, calls[..k]), calls[k])
  }

  /** An approval at j, made with stronger authentication, that no accepted start or
      completion before k has ended. */
  ghost predicate OpenApproval(rank: Collation, s: State, calls: seq<Call>, j: nat, k: nat)
    requires k <= |calls|
  {
    j < k && calls[j].CallApprove? && calls[j].auth.stronger && AcceptedAt(rank, s, calls, j)
    && forall i :: j < i < k && AcceptedAt(rank, s, calls, i) ==> !calls[i].CallStart? && !calls[i].CallComplete?
  }

  /** The recovery state moves only along these calls. */
  lemma PolicySteps(rank: Collation, s: State, call: Call)
    ensures var t := Apply(rank, s, call).state.policy.state;
      (t.RecoveryApproved? ==>
         if Accepted(rank, s, call) then (call.CallApprove? && call.auth.stronger) || (s.policy.state.RecoveryApproved? && !call.CallStart? && !call.CallComplete?)
         else s.policy.state.RecoveryApproved?)
      && (t.RecoveryPending? ==>
         if Accepted(rank, s, call) then (call.CallStart? && call.auth.stronger) || (s.policy.state.RecoveryPending? && !call.CallApprove?)
         else s.policy.state.RecoveryPending?)
      && (Accepted(rank, s, call) && call.CallApprove? ==> s.policy.state.RecoveryPending?)
  {
    hide Sort, Replace, Find, Authorize, WarningsFor, Recorded, Holds;
  }

  lemma PrefixRuns(rank: Collation, s: State, calls: seq<Call>, k: nat)
    requires k < |calls| && calls != []
    ensures calls[..|calls| - 1][..k] == calls[..k]
    ensures k < |calls| - 1 ==> AcceptedAt(rank, s, calls[..|calls| - 1], k) == AcceptedAt(rank, s, calls, k)
  {
    assert calls[..|calls| - 1][..k] == calls[..k];
  }

  /** An approved state comes from an approval that is still open. */
  lemma {:induction false} ApprovedSince(rank: Collation, s: State, calls: seq<Call>) returns (j: nat)
    requires !s.policy.state.RecoveryApproved? && Run(rank, s, calls).policy.state.RecoveryApproved?
    ensures OpenApproval(rank, s, calls, j, |calls|)
  {
    hide Apply;
    var init, last := calls[..|calls| - 1], calls[|calls| - 1];
    var t := Run(rank, s, init);
    PolicySteps(rank, t, last);
    assert AcceptedAt(rank, s, calls, |calls| - 1) == Accepted(rank, t, last);
    if Accepted(rank, t, last) && last.CallApprove? && last.auth.stronger {
      j := |init|;
    } else {
      j := ApprovedSince(rank, s, init);
      PrefixRuns(rank, s, calls, j);
      forall i | j < i < |calls| && AcceptedAt(rank, s, calls, i) ensures !calls[i].CallStart? && !calls[i].CallComplete? {
        PrefixRuns(rank, s, calls, i);
      }
    }
  }

  /** A recovery request at i, made with stronger authentication, not yet approved by k. */
  ghost predicate OpenRequest(rank: Collation, s: State, calls: seq<Call>, i: nat, k: nat)
    requires k <= |calls|
  {
    i < k && calls[i].CallStart? && calls[i].auth.stronger && AcceptedAt(rank, s, calls, i)
    && forall m :: i < m < k && AcceptedAt(rank, s, calls, m) ==> !calls[m].CallApprove?
  }

  lemma {:induction false} PendingSince(rank: Collation, s: State, calls: seq<Call>) returns (i: nat)
    requires !s.policy.state.RecoveryPending? && Run(rank, s, calls).policy.state.RecoveryPending?
    ensures OpenRequest(rank, s, calls, i, |calls|)
  {
    hide Apply;
    var init, last := calls[..|calls| - 1], calls[|calls| - 1];
    var t := Run(rank, s, init);
    PolicySteps(rank, t, last);
    assert AcceptedAt(rank, s, calls, |calls| - 1) == Accepted(rank, t, last);
    if Accepted(rank, t, last) && last.CallStart? && last.auth.stronger {
      i := |init|;
    } else {
      i := PendingSince(rank, s, init);
      PrefixRuns(rank, s, calls, i);
      forall m | i < m < |calls| && AcceptedAt(rank, s, calls, m) ensures !calls[m].CallApprove? {
        PrefixRuns(rank, s, calls, m);
      }
    }
  }

  /** The sources of authority for call k of a run. */
  ghost predicate Bootstrap(rank: Collation, s: State, calls: seq<Call>, k: nat)
    requires k < |calls|
  {
    calls[k].CallAdd? && Run(rank, s, calls[..k]).credentials == []
  }

  ghost predicate ByActiveActor(rank: Collation, s: State, calls: seq<Call>, k: nat)
    requires k < |calls| && Managing(calls[k])
  {
    var actor := calls[k].auth.actor;
    actor.Some? && Holds(Run(rank, s, calls[..k]).credentials, actor.value, Active)
  }

  ghost predicate ByRecovery(rank: Collation, s: State, calls: seq<Call>, k: nat)
    requires k < |calls|
  {
    exists i, j :: 0 <= i < j < k && OpenRequest(rank, s, calls[..j], i, j) && OpenApproval(rank, s, calls[..k], j, k)
  }

  /** Every managing call that changes anything is the bootstrap, or its actor was active,
      or an approved recovery was open, itself requested before. */
  lemma Provenance(rank: Collation, s: State, calls: seq<Call>, k: nat)
    requires s.policy.state.Normal? && k < |calls| && Managing(calls[k])
    requires Run(rank, s, calls[..k + 1]) != Run(rank, s, calls[..k])
    ensures Bootstrap(rank, s, calls, k) || ByActiveActor(rank, s, calls, k) || ByRecovery(rank, s, calls, k)
  {
    var t := Run(rank, s, calls[..k]);
    assert calls[..k + 1][..k] == calls[..k];
    AuthorizedChange(rank, t, calls[k]);
    if t.policy.state.RecoveryApproved? {
      var j := ApprovedSince(rank, s, calls[..k]);
      assert calls[..k][..j] == calls[..j];
      PolicySteps(rank, Run(rank, s, calls[..j]), calls[j]);
      var i := PendingSince(rank, s, calls[..j]);
      assert OpenRequest(rank, s, calls[..j], i, j) && OpenApproval(rank, s, calls[..k], j, k);
    }
  }

  lemma AuthorizedChange(rank: Collation, t: State, call: Call)
    requires Managing(call) && Apply(rank, t, call).state != t
    ensures (call.CallAdd? && t.credentials == [])
         || (call.auth.actor.Some? && Holds(t.credentials, call.auth.actor.value, Active))
         || t.policy.state.RecoveryApproved?
  {
    hide Sort, Replace, Find, WarningsFor, Recorded, Holds;
  }

  /** There is at most one bootstrap: after it the registry is never empty again. */
  lemma BootstrapOnce(rank: Collation, s: State, calls: seq<Call>, j: nat, k: nat)
    requires Distinct(s.credentials) && Sorted(rank, s.credentials)
    requires j < k < |calls| && Bootstrap(rank, s, calls, j) && AcceptedAt(rank, s, calls, j)
    ensures !Bootstrap(rank, s, calls, k)
  {
    hide Apply, Sorted, Distinct;
    var c := calls[j].credential;
    var before, after := Run(rank, s, calls[..j]), Run(rank, s, calls[..j + 1]);
    assert calls[..j + 1][..j] == calls[..j];
    RunKeepsCredentials(rank, s, calls[..j]);
    RunKeepsCredentials(rank, s, calls[..j + 1]);
    StepMeaning(rank, before, calls[j]);
    assert Find(after.credentials, c.id) == Some(c);
    RunSplits(rank, s, calls[..j + 1], calls[j + 1..k]);
    assert calls[..j + 1] + calls[j + 1..k] == calls[..k];
    RunKeepsCredentials(rank, after, calls[j + 1..k]);
    assert Later(Find(after.credentials, c.id), Find(Run(rank, s, calls[..k]).credentials, c.id));
  }

  lemma {:induction false} RunSplits(rank: Collation, s: State, first: seq<Call>, second: seq<Call>)
    ensures Run(rank, s, first + second) == Run(rank, Run(rank, s, first), second)
  {
    if second == [] {
      assert first + second == first;
    } else {
      var init := second[..|second| - 1];
      RunSplits(rank, s, first, init);
      assert (first + second)[..|first + second| - 1] == first + init;
    }
  }
}
