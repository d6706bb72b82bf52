/**
 * Threaded runs of an account: each step works on the state the last one returned, with the
 * contexts issued so far.  The run keeps a log of what was applied and completed, and when.
 */
module AccountRuns {
  import opened Wrappers
  import opened Account

  datatype Event =
    | Transition(nonce: Nonce, action: Action, appliedAt: nat, context: nat)
    | Completion(requestId: nat, completedAt: nat)

  datatype World = World(state: State, issued: map<nat, Context>, consumed: set<nat>, log: seq<Event>)

  /** A step: an operation validated under a new context, a context applied, a completion. */
  datatype Step = Validate(id: nat, request: Request) | ApplyContext(context: Context, now: nat) | CompleteRecovery(requestId: nat, now: nat)

  function Next(w: World, step: Step): World {
    match step
    case Validate(id, q) =>
      if id in w.issued || ValidationFault(w.state, q).Some? then w
      else w.(issued := w.issued[id := ContextFor(id, w.state, q)])
    case ApplyContext(c, now) =>
      var a := Apply(w.issued, w.consumed, w.state, c, now);
      if a.result.None? then w.(consumed := a.consumed)
      else World(a.result.value, w.issued, a.consumed, w.log + [Transition(c.nonce, c.action, now, c.id)])
    case CompleteRecovery(id, now) =>
      var r := Complete(w.state, id, now);
      if r.None? then w else w.(state := r.value, log := w.log + [Completion(id, now)])
  }

  function Run(w: World, steps: seq<Step>): World {
    if steps == [] then w else Next(Run(w, steps[..|steps| - 1]), steps[|steps| - 1])
  }

  // ---- One transition ----------------------------------------------------------------

  function Sequence(n: Nonces, key: nat): nat {
    if key == 0 then n.ordinary else if key == 1 then n.maintenance else n.recovery
  }

  /** A successful application uses the current sequence of exactly one lane and raises that
      lane by one; a context works once, and only for the state it was issued for. */
  lemma ApplyMeaning(issued: map<nat, Context>, consumed: set<nat>, s: State, c: Context, now: nat)
    requires Apply(issued, consumed, s, c, now).result.Some?
    ensures var t := Apply(issued, consumed, s, c, now).result.value;
      Valid(s) && Valid(t) && c.id in issued && c.id !in consumed && c.state == s
      && c.nonce.key < 3 && c.nonce.sequence == Sequence(s.nonces, c.nonce.key)
      && (forall key :: 0 <= key < 3 ==> Sequence(t.nonces, key) == Sequence(s.nonces, key) + if key == c.nonce.key then 1 else 0)
      && t.locked == s.locked && t.validator.consumedNonces == s.validator.consumedNonces + [c.nonce]
      && t.validator.consumedDigests == s.validator.consumedDigests + [c.digest]
    ensures Apply(issued, consumed, s, c, now).consumed == consumed + {c.id}
  {
    hide ValidatorValid, PendingValid;
  }

  /** What each kind of transition does to the authority over the account. */
  lemma ApplyAuthority(issued: map<nat, Context>, consumed: set<nat>, s: State, c: Context, now: nat)
    requires Apply(issued, consumed, s, c, now).result.Some?
    ensures var t := Apply(issued, consumed, s, c, now).result.value;
      t.validator.recoveryEpoch == s.validator.recoveryEpoch
      && match c.action
         case RotateValidator(address, keyBinding, epoch) =>
           s.pending.None? && t.pending.None? && t.validator.epoch == s.validator.epoch + 1 == epoch
           && t.validator.address == address && t.validator.keyBinding == keyBinding
         case RequestRecovery(id, address, keyBinding, epoch) =>
           s.pending.None? && t.validator.epoch == s.validator.epoch && t.validator.address == s.validator.address
           && t.pending == Some(Pending(id, address, keyBinding, epoch, s.validator.epoch, s.validator.recoveryEpoch,
                                        now, now + RECOVERY_DELAY, now + RECOVERY_EXPIRY, c.digest))
         case CancelRecovery(id) =>
           s.pending.Some? && s.pending.value.requestId == id && t.pending.None?
           && t.validator.epoch == s.validator.epoch && t.validator.address == s.validator.address
         case _ =>
           t.pending == s.pending && t.validator.epoch == s.validator.epoch && t.validator.address == s.validator.address
  {
    hide ValidatorValid, PendingValid;
  }

  /** A completion installs the pending proposal within its window and touches no nonce. */
  lemma CompleteMeaning(s: State, requestId: nat, now: nat)
    requires Complete(s, requestId, now).Some?
    ensures var t := Complete(s, requestId, now).value;
      Valid(s) && Valid(t) && s.pending.Some? && s.pending.value.requestId == requestId
      && s.pending.value.executableAfter <= now < s.pending.value.expiresAt
      && t.pending.None? && t.lifecycle.RecoveryCompleted? && t.nonces == s.nonces
      && t.validator.address == s.pending.value.address && t.validator.keyBinding == s.pending.value.keyBinding
      && t.validator.epoch == s.validator.epoch + 1 && t.validator.recoveryEpoch == s.validator.recoveryEpoch + 1
      && t.validator.status.ValidatorActive?
  {
    hide ValidatorValid, PendingValid;
  }

  // ---- The invariant -------------------------------------------------------------------

  /** Event i is the request behind the pending recovery, and nothing since has ended it. */
  ghost predicate Opened(log: seq<Event>, i: nat, p: Pending) {
    i < |log| && log[i].Transition? && log[i].action.RequestRecovery?
    && log[i].action.requestId == p.requestId && log[i].appliedAt == p.requestedAt
    && p.executableAfter == p.requestedAt + RECOVERY_DELAY && p.expiresAt == p.requestedAt + RECOVERY_EXPIRY
    && forall k :: i < k < |log| ==> !Ending(log[k])
  }

  predicate Ending(e: Event) {
    e.Completion? || e.action.RequestRecovery? || e.action.CancelRecovery? || e.action.RotateValidator?
  }

  /** Every nonce applied so far is behind its lane's sequence, and none occurs twice. */
  ghost predicate NoncesSpent(w: World) {
    (forall i :: 0 <= i < |w.log| && w.log[i].Transition? ==>
       w.log[i].nonce.key < 3 && w.log[i].nonce.sequence < Sequence(w.state.nonces, w.log[i].nonce.key))
    && forall i, j :: 0 <= i < j < |w.log| && w.log[i].Transition? && w.log[j].Transition? ==> w.log[i].nonce != w.log[j].nonce
  }

  /** Every applied context has been consumed, and none is applied twice. */
  ghost predicate ContextsSpent(w: World) {
    (forall i :: 0 <= i < |w.log| && w.log[i].Transition? ==> w.log[i].context in w.consumed)
    && forall i, j :: 0 <= i < j < |w.log| && w.log[i].Transition? && w.log[j].Transition? ==> w.log[i].context != w.log[j].context
  }

  /** The pending recovery is the one a logged request opened, against the validator as it
      still is. */
  ghost predicate PendingExplained(w: World) {
    w.state.pending.Some? ==>
      (exists i :: Opened(w.log, i, w.state.pending.value))
      && w.state.pending.value.sourceEpoch == w.state.validator.epoch
      && w.state.pending.value.sourceRecoveryEpoch == w.state.validator.recoveryEpoch
  }

  /** Every completion in the log lies in the window of the very request it completes. */
  ghost predicate CompletionsTimely(log: seq<Event>) {
    forall k :: 0 <= k < |log| && log[k].Completion? ==> exists i :: Timely(log, i, k)
  }

  ghost predicate Timely(log: seq<Event>, i: nat, k: nat)
    requires k < |log| && log[k].Completion?
  {
    i < k && log[i].Transition? && log[i].action.RequestRecovery? && log[i].action.requestId == log[k].requestId
    && log[i].appliedAt + RECOVERY_DELAY <= log[k].completedAt < log[i].appliedAt + RECOVERY_EXPIRY
    && forall m :: i < m < k ==> !Ending(log[m])
  }

  ghost predicate Inv(w: World) {
    Valid(w.state) && NoncesSpent(w) && ContextsSpent(w) && PendingExplained(w) && CompletionsTimely(w.log)
  }

  // ---- Preservation ------------------------------------------------------------------------

  lemma SpentMore(w: World, t: World, e: Event)
    requires NoncesSpent(w) && t.log == w.log + [e]
    requires e.Completion? ==> t.state.nonces == w.state.nonces
    requires e.Transition? ==>
      e.nonce.key < 3 && e.nonce.sequence == Sequence(w.state.nonces, e.nonce.key)
      && forall key :: 0 <= key < 3 ==> Sequence(t.state.nonces, key) == Sequence(w.state.nonces, key) + if key == e.nonce.key then 1 else 0
    ensures NoncesSpent(t)
  {
    hide Sequence;
    assert forall i :: 0 <= i < |w.log| ==> t.log[i] == w.log[i];
  }

  lemma TimelyMore(log: seq<Event>, e: Event)
    requires CompletionsTimely(log)
    requires e.Completion? ==> exists i :: Timely(log + [e], i, |log|)
    ensures CompletionsTimely(log + [e])
  {
    var more := log + [e];
    forall k | 0 <= k < |more| && more[k].Completion? ensures exists i :: Timely(more, i, k) {
      if k < |log| {
        assert log[k].Completion?;
        var i :| Timely(log, i, k);
        assert Timely(more, i, k);
      }
    }
  }

  lemma OpenedMore(log: seq<Event>, i: nat, p: Pending, e: Event)
    requires Opened(log, i, p) && !Ending(e)
    ensures Opened(log + [e], i, p)
  {
  }

  lemma ContextsMore(w: World, t: World, e: Event)
    requires ContextsSpent(w) && t.log == w.log + [e] && w.consumed <= t.consumed
    requires e.Transition? ==> e.context in t.consumed && e.context !in w.consumed
    ensures ContextsSpent(t)
  {
    assert forall i :: 0 <= i < |w.log| ==> t.log[i] == w.log[i];
  }

  lemma ApplyKeeps(w: World, c: Context, now: nat)
    requires Inv(w)
    ensures Inv(Next(w, ApplyContext(c, now)))
  {
    hide Apply, Valid, NoncesSpent, ContextsSpent, CompletionsTimely;
    var t := Next(w, ApplyContext(c, now));
    var a := Apply(w.issued, w.consumed, w.state, c, now);
    if a.result.Some? {
      var e := Transition(c.nonce, c.action, now, c.id);
      ApplyMeaning(w.issued, w.consumed, w.state, c, now);
      ApplyAuthority(w.issued, w.consumed, w.state, c, now);
      SpentMore(w, t, e);
      ContextsMore(w, t, e);
      TimelyMore(w.log, e);
      if t.state.pending.Some? {
        if c.action.RequestRecovery? {
          assert Opened(t.log, |w.log|, t.state.pending.value);
        } else {
          var i :| Opened(w.log, i, w.state.pending.value);
          OpenedMore(w.log, i, w.state.pending.value, e);
        }
      }
    } else {
      FailureConsumes(w, c, now);
    }
  }

  lemma FailureConsumes(w: World, c: Context, now: nat)
    requires ContextsSpent(w) && NoncesSpent(w)
    ensures var a := Apply(w.issued, w.consumed, w.state, c, now);
      w.consumed <= a.consumed && ContextsSpent(w.(consumed := a.consumed)) && NoncesSpent(w.(consumed := a.consumed))
  {
    hide Valid, ConsumeAuthorization, Increment, Acted, Expected;
  }

  lemma CompleteKeeps(w: World, id: nat, now: nat)
    requires Inv(w)
    ensures Inv(Next(w, CompleteRecovery(id, now)))
  {
    hide Complete, Valid, NoncesSpent, ContextsSpent, CompletionsTimely;
    var t := Next(w, CompleteRecovery(id, now));
    if Complete(w.state, id, now).Some? {
      var e := Completion(id, now);
      CompleteMeaning(w.state, id, now);
      SpentMore(w, t, e);
      ContextsMore(w, t, e);
      var i :| Opened(w.log, i, w.state.pending.value);
      assert Timely(w.log + [e], i, |w.log|);
      TimelyMore(w.log, e);
    }
  }

  /** Over every threaded run: no nonce and no context is applied twice, recovery is active
      exactly while a request is pending, and every completion falls at least 172800 and less
      than 604800 seconds after the application of the very request it completes. */
  lemma {:induction false} RunKeeps(w: World, steps: seq<Step>)
    requires Inv(w)
    ensures Inv(Run(w, steps)) && w.log <= Run(w, steps).log
    ensures var s := Run(w, steps).state;
      (s.lifecycle.RecoveryActive? <==> s.pending.Some?) && (s.validator.recovery.RecoveryInProgress? <==> s.pending.Some?)
  {
    hide Inv, Apply, Complete, ValidationFault;
    if steps != [] {
      var v, last := Run(w, steps[..|steps| - 1]), steps[|steps| - 1];
      RunKeeps(w, steps[..|steps| - 1]);
      match last {
        case Validate(id, q) => IssuingKeeps(v, Next(v, last));
        case ApplyContext(c, now) => ApplyKeeps(v, c, now);
        case CompleteRecovery(id, now) => CompleteKeeps(v, id, now);
      }
    }
    ValidAtEnd(Run(w, steps));
  }

  lemma IssuingKeeps(w: World, t: World)
    requires Inv(w) && t == w.(issued := t.issued)
    ensures Inv(t)
  {
    hide Valid;
  }

  lemma ValidAtEnd(w: World)
    requires Inv(w)
    ensures (w.state.lifecycle.RecoveryActive? <==> w.state.pending.Some?)
    ensures (w.state.validator.recovery.RecoveryInProgress? <==> w.state.pending.Some?)
  {
    hide ValidatorValid, PendingValid;
  }

  /** A run that starts with no log and nothing pending starts in the invariant. */
  lemma Start(s: State, issued: map<nat, Context>, consumed: set<nat>)
    requires Valid(s) && s.pending.None?
    ensures Inv(World(s, issued, consumed, []))
  {
    hide Valid;
  }

  /** Within a run the check that the source epochs have not changed never fails, so a
      completion is refused only for its time, its request or an exhausted epoch. */
  lemma CompletionExactly(w: World, requestId: nat, now: nat)
    requires Inv(w) && now < UINT48
    ensures Complete(w.state, requestId, now).Some? <==>
      w.state.pending.Some? && w.state.pending.value.requestId == requestId
      && w.state.pending.value.requestedAt + RECOVERY_DELAY <= now < w.state.pending.value.requestedAt + RECOVERY_EXPIRY
      && w.state.pending.value.epoch == w.state.validator.epoch + 1 && w.state.validator.epoch + 1 < UINT64
      && w.state.validator.recoveryEpoch + 1 < UINT64
  {
    hide NoncesSpent, ContextsSpent, CompletionsTimely, Unique;
  }

  // ---- What the state constructor does not check --------------------------------------------

  /** A supplied state may carry a pending recovery with any window at all: it completes
      exactly within that window, whatever the canonical delay. */
  lemma SuppliedWindow(s: State, now: nat)
    requires Valid(s) && s.pending.Some? && now < UINT48
    requires s.pending.value.epoch == s.validator.epoch + 1 && s.validator.epoch + 1 < UINT64 && s.validator.recoveryEpoch + 1 < UINT64
    requires s.pending.value.sourceEpoch == s.validator.epoch && s.pending.value.sourceRecoveryEpoch == s.validator.recoveryEpoch
    ensures Complete(s, s.pending.value.requestId, now).Some? <==> s.pending.value.executableAfter <= now < s.pending.value.expiresAt
  {
    hide Unique;
  }
}
