/**
 * Runs of recoveries and set replacements in which the caller raises its anti-rollback floor
 * to every bundle it is given, and any bundle of the past may be presented again with any
 * request and any shares.
 */
module RecoveryRuns {
  import opened Wrappers
  import opened RecoveryTerms
  import opened RecoveryPackage
  import opened RecoveryBundle
  import opened RecoveryRequests

  /** The current package and how its bundle was made, the caller's floor, and the bundles
      that came before. */
  datatype World = World(package: Package, counter: nat, createdAt: nat, rnd: Randomness, floor: Floor, past: seq<Bundle>)

  function Current(w: World): Bundle {
    BundleOf(w.rnd, w.package, w.counter, w.createdAt)
  }

  /** The bundles there are to present: those of the past, then the current one. */
  function Bundles(w: World): seq<Bundle> {
    w.past + [Current(w)]
  }

  datatype Attempt = Attempt(operation: Operation, which: nat, request: Request, shares: seq<Share>, at: nat, rnd: Randomness)

  function Perform(derive: Derivation, w: World, a: Attempt): Result<Completion> {
    if a.which >= |Bundles(w)| then Err(FieldInvalid)
    else if a.operation.DataRecovery? then
      CompleteRecovery(derive, a.request, Bundles(w)[a.which], a.shares, a.at, Some(w.floor), a.rnd)
    else ReplaceSet(derive, a.request, Bundles(w)[a.which], a.shares, a.at, Some(w.floor), a.rnd)
  }

  /** The world after an attempt: on success the returned bundle, with the floor raised to it. */
  function Step(derive: Derivation, w: World, a: Attempt): (r: World) {
    match Perform(derive, w, a)
    case Err(_) => w
    case Ok(c) => World(c.next, 1, a.at, a.rnd, Floor(c.created.bundle.envelope.epoch, c.created.bundle.envelope.counter), w.past + [Current(w)])
  }

  ghost function Run(derive: Derivation, w: World, attempts: seq<Attempt>): (r: World) {
    if attempts == [] then w
    else
      Step(derive, Run(derive, w, attempts[..|attempts| - 1]), attempts[|attempts| - 1])
  }

  // ---- The invariant -----------------------------------------------------------------

  ghost predicate Inv(derive: Derivation, w: World) {
    CreateInputs(derive, w.package, w.counter, w.createdAt, w.rnd)
    && w.floor == Floor(w.package.recoveryEpoch, w.counter)
    && (forall i :: 0 <= i < |w.past| ==> Superseded(w.past[i], w.package.recoveryEpoch))
  }

  /** An acceptable bundle of an earlier epoch. */
  ghost predicate Superseded(b: Bundle, epoch: nat) {
    BundleFault(b).None? && b.envelope.epoch < epoch
  }

  /** A created bundle, with the floor raised to it, is a start. */
  lemma Start(derive: Derivation, p: Package, counter: nat, createdAt: nat, rnd: Randomness)
    requires CreateBundle(derive, p, counter, createdAt, rnd).Ok?
    ensures Inv(derive, World(p, counter, createdAt, rnd, Floor(p.recoveryEpoch, counter), []))
    ensures CreateBundle(derive, p, counter, createdAt, rnd).value.bundle == Current(World(p, counter, createdAt, rnd, Floor(p.recoveryEpoch, counter), []))
  {
    hide CreateBundle, CreateInputs, BundleOf;
    CreateExactly(derive, p, counter, createdAt, rnd);
  }

  /** What no attempt changes. */
  ghost predicate SameIdentity(p: Package, q: Package) {
    p.secret == q.secret && p.root == q.root && p.owner == q.owner && p.dataRootKey == q.dataRootKey && p.scopes == q.scopes
  }

  /** A bundle of the past is refused as a rollback, whatever the shares. */
  lemma PastRefused(derive: Derivation, w: World, b: Bundle, shares: seq<Share>)
    requires Inv(derive, w) && Superseded(b, w.package.recoveryEpoch)
    ensures Restore(derive, b, shares, Some(w.floor)) == Err(RollbackRejected)
  {
    hide BundleFault, RecordsValid, AccountsKnown, IncreasingLists;
  }

  /** A successful attempt uses the current bundle and restores the current package. */
  lemma SuccessUsesCurrent(derive: Derivation, w: World, a: Attempt)
    requires Inv(derive, w) && Perform(derive, w, a).Ok?
    ensures a.which == |w.past|
    ensures var c := Perform(derive, w, a).value;
      c.recovered == w.package && CreateInputs(derive, c.next, 1, a.at, a.rnd) && c.created.bundle == BundleOf(a.rnd, c.next, 1, a.at)
      && c.next == (if a.operation.DataRecovery? then AfterRecovery(w.package, a.request.id) else AfterReplacement(w.package, a.request.id))
  {
    hide CompleteRecovery, ReplaceSet, Restore, BundleOf, CreateInputs, AfterRecovery, AfterReplacement;
    var b := Bundles(w)[a.which];
    OperationMeaning(derive, a.request, b, a.shares, a.at, Some(w.floor), a.rnd);
    if a.which < |w.past| {
      PastRefused(derive, w, b, a.shares);
    } else {
      RestoreExactly(derive, w.package, w.counter, w.createdAt, w.rnd, a.shares, Some(w.floor));
    }
  }

  lemma NextFields(p: Package, operation: Operation, request: Digest)
    ensures var n := if operation.DataRecovery? then AfterRecovery(p, request) else AfterReplacement(p, request);
      SameIdentity(n, p) && n.recoveryEpoch == p.recoveryEpoch + 1
  {
  }

  lemma CurrentFields(derive: Derivation, w: World)
    requires CreateInputs(derive, w.package, w.counter, w.createdAt, w.rnd)
    ensures BundleFault(Current(w)).None? && Current(w).envelope.epoch == w.package.recoveryEpoch
  {
    hide BundleOf, BundleFault, Canonical;
    BundleOfIsSafe(derive, w.package, w.counter, w.createdAt, w.rnd);
    BundleFields(w.rnd, w.package, w.counter, w.createdAt);
  }

  lemma StepKeeps(derive: Derivation, w: World, a: Attempt)
    requires Inv(derive, w)
    ensures var r := Step(derive, w, a);
      Inv(derive, r) && SameIdentity(r.package, w.package)
      && if Perform(derive, w, a).Ok? then r.package.recoveryEpoch == w.package.recoveryEpoch + 1 && r.past == Bundles(w)
         else r == w
  {
    hide Perform, BundleOf, CreateInputs, BundleFault, SameIdentity, AfterRecovery, AfterReplacement;
    if Perform(derive, w, a).Ok? {
      SuccessUsesCurrent(derive, w, a);
      var c := Perform(derive, w, a).value;
      NextFields(w.package, a.operation, a.request.id);
      CurrentFields(derive, w);
      BundleFields(a.rnd, c.next, 1, a.at);
    } else {
      SameAsItself(w.package);
    }
  }

  lemma SameAsItself(p: Package)
    ensures SameIdentity(p, p)
  {
  }

  /** Over every run: the identity never changes, the recovery epoch has risen by the number
      of bundles retired, and every retired bundle is of a lower epoch than the current. */
  lemma {:induction false} RunKeeps(derive: Derivation, w: World, attempts: seq<Attempt>)
    requires Inv(derive, w)
    ensures var r := Run(derive, w, attempts);
      Inv(derive, r) && SameIdentity(r.package, w.package) && w.past <= r.past
      && r.package.recoveryEpoch == w.package.recoveryEpoch + |r.past| - |w.past|
  {
    hide Inv, Step, Perform;
    if attempts != [] {
      var init, last := attempts[..|attempts| - 1], attempts[|attempts| - 1];
      RunKeeps(derive, w, init);
      StepKeeps(derive, Run(derive, w, init), last);
    } else {
      SameAsItself(w.package);
    }
  }

  // ---- What follows ------------------------------------------------------------------

  /** At the end of any run every retired bundle is refused, with any shares. */
  lemma RetiredBundlesRefused(derive: Derivation, w: World, attempts: seq<Attempt>, i: nat, shares: seq<Share>)
    requires Inv(derive, w) && i < |Run(derive, w, attempts).past|
    ensures var r := Run(derive, w, attempts); Restore(derive, r.past[i], shares, Some(r.floor)) == Err(RollbackRejected)
  {
    hide Step, Restore;
    RunKeeps(derive, w, attempts);
    var r := Run(derive, w, attempts);
    assert Superseded(r.past[i], r.package.recoveryEpoch);
    PastRefused(derive, r, r.past[i], shares);
  }

  /** A request that binds a retired bundle is never accepted again, for any bundle at all;
      so the request of a successful attempt, though still pending in the caller's copy, has
      been used up. */
  lemma UsedRequestsRefused(derive: Derivation, w: World, attempts: seq<Attempt>, i: nat, q: Request, b: Bundle,
                            shares: seq<Share>, at: nat, rnd: Randomness)
    requires Inv(derive, w)
    requires i < |Run(derive, w, attempts).past| && q.bundleHash == BundleHash(Run(derive, w, attempts).past[i])
    ensures var floor := Some(Run(derive, w, attempts).floor);
      CompleteRecovery(derive, q, b, shares, at, floor, rnd).Err? && ReplaceSet(derive, q, b, shares, at, floor, rnd).Err?
  {
    hide Step, Restore, Run, RequestFault;
    RetiredBundlesRefused(derive, w, attempts, i, shares);
  }

  /** The request of a successful attempt binds the bundle that the attempt retires. */
  lemma SuccessBindsRetired(derive: Derivation, w: World, a: Attempt)
    requires Inv(derive, w) && Perform(derive, w, a).Ok?
    ensures |Step(derive, w, a).past| == |w.past| + 1
    ensures a.request.bundleHash == BundleHash(Step(derive, w, a).past[|w.past|])
  {
    hide Restore, BundleOf, CreateInputs, RequestFault, CompleteRecovery, ReplaceSet, AfterRecovery, AfterReplacement;
    SuccessUsesCurrent(derive, w, a);
    OperationMeaning(derive, a.request, Bundles(w)[a.which], a.shares, a.at, Some(w.floor), a.rnd);
  }

  /** All credentials revoked, at the package's device epoch. */
  ghost predicate DevicesRevoked(p: Package) {
    forall i :: 0 <= i < |p.devices| ==> p.devices[i].status == Revoked && p.devices[i].deviceEpoch == p.deviceEpoch
  }

  ghost predicate AccountsPending(p: Package) {
    forall i :: 0 <= i < |p.accounts| ==> p.accounts[i].status == PendingReconciliation
  }

  /** A recovery revokes every credential and parks every account binding, and nothing later
      in the run brings one back. */
  lemma {:induction false} RecoveryLasts(derive: Derivation, w: World, first: Attempt, attempts: seq<Attempt>)
    requires Inv(derive, w)
    requires first.operation.DataRecovery? && Perform(derive, w, first).Ok?
    ensures var r := Run(derive, Step(derive, w, first), attempts);
      DevicesRevoked(r.package) && AccountsPending(r.package)
      && |r.package.devices| == |w.package.devices| && |r.package.accounts| == |w.package.accounts|
  {
    hide Inv, Perform, Canonical;
    var s := Step(derive, w, first);
    StepKeeps(derive, w, first);
    SuccessUsesCurrent(derive, w, first);
    if attempts != [] {
      var init, last := attempts[..|attempts| - 1], attempts[|attempts| - 1];
      RecoveryLasts(derive, w, first, init);
      RunKeeps(derive, s, init);
      var t := Run(derive, s, init);
      if Perform(derive, t, last).Ok? { SuccessUsesCurrent(derive, t, last); }
    }
  }

  /** Whether the request of a successful attempt can be used once more depends on the floor
      alone: it is accepted again, inside its window, exactly under the floors that do not
      refuse the bundle it retired.  The floor raised to the new bundle refuses it; no floor
      and the floor from before the attempt do not. */
  lemma ReplayByFloor(derive: Derivation, w: World, a: Attempt, at: nat, floor: Option<Floor>, rnd: Randomness)
    requires Inv(derive, w) && Perform(derive, w, a).Ok? && rnd.set_ != 0
    ensures var again := if a.operation.DataRecovery? then CompleteRecovery(derive, a.request, Current(w), a.shares, at, floor, rnd)
                         else ReplaceSet(derive, a.request, Current(w), a.shares, at, floor, rnd);
      again.Ok? <==> a.request.notBefore <= at <= a.request.expiresAt && FloorFault(Current(w).envelope, floor).None?
    ensures FloorFault(Current(w).envelope, Some(Step(derive, w, a).floor)) == Some(RollbackRejected)
    ensures FloorFault(Current(w).envelope, None).None? && FloorFault(Current(w).envelope, Some(w.floor)).None?
  {
    hide CompleteRecovery, ReplaceSet, BundleOf, CreateInputs, AfterRecovery, AfterReplacement;
    SuccessUsesCurrent(derive, w, a);
    ReplayExactly(derive, a.request, Current(w), a.shares, a.at, Some(w.floor), a.rnd, at, floor, rnd);
    FloorsAround(derive, w, a);
  }

  lemma FloorsAround(derive: Derivation, w: World, a: Attempt)
    requires Inv(derive, w) && Perform(derive, w, a).Ok?
    ensures FloorFault(Current(w).envelope, Some(Step(derive, w, a).floor)) == Some(RollbackRejected)
    ensures FloorFault(Current(w).envelope, Some(w.floor)).None?
  {
    hide Perform, BundleOf, RecordsValid, AccountsKnown, IncreasingLists;
    StepKeeps(derive, w, a);
    BundleFields(w.rnd, w.package, w.counter, w.createdAt);
  }
}
