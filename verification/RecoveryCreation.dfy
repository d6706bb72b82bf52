/**
 * What packages and requests are built from: lists in any order, as long as their identifiers are
 * pairwise distinct.  Every condition here is written on the input itself.
 */
module RecoveryCreation {
  import opened Wrappers
  import opened RecoveryTerms
  import opened RecoveryPackage
  import opened RecoveryBundle
  import opened RecoveryRequests

  // ---- Sorting -------------------------------------------------------------------------

  ghost predicate Ordered(ids: seq<nat>) {
    forall i, j :: 0 <= i < j < |ids| ==> ids[i] <= ids[j]
  }

  ghost predicate Distinct(ids: seq<nat>) {
    forall i, j :: 0 <= i < j < |ids| ==> ids[i] != ids[j]
  }

  lemma {:induction false} InsertContents<T>(id: T -> nat, s: seq<T>, x: T)
    ensures var r := Insert(id, s, x);
      multiset(r) == multiset(s) + multiset{x} && multiset(Ids(id, r)) == multiset(Ids(id, s)) + multiset{id(x)}
  {
    if s == [] || id(s[|s| - 1]) <= id(x) {
      assert s == [] ==> [x] == s + [x];
      assert Ids(id, s + [x]) == Ids(id, s) + [id(x)];
    } else {
      var init, last := s[..|s| - 1], s[|s| - 1];
      InsertContents(id, init, x);
      var front := Insert(id, init, x);
      assert s == init + [last];
      assert Ids(id, s) == Ids(id, init) + [id(last)];
      assert Ids(id, front + [last]) == Ids(id, front) + [id(last)];
    }
  }

  lemma OrderedPrefix(ids: seq<nat>, init: seq<nat>, last: nat)
    requires Ordered(ids) && ids == init + [last]
    ensures Ordered(init) && forall i :: 0 <= i < |init| ==> init[i] <= last
  {
    forall i, j | 0 <= i < j < |init| ensures init[i] <= init[j] {
      assert ids[i] <= ids[j];
    }
    forall i | 0 <= i < |init| ensures init[i] <= last {
      assert ids[i] <= ids[|init|];
    }
  }

  lemma OrderedAppend(init: seq<nat>, last: nat)
    requires Ordered(init) && forall i :: 0 <= i < |init| ==> init[i] <= last
    ensures Ordered(init + [last])
  {
  }

  lemma {:induction false} InsertOrdered<T>(id: T -> nat, s: seq<T>, x: T)
    requires Ordered(Ids(id, s))
    ensures Ordered(Ids(id, Insert(id, s, x)))
  {
    hide Ordered;
    var ids := Ids(id, s);
    if s == [] {
      assert Ids(id, [x]) == [] + [id(x)];
      assert ids == [];
      OrderedAppend([], id(x));
    } else {
      var init, last := s[..|s| - 1], s[|s| - 1];
      assert ids == Ids(id, init) + [id(last)];
      OrderedPrefix(ids, Ids(id, init), id(last));
      if id(last) <= id(x) {
        assert Ids(id, s + [x]) == ids + [id(x)];
        OrderedAppend(ids, id(x));
      } else {
        InsertOrdered(id, init, x);
        var front := Insert(id, init, x);
        assert Ids(id, front + [last]) == Ids(id, front) + [id(last)];
        InsertContents(id, init, x);
        LastIsGreatest(Ids(id, init), id(x), id(last), Ids(id, front));
        OrderedAppend(Ids(id, front), id(last));
      }
    }
  }

  lemma LastIsGreatest(ids: seq<nat>, n: nat, last: nat, front: seq<nat>)
    requires n <= last && forall i :: 0 <= i < |ids| ==> ids[i] <= last
    requires multiset(front) == multiset(ids) + multiset{n}
    ensures forall i :: 0 <= i < |front| ==> front[i] <= last
  {
    forall i | 0 <= i < |front| ensures front[i] <= last {
      assert front[i] in multiset(front);
      if front[i] != n {
        assert front[i] in multiset(ids);
        assert front[i] in ids;
      }
    }
  }

  /** Sorting orders by identifier and keeps every record, with its multiplicity. */
  lemma {:induction false} SortByOrders<T>(id: T -> nat, s: seq<T>)
    ensures var r := SortBy(id, s);
      Ordered(Ids(id, r)) && multiset(r) == multiset(s) && multiset(Ids(id, r)) == multiset(Ids(id, s))
  {
    if s != [] {
      var init, last := s[..|s| - 1], s[|s| - 1];
      SortByOrders(id, init);
      InsertContents(id, SortBy(id, init), last);
      InsertOrdered(id, SortBy(id, init), last);
      assert s == init + [last];
      assert Ids(id, s) == Ids(id, init) + [id(last)];
    }
  }

  lemma {:induction false} DistinctByCount(ids: seq<nat>)
    ensures Distinct(ids) <==> forall n :: multiset(ids)[n] <= 1
  {
    if ids != [] {
      var init, last := ids[..|ids| - 1], ids[|ids| - 1];
      assert ids == init + [last];
      DistinctByCount(init);
      assert Distinct(ids) <==> Distinct(init) && last !in init;
      assert last in init <==> last in multiset(init);
      assert forall n :: multiset(ids)[n] == multiset(init)[n] + (if n == last then 1 else 0);
    }
  }

  /** The sorted identifiers are strictly increasing exactly when the given ones differ pairwise. */
  lemma SortIncreasesExactly<T>(id: T -> nat, s: seq<T>)
    ensures Increasing(Ids(id, SortBy(id, s))) <==> Distinct(Ids(id, s))
  {
    hide SortBy;
    var sorted := Ids(id, SortBy(id, s));
    SortByOrders(id, s);
    DistinctByCount(sorted);
    DistinctByCount(Ids(id, s));
    assert Distinct(sorted) <==> Distinct(Ids(id, s));
    if Distinct(sorted) {
      forall i, j | 0 <= i < j < |sorted| ensures sorted[i] < sorted[j] {
        assert sorted[i] <= sorted[j] && sorted[i] != sorted[j];
      }
    }
    if Increasing(sorted) {
      assert forall i, j :: 0 <= i < j < |sorted| ==> sorted[i] < sorted[j];
    }
  }

  // ---- Packages ------------------------------------------------------------------------

  ghost predicate In64(n: nat) { 1 <= n < 0x1_0000_0000_0000_0000 }

  ghost predicate SecretInRange(p: Package) {
    1 <= p.secret < 0x8000000_00000000_00000000_00000000_00000000_00000000_00000000_00000000
  }

  ghost predicate EpochsInRange(p: Package) {
    In64(p.dataEpoch) && In64(p.deviceEpoch) && In64(p.recoveryEpoch) && In64(p.validatorEpoch) && In64(p.capabilityEpoch)
  }

  ghost predicate NumbersInRange(p: Package) {
    p.dataRootKey != 0 && EpochsInRange(p) && In64(p.policyVersion) && In64(p.revocationEpoch) && p.auditCount < 0x1_0000_0000_0000_0000
  }

  ghost predicate ScopesInRange(derive: Derivation, p: Package) {
    forall s :: s in p.scopes ==> s.commitment != 0 && s.commitment == derive(p.secret, s.descriptor)
  }

  ghost predicate AccountInRange(a: Account) {
    a.id != 0 && a.network != 0 && a.binding != 0 && In64(a.validatorEpoch)
  }

  ghost predicate DevicesInRange(p: Package) {
    forall d :: d in p.devices ==> d.id != 0 && d.kind != 0 && d.publicKey != 0 && In64(d.deviceEpoch)
  }

  ghost predicate RecordsInRange(derive: Derivation, p: Package) {
    ScopesInRange(derive, p) && (forall a :: a in p.accounts ==> AccountInRange(a)) && DevicesInRange(p)
    && 0 !in p.revokedCapabilities
  }

  ghost predicate AccountScopesListed(p: Package) {
    forall a :: a in p.accounts ==> exists s :: s in p.scopes && s.commitment == a.scope
  }

  // No two records of a list share an identifier; their order does not matter.

  ghost predicate ScopesDistinct(p: Package) {
    forall i, j :: 0 <= i < j < |p.scopes| ==> p.scopes[i].commitment != p.scopes[j].commitment
  }

  ghost predicate AccountsDistinct(p: Package) {
    forall i, j :: 0 <= i < j < |p.accounts| ==> p.accounts[i].id != p.accounts[j].id
  }

  ghost predicate DevicesDistinct(p: Package) {
    forall i, j :: 0 <= i < j < |p.devices| ==> p.devices[i].id != p.devices[j].id
  }

  ghost predicate CapabilitiesDistinct(p: Package) {
    forall i, j :: 0 <= i < j < |p.revokedCapabilities| ==> p.revokedCapabilities[i] != p.revokedCapabilities[j]
  }

  ghost predicate IdentifiersDistinct(p: Package) {
    ScopesDistinct(p) && AccountsDistinct(p) && DevicesDistinct(p) && CapabilitiesDistinct(p)
  }

  lemma RecordsAgree(derive: Derivation, p: Package)
    ensures ScopesValid(derive, p) <==> ScopesInRange(derive, p)
    ensures AccountsValid(p) <==> forall a :: a in p.accounts ==> AccountInRange(a)
    ensures DevicesValid(p) <==> DevicesInRange(p)
    ensures CapabilitiesValid(p) <==> 0 !in p.revokedCapabilities
  {
    forall i | 0 <= i < |p.scopes| ensures p.scopes[i] in p.scopes {}
    forall i | 0 <= i < |p.accounts| ensures p.accounts[i] in p.accounts {}
    forall i | 0 <= i < |p.devices| ensures p.devices[i] in p.devices {}
  }

  /** What sorting does to the four lists. */
  lemma NormalizedLists(p: Package)
    ensures var n := Normalized(p);
      multiset(n.scopes) == multiset(p.scopes) && multiset(n.accounts) == multiset(p.accounts)
      && multiset(n.devices) == multiset(p.devices) && multiset(n.revokedCapabilities) == multiset(p.revokedCapabilities)
    ensures Increasing(ScopeIds(Normalized(p))) <==> ScopesDistinct(p)
    ensures Increasing(AccountIds(Normalized(p))) <==> AccountsDistinct(p)
    ensures Increasing(DeviceIds(Normalized(p))) <==> DevicesDistinct(p)
    ensures Increasing(Normalized(p).revokedCapabilities) <==> CapabilitiesDistinct(p)
  {
    hide SortBy, Increasing;
    var scopeId, accountId, deviceId := (r: Scope) => r.commitment, (r: Account) => r.id, (r: Device) => r.id;
    SortByOrders(scopeId, p.scopes);
    SortByOrders(accountId, p.accounts);
    SortByOrders(deviceId, p.devices);
    SortByOrders((n: nat) => n, p.revokedCapabilities);
    SortIncreasesExactly(scopeId, p.scopes);
    SortIncreasesExactly(accountId, p.accounts);
    SortIncreasesExactly(deviceId, p.devices);
    SortIncreasesExactly((n: nat) => n, p.revokedCapabilities);
    CapabilityIds(p.revokedCapabilities);
    CapabilityIds(Normalized(p).revokedCapabilities);
  }

  lemma SameMembers<T>(s: seq<T>, t: seq<T>)
    requires multiset(s) == multiset(t)
    ensures forall x :: x in s <==> x in t
  {
    forall x ensures x in s <==> x in t {
      assert x in s <==> x in multiset(s);
      assert x in t <==> x in multiset(t);
    }
  }

  /** A scope is one of the sorted ones exactly if it is one of the given ones. */
  lemma ListedAgree(p: Package, n: Package, scope: nat)
    requires multiset(n.scopes) == multiset(p.scopes)
    ensures scope in ScopeIds(n) <==> exists s :: s in p.scopes && s.commitment == scope
  {
    SameMembers(n.scopes, p.scopes);
    if scope in ScopeIds(n) {
      var i :| 0 <= i < |n.scopes| && ScopeIds(n)[i] == scope;
      assert n.scopes[i] in p.scopes;
    }
    if s :| s in p.scopes && s.commitment == scope {
      assert s in n.scopes;
      var i :| 0 <= i < |n.scopes| && n.scopes[i] == s;
      assert ScopeIds(n)[i] == scope;
    }
  }

  lemma KnownAgree(p: Package, n: Package)
    requires multiset(n.scopes) == multiset(p.scopes)
    ensures ScopesListed(p, ScopeIds(n)) <==> AccountScopesListed(p)
  {
    hide ScopeIds;
    forall a: Account ensures a.scope in ScopeIds(n) <==> exists s :: s in p.scopes && s.commitment == a.scope {
      ListedAgree(p, n, a.scope);
    }
    if ScopesListed(p, ScopeIds(n)) {
      forall a | a in p.accounts ensures a.scope in ScopeIds(n) {
        var i :| 0 <= i < |p.accounts| && p.accounts[i] == a;
      }
    }
    if AccountScopesListed(p) {
      forall i | 0 <= i < |p.accounts| ensures p.accounts[i].scope in ScopeIds(n) {
        assert p.accounts[i] in p.accounts;
      }
    }
  }

  /** A package is created exactly if every condition holds. */
  lemma CreatePackageExactly(derive: Derivation, p: Package)
    ensures CreatePackage(derive, p).Ok?
       <==> SecretInRange(p) && NumbersInRange(p) && RecordsInRange(derive, p) && AccountScopesListed(p)
            && IdentifiersDistinct(p) && p.revocationEpoch == p.capabilityEpoch
  {
    hide Normalized, AccountsKnown, AccountScopesListed, ScopesDistinct, AccountsDistinct, DevicesDistinct, CapabilitiesDistinct;
    hide CreatePackage, ScopesListed, Increasing, ScopesInRange, DevicesInRange, ScopesValid, DevicesValid, CapabilitiesValid, AccountsValid;
    CreatesExactly(derive, p);
    RecordsAgree(derive, p);
    NormalizedLists(p);
    KnownAgree(p, Normalized(p));
  }

  /** The first account, in the order given, with something wrong. */
  ghost predicate FirstBadAccount(p: Package, i: nat) {
    i < |p.accounts| && BadAccount(p, p.accounts[i]) && forall j :: 0 <= j < i ==> !BadAccount(p, p.accounts[j])
  }

  ghost predicate BadAccount(p: Package, a: Account) {
    !AccountInRange(a) || forall s :: s in p.scopes ==> s.commitment != a.scope
  }

  /** The error of a refused input, in the order of the checks: scopes before accounts before devices before the rest,
      within each list the records before their repetition, and of the accounts the first bad one. */
  lemma CreatePackageRefusal(derive: Derivation, p: Package)
    requires CreatePackage(derive, p).Err?
    ensures CreatePackage(derive, p).error
      == if !SecretInRange(p) then SecretInvalid
         else if p.dataRootKey == 0 || !EpochsInRange(p) then FieldInvalid
         else if !ScopesInRange(derive, p) then ScopeMismatch
         else if !ScopesDistinct(p) then NotSorted
         else if exists i: nat :: FirstBadAccount(p, i) && p.accounts[i].scope != 0
                   && forall s :: s in p.scopes ==> s.commitment != p.accounts[i].scope then AccountScopeMissing
         else if exists i: nat :: FirstBadAccount(p, i) then FieldInvalid
         else if !AccountsDistinct(p) then NotSorted
         else if !DevicesInRange(p) then FieldInvalid
         else if !DevicesDistinct(p) then NotSorted
         else if !In64(p.policyVersion) || 0 in p.revokedCapabilities then FieldInvalid
         else if !CapabilitiesDistinct(p) then NotSorted
         else if !In64(p.revocationEpoch) then FieldInvalid
         else if p.revocationEpoch != p.capabilityEpoch then CapabilityEpochMismatch
         else FieldInvalid
  {
    hide Normalized, ScopesDistinct, AccountsDistinct, DevicesDistinct, CapabilitiesDistinct, FirstBadAccount;
    hide Increasing, ScopesInRange, DevicesInRange, ScopesValid, DevicesValid, CapabilitiesValid, AccountsFault, ScopeIds, AccountIds, DeviceIds;
    RecordsAgree(derive, p);
    NormalizedLists(p);
    if ScopesInRange(derive, p) {
      ScopeIdsNonZero(derive, p);
      AccountsRefused(p, Normalized(p));
    }
  }

  lemma AccountsRefused(p: Package, n: Package)
    requires multiset(n.scopes) == multiset(p.scopes) && 0 !in ScopeIds(n)
    ensures AccountsFault(p.accounts, ScopeIds(n))
         == if exists i: nat :: FirstBadAccount(p, i) && p.accounts[i].scope != 0
                 && forall s :: s in p.scopes ==> s.commitment != p.accounts[i].scope then Some(AccountScopeMissing)
            else if exists i: nat :: FirstBadAccount(p, i) then Some(FieldInvalid)
            else None
  {
    hide ScopeIds;
    forall a: Account ensures a.scope in ScopeIds(n) <==> !forall s :: s in p.scopes ==> s.commitment != a.scope {
      ListedAgree(p, n, a.scope);
    }
    FaultAt(p, n, 0);
    assert p.accounts[0..] == p.accounts;
  }

  /** From an account on that is preceded by good ones only. */
  lemma {:induction false} FaultAt(p: Package, n: Package, k: nat)
    requires k <= |p.accounts| && 0 !in ScopeIds(n)
    requires forall a: Account :: a.scope in ScopeIds(n) <==> !forall s :: s in p.scopes ==> s.commitment != a.scope
    requires forall j :: 0 <= j < k ==> !BadAccount(p, p.accounts[j])
    ensures AccountsFault(p.accounts[k..], ScopeIds(n))
         == if exists i: nat :: FirstBadAccount(p, i) && p.accounts[i].scope != 0
                 && forall s :: s in p.scopes ==> s.commitment != p.accounts[i].scope then Some(AccountScopeMissing)
            else if exists i: nat :: FirstBadAccount(p, i) then Some(FieldInvalid)
            else None
    decreases |p.accounts| - k
  {
    if k < |p.accounts| {
      var a := p.accounts[k];
      assert p.accounts[k..][0] == a && p.accounts[k..][1..] == p.accounts[k + 1..];
      if BadAccount(p, a) {
        assert FirstBadAccount(p, k);
        forall i: nat | FirstBadAccount(p, i) ensures i == k {}
      } else {
        FaultAt(p, n, k + 1);
      }
    }
  }

  /** A created package is canonical, holds the given records, and differs otherwise from the input
      in the four derived fields alone. */
  lemma CreatedPackage(derive: Derivation, p: Package)
    requires CreatePackage(derive, p).Ok?
    ensures var n := CreatePackage(derive, p).value;
      Canonical(derive, n) && n.format == PACKAGE_FORMAT && n.suite == IDENTITY_SUITE
      && n.root == IdentityRoot(p.secret) && n.owner == OwnerCommitment(p.secret)
      && multiset(n.scopes) == multiset(p.scopes) && multiset(n.accounts) == multiset(p.accounts)
      && multiset(n.devices) == multiset(p.devices) && multiset(n.revokedCapabilities) == multiset(p.revokedCapabilities)
      && n.(format := p.format, suite := p.suite, root := p.root, owner := p.owner, scopes := p.scopes,
            accounts := p.accounts, devices := p.devices, revokedCapabilities := p.revokedCapabilities) == p
  {
    CreatesExactly(derive, p);
    hide SortBy, Increasing, CreatePackage;
    var n := Normalized(p);
    NormalizedLists(p);
    SameMembers(n.scopes, p.scopes);
    SameMembers(n.accounts, p.accounts);
    SameMembers(n.devices, p.devices);
    SameMembers(n.revokedCapabilities, p.revokedCapabilities);
    RecordsAgree(derive, p);
    RecordsMove(derive, p, n);
    RecordsAgree(derive, n);
    ListedMove(p, n);
  }

  lemma ListedMove(p: Package, n: Package)
    requires ScopesListed(p, ScopeIds(n)) && forall x :: x in n.accounts <==> x in p.accounts
    ensures AccountsKnown(n)
  {
    hide ScopeIds;
    forall i | 0 <= i < |n.accounts| ensures n.accounts[i].scope in ScopeIds(n) {
      assert n.accounts[i] in p.accounts;
      var j :| 0 <= j < |p.accounts| && p.accounts[j] == n.accounts[i];
    }
  }

  lemma RecordsMove(derive: Derivation, p: Package, n: Package)
    requires RecordsInRange(derive, p) && n.secret == p.secret
    requires forall x :: x in n.scopes <==> x in p.scopes
    requires forall x :: x in n.accounts <==> x in p.accounts
    requires forall x :: x in n.devices <==> x in p.devices
    requires forall x :: x in n.revokedCapabilities <==> x in p.revokedCapabilities
    ensures RecordsInRange(derive, n)
  {
  }

  // ---- Requests ------------------------------------------------------------------------

  lemma SortedIds(ids: seq<nat>)
    ensures multiset(Sorted(ids)) == multiset(ids) && Ordered(Sorted(ids)) && |Sorted(ids)| == |ids|
    ensures Increasing(Sorted(ids)) <==> Distinct(ids)
  {
    hide SortBy, Ordered, Increasing, Distinct;
    SortByOrders((n: nat) => n, ids);
    SortIncreasesExactly((n: nat) => n, ids);
    CapabilityIds(ids);
    CapabilityIds(Sorted(ids));
    SortLength(ids);
  }

  /** The conditions on the lists of a new request: targets and evidence in any order. */
  ghost predicate ListsGiven(targets: seq<nat>, evidence: seq<nat>) {
    targets != [] && 0 !in targets && 0 !in evidence && |evidence| == |targets|
    && (forall i, j :: 0 <= i < j < |targets| ==> targets[i] != targets[j])
    && (forall i, j :: 0 <= i < j < |evidence| ==> evidence[i] != evidence[j])
  }

  ghost predicate TimesGiven(requestedAt: nat, delay: nat, expiresAfter: nat) {
    1 <= requestedAt && 1 <= delay < expiresAfter && requestedAt + expiresAfter < 0x1_0000_0000_0000_0000
  }

  lemma NonZeroAgree(ids: seq<nat>)
    ensures AllNonZero(ids) <==> 0 !in ids
  {
  }

  /** A request is created exactly for a sound bundle, ordered times inside 64 bits, an approval, and as many
      pieces of evidence as targets, each list without zeros or repetitions. */
  lemma CreateRequestExactly(b: Bundle, operation: Operation, requestedAt: nat, delay: nat, expiresAfter: nat, approval: Digest,
                             targets: seq<nat>, evidence: seq<nat>)
    ensures CreateRequest(b, operation, requestedAt, delay, expiresAfter, approval, targets, evidence).Ok?
       <==> BundleFault(b).None? && TimesGiven(requestedAt, delay, expiresAfter) && ListsGiven(targets, evidence)
            && approval != Value(0)
  {
    hide BundleFault, Increasing, Sorted;
    SortedIds(targets);
    SortedIds(evidence);
    NonZeroAgree(targets);
    NonZeroAgree(evidence);
  }

  /** The error of a refused request: the first check that fails. */
  lemma CreateRequestRefusal(b: Bundle, operation: Operation, requestedAt: nat, delay: nat, expiresAfter: nat, approval: Digest,
                             targets: seq<nat>, evidence: seq<nat>)
    requires CreateRequest(b, operation, requestedAt, delay, expiresAfter, approval, targets, evidence).Err?
    requires BundleFault(b).None?
    ensures CreateRequest(b, operation, requestedAt, delay, expiresAfter, approval, targets, evidence).error
      == if !In64(requestedAt) || !In64(delay) || !In64(expiresAfter) then FieldInvalid
         else if expiresAfter <= delay then DelayPolicyInvalid
         else if targets == [] then NotificationRequired
         else if 0 in targets then FieldInvalid
         else if !Distinct(targets) then NotSorted
         else if 0 in evidence then FieldInvalid
         else if !Distinct(evidence) then NotSorted
         else if |evidence| != |targets| then NotificationEvidenceRequired
         else FieldInvalid
  {
    hide BundleFault, Increasing, Sorted, Distinct;
    SortedIds(targets);
    SortedIds(evidence);
    NonZeroAgree(targets);
    NonZeroAgree(evidence);
  }

  /** Every field of a created request: the lists hold the given targets and the given evidence in
      increasing order, and the identifier binds all the others. */
  lemma CreatedRequestFields(b: Bundle, operation: Operation, requestedAt: nat, delay: nat, expiresAfter: nat, approval: Digest,
                             targets: seq<nat>, evidence: seq<nat>)
    requires CreateRequest(b, operation, requestedAt, delay, expiresAfter, approval, targets, evidence).Ok?
    ensures var q := CreateRequest(b, operation, requestedAt, delay, expiresAfter, approval, targets, evidence).value;
      q.format == REQUEST_FORMAT && q.operation == operation && q.bundleHash == BundleHash(b)
      && q.requestedAt == requestedAt && q.notBefore == requestedAt + delay && q.expiresAt == requestedAt + expiresAfter
      && q.approval == approval && q.status == PendingDelay
      && multiset(q.targets) == multiset(targets) && Increasing(q.targets)
      && multiset(q.evidence) == multiset(evidence) && Increasing(q.evidence)
      && q.id == RequestHash(operation, BundleHash(b), requestedAt, requestedAt + delay, requestedAt + expiresAfter,
                             approval, q.targets, q.evidence)
  {
    hide BundleFault, Increasing, Sorted;
    SortedIds(targets);
    SortedIds(evidence);
  }
}
