/**
 * Building a continuity package: its lists are sorted by identifier and must then be
 * strictly increasing; a package is accepted from outside only in that canonical form.
 */
module RecoveryPackage {
  import opened Wrappers
  import opened RecoveryTerms

  /** How a scope's commitment is derived from the secret and the scope's descriptor. */
  type Derivation = (nat, nat) -> nat

  // ---- Sorting by identifier -----------------------------------------------------------

  predicate Increasing(ids: seq<nat>) {
    forall i, j :: 0 <= i < j < |ids| ==> ids[i] < ids[j]
  }

  /** The loop that compares neighbours. */
  method AssertSortedUnique(values: seq<nat>) returns (ok: bool)
    ensures ok <==> Increasing(values)
  {
    var index := 1;
    while index < |values|
      invariant |values| > 0 ==> 1 <= index <= |values| && Increasing(values[..index])
    {
      if values[index - 1] >= values[index] { return false; }
      Extended(values, index);
      index := index + 1;
    }
    assert |values| > 0 ==> values[..|values|] == values;
    return true;
  }

  lemma Extended(values: seq<nat>, index: nat)
    requires 1 <= index < |values| && Increasing(values[..index]) && values[index - 1] < values[index]
    ensures Increasing(values[..index + 1])
  {
    var longer := values[..index + 1];
    forall i, j | 0 <= i < j < |longer| ensures longer[i] < longer[j] {
      assert j < index ==> values[..index][i] < values[..index][j];
      assert i < index - 1 ==> values[..index][i] < values[..index][index - 1];
    }
  }

  function Insert<T>(id: T -> nat, s: seq<T>, x: T): seq<T> {
    if s == [] then [x]
    else if id(s[|s| - 1]) <= id(x) then s + [x]
    else Insert(id, s[..|s| - 1], x) + [s[|s| - 1]]
  }

  function SortBy<T>(id: T -> nat, s: seq<T>): seq<T> {
    if s == [] then [] else Insert(id, SortBy(id, s[..|s| - 1]), s[|s| - 1])
  }

  function Ids<T>(id: T -> nat, s: seq<T>): (ids: seq<nat>)
    ensures |ids| == |s| && forall i :: 0 <= i < |s| ==> ids[i] == id(s[i])
  {
    seq(|s|, i requires 0 <= i < |s| => id(s[i]))
  }

  lemma {:induction false} SortedAlready<T>(id: T -> nat, s: seq<T>)
    requires Increasing(Ids(id, s))
    ensures SortBy(id, s) == s
  {
    if s != [] {
      var init, last := s[..|s| - 1], s[|s| - 1];
      assert Ids(id, init) == Ids(id, s)[..|s| - 1];
      SortedAlready(id, init);
      if init != [] { assert Ids(id, s)[|s| - 2] < Ids(id, s)[|s| - 1]; }
      assert s == init + [last];
    }
  }

  // ---- Packages -------------------------------------------------------------------------

  function ScopeIds(p: Package): seq<nat> { Ids((r: Scope) => r.commitment, p.scopes) }
  function AccountIds(p: Package): seq<nat> { Ids((r: Account) => r.id, p.accounts) }
  function DeviceIds(p: Package): seq<nat> { Ids((r: Device) => r.id, p.devices) }

  predicate ScopesValid(derive: Derivation, p: Package) {
    forall i :: 0 <= i < |p.scopes| ==>
      p.scopes[i].commitment != 0 && derive(p.secret, p.scopes[i].descriptor) == p.scopes[i].commitment
  }

  predicate AccountValid(a: Account) {
    a.id != 0 && a.network != 0 && a.binding != 0 && PositiveUInt64(a.validatorEpoch)
  }

  predicate AccountsValid(p: Package) {
    forall i :: 0 <= i < |p.accounts| ==> AccountValid(p.accounts[i])
  }

  predicate DevicesValid(p: Package) {
    forall i :: 0 <= i < |p.devices| ==>
      p.devices[i].id != 0 && p.devices[i].kind != 0 && p.devices[i].publicKey != 0 && PositiveUInt64(p.devices[i].deviceEpoch)
  }

  predicate CapabilitiesValid(p: Package) {
    forall i :: 0 <= i < |p.revokedCapabilities| ==> p.revokedCapabilities[i] != 0
  }

  /** What is checked of each record by itself. */
  predicate RecordsValid(derive: Derivation, p: Package) {
    ScopesValid(derive, p) && AccountsValid(p) && DevicesValid(p) && CapabilitiesValid(p)
  }

  predicate MainEpochsValid(p: Package) {
    PositiveUInt64(p.dataEpoch) && PositiveUInt64(p.deviceEpoch) && PositiveUInt64(p.recoveryEpoch)
    && PositiveUInt64(p.validatorEpoch) && PositiveUInt64(p.capabilityEpoch)
  }

  predicate EpochsValid(p: Package) {
    MainEpochsValid(p) && PositiveUInt64(p.policyVersion) && PositiveUInt64(p.revocationEpoch) && p.auditCount <= UINT64_MAX
  }

  predicate AccountsKnown(p: Package) {
    forall i :: 0 <= i < |p.accounts| ==> p.accounts[i].scope in ScopeIds(p)
  }

  predicate IncreasingLists(p: Package) {
    Increasing(ScopeIds(p)) && Increasing(AccountIds(p)) && Increasing(DeviceIds(p)) && Increasing(p.revokedCapabilities)
  }

  /** The input with its lists sorted and its derived fields filled in. */
  function Normalized(p: Package): Package {
    p.(format := PACKAGE_FORMAT, suite := IDENTITY_SUITE, root := IdentityRoot(p.secret), owner := OwnerCommitment(p.secret),
       scopes := SortBy((r: Scope) => r.commitment, p.scopes),
       accounts := SortBy((r: Account) => r.id, p.accounts),
       devices := SortBy((r: Device) => r.id, p.devices),
       revokedCapabilities := SortBy((n: nat) => n, p.revokedCapabilities))
  }

  /** The accounts in turn: the scope must be one of the package, and then the fields in range. */
  function AccountsFault(accounts: seq<Account>, scopes: seq<nat>): Option<Error> {
    if accounts == [] then None
    else if accounts[0].scope == 0 then Some(FieldInvalid)
    else if accounts[0].scope !in scopes then Some(AccountScopeMissing)
    else if !AccountValid(accounts[0]) then Some(FieldInvalid)
    else AccountsFault(accounts[1..], scopes)
  }

  function CreatePackage(derive: Derivation, p: Package): Result<Package> {
    var n := Normalized(p);
    if !(1 <= p.secret <= SECRET_MAX) then Err(SecretInvalid)
    else if p.dataRootKey == 0 || !MainEpochsValid(p) then Err(FieldInvalid)
    else if !ScopesValid(derive, p) then Err(ScopeMismatch)
    else if !Increasing(ScopeIds(n)) then Err(NotSorted)
    else if AccountsFault(p.accounts, ScopeIds(n)).Some? then Err(AccountsFault(p.accounts, ScopeIds(n)).value)
    else if !Increasing(AccountIds(n)) then Err(NotSorted)
    else if !DevicesValid(p) then Err(FieldInvalid)
    else if !Increasing(DeviceIds(n)) then Err(NotSorted)
    else if !PositiveUInt64(p.policyVersion) || !CapabilitiesValid(p) then Err(FieldInvalid)
    else if !Increasing(n.revokedCapabilities) then Err(NotSorted)
    else if !PositiveUInt64(p.revocationEpoch) then Err(FieldInvalid)
    else if p.revocationEpoch != p.capabilityEpoch then Err(CapabilityEpochMismatch)
    else if p.auditCount > UINT64_MAX then Err(FieldInvalid)
    else Ok(n)
  }

  lemma {:induction false} AccountsFine(accounts: seq<Account>, scopes: seq<nat>)
    requires 0 !in scopes
    ensures AccountsFault(accounts, scopes).None?
       <==> forall i :: 0 <= i < |accounts| ==> accounts[i].scope in scopes && AccountValid(accounts[i])
  {
    if accounts != [] {
      AccountsFine(accounts[1..], scopes);
      var rest := accounts[1..];
      assert forall i :: 0 <= i < |rest| ==> rest[i] == accounts[i + 1];
      assert forall i :: 0 < i < |accounts| ==> accounts[i] == rest[i - 1];
    }
  }

  /** Acceptance of a package from outside: supported, and equal to its own normal form. */
  function ValidatePackage(derive: Derivation, p: Package): Result<Package> {
    if p.format != PACKAGE_FORMAT || p.suite != IDENTITY_SUITE then Err(PackageFormatUnsupported)
    else
      match CreatePackage(derive, p)
      case Err(e) => Err(e)
      case Ok(n) =>
        if n.root != p.root || n.owner != p.owner then Err(IdentityMismatch)
        else if n != p then Err(NotCanonical)
        else Ok(n)
  }

  /** The canonical packages, described without sorting. */
  predicate Canonical(derive: Derivation, p: Package) {
    p.format == PACKAGE_FORMAT && p.suite == IDENTITY_SUITE
    && p.root == IdentityRoot(p.secret) && p.owner == OwnerCommitment(p.secret)
    && 1 <= p.secret <= SECRET_MAX && p.dataRootKey != 0
    && EpochsValid(p) && RecordsValid(derive, p) && AccountsKnown(p) && IncreasingLists(p)
    && p.revocationEpoch == p.capabilityEpoch
  }

  lemma ScopeIdsNonZero(derive: Derivation, p: Package)
    requires ScopesValid(derive, p)
    ensures 0 !in ScopeIds(Normalized(p))
  {
    hide SortBy;
    SortByMembers((r: Scope) => r.commitment, p.scopes);
    var n := Normalized(p);
    forall i | 0 <= i < |n.scopes| ensures ScopeIds(n)[i] != 0 {
      assert n.scopes[i] in p.scopes;
    }
  }

  lemma {:induction false} InsertMembers<T>(id: T -> nat, s: seq<T>, x: T)
    ensures forall y :: y in Insert(id, s, x) <==> y in s || y == x
  {
    if s != [] && id(s[|s| - 1]) > id(x) {
      InsertMembers(id, s[..|s| - 1], x);
      assert s == s[..|s| - 1] + [s[|s| - 1]];
    }
  }

  lemma {:induction false} SortByMembers<T>(id: T -> nat, s: seq<T>)
    ensures forall y :: y in SortBy(id, s) <==> y in s
  {
    if s != [] {
      SortByMembers(id, s[..|s| - 1]);
      InsertMembers(id, SortBy(id, s[..|s| - 1]), s[|s| - 1]);
      assert s == s[..|s| - 1] + [s[|s| - 1]];
    }
  }

  ghost predicate ScopesListed(p: Package, scopes: seq<nat>) {
    forall i :: 0 <= i < |p.accounts| ==> p.accounts[i].scope in scopes
  }

  /** The checks in one conjunction. */
  lemma CreatesExactly(derive: Derivation, p: Package)
    ensures CreatePackage(derive, p).Ok?
       <==> 1 <= p.secret <= SECRET_MAX && p.dataRootKey != 0 && EpochsValid(p) && RecordsValid(derive, p)
            && ScopesListed(p, ScopeIds(Normalized(p))) && IncreasingLists(Normalized(p)) && p.revocationEpoch == p.capabilityEpoch
    ensures CreatePackage(derive, p).Ok? ==> CreatePackage(derive, p).value == Normalized(p)
  {
    if ScopesValid(derive, p) {
      ScopeIdsNonZero(derive, p);
      AccountsFine(p.accounts, ScopeIds(Normalized(p)));
    }
    hide Normalized, ScopesValid, Increasing, DevicesValid, CapabilitiesValid, MainEpochsValid, ScopeIds, AccountIds, DeviceIds, AccountsFault;
  }

  lemma CapabilityIds(ids: seq<nat>)
    ensures Ids((n: nat) => n, ids) == ids
  {
  }

  lemma NormalizedAlready(p: Package)
    requires p.format == PACKAGE_FORMAT && p.suite == IDENTITY_SUITE
    requires p.root == IdentityRoot(p.secret) && p.owner == OwnerCommitment(p.secret) && IncreasingLists(p)
    ensures Normalized(p) == p
  {
    hide Increasing, SortBy;
    SortedAlready((r: Scope) => r.commitment, p.scopes);
    SortedAlready((r: Account) => r.id, p.accounts);
    SortedAlready((r: Device) => r.id, p.devices);
    CapabilityIds(p.revokedCapabilities);
    SortedAlready((n: nat) => n, p.revokedCapabilities);
  }

  /** A package is accepted exactly when it is canonical, and is then returned as it is. */
  lemma ValidateExactly(derive: Derivation, p: Package)
    ensures ValidatePackage(derive, p).Ok? <==> Canonical(derive, p)
    ensures ValidatePackage(derive, p).Ok? ==> ValidatePackage(derive, p).value == p
  {
    hide Increasing, SortBy, RecordsValid, EpochsValid, AccountsKnown, Normalized, IncreasingLists, CreatePackage, ScopesListed;
    CreatesExactly(derive, p);
    KnownIsListed(p);
    NormalizedFields(p);
    if Canonical(derive, p) { NormalizedAlready(p); }
  }

  lemma KnownIsListed(p: Package)
    ensures AccountsKnown(p) <==> ScopesListed(p, ScopeIds(p))
  {
  }

  lemma NormalizedFields(p: Package)
    ensures var n := Normalized(p);
      n.root == IdentityRoot(p.secret) && n.owner == OwnerCommitment(p.secret)
  {
  }

  /** What the builder makes of a canonical package whose identifiers stay as they are. */
  lemma CreateOfCanonical(derive: Derivation, p: Package)
    requires Canonical(derive, p)
    ensures CreatePackage(derive, p) == Ok(p)
  {
    hide Increasing, SortBy, RecordsValid, EpochsValid, AccountsKnown, Normalized, IncreasingLists, CreatePackage, ScopesListed;
    CreatesExactly(derive, p);
    KnownIsListed(p);
    NormalizedAlready(p);
  }
}
