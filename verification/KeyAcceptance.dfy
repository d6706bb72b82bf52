/**
 * When the key operations succeed, why they fail and what they leave, as conditions on the keys, the blob
 * and the policy.
 */
module KeyAcceptance {
  import opened Wrappers
  import opened KeyLifecycle

  // ---- Key records -----------------------------------------------------------------

  ghost predicate FirstKey(keys: seq<KeyRecord>, version: int, i: int) {
    0 <= i < |keys| && keys[i].version == version && forall j :: 0 <= j < i ==> keys[j].version != version
  }

  /** The first record of the version has one of the statuses. */
  ghost predicate Has(keys: seq<KeyRecord>, version: int, statuses: set<KeyStatus>) {
    exists i :: FirstKey(keys, version, i) && keys[i].status in statuses
  }

  ghost predicate Listed(keys: seq<KeyRecord>, version: int) {
    exists i :: 0 <= i < |keys| && keys[i].version == version
  }

  ghost predicate OneActive(keys: seq<KeyRecord>) {
    exists i :: OnlyActive(keys, i)
  }

  ghost predicate NoneActive(keys: seq<KeyRecord>) {
    forall i :: 0 <= i < |keys| ==> keys[i].status != KeyActive
  }

  lemma {:induction false} FindsFirst(keys: seq<KeyRecord>, version: int)
    ensures FindKey(keys, version).Some? <==> Listed(keys, version)
    ensures forall i :: FirstKey(keys, version, i) ==> FindKey(keys, version) == Some(keys[i])
    ensures Listed(keys, version) ==> exists i :: FirstKey(keys, version, i)
  {
    if keys != [] {
      if keys[0].version == version {
        assert FirstKey(keys, version, 0);
      } else {
        FindsFirst(keys[1..], version);
        forall i | FirstKey(keys, version, i) ensures FindKey(keys, version) == Some(keys[i]) {
          assert FirstKey(keys[1..], version, i - 1);
        }
        if Listed(keys, version) {
          var k :| 0 <= k < |keys| && keys[k].version == version;
          assert keys[1..][k - 1].version == version;
          var i :| FirstKey(keys[1..], version, i);
          assert FirstKey(keys, version, i + 1) by {
            assert forall j :: 0 < j < i + 1 ==> keys[j] == keys[1..][j - 1];
          }
        }
      }
    }
  }

  lemma FoundHas(keys: seq<KeyRecord>, version: int)
    ensures FindKey(keys, version).Some? <==> Listed(keys, version)
    ensures forall statuses ::
      Has(keys, version, statuses) <==> FindKey(keys, version).Some? && FindKey(keys, version).value.status in statuses
  {
    FindsFirst(keys, version);
    hide FindKey;
    if Listed(keys, version) { var i :| FirstKey(keys, version, i); }
  }

  lemma {:induction false} CountMeaning(keys: seq<KeyRecord>)
    ensures ActiveCount(keys) == 0 <==> NoneActive(keys)
    ensures ActiveCount(keys) == 1 <==> OneActive(keys)
  {
    if keys != [] {
      var tail := keys[1..];
      CountMeaning(tail);
      NoneTail(keys);
      OneTail(keys);
      hide NoneActive, OneActive;
    }
  }

  lemma NoneTail(keys: seq<KeyRecord>)
    requires keys != []
    ensures NoneActive(keys) <==> keys[0].status != KeyActive && NoneActive(keys[1..])
  {
    if keys[0].status != KeyActive && NoneActive(keys[1..]) {
      forall i | 0 <= i < |keys| ensures keys[i].status != KeyActive {
        if i > 0 { assert keys[i] == keys[1..][i - 1]; }
      }
    }
  }

  ghost predicate OnlyActive(keys: seq<KeyRecord>, i: int) {
    0 <= i < |keys| && keys[i].status == KeyActive
    && forall j :: 0 <= j < |keys| && j != i ==> keys[j].status != KeyActive
  }

  lemma OnlyTail(keys: seq<KeyRecord>, i: int)
    requires keys != []
    ensures i == 0 ==> (OnlyActive(keys, i) <==> keys[0].status == KeyActive && NoneActive(keys[1..]))
    ensures i != 0 ==> (OnlyActive(keys, i) <==> keys[0].status != KeyActive && OnlyActive(keys[1..], i - 1))
  {
    var tail := keys[1..];
    assert forall j :: 0 < j < |keys| ==> keys[j] == tail[j - 1];
    assert forall j :: 0 <= j < |tail| ==> tail[j] == keys[j + 1];
  }

  lemma OneTail(keys: seq<KeyRecord>)
    requires keys != []
    ensures OneActive(keys) <==> if keys[0].status == KeyActive then NoneActive(keys[1..]) else OneActive(keys[1..])
  {
    hide NoneActive;
    OnlyTail(keys, 0);
    if i :| OnlyActive(keys, i) { OnlyTail(keys, i); }
    if i :| OnlyActive(keys[1..], i) { OnlyTail(keys, i + 1); }
  }

  // ---- Loading ---------------------------------------------------------------------

  /** A readable blob of this identity, sealed under this key. */
  ghost predicate Opens(blob: Option<Blob>, identity: Identity, key: Option<nat>) {
    blob.Some? && blob.value.Blob? && blob.value.owner == identity.owner && key == Some(blob.value.sealKey)
    && blob.value.plaintext.identity == identity
  }

  lemma LoadExactly(blob: Option<Blob>, identity: Identity, key: Option<nat>)
    ensures LoadRegistry(blob, identity, key).Ok? <==> Opens(blob, identity, key)
    ensures Opens(blob, identity, key) ==>
      LoadRegistry(blob, identity, key).value
      == Snapshot(identity, blob.value.plaintext.content, blob.value.plaintext.audit + [RegistryLoaded])
    ensures !Opens(blob, identity, key) ==> LoadRegistry(blob, identity, key).error == NotOpened(blob, identity, key)
  {
  }

  ghost function NotOpened(blob: Option<Blob>, identity: Identity, key: Option<nat>): Error
    requires !Opens(blob, identity, key)
  {
    if blob == None then MissingRegistry
    else if blob == Some(Corrupted) then CorruptedRegistry
    else if blob.value.owner != identity.owner then OwnerMismatch
    else if key == None then ProviderFailed
    else if key != Some(blob.value.sealKey) then TamperDetected
    else OwnerMismatch
  }

  lemma MissingIsUnopened(blob: Option<Blob>, identity: Identity, key: Option<nat>)
    requires blob.None?
    ensures !Opens(blob, identity, key) && NotOpened(blob, identity, key) == MissingRegistry
  {
  }

  /** The annotation is for this version and not behind the lifecycle; before the first migration there need be none. */
  ghost predicate Current(blob: Blob, l: Lifecycle, version: int) {
    match blob
    case Corrupted => false
    case Blob(_, _, _, None) => l.migrationVersion <= 1
    case Blob(_, _, _, Some(a)) => a.keyVersion == version && l.migrationVersion <= a.migrationVersion
  }

  /** A blob loads by version exactly for a usable listed key that opens it and an annotation that is current. */
  lemma LoadWithVersionExactly(blob: Option<Blob>, identity: Identity, l: Lifecycle, key: VersionedKey)
    ensures LoadWithVersion(blob, identity, l, key).Ok?
       <==> Has(l.storageKeys, key.version, {KeyActive, KeyRetiring}) && Opens(blob, identity, key.key)
            && Current(blob.value, l, key.version)
    ensures LoadWithVersion(blob, identity, l, key).Err? ==>
      LoadWithVersion(blob, identity, l, key).error
      == if !Listed(l.storageKeys, key.version) then UnknownKeyVersion
         else if !Has(l.storageKeys, key.version, {KeyActive, KeyRetiring}) then KeyNotAllowed
         else if blob == None then MissingRegistry
         else if blob == Some(Corrupted) then CorruptedRegistry
         else if !Current(blob.value, l, key.version)
         then (if blob.value.annotation.Some? && blob.value.annotation.value.keyVersion != key.version then KeyVersionMismatch
               else RollbackDetected)
         else NotOpened(blob, identity, key.key)
  {
    hide Has, Listed, FindKey, LoadRegistry;
    FoundHas(l.storageKeys, key.version);
    LoadExactly(blob, identity, key.key);
  }

  // ---- Storage-key rotation ----------------------------------------------------------

  /** Everything a rotation needs, in the order it is checked. */
  ghost predicate CanRotate(blob: Option<Blob>, identity: Identity, current: VersionedKey, next: VersionedKey, l: Lifecycle,
                            backedUp: bool, faults: Faults)
  {
    OneActive(l.storageKeys) && Has(l.storageKeys, current.version, {KeyActive})
    && (l.requireBackup ==> backedUp)
    && Opens(blob, identity, current.key)
    && next.key != None && faults == Faults(false, false, false, false)
  }

  ghost function RotationError(blob: Option<Blob>, identity: Identity, current: VersionedKey, l: Lifecycle, backedUp: bool): Error
  {
    if !OneActive(l.storageKeys) then InvalidActiveKeyCount
    else if !Has(l.storageKeys, current.version, {KeyActive}) then CurrentKeyNotActive
    else if l.requireBackup && !backedUp then BackupRequired
    else if !Opens(blob, identity, current.key) then NotOpened(blob, identity, current.key)
    else RotationFailed
  }

  /** When a rotation succeeds, and the error of the first condition that fails; a failure leaves the blob. */
  lemma RotateExactly(blob: Option<Blob>, identity: Identity, current: VersionedKey, next: VersionedKey, l: Lifecycle,
                      backedUp: bool, faults: Faults)
    ensures var r := RotateStorageKey(blob, identity, current, next, l, backedUp, faults);
      && (r.result.Ok? <==> CanRotate(blob, identity, current, next, l, backedUp, faults))
      && (r.result.Err? ==> r.blob == blob && r.result.error == RotationError(blob, identity, current, l, backedUp))
  {
    hide ActiveCount, FindKey, Has, OneActive, LoadRegistry, RotatedKeys, Opens, NotOpened;
    CountMeaning(l.storageKeys);
    FoundHas(l.storageKeys, current.version);
    LoadExactly(blob, identity, current.key);
    if blob.None? { MissingIsUnopened(blob, identity, current.key); }
  }

  /** What a successful rotation stores: the registry under the next key, annotated for it. */
  lemma RotatedBlob(blob: Option<Blob>, identity: Identity, current: VersionedKey, next: VersionedKey, l: Lifecycle,
                    backedUp: bool, faults: Faults)
    requires CanRotate(blob, identity, current, next, l, backedUp, faults)
    ensures var r := RotateStorageKey(blob, identity, current, next, l, backedUp, faults);
      var rewritten := Snapshot(identity, blob.value.plaintext.content,
                                blob.value.plaintext.audit
                                + [RegistryLoaded, RotationStarted(current.version, next.version),
                                   RotationCompleted(current.version, next.version), RegistrySaved]);
      r.blob == Some(Blob(identity.owner, next.key.value, rewritten, Some(Annotation(next.version, l.migrationVersion + 1))))
      && r.result.Ok? && r.result.value.snapshot == rewritten
      && r.result.value.lifecycle.backupKeys == l.backupKeys && r.result.value.lifecycle.requireBackup == l.requireBackup
      && r.result.value.lifecycle.migrationVersion == l.migrationVersion + 1
  {
    hide ActiveCount, FindKey, Has, OneActive, LoadRegistry, RotatedKeys;
    RotateExactly(blob, identity, current, next, l, backedUp, faults);
    LoadExactly(blob, identity, current.key);
    var audit := blob.value.plaintext.audit;
    var from, to := current.version, next.version;
    assert audit + [RegistryLoaded] + [RotationStarted(from, to)] + [RotationCompleted(from, to)] + [RegistrySaved]
        == audit + [RegistryLoaded, RotationStarted(from, to), RotationCompleted(from, to), RegistrySaved];
  }

  // ---- The list of keys ----------------------------------------------------------------

  ghost predicate ByVersion(keys: seq<KeyRecord>) {
    forall i, j :: 0 <= i < j < |keys| ==> keys[i].version <= keys[j].version
  }

  lemma {:induction false} InsertKeyOrdered(keys: seq<KeyRecord>, k: KeyRecord)
    requires ByVersion(keys)
    ensures ByVersion(InsertKey(keys, k))
  {
    if keys != [] && keys[|keys| - 1].version > k.version {
      var init, last := keys[..|keys| - 1], keys[|keys| - 1];
      InsertKeyOrdered(init, k);
      InsertCounts(init, k);
      var r := InsertKey(init, k);
      forall i | 0 <= i < |r| ensures r[i].version <= last.version {
        assert r[i] in multiset(r);
        if r[i] != k { assert r[i] in multiset(init); }
      }
    }
  }

  lemma {:induction false} SortKeysOrdered(keys: seq<KeyRecord>)
    ensures ByVersion(SortKeys(keys))
  {
    if keys != [] {
      SortKeysOrdered(keys[..|keys| - 1]);
      InsertKeyOrdered(SortKeys(keys[..|keys| - 1]), keys[|keys| - 1]);
    }
  }

  lemma {:induction false} WithoutCounts(keys: seq<KeyRecord>, a: int, b: int, k: KeyRecord)
    ensures multiset(Without(keys, a, b))[k] == if k.version == a || k.version == b then 0 else multiset(keys)[k]
  {
    if keys != [] {
      WithoutCounts(keys[1..], a, b, k);
      assert keys == [keys[0]] + keys[1..];
    }
  }

  /** The keys after a rotation, by count and in order of version: those of other versions as they were, the
      current one retiring and the next one active. */
  lemma RotatedKeysExactly(keys: seq<KeyRecord>, current: int, next: int, k: KeyRecord)
    ensures var r := RotatedKeys(keys, current, next);
      ByVersion(r)
      && multiset(r)[k]
         == if k.version == current || k.version == next
            then (if k == KeyRecord(current, KeyRetiring) then 1 else 0) + (if k == KeyRecord(next, KeyActive) then 1 else 0)
            else multiset(keys)[k]
  {
    hide SortKeys, Without;
    var kept := Without(keys, current, next);
    var added := [KeyRecord(current, KeyRetiring), KeyRecord(next, KeyActive)];
    SortKeysOrdered(kept + added);
    SortCounts(kept + added);
    WithoutCounts(keys, current, next, k);
    assert multiset(kept + added) == multiset(kept) + multiset(added);
    assert multiset(added) == multiset{KeyRecord(current, KeyRetiring), KeyRecord(next, KeyActive)};
  }

  lemma RotatedLifecycle(blob: Option<Blob>, identity: Identity, current: VersionedKey, next: VersionedKey, l: Lifecycle,
                         backedUp: bool, faults: Faults, k: KeyRecord)
    requires CanRotate(blob, identity, current, next, l, backedUp, faults)
    ensures var r := RotateStorageKey(blob, identity, current, next, l, backedUp, faults);
      r.result.Ok? && ByVersion(r.result.value.lifecycle.storageKeys)
      && multiset(r.result.value.lifecycle.storageKeys)[k]
         == if k.version == current.version || k.version == next.version
            then (if k == KeyRecord(current.version, KeyRetiring) then 1 else 0)
                 + (if k == KeyRecord(next.version, KeyActive) then 1 else 0)
            else multiset(l.storageKeys)[k]
  {
    hide ActiveCount, FindKey, Has, OneActive, LoadRegistry, RotatedKeys;
    RotateExactly(blob, identity, current, next, l, backedUp, faults);
    RotatedKeysExactly(l.storageKeys, current.version, next.version, k);
  }

  // ---- Backup-key rotation -------------------------------------------------------------

  /** A backup is re-encrypted exactly if it opens under the current backup key and there is a next one.  It is then
      sealed under the next key, with the contents it had and the rotation in its trail. */
  lemma RotateBackupExactly(backup: Blob, identity: Identity, current: VersionedKey, next: VersionedKey, l: Lifecycle)
    ensures RotateBackupKey(backup, identity, current, next, l).Ok? <==> Opens(Some(backup), identity, current.key) && next.key != None
    ensures RotateBackupKey(backup, identity, current, next, l).Err? ==>
      RotateBackupKey(backup, identity, current, next, l).error
      == if !Opens(Some(backup), identity, current.key) then NotOpened(Some(backup), identity, current.key) else ProviderFailed
    ensures RotateBackupKey(backup, identity, current, next, l).Ok? ==>
      var r := RotateBackupKey(backup, identity, current, next, l).value;
      r.backup
      == Blob(identity.owner, next.key.value,
              Snapshot(identity, backup.plaintext.content,
                       backup.plaintext.audit
                       + [RegistryLoaded, RotationStarted(current.version, next.version),
                          RotationCompleted(current.version, next.version), RegistryExported]),
              None)
      && r.lifecycle == Lifecycle(l.storageKeys, r.lifecycle.backupKeys, l.requireBackup, l.migrationVersion + 1)
      && forall key :: LoadRegistry(Some(r.backup), identity, key).Ok? <==> key == next.key
  {
    hide LoadRegistry, RotatedKeys;
    LoadExactly(Some(backup), identity, current.key);
    if RotateBackupKey(backup, identity, current, next, l).Ok? {
      var r := RotateBackupKey(backup, identity, current, next, l).value;
      forall key ensures LoadRegistry(Some(r.backup), identity, key).Ok? <==> Opens(Some(r.backup), identity, key) {
        LoadExactly(Some(r.backup), identity, key);
      }
    }
  }

  lemma RotatedBackupKeys(backup: Blob, identity: Identity, current: VersionedKey, next: VersionedKey, l: Lifecycle, k: KeyRecord)
    requires RotateBackupKey(backup, identity, current, next, l).Ok?
    ensures var keys := RotateBackupKey(backup, identity, current, next, l).value.lifecycle.backupKeys;
      ByVersion(keys)
      && multiset(keys)[k]
         == if k.version == current.version || k.version == next.version
            then (if k == KeyRecord(current.version, KeyRetiring) then 1 else 0)
                 + (if k == KeyRecord(next.version, KeyActive) then 1 else 0)
            else multiset(l.backupKeys)[k]
  {
    hide LoadRegistry, RotatedKeys;
    RotatedKeysExactly(l.backupKeys, current.version, next.version, k);
  }
}
