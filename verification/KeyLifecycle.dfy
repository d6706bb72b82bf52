/**
 * Storage keys of the encrypted registry: a lifecycle record of versioned keys, a backend that
 * holds one encrypted blob, and the operations that load, save and re-encrypt it.
 *
 * Encryption is ideal: a blob opens under the key it was sealed with and no other.  The
 * lifecycle annotation of a blob stands outside the encryption.
 */
module KeyLifecycle {
  import opened Wrappers

  datatype KeyStatus = KeyActive | KeyRetiring | KeyRetired | KeyRevoked

  datatype KeyRecord = KeyRecord(version: int, status: KeyStatus)

  datatype Lifecycle = Lifecycle(storageKeys: seq<KeyRecord>, backupKeys: seq<KeyRecord>, requireBackup: bool, migrationVersion: int)

  datatype Identity = Identity(owner: nat, root: nat)

  datatype Event = RegistryLoaded | RegistrySaved | RegistryExported | RotationStarted(from: int, to: int) | RotationCompleted(from: int, to: int)

  /** A registry: whose it is, what it holds, and its audit trail. */
  datatype Snapshot = Snapshot(identity: Identity, content: nat, audit: seq<Event>)

  datatype Annotation = Annotation(keyVersion: int, migrationVersion: int)

  datatype Blob = Blob(owner: nat, sealKey: nat, plaintext: Snapshot, annotation: Option<Annotation>) | Corrupted

  /** A key provider resolves a key or throws. */
  datatype VersionedKey = VersionedKey(version: int, key: Option<nat>)

  datatype Error =
    | MissingRegistry | UnknownKeyVersion | KeyNotAllowed | RollbackDetected | KeyVersionMismatch | InvalidActiveKeyCount
    | CurrentKeyNotActive | BackupRequired | RotationFailed | NoLoadableKey | CorruptedRegistry | OwnerMismatch | ProviderFailed
    | TamperDetected | StorageFailed

  datatype Result<T> = Ok(value: T) | Err(error: Error)

  // ---- The encrypted store ----------------------------------------------------------

  function WithEvent(s: Snapshot, e: Event): Snapshot { s.(audit := s.audit + [e]) }

  function LoadRegistry(blob: Option<Blob>, identity: Identity, key: Option<nat>): Result<Snapshot> {
    if blob.None? then Err(MissingRegistry)
    else if blob.value.Corrupted? then Err(CorruptedRegistry)
    else if blob.value.owner != identity.owner then Err(OwnerMismatch)
    else if key.None? then Err(ProviderFailed)
    else if key.value != blob.value.sealKey then Err(TamperDetected)
    else if blob.value.plaintext.identity != identity then Err(OwnerMismatch)
    else Ok(WithEvent(blob.value.plaintext, RegistryLoaded))
  }

  /** What saving writes: the snapshot under the key, without any annotation. */
  function SaveRegistry(s: Snapshot, key: Option<nat>): Result<Blob> {
    if key.None? then Err(ProviderFailed) else Ok(Blob(s.identity.owner, key.value, WithEvent(s, RegistrySaved), None))
  }

  // ---- Loading by key version ---------------------------------------------------------

  function FindKey(keys: seq<KeyRecord>, version: int): (r: Option<KeyRecord>)
    ensures r.Some? ==> r.value in keys && r.value.version == version
    ensures r.None? ==> forall i :: 0 <= i < |keys| ==> keys[i].version != version
  {
    if keys == [] then None else if keys[0].version == version then Some(keys[0]) else FindKey(keys[1..], version)
  }

  /** The annotation must name the key and must not be older than the lifecycle; a blob
      without one is accepted only before the first migration. */
  function EnvelopeFault(blob: Blob, l: Lifecycle, version: int): Option<Error> {
    if blob.Corrupted? then Some(CorruptedRegistry)
    else if blob.annotation.None? then (if l.migrationVersion > 1 then Some(RollbackDetected) else None)
    else if blob.annotation.value.keyVersion != version then Some(KeyVersionMismatch)
    else if blob.annotation.value.migrationVersion < l.migrationVersion then Some(RollbackDetected)
    else None
  }

  function LoadWithVersion(blob: Option<Blob>, identity: Identity, l: Lifecycle, key: VersionedKey): Result<Snapshot> {
    var record := FindKey(l.storageKeys, key.version);
    if record.None? then Err(UnknownKeyVersion)
    else if record.value.status.KeyRetired? || record.value.status.KeyRevoked? then Err(KeyNotAllowed)
    else if blob.None? then Err(MissingRegistry)
    else if EnvelopeFault(blob.value, l, key.version).Some? then Err(EnvelopeFault(blob.value, l, key.version).value)
    else LoadRegistry(blob, identity, key.key)
  }

  predicate Allowed(l: Lifecycle, version: int) {
    exists i :: 0 <= i < |l.storageKeys| && l.storageKeys[i].version == version
                && (l.storageKeys[i].status.KeyActive? || l.storageKeys[i].status.KeyRetiring?)
  }

  function RingFault(blob: Option<Blob>, l: Lifecycle): Option<Error> {
    if blob.None? then Some(MissingRegistry)
    else if blob.value.Corrupted? then Some(CorruptedRegistry)
    else if (if blob.value.annotation.None? then l.migrationVersion > 1
             else blob.value.annotation.value.migrationVersion < l.migrationVersion) then Some(RollbackDetected)
    else None
  }

  /** The keys to try first: the one the annotation names, or without one the active ones. */
  predicate Preferred(blob: Blob, l: Lifecycle, version: int) {
    if blob.Blob? && blob.annotation.Some? then blob.annotation.value.keyVersion == version
    else FindKey(l.storageKeys, version).Some? && FindKey(l.storageKeys, version).value.status.KeyActive?
  }

  /** The stable sort by a two-valued comparison: the preferred keys, then the others. */
  function Ordered(blob: Blob, l: Lifecycle, ring: seq<VersionedKey>): (r: seq<VersionedKey>)
    ensures multiset(r) == multiset(ring)
  {
    ChosenContents(blob, l, ring);
    Chosen(blob, l, ring, true) + Chosen(blob, l, ring, false)
  }

  function Chosen(blob: Blob, l: Lifecycle, ring: seq<VersionedKey>, preferred: bool): seq<VersionedKey> {
    if ring == [] then []
    else (if Preferred(blob, l, ring[0].version) == preferred then [ring[0]] else []) + Chosen(blob, l, ring[1..], preferred)
  }

  lemma {:induction false} ChosenContents(blob: Blob, l: Lifecycle, ring: seq<VersionedKey>)
    ensures multiset(Chosen(blob, l, ring, true) + Chosen(blob, l, ring, false)) == multiset(ring)
  {
    if ring != [] {
      ChosenContents(blob, l, ring[1..]);
      assert ring == [ring[0]] + ring[1..];
    }
  }

  /** A ring entry that would load the blob. */
  predicate Loads(blob: Blob, identity: Identity, l: Lifecycle, key: VersionedKey) {
    Allowed(l, key.version)
    && (blob.Blob? && blob.annotation.Some? ==> blob.annotation.value.keyVersion == key.version)
    && LoadWithVersion(Some(blob), identity, l, key).Ok?
  }

  /** Tries the ring in order, remembering the last failure. */
  method LoadWithVersions(blob: Option<Blob>, identity: Identity, l: Lifecycle, ring: seq<VersionedKey>) returns (r: Result<Snapshot>)
    ensures RingFault(blob, l).Some? ==> r == Err(RingFault(blob, l).value)
    ensures RingFault(blob, l).None? ==>
      if exists key :: key in ring && Loads(blob.value, identity, l, key)
      then exists key :: key in ring && Loads(blob.value, identity, l, key) && r == LoadWithVersion(blob, identity, l, key)
      else r == Err(NoLoadableKey)
  {
    hide LoadWithVersion, RingFault, Allowed;
    var fault := RingFault(blob, l);
    if fault.Some? { return Err(fault.value); }
    RingReadable(blob, l);
    var envelope := blob.value.annotation;
    var ordered := Ordered(blob.value, l, ring);
    SameMembers(ordered, ring);
    var lastError: Option<Error> := None;
    for i := 0 to |ordered|
      invariant forall k :: 0 <= k < i ==> !Loads(blob.value, identity, l, ordered[k])
    {
      var entry := ordered[i];
      if Allowed(l, entry.version) && (envelope.None? || envelope.value.keyVersion == entry.version) {
        var loaded := LoadWithVersion(blob, identity, l, entry);
        if loaded.Ok? { return loaded; }
        lastError := Some(loaded.error);
      }
    }
    forall key | key in ring ensures !Loads(blob.value, identity, l, key) {
      assert key in ordered;
    }
    return Err(NoLoadableKey);
  }

  lemma RingReadable(blob: Option<Blob>, l: Lifecycle)
    requires RingFault(blob, l).None?
    ensures blob.Some? && blob.value.Blob?
  {
  }

  lemma SameMembers(a: seq<VersionedKey>, b: seq<VersionedKey>)
    requires multiset(a) == multiset(b)
    ensures forall key :: key in a <==> key in b
  {
    forall key ensures key in a <==> key in b {
      assert key in a <==> key in multiset(a);
      assert key in b <==> key in multiset(b);
    }
  }

  // ---- Rotation ---------------------------------------------------------------------

  function ActiveCount(keys: seq<KeyRecord>): nat {
    if keys == [] then 0 else (if keys[0].status.KeyActive? then 1 else 0) + ActiveCount(keys[1..])
  }

  function Without(keys: seq<KeyRecord>, a: int, b: int): seq<KeyRecord> {
    if keys == [] then []
    else if keys[0].version != a && keys[0].version != b then [keys[0]] + Without(keys[1..], a, b)
    else Without(keys[1..], a, b)
  }

  function InsertKey(keys: seq<KeyRecord>, k: KeyRecord): seq<KeyRecord> {
    if keys == [] then [k]
    else if keys[|keys| - 1].version <= k.version then keys + [k]
    else InsertKey(keys[..|keys| - 1], k) + [keys[|keys| - 1]]
  }

  function SortKeys(keys: seq<KeyRecord>): seq<KeyRecord> {
    if keys == [] then [] else InsertKey(SortKeys(keys[..|keys| - 1]), keys[|keys| - 1])
  }

  function RotatedKeys(keys: seq<KeyRecord>, current: int, next: int): seq<KeyRecord> {
    SortKeys(Without(keys, current, next) + [KeyRecord(current, KeyRetiring), KeyRecord(next, KeyActive)])
  }

  /** Storage operations of one rotation that throw, beyond what the keys themselves cause. */
  datatype Faults = Faults(save: bool, annotate: bool, commit: bool, verify: bool)

  datatype Rotation = Rotation(lifecycle: Lifecycle, snapshot: Snapshot)

  /** The blob a rotation leaves and what it answers. */
  datatype Rotated = Rotated(blob: Option<Blob>, result: Result<Rotation>)

  function RotationFault(blob: Option<Blob>, identity: Identity, current: VersionedKey, l: Lifecycle, backedUp: bool): Option<Error> {
    if ActiveCount(l.storageKeys) != 1 then Some(InvalidActiveKeyCount)
    else if FindKey(l.storageKeys, current.version).None? || !FindKey(l.storageKeys, current.version).value.status.KeyActive?
    then Some(CurrentKeyNotActive)
    else if l.requireBackup && !backedUp then Some(BackupRequired)
    else if blob.None? then Some(MissingRegistry)
    else if LoadRegistry(blob, identity, current.key).Err? then Some(LoadRegistry(blob, identity, current.key).error)
    else None
  }

  /** The registry with the rotation recorded. */
  function Recorded(s: Snapshot, from: int, to: int): Snapshot {
    WithEvent(WithEvent(s, RotationStarted(from, to)), RotationCompleted(from, to))
  }

  function RotateStorageKey(blob: Option<Blob>, identity: Identity, current: VersionedKey, next: VersionedKey, l: Lifecycle,
                            backedUp: bool, faults: Faults): Rotated
  {
    var fault := RotationFault(blob, identity, current, l, backedUp);
    if fault.Some? then Rotated(blob, Err(fault.value))
    else
      var completed := Recorded(LoadRegistry(blob, identity, current.key).value, current.version, next.version);
      var saved := SaveRegistry(completed, next.key);
      if saved.Err? || faults.save || faults.annotate || faults.commit || faults.verify then Rotated(blob, Err(RotationFailed))
      else
        var annotated := saved.value.(annotation := Some(Annotation(next.version, l.migrationVersion + 1)));
        Rotated(Some(annotated),
                Ok(Rotation(l.(storageKeys := RotatedKeys(l.storageKeys, current.version, next.version),
                               migrationVersion := l.migrationVersion + 1), saved.value.plaintext)))
  }

  /** Where the blob is kept. */
  class Backend {
    var blob: Option<Blob>

    constructor (initial: Option<Blob>)
      ensures blob == initial
    {
      blob := initial;
    }

    method Write(b: Blob)
      modifies this
      ensures blob == Some(b)
    {
      blob := Some(b);
    }
  }

  /** Reads, overwrites, verifies, and writes the old blob back when anything in between
      throws.  The last check of the active key count is proved never to fail. */
  method Rotate(backend: Backend, identity: Identity, current: VersionedKey, next: VersionedKey, l: Lifecycle, backedUp: bool,
                faults: Faults) returns (r: Result<Rotation>)
    modifies backend
    ensures Rotated(backend.blob, r) == RotateStorageKey(old(backend.blob), identity, current, next, l, backedUp, faults)
  {
    hide RotatedKeys, ActiveCount, FindKey;
    var fault := RotationFault(backend.blob, identity, current, l, backedUp);
    if fault.Some? { return Err(fault.value); }
    var before := backend.blob.value;
    var completed := Recorded(LoadRegistry(backend.blob, identity, current.key).value, current.version, next.version);
    var failed := true;
    var saved := SaveRegistry(completed, next.key);
    if saved.Ok? && !faults.save {
      backend.Write(saved.value);
      if !faults.annotate {
        backend.Write(saved.value.(annotation := Some(Annotation(next.version, l.migrationVersion + 1))));
        if !faults.commit {
          var verified := LoadRegistry(backend.blob, identity, next.key);
          failed := faults.verify || verified.Err?;
        }
      }
    }
    if failed {
      backend.Write(before);
      return Err(RotationFailed);
    }
    var keys := RotatedKeys(l.storageKeys, current.version, next.version);
    OneActiveAfterRotation(l.storageKeys, current.version, next.version);
    if ActiveCount(keys) != 1 { return Err(InvalidActiveKeyCount); }
    return Ok(Rotation(l.(storageKeys := keys, migrationVersion := l.migrationVersion + 1), saved.value.plaintext));
  }

  // ---- Backup keys -------------------------------------------------------------------

  datatype BackupRotation = BackupRotation(lifecycle: Lifecycle, backup: Blob)

  /** Re-encrypts a backup under the next backup key.  The lifecycle's counter is raised, and
      the stored registry is not touched. */
  function RotateBackupKey(backup: Blob, identity: Identity, current: VersionedKey, next: VersionedKey, l: Lifecycle): Result<BackupRotation> {
    match LoadRegistry(Some(backup), identity, current.key)
    case Err(e) => Err(e)
    case Ok(s) =>
      if next.key.None? then Err(ProviderFailed)
      else
        var exported := WithEvent(Recorded(s, current.version, next.version), RegistryExported);
        Ok(BackupRotation(l.(backupKeys := RotatedKeys(l.backupKeys, current.version, next.version), migrationVersion := l.migrationVersion + 1),
                          Blob(identity.owner, next.key.value, exported, None)))
  }

  // ---- Keys after a rotation -----------------------------------------------------------

  lemma {:induction false} CountSplit(a: seq<KeyRecord>, b: seq<KeyRecord>)
    ensures ActiveCount(a + b) == ActiveCount(a) + ActiveCount(b)
  {
    if a == [] {
      assert a + b == b;
    } else {
      assert (a + b)[1..] == a[1..] + b;
      CountSplit(a[1..], b);
    }
  }

  lemma {:induction false} InsertCounts(keys: seq<KeyRecord>, k: KeyRecord)
    ensures ActiveCount(InsertKey(keys, k)) == ActiveCount(keys) + ActiveCount([k])
    ensures multiset(InsertKey(keys, k)) == multiset(keys) + multiset{k}
  {
    if keys != [] {
      var init, last := keys[..|keys| - 1], keys[|keys| - 1];
      assert keys == init + [last];
      CountSplit(init, [last]);
      if last.version <= k.version {
        CountSplit(keys, [k]);
      } else {
        InsertCounts(init, k);
        CountSplit(InsertKey(init, k), [last]);
      }
    }
  }

  lemma {:induction false} SortCounts(keys: seq<KeyRecord>)
    ensures ActiveCount(SortKeys(keys)) == ActiveCount(keys) && multiset(SortKeys(keys)) == multiset(keys)
  {
    if keys != [] {
      var init, last := keys[..|keys| - 1], keys[|keys| - 1];
      assert keys == init + [last];
      SortCounts(init);
      InsertCounts(SortKeys(init), last);
      CountSplit(init, [last]);
    }
  }

  lemma ConsCounts(k: KeyRecord, keys: seq<KeyRecord>)
    ensures ActiveCount([k] + keys) == (if k.status.KeyActive? then 1 else 0) + ActiveCount(keys)
  {
    assert ([k] + keys)[1..] == keys;
  }

  /** With one active key and that one the current, nothing active is kept from before. */
  lemma {:induction false} NoOtherActive(keys: seq<KeyRecord>, current: int, next: int)
    requires ActiveCount(keys) <= 1
    requires FindKey(keys, current).Some? && FindKey(keys, current).value.status.KeyActive?
    ensures ActiveCount(Without(keys, current, next)) == 0
  {
    if keys[0].version == current {
      WithoutInactive(keys[1..], current, next);
    } else {
      NoOtherActive(keys[1..], current, next);
      FoundCounts(keys[1..], current);
      ConsCounts(keys[0], Without(keys[1..], current, next));
    }
  }

  lemma {:induction false} WithoutInactive(keys: seq<KeyRecord>, current: int, next: int)
    requires ActiveCount(keys) == 0
    ensures ActiveCount(Without(keys, current, next)) == 0
  {
    if keys != [] {
      WithoutInactive(keys[1..], current, next);
      ConsCounts(keys[0], Without(keys[1..], current, next));
    }
  }

  lemma {:induction false} FoundCounts(keys: seq<KeyRecord>, version: int)
    requires FindKey(keys, version).Some? && FindKey(keys, version).value.status.KeyActive?
    ensures ActiveCount(keys) >= 1
  {
    if keys[0].version != version { FoundCounts(keys[1..], version); }
  }

  /** After a rotation there is exactly one active key, whatever the next version. */
  lemma OneActiveAfterRotation(keys: seq<KeyRecord>, current: int, next: int)
    requires ActiveCount(keys) == 1
    requires FindKey(keys, current).Some? && FindKey(keys, current).value.status.KeyActive?
    ensures ActiveCount(RotatedKeys(keys, current, next)) == 1
  {
    var kept := Without(keys, current, next);
    var added := [KeyRecord(current, KeyRetiring), KeyRecord(next, KeyActive)];
    NoOtherActive(keys, current, next);
    CountSplit(kept, added);
    assert added == [KeyRecord(current, KeyRetiring)] + ([KeyRecord(next, KeyActive)] + []);
    ConsCounts(KeyRecord(next, KeyActive), []);
    ConsCounts(KeyRecord(current, KeyRetiring), [KeyRecord(next, KeyActive)] + []);
    SortCounts(kept + added);
  }
}
