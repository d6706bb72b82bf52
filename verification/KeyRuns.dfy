/**
 * Runs of storage-key rotations, each from the key that is active at the time, and what a
 * backup-key rotation or an ordinary save does to them.
 */
module KeyRuns {
  import opened Wrappers
  import opened KeyLifecycle

  // ---- Lookup after a rotation --------------------------------------------------------

  lemma {:induction false} FindAppended(keys: seq<KeyRecord>, k: KeyRecord, version: int)
    ensures FindKey(keys + [k], version)
         == if FindKey(keys, version).Some? then FindKey(keys, version) else if k.version == version then Some(k) else None
  {
    if keys != [] {
      assert (keys + [k])[1..] == keys[1..] + [k];
      FindAppended(keys[1..], k, version);
    }
  }

  lemma {:induction false} FindInserted(keys: seq<KeyRecord>, k: KeyRecord, version: int)
    ensures FindKey(InsertKey(keys, k), version)
         == if FindKey(keys, version).Some? then FindKey(keys, version) else if k.version == version then Some(k) else None
  {
    FindAppended(keys, k, version);
    if keys != [] && keys[|keys| - 1].version > k.version {
      var init, last := keys[..|keys| - 1], keys[|keys| - 1];
      assert keys == init + [last];
      FindInserted(init, k, version);
      FindAppended(init, last, version);
      FindAppended(InsertKey(init, k), last, version);
    }
  }

  lemma {:induction false} FindSorted(keys: seq<KeyRecord>, version: int)
    ensures FindKey(SortKeys(keys), version) == FindKey(keys, version)
  {
    if keys != [] {
      var init, last := keys[..|keys| - 1], keys[|keys| - 1];
      assert keys == init + [last];
      FindSorted(init, version);
      FindInserted(SortKeys(init), last, version);
      FindAppended(init, last, version);
    }
  }

  lemma {:induction false} FindKept(keys: seq<KeyRecord>, a: int, b: int, version: int)
    ensures FindKey(Without(keys, a, b), version) == if version == a || version == b then None else FindKey(keys, version)
  {
    if keys != [] {
      FindKept(keys[1..], a, b, version);
      var rest := Without(keys[1..], a, b);
      assert ([keys[0]] + rest)[1..] == rest;
    }
  }

  /** Every key's record after a rotation.  If the next version is the current one, the
      retiring record shadows the active one. */
  lemma FindRotated(keys: seq<KeyRecord>, current: int, next: int, version: int)
    ensures FindKey(RotatedKeys(keys, current, next), version)
         == if version == current then Some(KeyRecord(current, KeyRetiring))
            else if version == next then Some(KeyRecord(next, KeyActive))
            else FindKey(keys, version)
  {
    hide SortKeys, Without;
    var kept := Without(keys, current, next);
    var retiring, active := KeyRecord(current, KeyRetiring), KeyRecord(next, KeyActive);
    FindKept(keys, current, next, version);
    FindAppended(kept, retiring, version);
    FindAppended(kept + [retiring], active, version);
    assert kept + [retiring, active] == kept + [retiring] + [active];
    FindSorted(kept + [retiring, active], version);
  }

  // ---- One rotation -------------------------------------------------------------------

  /** When a rotation succeeds; whenever it does not, the blob is the one there was. */
  lemma RotationExactly(blob: Option<Blob>, identity: Identity, current: VersionedKey, next: VersionedKey, l: Lifecycle,
                        backedUp: bool, faults: Faults)
    ensures var r := RotateStorageKey(blob, identity, current, next, l, backedUp, faults);
      (r.result.Ok? <==> RotationFault(blob, identity, current, l, backedUp).None? && next.key.Some?
                         && !faults.save && !faults.annotate && !faults.commit && !faults.verify)
      && (r.result.Err? ==> r.blob == blob)
      && (r.result.Ok? ==>
            ActiveCount(r.result.value.lifecycle.storageKeys) == 1
            && r.blob.Some? && r.blob.value.Blob? && r.blob.value.sealKey == next.key.value
            && r.blob.value.plaintext.content == blob.value.plaintext.content
            && r.blob.value.plaintext.audit == blob.value.plaintext.audit
               + [RegistryLoaded, RotationStarted(current.version, next.version), RotationCompleted(current.version, next.version), RegistrySaved])
  {
    hide RotatedKeys, ActiveCount, FindKey;
    if RotateStorageKey(blob, identity, current, next, l, backedUp, faults).result.Ok? {
      OneActiveAfterRotation(l.storageKeys, current.version, next.version);
    }
  }

  /** The new key can take part in a next rotation exactly when its version is not the one it
      replaces; the code does not check this. */
  lemma NextRotationExactly(blob: Option<Blob>, identity: Identity, current: VersionedKey, next: VersionedKey, l: Lifecycle,
                            backedUp: bool, faults: Faults)
    requires RotateStorageKey(blob, identity, current, next, l, backedUp, faults).result.Ok?
    ensures var r := RotateStorageKey(blob, identity, current, next, l, backedUp, faults);
      var fault := RotationFault(r.blob, identity, next, r.result.value.lifecycle, backedUp);
      fault == if next.version == current.version then Some(CurrentKeyNotActive) else None
  {
    hide RotatedKeys, ActiveCount, FindKey;
    RotationExactly(blob, identity, current, next, l, backedUp, faults);
    FindRotated(l.storageKeys, current.version, next.version, next.version);
  }

  // ---- Runs ---------------------------------------------------------------------------

  /** The stored blob, the lifecycle, the key that is active, and the blobs of the past. */
  datatype World = World(blob: Blob, lifecycle: Lifecycle, active: VersionedKey, past: seq<Blob>)

  datatype Attempt = Attempt(next: VersionedKey, backedUp: bool, faults: Faults)

  function Perform(identity: Identity, w: World, a: Attempt): Rotated {
    RotateStorageKey(Some(w.blob), identity, w.active, a.next, w.lifecycle, a.backedUp, a.faults)
  }

  function Step(identity: Identity, w: World, a: Attempt): World {
    var r := Perform(identity, w, a);
    if r.result.Err? || r.blob.None? then w else World(r.blob.value, r.result.value.lifecycle, a.next, w.past + [w.blob])
  }

  function Run(identity: Identity, w: World, attempts: seq<Attempt>): World {
    if attempts == [] then w else Step(identity, Run(identity, w, attempts[..|attempts| - 1]), attempts[|attempts| - 1])
  }

  /** No rotation is to a version that is active at the time. */
  ghost predicate NewVersions(identity: Identity, w: World, attempts: seq<Attempt>) {
    forall k :: 0 <= k < |attempts| ==> attempts[k].next.version != Run(identity, w, attempts[..k]).active.version
  }

  /** A blob the lifecycle has left behind. */
  ghost predicate LeftBehind(b: Blob, migrationVersion: int) {
    b.Blob? && if b.annotation.None? then migrationVersion > 1 else b.annotation.value.migrationVersion < migrationVersion
  }

  ghost predicate Good(identity: Identity, w: World) {
    ActiveCount(w.lifecycle.storageKeys) == 1
    && FindKey(w.lifecycle.storageKeys, w.active.version) == Some(KeyRecord(w.active.version, KeyActive))
    && w.active.key.Some? && w.blob.Blob? && w.blob.owner == identity.owner && w.blob.sealKey == w.active.key.value
    && w.blob.plaintext.identity == identity && w.lifecycle.migrationVersion >= 1
    && (if w.blob.annotation.None? then w.lifecycle.migrationVersion == 1
        else w.blob.annotation.value == Annotation(w.active.version, w.lifecycle.migrationVersion))
    && forall i :: 0 <= i < |w.past| ==> LeftBehind(w.past[i], w.lifecycle.migrationVersion)
  }

  /** The first lifecycle and the first save are a good start. */
  lemma Start(identity: Identity, s: Snapshot, key: VersionedKey, requireBackup: bool)
    requires s.identity == identity && key.version == 1 && key.key.Some?
    ensures SaveRegistry(s, key.key).Ok?
    ensures Good(identity, World(SaveRegistry(s, key.key).value, Lifecycle([KeyRecord(1, KeyActive)], [], requireBackup, 1), key, []))
  {
    var keys := [KeyRecord(1, KeyActive)];
    assert keys[1..] == [];
  }

  lemma StepKeeps(identity: Identity, w: World, a: Attempt)
    requires Good(identity, w) && a.next.version != w.active.version
    ensures var t := Step(identity, w, a);
      Good(identity, t) && t.blob.plaintext.content == w.blob.plaintext.content
      && t.lifecycle.migrationVersion - |t.past| == w.lifecycle.migrationVersion - |w.past|
      && if Perform(identity, w, a).result.Err? then t == w else t.past == w.past + [w.blob] && t.active == a.next
  {
    hide RotatedKeys, ActiveCount, FindKey;
    RotationExactly(Some(w.blob), identity, w.active, a.next, w.lifecycle, a.backedUp, a.faults);
    FindRotated(w.lifecycle.storageKeys, w.active.version, a.next.version, a.next.version);
  }

  /** Over every run: exactly one active key, the counter is one more for each rotation, the
      registry's contents are kept, and every earlier blob is left behind. */
  lemma {:induction false} RunKeeps(identity: Identity, w: World, attempts: seq<Attempt>)
    requires Good(identity, w) && NewVersions(identity, w, attempts)
    ensures var t := Run(identity, w, attempts);
      Good(identity, t) && w.past <= t.past && t.blob.plaintext.content == w.blob.plaintext.content
      && t.lifecycle.migrationVersion == w.lifecycle.migrationVersion + |t.past| - |w.past|
  {
    hide Good, Step;
    if attempts != [] {
      var init, last := attempts[..|attempts| - 1], attempts[|attempts| - 1];
      forall k | 0 <= k < |init| ensures init[k].next.version != Run(identity, w, init[..k]).active.version {
        assert init[..k] == attempts[..k];
        assert attempts[k].next.version != Run(identity, w, attempts[..k]).active.version;
      }
      RunKeeps(identity, w, init);
      StepKeeps(identity, Run(identity, w, init), last);
    }
  }

  /** The active key loads what is stored. */
  lemma ActiveKeyLoads(identity: Identity, w: World)
    requires Good(identity, w)
    ensures LoadWithVersion(Some(w.blob), identity, w.lifecycle, w.active) == Ok(WithEvent(w.blob.plaintext, RegistryLoaded))
  {
    hide ActiveCount, FindKey;
  }

  /** No key loads a blob that was left behind, alone or from a key ring. */
  lemma LeftBehindRefused(identity: Identity, l: Lifecycle, b: Blob, key: VersionedKey)
    requires LeftBehind(b, l.migrationVersion)
    ensures LoadWithVersion(Some(b), identity, l, key).Err?
    ensures RingFault(Some(b), l) == Some(RollbackDetected)
  {
    hide FindKey;
  }

  /** At the end of a run every blob of the past is refused with every key. */
  lemma PastRefused(identity: Identity, w: World, attempts: seq<Attempt>, i: nat, key: VersionedKey)
    requires Good(identity, w) && NewVersions(identity, w, attempts) && i < |Run(identity, w, attempts).past|
    ensures var t := Run(identity, w, attempts);
      LoadWithVersion(Some(t.past[i]), identity, t.lifecycle, key).Err? && RingFault(Some(t.past[i]), t.lifecycle) == Some(RollbackDetected)
  {
    hide Run, NewVersions, LoadWithVersion, RingFault, LeftBehind;
    RunKeeps(identity, w, attempts);
    var t := Run(identity, w, attempts);
    LeftBehindRefused(identity, t.lifecycle, t.past[i], key);
  }

  // ---- The shared counter ---------------------------------------------------------------

  /** A backup-key rotation raises the same counter without rewriting the registry: from then
      on no key loads it, until the next storage rotation, which needs none of this and makes
      it loadable again. */
  lemma BackupRotationLocksOut(identity: Identity, w: World, backup: Blob, current: VersionedKey, next: VersionedKey, key: VersionedKey)
    requires Good(identity, w) && RotateBackupKey(backup, identity, current, next, w.lifecycle).Ok?
    ensures var l := RotateBackupKey(backup, identity, current, next, w.lifecycle).value.lifecycle;
      l.storageKeys == w.lifecycle.storageKeys
      && LoadWithVersion(Some(w.blob), identity, l, key).Err? && RingFault(Some(w.blob), l) == Some(RollbackDetected)
  {
    hide FindKey, RotatedKeys, ActiveCount, LoadRegistry, LoadWithVersion, RingFault;
    var l := RotateBackupKey(backup, identity, current, next, w.lifecycle).value.lifecycle;
    assert LeftBehind(w.blob, l.migrationVersion);
    LeftBehindRefused(identity, l, w.blob, key);
  }

  lemma StorageRotationRepairs(identity: Identity, w: World, backup: Blob, current: VersionedKey, next: VersionedKey, a: Attempt)
    requires Good(identity, w) && RotateBackupKey(backup, identity, current, next, w.lifecycle).Ok?
    requires a.next.version != w.active.version && a.next.key.Some? && a.faults == Faults(false, false, false, false)
    requires w.lifecycle.requireBackup ==> a.backedUp
    ensures var l := RotateBackupKey(backup, identity, current, next, w.lifecycle).value.lifecycle;
      var r := Perform(identity, w.(lifecycle := l), a);
      r.result.Ok? && r.result.value.lifecycle.migrationVersion == w.lifecycle.migrationVersion + 2
      && LoadWithVersion(r.blob, identity, r.result.value.lifecycle, a.next).Ok?
  {
    hide FindKey, RotatedKeys, ActiveCount;
    var l := RotateBackupKey(backup, identity, current, next, w.lifecycle).value.lifecycle;
    RotationExactly(Some(w.blob), identity, w.active, a.next, l, a.backedUp, a.faults);
    FindRotated(l.storageKeys, w.active.version, a.next.version, a.next.version);
  }

  /** An ordinary save drops the annotation.  What it wrote can be loaded by version exactly
      before the first migration, and then by exactly the usable keys that open it; after any
      migration no key loads it, alone or from a ring, not even the active key it was saved
      with. */
  lemma SavedLoadsExactly(identity: Identity, l: Lifecycle, s: Snapshot, key: Option<nat>, tried: VersionedKey)
    requires SaveRegistry(s, key).Ok?
    ensures var saved := Some(SaveRegistry(s, key).value);
      var record := FindKey(l.storageKeys, tried.version);
      (LoadWithVersion(saved, identity, l, tried).Ok?
       <==> l.migrationVersion <= 1 && s.identity == identity && tried.key == key
            && record.Some? && !record.value.status.KeyRetired? && !record.value.status.KeyRevoked?)
      && RingFault(saved, l) == if l.migrationVersion > 1 then Some(RollbackDetected) else None
  {
    hide FindKey;
  }

  /** For the active key of a run: a save with it loads again exactly if there has been no
      migration yet. */
  lemma SaveLocksOut(identity: Identity, w: World, s: Snapshot, key: nat)
    requires Good(identity, w) && s.identity == identity
    ensures LoadWithVersion(Some(SaveRegistry(s, Some(key)).value), identity, w.lifecycle, VersionedKey(w.active.version, Some(key))).Ok?
       <==> w.lifecycle.migrationVersion <= 1
  {
    hide FindKey, LoadWithVersion;
    SavedLoadsExactly(identity, w.lifecycle, s, Some(key), VersionedKey(w.active.version, Some(key)));
  }
}
