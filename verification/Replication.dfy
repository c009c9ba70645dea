/** Backup snapshots, backend probes and replication (evidence/replication.py:264-486). Backends may alias. */
module Replication {
  import opened Wrappers
  import opened Hashing
  import opened EvidenceRoots
  import opened PointerPath
  import opened BlobStore

  const MAX_OBJECTS := 100000
  const MAX_TARGETS := 64
  const MAX_CHALLENGE_BYTES := 512
  const PROBE_LIMIT := 8 * 1024 * 1024

  datatype ObjectRecord = ObjectRecord(logicalSha256: string, evidenceRoot: string, envelopeSha256: string,
      envelopeBytes: nat)

  datatype Target = Target(name: string, backend: Backend)

  /** The probe of one target. */
  datatype Probe = Probe(name: string, sentinelSha256: string, deletionResistance: bool)

  datatype Receipt = Receipt(snapshot: seq<ObjectRecord>, requireWorm: bool, minimumVerifiedTargets: nat,
      probes: seq<Probe>)

  predicate LabelChar(c: char) {
    'A' <= c <= 'Z' || 'a' <= c <= 'z' || '0' <= c <= '9'
  }

  /** _validate_target_label */
  predicate TargetLabel(s: string) {
    1 <= |s| <= 128 && LabelChar(s[0]) && forall i | 1 <= i < |s| :: LabelChar(s[i]) || s[i] in "._-"
  }

  /** _validate_challenge */
  predicate Challenge(s: string) {
    s != "" && Utf8Length(s) <= MAX_CHALLENGE_BYTES
  }

  /** What the probe of a label writes: its minimized sentinel evidence, when minimization accepts it. */
  type Sentinels = (string, string) -> Option<TrialEvidence>

  predicate SentinelKey(c: Codec, sentinels: Sentinels, targets: seq<Target>, challenge: string, key: string) {
    exists i | 0 <= i < |targets| ::
      sentinels(targets[i].name, challenge).Some? && KeyOf(c, sentinels(targets[i].name, challenge).value) == key
  }

  // ---------------------------------------------------------------- the snapshot

  predicate RecordOf(c: Codec, limit: nat, record: ObjectRecord, envelope: Bytes) {
    && ReadBlob(c, limit, record.logicalSha256, envelope).Some?
    && record.evidenceRoot == c.root(ReadBlob(c, limit, record.logicalSha256, envelope).value)
    && record.envelopeSha256 == c.sha256(envelope) && record.envelopeBytes == |envelope|
  }

  predicate InSnapshot(snapshot: seq<ObjectRecord>, key: string) {
    exists i | 0 <= i < |snapshot| :: snapshot[i].logicalSha256 == key
  }

  /** Exactly one record for each object of the source, and none for anything else. */
  ghost predicate Snapshots(c: Codec, limit: nat, snapshot: seq<ObjectRecord>, objects: Objects) {
    && (forall i | 0 <= i < |snapshot| ::
          snapshot[i].logicalSha256 in objects && RecordOf(c, limit, snapshot[i], objects[snapshot[i].logicalSha256]))
    && (forall k | k in objects :: InSnapshot(snapshot, k))
    && (forall i, j | 0 <= i < j < |snapshot| :: snapshot[i].logicalSha256 != snapshot[j].logicalSha256)
  }

  /** Every object has a well-formed key and reads back, and there are not too many. */
  ghost predicate Snapshotable(c: Codec, limit: nat, objects: Objects) {
    && |objects| <= MAX_OBJECTS
    && forall k | k in objects :: BlobKey(k) && ReadBlob(c, limit, k, objects[k]).Some?
  }

  /** The records of the first n keys. */
  ghost predicate Recorded(c: Codec, limit: nat, keys: seq<string>, records: seq<ObjectRecord>, n: nat,
      objects: Objects) {
    && |records| == n <= |keys|
    && forall j | 0 <= j < n ::
         && records[j].logicalSha256 == keys[j] && keys[j] in objects
         && RecordOf(c, limit, records[j], objects[keys[j]])
  }

  /** The keys are those of the objects, each once. */
  ghost predicate Lists(keys: seq<string>, objects: Objects) {
    && (forall k :: k in keys <==> k in objects) && |keys| == |objects|
    && forall i, j | 0 <= i < j < |keys| :: keys[i] != keys[j]
  }

  lemma AllRecorded(c: Codec, limit: nat, keys: seq<string>, records: seq<ObjectRecord>, objects: Objects)
    requires Recorded(c, limit, keys, records, |keys|, objects) && Lists(keys, objects)
    requires |keys| <= MAX_OBJECTS && forall i | 0 <= i < |keys| :: BlobKey(keys[i])
    ensures Snapshots(c, limit, records, objects) && Snapshotable(c, limit, objects)
  {
    forall k | k in objects
      ensures InSnapshot(records, k) && BlobKey(k) && ReadBlob(c, limit, k, objects[k]).Some?
    {
      RecordedKey(c, limit, keys, records, objects, k);
    }
    RecordedOnce(c, limit, keys, records, objects);
  }

  lemma RecordedOnce(c: Codec, limit: nat, keys: seq<string>, records: seq<ObjectRecord>, objects: Objects)
    requires Recorded(c, limit, keys, records, |keys|, objects) && Lists(keys, objects)
    ensures forall i, j | 0 <= i < j < |records| :: records[i].logicalSha256 != records[j].logicalSha256
  {
    forall i, j | 0 <= i < j < |records| ensures records[i].logicalSha256 != records[j].logicalSha256 {
      assert keys[i] != keys[j];
    }
  }

  lemma RecordedKey(c: Codec, limit: nat, keys: seq<string>, records: seq<ObjectRecord>, objects: Objects, k: string)
    requires Recorded(c, limit, keys, records, |keys|, objects) && Lists(keys, objects) && k in objects
    requires forall i | 0 <= i < |keys| :: BlobKey(keys[i])
    ensures InSnapshot(records, k) && BlobKey(k) && ReadBlob(c, limit, k, objects[k]).Some?
  {
    var i :| 0 <= i < |keys| && keys[i] == k;
    assert records[i].logicalSha256 == k && RecordOf(c, limit, records[i], objects[k]);
  }

  /** The record of one object. */
  method RecordObject(c: Codec, source: Store, key: string) returns (record: Option<ObjectRecord>)
    ensures record.Some? ==>
              && key in source.backend.objects && record.value.logicalSha256 == key
              && RecordOf(c, source.maxLogicalBytes, record.value, source.backend.objects[key])
    ensures source.backend.reliable && key in source.backend.objects ==>
              (record.Some? <==> ReadBlob(c, source.maxLogicalBytes, key, source.backend.objects[key]).Some?)
  {
    var envelope := source.backend.Get(key);
    if envelope.None? {
      return None;
    }
    var evidence := ReadBlob(c, source.maxLogicalBytes, key, envelope.value);
    if evidence.None? {
      return None;
    }
    record := Some(ObjectRecord(key, c.root(evidence.value), c.sha256(envelope.value), |envelope.value|));
  }

  /** create_backup_snapshot; over a reliable source it succeeds exactly when the objects can be recorded. */
  method CreateBackupSnapshot(c: Codec, source: Store) returns (r: Result<seq<ObjectRecord>, Error>)
    ensures r.Success? ==> Snapshots(c, source.maxLogicalBytes, r.value, source.backend.objects)
    ensures source.backend.reliable ==>
              (r.Success? <==> Snapshotable(c, source.maxLogicalBytes, source.backend.objects))
    ensures r.Failure? ==> r.error == Integrity
  {
    var listed := source.backend.ListKeys();
    if listed.None? {
      return Failure(Integrity);
    }
    var keys := listed.value;
    if exists i | 0 <= i < |keys| :: !BlobKey(keys[i]) {
      return Failure(Integrity);
    }
    if |keys| > MAX_OBJECTS {
      return Failure(Integrity);
    }
    var records: seq<ObjectRecord> := [];
    for i := 0 to |keys|
      invariant Recorded(c, source.maxLogicalBytes, keys, records, i, source.backend.objects)
    {
      assert keys[i] in keys;
      var record := RecordObject(c, source, keys[i]);
      if record.None? {
        return Failure(Integrity);
      }
      records := records + [record.value];
    }
    AllRecorded(c, source.maxLogicalBytes, keys, records, source.backend.objects);
    r := Success(records);
  }

  // ---------------------------------------------------------------- the probe

  /** b"\nagent-evals-backend-probe-conflict" */
  const CONFLICT_SUFFIX: Bytes :=
    [10, 97, 103, 101, 110, 116, 45, 101, 118, 97, 108, 115, 45, 98, 97, 99, 107, 101, 110, 100, 45, 112, 114, 111,
     98, 101, 45, 99, 111, 110, 102, 108, 105, 99, 116]

  /** probe_backend: only the sentinel's key can change; deletion resistance is credited only to a backend that
      refused and still holds the exact sentinel. On a reliable backend that obeys or resists deletions the probe
      succeeds exactly when the sentinel can be written. */
  method ProbeBackend(c: Codec, backend: Backend, sentinel: TrialEvidence, name: string)
      returns (r: Result<Probe, Error>)
    requires BlobStore.Faithful(c)
    modifies backend
    ensures OnlyAt(old(backend.objects), backend.objects, KeyOf(c, sentinel))
    ensures r.Success? ==> r.value.name == name && r.value.sentinelSha256 == KeyOf(c, sentinel)
    ensures r.Success? && backend.obedient ==>
              !r.value.deletionResistance && backend.objects == old(backend.objects) - {KeyOf(c, sentinel)}
    ensures r.Success? && r.value.deletionResistance ==>
              && KeyOf(c, sentinel) in backend.objects
              && ReadBlob(c, PROBE_LIMIT, KeyOf(c, sentinel), backend.objects[KeyOf(c, sentinel)]) == Some(sentinel)
    ensures backend.reliable && (backend.obedient || backend.resistant) ==>
              (r.Success? <==> Writable(c, PROBE_LIMIT, old(backend.objects), sentinel))
    ensures r.Success? && !backend.obedient && backend.resistant ==> r.value.deletionResistance
    ensures r.Failure? ==> r.error == Integrity
  {
    var store := Store(backend, NoCompression, PROBE_LIMIT);
    var manifest := WritePrepared(c, store, sentinel);
    if manifest.Failure? {
      return Failure(Integrity);
    }
    var key := manifest.value.logicalSha256;
    var envelope := backend.Get(key);
    if envelope.None? || ReadBlob(c, PROBE_LIMIT, key, envelope.value).None? {
      return Failure(Integrity);
    }
    var created := backend.PutIfAbsent(key, envelope.value + CONFLICT_SUFFIX);
    if created != Some(false) {
      return Failure(Integrity);
    }
    var again := backend.Get(key);
    if again != envelope {
      return Failure(Integrity);
    }
    r := ProbeDeletion(c, backend, key, envelope.value, name);
  }

  /** The deletion that the probe asks for, of an object that reads back. */
  method ProbeDeletion(c: Codec, backend: Backend, key: string, envelope: Bytes, name: string)
    returns (r: Result<Probe, Error>)
    requires key in backend.objects && backend.objects[key] == envelope && BlobKey(key)
    requires ReadBlob(c, PROBE_LIMIT, key, envelope).Some?
    modifies backend
    ensures backend.objects == old(backend.objects) || backend.objects == old(backend.objects) - {key}
    ensures r.Success? ==> r.value.name == name && r.value.sentinelSha256 == key
    ensures r.Success? && backend.obedient ==>
              !r.value.deletionResistance && backend.objects == old(backend.objects) - {key}
    ensures r.Success? && r.value.deletionResistance ==> backend.objects == old(backend.objects)
    ensures backend.reliable && (backend.obedient || backend.resistant) ==> r.Success?
    ensures r.Success? && !backend.obedient && backend.resistant ==> r.value.deletionResistance
    ensures r.Failure? ==> r.error == Integrity
  {
    var deleted := backend.Delete(key);
    if deleted.None? {
      return Failure(Integrity);
    }
    var remaining := backend.Get(key);
    if deleted.value {
      if remaining.Some? {
        return Failure(Integrity);
      }
      return Success(Probe(name, key, false));
    }
    if remaining != Some(envelope) || ReadBlob(c, PROBE_LIMIT, key, remaining.value).None? {
      return Failure(Integrity);
    }
    r := Success(Probe(name, key, true));
  }

  // ---------------------------------------------------------------- copying

  /** The target holds, under the record's key, the exact envelope of the source that the record binds. */
  ghost predicate Holds(c: Codec, limit: nat, source: Objects, target: Objects, record: ObjectRecord) {
    var key := record.logicalSha256;
    && key in source && key in target && target[key] == source[key]
    && |target[key]| == record.envelopeBytes && c.sha256(target[key]) == record.envelopeSha256
    && ReadBlob(c, limit, key, target[key]).Some?
  }

  /** The snapshot is of the source, and the target has nothing else under its keys. */
  ghost predicate Copyable(c: Codec, limit: nat, source: Objects, target: Objects, snapshot: seq<ObjectRecord>) {
    forall i | 0 <= i < |snapshot| :: CopyableRecord(c, limit, source, target, snapshot[i])
  }

  ghost predicate CopyableRecord(c: Codec, limit: nat, source: Objects, target: Objects, record: ObjectRecord) {
    var key := record.logicalSha256;
    && BlobKey(key) && key in source && RecordOf(c, limit, record, source[key])
    && (key in target ==> target[key] == source[key])
  }

  /** One object. */
  method CopyObject(c: Codec, source: Store, record: ObjectRecord, target: Backend) returns (r: Result<(), Error>)
    modifies target
    ensures OnlyAt(old(target.objects), target.objects, record.logicalSha256)
    ensures Extends(old(target.objects), target.objects) && r != Failure(WormMissing)
    ensures r.Success? ==> Holds(c, source.maxLogicalBytes, source.backend.objects, target.objects, record)
    ensures r.Success? ==>
              && record.logicalSha256 in old(source.backend.objects)
              && target.objects[record.logicalSha256] == old(source.backend.objects)[record.logicalSha256]
    ensures source.backend.reliable && target.reliable
            && CopyableRecord(c, source.maxLogicalBytes, old(source.backend.objects), old(target.objects), record)
            ==> r.Success?
  {
    var envelope := source.backend.Get(record.logicalSha256);
    if envelope.None? || |envelope.value| != record.envelopeBytes
        || c.sha256(envelope.value) != record.envelopeSha256 {
      return Failure(Integrity);
    }
    if ReadBlob(c, source.maxLogicalBytes, record.logicalSha256, envelope.value).None? {
      return Failure(Integrity);
    }
    var created := target.PutIfAbsent(record.logicalSha256, envelope.value);
    if created.None? {
      return Failure(Integrity);
    }
    var readback := target.Get(record.logicalSha256);
    if readback.None? {
      return Failure(Integrity);
    }
    if readback != envelope {
      return Failure(if created.value then Integrity else Conflict);
    }
    r := Success(());
  }

  /** Copying one object from the source, which may be the target itself, leaves the rest to be copied. */
  lemma StillCopyable(c: Codec, limit: nat, source: Objects, source': Objects, target: Objects, target': Objects,
      snapshot: seq<ObjectRecord>, key: string)
    requires Copyable(c, limit, source, target, snapshot)
    requires OnlyAt(target, target', key) && key in source && key in target' && target'[key] == source[key]
    requires source' == source || (source == target && source' == target')
    ensures Copyable(c, limit, source', target', snapshot)
  {
    forall i | 0 <= i < |snapshot| ensures CopyableRecord(c, limit, source', target', snapshot[i]) {
      assert CopyableRecord(c, limit, source, target, snapshot[i]);
    }
  }

  /** _replicate_snapshot_to_target; between reliable backends it succeeds whenever nothing stands in the way. */
  method ReplicateSnapshotToTarget(c: Codec, source: Store, snapshot: seq<ObjectRecord>, target: Backend)
      returns (r: Result<(), Error>)
    modifies target
    ensures Extends(old(target.objects), target.objects)
    ensures forall k | k in target.objects :: k in old(target.objects) || InSnapshot(snapshot, k)
    ensures r != Failure(WormMissing)
    ensures r.Success? ==>
              forall i | 0 <= i < |snapshot|
                  :: Holds(c, source.maxLogicalBytes, source.backend.objects, target.objects, snapshot[i])
    ensures source.backend.reliable && target.reliable
            && Copyable(c, source.maxLogicalBytes, old(source.backend.objects), old(target.objects), snapshot)
            ==> r.Success?
  {
    for i := 0 to |snapshot|
      invariant Extends(old(target.objects), target.objects)
      invariant forall k | k in target.objects :: k in old(target.objects) || InSnapshot(snapshot, k)
      invariant source.backend != target ==> source.backend.objects == old(source.backend.objects)
      invariant forall j | 0 <= j < i
          :: Holds(c, source.maxLogicalBytes, source.backend.objects, target.objects, snapshot[j])
      invariant Copyable(c, source.maxLogicalBytes, old(source.backend.objects), old(target.objects), snapshot) ==>
                  Copyable(c, source.maxLogicalBytes, source.backend.objects, target.objects, snapshot)
    {
      ghost var from, into := source.backend.objects, target.objects;
      var copied := CopyObject(c, source, snapshot[i], target);
      if copied.Failure? {
        return copied;
      }
      if Copyable(c, source.maxLogicalBytes, from, into, snapshot) {
        StillCopyable(c, source.maxLogicalBytes, from, source.backend.objects, into, target.objects, snapshot,
                      snapshot[i].logicalSha256);
      }
    }
    r := Success(());
  }

  // ---------------------------------------------------------------- replication

  ghost function Backends(source: Store, targets: seq<Target>): set<Backend> {
    {source.backend} + set i | 0 <= i < |targets| :: targets[i].backend
  }

  /** Nothing but sentinels was changed or removed. */
  ghost predicate Kept(before: Objects, after: Objects, c: Codec, sentinels: Sentinels, targets: seq<Target>,
      challenge: string) {
    forall k | k in before && !SentinelKey(c, sentinels, targets, challenge, k) :: k in after && after[k] == before[k]
  }

  /** Nothing but sentinels was added. */
  ghost predicate Uncopied(before: Objects, after: Objects, c: Codec, sentinels: Sentinels, targets: seq<Target>,
      challenge: string) {
    forall k | k in after && !SentinelKey(c, sentinels, targets, challenge, k) :: k in before
  }

  /** The sentinels of the targets from the i-th on are not among the objects. */
  ghost predicate SentinelsAbsent(c: Codec, sentinels: Sentinels, targets: seq<Target>, challenge: string, i: nat,
      objects: Objects) {
    forall j | i <= j < |targets| && sentinels(targets[j].name, challenge).Some? ::
      KeyOf(c, sentinels(targets[j].name, challenge).value) !in objects
  }

  /** Every target is reliable, obeys or resists deletions, and has a sentinel of its own that fits. */
  ghost predicate Probeable(c: Codec, sentinels: Sentinels, targets: seq<Target>, challenge: string) {
    && (forall i | 0 <= i < |targets| :: ProbeableTarget(c, sentinels, targets[i], challenge))
    && forall i, j | 0 <= i < j < |targets| ::
         SentinelKeyOf(c, sentinels, targets[i], challenge) != SentinelKeyOf(c, sentinels, targets[j], challenge)
  }

  function SentinelKeyOf(c: Codec, sentinels: Sentinels, target: Target, challenge: string): Option<string> {
    match sentinels(target.name, challenge)
    case None => None
    case Some(e) => Some(KeyOf(c, e))
  }

  ghost predicate ProbeableTarget(c: Codec, sentinels: Sentinels, target: Target, challenge: string) {
    && target.backend.reliable && (target.backend.obedient || target.backend.resistant)
    && var sentinel := sentinels(target.name, challenge);
       sentinel.Some? && |c.canonical(sentinel.value)| <= PROBE_LIMIT && BlobKey(KeyOf(c, sentinel.value))
  }

  /** The targets can be probed, and the sentinels from the i-th on are on none of the backends. */
  ghost predicate Unprobed(c: Codec, sentinels: Sentinels, source: Store, targets: seq<Target>, challenge: string,
      i: nat)
    reads Backends(source, targets)
  {
    && Probeable(c, sentinels, targets, challenge)
    && forall b | b in Backends(source, targets) :: SentinelsAbsent(c, sentinels, targets, challenge, i, b.objects)
  }

  /** The probe of one target. */
  method ProbeTarget(c: Codec, sentinels: Sentinels, targets: seq<Target>, challenge: string, ghost source: Store,
      i: nat)
    returns (r: Result<Probe, Error>)
    requires BlobStore.Faithful(c) && i < |targets|
    modifies targets[i].backend
    ensures OnlySentinels(c, sentinels, source, targets, challenge)
    ensures r.Success? ==> r.value.name == targets[i].name
    ensures old(Unprobed(c, sentinels, source, targets, challenge, i)) ==>
              && r.Success? && Unprobed(c, sentinels, source, targets, challenge, i + 1)
              && (!targets[i].backend.obedient ==> r.value.deletionResistance)
  {
    var sentinel := sentinels(targets[i].name, challenge);
    if sentinel.None? {
      return Failure(Integrity);
    }
    assert SentinelKey(c, sentinels, targets, challenge, KeyOf(c, sentinel.value));
    ghost var fit := Unprobed(c, sentinels, source, targets, challenge, i);
    ghost var before := targets[i].backend.objects;
    r := ProbeBackend(c, targets[i].backend, sentinel.value, targets[i].name);
    if fit {
      assert ProbeableTarget(c, sentinels, targets[i], challenge);
      forall b | b in Backends(source, targets)
        ensures SentinelsAbsent(c, sentinels, targets, challenge, i + 1, b.objects)
      {
        if b == targets[i].backend {
          OthersAbsent(c, sentinels, targets, challenge, i, before, b.objects);
        }
      }
    }
  }

  /** From the old state to this one nothing but sentinels was changed, on any backend. */
  twostate predicate OnlySentinels(c: Codec, sentinels: Sentinels, source: Store, targets: seq<Target>,
      challenge: string)
    reads Backends(source, targets)
  {
    forall b | b in Backends(source, targets) ::
      && Kept(old(b.objects), b.objects, c, sentinels, targets, challenge)
      && Uncopied(old(b.objects), b.objects, c, sentinels, targets, challenge)
  }

  /** The probes of all targets, before any object is copied; on probeable targets they succeed. */
  method ProbeAll(c: Codec, sentinels: Sentinels, targets: seq<Target>, challenge: string, ghost source: Store)
    returns (r: Result<seq<Probe>, Error>)
    requires BlobStore.Faithful(c)
    modifies Backends(source, targets)
    ensures OnlySentinels(c, sentinels, source, targets, challenge)
    ensures r.Success? ==> |r.value| == |targets| && forall i | 0 <= i < |targets| :: r.value[i].name == targets[i].name
    ensures old(Unprobed(c, sentinels, source, targets, challenge, 0)) ==>
              && r.Success?
              && forall i | 0 <= i < |targets| && !targets[i].backend.obedient :: r.value[i].deletionResistance
  {
    ghost var fit := Unprobed(c, sentinels, source, targets, challenge, 0);
    var probes: seq<Probe> := [];
    for i := 0 to |targets|
      invariant |probes| == i && forall j | 0 <= j < i :: probes[j].name == targets[j].name
      invariant OnlySentinels(c, sentinels, source, targets, challenge)
      invariant fit ==> Unprobed(c, sentinels, source, targets, challenge, i)
      invariant fit ==> forall j | 0 <= j < i && !targets[j].backend.obedient :: probes[j].deletionResistance
    {
      label before:
      ghost var former := targets[i].backend.objects;
      var probe := ProbeTarget(c, sentinels, targets, challenge, source, i);
      assert OnlySentinels@before(c, sentinels, source, targets, challenge);
      if probe.Failure? {
        return Failure(probe.error);
      }
      probes := probes + [probe.value];
    }
    r := Success(probes);
  }

  /** Probing one target leaves the sentinels of the next ones absent. */
  lemma OthersAbsent(c: Codec, sentinels: Sentinels, targets: seq<Target>, challenge: string, i: nat,
      before: Objects, after: Objects)
    requires i < |targets| && Probeable(c, sentinels, targets, challenge)
    requires SentinelsAbsent(c, sentinels, targets, challenge, i, before)
    requires sentinels(targets[i].name, challenge).Some?
    requires OnlyAt(before, after, KeyOf(c, sentinels(targets[i].name, challenge).value))
    ensures SentinelsAbsent(c, sentinels, targets, challenge, i + 1, after)
  {
    forall j | i < j < |targets| && sentinels(targets[j].name, challenge).Some?
      ensures KeyOf(c, sentinels(targets[j].name, challenge).value) !in after
    {
      assert SentinelKeyOf(c, sentinels, targets[i], challenge) != SentinelKeyOf(c, sentinels, targets[j], challenge);
    }
  }

  /** The snapshot can be copied to every target, and no backend fails of itself. */
  ghost predicate AllCopyable(c: Codec, source: Store, targets: seq<Target>, snapshot: seq<ObjectRecord>)
    reads Backends(source, targets)
  {
    && (forall b | b in Backends(source, targets) :: b.reliable)
    && forall t | 0 <= t < |targets| ::
      Copyable(c, source.maxLogicalBytes, source.backend.objects, targets[t].backend.objects, snapshot)
  }

  /** After one target has received the snapshot, all of them can still receive it. */
  lemma CopyableAfter(c: Codec, limit: nat, source: Objects, source': Objects, target: Objects, target': Objects,
      snapshot: seq<ObjectRecord>, received: bool)
    requires Copyable(c, limit, source, target, snapshot) && Extends(source, source')
    requires if received then forall i | 0 <= i < |snapshot| :: Holds(c, limit, source', target', snapshot[i])
             else target' == target
    ensures Copyable(c, limit, source', target', snapshot)
  {
    forall i | 0 <= i < |snapshot| ensures CopyableRecord(c, limit, source', target', snapshot[i]) {
      assert CopyableRecord(c, limit, source, target, snapshot[i]);
      if received { assert Holds(c, limit, source', target', snapshot[i]); }
    }
  }

  /** The copy to one of the targets. */
  method CopyTarget(c: Codec, source: Store, snapshot: seq<ObjectRecord>, targets: seq<Target>, t: nat)
      returns (r: Result<(), Error>)
    requires t < |targets|
    modifies targets[t].backend
    ensures Extends(old(targets[t].backend.objects), targets[t].backend.objects) && r != Failure(WormMissing)
    ensures r.Success? ==>
              forall i | 0 <= i < |snapshot| ::
                Holds(c, source.maxLogicalBytes, source.backend.objects, targets[t].backend.objects, snapshot[i])
    ensures old(AllCopyable(c, source, targets, snapshot)) ==> r.Success? && AllCopyable(c, source, targets, snapshot)
  {
    ghost var fit := AllCopyable(c, source, targets, snapshot);
    label before:
    r := ReplicateSnapshotToTarget(c, source, snapshot, targets[t].backend);
    if fit && r.Success? {
      forall u | 0 <= u < |targets|
        ensures Copyable(c, source.maxLogicalBytes, source.backend.objects, targets[u].backend.objects, snapshot)
      {
        CopyableAfter(c, source.maxLogicalBytes, old@before(source.backend.objects), source.backend.objects,
                      old@before(targets[u].backend.objects), targets[u].backend.objects, snapshot,
                      targets[u].backend == targets[t].backend);
      }
    }
  }

  method CopyAll(c: Codec, source: Store, snapshot: seq<ObjectRecord>, targets: seq<Target>)
      returns (r: Result<(), Error>)
    modifies Backends(source, targets)
    ensures forall b | b in Backends(source, targets) :: Extends(old(b.objects), b.objects)
    ensures r != Failure(WormMissing)
    ensures r.Success? ==>
              forall t, i | 0 <= t < |targets| && 0 <= i < |snapshot| ::
                Holds(c, source.maxLogicalBytes, source.backend.objects, targets[t].backend.objects, snapshot[i])
    ensures old(AllCopyable(c, source, targets, snapshot)) ==> r.Success?
  {
    ghost var fit := AllCopyable(c, source, targets, snapshot);
    for t := 0 to |targets|
      invariant fit ==> AllCopyable(c, source, targets, snapshot)
      invariant forall b | b in Backends(source, targets) :: Extends(old(b.objects), b.objects)
      invariant forall u, i | 0 <= u < t && 0 <= i < |snapshot| ::
                  Holds(c, source.maxLogicalBytes, source.backend.objects, targets[u].backend.objects, snapshot[i])
    {
      var copied := CopyTarget(c, source, snapshot, targets, t);
      if copied.Failure? {
        return copied;
      }
    }
    r := Success(());
  }

  predicate Distinct(targets: seq<Target>) {
    forall i, j | 0 <= i < j < |targets| :: targets[i].name != targets[j].name
  }

  /** A well-formed request. */
  predicate Requested(targets: seq<Target>, challenge: string, minimumVerifiedTargets: nat) {
    && 1 <= minimumVerifiedTargets <= |targets| <= MAX_TARGETS && Challenge(challenge) && Distinct(targets)
    && forall i | 0 <= i < |targets| :: TargetLabel(targets[i].name)
  }

  /** The source can be recorded, the targets can be probed, no target holds anything else under a key of the
      source, and a WORM requirement is met by every target. */
  ghost predicate Replicable(c: Codec, sentinels: Sentinels, source: Store, targets: seq<Target>, challenge: string,
      requireWorm: bool)
    reads Backends(source, targets)
  {
    && source.backend.reliable && Snapshotable(c, source.maxLogicalBytes, source.backend.objects)
    && Unprobed(c, sentinels, source, targets, challenge, 0)
    && (requireWorm ==> forall t | 0 <= t < |targets| :: !targets[t].backend.obedient)
    && forall t, k | 0 <= t < |targets| && k in targets[t].backend.objects && k in source.backend.objects ::
         targets[t].backend.objects[k] == source.backend.objects[k]
  }

  /** A snapshot of the source can be copied to a target when the probes have changed nothing but sentinels. */
  lemma CopyableOnceProbed(c: Codec, limit: nat, source: Objects, source': Objects, target: Objects, target': Objects,
      snapshot: seq<ObjectRecord>, sentinels: Sentinels, targets: seq<Target>, challenge: string)
    requires Snapshots(c, limit, snapshot, source) && Snapshotable(c, limit, source)
    requires Kept(source, source', c, sentinels, targets, challenge)
    requires Uncopied(target, target', c, sentinels, targets, challenge)
    requires Kept(target, target', c, sentinels, targets, challenge)
    requires forall k | k in source && k in target :: target[k] == source[k]
    requires forall k | k in source :: !SentinelKey(c, sentinels, targets, challenge, k)
    ensures Copyable(c, limit, source', target', snapshot)
  {
    forall i | 0 <= i < |snapshot| ensures CopyableRecord(c, limit, source', target', snapshot[i]) {
      assert snapshot[i].logicalSha256 in source;
    }
  }

  lemma NoneFails(c: Codec, sentinels: Sentinels, source: Store, targets: seq<Target>, challenge: string)
    requires source.backend.reliable && Probeable(c, sentinels, targets, challenge)
    ensures forall b | b in Backends(source, targets) :: b.reliable
  {
    forall b | b in Backends(source, targets) ensures b.reliable {
      if b != source.backend {
        var t :| 0 <= t < |targets| && targets[t].backend == b;
        assert ProbeableTarget(c, sentinels, targets[t], challenge);
      }
    }
  }

  /** What replicate_backup does with a snapshot: the probes, the WORM requirement and the copies. */
  method ReplicateSnapshot(c: Codec, sentinels: Sentinels, source: Store, targets: seq<Target>, challenge: string,
                           requireWorm: bool, snapshot: seq<ObjectRecord>)
    returns (r: Result<seq<Probe>, Error>)
    requires BlobStore.Faithful(c) && Snapshots(c, source.maxLogicalBytes, snapshot, source.backend.objects)
    modifies Backends(source, targets)
    ensures r.Success? ==>
              && |r.value| == |targets|
              && (requireWorm ==> forall t | 0 <= t < |targets| :: r.value[t].deletionResistance)
              && forall t | 0 <= t < |targets| :: r.value[t].name == targets[t].name
    ensures r.Success? ==>
              forall t, i | 0 <= t < |targets| && 0 <= i < |snapshot| ::
                Holds(c, source.maxLogicalBytes, source.backend.objects, targets[t].backend.objects, snapshot[i])
    ensures forall b | b in Backends(source, targets) ::
              Kept(old(b.objects), b.objects, c, sentinels, targets, challenge)
    ensures r == Failure(WormMissing) ==> OnlySentinels(c, sentinels, source, targets, challenge)
    ensures old(Replicable(c, sentinels, source, targets, challenge, requireWorm)) ==> r.Success?
  {
    ghost var fit := Replicable(c, sentinels, source, targets, challenge, requireWorm);
    var probes := ProbeAll(c, sentinels, targets, challenge, source);
    if probes.Failure? {
      return probes;
    }
    if requireWorm && exists t | 0 <= t < |targets| :: !probes.value[t].deletionResistance {
      return Failure(WormMissing);
    }
    if fit {
      NoneFails(c, sentinels, source, targets, challenge);
      forall t | 0 <= t < |targets|
        ensures Copyable(c, source.maxLogicalBytes, source.backend.objects, targets[t].backend.objects, snapshot)
      {
        CopyableOnceProbed(c, source.maxLogicalBytes, old(source.backend.objects), source.backend.objects,
                           old(targets[t].backend.objects), targets[t].backend.objects, snapshot, sentinels,
                           targets, challenge);
      }
    }
    var copied := CopyAll(c, source, snapshot, targets);
    if copied.Failure? {
      return Failure(copied.error);
    }
    r := probes;
  }

  /** replicate_backup */
  method ReplicateBackup(c: Codec, sentinels: Sentinels, source: Store, targets: seq<Target>, challenge: string,
                         requireWorm: bool, minimumVerifiedTargets: nat)
    returns (r: Result<Receipt, Error>)
    requires BlobStore.Faithful(c)
    modifies Backends(source, targets)
    // A returned receipt: every target holds each snapshot key with the exact source envelope.
    ensures r.Success? ==> Snapshots(c, source.maxLogicalBytes, r.value.snapshot, old(source.backend.objects))
    ensures r.Success? ==>
              forall t, i | 0 <= t < |targets| && 0 <= i < |r.value.snapshot| ::
                Holds(c, source.maxLogicalBytes, source.backend.objects, targets[t].backend.objects,
                    r.value.snapshot[i])
    ensures r.Success? ==>
              && r.value.requireWorm == requireWorm && r.value.minimumVerifiedTargets == minimumVerifiedTargets
              && minimumVerifiedTargets <= |r.value.probes| == |targets|
              && (requireWorm ==> forall t | 0 <= t < |targets| :: r.value.probes[t].deletionResistance)
              && forall t | 0 <= t < |targets| :: r.value.probes[t].name == targets[t].name
    // In every case no existing object other than a sentinel changed, on any backend.
    ensures forall b | b in Backends(source, targets) ::
              Kept(old(b.objects), b.objects, c, sentinels, targets, challenge)
    // A failed WORM requirement leaves nothing copied.
    ensures r == Failure(WormMissing) ==> OnlySentinels(c, sentinels, source, targets, challenge)
    // A request that is not well formed touches nothing; when nothing stands in the way, a well-formed one is met.
    ensures !Requested(targets, challenge, minimumVerifiedTargets) ==>
              r == Failure(Refused) && forall b | b in Backends(source, targets) :: b.objects == old(b.objects)
    ensures old(Replicable(c, sentinels, source, targets, challenge, requireWorm)) ==>
              Requested(targets, challenge, minimumVerifiedTargets) ==> r.Success?
  {
    if !Requested(targets, challenge, minimumVerifiedTargets) {
      return Failure(Refused);
    }
    var snapshot := CreateBackupSnapshot(c, source);
    if snapshot.Failure? {
      return Failure(snapshot.error);
    }
    var probes := ReplicateSnapshot(c, sentinels, source, targets, challenge, requireWorm, snapshot.value);
    if probes.Failure? {
      return Failure(probes.error);
    }
    r := Success(Receipt(snapshot.value, requireWorm, minimumVerifiedTargets, probes.value));
  }

  /** What the receipt says about an object of the source that is no sentinel: every target holds the envelope
      that the source had when replication began. */
  lemma ReplicaIsOriginal(c: Codec, limit: nat, before: Objects, source: Objects, target: Objects, record: ObjectRecord,
                          sentinels: Sentinels, targets: seq<Target>, challenge: string)
    requires Holds(c, limit, source, target, record) && record.logicalSha256 in before
    requires Kept(before, source, c, sentinels, targets, challenge)
    requires !SentinelKey(c, sentinels, targets, challenge, record.logicalSha256)
    ensures target[record.logicalSha256] == before[record.logicalSha256]
  {
  }
}
