/** The immutable object contract and the content-addressed evidence store (evidence/blob_store.py:30-230). */
module BlobStore {
  import opened Wrappers
  import opened Hashing
  import opened EvidenceRoots

  type Objects = map<string, Bytes>

  /** validate_blob_key */
  predicate BlobKey(key: string) {
    |key| == 64 && forall i | 0 <= i < 64 :: '0' <= key[i] <= '9' || 'a' <= key[i] <= 'f'
  }

  /** The objects differ at most at one key. */
  ghost predicate OnlyAt(before: Objects, after: Objects, key: string) {
    forall k | k != key :: (k in before <==> k in after) && (k in before ==> before[k] == after[k])
  }

  /** Every object is still there, unchanged. */
  ghost predicate Extends(before: Objects, after: Objects) {
    forall k | k in before :: k in after && after[k] == before[k]
  }

  /** A backend that meets the no-clobber contract. Any call may fail; a failed put may leave a partial object
      under a key that was absent, and a delete may be carried out, refused, or reported wrongly. */
  class Backend {
    var objects: Objects
    /** No call fails of itself. */
    const reliable: bool
    /** Deletes what it is asked to delete and reports what it did, as the filesystem backend does. */
    const obedient: bool
    /** Otherwise: refuses every deletion, as a write-once backend does. */
    const resistant: bool

    /** None stands for an exception, in every method. */
    method PutIfAbsent(key: string, content: Bytes) returns (created: Option<bool>)
      modifies this
      ensures OnlyAt(old(objects), objects, key) && Extends(old(objects), objects)
      ensures created == Some(true) ==> key !in old(objects) && objects == old(objects)[key := content]
      ensures created == Some(false) ==> key in old(objects)
      ensures created.None? && (!BlobKey(key) || key in old(objects)) ==> objects == old(objects)
      ensures reliable && BlobKey(key) ==> created == Some(key !in old(objects))
    {
      if !BlobKey(key) {
        return None;
      }
      if !reliable {
        if * {
          return None;
        }
      }
      if key in objects {
        return Some(false);
      }
      objects := objects[key := []];
      var offset := 0;
      while offset < |content|
        invariant 0 <= offset <= |content|
        invariant objects == old(objects)[key := content[..offset]]
      {
        var written: int :| written <= |content| - offset && (reliable ==> written > 0);
        if written <= 0 {
          return None;
        }
        objects := objects[key := content[..offset + written]];
        offset := offset + written;
      }
      assert content[..|content|] == content;
      created := Some(true);
    }

    method Get(key: string) returns (content: Option<Bytes>)
      ensures content.Some? ==> key in objects && content.value == objects[key]
      ensures reliable && key in objects ==> content == Some(objects[key])
    {
      if key !in objects {
        return None;
      }
      if !reliable {
        if * {
          return None;
        }
      }
      content := Some(objects[key]);
    }

    method Delete(key: string) returns (deleted: Option<bool>)
      modifies this
      ensures objects == old(objects) || objects == old(objects) - {key}
      ensures obedient && deleted.Some? ==> objects == old(objects) - {key} && (deleted.value <==> key in old(objects))
      ensures obedient && BlobKey(key) ==> deleted.Some?
      ensures !obedient && resistant ==> deleted == Some(false) && objects == old(objects)
    {
      if obedient {
        if !BlobKey(key) {
          return None;
        }
        deleted := Some(key in objects);
        objects := objects - {key};
        return;
      }
      if resistant {
        return Some(false);
      }
      if * {
        objects := objects - {key};
      }
      deleted := *;
    }

    method ListKeys() returns (keys: Option<seq<string>>)
      ensures keys.Some? ==> (forall k :: k in keys.value <==> k in objects) && |keys.value| == |objects|
                             && forall i, j | 0 <= i < j < |keys.value| :: keys.value[i] != keys.value[j]
      ensures reliable ==> keys.Some?
    {
      if !reliable {
        if * {
          return None;
        }
      }
      var remaining, listed: seq<string> := objects.Keys, [];
      while remaining != {}
        invariant remaining <= objects.Keys
        invariant forall k :: k in listed <==> k in objects && k !in remaining
        invariant forall i, j | 0 <= i < j < |listed| :: listed[i] != listed[j]
        invariant |listed| + |remaining| == |objects|
        decreases |remaining|
      {
        var k :| k in remaining;
        remaining, listed := remaining - {k}, listed + [k];
      }
      keys := Some(listed);
    }
  }

  // ---------------------------------------------------------------- envelopes

  datatype Compression = NoCompression | Gzip

  datatype Manifest = Manifest(logicalSha256: string, evidenceRoot: string, logicalBytes: nat, storedBytes: nat,
      compression: Compression)

  /** The encoders that the store calls: manifest headers, gzip, canonical evidence, hashes and roots. */
  datatype Codec = Codec(
    header: Manifest -> Bytes, parseHeader: Bytes -> Option<Manifest>,
    gzip: Bytes -> Bytes, gunzip: (Bytes, nat) -> Option<Bytes>,
    canonical: TrialEvidence -> Bytes, parse: Bytes -> Option<TrialEvidence>,
    sha256: Bytes -> string, root: TrialEvidence -> string)

  const NEWLINE: Byte := 10

  /** Parsing undoes encoding, and a manifest header is one line of text. */
  ghost predicate Faithful(c: Codec) {
    && (forall m :: c.parseHeader(c.header(m)) == Some(m) && NEWLINE !in c.header(m))
    && (forall b, n: nat | |b| <= n :: c.gunzip(c.gzip(b), n) == Some(b))
    && (forall e :: c.parse(c.canonical(e)) == Some(e))
  }

  /** encode_envelope */
  function EncodeEnvelope(c: Codec, m: Manifest, stored: Bytes): Bytes {
    c.header(m) + [NEWLINE] + stored
  }

  /** The position of the first newline; the length when there is none. */
  function FirstNewline(b: Bytes): (i: nat)
    ensures i <= |b| && (i < |b| ==> b[i] == NEWLINE) && NEWLINE !in b[..i]
  {
    if b == [] || b[0] == NEWLINE then 0 else 1 + FirstNewline(b[1..])
  }

  /** decode_envelope */
  function DecodeEnvelope(c: Codec, envelope: Bytes): Option<(Manifest, Bytes)> {
    var i := FirstNewline(envelope);
    if i == |envelope| then None
    else
      match c.parseHeader(envelope[..i])
      case None => None
      case Some(m) => Some((m, envelope[i + 1..]))
  }

  lemma {:induction false} FirstNewlineAt(b: Bytes, n: nat)
    requires n < |b| && b[n] == NEWLINE && NEWLINE !in b[..n]
    ensures FirstNewline(b) == n
  {
    if n > 0 {
      assert b[..n][0] == b[0] && b[1..][..n - 1] == b[..n][1..];
      FirstNewlineAt(b[1..], n - 1);
    }
  }

  /** Decoding an envelope gives back the manifest and the stored bytes, whatever bytes those are. */
  lemma EnvelopeRoundTrip(c: Codec, m: Manifest, stored: Bytes)
    requires Faithful(c)
    ensures DecodeEnvelope(c, EncodeEnvelope(c, m, stored)) == Some((m, stored))
  {
    var envelope, n := EncodeEnvelope(c, m, stored), |c.header(m)|;
    assert envelope[n] == NEWLINE && envelope[..n] == c.header(m) && envelope[n + 1..] == stored;
    FirstNewlineAt(envelope, n);
  }

  /** _decode on the bytes of one object. */
  function DecodeBlob(c: Codec, limit: nat, key: string, envelope: Bytes): Option<(Manifest, Bytes)> {
    match DecodeEnvelope(c, envelope)
    case None => None
    case Some((m, stored)) =>
      if !BlobKey(key) || m.logicalSha256 != key || m.storedBytes != |stored| || m.logicalBytes > limit then None
      else
        match (if m.compression.NoCompression? then Some(stored) else c.gunzip(stored, limit))
        case None => None
        case Some(logical) => if |logical| != m.logicalBytes || c.sha256(logical) != key then None
            else Some((m, logical))
  }

  /** read on the bytes of one object; also _verify_exact_envelope. */
  function ReadBlob(c: Codec, limit: nat, key: string, envelope: Bytes): Option<TrialEvidence> {
    match DecodeBlob(c, limit, key, envelope)
    case None => None
    case Some((m, logical)) =>
      match c.parse(logical)
      case None => None
      case Some(e) => if c.root(e) != m.evidenceRoot then None else Some(e)
  }

  /** The bytes that the manifest stores, as logical bytes within the ceiling. */
  ghost predicate Unpacks(c: Codec, limit: nat, m: Manifest, stored: Bytes, logical: Bytes) {
    match m.compression
    case NoCompression => logical == stored
    case Gzip => c.gunzip(stored, limit) == Some(logical)
  }

  /** The object is an envelope whose manifest describes exactly what it stores, and that is the canonical text of the
      evidence: key, sizes, digest and root all agree. */
  ghost predicate Vouches(c: Codec, limit: nat, key: string, envelope: Bytes, m: Manifest, stored: Bytes,
      logical: Bytes, e: TrialEvidence) {
    && DecodeEnvelope(c, envelope) == Some((m, stored)) && Unpacks(c, limit, m, stored, logical)
    && BlobKey(key) && m.logicalSha256 == key && c.sha256(logical) == key
    && m.storedBytes == |stored| && m.logicalBytes == |logical| <= limit
    && c.parse(logical) == Some(e) && c.root(e) == m.evidenceRoot
  }

  /** A read gives an evidence exactly when the object vouches for it. */
  lemma ReadBlobMeaning(c: Codec, limit: nat, key: string, envelope: Bytes, e: TrialEvidence)
    ensures ReadBlob(c, limit, key, envelope) == Some(e)
       <==> exists m, stored, logical :: Vouches(c, limit, key, envelope, m, stored, logical, e)
  {
    if ReadBlob(c, limit, key, envelope) == Some(e) {
      var m, stored := DecodeEnvelope(c, envelope).value.0, DecodeEnvelope(c, envelope).value.1;
      assert Vouches(c, limit, key, envelope, m, stored, DecodeBlob(c, limit, key, envelope).value.1, e);
    }
  }

  // ---------------------------------------------------------------- the store

  datatype Store = Store(backend: Backend, compression: Compression, maxLogicalBytes: nat)

  /** Why an operation was refused: the exceptions of the stores, of replication and of collection. */
  datatype Error = TooLarge | Unavailable | Integrity | Conflict | Refused | WormMissing

  function KeyOf(c: Codec, e: TrialEvidence): string {
    c.sha256(c.canonical(e))
  }

  function ManifestOf(c: Codec, compression: Compression, e: TrialEvidence): Manifest {
    var logical := c.canonical(e);
    Manifest(c.sha256(logical), c.root(e), |logical|, |Stored(c, compression, logical)|, compression)
  }

  function Stored(c: Codec, compression: Compression, logical: Bytes): Bytes {
    if compression.NoCompression? then logical else c.gzip(logical)
  }

  function EnvelopeOf(c: Codec, compression: Compression, e: TrialEvidence): Bytes {
    EncodeEnvelope(c, ManifestOf(c, compression, e), Stored(c, compression, c.canonical(e)))
  }

  /** The envelope that the store creates reads back as the evidence it was made from. */
  lemma CreatedBlobReadsBack(c: Codec, compression: Compression, limit: nat, e: TrialEvidence)
    requires Faithful(c) && BlobKey(KeyOf(c, e)) && |c.canonical(e)| <= limit
    ensures ReadBlob(c, limit, KeyOf(c, e), EnvelopeOf(c, compression, e)) == Some(e)
    ensures DecodeBlob(c, limit, KeyOf(c, e), EnvelopeOf(c, compression, e))
         == Some((ManifestOf(c, compression, e), c.canonical(e)))
  {
    EnvelopeRoundTrip(c, ManifestOf(c, compression, e), Stored(c, compression, c.canonical(e)));
  }

  /** What a reliable backend lets a write of this evidence find under its key. */
  ghost predicate Writable(c: Codec, limit: nat, objects: Objects, e: TrialEvidence) {
    && |c.canonical(e)| <= limit && BlobKey(KeyOf(c, e))
    && (KeyOf(c, e) in objects ==> ReadBlob(c, limit, KeyOf(c, e), objects[KeyOf(c, e)]) == Some(e))
  }

  /** _write_prepared: a returned manifest means that the object under the evidence's key reads back as this
      evidence, whether this call created it or found it there; on a reliable backend the write succeeds exactly when
      the evidence is within the ceiling and nothing else is under its key. */
  method WritePrepared(c: Codec, s: Store, e: TrialEvidence) returns (r: Result<Manifest, Error>)
    requires Faithful(c)
    modifies s.backend
    ensures OnlyAt(old(s.backend.objects), s.backend.objects, KeyOf(c, e))
        && Extends(old(s.backend.objects), s.backend.objects)
    ensures r.Success? ==>
              && KeyOf(c, e) in s.backend.objects
              && ReadBlob(c, s.maxLogicalBytes, KeyOf(c, e), s.backend.objects[KeyOf(c, e)]) == Some(e)
              && r.value.logicalSha256 == KeyOf(c, e)
              && DecodeBlob(c, s.maxLogicalBytes, KeyOf(c, e), s.backend.objects[KeyOf(c, e)]).value.0 == r.value
    ensures s.backend.reliable ==> (r.Success? <==> Writable(c, s.maxLogicalBytes, old(s.backend.objects), e))
    ensures |c.canonical(e)| > s.maxLogicalBytes <==> r == Failure(TooLarge)
    ensures r == Failure(Conflict) ==>
              && KeyOf(c, e) in s.backend.objects
              && ReadBlob(c, s.maxLogicalBytes, KeyOf(c, e), s.backend.objects[KeyOf(c, e)]).Some?
              && ReadBlob(c, s.maxLogicalBytes, KeyOf(c, e), s.backend.objects[KeyOf(c, e)]) != Some(e)
  {
    var logical := c.canonical(e);
    if |logical| > s.maxLogicalBytes {
      return Failure(TooLarge);
    }
    var key := c.sha256(logical);
    var created := s.backend.PutIfAbsent(key, EnvelopeOf(c, s.compression, e));
    if created.None? || !BlobKey(key) {
      return Failure(Unavailable);
    }
    if created.value {
      CreatedBlobReadsBack(c, s.compression, s.maxLogicalBytes, e);
      return Success(ManifestOf(c, s.compression, e));
    }
    var existing := Read(c, s, key);
    if existing.Failure? {
      return Failure(existing.error);
    }
    if existing.value != e {
      return Failure(Conflict);
    }
    var envelope := s.backend.Get(key);
    if envelope.None? {
      return Failure(Unavailable);
    }
    r := Success(DecodeBlob(c, s.maxLogicalBytes, key, envelope.value).value.0);
  }

  method Read(c: Codec, s: Store, key: string) returns (r: Result<TrialEvidence, Error>)
    ensures r.Success? ==>
              key in s.backend.objects && ReadBlob(c, s.maxLogicalBytes, key, s.backend.objects[key]) == Some(r.value)
    ensures s.backend.reliable && key in s.backend.objects && BlobKey(key) ==>
              (r.Success? <==> ReadBlob(c, s.maxLogicalBytes, key, s.backend.objects[key]).Some?)
    ensures r.Failure? ==> r.error == Integrity || r.error == Unavailable
  {
    if !BlobKey(key) {
      return Failure(Integrity);
    }
    var envelope := s.backend.Get(key);
    if envelope.None? {
      return Failure(Unavailable);
    }
    var e := ReadBlob(c, s.maxLogicalBytes, key, envelope.value);
    r := if e.None? then Failure(Integrity) else Success(e.value);
  }

  /** Two objects that read back under the same key are the same evidence, or their canonical bytes collide. */
  lemma KeyDeterminesEvidence(c: Codec, limit: nat, key: string, a: Bytes, b: Bytes) returns (u: Bytes, v: Bytes)
    requires ReadBlob(c, limit, key, a).Some? && ReadBlob(c, limit, key, b).Some?
    ensures ReadBlob(c, limit, key, a) == ReadBlob(c, limit, key, b) || (u != v && c.sha256(u) == c.sha256(v))
  {
    u := DecodeBlob(c, limit, key, a).value.1;
    v := DecodeBlob(c, limit, key, b).value.1;
  }
}
