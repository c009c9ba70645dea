/** What a successful read of the record store vouches for, whatever the bytes on disk are
    (evidence/store.py:202-265). */
module RecordIntegrity {
  import opened Wrappers
  import opened RecordStore

  /** The manifest describes exactly this payload, which is this evidence of the store's key. */
  ghost predicate Describes(c: Config, m: Manifest, payload: Bytes, e: Evidence) {
    && m.recordKey == c.key && KeyOf(c, e) == c.key
    && m.trialId == e.trialId && m.subject == e.subject && m.scenario == e.scenario
    && m.payloadBytes == |payload| && m.payloadSha == c.sha(payload) && m.evidenceRoot == c.root(e)
  }

  /** A read succeeds exactly when both files are within the ceilings, decode, and describe one another. */
  lemma ReadVouches(c: Config, manifestBytes: Bytes, payload: Bytes, m: Manifest, e: Evidence)
    ensures Validate(c, manifestBytes, payload) == Success((m, e)) <==>
              && |manifestBytes| <= c.maxManifest && |payload| <= c.maxPayload
              && c.decodeManifest(manifestBytes) == Some(m) && c.decodeEvidence(payload) == Some(e)
              && Describes(c, m, payload, e)
  {
  }

  /** A read fails as a resource error exactly when a file is over its ceiling, and otherwise as an integrity error. */
  lemma RefusedReads(c: Config, manifestBytes: Bytes, payload: Bytes)
    requires Validate(c, manifestBytes, payload).Failure?
    ensures Validate(c, manifestBytes, payload).error
         == if |manifestBytes| > c.maxManifest || |payload| > c.maxPayload then Resource else Integrity
  {
  }

  /** Under one manifest two different payloads both read back only if their digests collide, and two different
      evidences only if their roots do. */
  lemma TamperingNeedsCollision(c: Config, manifestBytes: Bytes, p: Bytes, q: Bytes)
    requires Validate(c, manifestBytes, p).Success? && Validate(c, manifestBytes, q).Success?
    ensures c.sha(p) == c.sha(q)
    ensures var e, f := Validate(c, manifestBytes, p).value.1, Validate(c, manifestBytes, q).value.1;
            c.root(e) == c.root(f) && e.trialId == f.trialId && e.subject == f.subject && e.scenario == f.scenario
  {
  }

  /** What the store prepares for an evidence of its key is what a read accepts. */
  lemma PreparedReadsBack(c: Config, e: Evidence)
    requires Faithful(c) && KeyOf(c, e) == c.key
    requires |c.encodeEvidence(e)| <= c.maxPayload && |c.encodeManifest(ManifestFor(c, e))| <= c.maxManifest
    ensures Validate(c, c.encodeManifest(ManifestFor(c, e)), c.encodeEvidence(e)) == Success((ManifestFor(c, e), e))
  {
    ReadVouches(c, c.encodeManifest(ManifestFor(c, e)), c.encodeEvidence(e), ManifestFor(c, e), e);
  }
}
