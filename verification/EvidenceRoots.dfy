/** The evidence root (evidence/models.py:183-206), its second implementation on persisted JSON
    (evidence/legacy_v2.py:117-148), and what equal roots say about the evidence. */
module EvidenceRoots {
  import opened Wrappers
  import opened PointerPath
  import opened Hashing

  /** The fields of an event as its JSON dump carries them; `kind` and `observedAt` are their serialised texts. */
  datatype Event = Event(sequence: nat, kind: string, source: string, payload: Json, observedAt: string, critical: bool)

  /** Identities are 64 hexadecimal characters; elapsed time and cost are their decimal tokens. */
  type Identity = s: string | |s| == 64 witness seq(64, i => '0')

  datatype TrialEvidence = TrialEvidence(
    trialId: string, subjectIdentity: Identity, scenarioIdentity: Identity, events: seq<Event>,
    finalState: Json, finalOutput: Option<string>, elapsedMs: string, inputTokens: nat, outputTokens: nat,
        estimatedCostUsd: string)

  // ---------------------------------------------------------------- dumps

  function DumpEvent(e: Event): Json {
    Object(map["sequence" := Number(Decimal(e.sequence)), "kind" := Text(e.kind), "source" := Text(e.source),
               "payload" := e.payload, "observed_at" := Text(e.observedAt), "critical" := Bool(e.critical)])
  }

  function DumpOutput(output: Option<string>): Json {
    match output
    case None => Null
    case Some(s) => Text(s)
  }

  /** The current JSON dump of an envelope. */
  function Dump(e: TrialEvidence): map<string, Json> {
    map["trial_id" := Text(e.trialId), "subject_identity" := Text(e.subjectIdentity), "scenario_identity" :=
        Text(e.scenarioIdentity),
        "events" := Array(seq(|e.events|, i requires 0 <= i < |e.events| => DumpEvent(e.events[i]))),
        "final_state" := e.finalState, "final_output" := DumpOutput(e.finalOutput), "elapsed_ms" := Number(e.elapsedMs),
        "input_tokens" := Number(Decimal(e.inputTokens)), "output_tokens" := Number(Decimal(e.outputTokens)),
        "estimated_cost_usd" := Number(e.estimatedCostUsd)]
  }

  /** The object whose bytes start the chain. */
  function IdentityObject(trial: Json, subject: Json, scenario: Json): Json {
    Object(map["trial_id" := trial, "subject_identity" := subject, "scenario_identity" := scenario])
  }

  /** The object whose bytes close the root. */
  function TerminalObject(state: Json, output: Json, elapsed: Json, input: Json, produced: Json, cost: Json): Json {
    Object(map["final_state" := state, "final_output" := output, "elapsed_ms" := elapsed, "input_tokens" := input,
               "output_tokens" := produced, "estimated_cost_usd" := cost])
  }

  // ---------------------------------------------------------------- the root

  /** b"agent-evals/trial-evidence/v2\0" */
  const ROOT_DOMAIN: Bytes :=
    [97, 103, 101, 110, 116, 45, 101, 118, 97, 108, 115, 47, 116, 114, 105, 97, 108, 45, 101, 118, 105, 100, 101, 110,
        99, 101, 47, 118, 50, 0]

  function EventDigest(h: Hasher, e: Event): string {
    Hex(h.sha(h.encode(DumpEvent(e))))
  }

  function EventDigests(h: Hasher, events: seq<Event>): seq<Digest> {
    seq<Digest>(|events|, i requires 0 <= i < |events| => h.sha(h.encode(DumpEvent(events[i]))))
  }

  /** The running chain after some event digests. */
  function Chain(h: Hasher, identity: Bytes, digests: seq<Digest>): Digest {
    if digests == [] then h.sha(ROOT_DOMAIN + identity)
    else h.sha(Chain(h, identity, digests[..|digests| - 1]) + digests[|digests| - 1])
  }

  function IdentityBytes(h: Hasher, e: TrialEvidence): Bytes {
    h.encode(IdentityObject(Text(e.trialId), Text(e.subjectIdentity), Text(e.scenarioIdentity)))
  }

  function TerminalBytes(h: Hasher, e: TrialEvidence): Bytes {
    h.encode(TerminalObject(e.finalState, DumpOutput(e.finalOutput), Number(e.elapsedMs),
        Number(Decimal(e.inputTokens)),
                            Number(Decimal(e.outputTokens)), Number(e.estimatedCostUsd)))
  }

  /** What evidence_root stands for. */
  function Root(h: Hasher, e: TrialEvidence): string {
    Hex(h.sha(ROOT_DOMAIN + Chain(h, IdentityBytes(h, e), EventDigests(h, e.events)) + TerminalBytes(h, e)))
  }

  /** evidence_root: every event digest goes through its hexadecimal text and back. */
  method EvidenceRoot(h: Hasher, e: TrialEvidence) returns (root: string)
    ensures root == Root(h, e)
  {
    var chain: Bytes := h.sha(ROOT_DOMAIN + IdentityBytes(h, e));
    ghost var digests := EventDigests(h, e.events);
    for i := 0 to |e.events|
      invariant chain == Chain(h, IdentityBytes(h, e), digests[..i])
    {
      HexRoundTrip(digests[i]);
      var digest := FromHex(EventDigest(h, e.events[i])).value;
      chain := h.sha(chain + digest);
      assert digests[..i + 1][..i] == digests[..i];
    }
    assert digests[..|e.events|] == digests;
    root := Hex(h.sha(ROOT_DOMAIN + chain + TerminalBytes(h, e)));
  }

  // ---------------------------------------------------------------- the historical root

  predicate HasIdentity(m: map<string, Json>) {
    "trial_id" in m && "subject_identity" in m && "scenario_identity" in m
  }

  predicate HasTerminal(m: map<string, Json>) {
    && "final_state" in m && "final_output" in m && "elapsed_ms" in m && "input_tokens" in m && "output_tokens" in m
    && "estimated_cost_usd" in m
  }

  predicate HasEvents(m: map<string, Json>) {
    "events" in m && m["events"].Array? && forall i | 0 <= i < |m["events"].items| :: m["events"].items[i].Object?
  }

  /** Everything the historical root reads is present and of the right shape. */
  predicate Readable(raw: Json) {
    raw.Object? && HasEvents(raw.members) && HasIdentity(raw.members) && HasTerminal(raw.members)
  }

  function RawIdentity(m: map<string, Json>): Json
    requires HasIdentity(m)
  {
    IdentityObject(m["trial_id"], m["subject_identity"], m["scenario_identity"])
  }

  function RawTerminal(m: map<string, Json>): Json
    requires HasTerminal(m)
  {
    TerminalObject(m["final_state"], m["final_output"], m["elapsed_ms"], m["input_tokens"], m["output_tokens"],
        m["estimated_cost_usd"])
  }

  function RawDigests(h: Hasher, items: seq<Json>): seq<Digest> {
    seq<Digest>(|items|, i requires 0 <= i < |items| => h.sha(h.encode(items[i])))
  }

  /** The historical root of readable material. */
  function RawRoot(h: Hasher, raw: Json): string
    requires Readable(raw)
  {
    var m := raw.members;
    Hex(h.sha(ROOT_DOMAIN + Chain(h, h.encode(RawIdentity(m)), RawDigests(h, m["events"].items))
        + h.encode(RawTerminal(m))))
  }

  /** _historical_v2_root; None when the material is malformed. */
  method HistoricalRoot(h: Hasher, raw: Json) returns (root: Option<string>)
    ensures root == if Readable(raw) then Some(RawRoot(h, raw)) else None
  {
    if !raw.Object? || "events" !in raw.members || !raw.members["events"].Array? || !HasIdentity(raw.members) {
      return None;
    }
    var events := raw.members["events"].items;
    var identity := h.encode(RawIdentity(raw.members));
    var chain: Digest := h.sha(ROOT_DOMAIN + identity);
    ghost var digests := RawDigests(h, events);
    for i := 0 to |events|
      invariant chain == Chain(h, identity, digests[..i])
      invariant forall k | 0 <= k < i :: events[k].Object?
    {
      if !events[i].Object? {
        return None;
      }
      chain := h.sha(chain + h.sha(h.encode(events[i])));
      assert digests[..i + 1][..i] == digests[..i];
    }
    assert digests[..|events|] == digests;
    if !HasTerminal(raw.members) {
      return None;
    }
    root := Some(Hex(h.sha(ROOT_DOMAIN + chain + h.encode(RawTerminal(raw.members)))));
  }

  lemma DumpLookups(e: TrialEvidence)
    ensures var m := Dump(e);
            && HasIdentity(m) && RawIdentity(m)
               == IdentityObject(Text(e.trialId), Text(e.subjectIdentity), Text(e.scenarioIdentity))
            && HasEvents(m) && m["events"].items
               == seq(|e.events|, i requires 0 <= i < |e.events| => DumpEvent(e.events[i]))
  {
  }

  lemma DumpTerminal(e: TrialEvidence)
    ensures var m := Dump(e);
            && HasTerminal(m)
            && RawTerminal(m) == TerminalObject(e.finalState, DumpOutput(e.finalOutput), Number(e.elapsedMs),
                                                Number(Decimal(e.inputTokens)), Number(Decimal(e.outputTokens)),
                                                    Number(e.estimatedCostUsd))
  {
  }

  /** The historical implementation, on the current dump, gives the evidence root. */
  lemma HistoricalRootOfDump(h: Hasher, e: TrialEvidence)
    ensures Readable(Object(Dump(e))) && RawRoot(h, Object(Dump(e))) == Root(h, e)
  {
    DumpLookups(e);
    DumpTerminal(e);
    assert RawDigests(h, Dump(e)["events"].items) == EventDigests(h, e.events);
  }

  // ---------------------------------------------------------------- what equal roots say

  /** Two chains that end alike: the same start and digests, or a collision. The first block of a chain and its
      later blocks never have the same length, so event counts are told apart too. */
  lemma {:induction false} ChainBinds(h: Hasher, i: Bytes, ds: seq<Digest>, j: Bytes, es: seq<Digest>)
    returns (a: Bytes, b: Bytes)
    requires Chain(h, i, ds) == Chain(h, j, es) && |i| >= 64 && |j| >= 64
    ensures Collision(h, a, b) || (i == j && ds == es)
    decreases |ds|
  {
    var m, n := |ds| - 1, |es| - 1;
    a := if ds == [] then ROOT_DOMAIN + i else Chain(h, i, ds[..m]) + ds[m];
    b := if es == [] then ROOT_DOMAIN + j else Chain(h, j, es[..n]) + es[n];
    assert h.sha(a) == h.sha(b);
    if a == b {
      if ds == [] && es == [] {
        SplitEqual(ROOT_DOMAIN, i, ROOT_DOMAIN, j);
      } else {
        assert ds != [] && es != [] by { assert |ROOT_DOMAIN| == 30; }
        SplitEqual(Chain(h, i, ds[..m]), ds[m], Chain(h, j, es[..n]), es[n]);
        a, b := ChainBinds(h, i, ds[..m], j, es[..n]);
        assert ds == ds[..m] + [ds[m]] && es == es[..n] + [es[n]];
      }
    }
  }

  lemma DumpFields(e: Event)
    ensures var m := DumpEvent(e).members;
            && "sequence" in m && m["sequence"] == Number(Decimal(e.sequence)) && "kind" in m
               && m["kind"] == Text(e.kind)
            && "source" in m && m["source"] == Text(e.source) && "payload" in m && m["payload"] == e.payload
            && "observed_at" in m && m["observed_at"] == Text(e.observedAt) && "critical" in m
               && m["critical"] == Bool(e.critical)
  {
  }

  lemma SameDump(e: Event, f: Event)
    requires DumpEvent(e) == DumpEvent(f)
    ensures e == f
  {
    DumpFields(e);
    DumpFields(f);
    DecimalInjective(e.sequence, f.sequence);
  }

  lemma {:induction false} DigestsBind(h: Hasher, es: seq<Event>, fs: seq<Event>) returns (a: Bytes, b: Bytes)
    requires Faithful(h) && EventDigests(h, es) == EventDigests(h, fs)
    ensures Collision(h, a, b) || es == fs
  {
    assert |es| == |EventDigests(h, es)| == |fs|;
    if i :| 0 <= i < |es| && es[i] != fs[i] {
      a, b := h.encode(DumpEvent(es[i])), h.encode(DumpEvent(fs[i]));
      assert EventDigests(h, es)[i] == EventDigests(h, fs)[i];
      if a == b { SameDump(es[i], fs[i]); }
    } else {
      a, b := [], [];
    }
  }

  lemma IdentityIsLong(h: Hasher, e: TrialEvidence)
    requires Faithful(h)
    ensures |IdentityBytes(h, e)| >= 64
  {
    var m := IdentityObject(Text(e.trialId), Text(e.subjectIdentity), Text(e.scenarioIdentity)).members;
    assert "subject_identity" in m && m["subject_identity"] == Text(e.subjectIdentity);
  }

  lemma IdentityFields(trial: Json, subject: Json, scenario: Json)
    ensures var m := IdentityObject(trial, subject, scenario).members;
            HasIdentity(m) && m["trial_id"] == trial && m["subject_identity"] == subject
                && m["scenario_identity"] == scenario
  {
  }

  lemma SameIdentity(h: Hasher, e: TrialEvidence, f: TrialEvidence)
    requires Faithful(h) && IdentityBytes(h, e) == IdentityBytes(h, f)
    ensures e.trialId == f.trialId && e.subjectIdentity == f.subjectIdentity && e.scenarioIdentity == f.scenarioIdentity
  {
    IdentityFields(Text(e.trialId), Text(e.subjectIdentity), Text(e.scenarioIdentity));
    IdentityFields(Text(f.trialId), Text(f.subjectIdentity), Text(f.scenarioIdentity));
  }

  lemma TerminalFields(state: Json, output: Json, elapsed: Json, input: Json, produced: Json, cost: Json)
    ensures var m := TerminalObject(state, output, elapsed, input, produced, cost).members;
            && HasTerminal(m) && m["final_state"] == state && m["final_output"] == output && m["elapsed_ms"] == elapsed
            && m["input_tokens"] == input && m["output_tokens"] == produced && m["estimated_cost_usd"] == cost
  {
  }

  lemma SameTerminal(h: Hasher, e: TrialEvidence, f: TrialEvidence)
    requires Faithful(h) && TerminalBytes(h, e) == TerminalBytes(h, f)
    ensures e.finalState == f.finalState && e.finalOutput == f.finalOutput && e.elapsedMs == f.elapsedMs
    ensures e.inputTokens == f.inputTokens && e.outputTokens == f.outputTokens
        && e.estimatedCostUsd == f.estimatedCostUsd
  {
    TerminalFields(e.finalState, DumpOutput(e.finalOutput), Number(e.elapsedMs), Number(Decimal(e.inputTokens)),
                   Number(Decimal(e.outputTokens)), Number(e.estimatedCostUsd));
    TerminalFields(f.finalState, DumpOutput(f.finalOutput), Number(f.elapsedMs), Number(Decimal(f.inputTokens)),
                   Number(Decimal(f.outputTokens)), Number(f.estimatedCostUsd));
    DecimalInjective(e.inputTokens, f.inputTokens);
    DecimalInjective(e.outputTokens, f.outputTokens);
  }

  /** Two envelopes with the same root are the same envelope, or they exhibit a hash collision. */
  lemma EqualRoots(h: Hasher, e: TrialEvidence, f: TrialEvidence) returns (a: Bytes, b: Bytes)
    requires Faithful(h) && Root(h, e) == Root(h, f)
    ensures Collision(h, a, b) || e == f
  {
    var ce, cf := Chain(h, IdentityBytes(h, e), EventDigests(h, e.events)),
        Chain(h, IdentityBytes(h, f), EventDigests(h, f.events));
    a, b := ROOT_DOMAIN + ce + TerminalBytes(h, e), ROOT_DOMAIN + cf + TerminalBytes(h, f);
    HexInjective(h.sha(a), h.sha(b));
    if a == b {
      SplitEqual(ROOT_DOMAIN + ce, TerminalBytes(h, e), ROOT_DOMAIN + cf, TerminalBytes(h, f));
      SplitEqual(ROOT_DOMAIN, ce, ROOT_DOMAIN, cf);
      SameTerminal(h, e, f);
      IdentityIsLong(h, e);
      IdentityIsLong(h, f);
      a, b := ChainBinds(h, IdentityBytes(h, e), EventDigests(h, e.events), IdentityBytes(h, f),
          EventDigests(h, f.events));
      if !Collision(h, a, b) {
        SameIdentity(h, e, f);
        a, b := DigestsBind(h, e.events, f.events);
      }
    }
  }
}
