/** Stitching of a native approval lifecycle (adapters/openai_hitl_approval.py): the adapter rewrites a
    normalised stream around the evaluator's decision, and the verifier of ApprovalIntent must accept it. */
module ApprovalStitch {
  import opened Wrappers
  import opened Sequences
  import opened Evidence
  import opened Authority
  import opened ApprovalIntent

  datatype StitchError =
    | RequestAmbiguous | ApprovalAmbiguous | ResultAmbiguous
    | RequestAgent | InterruptionAgent | RequestTool | ArgumentsDisagree | ReceiptUnavailable

  datatype Call = Call(callId: string, arguments: string, resource: Option<ResourceIdentifier>)

  function WithResource(p: Payload, resource: Option<ResourceIdentifier>): Payload {
    match resource
    case None => p - {"resource"}
    case Some(r) => p["resource" := Resource(r)]
  }

  function Numbered(e: Event, sequence: nat): Event { e.(sequence := sequence) }

  function Renumber(es: seq<Event>, start: nat): seq<Event> {
    seq(|es|, i requires 0 <= i < |es| => Numbered(es[i], start + i))
  }

  predicate ValidIdentity(s: string, limit: nat) {
    1 <= |s| <= limit && Trimmed(s)
  }

  /** ApprovalIntentReceipt.create; None when the arguments cannot be canonicalised or an identity is refused. */
  function CreateReceipt(d: Digests, sc: Scenario, spec: IntentSpec, call: Call, s: PathState,
      sequence: nat): Option<Receipt> {
    var digest := d.arguments(call.arguments);
    if digest.None? || !ValidIdentity(spec.agent, 256) || !ValidIdentity(spec.tool, 256)
        || !ValidIdentity(call.callId, 512)
    then None
    else Some(Receipt(sc.identity, spec.decision, spec.agent, spec.tool, call.callId, digest.value, call.resource,
                      s.Epoch(), d.path(s.root, s.transitions), sequence))
  }

  /** The three events of the call that the stream must contain exactly once. */
  datatype Targets = Targets(request: Event, approval: Event, result: Event)

  function FindTargets(spec: IntentSpec, normalized: seq<Event>, call: Call): Result<Targets, StitchError> {
    var requests := Filter(CallOf(ToolRequest, call.callId), normalized);
    var approvals := Filter(CallOf(ApprovalRequest, call.callId), normalized);
    var results := Filter(CallOf(ToolResult, call.callId), normalized);
    if |requests| != 1 then Failure(RequestAmbiguous)
    else if |approvals| != 1 then Failure(ApprovalAmbiguous)
    else if |results| != 1 then Failure(ResultAmbiguous)
    else if !Has(requests[0], "agent", spec.agent) then Failure(RequestAgent)
    else if !Has(approvals[0], "agent", spec.agent) then Failure(InterruptionAgent)
    else if !Has(requests[0], "tool", spec.tool) then Failure(RequestTool)
    else if !Has(requests[0], "arguments", call.arguments) then Failure(ArgumentsDisagree)
    else Success(Targets(requests[0], approvals[0], results[0]))
  }

  predicate IsTarget(ts: Targets, e: Event) {
    e.sequence in {ts.request.sequence, ts.approval.sequence, ts.result.sequence}
  }

  function BeforeApproval(ts: Targets): Event -> bool {
    (e: Event) => e.sequence < ts.approval.sequence && !IsTarget(ts, e)
  }

  function AfterApproval(ts: Targets): Event -> bool {
    (e: Event) => e.sequence > ts.approval.sequence && !IsTarget(ts, e)
  }

  function EnrichedApproval(ts: Targets, call: Call, sequence: nat): Event {
    ts.approval.(sequence := sequence, payload :=
        WithResource(ts.approval.payload["arguments" := Text(call.arguments)], call.resource))
  }

  function DecisionEvent(r: Receipt, sequence: nat): Event {
    Event(sequence, ApprovalDecision, DECISION_SOURCE, map["receipt" := Intent(r)], false)
  }

  /** What follows the decision: the approved execution and its result, or the marked rejection. */
  function Continuation(spec: IntentSpec, ts: Targets, call: Call, start: nat): seq<Event> {
    match spec.decision
    case Approve =>
      [Event(start, ToolRequest, EXECUTION_SOURCE, WithResource(ts.request.payload, call.resource), false),
       Numbered(ts.result, start + 1)]
    case Reject =>
      [Event(start, ToolResult, REJECTION_SOURCE, ts.result.payload["approval_rejected" := Flag(true)], false)]
  }

  function Assemble(spec: IntentSpec, ts: Targets, call: Call, before: seq<Event>, after: seq<Event>,
      r: Receipt): seq<Event> {
    var n := |before|;
    var tail := Continuation(spec, ts, call, n + 2);
    Renumber(before, 0) + [EnrichedApproval(ts, call, n), DecisionEvent(r, n + 1)] + tail
        + Renumber(after, n + 2 + |tail|)
  }

  /** The outcome of _stitch_approval_lifecycle. */
  function Stitch(d: Digests, sc: Scenario, normalized: seq<Event>, call: Call): Result<seq<Event>, StitchError>
    requires sc.spec.Some?
  {
    var spec := sc.spec.value;
    match FindTargets(spec, normalized, call)
    case Failure(error) => Failure(error)
    case Success(ts) =>
      var before := Filter(BeforeApproval(ts), normalized);
      var after := Filter(AfterApproval(ts), normalized);
      var n := |before|;
      var state := StateBefore(sc.authority, Renumber(before, 0) + [EnrichedApproval(ts, call, n)], n);
      match CreateReceipt(d, sc, spec, call, state, n)
      case None => Failure(ReceiptUnavailable)
      case Some(r) => Success(Assemble(spec, ts, call, before, after, r))
  }

  /** _stitch_approval_lifecycle as the source computes it, appending to one growing list. */
  method StitchApprovalLifecycle(d: Digests, sc: Scenario, normalized: seq<Event>, call: Call)
    returns (outcome: Result<seq<Event>, StitchError>)
    requires sc.spec.Some?
    ensures outcome == Stitch(d, sc, normalized, call)
  {
    var spec := sc.spec.value;
    var found := FindTargets(spec, normalized, call);
    if found.Failure? {
      return Failure(found.error);
    }
    var ts := found.value;
    var before, after := Filter(BeforeApproval(ts), normalized), Filter(AfterApproval(ts), normalized);
    var stitched := AppendRenumbered([], before);
    assert [] + Renumber(before, 0) == Renumber(before, 0);
    var n := |stitched|;
    stitched := stitched + [EnrichedApproval(ts, call, n)];
    var state := ValidatedHandoffStateBefore(sc.authority, stitched, n);
    var receipt := CreateReceipt(d, sc, spec, call, state, n);
    if receipt.None? {
      return Failure(ReceiptUnavailable);
    }
    stitched := stitched + [DecisionEvent(receipt.value, |stitched|)];
    if spec.decision.Approve? {
      stitched := stitched + [Event(|stitched|, ToolRequest, EXECUTION_SOURCE,
          WithResource(ts.request.payload, call.resource), false)];
      stitched := stitched + [Numbered(ts.result, |stitched|)];
    } else {
      stitched := stitched + [Event(|stitched|, ToolResult, REJECTION_SOURCE,
          ts.result.payload["approval_rejected" := Flag(true)], false)];
    }
    ghost var tail := Continuation(spec, ts, call, n + 2);
    assert stitched == Renumber(before, 0) + [EnrichedApproval(ts, call, n), DecisionEvent(receipt.value, n + 1)]
        + tail;
    stitched := AppendRenumbered(stitched, after);
    outcome := Success(stitched);
  }

  method AppendRenumbered(start: seq<Event>, es: seq<Event>) returns (stitched: seq<Event>)
    ensures stitched == start + Renumber(es, |start|)
  {
    stitched := start;
    for i := 0 to |es|
      invariant stitched == start + Renumber(es[..i], |start|)
    {
      stitched := stitched + [Numbered(es[i], |stitched|)];
      assert Renumber(es[..i + 1], |start|) == Renumber(es[..i], |start|) + [Numbered(es[i], |start| + i)];
    }
    assert es[..|es|] == es;
  }

  // ---------------------------------------------------------------- what stitching preserves

  /** Positions of the three events of the call in the normalised stream. */
  ghost predicate At(normalized: seq<Event>, call: Call, ts: Targets, q: nat, a: nat, z: nat) {
    && OnlyCall(normalized, ToolRequest, call.callId, q) && ts.request == normalized[q]
    && OnlyCall(normalized, ApprovalRequest, call.callId, a) && ts.approval == normalized[a]
    && OnlyCall(normalized, ToolResult, call.callId, z) && ts.result == normalized[z]
  }

  lemma LocateTargets(spec: IntentSpec, normalized: seq<Event>, call: Call) returns (q: nat, a: nat, z: nat)
    requires FindTargets(spec, normalized, call).Success?
    ensures At(normalized, call, FindTargets(spec, normalized, call).value, q, a, z)
  {
    q := FilterSingle(CallOf(ToolRequest, call.callId), normalized);
    a := FilterSingle(CallOf(ApprovalRequest, call.callId), normalized);
    z := FilterSingle(CallOf(ToolResult, call.callId), normalized);
  }

  /** An event that is not one of the three has another kind or another call. */
  predicate Unrelated(e: Event, callId: string) {
    && !CallOf(ToolRequest, callId)(e) && !CallOf(ApprovalRequest, callId)(e) && !CallOf(ToolResult, callId)(e)
  }

  /** Each kept event is an unrelated event of the stream. */
  lemma KeptEvents(normalized: seq<Event>, call: Call, ts: Targets, q: nat, a: nat, z: nat)
    requires Contiguous(normalized) && At(normalized, call, ts, q, a, z)
    ensures forall i | 0 <= i < |normalized| :: IsTarget(ts, normalized[i]) <==> i in {q, a, z}
    ensures forall e | e in normalized && !IsTarget(ts, e) :: Unrelated(e, call.callId)
    ensures forall e | e in Filter(BeforeApproval(ts), normalized) :: e in normalized && !IsTarget(ts, e)
    ensures forall e | e in Filter(AfterApproval(ts), normalized) :: e in normalized && !IsTarget(ts, e)
  {
  }

  /** The events that are not part of the call, in their original order. */
  function Others(ts: Targets): Event -> bool { (e: Event) => !IsTarget(ts, e) }

  lemma {:induction false} SplitAtApproval(normalized: seq<Event>, ts: Targets, a: nat)
    requires Contiguous(normalized) && ts.approval.sequence == a
    ensures Filter(Others(ts), normalized)
         == Filter(BeforeApproval(ts), normalized) + Filter(AfterApproval(ts), normalized)
    ensures |normalized| <= a ==> Filter(AfterApproval(ts), normalized) == []
  {
    if normalized != [] {
      var n := |normalized| - 1;
      SplitAtApproval(normalized[..n], ts, a);
    }
  }

  /** Same event up to its sequence number. */
  predicate SameButNumber(e: Event, f: Event) {
    f == Numbered(e, f.sequence)
  }

  ghost predicate Survives(others: seq<Event>, before: nat, inserted: nat, out: seq<Event>) {
    && before <= |others| && |out| == |others| + inserted
    && (forall i | 0 <= i < before :: SameButNumber(others[i], out[i]))
    && (forall i | before <= i < |others| :: SameButNumber(others[i], out[i + inserted]))
  }

  function Inserted(spec: IntentSpec): nat { if spec.decision.Approve? then 4 else 3 }

  /** The assembled stream, position by position. */
  ghost predicate Shape(spec: IntentSpec, ts: Targets, call: Call, before: seq<Event>, after: seq<Event>, r: Receipt,
      out: seq<Event>) {
    var n := |before|;
    && |out| == n + Inserted(spec) + |after|
    && (forall i | 0 <= i < n :: out[i] == Numbered(before[i], i))
    && out[n] == EnrichedApproval(ts, call, n) && out[n + 1] == DecisionEvent(r, n + 1)
    && out[n + 2] == Continuation(spec, ts, call, n + 2)[0]
    && (spec.decision.Approve? ==> out[n + 3] == Continuation(spec, ts, call, n + 2)[1])
    && (forall i | n + Inserted(spec) <= i < |out| :: out[i] == Numbered(after[i - n - Inserted(spec)], i))
  }

  lemma AssembleShape(spec: IntentSpec, ts: Targets, call: Call, before: seq<Event>, after: seq<Event>, r: Receipt)
    ensures Shape(spec, ts, call, before, after, r, Assemble(spec, ts, call, before, after, r))
    ensures Contiguous(Assemble(spec, ts, call, before, after, r))
  {
  }

  /** Every event outside the call survives exactly once, in order, and the output counts up from zero. */
  lemma StitchPreservesOthers(d: Digests, sc: Scenario, normalized: seq<Event>, call: Call) returns (k: nat)
    requires Contiguous(normalized) && sc.spec.Some? && Stitch(d, sc, normalized, call).Success?
    ensures Contiguous(Stitch(d, sc, normalized, call).value)
    ensures var ts := FindTargets(sc.spec.value, normalized, call).value;
            Survives(Filter(Others(ts), normalized), k, Inserted(sc.spec.value), Stitch(d, sc, normalized, call).value)
  {
    var spec := sc.spec.value;
    var ts := FindTargets(spec, normalized, call).value;
    var q, a, z := LocateTargets(spec, normalized, call);
    SplitAtApproval(normalized, ts, a);
    var before, after := Filter(BeforeApproval(ts), normalized), Filter(AfterApproval(ts), normalized);
    var r := StitchedReceipt(d, sc, normalized, call);
    AssembleShape(spec, ts, call, before, after, r);
    ShapeSurvives(spec, ts, call, before, after, r, Assemble(spec, ts, call, before, after, r));
    k := |before|;
  }

  lemma ShapeSurvives(spec: IntentSpec, ts: Targets, call: Call, before: seq<Event>, after: seq<Event>, r: Receipt,
      out: seq<Event>)
    requires Shape(spec, ts, call, before, after, r, out)
    ensures Survives(before + after, |before|, Inserted(spec), out)
  {
    var others := before + after;
    forall i | |before| <= i < |others| ensures SameButNumber(others[i], out[i + Inserted(spec)]) {
      assert others[i] == after[i - |before|];
    }
  }

  lemma StitchedReceipt(d: Digests, sc: Scenario, normalized: seq<Event>, call: Call) returns (r: Receipt)
    requires sc.spec.Some? && Stitch(d, sc, normalized, call).Success?
    ensures FindTargets(sc.spec.value, normalized, call).Success?
    ensures var spec := sc.spec.value;
            var ts := FindTargets(spec, normalized, call).value;
            var before := Filter(BeforeApproval(ts), normalized);
            var state := StateBefore(sc.authority, Renumber(before, 0) + [EnrichedApproval(ts, call, |before|)],
                |before|);
            && CreateReceipt(d, sc, spec, call, state, |before|) == Some(r)
            && Stitch(d, sc, normalized, call)
               == Success(Assemble(spec, ts, call, before, Filter(AfterApproval(ts), normalized), r))
  {
    var spec := sc.spec.value;
    var ts := FindTargets(spec, normalized, call).value;
    var before := Filter(BeforeApproval(ts), normalized);
    r := CreateReceipt(d, sc, spec, call,
           StateBefore(sc.authority, Renumber(before, 0) + [EnrichedApproval(ts, call, |before|)], |before|),
               |before|).value;
  }

  // ---------------------------------------------------------------- stitch, then verify

  /** What the verifier needs of the stream and the adapter does not check itself. */
  ghost predicate Verifiable(spec: IntentSpec, normalized: seq<Event>, ts: Targets, a: nat) {
    && (forall i | 0 <= i < |normalized| :: !normalized[i].kind.ApprovalDecision?)
    && (forall i | 0 <= i < |normalized| :: TargetOf(ApprovalRequest, spec.agent, spec.tool)(normalized[i]) <==> i == a)
    && ts.approval.source == REQUEST_SOURCE
    && Has(ts.result, "agent", spec.agent)
    && (spec.decision.Approve? ==> !Rejected(ts.result) && ts.result.source == RESULT_SOURCE)
  }

  /** A condition that does not look at sequence numbers. */
  ghost predicate IgnoresNumber(f: Event -> bool) {
    forall e, k :: f(Numbered(e, k)) == f(e)
  }

  /** A condition false of every kept event holds in the output only at inserted positions. */
  lemma OnlyInserted(spec: IntentSpec, ts: Targets, call: Call, before: seq<Event>, after: seq<Event>, r: Receipt,
      out: seq<Event>, f: Event -> bool)
    requires Shape(spec, ts, call, before, after, r, out) && IgnoresNumber(f)
    requires forall e | e in before :: !f(e)
    requires forall e | e in after :: !f(e)
    ensures forall i | 0 <= i < |out| && !(|before| <= i < |before| + Inserted(spec)) :: !f(out[i])
  {
    forall i | 0 <= i < |out| && !(|before| <= i < |before| + Inserted(spec)) ensures !f(out[i]) {
      if i < |before| {
        assert before[i] in before;
      } else {
        assert after[i - |before| - Inserted(spec)] in after;
      }
    }
  }

  /** The targets' kinds and call, and where every event of the stream went. */
  ghost predicate Placed(normalized: seq<Event>, call: Call, ts: Targets, a: nat, before: seq<Event>,
      after: seq<Event>) {
    && a < |normalized| && ts.approval == normalized[a]
    && CallOf(ToolRequest, call.callId)(ts.request) && CallOf(ApprovalRequest, call.callId)(ts.approval)
    && CallOf(ToolResult, call.callId)(ts.result)
    && ts.request in normalized && ts.result in normalized
    && (forall e | e in before || e in after :: e in normalized && e != ts.approval && Unrelated(e, call.callId))
    && (forall i | 0 <= i < |normalized| ::
          normalized[i] in [ts.request, ts.approval, ts.result] || normalized[i] in before || normalized[i] in after)
    && (forall i | 0 <= i < |normalized| && i != a :: normalized[i] != ts.approval)
  }

  ghost predicate ReceiptBinds(d: Digests, sc: Scenario, spec: IntentSpec, call: Call, n: nat, r: Receipt,
      out: seq<Event>) {
    && d.arguments(call.arguments) == Some(r.arguments)
    && r == Receipt(sc.identity, spec.decision, spec.agent, spec.tool, call.callId, r.arguments, call.resource,
                    r.authorityEpoch, r.authorityPath, n)
    && var s := StateBefore(sc.authority, out, n);
       r.authorityEpoch == s.Epoch() && r.authorityPath == d.path(s.root, s.transitions)
  }

  /** A stitched stream with the facts the two directions of the theorem need. */
  ghost predicate Stitched(d: Digests, sc: Scenario, spec: IntentSpec, normalized: seq<Event>, call: Call,
      ts: Targets, a: nat,
                           before: seq<Event>, after: seq<Event>, r: Receipt, out: seq<Event>) {
    && sc.spec == Some(spec) && Contiguous(out)
    && Has(ts.request, "agent", spec.agent) && Has(ts.request, "tool", spec.tool)
    && Has(ts.request, "arguments", call.arguments) && Has(ts.approval, "agent", spec.agent)
    && Shape(spec, ts, call, before, after, r, out)
    && Placed(normalized, call, ts, a, before, after)
    && ReceiptBinds(d, sc, spec, call, |before|, r, out)
  }

  lemma StitchPlaces(spec: IntentSpec, normalized: seq<Event>, call: Call) returns (ts: Targets, a: nat)
    requires Contiguous(normalized) && FindTargets(spec, normalized, call).Success?
    ensures ts == FindTargets(spec, normalized, call).value && a == ts.approval.sequence
    ensures Placed(normalized, call, ts, a, Filter(BeforeApproval(ts), normalized),
        Filter(AfterApproval(ts), normalized))
  {
    ts := FindTargets(spec, normalized, call).value;
    var q, a', z := LocateTargets(spec, normalized, call);
    a := a';
    KeptEvents(normalized, call, ts, q, a, z);
    EveryEventPlaced(normalized, ts, q, a, z, call);
  }

  lemma StitchBinds(d: Digests, sc: Scenario, normalized: seq<Event>, call: Call)
    returns (r: Receipt)
    requires Contiguous(normalized) && sc.spec.Some? && Stitch(d, sc, normalized, call).Success?
    ensures FindTargets(sc.spec.value, normalized, call).Success?
    ensures var spec := sc.spec.value;
            var ts := FindTargets(spec, normalized, call).value;
            var before := Filter(BeforeApproval(ts), normalized);
            var out := Stitch(d, sc, normalized, call).value;
            && out == Assemble(spec, ts, call, before, Filter(AfterApproval(ts), normalized), r)
            && ReceiptBinds(d, sc, spec, call, |before|, r, out)
  {
    var spec := sc.spec.value;
    var ts := FindTargets(spec, normalized, call).value;
    var before := Filter(BeforeApproval(ts), normalized);
    r := StitchedReceipt(d, sc, normalized, call);
    var out := Stitch(d, sc, normalized, call).value;
    var n := |before|;
    var prefix := Renumber(before, 0) + [EnrichedApproval(ts, call, n)];
    assert prefix[..n] == Renumber(before, 0) == out[..n];
    StateDependsOnPrefix(sc.authority, prefix, out, n);
  }

  lemma StitchedFacts(d: Digests, sc: Scenario, normalized: seq<Event>, call: Call)
    returns (ts: Targets, a: nat, before: seq<Event>, after: seq<Event>, r: Receipt)
    requires Contiguous(normalized) && sc.spec.Some? && Stitch(d, sc, normalized, call).Success?
    ensures Stitched(d, sc, sc.spec.value, normalized, call, ts, a, before, after, r,
        Stitch(d, sc, normalized, call).value)
    ensures FindTargets(sc.spec.value, normalized, call) == Success(ts) && a == ts.approval.sequence
  {
    var spec := sc.spec.value;
    r := StitchBinds(d, sc, normalized, call);
    ts, a := StitchPlaces(spec, normalized, call);
    before, after := Filter(BeforeApproval(ts), normalized), Filter(AfterApproval(ts), normalized);
    AssembleShape(spec, ts, call, before, after, r);
    TargetFields(spec, normalized, call);
  }

  lemma TargetFields(spec: IntentSpec, normalized: seq<Event>, call: Call)
    requires FindTargets(spec, normalized, call).Success?
    ensures var ts := FindTargets(spec, normalized, call).value;
            && Has(ts.request, "agent", spec.agent) && Has(ts.request, "tool", spec.tool)
            && Has(ts.request, "arguments", call.arguments) && Has(ts.approval, "agent", spec.agent)
  {
  }

  lemma EveryEventPlaced(normalized: seq<Event>, ts: Targets, q: nat, a: nat, z: nat, call: Call)
    requires Contiguous(normalized) && At(normalized, call, ts, q, a, z)
    ensures forall i | 0 <= i < |normalized| ::
              || normalized[i] in [ts.request, ts.approval, ts.result]
              || normalized[i] in Filter(BeforeApproval(ts), normalized)
              || normalized[i] in Filter(AfterApproval(ts), normalized)
  {
    forall i | 0 <= i < |normalized| && i !in {q, a, z}
      ensures normalized[i] in Filter(BeforeApproval(ts), normalized)
          || normalized[i] in Filter(AfterApproval(ts), normalized)
    {
      if i < a {
        FilterFinds(BeforeApproval(ts), normalized, i);
      } else {
        FilterFinds(AfterApproval(ts), normalized, i);
      }
    }
  }

  // ---- forwards: a verifiable stream is accepted

  /** A condition that holds at one inserted position and of no kept event selects that position. */
  lemma SelectsInserted(spec: IntentSpec, ts: Targets, call: Call, before: seq<Event>, after: seq<Event>, r: Receipt,
      out: seq<Event>, f: Event -> bool, k: nat)
    requires Shape(spec, ts, call, before, after, r, out)
    requires IgnoresNumber(f) && forall e | e in before || e in after :: !f(e)
    requires |before| <= k < |before| + Inserted(spec)
    requires forall i | |before| <= i < |before| + Inserted(spec) :: f(out[i]) <==> i == k
    ensures forall i | 0 <= i < |out| :: f(out[i]) <==> i == k
    ensures Filter(f, out) == [out[k]]
  {
    OnlyInserted(spec, ts, call, before, after, r, out, f);
    FilterOne(f, out, k);
  }

  lemma EnrichedIntent(d: Digests, sc: Scenario, spec: IntentSpec, call: Call, ts: Targets, n: nat, r: Receipt,
      out: seq<Event>)
    requires ReceiptBinds(d, sc, spec, call, n, r, out) && Has(ts.approval, "call_id", call.callId)
    requires Has(ts.approval, "agent", spec.agent)
    ensures EventIntent(d, EnrichedApproval(ts, call, n), r, StateBefore(sc.authority, out, n))
         == if Has(ts.approval, "tool", spec.tool) then ACCEPTED else Failure(Tool)
  {
  }

  lemma KeptNotTarget(spec: IntentSpec, normalized: seq<Event>, call: Call, ts: Targets, a: nat, before: seq<Event>,
      after: seq<Event>)
    requires Placed(normalized, call, ts, a, before, after) && Verifiable(spec, normalized, ts, a)
    ensures forall e | e in before || e in after ::
              !TargetOf(ApprovalRequest, spec.agent, spec.tool)(e) && !e.kind.ApprovalDecision?
  {
    forall e | e in before || e in after
      ensures !TargetOf(ApprovalRequest, spec.agent, spec.tool)(e) && !e.kind.ApprovalDecision?
    {
      var i :| 0 <= i < |normalized| && normalized[i] == e;
    }
  }

  /** The kinds and calls of the inserted events. */
  lemma InsertedKinds(spec: IntentSpec, ts: Targets, call: Call, before: seq<Event>, after: seq<Event>, r: Receipt,
      out: seq<Event>)
    requires Shape(spec, ts, call, before, after, r, out)
    requires CallOf(ToolRequest, call.callId)(ts.request) && CallOf(ApprovalRequest, call.callId)(ts.approval)
    requires CallOf(ToolResult, call.callId)(ts.result)
    ensures var n := |before|;
            && CallOf(ApprovalRequest, call.callId)(out[n]) && out[n + 1].kind.ApprovalDecision?
            && (spec.decision.Approve? ==>
                  CallOf(ToolRequest, call.callId)(out[n + 2]) && CallOf(ToolResult, call.callId)(out[n + 3]))
            && (spec.decision.Reject? ==> CallOf(ToolResult, call.callId)(out[n + 2]))
  {
  }

  lemma SelectsDecision(spec: IntentSpec, normalized: seq<Event>, call: Call, ts: Targets, a: nat,
                        before: seq<Event>, after: seq<Event>, r: Receipt, out: seq<Event>)
    requires Shape(spec, ts, call, before, after, r, out) && Placed(normalized, call, ts, a, before, after)
    requires Verifiable(spec, normalized, ts, a)
    ensures Filter(IsKind(ApprovalDecision), out) == [out[|before| + 1]]
  {
    KeptNotTarget(spec, normalized, call, ts, a, before, after);
    InsertedKinds(spec, ts, call, before, after, r, out);
    SelectsInserted(spec, ts, call, before, after, r, out, IsKind(ApprovalDecision), |before| + 1);
  }

  lemma SelectsBound(spec: IntentSpec, normalized: seq<Event>, call: Call, ts: Targets, a: nat,
                     before: seq<Event>, after: seq<Event>, r: Receipt, out: seq<Event>)
    requires Shape(spec, ts, call, before, after, r, out) && Placed(normalized, call, ts, a, before, after)
    ensures Filter(CallOf(ApprovalRequest, call.callId), out) == [out[|before|]]
  {
    var f := CallOf(ApprovalRequest, call.callId);
    assert forall e | e in before || e in after :: !f(e);
    InsertedKinds(spec, ts, call, before, after, r, out);
    SelectsInserted(spec, ts, call, before, after, r, out, f, |before|);
  }

  lemma SelectsTarget(spec: IntentSpec, ts: Targets, call: Call, before: seq<Event>, after: seq<Event>, r: Receipt,
      out: seq<Event>)
    requires Shape(spec, ts, call, before, after, r, out)
    requires CallOf(ToolRequest, call.callId)(ts.request) && CallOf(ToolResult, call.callId)(ts.result)
    requires TargetOf(ApprovalRequest, spec.agent, spec.tool)(ts.approval)
    requires forall e | e in before || e in after :: !TargetOf(ApprovalRequest, spec.agent, spec.tool)(e)
    ensures Filter(TargetOf(ApprovalRequest, spec.agent, spec.tool), out) == [out[|before|]]
  {
    var f := TargetOf(ApprovalRequest, spec.agent, spec.tool);
    assert f(out[|before|]);
    SelectsInserted(spec, ts, call, before, after, r, out, f, |before|);
  }

  lemma SelectsApproval(spec: IntentSpec, normalized: seq<Event>, call: Call, ts: Targets, a: nat,
                        before: seq<Event>, after: seq<Event>, r: Receipt, out: seq<Event>)
    requires Shape(spec, ts, call, before, after, r, out) && Placed(normalized, call, ts, a, before, after)
    requires Verifiable(spec, normalized, ts, a)
    ensures Filter(CallOf(ApprovalRequest, call.callId), out) == [out[|before|]]
    ensures Filter(TargetOf(ApprovalRequest, spec.agent, spec.tool), out) == [out[|before|]]
  {
    SelectsBound(spec, normalized, call, ts, a, before, after, r, out);
    KeptNotTarget(spec, normalized, call, ts, a, before, after);
    assert TargetOf(ApprovalRequest, spec.agent, spec.tool)(normalized[a]);
    SelectsTarget(spec, ts, call, before, after, r, out);
  }

  lemma AcceptsRequest(d: Digests, sc: Scenario, spec: IntentSpec, normalized: seq<Event>, call: Call, ts: Targets,
      a: nat,
                       before: seq<Event>, after: seq<Event>, r: Receipt, out: seq<Event>)
    requires Stitched(d, sc, spec, normalized, call, ts, a, before, after, r, out)
        && Verifiable(spec, normalized, ts, a)
    ensures VerifyRequest(d, sc, out, spec, r) == ACCEPTED
  {
    assert TargetOf(ApprovalRequest, spec.agent, spec.tool)(normalized[a]);
    SelectsApproval(spec, normalized, call, ts, a, before, after, r, out);
    EnrichedIntent(d, sc, spec, call, ts, |before|, r, out);
  }

  /** Up to the decision the call has been neither executed nor answered. */
  lemma NothingEarlier(spec: IntentSpec, normalized: seq<Event>, call: Call, ts: Targets, a: nat,
                       before: seq<Event>, after: seq<Event>, r: Receipt, out: seq<Event>)
    requires Shape(spec, ts, call, before, after, r, out) && Placed(normalized, call, ts, a, before, after)
    ensures Filter(CallOf(ToolRequest, call.callId), out[..|before| + 1]) == []
    ensures forall i | 0 <= i <= |before| + 1 :: !CallOf(ToolResult, call.callId)(out[i])
  {
    NotEarlier(spec, ts, call, before, after, r, out, CallOf(ToolRequest, call.callId));
    NotEarlier(spec, ts, call, before, after, r, out, CallOf(ToolResult, call.callId));
    FilterNone(CallOf(ToolRequest, call.callId), out[..|before| + 1]);
  }

  lemma NotEarlier(spec: IntentSpec, ts: Targets, call: Call, before: seq<Event>, after: seq<Event>, r: Receipt,
      out: seq<Event>, f: Event -> bool)
    requires Shape(spec, ts, call, before, after, r, out) && IgnoresNumber(f)
    requires forall e | e in before || e in after :: !f(e)
    requires !f(out[|before|]) && !f(out[|before| + 1])
    ensures forall i | 0 <= i <= |before| + 1 :: !f(out[i])
  {
    OnlyInserted(spec, ts, call, before, after, r, out, f);
  }

  /** A condition that holds at one inserted position after the decision, seen from there. */
  lemma SelectsLater(spec: IntentSpec, call: Call, ts: Targets, before: seq<Event>, after: seq<Event>, r: Receipt,
      out: seq<Event>,
                     f: Event -> bool, k: nat)
    requires Shape(spec, ts, call, before, after, r, out)
    requires IgnoresNumber(f) && forall e | e in before || e in after :: !f(e)
    requires |before| + 2 <= k < |before| + Inserted(spec)
    requires forall i | |before| + 2 <= i < |before| + Inserted(spec) :: f(out[i]) <==> i == k
    ensures Filter(f, out[|before| + 2..]) == [out[k]]
  {
    var later := out[|before| + 2..];
    OnlyInserted(spec, ts, call, before, after, r, out, f);
    assert forall i | 0 <= i < |later| :: later[i] == out[|before| + 2 + i];
    FilterOne(f, later, k - |before| - 2);
  }

  /** The execution event carries the call of the request, with the resource of the receipt. */
  lemma ExecutionPayload(call: Call, ts: Targets, e: Event)
    requires e.payload == WithResource(ts.request.payload, call.resource)
    ensures forall key, text | key != "resource" :: Has(e, key, text) == Has(ts.request, key, text)
    ensures ResourceOf(e.payload) == Success(call.resource)
  {
  }

  /** No handoff lies between the approval request and the execution. */
  lemma ExecutionState(sc: Scenario, spec: IntentSpec, ts: Targets, call: Call, before: seq<Event>, after: seq<Event>,
      r: Receipt, out: seq<Event>)
    requires Shape(spec, ts, call, before, after, r, out) && spec.decision.Approve? && ts.approval.kind.ApprovalRequest?
    ensures StateAt(sc, out, out[|before| + 2]) == StateBefore(sc.authority, out, |before|)
  {
    StateAcrossOtherEvents(sc.authority, out, |before|, |before| + 2);
  }

  /** An event with the fields of a receipt, under its authority, is accepted. */
  lemma IntentAccepted(d: Digests, e: Event, r: Receipt, s: PathState, arguments: string)
    requires Has(e, "agent", r.agent) && Has(e, "tool", r.tool) && Has(e, "call_id", r.callId)
        && Has(e, "arguments", arguments)
    requires d.arguments(arguments) == Some(r.arguments) && ResourceOf(e.payload) == Success(r.resource)
    requires s.Epoch() == r.authorityEpoch && d.path(s.root, s.transitions) == r.authorityPath
    ensures EventIntent(d, e, r, s) == ACCEPTED
  {
  }

  lemma ExecutionIntent(d: Digests, sc: Scenario, spec: IntentSpec, normalized: seq<Event>, call: Call, ts: Targets,
      a: nat,
                        before: seq<Event>, after: seq<Event>, r: Receipt, out: seq<Event>)
    requires Stitched(d, sc, spec, normalized, call, ts, a, before, after, r, out) && spec.decision.Approve?
    ensures EventIntent(d, out[|before| + 2], r, StateAt(sc, out, out[|before| + 2])) == ACCEPTED
  {
    var e := out[|before| + 2];
    ExecutionState(sc, spec, ts, call, before, after, r, out);
    ExecutionPayload(call, ts, e);
    IntentAccepted(d, e, r, StateBefore(sc.authority, out, |before|), call.arguments);
  }

  lemma SelectsResumed(spec: IntentSpec, normalized: seq<Event>, call: Call, ts: Targets, a: nat,
                       before: seq<Event>, after: seq<Event>, r: Receipt, out: seq<Event>)
    requires Shape(spec, ts, call, before, after, r, out) && Placed(normalized, call, ts, a, before, after)
    requires spec.decision.Approve?
    ensures Filter(CallOf(ToolRequest, call.callId), out[|before| + 2..]) == [out[|before| + 2]]
  {
    var f := CallOf(ToolRequest, call.callId);
    assert forall e | e in before || e in after :: !f(e);
    InsertedKinds(spec, ts, call, before, after, r, out);
    SelectsLater(spec, call, ts, before, after, r, out, f, |before| + 2);
  }

  lemma SelectsApprovedResult(spec: IntentSpec, normalized: seq<Event>, call: Call, ts: Targets, a: nat,
                              before: seq<Event>, after: seq<Event>, r: Receipt, out: seq<Event>)
    requires Shape(spec, ts, call, before, after, r, out) && Placed(normalized, call, ts, a, before, after)
    requires spec.decision.Approve?
    ensures Filter(CallOf(ToolResult, call.callId), out[|before| + 2..]) == [out[|before| + 3]]
  {
    var f := CallOf(ToolResult, call.callId);
    assert forall e | e in before || e in after :: !f(e);
    InsertedKinds(spec, ts, call, before, after, r, out);
    SelectsLater(spec, call, ts, before, after, r, out, f, |before| + 3);
  }

  lemma ApprovedVerdict(d: Digests, sc: Scenario, spec: IntentSpec, normalized: seq<Event>, call: Call, ts: Targets,
      a: nat,
                        before: seq<Event>, after: seq<Event>, r: Receipt, out: seq<Event>)
    requires Stitched(d, sc, spec, normalized, call, ts, a, before, after, r, out) && spec.decision.Approve?
    ensures VerifyContinuation(d, sc, out, out[|before| + 1], r)
         == VerifyApproved(d, sc, out, r, out[|before| + 2], [out[|before| + 3]])
  {
    NothingEarlier(spec, normalized, call, ts, a, before, after, r, out);
    SelectsResumed(spec, normalized, call, ts, a, before, after, r, out);
    SelectsApprovedResult(spec, normalized, call, ts, a, before, after, r, out);
  }

  lemma NothingResumed(spec: IntentSpec, normalized: seq<Event>, call: Call, ts: Targets, a: nat,
                       before: seq<Event>, after: seq<Event>, r: Receipt, out: seq<Event>)
    requires Shape(spec, ts, call, before, after, r, out) && Placed(normalized, call, ts, a, before, after)
    requires spec.decision.Reject?
    ensures Filter(CallOf(ToolRequest, call.callId), out[|before| + 2..]) == []
  {
    var f := CallOf(ToolRequest, call.callId);
    assert forall e | e in before || e in after :: !f(e);
    OnlyInserted(spec, ts, call, before, after, r, out, f);
    assert !f(out[|before| + 2]);
    FilterNone(f, out[|before| + 2..]);
  }

  lemma SelectsResult(spec: IntentSpec, normalized: seq<Event>, call: Call, ts: Targets, a: nat,
                      before: seq<Event>, after: seq<Event>, r: Receipt, out: seq<Event>)
    requires Shape(spec, ts, call, before, after, r, out) && Placed(normalized, call, ts, a, before, after)
    requires spec.decision.Reject?
    ensures Filter(CallOf(ToolResult, call.callId), out[|before| + 2..]) == [out[|before| + 2]]
  {
    var f := CallOf(ToolResult, call.callId);
    assert forall e | e in before || e in after :: !f(e);
    InsertedKinds(spec, ts, call, before, after, r, out);
    SelectsLater(spec, call, ts, before, after, r, out, f, |before| + 2);
  }

  lemma RejectedVerdict(d: Digests, sc: Scenario, spec: IntentSpec, normalized: seq<Event>, call: Call, ts: Targets,
      a: nat,
                        before: seq<Event>, after: seq<Event>, r: Receipt, out: seq<Event>)
    requires Stitched(d, sc, spec, normalized, call, ts, a, before, after, r, out) && spec.decision.Reject?
    ensures VerifyContinuation(d, sc, out, out[|before| + 1], r) == VerifyRejection(r, [out[|before| + 2]])
  {
    NothingEarlier(spec, normalized, call, ts, a, before, after, r, out);
    NothingResumed(spec, normalized, call, ts, a, before, after, r, out);
    SelectsResult(spec, normalized, call, ts, a, before, after, r, out);
  }

  /** The result that the verifier will look at has the identity of the native result. */
  predicate ResultAcceptable(spec: IntentSpec, result: Event) {
    Has(result, "agent", spec.agent) && (spec.decision.Approve? ==> !Rejected(result) && result.source == RESULT_SOURCE)
  }

  /** The verdict on the continuation of a stitched stream is decided by the result event alone. */
  lemma ContinuationVerdict(d: Digests, sc: Scenario, spec: IntentSpec, normalized: seq<Event>, call: Call,
      ts: Targets, a: nat,
                            before: seq<Event>, after: seq<Event>, r: Receipt, out: seq<Event>)
    requires Stitched(d, sc, spec, normalized, call, ts, a, before, after, r, out)
    ensures VerifyContinuation(d, sc, out, out[|before| + 1], r) == ACCEPTED <==> ResultAcceptable(spec, ts.result)
  {
    if spec.decision.Approve? {
      ApprovedVerdict(d, sc, spec, normalized, call, ts, a, before, after, r, out);
      ExecutionIntent(d, sc, spec, normalized, call, ts, a, before, after, r, out);
    } else {
      RejectedVerdict(d, sc, spec, normalized, call, ts, a, before, after, r, out);
    }
  }

  /** The receipt of a stitched decision is bound. */
  lemma DecisionBinds(sc: Scenario, spec: IntentSpec, r: Receipt, n: nat, size: nat)
    requires r.scenario == sc.identity && r.decision == spec.decision && r.agent == spec.agent && r.tool == spec.tool
    requires r.requestSequence == n < size
    ensures BoundReceipt(sc, spec, size, DecisionEvent(r, n + 1)) == Success(r)
  {
    assert ParseDecision(DecisionEvent(r, n + 1)) == Some(r);
  }

  lemma Forwards(d: Digests, sc: Scenario, spec: IntentSpec, normalized: seq<Event>, call: Call, ts: Targets, a: nat,
                 before: seq<Event>, after: seq<Event>, r: Receipt, out: seq<Event>)
    requires Stitched(d, sc, spec, normalized, call, ts, a, before, after, r, out)
        && Verifiable(spec, normalized, ts, a)
    ensures Verify(d, sc, Trial(sc.identity, out)) == ACCEPTED
  {
    SelectsDecision(spec, normalized, call, ts, a, before, after, r, out);
    AcceptsRequest(d, sc, spec, normalized, call, ts, a, before, after, r, out);
    DecisionBinds(sc, spec, r, |before|, |out|);
    assert VerifyDecision(d, sc, spec, out, out[|before| + 1]) == VerifyContinuation(d, sc, out, out[|before| + 1], r);
    ContinuationVerdict(d, sc, spec, normalized, call, ts, a, before, after, r, out);
  }

  // ---- backwards: an accepted stream was verifiable

  /** Every kept event reappears, up to its number, outside the inserted positions. */
  lemma KeptReappears(spec: IntentSpec, ts: Targets, call: Call, before: seq<Event>, after: seq<Event>, r: Receipt,
      out: seq<Event>, e: Event)
    returns (k: nat)
    requires Shape(spec, ts, call, before, after, r, out) && (e in before || e in after)
    ensures k < |out| && !(|before| <= k < |before| + Inserted(spec)) && out[k] == Numbered(e, k)
  {
    if e in before {
      k :| 0 <= k < |before| && before[k] == e;
    } else {
      var i :| 0 <= i < |after| && after[i] == e;
      k := |before| + Inserted(spec) + i;
    }
  }

  lemma NoOtherDecision(spec: IntentSpec, normalized: seq<Event>, call: Call, ts: Targets, a: nat,
                        before: seq<Event>, after: seq<Event>, r: Receipt, out: seq<Event>, i: nat)
    requires Shape(spec, ts, call, before, after, r, out) && Placed(normalized, call, ts, a, before, after)
    requires forall k | 0 <= k < |out| :: IsKind(ApprovalDecision)(out[k]) ==> k == |before| + 1
    requires i < |normalized|
    ensures !normalized[i].kind.ApprovalDecision?
  {
    var e := normalized[i];
    if e in before || e in after {
      var k := KeptReappears(spec, ts, call, before, after, r, out, e);
      assert !IsKind(ApprovalDecision)(out[k]);
    }
  }

  lemma NoOtherTarget(spec: IntentSpec, normalized: seq<Event>, call: Call, ts: Targets, a: nat,
                      before: seq<Event>, after: seq<Event>, r: Receipt, out: seq<Event>, i: nat)
    requires Shape(spec, ts, call, before, after, r, out) && Placed(normalized, call, ts, a, before, after)
    requires forall k | 0 <= k < |out| :: TargetOf(ApprovalRequest, spec.agent, spec.tool)(out[k]) <==> k == |before|
    requires i < |normalized|
    ensures TargetOf(ApprovalRequest, spec.agent, spec.tool)(normalized[i]) <==> i == a
  {
    var e := normalized[i];
    var f := TargetOf(ApprovalRequest, spec.agent, spec.tool);
    if e in before || e in after {
      var k := KeptReappears(spec, ts, call, before, after, r, out, e);
      assert f(out[k]) == f(e);
    } else if i == a {
      assert f(out[|before|]);
    }
  }

  lemma AcceptedDecision(d: Digests, sc: Scenario, spec: IntentSpec, r: Receipt, n: nat, out: seq<Event>)
    requires sc.spec == Some(spec) && Contiguous(out) && n + 1 < |out| && out[n + 1] == DecisionEvent(r, n + 1)
    requires Verify(d, sc, Trial(sc.identity, out)) == ACCEPTED
    ensures forall k | 0 <= k < |out| :: IsKind(ApprovalDecision)(out[k]) <==> k == n + 1
    ensures r.requestSequence < |out| && VerifyRequest(d, sc, out, spec, r) == ACCEPTED
    ensures VerifyContinuation(d, sc, out, out[n + 1], r) == ACCEPTED
  {
    assert IsKind(ApprovalDecision)(out[n + 1]);
    var m, r' := DecisionIsBound(d, sc, Trial(sc.identity, out), n + 1);
    assert m == n + 1 && ParseDecision(out[n + 1]) == Some(r);
  }

  lemma NoOthers(spec: IntentSpec, normalized: seq<Event>, call: Call, ts: Targets, a: nat,
                 before: seq<Event>, after: seq<Event>, r: Receipt, out: seq<Event>)
    requires Shape(spec, ts, call, before, after, r, out) && Placed(normalized, call, ts, a, before, after)
    requires forall k | 0 <= k < |out| :: IsKind(ApprovalDecision)(out[k]) ==> k == |before| + 1
    requires forall k | 0 <= k < |out| :: TargetOf(ApprovalRequest, spec.agent, spec.tool)(out[k]) <==> k == |before|
    ensures forall i | 0 <= i < |normalized| :: !normalized[i].kind.ApprovalDecision?
    ensures forall i | 0 <= i < |normalized| ::
              TargetOf(ApprovalRequest, spec.agent, spec.tool)(normalized[i]) <==> i == a
  {
    forall i | 0 <= i < |normalized|
      ensures !normalized[i].kind.ApprovalDecision?
      ensures TargetOf(ApprovalRequest, spec.agent, spec.tool)(normalized[i]) <==> i == a
    {
      NoOtherDecision(spec, normalized, call, ts, a, before, after, r, out, i);
      NoOtherTarget(spec, normalized, call, ts, a, before, after, r, out, i);
    }
  }

  lemma Backwards(d: Digests, sc: Scenario, spec: IntentSpec, normalized: seq<Event>, call: Call, ts: Targets, a: nat,
                  before: seq<Event>, after: seq<Event>, r: Receipt, out: seq<Event>)
    requires Stitched(d, sc, spec, normalized, call, ts, a, before, after, r, out)
    requires Verify(d, sc, Trial(sc.identity, out)) == ACCEPTED
    ensures Verifiable(spec, normalized, ts, a)
  {
    AcceptedDecision(d, sc, spec, r, |before|, out);
    RequestIsUnique(d, sc, out, spec, r);
    RequestHasSource(d, sc, out, spec, r);
    NoOthers(spec, normalized, call, ts, a, before, after, r, out);
    ContinuationVerdict(d, sc, spec, normalized, call, ts, a, before, after, r, out);
  }

  lemma RequestHasSource(d: Digests, sc: Scenario, events: seq<Event>, spec: IntentSpec, r: Receipt)
    requires r.requestSequence < |events| && VerifyRequest(d, sc, events, spec, r) == ACCEPTED
    ensures events[r.requestSequence].source == REQUEST_SOURCE
  {
  }

  /** Stitch then verify: the verifier accepts the adapter's output, for either decision, exactly when the
      stream carried no earlier decision, its only approval request for the target is the stitched call's own
      and comes from the SDK, and the native result belongs to the agent and, for an approval, is an
      unflagged SDK result. */
  lemma StitchThenVerify(d: Digests, sc: Scenario, normalized: seq<Event>, call: Call)
    requires Contiguous(normalized) && sc.spec.Some? && Stitch(d, sc, normalized, call).Success?
    ensures FindTargets(sc.spec.value, normalized, call).Success? && Contiguous(Stitch(d, sc, normalized, call).value)
    ensures var ts := FindTargets(sc.spec.value, normalized, call).value;
            (Verify(d, sc, Trial(sc.identity, Stitch(d, sc, normalized, call).value)) == ACCEPTED)
            <==> Verifiable(sc.spec.value, normalized, ts, ts.approval.sequence)
  {
    var spec := sc.spec.value;
    var out := Stitch(d, sc, normalized, call).value;
    var ts, a, before, after, r := StitchedFacts(d, sc, normalized, call);
    if Verifiable(spec, normalized, ts, a) {
      Forwards(d, sc, spec, normalized, call, ts, a, before, after, r, out);
    } else if Verify(d, sc, Trial(sc.identity, out)) == ACCEPTED {
      Backwards(d, sc, spec, normalized, call, ts, a, before, after, r, out);
    }
  }

  // ---------------------------------------------------------------- a stitched stream that is refused

  function CallFields(spec: IntentSpec, call: Call): Payload {
    map["call_id" := Text(call.callId), "agent" := Text(spec.agent), "tool" := Text(spec.tool),
        "arguments" := Text(call.arguments)]
  }

  /** A stream of one call that already carries a decision event. */
  function DecidedStream(spec: IntentSpec, call: Call): seq<Event> {
    var fields := CallFields(spec, call);
    [Event(0, ApprovalDecision, DECISION_SOURCE, map[], false), Event(1, ToolRequest, REQUEST_SOURCE, fields, false),
     Event(2, ApprovalRequest, REQUEST_SOURCE, fields, false), Event(3, ToolResult, RESULT_SOURCE, fields, false)]
  }

  lemma DecidedTargets(spec: IntentSpec, call: Call)
    ensures var stream := DecidedStream(spec, call);
            && Contiguous(stream)
            && FindTargets(spec, stream, call) == Success(Targets(stream[1], stream[2], stream[3]))
  {
    var stream := DecidedStream(spec, call);
    FilterOne(CallOf(ToolRequest, call.callId), stream, 1);
    FilterOne(CallOf(ApprovalRequest, call.callId), stream, 2);
    FilterOne(CallOf(ToolResult, call.callId), stream, 3);
  }

  lemma DecidedIsNotVerifiable(spec: IntentSpec, call: Call, ts: Targets, a: nat)
    ensures !Verifiable(spec, DecidedStream(spec, call), ts, a)
  {
    assert DecidedStream(spec, call)[0].kind.ApprovalDecision?;
  }

  /** The adapter stitches the stream, and the verifier refuses the result. */
  predicate StitchedThenRefused(d: Digests, sc: Scenario, stream: seq<Event>, call: Call) {
    && sc.spec.Some? && Contiguous(stream) && Stitch(d, sc, stream, call).Success?
    && Contiguous(Stitch(d, sc, stream, call).value)
    && Verify(d, sc, Trial(sc.identity, Stitch(d, sc, stream, call).value)) != ACCEPTED
  }

  lemma ReceiptGranted(d: Digests, sc: Scenario, spec: IntentSpec, call: Call, s: PathState, sequence: nat)
    requires d.arguments(call.arguments).Some? && ValidIdentity(call.callId, 512)
    requires ValidIdentity(spec.agent, 256) && ValidIdentity(spec.tool, 256)
    ensures CreateReceipt(d, sc, spec, call, s, sequence).Some?
  {
  }

  lemma StitchSucceeds(d: Digests, sc: Scenario, stream: seq<Event>, call: Call, ts: Targets)
    requires sc.spec.Some? && FindTargets(sc.spec.value, stream, call) == Success(ts)
    requires d.arguments(call.arguments).Some? && ValidIdentity(call.callId, 512)
    requires ValidIdentity(sc.spec.value.agent, 256) && ValidIdentity(sc.spec.value.tool, 256)
    ensures Stitch(d, sc, stream, call).Success?
  {
    forall s: PathState, n: nat ensures CreateReceipt(d, sc, sc.spec.value, call, s, n).Some? {
      ReceiptGranted(d, sc, sc.spec.value, call, s, n);
    }
  }

  lemma UnverifiableIsRefused(d: Digests, sc: Scenario, stream: seq<Event>, call: Call, ts: Targets)
    requires sc.spec.Some? && Contiguous(stream) && FindTargets(sc.spec.value, stream, call) == Success(ts)
    requires Stitch(d, sc, stream, call).Success? && !Verifiable(sc.spec.value, stream, ts, ts.approval.sequence)
    ensures StitchedThenRefused(d, sc, stream, call)
  {
    StitchThenVerify(d, sc, stream, call);
  }

  /** The adapter does not look for earlier decisions: whatever the scenario and the call, there is a stream with an
      earlier decision that it stitches and the verifier then refuses. */
  lemma EarlierDecisionIsRefused(d: Digests, sc: Scenario, call: Call)
    requires sc.spec.Some? && d.arguments(call.arguments).Some? && ValidIdentity(call.callId, 512)
    requires ValidIdentity(sc.spec.value.agent, 256) && ValidIdentity(sc.spec.value.tool, 256)
    ensures StitchedThenRefused(d, sc, DecidedStream(sc.spec.value, call), call)
  {
    var spec := sc.spec.value;
    var stream := DecidedStream(spec, call);
    var ts := Targets(stream[1], stream[2], stream[3]);
    DecidedTargets(spec, call);
    DecidedIsNotVerifiable(spec, call, ts, ts.approval.sequence);
    StitchSucceeds(d, sc, stream, call, ts);
    UnverifiableIsRefused(d, sc, stream, call, ts);
  }
}
