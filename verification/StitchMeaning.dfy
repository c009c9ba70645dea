/** What the stitching of an approval lifecycle does, position by position (adapters/openai_hitl_approval.py:329-500):
    when it succeeds and why it is refused, where every event of the stream goes, and what the inserted ones say. */
module StitchMeaning {
  import opened Wrappers
  import opened Sequences
  import opened Evidence
  import opened Authority
  import opened ApprovalIntent
  import opened ApprovalStitch

  /** The call has one request, one approval request and one result in the stream. */
  ghost predicate Solitary(normalized: seq<Event>, callId: string, q: nat, a: nat, z: nat) {
    && OnlyCall(normalized, ToolRequest, callId, q) && OnlyCall(normalized, ApprovalRequest, callId, a)
    && OnlyCall(normalized, ToolResult, callId, z)
  }

  /** They are those of the scenario's agent and tool, with the arguments of the interruption. */
  ghost predicate Fitting(spec: IntentSpec, normalized: seq<Event>, call: Call, q: nat, a: nat) {
    && q < |normalized| && a < |normalized|
    && Has(normalized[q], "agent", spec.agent) && Has(normalized[a], "agent", spec.agent)
    && Has(normalized[q], "tool", spec.tool) && Has(normalized[q], "arguments", call.arguments)
  }

  /** A receipt can name the call. */
  predicate Receivable(d: Digests, spec: IntentSpec, call: Call) {
    && d.arguments(call.arguments).Some?
    && spec.agent != "" && |spec.agent| <= 256 && Trimmed(spec.agent)
    && spec.tool != "" && |spec.tool| <= 256 && Trimmed(spec.tool)
    && call.callId != "" && |call.callId| <= 512 && Trimmed(call.callId)
  }

  ghost predicate Stitchable(d: Digests, spec: IntentSpec, normalized: seq<Event>, call: Call, q: nat, a: nat, z: nat) {
    Solitary(normalized, call.callId, q, a, z) && Fitting(spec, normalized, call, q, a) && Receivable(d, spec, call)
  }

  // ---------------------------------------------------------------- when it succeeds

  ghost predicate Sole(normalized: seq<Event>, k: Kind, callId: string) {
    exists i :: OnlyCall(normalized, k, callId, i)
  }

  /** The first reason not to stitch. */
  ghost predicate Explains(error: StitchError, d: Digests, spec: IntentSpec, normalized: seq<Event>, call: Call) {
    match error
    case RequestAmbiguous => !Sole(normalized, ToolRequest, call.callId)
    case ApprovalAmbiguous =>
      Sole(normalized, ToolRequest, call.callId) && !Sole(normalized, ApprovalRequest, call.callId)
    case ResultAmbiguous =>
      && Sole(normalized, ToolRequest, call.callId) && Sole(normalized, ApprovalRequest, call.callId)
      && !Sole(normalized, ToolResult, call.callId)
    case _ => exists q: nat, a: nat, z: nat ::
      && Solitary(normalized, call.callId, q, a, z)
      && Mismatched(error, d, spec, normalized[q], normalized[a], call)
  }

  predicate Mismatched(error: StitchError, d: Digests, spec: IntentSpec, request: Event, approval: Event, call: Call) {
    match error
    case RequestAgent => !Has(request, "agent", spec.agent)
    case InterruptionAgent => Has(request, "agent", spec.agent) && !Has(approval, "agent", spec.agent)
    case RequestTool =>
      && Has(request, "agent", spec.agent) && Has(approval, "agent", spec.agent)
      && !Has(request, "tool", spec.tool)
    case ArgumentsDisagree =>
      && Has(request, "agent", spec.agent) && Has(approval, "agent", spec.agent)
      && Has(request, "tool", spec.tool) && !Has(request, "arguments", call.arguments)
    case ReceiptUnavailable =>
      && Has(request, "agent", spec.agent) && Has(approval, "agent", spec.agent)
      && Has(request, "tool", spec.tool) && Has(request, "arguments", call.arguments)
      && !Receivable(d, spec, call)
    case _ => false
  }

  lemma SoleIsCounted(normalized: seq<Event>, k: Kind, callId: string)
    ensures |Filter(CallOf(k, callId), normalized)| == 1 <==> Sole(normalized, k, callId)
  {
    if |Filter(CallOf(k, callId), normalized)| == 1 {
      var i := FilterSingle(CallOf(k, callId), normalized);
      assert OnlyCall(normalized, k, callId, i);
    }
    if i :| OnlyCall(normalized, k, callId, i) {
      FilterOne(CallOf(k, callId), normalized, i);
    }
  }

  lemma SolitaryTargets(normalized: seq<Event>, callId: string, q: nat, a: nat, z: nat)
    requires Solitary(normalized, callId, q, a, z)
    ensures Filter(CallOf(ToolRequest, callId), normalized) == [normalized[q]]
    ensures Filter(CallOf(ApprovalRequest, callId), normalized) == [normalized[a]]
    ensures Filter(CallOf(ToolResult, callId), normalized) == [normalized[z]]
  {
    FilterOne(CallOf(ToolRequest, callId), normalized, q);
    FilterOne(CallOf(ApprovalRequest, callId), normalized, a);
    FilterOne(CallOf(ToolResult, callId), normalized, z);
  }

  /** Each refusal has its reason; the reasons exclude one another and any success. */
  lemma RefusalIsExplained(d: Digests, sc: Scenario, normalized: seq<Event>, call: Call)
    requires sc.spec.Some? && Stitch(d, sc, normalized, call).Failure?
    ensures Explains(Stitch(d, sc, normalized, call).error, d, sc.spec.value, normalized, call)
  {
    SoleIsCounted(normalized, ToolRequest, call.callId);
    SoleIsCounted(normalized, ApprovalRequest, call.callId);
    SoleIsCounted(normalized, ToolResult, call.callId);
    if Sole(normalized, ToolRequest, call.callId) && Sole(normalized, ApprovalRequest, call.callId)
       && Sole(normalized, ToolResult, call.callId)
    {
      var q: nat :| OnlyCall(normalized, ToolRequest, call.callId, q);
      var a: nat :| OnlyCall(normalized, ApprovalRequest, call.callId, a);
      var z: nat :| OnlyCall(normalized, ToolResult, call.callId, z);
      assert Solitary(normalized, call.callId, q, a, z);
      SolitaryTargets(normalized, call.callId, q, a, z);
      assert Mismatched(Stitch(d, sc, normalized, call).error, d, sc.spec.value, normalized[q], normalized[a], call);
    }
  }

  // ---------------------------------------------------------------- where the events go

  function One(b: bool): nat { if b then 1 else 0 }

  /** The number of events before i that are neither request nor result of the call. */
  function Kept(q: nat, z: nat, i: nat): int { i - One(q < i) - One(z < i) }

  /** The position of an event outside the call: those after the approval request make room for what is inserted. */
  function Moved(spec: IntentSpec, q: nat, a: nat, z: nat, i: nat): int {
    if i < a then Kept(q, z, i) else Kept(q, z, i) - 1 + if spec.decision.Approve? then 4 else 3
  }

  /** An element that satisfies the condition is found behind those that do so before it. */
  lemma {:induction false} FilterRank<T>(f: T -> bool, xs: seq<T>, i: nat)
    requires i < |xs| && f(xs[i])
    ensures |Filter(f, xs[..i])| < |Filter(f, xs)| && Filter(f, xs)[|Filter(f, xs[..i])|] == xs[i]
  {
    var n := |xs| - 1;
    if i == n {
    } else {
      assert xs[..n][..i] == xs[..i];
      FilterRank(f, xs[..n], i);
    }
  }

  lemma FilterCount<T>(f: T -> bool, xs: seq<T>, i: nat)
    requires 0 < i <= |xs|
    ensures |Filter(f, xs[..i])| == |Filter(f, xs[..i - 1])| + One(f(xs[i - 1]))
  {
    assert xs[..i] == xs[..i - 1] + [xs[i - 1]];
    FilterSnoc(f, xs[..i - 1], xs[i - 1]);
  }

  ghost predicate TargetsAt(normalized: seq<Event>, ts: Targets, q: nat, a: nat, z: nat) {
    && Contiguous(normalized) && q < |normalized| && a < |normalized| && z < |normalized|
    && q != a && a != z && q != z
    && ts == Targets(normalized[q], normalized[a], normalized[z])
  }

  lemma {:induction false} RankBefore(normalized: seq<Event>, ts: Targets, q: nat, a: nat, z: nat, i: nat)
    requires TargetsAt(normalized, ts, q, a, z) && i <= |normalized|
    ensures |Filter(BeforeApproval(ts), normalized[..i])| == if i < a then Kept(q, z, i) else Kept(q, z, a)
  {
    if i > 0 {
      RankBefore(normalized, ts, q, a, z, i - 1);
      FilterCount(BeforeApproval(ts), normalized, i);
      assert BeforeApproval(ts)(normalized[i - 1]) <==> i - 1 < a && i - 1 != q && i - 1 != z;
    }
  }

  lemma {:induction false} RankAfter(normalized: seq<Event>, ts: Targets, q: nat, a: nat, z: nat, i: nat)
    requires TargetsAt(normalized, ts, q, a, z) && i <= |normalized|
    ensures |Filter(AfterApproval(ts), normalized[..i])| == if i <= a then 0 else Kept(q, z, i) - Kept(q, z, a) - 1
  {
    if i > 0 {
      RankAfter(normalized, ts, q, a, z, i - 1);
      FilterCount(AfterApproval(ts), normalized, i);
      assert AfterApproval(ts)(normalized[i - 1]) <==> i - 1 > a && i - 1 != q && i - 1 != z;
    }
  }

  /** Every event of the stream outside the call, once, with its new number and nothing else changed. */
  ghost predicate OthersMoved(spec: IntentSpec, normalized: seq<Event>, q: nat, a: nat, z: nat, out: seq<Event>) {
    && |out| == |normalized| + One(spec.decision.Approve?)
    && forall i | 0 <= i < |normalized| && i !in {q, a, z} ::
         && 0 <= Moved(spec, q, a, z, i) < |out|
         && out[Moved(spec, q, a, z, i)] == normalized[i].(sequence := Moved(spec, q, a, z, i))
  }

  lemma ShapeOfOthers(spec: IntentSpec, ts: Targets, call: Call, before: seq<Event>, after: seq<Event>, r: Receipt,
      out: seq<Event>)
    requires Shape(spec, ts, call, before, after, r, out)
    ensures |out| == |before| + Inserted(spec) + |after|
    ensures forall j | 0 <= j < |before| :: out[j] == before[j].(sequence := j)
    ensures forall j | 0 <= j < |after| ::
              var k := |before| + Inserted(spec) + j;
              out[k] == after[j].(sequence := k)
  {
  }

  lemma Moves(spec: IntentSpec, normalized: seq<Event>, ts: Targets, q: nat, a: nat, z: nat, before: seq<Event>,
      after: seq<Event>, i: nat) returns (j: nat)
    requires TargetsAt(normalized, ts, q, a, z) && i < |normalized| && i !in {q, a, z}
    requires before == Filter(BeforeApproval(ts), normalized) && after == Filter(AfterApproval(ts), normalized)
    requires |before| == Kept(q, z, a)
    ensures i < a ==> j < |before| && before[j] == normalized[i] && j == Moved(spec, q, a, z, i)
    ensures i > a ==>
              j < |after| && after[j] == normalized[i] && |before| + Inserted(spec) + j == Moved(spec, q, a, z, i)
  {
    if i < a {
      FilterRank(BeforeApproval(ts), normalized, i);
      RankBefore(normalized, ts, q, a, z, i);
      j := |Filter(BeforeApproval(ts), normalized[..i])|;
    } else {
      FilterRank(AfterApproval(ts), normalized, i);
      RankAfter(normalized, ts, q, a, z, i);
      j := |Filter(AfterApproval(ts), normalized[..i])|;
    }
  }

  lemma OthersMove(spec: IntentSpec, normalized: seq<Event>, call: Call, ts: Targets, q: nat, a: nat, z: nat,
      before: seq<Event>, after: seq<Event>, r: Receipt, out: seq<Event>)
    requires TargetsAt(normalized, ts, q, a, z) && Shape(spec, ts, call, before, after, r, out)
    requires before == Filter(BeforeApproval(ts), normalized) && after == Filter(AfterApproval(ts), normalized)
    ensures OthersMoved(spec, normalized, q, a, z, out) && |before| == Kept(q, z, a)
  {
    Sizes(normalized, ts, q, a, z);
    ShapeOfOthers(spec, ts, call, before, after, r, out);
    forall i | 0 <= i < |normalized| && i !in {q, a, z}
      ensures 0 <= Moved(spec, q, a, z, i) < |out|
      ensures out[Moved(spec, q, a, z, i)] == normalized[i].(sequence := Moved(spec, q, a, z, i))
    {
      var j := Moves(spec, normalized, ts, q, a, z, before, after, i);
    }
  }

  lemma Sizes(normalized: seq<Event>, ts: Targets, q: nat, a: nat, z: nat)
    requires TargetsAt(normalized, ts, q, a, z)
    ensures |Filter(BeforeApproval(ts), normalized)| == Kept(q, z, a)
    ensures |Filter(AfterApproval(ts), normalized)| == |normalized| - 3 - Kept(q, z, a)
  {
    assert normalized[..|normalized|] == normalized;
    RankBefore(normalized, ts, q, a, z, |normalized|);
    RankAfter(normalized, ts, q, a, z, |normalized|);
  }

  // ---------------------------------------------------------------- what is inserted

  function ResourceValue(call: Call): Option<Value> {
    if call.resource.Some? then Some(Resource(call.resource.value)) else None
  }

  /** The approval request, with the arguments and the resource of the interruption. */
  ghost predicate RequestPlaced(e: Event, approval: Event, call: Call, n: nat) {
    && e.sequence == n && e.kind == approval.kind && e.source == approval.source && e.critical == approval.critical
    && forall key :: Get(e.payload, key)
         == if key == "arguments" then Some(Text(call.arguments))
            else if key == "resource" then ResourceValue(call) else Get(approval.payload, key)
  }

  /** The evaluator's decision, bound to the authority before the request. */
  ghost predicate DecisionPlaced(d: Digests, sc: Scenario, spec: IntentSpec, call: Call, out: seq<Event>, n: nat) {
    && n + 1 < |out| && out[n + 1].sequence == n + 1 && out[n + 1].kind.ApprovalDecision? && !out[n + 1].critical
    && out[n + 1].source == "evaluator:openai-hitl-approval-intent"
    && d.arguments(call.arguments).Some?
    && var s := StateBefore(sc.authority, out, n);
       var r := Receipt(sc.identity, spec.decision, spec.agent, spec.tool, call.callId,
                        d.arguments(call.arguments).value, call.resource, |s.transitions|,
                        d.path(s.root, s.transitions), n);
       out[n + 1].payload == map["receipt" := Intent(r)]
  }

  /** The approved execution: the request again, with the resource of the interruption. */
  ghost predicate ExecutionPlaced(e: Event, request: Event, call: Call, n: nat) {
    && e.sequence == n && e.kind.ToolRequest? && !e.critical && e.source == "openai-agents:approved-execution"
    && forall key :: Get(e.payload, key) == if key == "resource" then ResourceValue(call) else Get(request.payload, key)
  }

  /** The result of a rejected call, marked as such. */
  ghost predicate RejectionPlaced(e: Event, result: Event, n: nat) {
    && e.sequence == n && e.kind.ToolResult? && !e.critical && e.source == "openai-agents:approval-rejection-result"
    && forall key ::
         Get(e.payload, key) == if key == "approval_rejected" then Some(Flag(true)) else Get(result.payload, key)
  }

  ghost predicate Inserts(d: Digests, sc: Scenario, spec: IntentSpec, normalized: seq<Event>, call: Call, q: nat,
      a: nat, z: nat, n: nat, out: seq<Event>)
    requires q < |normalized| && a < |normalized| && z < |normalized|
  {
    && n + Inserted(spec) <= |out|
    && RequestPlaced(out[n], normalized[a], call, n) && DecisionPlaced(d, sc, spec, call, out, n)
    && match spec.decision
       case Approve =>
         ExecutionPlaced(out[n + 2], normalized[q], call, n + 2) && out[n + 3] == normalized[z].(sequence := n + 3)
       case Reject => RejectionPlaced(out[n + 2], normalized[z], n + 2)
  }

  lemma ShapeInserts(d: Digests, sc: Scenario, spec: IntentSpec, normalized: seq<Event>, call: Call, ts: Targets,
      q: nat, a: nat, z: nat, before: seq<Event>, after: seq<Event>, r: Receipt, out: seq<Event>)
    requires TargetsAt(normalized, ts, q, a, z)
    requires Shape(spec, ts, call, before, after, r, out) && ReceiptBinds(d, sc, spec, call, |before|, r, out)
    ensures Inserts(d, sc, spec, normalized, call, q, a, z, |before|, out)
  {
    assert DecisionPlaced(d, sc, spec, call, out, |before|);
  }

  /** The whole outcome: stitching succeeds when the stream and the call are stitchable; the stream then keeps every
      other event in place, and in the place of the call's three events it has the enriched request, the evaluator's
      decision and what follows from it. */
  lemma StitchOutcome(d: Digests, sc: Scenario, normalized: seq<Event>, call: Call, q: nat, a: nat, z: nat)
    requires Contiguous(normalized) && sc.spec.Some?
    requires Stitchable(d, sc.spec.value, normalized, call, q, a, z)
    ensures Stitch(d, sc, normalized, call).Success? && Kept(q, z, a) >= 0
    ensures OthersMoved(sc.spec.value, normalized, q, a, z, Stitch(d, sc, normalized, call).value)
    ensures Inserts(d, sc, sc.spec.value, normalized, call, q, a, z, Kept(q, z, a),
                    Stitch(d, sc, normalized, call).value)
  {
    var spec := sc.spec.value;
    SolitaryTargets(normalized, call.callId, q, a, z);
    var ts := Targets(normalized[q], normalized[a], normalized[z]);
    StitchSucceeds(d, sc, normalized, call, ts);
    var r := StitchBinds(d, sc, normalized, call);
    var before, after := Filter(BeforeApproval(ts), normalized), Filter(AfterApproval(ts), normalized);
    AssembleShape(spec, ts, call, before, after, r);
    var out := Assemble(spec, ts, call, before, after, r);
    OthersMove(spec, normalized, call, ts, q, a, z, before, after, r, out);
    ShapeInserts(d, sc, spec, normalized, call, ts, q, a, z, before, after, r, out);
  }

  /** Only such streams are stitched. */
  lemma StitchedIsStitchable(d: Digests, sc: Scenario, normalized: seq<Event>, call: Call)
    returns (q: nat, a: nat, z: nat)
    requires sc.spec.Some? && Stitch(d, sc, normalized, call).Success?
    ensures Stitchable(d, sc.spec.value, normalized, call, q, a, z)
  {
    q, a, z := LocateTargets(sc.spec.value, normalized, call);
    SolitaryTargets(normalized, call.callId, q, a, z);
  }
}
