/** What it means for the verifier of approval intent (evidence/approval_intent.py:169-424) to accept a trial, said
    of the positions of the trace and of nothing that the verifier computes. */
module ApprovalMeaning {
  import opened Wrappers
  import opened Sequences
  import opened Evidence
  import opened Authority
  import opened ApprovalIntent

  // ---------------------------------------------------------------- one event

  /** The event is about the receipt's call: its agent, tool, call identity, arguments and resource, under the
      authority path on which approval was asked. */
  ghost predicate Bound(d: Digests, sc: Scenario, events: seq<Event>, r: Receipt, i: nat)
    requires i < |events|
  {
    var e, s := events[i], StateBefore(sc.authority, events, i);
    && Has(e, "agent", r.agent) && Has(e, "tool", r.tool) && Has(e, "call_id", r.callId)
    && (exists text :: Has(e, "arguments", text) && d.arguments(text) == Some(r.arguments))
    && (match r.resource
        case None => "resource" !in e.payload
        case Some(resource) => "resource" in e.payload && e.payload["resource"] == Resource(resource))
    && |s.transitions| == r.authorityEpoch && d.path(s.root, s.transitions) == r.authorityPath
  }

  lemma BoundIsIntent(d: Digests, sc: Scenario, events: seq<Event>, r: Receipt, i: nat)
    requires i < |events| && events[i].sequence == i
    ensures Bound(d, sc, events, r, i) <==> EventIntent(d, events[i], r, StateAt(sc, events, events[i])) == ACCEPTED
  {
    var e := events[i];
    if EventIntent(d, e, r, StateAt(sc, events, e)) == ACCEPTED {
      var text := e.payload["arguments"].text;
      assert Has(e, "arguments", text) && d.arguments(text) == Some(r.arguments);
    }
  }

  /** The event is of this kind and names the receipt's call. */
  predicate ForCall(events: seq<Event>, k: Kind, r: Receipt, i: int) {
    0 <= i < |events| && events[i].kind == k && Has(events[i], "call_id", r.callId)
  }

  predicate ForTarget(events: seq<Event>, k: Kind, agent: string, tool: string, i: int) {
    0 <= i < |events| && events[i].kind == k && Has(events[i], "agent", agent) && Has(events[i], "tool", tool)
  }

  // ---------------------------------------------------------------- an acceptable trial

  /** The one decision event is the evaluator's and carries a receipt for this scenario, decision, agent and tool. */
  ghost predicate DecidedAt(sc: Scenario, spec: IntentSpec, events: seq<Event>, r: Receipt, m: nat) {
    && m < |events| && (forall i | 0 <= i < |events| :: events[i].kind == ApprovalDecision <==> i == m)
    && events[m].source == "evaluator:openai-hitl-approval-intent"
    && events[m].payload == map["receipt" := Intent(r)]
    && r.scenario == sc.identity && r.decision == spec.decision && r.agent == spec.agent && r.tool == spec.tool
  }

  /** The one approval request for the call and for the target is the SDK's, precedes the decision and is bound. */
  ghost predicate RequestedAt(d: Digests, sc: Scenario, spec: IntentSpec, events: seq<Event>, r: Receipt, m: nat) {
    var a := r.requestSequence;
    && a < m < |events| && events[a].source == "openai-agents:new_items" && Bound(d, sc, events, r, a)
    && (forall i :: ForCall(events, ApprovalRequest, r, i) <==> i == a)
    && (forall i :: ForTarget(events, ApprovalRequest, spec.agent, spec.tool, i) <==> i == a)
  }

  /** Before the decision, requests for the call are bound, and there is no result yet. */
  ghost predicate Untouched(d: Digests, sc: Scenario, events: seq<Event>, r: Receipt, m: nat) {
    && (forall i | 0 <= i < m && ForCall(events, ToolRequest, r, i) :: Bound(d, sc, events, r, i))
    && (forall i | ForCall(events, ToolResult, r, i) :: i > m)
  }

  /** After the decision the call was made once, bound, and answered once after that. */
  ghost predicate ExecutedAt(d: Digests, sc: Scenario, events: seq<Event>, r: Receipt, m: nat, x: nat, z: nat) {
    && m < x < z < |events| && Bound(d, sc, events, r, x)
    && (forall i | i > m :: ForCall(events, ToolRequest, r, i) <==> i == x)
    && (forall i | i > m :: ForCall(events, ToolResult, r, i) <==> i == z)
    && Has(events[z], "agent", r.agent)
  }

  predicate FlaggedRejected(e: Event) {
    "approval_rejected" in e.payload && e.payload["approval_rejected"] == Flag(true)
  }

  /** The approved call was made at x by the adapter and answered at z by the SDK, unflagged. */
  ghost predicate ApprovedAt(d: Digests, sc: Scenario, events: seq<Event>, r: Receipt, m: nat, x: nat, z: nat) {
    && ExecutedAt(d, sc, events, r, m, x, z)
    && events[x].source == "openai-agents:approved-execution" && events[z].source == "openai-agents:new_items"
    && !FlaggedRejected(events[z])
  }

  ghost predicate Approved(d: Digests, sc: Scenario, events: seq<Event>, r: Receipt, m: nat) {
    exists x: nat, z: nat :: ApprovedAt(d, sc, events, r, m, x, z)
  }

  /** A rejected call that was made all the same. */
  ghost predicate Bypassed(d: Digests, sc: Scenario, events: seq<Event>, r: Receipt, m: nat) {
    exists x: nat, z: nat :: ExecutedAt(d, sc, events, r, m, x, z)
  }

  /** A rejected call that was not made, and whose one result z says so. */
  ghost predicate RefusedAt(events: seq<Event>, r: Receipt, m: nat, z: nat) {
    && (forall i | i > m :: !ForCall(events, ToolRequest, r, i))
    && m < z < |events| && (forall i | i > m :: ForCall(events, ToolResult, r, i) <==> i == z)
    && Has(events[z], "agent", r.agent) && FlaggedRejected(events[z])
    && events[z].source == "openai-agents:approval-rejection-result"
  }

  ghost predicate Refused(events: seq<Event>, r: Receipt, m: nat) {
    exists z: nat :: RefusedAt(events, r, m, z)
  }

  ghost predicate Continued(d: Digests, sc: Scenario, events: seq<Event>, r: Receipt, m: nat) {
    && Untouched(d, sc, events, r, m)
    && if r.decision.Approve? then Approved(d, sc, events, r, m)
       else Bypassed(d, sc, events, r, m) || Refused(events, r, m)
  }

  /** Decision, request and continuation belong together. */
  ghost predicate Decision(d: Digests, sc: Scenario, spec: IntentSpec, events: seq<Event>, r: Receipt, m: nat) {
    DecidedAt(sc, spec, events, r, m) && RequestedAt(d, sc, spec, events, r, m) && Continued(d, sc, events, r, m)
  }

  /** What an accepted trial must look like. */
  ghost predicate Acceptable(d: Digests, sc: Scenario, t: Trial) {
    match sc.spec
    case None => forall e | e in t.events :: e.kind != ApprovalDecision
    case Some(spec) =>
      && t.scenario == sc.identity
      && if forall e | e in t.events :: e.kind != ApprovalDecision then
           exists i :: ForTarget(t.events, ToolRequest, spec.agent, spec.tool, i)
         else
           exists m: nat, r :: Decision(d, sc, spec, t.events, r, m)
  }

  // ---------------------------------------------------------------- the verifier decides it

  /** Position i is the only one from `lo` on that satisfies the condition. */
  ghost predicate OnlyFrom(f: Event -> bool, events: seq<Event>, lo: nat, i: nat) {
    lo <= i < |events| && forall j | lo <= j < |events| :: f(events[j]) <==> j == i
  }

  lemma LaterEmpty(f: Event -> bool, events: seq<Event>, lo: nat)
    requires lo <= |events|
    ensures Filter(f, events[lo..]) == [] <==> forall j | lo <= j < |events| :: !f(events[j])
  {
    var later := events[lo..];
    if j :| lo <= j < |events| && f(events[j]) {
      FilterFinds(f, later, j - lo);
    } else {
      FilterNone(f, later);
    }
  }

  lemma LaterOne(f: Event -> bool, events: seq<Event>, lo: nat)
    requires lo <= |events|
    ensures |Filter(f, events[lo..])| == 1 ==> exists i: nat :: OnlyFrom(f, events, lo, i)
    ensures forall i: nat | OnlyFrom(f, events, lo, i) :: Filter(f, events[lo..]) == [events[i]]
  {
    var later := events[lo..];
    if |Filter(f, later)| == 1 {
      var k := FilterSingle(f, later);
      forall j | lo <= j < |events| ensures f(events[j]) <==> j == lo + k {
        assert later[j - lo] == events[j];
      }
      assert OnlyFrom(f, events, lo, lo + k);
    }
    forall i: nat | OnlyFrom(f, events, lo, i) ensures Filter(f, later) == [events[i]] {
      FilterOne(f, later, i - lo);
    }
  }

  /** A filter over the whole trace has one element, with this sequence, exactly when it is the only such position. */
  lemma UniqueWithSequence(f: Event -> bool, events: seq<Event>, a: nat)
    requires Contiguous(events)
    ensures |Filter(f, events)| == 1 && Filter(f, events)[0].sequence == a <==> OnlyFrom(f, events, 0, a)
  {
    assert events[0..] == events;
    LaterOne(f, events, 0);
  }

  lemma RequestMeaning(d: Digests, sc: Scenario, spec: IntentSpec, events: seq<Event>, r: Receipt, m: nat)
    requires Contiguous(events) && r.requestSequence < m < |events|
    ensures VerifyRequest(d, sc, events, spec, r) == ACCEPTED <==> RequestedAt(d, sc, spec, events, r, m)
  {
    var a := r.requestSequence;
    BoundIsIntent(d, sc, events, r, a);
    var call, target := CallOf(ApprovalRequest, r.callId), TargetOf(ApprovalRequest, spec.agent, spec.tool);
    UniqueWithSequence(call, events, a);
    UniqueWithSequence(target, events, a);
    assert OnlyFrom(call, events, 0, a) <==> (forall i :: ForCall(events, ApprovalRequest, r, i) <==> i == a) by {
      assert forall i | 0 <= i < |events| :: call(events[i]) <==> ForCall(events, ApprovalRequest, r, i);
    }
    assert OnlyFrom(target, events, 0, a)
        <==> (forall i :: ForTarget(events, ApprovalRequest, spec.agent, spec.tool, i) <==> i == a) by {
      assert forall i | 0 <= i < |events| ::
          target(events[i]) <==> ForTarget(events, ApprovalRequest, spec.agent, spec.tool, i);
    }
  }

  ghost predicate BoundIntent(d: Digests, sc: Scenario, events: seq<Event>, r: Receipt, e: Event) {
    EventIntent(d, e, r, StateAt(sc, events, e)) == ACCEPTED
  }

  /** The earlier requests for the call, as a filtered list and by their positions. */
  lemma EarlierRequests(d: Digests, sc: Scenario, events: seq<Event>, r: Receipt, m: nat)
    requires Contiguous(events) && m < |events|
    ensures (forall i | 0 <= i < m && ForCall(events, ToolRequest, r, i) :: Bound(d, sc, events, r, i))
       <==> forall e | e in Filter(CallOf(ToolRequest, r.callId), events[..m]) :: BoundIntent(d, sc, events, r, e)
  {
    var call := CallOf(ToolRequest, r.callId);
    var earlier := Filter(call, events[..m]);
    if forall e | e in earlier :: BoundIntent(d, sc, events, r, e) {
      forall i | 0 <= i < m && ForCall(events, ToolRequest, r, i) ensures Bound(d, sc, events, r, i) {
        FilterFinds(call, events[..m], i);
        BoundIsIntent(d, sc, events, r, i);
      }
    }
    if forall i | 0 <= i < m && ForCall(events, ToolRequest, r, i) :: Bound(d, sc, events, r, i) {
      forall e | e in earlier ensures BoundIntent(d, sc, events, r, e) {
        var k :| 0 <= k < |earlier| && earlier[k] == e;
        assert earlier[k] in events[..m] && call(e);
        var i :| 0 <= i < m && events[i] == e;
        BoundIsIntent(d, sc, events, r, i);
      }
    }
  }

  /** No result comes before the decision. */
  lemma ResultsAreLate(events: seq<Event>, r: Receipt, m: nat)
    requires Contiguous(events) && m < |events|
    ensures (forall i | ForCall(events, ToolResult, r, i) :: i > m)
       <==> !exists i | 0 <= i < |events| :: CallOf(ToolResult, r.callId)(events[i]) && events[i].sequence <= m
  {
    forall i | 0 <= i < |events|
      ensures ForCall(events, ToolResult, r, i) <==> CallOf(ToolResult, r.callId)(events[i])
    {
    }
  }

  /** The one request and the one result after the decision. */
  lemma ExecutionMeaning(d: Digests, sc: Scenario, events: seq<Event>, r: Receipt, m: nat, x: nat, z: nat)
    requires Contiguous(events) && m < |events|
    requires OnlyFrom(CallOf(ToolRequest, r.callId), events, m + 1, x)
    requires OnlyFrom(CallOf(ToolResult, r.callId), events, m + 1, z)
    ensures ExecutedAt(d, sc, events, r, m, x, z)
       <==> BoundIntent(d, sc, events, r, events[x]) && x < z && Has(events[z], "agent", r.agent)
  {
    BoundIsIntent(d, sc, events, r, x);
    assert forall i | m < i < |events| :: ForCall(events, ToolRequest, r, i) <==> i == x;
    assert forall i | m < i < |events| :: ForCall(events, ToolResult, r, i) <==> i == z;
  }

  lemma ExecutedIsOnly(d: Digests, sc: Scenario, events: seq<Event>, r: Receipt, m: nat, x: nat, z: nat)
    requires Contiguous(events) && m < |events| && ExecutedAt(d, sc, events, r, m, x, z)
    ensures OnlyFrom(CallOf(ToolRequest, r.callId), events, m + 1, x)
    ensures OnlyFrom(CallOf(ToolResult, r.callId), events, m + 1, z)
  {
    forall j | m + 1 <= j < |events|
      ensures CallOf(ToolRequest, r.callId)(events[j]) <==> j == x
      ensures CallOf(ToolResult, r.callId)(events[j]) <==> j == z
    {
      assert ForCall(events, ToolRequest, r, j) <==> j == x;
      assert ForCall(events, ToolResult, r, j) <==> j == z;
    }
  }

  /** The verifier's checks on the execution x and the one result z. */
  lemma ApprovedChecks(d: Digests, sc: Scenario, events: seq<Event>, r: Receipt, m: nat, x: nat, z: nat)
    requires Contiguous(events) && m < |events|
    requires OnlyFrom(CallOf(ToolRequest, r.callId), events, m + 1, x)
    requires OnlyFrom(CallOf(ToolResult, r.callId), events, m + 1, z)
    ensures VerifyApproved(d, sc, events, r, events[x], [events[z]]) == ACCEPTED
       <==> ApprovedAt(d, sc, events, r, m, x, z)
    ensures VerifyBypass(d, sc, events, r, events[x], [events[z]]) == ACCEPTED
       <==> ExecutedAt(d, sc, events, r, m, x, z)
  {
    ExecutionMeaning(d, sc, events, r, m, x, z);
  }

  /** The execution and the result are where the filters find them. */
  lemma ExecutedWhere(d: Digests, sc: Scenario, events: seq<Event>, r: Receipt, m: nat, x: nat, x': nat, z: nat)
    requires Contiguous(events) && m < |events| && OnlyFrom(CallOf(ToolRequest, r.callId), events, m + 1, x)
    requires ExecutedAt(d, sc, events, r, m, x', z)
    ensures x' == x && OnlyFrom(CallOf(ToolResult, r.callId), events, m + 1, z)
  {
    ExecutedIsOnly(d, sc, events, r, m, x', z);
    assert CallOf(ToolRequest, r.callId)(events[x]);
  }

  lemma ExecutedResults(d: Digests, sc: Scenario, events: seq<Event>, r: Receipt, m: nat, x: nat, x': nat, z: nat)
    requires Contiguous(events) && m < |events| && OnlyFrom(CallOf(ToolRequest, r.callId), events, m + 1, x)
    requires ExecutedAt(d, sc, events, r, m, x', z)
    ensures x' == x && Filter(CallOf(ToolResult, r.callId), events[m + 1..]) == [events[z]]
    ensures OnlyFrom(CallOf(ToolResult, r.callId), events, m + 1, z)
  {
    ExecutedWhere(d, sc, events, r, m, x, x', z);
    LaterOne(CallOf(ToolResult, r.callId), events, m + 1);
  }

  /** The one result that the filter finds. */
  lemma OneResult(f: Event -> bool, events: seq<Event>, m: nat) returns (z: nat)
    requires m < |events| && |Filter(f, events[m + 1..])| == 1
    ensures OnlyFrom(f, events, m + 1, z) && Filter(f, events[m + 1..]) == [events[z]]
  {
    LaterOne(f, events, m + 1);
    z :| OnlyFrom(f, events, m + 1, z);
  }

  lemma ApprovedMeaning(d: Digests, sc: Scenario, events: seq<Event>, r: Receipt, m: nat, x: nat)
    requires Contiguous(events) && m < |events| && OnlyFrom(CallOf(ToolRequest, r.callId), events, m + 1, x)
    ensures VerifyApproved(d, sc, events, r, events[x], Filter(CallOf(ToolResult, r.callId), events[m + 1..]))
            == ACCEPTED
       <==> Approved(d, sc, events, r, m)
  {
    var results := Filter(CallOf(ToolResult, r.callId), events[m + 1..]);
    if |results| == 1 {
      var z := OneResult(CallOf(ToolResult, r.callId), events, m);
      ApprovedChecks(d, sc, events, r, m, x, z);
    }
    if x', z: nat :| ApprovedAt(d, sc, events, r, m, x', z) {
      ExecutedResults(d, sc, events, r, m, x, x', z);
      ApprovedChecks(d, sc, events, r, m, x, z);
    }
  }

  lemma BypassMeaning(d: Digests, sc: Scenario, events: seq<Event>, r: Receipt, m: nat, x: nat)
    requires Contiguous(events) && m < |events| && OnlyFrom(CallOf(ToolRequest, r.callId), events, m + 1, x)
    ensures VerifyBypass(d, sc, events, r, events[x], Filter(CallOf(ToolResult, r.callId), events[m + 1..]))
            == ACCEPTED
       <==> Bypassed(d, sc, events, r, m)
  {
    var results := Filter(CallOf(ToolResult, r.callId), events[m + 1..]);
    if |results| == 1 {
      var z := OneResult(CallOf(ToolResult, r.callId), events, m);
      ApprovedChecks(d, sc, events, r, m, x, z);
    }
    if x', z: nat :| ExecutedAt(d, sc, events, r, m, x', z) {
      ExecutedResults(d, sc, events, r, m, x, x', z);
      ApprovedChecks(d, sc, events, r, m, x, z);
    }
  }

  lemma RefusedChecks(events: seq<Event>, r: Receipt, m: nat, z: nat)
    requires m < |events| && OnlyFrom(CallOf(ToolResult, r.callId), events, m + 1, z)
    requires forall j | m < j < |events| :: !CallOf(ToolRequest, r.callId)(events[j])
    ensures VerifyRejection(r, [events[z]]) == ACCEPTED <==> RefusedAt(events, r, m, z)
  {
    forall i | m < i < |events| ensures ForCall(events, ToolResult, r, i) <==> CallOf(ToolResult, r.callId)(events[i]) {
    }
    forall i | m < i < |events| ensures !ForCall(events, ToolRequest, r, i) {
      assert !CallOf(ToolRequest, r.callId)(events[i]);
    }
  }

  lemma RefusedIsOnly(events: seq<Event>, r: Receipt, m: nat, z: nat)
    requires m < |events| && RefusedAt(events, r, m, z)
    ensures Filter(CallOf(ToolResult, r.callId), events[m + 1..]) == [events[z]]
    ensures OnlyFrom(CallOf(ToolResult, r.callId), events, m + 1, z)
    ensures forall j | m < j < |events| :: !CallOf(ToolRequest, r.callId)(events[j])
  {
    forall j | m + 1 <= j < |events|
      ensures CallOf(ToolResult, r.callId)(events[j]) <==> j == z
      ensures !CallOf(ToolRequest, r.callId)(events[j])
    {
      assert ForCall(events, ToolResult, r, j) <==> j == z;
      assert !ForCall(events, ToolRequest, r, j);
    }
    LaterOne(CallOf(ToolResult, r.callId), events, m + 1);
  }

  lemma RefusedMeaning(events: seq<Event>, r: Receipt, m: nat)
    requires Contiguous(events) && m < |events|
    requires forall j | m < j < |events| :: !CallOf(ToolRequest, r.callId)(events[j])
    ensures VerifyRejection(r, Filter(CallOf(ToolResult, r.callId), events[m + 1..])) == ACCEPTED
       <==> Refused(events, r, m)
  {
    var results := Filter(CallOf(ToolResult, r.callId), events[m + 1..]);
    if |results| == 1 {
      var z := OneResult(CallOf(ToolResult, r.callId), events, m);
      RefusedChecks(events, r, m, z);
    }
    if z: nat :| RefusedAt(events, r, m, z) {
      RefusedIsOnly(events, r, m, z);
      RefusedChecks(events, r, m, z);
    }
  }

  /** Executions exclude a refusal and the other way round; without exactly one execution none is accepted. */
  lemma ExecutionsCount(d: Digests, sc: Scenario, events: seq<Event>, r: Receipt, m: nat)
    requires Contiguous(events) && m < |events|
    ensures Bypassed(d, sc, events, r, m) ==> |Filter(CallOf(ToolRequest, r.callId), events[m + 1..])| == 1
    ensures Refused(events, r, m) ==> Filter(CallOf(ToolRequest, r.callId), events[m + 1..]) == []
  {
    if x, z: nat :| ExecutedAt(d, sc, events, r, m, x, z) {
      ExecutedIsOnly(d, sc, events, r, m, x, z);
      LaterOne(CallOf(ToolRequest, r.callId), events, m + 1);
    }
    if z: nat :| RefusedAt(events, r, m, z) {
      RefusedIsOnly(events, r, m, z);
      LaterEmpty(CallOf(ToolRequest, r.callId), events, m + 1);
    }
  }

  /** What the verifier decides on the filtered lists after the decision. */
  ghost predicate Resumed(d: Digests, sc: Scenario, events: seq<Event>, r: Receipt, m: nat)
    requires m < |events|
  {
    var resumed := Filter(CallOf(ToolRequest, r.callId), events[m + 1..]);
    var results := Filter(CallOf(ToolResult, r.callId), events[m + 1..]);
    && |resumed| <= 1
    && if r.decision.Approve? then
         resumed != [] && VerifyApproved(d, sc, events, r, resumed[0], results) == ACCEPTED
       else if resumed != [] then VerifyBypass(d, sc, events, r, resumed[0], results) == ACCEPTED
       else VerifyRejection(r, results) == ACCEPTED
  }

  lemma ResumedMeaning(d: Digests, sc: Scenario, events: seq<Event>, r: Receipt, m: nat)
    requires Contiguous(events) && m < |events|
    ensures Resumed(d, sc, events, r, m) <==>
              if r.decision.Approve? then Approved(d, sc, events, r, m)
              else Bypassed(d, sc, events, r, m) || Refused(events, r, m)
  {
    var request := CallOf(ToolRequest, r.callId);
    var resumed := Filter(request, events[m + 1..]);
    LaterOne(request, events, m + 1);
    LaterEmpty(request, events, m + 1);
    ExecutionsCount(d, sc, events, r, m);
    ApprovedIsBypassed(d, sc, events, r, m);
    if |resumed| == 1 {
      var x: nat :| OnlyFrom(request, events, m + 1, x);
      ApprovedMeaning(d, sc, events, r, m, x);
      BypassMeaning(d, sc, events, r, m, x);
    } else if resumed == [] {
      RefusedMeaning(events, r, m);
    }
  }

  lemma ApprovedIsBypassed(d: Digests, sc: Scenario, events: seq<Event>, r: Receipt, m: nat)
    ensures Approved(d, sc, events, r, m) ==> Bypassed(d, sc, events, r, m)
  {
    if x, z: nat :| ApprovedAt(d, sc, events, r, m, x, z) {
      assert ExecutedAt(d, sc, events, r, m, x, z);
    }
  }

  lemma ContinuationMeaning(d: Digests, sc: Scenario, events: seq<Event>, r: Receipt, m: nat)
    requires Contiguous(events) && m < |events|
    ensures VerifyContinuation(d, sc, events, events[m], r) == ACCEPTED <==> Continued(d, sc, events, r, m)
  {
    EarlierRequests(d, sc, events, r, m);
    ResultsAreLate(events, r, m);
    ResumedMeaning(d, sc, events, r, m);
    ContinuationCases(d, sc, events, r, m);
  }

  ghost predicate EarlierBound(d: Digests, sc: Scenario, events: seq<Event>, r: Receipt, earlier: seq<Event>) {
    forall e | e in earlier :: BoundIntent(d, sc, events, r, e)
  }

  lemma SomeEarlierFails(d: Digests, sc: Scenario, events: seq<Event>, r: Receipt, earlier: seq<Event>)
    ensures (exists i | 0 <= i < |earlier| :: EventIntent(d, earlier[i], r, StateAt(sc, events, earlier[i])).Failure?)
       <==> !EarlierBound(d, sc, events, r, earlier)
  {
    forall i | 0 <= i < |earlier|
      ensures BoundIntent(d, sc, events, r, earlier[i])
         <==> !EventIntent(d, earlier[i], r, StateAt(sc, events, earlier[i])).Failure?
    {
      assert EventIntent(d, earlier[i], r, StateAt(sc, events, earlier[i])).Success? ==>
          EventIntent(d, earlier[i], r, StateAt(sc, events, earlier[i])).value == ();
    }
    if e :| e in earlier && !BoundIntent(d, sc, events, r, e) {
      var i :| 0 <= i < |earlier| && earlier[i] == e;
      assert EventIntent(d, earlier[i], r, StateAt(sc, events, earlier[i])).Failure?;
    }
  }

  /** The verifier's case distinction on the filtered lists. */
  lemma ContinuationCases(d: Digests, sc: Scenario, events: seq<Event>, r: Receipt, m: nat)
    requires Contiguous(events) && m < |events|
    ensures VerifyContinuation(d, sc, events, events[m], r) == ACCEPTED <==>
              && EarlierBound(d, sc, events, r, Filter(CallOf(ToolRequest, r.callId), events[..m]))
              && !(exists i | 0 <= i < |events| :: CallOf(ToolResult, r.callId)(events[i]) && events[i].sequence <= m)
              && Resumed(d, sc, events, r, m)
  {
    SomeEarlierFails(d, sc, events, r, Filter(CallOf(ToolRequest, r.callId), events[..m]));
  }

  // ---------------------------------------------------------------- the decision and the whole trial

  lemma ReceiptMeaning(e: Event, r: Receipt)
    ensures ParseDecision(e) == Some(r) <==> e.payload == map["receipt" := Intent(r)]
  {
    if ParseDecision(e) == Some(r) {
      assert forall k | k in e.payload :: k in {"receipt"};
      assert e.payload == map["receipt" := Intent(r)];
    }
    if e.payload == map["receipt" := Intent(r)] {
      assert e.payload.Keys == {"receipt"};
    }
  }

  /** What the verifier's answer says of the receipt that the decision event carries. */
  lemma ReceiptDecides(d: Digests, sc: Scenario, spec: IntentSpec, events: seq<Event>, r: Receipt, m: nat)
    requires Contiguous(events) && m < |events| && ParseDecision(events[m]) == Some(r)
    requires forall i | 0 <= i < |events| :: events[i].kind == ApprovalDecision <==> i == m
    ensures VerifyDecision(d, sc, spec, events, events[m]) == ACCEPTED <==> Decision(d, sc, spec, events, r, m)
  {
    ReceiptMeaning(events[m], r);
    if r.requestSequence < m {
      RequestMeaning(d, sc, spec, events, r, m);
      ContinuationMeaning(d, sc, events, r, m);
    }
  }

  lemma DecisionMeaning(d: Digests, sc: Scenario, spec: IntentSpec, events: seq<Event>, m: nat)
    requires Contiguous(events) && m < |events|
    requires forall i | 0 <= i < |events| :: events[i].kind == ApprovalDecision <==> i == m
    ensures VerifyDecision(d, sc, spec, events, events[m]) == ACCEPTED
       <==> exists r :: Decision(d, sc, spec, events, r, m)
  {
    match ParseDecision(events[m])
    case Some(r) =>
      ReceiptDecides(d, sc, spec, events, r, m);
      forall r' | Decision(d, sc, spec, events, r', m) ensures r' == r {
        ReceiptMeaning(events[m], r');
      }
    case None =>
      forall r' ensures !Decision(d, sc, spec, events, r', m) {
        ReceiptMeaning(events[m], r');
      }
  }

  lemma TargetRequestMeaning(events: seq<Event>, spec: IntentSpec)
    ensures Filter(TargetOf(ToolRequest, spec.agent, spec.tool), events) != []
       <==> exists i :: ForTarget(events, ToolRequest, spec.agent, spec.tool, i)
  {
    var target := TargetOf(ToolRequest, spec.agent, spec.tool);
    assert events[0..] == events;
    LaterEmpty(target, events, 0);
    assert forall i | 0 <= i < |events| ::
        target(events[i]) <==> ForTarget(events, ToolRequest, spec.agent, spec.tool, i);
  }

  /** No decision event, one at m, or several. */
  lemma DecisionCount(events: seq<Event>) returns (m: nat)
    ensures var n := |Filter(IsKind(ApprovalDecision), events)|;
            && (n == 0 <==> forall e | e in events :: e.kind != ApprovalDecision)
            && (n == 1 ==>
                  && m < |events| && Filter(IsKind(ApprovalDecision), events) == [events[m]]
                  && forall i | 0 <= i < |events| :: events[i].kind == ApprovalDecision <==> i == m)
  {
    var decision := IsKind(ApprovalDecision);
    assert events[0..] == events;
    LaterEmpty(decision, events, 0);
    assert (forall e | e in events :: e.kind != ApprovalDecision)
       <==> forall i | 0 <= i < |events| :: !decision(events[i]);
    m := 0;
    if |Filter(decision, events)| == 1 {
      LaterOne(decision, events, 0);
      m :| OnlyFrom(decision, events, 0, m);
      assert forall i | 0 <= i < |events| :: decision(events[i]) <==> events[i].kind == ApprovalDecision;
    }
  }

  /** A decided trace has exactly one decision event, at the decided position. */
  lemma DecidedOnce(sc: Scenario, spec: IntentSpec, events: seq<Event>, r: Receipt, m: nat)
    requires DecidedAt(sc, spec, events, r, m)
    ensures Filter(IsKind(ApprovalDecision), events) == [events[m]]
  {
    FilterOne(IsKind(ApprovalDecision), events, m);
  }

  lemma DecisionsMeaning(d: Digests, sc: Scenario, spec: IntentSpec, t: Trial)
    requires Contiguous(t.events) && sc.spec == Some(spec) && t.scenario == sc.identity
    requires Filter(IsKind(ApprovalDecision), t.events) != []
    ensures Verify(d, sc, t) == ACCEPTED <==> exists m: nat, r :: Decision(d, sc, spec, t.events, r, m)
  {
    var m := DecisionCount(t.events);
    if |Filter(IsKind(ApprovalDecision), t.events)| == 1 {
      DecisionMeaning(d, sc, spec, t.events, m);
    }
    forall k: nat, r | Decision(d, sc, spec, t.events, r, k)
      ensures Filter(IsKind(ApprovalDecision), t.events) == [t.events[k]] && k == m
    {
      DecidedOnce(sc, spec, t.events, r, k);
      assert t.events[m].kind == ApprovalDecision;
    }
  }

  /** verify_approval_intent accepts exactly the acceptable trials. */
  lemma AcceptanceMeaning(d: Digests, sc: Scenario, t: Trial)
    requires Contiguous(t.events)
    ensures Verify(d, sc, t) == ACCEPTED <==> Acceptable(d, sc, t)
  {
    var m := DecisionCount(t.events);
    if sc.spec.Some? {
      TargetRequestMeaning(t.events, sc.spec.value);
      if t.scenario == sc.identity && Filter(IsKind(ApprovalDecision), t.events) != [] {
        DecisionsMeaning(d, sc, sc.spec.value, t);
      }
    }
  }
}
