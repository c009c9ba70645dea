/** What it means for the tool-schema drift recorder to accept a run (adapters/openai_mcp_tool_schema_drift.py:311-366),
    said of the history of its callbacks and of nothing that it records. */
module McpSchemaMeaning {
  import opened Wrappers
  import opened Sequences
  import opened McpReplies
  import opened McpSchemaDrift

  // ---------------------------------------------------------------- positions

  /** The listing has exactly one tool of the target's name, and that has this controlled schema. */
  ghost predicate ShowsTarget(c: Config, tools: seq<Tool>, schema: string) {
    exists i | 0 <= i < |tools| ::
      && tools[i] == Tool(Some(c.target), Some(schema))
      && forall j | 0 <= j < |tools| :: tools[j].name == Some(c.target) ==> j == i
  }

  lemma SchemaMeaning(c: Config, tools: seq<Tool>, schema: string)
    ensures TargetSchema(c, tools) == Some(schema) <==> ShowsTarget(c, tools, schema)
  {
    var f := (t: Tool) => t.name == Some(c.target);
    if TargetSchema(c, tools) == Some(schema) {
      var i := FilterSingle(f, tools);
      assert tools[i] == Tool(Some(c.target), Some(schema));
    }
    if ShowsTarget(c, tools, schema) {
      var i :| && 0 <= i < |tools| && tools[i] == Tool(Some(c.target), Some(schema))
               && forall j | 0 <= j < |tools| :: tools[j].name == Some(c.target) ==> j == i;
      FilterOne(f, tools, i);
    }
  }

  function IsListing(c: Config): Callback -> bool {
    (e: Callback) => e.ListTools? && e.listing.Returned? && TargetSchema(c, e.listing.value).Some?
  }

  function IsCall(c: Config): Callback -> bool { (e: Callback) => e.CallTool? && e.name == c.target }

  /** The first listing of the target and the first three calls. */
  function FirstListing(c: Config, h: seq<Callback>): Option<nat> { NextAt(IsListing(c), h, 0) }

  function FirstCall(c: Config, h: seq<Callback>): Option<nat> { NextAt(IsCall(c), h, 0) }

  function SecondCall(c: Config, h: seq<Callback>): Option<nat> { Then(IsCall(c), h, FirstCall(c, h)) }

  function ThirdCall(c: Config, h: seq<Callback>): Option<nat> { Then(IsCall(c), h, SecondCall(c, h)) }

  /** The next listing of the target after both the first listing and the first call. */
  function NextListing(c: Config, h: seq<Callback>): Option<nat> {
    Then(IsListing(c), h, Later(FirstListing(c, h), FirstCall(c, h)))
  }

  // ---------------------------------------------------------------- an acceptable history

  /** The stale call: after a sound swap and a cached listing that still shows the target, answered by an error with a
      text. */
  ghost predicate StaleCall(c: Config, e: Callback) {
    && e.CallTool? && e.replies.control.Returned?
    && e.replies.control.value == CallResult(false, Some("schema-swapped"))
    && e.replies.cached.Returned? && (exists schema :: ShowsTarget(c, e.replies.cached.value, schema))
    && e.replies.result.Returned? && e.replies.result.value.isError
    && e.replies.result.value.text.Some? && e.replies.result.value.text.value != ""
  }

  predicate RecoveryCall(e: Callback) {
    && e.CallTool? && e.replies.result.Returned?
    && e.replies.result.value == CallResult(false, Some("replacement:7:true"))
  }

  predicate NoLeak(h: seq<Callback>) {
    forall i | 0 <= i < |h| && h[i].ListTools? && h[i].listing.Returned? ::
      Lacks(h[i].listing.value, "__agent_evals_schema_swap__")
  }

  /** A history in which the stale call was refused, the cache then dropped, and the target was listed again before the
      one corrected call, which succeeded. */
  ghost predicate Recovered(c: Config, h: seq<Callback>) {
    var f, k, l, r := FirstListing(c, h), FirstCall(c, h), SecondCall(c, h), NextListing(c, h);
    && NoLeak(h) && f.Some?
    && k.Some? && StaleCall(c, h[k.value]) && h[k.value].replies.invalidated
    && l.Some? && RecoveryCall(h[l.value]) && ThirdCall(c, h).None?
    && r.Some? && r.value < l.value
  }

  // ---------------------------------------------------------------- what the recorder has of it

  predicate Invalidates(c: Config, e: Callback) {
    && e.CallTool? && e.replies.control.Returned?
    && (e.replies.control.value == CallResult(false, Some("schema-swapped")) ==>
          e.replies.cached.Returned? && TargetSchema(c, e.replies.cached.value).Some?)
    && e.replies.result.Returned? && e.replies.invalidated
  }

  /** The listing that was recorded as the refreshed one. */
  function Refreshed(c: Config, h: seq<Callback>): Option<nat> {
    var k, l, r := FirstCall(c, h), SecondCall(c, h), NextListing(c, h);
    if r.None? || !Invalidates(c, h[k.value]) then None
    else if l.Some? && l.value < r.value && h[l.value].replies.result.Returned? then None
    else r
  }

  ghost predicate Counted(c: Config, h: seq<Callback>, s: State) {
    && (s.controlLeaked <==> !NoLeak(h))
    && (s.targetCalls == 0 <==> FirstCall(c, h).None?)
    && (s.targetCalls == 1 <==> FirstCall(c, h).Some? && SecondCall(c, h).None?)
    && (s.targetCalls == 2 <==> SecondCall(c, h).Some? && ThirdCall(c, h).None?)
  }

  function SchemaAt(c: Config, h: seq<Callback>, k: Option<nat>): Option<string>
    requires k.Some? ==> k.value < |h| && IsListing(c)(h[k.value])
  {
    if k.None? then None else TargetSchema(c, h[k.value].listing.value)
  }

  ghost predicate Seen(c: Config, h: seq<Callback>, s: State) {
    var r := Refreshed(c, h);
    && s.seen.initial == SchemaAt(c, h, FirstListing(c, h)) && s.seen.refreshed == SchemaAt(c, h, r)
    && (s.at.refreshedList.Some? <==> r.Some?) && (s.postInvalidationLists != 0 <==> r.Some?)
  }

  predicate StaleRecorded(s: State) {
    && !s.controlFailed && s.at.schemaSwap.Some? && s.seen.cached.Some?
    && s.stale.isError == Some(true) && s.stale.text.Some? && s.stale.text != Some("")
  }

  predicate StaleUnrecorded(s: State) {
    && s.stale == NO_ATTEMPT && !s.controlFailed && s.at.schemaSwap.None? && s.seen.cached.None?
    && s.at.cacheInvalidation.None?
  }

  ghost predicate StalePart(c: Config, h: seq<Callback>, s: State) {
    var k := FirstCall(c, h);
    && (k.None? ==> StaleUnrecorded(s))
    && (k.Some? ==> (StaleRecorded(s) <==> StaleCall(c, h[k.value])))
    && (s.at.cacheInvalidation.Some? <==> k.Some? && Invalidates(c, h[k.value]))
  }

  predicate RecoveryRecorded(s: State) {
    s.recovery.isError == Some(false) && s.recovery.text == Some("replacement:7:true")
  }

  ghost predicate RecoveryPart(c: Config, h: seq<Callback>, s: State) {
    var l, r := SecondCall(c, h), Refreshed(c, h);
    && (s.at.recoveryCall.Some? <==> l.Some? && h[l.value].replies.result.Returned?)
    && (s.recoveryBeforeRefresh <==> l.Some? && !(r.Some? && r.value < l.value))
    && (l.None? ==> s.recovery == NO_ATTEMPT)
    && (l.Some? ==> (RecoveryRecorded(s) <==> RecoveryCall(h[l.value])))
  }

  ghost predicate Described(c: Config, h: seq<Callback>, s: State) {
    Counted(c, h, s) && Seen(c, h, s) && StalePart(c, h, s) && RecoveryPart(c, h, s)
  }

  lemma ShowsSomeTarget(c: Config, tools: seq<Tool>)
    ensures TargetSchema(c, tools).Some? <==> exists schema :: ShowsTarget(c, tools, schema)
  {
    forall schema ensures ShowsTarget(c, tools, schema) <==> TargetSchema(c, tools) == Some(schema) {
      SchemaMeaning(c, tools, schema);
    }
    if TargetSchema(c, tools).Some? {
      assert ShowsTarget(c, tools, TargetSchema(c, tools).value);
    }
  }

  /** On a described state, completeness is the recovery of the history. */
  lemma CompleteMeansRecovered(c: Config, h: seq<Callback>, s: State)
    requires Described(c, h, s)
    ensures Complete(s) <==> Recovered(c, h)
  {
    var k := FirstCall(c, h);
    if k.Some? && h[k.value].replies.cached.Returned? {
      ShowsSomeTarget(c, h[k.value].replies.cached.value);
    }
  }

  // ---------------------------------------------------------------- one more callback

  lemma CallsSnoc(c: Config, h: seq<Callback>, e: Callback)
    ensures var longer, call := h + [e], IsCall(c)(e);
            && FirstCall(c, longer) == (if FirstCall(c, h).None? && call then Some(|h|) else FirstCall(c, h))
            && SecondCall(c, longer)
               == (if FirstCall(c, h).Some? && SecondCall(c, h).None? && call then Some(|h|) else SecondCall(c, h))
            && ThirdCall(c, longer)
               == (if SecondCall(c, h).Some? && ThirdCall(c, h).None? && call then Some(|h|) else ThirdCall(c, h))
  {
    NextSnoc(IsCall(c), h, e, 0);
    ThenSnoc(IsCall(c), h, e, FirstCall(c, h + [e]));
    ThenSnoc(IsCall(c), h, e, SecondCall(c, h + [e]));
  }

  lemma ListingsSnoc(c: Config, h: seq<Callback>, e: Callback)
    ensures var longer, listing := h + [e], IsListing(c)(e);
            && FirstListing(c, longer)
               == (if FirstListing(c, h).None? && listing then Some(|h|) else FirstListing(c, h))
            && NextListing(c, longer)
               == (if FirstListing(c, h).Some? && FirstCall(c, h).Some? && NextListing(c, h).None? && listing
                   then Some(|h|) else NextListing(c, h))
  {
    NextSnoc(IsListing(c), h, e, 0);
    CallsSnoc(c, h, e);
    ThenSnoc(IsListing(c), h, e, Later(FirstListing(c, h + [e]), FirstCall(c, h + [e])));
  }

  /** The recorded refresh stays; it is set by a listing that comes after the first listing and an invalidating call,
      and before a recovery call has been answered. */
  lemma RefreshedSnoc(c: Config, h: seq<Callback>, e: Callback)
    ensures Refreshed(c, h).Some? ==> Refreshed(c, h + [e]) == Refreshed(c, h)
    ensures Refreshed(c, h).None? && !IsListing(c)(e) ==> Refreshed(c, h + [e]) == None
    ensures Refreshed(c, h).None? && IsListing(c)(e) ==>
              Refreshed(c, h + [e])
              == if FirstListing(c, h).Some? && FirstCall(c, h).Some? && Invalidates(c, h[FirstCall(c, h).value])
                    && !(SecondCall(c, h).Some? && h[SecondCall(c, h).value].replies.result.Returned?)
                 then Some(|h|) else None
  {
    var longer := h + [e];
    CallsSnoc(c, h, e);
    ListingsSnoc(c, h, e);
    assert longer[|h|] == e && forall i | 0 <= i < |h| :: longer[i] == h[i];
  }

  lemma LeakSnoc(h: seq<Callback>, e: Callback)
    ensures NoLeak(h + [e])
       <==> NoLeak(h)
            && (e.ListTools? && e.listing.Returned? ==> Lacks(e.listing.value, "__agent_evals_schema_swap__"))
  {
    var longer := h + [e];
    assert longer[|h|] == e && forall i | 0 <= i < |h| :: longer[i] == h[i];
    if NoLeak(longer) {
      forall i | 0 <= i < |h| && h[i].ListTools? && h[i].listing.Returned?
        ensures Lacks(h[i].listing.value, "__agent_evals_schema_swap__")
      {
        assert longer[i] == h[i];
      }
      assert e.ListTools? && e.listing.Returned? ==> longer[|h|].ListTools?;
    }
  }

  /** What was at a position stays there. */
  lemma Stays(h: seq<Callback>, e: Callback)
    ensures (h + [e])[|h|] == e && forall i | 0 <= i < |h| :: (h + [e])[i] == h[i]
  {
  }

  /** A callback that is no call leaves what was recorded of the calls. */
  predicate NoCallFrame(s: State, t: State) {
    && t.stale == s.stale && t.controlFailed == s.controlFailed && t.at.schemaSwap == s.at.schemaSwap
    && t.seen.cached == s.seen.cached && t.at.cacheInvalidation == s.at.cacheInvalidation
    && t.at.recoveryCall == s.at.recoveryCall && t.recovery == s.recovery
    && t.recoveryBeforeRefresh == s.recoveryBeforeRefresh && t.targetCalls == s.targetCalls
  }

  /** What a listing that returned records. */
  predicate ListingEffect(c: Config, s: State, tools: seq<Tool>, t: State) {
    var schema := TargetSchema(c, tools);
    var refreshes := schema.Some? && s.seen.initial.Some? && s.at.cacheInvalidation.Some? && s.at.recoveryCall.None?;
    && t.seen.initial == (if s.seen.initial.None? then schema else s.seen.initial)
    && t.seen.refreshed == (if refreshes && s.seen.refreshed.None? then schema else s.seen.refreshed)
    && (t.at.refreshedList.Some? <==> s.at.refreshedList.Some? || (refreshes && s.seen.refreshed.None?))
    && (t.postInvalidationLists != 0 <==> s.postInvalidationLists != 0 || refreshes)
    && (t.controlLeaked <==> s.controlLeaked || Lists(tools, CONTROL_TOOL)) && NoCallFrame(s, t)
  }

  lemma ListingHas(c: Config, s: State, tools: seq<Tool>)
    ensures ListingEffect(c, s, tools, AfterList(c, s, tools))
  {
  }

  lemma ListingIsSeen(c: Config, h: seq<Callback>, s: State, tools: seq<Tool>, t: State)
    requires Seen(c, h, s) && StalePart(c, h, s) && RecoveryPart(c, h, s) && ListingEffect(c, s, tools, t)
    ensures Seen(c, h + [ListTools(Returned(tools))], t)
  {
    var e := ListTools(Returned(tools));
    Stays(h, e);
    ListingsSnoc(c, h, e);
    RefreshedSnoc(c, h, e);
  }

  lemma ListingIsCounted(c: Config, h: seq<Callback>, s: State, tools: seq<Tool>, t: State)
    requires Counted(c, h, s) && ListingEffect(c, s, tools, t)
    ensures Counted(c, h + [ListTools(Returned(tools))], t)
  {
    var e := ListTools(Returned(tools));
    CallsSnoc(c, h, e);
    LeakSnoc(h, e);
  }

  lemma NoCallKeepsStale(c: Config, h: seq<Callback>, s: State, t: State, e: Callback)
    requires StalePart(c, h, s) && !IsCall(c)(e) && NoCallFrame(s, t)
    ensures StalePart(c, h + [e], t)
  {
    Stays(h, e);
    CallsSnoc(c, h, e);
  }

  lemma NoCallKeepsRecovery(c: Config, h: seq<Callback>, s: State, t: State, e: Callback)
    requires RecoveryPart(c, h, s) && !IsCall(c)(e) && NoCallFrame(s, t)
    ensures RecoveryPart(c, h + [e], t)
  {
    Stays(h, e);
    CallsSnoc(c, h, e);
    RefreshedSnoc(c, h, e);
  }

  lemma ListingIsDescribed(c: Config, h: seq<Callback>, s: State, tools: seq<Tool>, t: State)
    requires Described(c, h, s) && ListingEffect(c, s, tools, t)
    ensures Described(c, h + [ListTools(Returned(tools))], t)
  {
    var e := ListTools(Returned(tools));
    ListingIsCounted(c, h, s, tools, t);
    ListingIsSeen(c, h, s, tools, t);
    NoCallKeepsStale(c, h, s, t, e);
    NoCallKeepsRecovery(c, h, s, t, e);
  }

  /** What a call leaves alone. */
  predicate CallFrame(s: State, t: State) {
    && t.seen == s.seen.(cached := t.seen.cached) && t.controlLeaked == s.controlLeaked
    && t.at.refreshedList == s.at.refreshedList && t.postInvalidationLists == s.postInvalidationLists
  }

  lemma NoListingKeepsSeen(c: Config, h: seq<Callback>, s: State, t: State, e: Callback)
    requires Seen(c, h, s) && !IsListing(c)(e) && CallFrame(s, t)
    ensures Seen(c, h + [e], t)
  {
    Stays(h, e);
    ListingsSnoc(c, h, e);
    RefreshedSnoc(c, h, e);
  }

  /** A callback that records nothing: a listing that raises, or a call of another tool. */
  lemma OtherIsDescribed(c: Config, h: seq<Callback>, s: State, e: Callback)
    requires Described(c, h, s) && !IsCall(c)(e) && !(e.ListTools? && e.listing.Returned?)
    ensures Described(c, h + [e], s)
  {
    CallsSnoc(c, h, e);
    LeakSnoc(h, e);
    NoListingKeepsSeen(c, h, s, s, e);
    NoCallKeepsStale(c, h, s, s, e);
    NoCallKeepsRecovery(c, h, s, s, e);
  }

  lemma FirstCallFrame(c: Config, s: State, arguments: Option<string>, r: Replies)
    ensures CallFrame(s, AfterStaleCall(c, s.(targetCalls := s.targetCalls + 1), arguments, r))
    ensures AfterStaleCall(c, s.(targetCalls := s.targetCalls + 1), arguments, r).targetCalls == s.targetCalls + 1
  {
  }

  lemma CallIsFramed(c: Config, s: State, e: Callback)
    requires IsCall(c)(e)
    ensures CallFrame(s, AfterCall(c, s, e.name, e.arguments, e.replies))
    ensures AfterCall(c, s, e.name, e.arguments, e.replies).targetCalls == s.targetCalls + 1
  {
    FirstCallFrame(c, s, e.arguments, e.replies);
  }

  lemma CallIsCounted(c: Config, h: seq<Callback>, s: State, t: State, e: Callback)
    requires Counted(c, h, s) && IsCall(c)(e) && CallFrame(s, t) && t.targetCalls == s.targetCalls + 1
    ensures Counted(c, h + [e], t)
  {
    CallsSnoc(c, h, e);
    LeakSnoc(h, e);
  }

  /** What the recorder keeps of the first call says whether it was the stale call. */
  lemma StaleCallIsRecorded(c: Config, s: State, e: Callback)
    requires e.CallTool? && StaleUnrecorded(s)
    ensures var t := AfterStaleCall(c, s.(targetCalls := 1), e.arguments, e.replies);
            && (StaleRecorded(t) <==> StaleCall(c, e)) && (t.at.cacheInvalidation.Some? <==> Invalidates(c, e))
            && t.at.recoveryCall == s.at.recoveryCall && t.recovery == s.recovery
            && t.recoveryBeforeRefresh == s.recoveryBeforeRefresh
  {
    if e.replies.cached.Returned? {
      ShowsSomeTarget(c, e.replies.cached.value);
    }
  }

  lemma FirstCallIsDescribed(c: Config, h: seq<Callback>, s: State, e: Callback)
    requires StalePart(c, h, s) && RecoveryPart(c, h, s) && Counted(c, h, s)
    requires IsCall(c)(e) && FirstCall(c, h).None?
    ensures var t := AfterCall(c, s, e.name, e.arguments, e.replies);
            StalePart(c, h + [e], t) && RecoveryPart(c, h + [e], t)
  {
    Stays(h, e);
    CallsSnoc(c, h, e);
    RefreshedSnoc(c, h, e);
    StaleCallIsRecorded(c, s, e);
  }

  lemma SecondCallIsDescribed(c: Config, h: seq<Callback>, s: State, e: Callback)
    requires Seen(c, h, s) && StalePart(c, h, s) && RecoveryPart(c, h, s) && Counted(c, h, s)
    requires IsCall(c)(e) && FirstCall(c, h).Some? && SecondCall(c, h).None?
    ensures var t := AfterCall(c, s, e.name, e.arguments, e.replies);
            StalePart(c, h + [e], t) && RecoveryPart(c, h + [e], t)
  {
    Stays(h, e);
    CallsSnoc(c, h, e);
    RefreshedSnoc(c, h, e);
  }

  lemma LateCallRecordsNothing(c: Config, s: State, e: Callback)
    requires IsCall(c)(e) && s.targetCalls >= 2
    ensures AfterCall(c, s, e.name, e.arguments, e.replies) == s.(targetCalls := s.targetCalls + 1)
  {
  }

  lemma LateCallIsDescribed(c: Config, h: seq<Callback>, s: State, e: Callback)
    requires StalePart(c, h, s) && RecoveryPart(c, h, s) && Counted(c, h, s)
    requires IsCall(c)(e) && SecondCall(c, h).Some?
    ensures var t := AfterCall(c, s, e.name, e.arguments, e.replies);
            StalePart(c, h + [e], t) && RecoveryPart(c, h + [e], t)
  {
    LateCallRecordsNothing(c, s, e);
    Stays(h, e);
    CallsSnoc(c, h, e);
    RefreshedSnoc(c, h, e);
  }

  lemma CallIsDescribed(c: Config, h: seq<Callback>, s: State, e: Callback)
    requires Described(c, h, s) && IsCall(c)(e)
    ensures Described(c, h + [e], AfterCall(c, s, e.name, e.arguments, e.replies))
  {
    var t := AfterCall(c, s, e.name, e.arguments, e.replies);
    CallIsFramed(c, s, e);
    NoListingKeepsSeen(c, h, s, t, e);
    CallIsCounted(c, h, s, t, e);
    if FirstCall(c, h).None? {
      FirstCallIsDescribed(c, h, s, e);
    } else if SecondCall(c, h).None? {
      SecondCallIsDescribed(c, h, s, e);
    } else {
      LateCallIsDescribed(c, h, s, e);
    }
  }

  lemma StepIsDescribed(c: Config, h: seq<Callback>, s: State, e: Callback)
    requires Described(c, h, s)
    ensures Described(c, h + [e], Step(c, s, e))
  {
    if e.ListTools? && e.listing.Returned? {
      ListingHas(c, s, e.listing.value);
      ListingIsDescribed(c, h, s, e.listing.value, Step(c, s, e));
    } else if IsCall(c)(e) {
      CallIsDescribed(c, h, s, e);
    } else {
      OtherIsDescribed(c, h, s, e);
    }
  }

  lemma {:induction false} RunIsDescribed(c: Config, h: seq<Callback>)
    ensures Described(c, h, Run(c, h))
  {
    if h != [] {
      var front, last := h[..|h| - 1], h[|h| - 1];
      assert h == front + [last];
      RunIsDescribed(c, front);
      StepIsDescribed(c, front, Run(c, front), last);
    }
  }

  /** A run is accepted exactly when its history is one of recovery. */
  lemma AcceptanceMeaning(c: Config, h: seq<Callback>)
    ensures Complete(Run(c, h)) <==> Recovered(c, h)
  {
    RunIsDescribed(c, h);
    CompleteMeansRecovered(c, h, Run(c, h));
  }
}
