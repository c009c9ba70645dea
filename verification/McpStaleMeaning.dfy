/** What it means for the stale-cache recorder to accept a run (adapters/openai_mcp_tool_stale_cache.py:327-388), said
    of the history of its callbacks and of nothing that it records. */
module McpStaleMeaning {
  import opened Wrappers
  import opened McpReplies
  import opened McpStaleCache

  // ---------------------------------------------------------------- positions

  predicate IsListing(e: Callback) { e.ListTools? && e.listing.Returned? }

  predicate IsModel(e: Callback) { e.ObserveModelBoundary? }

  function IsCall(c: Config): Callback -> bool { (e: Callback) => e.CallTool? && e.name == c.target }

  /** The first listing, the first model boundary, and the first two calls of the target. */
  function FirstListing(h: seq<Callback>): Option<nat> { NextAt(IsListing, h, 0) }

  function FirstModel(h: seq<Callback>): Option<nat> { NextAt(IsModel, h, 0) }

  function FirstCall(c: Config, h: seq<Callback>): Option<nat> { NextAt(IsCall(c), h, 0) }

  function SecondCall(c: Config, h: seq<Callback>): Option<nat> { Then(IsCall(c), h, FirstCall(c, h)) }

  /** The next listing after both the first listing and the call. */
  function NextListing(c: Config, h: seq<Callback>): Option<nat> {
    Then(IsListing, h, Later(FirstListing(h), FirstCall(c, h)))
  }

  /** The next model boundary after both the first one and a position. */
  function NextModel(h: seq<Callback>, k: Option<nat>): Option<nat> {
    Then(IsModel, h, Later(FirstModel(h), k))
  }

  // ---------------------------------------------------------------- an acceptable history

  ghost predicate ShowsTarget(c: Config, tools: seq<Tool>) { ShowsOnly(tools, c.target, c.target) }

  /** The stale call: after a sound removal and a cached listing that still shows the target, answered by an
      unknown-tool error. */
  ghost predicate StaleCall(c: Config, e: Callback) {
    && e.CallTool? && e.replies.control.Returned?
    && e.replies.control.value == CallResult(false, Some("target-removed"))
    && e.replies.cached.Returned? && ShowsTarget(c, e.replies.cached.value)
    && e.replies.result.Returned? && e.replies.result.value.isError
    && e.replies.result.value.text.Some? && e.replies.result.value.text.value != ""
    && c.unknownTool(e.replies.result.value.text.value)
  }

  predicate NoLeak(h: seq<Callback>) {
    forall i | 0 <= i < |h| && IsListing(h[i]) :: Lacks(h[i].listing.value, "__agent_evals_remove_target__")
  }

  /** A history in which the one call was refused, the cache then dropped, the next listing and the next model boundary
      lacked the target, and that boundary showed the very text of the refusal. */
  ghost predicate Observed(c: Config, h: seq<Callback>) {
    var f, g, k, r := FirstListing(h), FirstModel(h), FirstCall(c, h), NextListing(c, h);
    var q := NextModel(h, r);
    && NoLeak(h)
    && f.Some? && ShowsTarget(c, h[f.value].listing.value) && g.Some? && ShowsTarget(c, h[g.value].tools)
    && k.Some? && StaleCall(c, h[k.value]) && h[k.value].replies.invalidated && SecondCall(c, h).None?
    && r.Some? && Lacks(h[r.value].listing.value, c.target)
    && q.Some? && Lacks(h[q.value].tools, c.target)
    && h[q.value].visible.Returned? && Some(h[q.value].visible.value.text) == h[k.value].replies.result.value.text
  }

  // ---------------------------------------------------------------- what the recorder has of it

  predicate Invalidates(e: Callback) {
    && e.CallTool? && e.replies.control.Returned? && e.replies.cached.Returned? && e.replies.result.Returned?
    && e.replies.invalidated
  }

  /** The listing that was recorded as the refreshed one. */
  function Refreshed(c: Config, h: seq<Callback>): Option<nat> {
    var k, r := FirstCall(c, h), NextListing(c, h);
    if r.None? || !Invalidates(h[k.value]) then None else r
  }

  ghost predicate Counted(c: Config, h: seq<Callback>, s: State) {
    && (s.controlLeaked <==> !NoLeak(h))
    && (s.targetCalls == 0 <==> FirstCall(c, h).None?)
    && (s.targetCalls == 1 <==> FirstCall(c, h).Some? && SecondCall(c, h).None?)
  }

  function Names(c: Config, tools: seq<Tool>): seq<string> { NamesOf(tools, c.target) }

  /** What was shown first. */
  ghost predicate SeenFirst(c: Config, h: seq<Callback>, s: State) {
    var f, g := FirstListing(h), FirstModel(h);
    && s.seen.initialProtocol == (if f.None? then None else Some(Names(c, h[f.value].listing.value)))
    && s.seen.initialModel == (if g.None? then None else Some(Names(c, h[g.value].tools)))
  }

  /** What the refreshed listing showed. */
  ghost predicate SeenNext(c: Config, h: seq<Callback>, s: State) {
    var r := Refreshed(c, h);
    && s.seen.refreshedProtocol == (if r.None? then None else Some(Names(c, h[r.value].listing.value)))
    && (s.at.refreshedList.Some? <==> r.Some?) && (s.postInvalidationLists != 0 <==> r.Some?)
  }

  /** What the model was shown after it. */
  ghost predicate SeenAgain(c: Config, h: seq<Callback>, s: State) {
    var q := NextModel(h, Refreshed(c, h));
    && s.seen.refreshedModel == (if q.None? then None else Some(Names(c, h[q.value].tools)))
    && s.modelError == (if q.None? || h[q.value].visible.Raised? then None else Some(h[q.value].visible.value))
  }

  predicate StaleRecorded(c: Config, s: State) {
    && !s.controlFailed && s.at.removal.Some? && s.seen.cachedProtocol == Some([c.target])
    && s.stale.isError == Some(true) && s.stale.text.Some? && s.stale.text != Some("")
    && c.unknownTool(s.stale.text.value)
  }

  predicate StaleUnrecorded(s: State) {
    && s.stale == NO_ATTEMPT && !s.controlFailed && s.at.removal.None? && s.seen.cachedProtocol.None?
    && s.at.cacheInvalidation.None?
  }

  ghost predicate StalePart(c: Config, h: seq<Callback>, s: State) {
    var k := FirstCall(c, h);
    && (k.None? ==> StaleUnrecorded(s))
    && (k.Some? ==> (StaleRecorded(c, s) <==> StaleCall(c, h[k.value])))
    && (k.Some? && StaleRecorded(c, s) ==> s.stale.text == h[k.value].replies.result.value.text)
    && (s.at.cacheInvalidation.Some? <==> k.Some? && Invalidates(h[k.value]))
  }

  ghost predicate Described(c: Config, h: seq<Callback>, s: State) {
    Counted(c, h, s) && SeenFirst(c, h, s) && SeenNext(c, h, s) && SeenAgain(c, h, s) && StalePart(c, h, s)
  }

  /** On a described state, completeness is the observation of the history. */
  lemma CompleteMeansObserved(c: Config, h: seq<Callback>, s: State)
    requires Described(c, h, s)
    ensures Complete(c, s) <==> Observed(c, h)
  {
    var f, g, r := FirstListing(h), FirstModel(h), NextListing(c, h);
    var q := NextModel(h, r);
    if f.Some? { NamesOfOne(h[f.value].listing.value, c.target); }
    if g.Some? { NamesOfOne(h[g.value].tools, c.target); }
    if r.Some? { NamesOfNone(h[r.value].listing.value, c.target); }
    if q.Some? { NamesOfNone(h[q.value].tools, c.target); }
  }

  // ---------------------------------------------------------------- one more callback

  lemma CallsSnoc(c: Config, h: seq<Callback>, e: Callback)
    ensures var longer, call := h + [e], IsCall(c)(e);
            && FirstCall(c, longer) == (if FirstCall(c, h).None? && call then Some(|h|) else FirstCall(c, h))
            && SecondCall(c, longer)
               == (if FirstCall(c, h).Some? && SecondCall(c, h).None? && call then Some(|h|) else SecondCall(c, h))
  {
    NextSnoc(IsCall(c), h, e, 0);
    ThenSnoc(IsCall(c), h, e, FirstCall(c, h + [e]));
  }

  lemma ListingsSnoc(c: Config, h: seq<Callback>, e: Callback)
    ensures var longer := h + [e];
            && FirstListing(longer) == (if FirstListing(h).None? && IsListing(e) then Some(|h|) else FirstListing(h))
            && NextListing(c, longer)
               == (if FirstListing(h).Some? && FirstCall(c, h).Some? && NextListing(c, h).None? && IsListing(e)
                   then Some(|h|) else NextListing(c, h))
  {
    NextSnoc(IsListing, h, e, 0);
    CallsSnoc(c, h, e);
    ThenSnoc(IsListing, h, e, Later(FirstListing(h + [e]), FirstCall(c, h + [e])));
  }

  lemma ModelsSnoc(h: seq<Callback>, e: Callback, k: Option<nat>)
    requires k.Some? ==> k.value < |h|
    ensures var longer := h + [e];
            && FirstModel(longer) == (if FirstModel(h).None? && IsModel(e) then Some(|h|) else FirstModel(h))
            && NextModel(longer, k)
               == (if FirstModel(h).Some? && k.Some? && NextModel(h, k).None? && IsModel(e)
                   then Some(|h|) else NextModel(h, k))
            && NextModel(longer, Some(|h|)) == None
  {
    NextSnoc(IsModel, h, e, 0);
    ThenSnoc(IsModel, h, e, Later(FirstModel(h + [e]), k));
    ThenSnoc(IsModel, h, e, Later(FirstModel(h + [e]), Some(|h|)));
  }

  /** The recorded refresh stays; it is set by a listing that comes after the first listing and an invalidating call. */
  lemma RefreshedSnoc(c: Config, h: seq<Callback>, e: Callback)
    ensures Refreshed(c, h).Some? ==> Refreshed(c, h + [e]) == Refreshed(c, h)
    ensures Refreshed(c, h).None? && !IsListing(e) ==> Refreshed(c, h + [e]) == None
    ensures Refreshed(c, h).None? && IsListing(e) ==>
              Refreshed(c, h + [e])
              == if FirstListing(h).Some? && FirstCall(c, h).Some? && Invalidates(h[FirstCall(c, h).value])
                 then Some(|h|) else None
  {
    var longer := h + [e];
    CallsSnoc(c, h, e);
    ListingsSnoc(c, h, e);
    assert longer[|h|] == e && forall i | 0 <= i < |h| :: longer[i] == h[i];
  }

  lemma LeakSnoc(h: seq<Callback>, e: Callback)
    ensures NoLeak(h + [e])
       <==> NoLeak(h) && (IsListing(e) ==> Lacks(e.listing.value, "__agent_evals_remove_target__"))
  {
    var longer := h + [e];
    assert longer[|h|] == e && forall i | 0 <= i < |h| :: longer[i] == h[i];
    if NoLeak(longer) {
      assert forall i | 0 <= i < |h| && IsListing(h[i]) :: IsListing(longer[i]);
      assert IsListing(e) ==> IsListing(longer[|h|]);
    }
  }

  /** What was at a position stays there. */
  lemma Stays(h: seq<Callback>, e: Callback)
    ensures (h + [e])[|h|] == e && forall i | 0 <= i < |h| :: (h + [e])[i] == h[i]
  {
  }

  /** A callback that is no call leaves what was recorded of the call. */
  predicate NoCallFrame(s: State, t: State) {
    && t.stale == s.stale && t.controlFailed == s.controlFailed && t.at.removal == s.at.removal
    && t.seen.cachedProtocol == s.seen.cachedProtocol && t.at.cacheInvalidation == s.at.cacheInvalidation
    && t.targetCalls == s.targetCalls
  }

  /** A callback that is no listing leaves what the listings showed. */
  predicate NoListingFrame(s: State, t: State) {
    && t.seen.initialProtocol == s.seen.initialProtocol && t.seen.refreshedProtocol == s.seen.refreshedProtocol
    && t.at.refreshedList == s.at.refreshedList && t.postInvalidationLists == s.postInvalidationLists
    && t.controlLeaked == s.controlLeaked
  }

  predicate NoModelFrame(s: State, t: State) {
    && t.seen.initialModel == s.seen.initialModel && t.seen.refreshedModel == s.seen.refreshedModel
    && t.modelError == s.modelError
  }

  /** What a listing records. */
  predicate ListingEffect(c: Config, s: State, tools: seq<Tool>, t: State) {
    var refreshes := s.seen.initialProtocol.Some? && s.at.cacheInvalidation.Some?;
    && t.seen.initialProtocol
       == (if s.seen.initialProtocol.None? then Some(Names(c, tools)) else s.seen.initialProtocol)
    && t.seen.refreshedProtocol
       == (if refreshes && s.seen.refreshedProtocol.None? then Some(Names(c, tools)) else s.seen.refreshedProtocol)
    && (t.at.refreshedList.Some? <==> s.at.refreshedList.Some? || (refreshes && s.seen.refreshedProtocol.None?))
    && (t.postInvalidationLists != 0 <==> s.postInvalidationLists != 0 || refreshes)
    && (t.controlLeaked <==> s.controlLeaked || Lists(tools, CONTROL_TOOL))
    && NoCallFrame(s, t) && NoModelFrame(s, t)
  }

  lemma ListingHas(c: Config, s: State, tools: seq<Tool>)
    ensures ListingEffect(c, s, tools, AfterList(c, s, tools))
  {
  }

  lemma ListingSeenFirst(c: Config, h: seq<Callback>, s: State, tools: seq<Tool>, t: State)
    requires SeenFirst(c, h, s) && ListingEffect(c, s, tools, t)
    ensures SeenFirst(c, h + [ListTools(Returned(tools))], t)
  {
    var e := ListTools(Returned(tools));
    Stays(h, e);
    ListingsSnoc(c, h, e);
    ModelsSnoc(h, e, None);
  }

  lemma ListingSeenNext(c: Config, h: seq<Callback>, s: State, tools: seq<Tool>, t: State)
    requires SeenFirst(c, h, s) && SeenNext(c, h, s) && StalePart(c, h, s) && ListingEffect(c, s, tools, t)
    ensures SeenNext(c, h + [ListTools(Returned(tools))], t)
  {
    var e := ListTools(Returned(tools));
    Stays(h, e);
    RefreshedSnoc(c, h, e);
  }

  /** No new model boundary is shown by a listing. */
  lemma ListingShowsNothing(c: Config, h: seq<Callback>, e: Callback)
    requires IsListing(e)
    ensures NextModel(h + [e], Refreshed(c, h + [e])) == NextModel(h, Refreshed(c, h))
  {
    RefreshedSnoc(c, h, e);
    ModelsSnoc(h, e, Refreshed(c, h));
  }

  lemma ListingSeenAgain(c: Config, h: seq<Callback>, s: State, tools: seq<Tool>, t: State)
    requires SeenAgain(c, h, s) && ListingEffect(c, s, tools, t)
    ensures SeenAgain(c, h + [ListTools(Returned(tools))], t)
  {
    var e := ListTools(Returned(tools));
    Stays(h, e);
    ListingShowsNothing(c, h, e);
  }

  lemma ListingIsCounted(c: Config, h: seq<Callback>, s: State, tools: seq<Tool>, t: State)
    requires Counted(c, h, s) && ListingEffect(c, s, tools, t)
    ensures Counted(c, h + [ListTools(Returned(tools))], t)
  {
    var e := ListTools(Returned(tools));
    CallsSnoc(c, h, e);
    LeakSnoc(h, e);
  }

  lemma NoCallKeepsStale(c: Config, h: seq<Callback>, s: State, t: State, e: Callback)
    requires StalePart(c, h, s) && !IsCall(c)(e) && NoCallFrame(s, t)
    ensures StalePart(c, h + [e], t)
  {
    Stays(h, e);
    CallsSnoc(c, h, e);
  }

  lemma ListingIsDescribed(c: Config, h: seq<Callback>, s: State, tools: seq<Tool>, t: State)
    requires Described(c, h, s) && ListingEffect(c, s, tools, t)
    ensures Described(c, h + [ListTools(Returned(tools))], t)
  {
    ListingIsCounted(c, h, s, tools, t);
    ListingSeenFirst(c, h, s, tools, t);
    ListingSeenNext(c, h, s, tools, t);
    ListingSeenAgain(c, h, s, tools, t);
    NoCallKeepsStale(c, h, s, t, ListTools(Returned(tools)));
  }

  lemma NoListingKeepsNext(c: Config, h: seq<Callback>, s: State, t: State, e: Callback)
    requires SeenNext(c, h, s) && !IsListing(e) && NoListingFrame(s, t)
    ensures SeenNext(c, h + [e], t)
  {
    Stays(h, e);
    RefreshedSnoc(c, h, e);
  }

  lemma NoCallIsCounted(c: Config, h: seq<Callback>, s: State, t: State, e: Callback)
    requires Counted(c, h, s) && !IsListing(e) && !IsCall(c)(e) && NoListingFrame(s, t)
    requires t.targetCalls == s.targetCalls
    ensures Counted(c, h + [e], t)
  {
    CallsSnoc(c, h, e);
    LeakSnoc(h, e);
  }

  /** What a model boundary records. */
  predicate ModelEffect(c: Config, s: State, e: Callback, t: State)
    requires IsModel(e)
  {
    var reshown := s.seen.initialModel.Some? && s.at.refreshedList.Some? && s.seen.refreshedModel.None?;
    && t.seen.initialModel == (if s.seen.initialModel.None? then Some(Names(c, e.tools)) else s.seen.initialModel)
    && t.seen.refreshedModel == (if reshown then Some(Names(c, e.tools)) else s.seen.refreshedModel)
    && t.modelError == (if reshown && e.visible.Returned? then Some(e.visible.value) else s.modelError)
    && NoCallFrame(s, t) && NoListingFrame(s, t)
  }

  lemma ModelHas(c: Config, s: State, e: Callback)
    requires IsModel(e)
    ensures ModelEffect(c, s, e, AfterModel(c, s, e.tools, e.visible))
  {
  }

  lemma ModelSeenFirst(c: Config, h: seq<Callback>, s: State, e: Callback, t: State)
    requires IsModel(e) && SeenFirst(c, h, s) && ModelEffect(c, s, e, t)
    ensures SeenFirst(c, h + [e], t)
  {
    Stays(h, e);
    ListingsSnoc(c, h, e);
    ModelsSnoc(h, e, None);
  }

  lemma ModelSeenAgain(c: Config, h: seq<Callback>, s: State, e: Callback, t: State)
    requires IsModel(e) && ModelEffect(c, s, e, t)
    requires SeenFirst(c, h, s) && SeenNext(c, h, s) && SeenAgain(c, h, s)
    ensures SeenAgain(c, h + [e], t)
  {
    Stays(h, e);
    RefreshedSnoc(c, h, e);
    ModelsSnoc(h, e, Refreshed(c, h));
  }

  lemma ModelIsDescribed(c: Config, h: seq<Callback>, s: State, e: Callback, t: State)
    requires IsModel(e) && Described(c, h, s) && ModelEffect(c, s, e, t)
    ensures Described(c, h + [e], t)
  {
    NoCallIsCounted(c, h, s, t, e);
    ModelSeenFirst(c, h, s, e, t);
    NoListingKeepsNext(c, h, s, t, e);
    ModelSeenAgain(c, h, s, e, t);
    NoCallKeepsStale(c, h, s, t, e);
  }

  lemma QuietKeepsSeen(c: Config, h: seq<Callback>, s: State, t: State, e: Callback)
    requires SeenFirst(c, h, s) && SeenAgain(c, h, s) && !IsListing(e) && !IsModel(e)
    requires NoListingFrame(s, t) && NoModelFrame(s, t)
    ensures SeenFirst(c, h + [e], t) && SeenAgain(c, h + [e], t)
  {
    Stays(h, e);
    ListingsSnoc(c, h, e);
    RefreshedSnoc(c, h, e);
    ModelsSnoc(h, e, Refreshed(c, h));
  }

  /** A callback that records nothing: a listing that raises, or a call of another tool. */
  lemma OtherIsDescribed(c: Config, h: seq<Callback>, s: State, e: Callback)
    requires Described(c, h, s) && !IsListing(e) && !IsModel(e) && !IsCall(c)(e)
    ensures Described(c, h + [e], s)
  {
    NoCallIsCounted(c, h, s, s, e);
    QuietKeepsSeen(c, h, s, s, e);
    NoListingKeepsNext(c, h, s, s, e);
    NoCallKeepsStale(c, h, s, s, e);
  }

  lemma FirstCallFrame(c: Config, s: State, arguments: Option<string>, r: Replies)
    ensures var t := AfterStaleCall(c, s.(targetCalls := s.targetCalls + 1), arguments, r);
            NoListingFrame(s, t) && NoModelFrame(s, t) && t.targetCalls == s.targetCalls + 1
  {
  }

  lemma CallIsFramed(c: Config, s: State, e: Callback)
    requires IsCall(c)(e)
    ensures var t := AfterCall(c, s, e.name, e.arguments, e.replies);
            NoListingFrame(s, t) && NoModelFrame(s, t) && t.targetCalls == s.targetCalls + 1
  {
    if s.targetCalls == 0 {
      FirstCallFrame(c, s, e.arguments, e.replies);
    } else {
      LateCallRecordsNothing(c, s, e);
    }
  }

  lemma LateCallRecordsNothing(c: Config, s: State, e: Callback)
    requires IsCall(c)(e) && s.targetCalls > 0
    ensures AfterCall(c, s, e.name, e.arguments, e.replies) == s.(targetCalls := s.targetCalls + 1)
  {
  }

  lemma CallIsCounted(c: Config, h: seq<Callback>, s: State, t: State, e: Callback)
    requires Counted(c, h, s) && IsCall(c)(e) && NoListingFrame(s, t) && t.targetCalls == s.targetCalls + 1
    ensures Counted(c, h + [e], t)
  {
    CallsSnoc(c, h, e);
    LeakSnoc(h, e);
  }

  /** What the recorder keeps of the first call says whether it was the stale call. */
  lemma StaleCallIsRecorded(c: Config, s: State, e: Callback)
    requires e.CallTool? && StaleUnrecorded(s)
    ensures var t := AfterStaleCall(c, s.(targetCalls := 1), e.arguments, e.replies);
            && (StaleRecorded(c, t) <==> StaleCall(c, e))
            && (StaleRecorded(c, t) ==> t.stale.text == e.replies.result.value.text)
            && (t.at.cacheInvalidation.Some? <==> Invalidates(e))
  {
    if e.replies.cached.Returned? {
      NamesOfOne(e.replies.cached.value, c.target);
    }
  }

  lemma FirstCallIsDescribed(c: Config, h: seq<Callback>, s: State, e: Callback)
    requires StalePart(c, h, s) && Counted(c, h, s) && IsCall(c)(e) && FirstCall(c, h).None?
    ensures StalePart(c, h + [e], AfterCall(c, s, e.name, e.arguments, e.replies))
  {
    Stays(h, e);
    CallsSnoc(c, h, e);
    StaleCallIsRecorded(c, s, e);
  }

  lemma LateCallIsDescribed(c: Config, h: seq<Callback>, s: State, e: Callback)
    requires StalePart(c, h, s) && Counted(c, h, s) && IsCall(c)(e) && FirstCall(c, h).Some?
    ensures StalePart(c, h + [e], AfterCall(c, s, e.name, e.arguments, e.replies))
  {
    Stays(h, e);
    CallsSnoc(c, h, e);
  }

  lemma CallIsDescribed(c: Config, h: seq<Callback>, s: State, e: Callback)
    requires Described(c, h, s) && IsCall(c)(e)
    ensures Described(c, h + [e], AfterCall(c, s, e.name, e.arguments, e.replies))
  {
    var t := AfterCall(c, s, e.name, e.arguments, e.replies);
    CallIsFramed(c, s, e);
    QuietKeepsSeen(c, h, s, t, e);
    NoListingKeepsNext(c, h, s, t, e);
    CallIsCounted(c, h, s, t, e);
    if FirstCall(c, h).None? {
      FirstCallIsDescribed(c, h, s, e);
    } else {
      LateCallIsDescribed(c, h, s, e);
    }
  }

  lemma StepIsDescribed(c: Config, h: seq<Callback>, s: State, e: Callback)
    requires Described(c, h, s)
    ensures Described(c, h + [e], Step(c, s, e))
  {
    if IsListing(e) {
      ListingHas(c, s, e.listing.value);
      ListingIsDescribed(c, h, s, e.listing.value, Step(c, s, e));
    } else if IsModel(e) {
      ModelHas(c, s, e);
      ModelIsDescribed(c, h, s, e, Step(c, s, e));
    } else if IsCall(c)(e) {
      CallIsDescribed(c, h, s, e);
    } else {
      OtherIsDescribed(c, h, s, e);
    }
  }

  lemma {:induction false} RunIsDescribed(c: Config, h: seq<Callback>)
    ensures Described(c, h, Run(c, h))
  {
    if h != [] {
      var front, last := h[..|h| - 1], h[|h| - 1];
      assert h == front + [last];
      RunIsDescribed(c, front);
      StepIsDescribed(c, front, Run(c, front), last);
    }
  }

  /** A run is accepted exactly when its history shows the refusal and the refresh. */
  lemma AcceptanceMeaning(c: Config, h: seq<Callback>)
    ensures Complete(c, Run(c, h)) <==> Observed(c, h)
  {
    RunIsDescribed(c, h);
    CompleteMeansObserved(c, h, Run(c, h));
  }
}
