/** What it means for the tool-identity drift recorder to accept a run
    (adapters/openai_mcp_tool_identity_drift.py:349-434), said of the history of its callbacks and of nothing that it
    records. */
module McpIdentityMeaning {
  import opened Wrappers
  import opened McpReplies
  import opened McpIdentityDrift

  // ---------------------------------------------------------------- positions

  predicate IsListing(e: Callback) { e.ListTools? && e.listing.Returned? }

  predicate IsModel(e: Callback) { e.ObserveModelTools? }

  function IsCall(c: Config): Callback -> bool {
    (e: Callback) => e.CallTool? && (e.name == c.original || e.name == c.replacement)
  }

  /** The first listing, the first model boundary, and the first three controlled calls. */
  function FirstListing(h: seq<Callback>): Option<nat> { NextAt(IsListing, h, 0) }

  function FirstModel(h: seq<Callback>): Option<nat> { NextAt(IsModel, h, 0) }

  function FirstCall(c: Config, h: seq<Callback>): Option<nat> { NextAt(IsCall(c), h, 0) }

  function SecondCall(c: Config, h: seq<Callback>): Option<nat> { Then(IsCall(c), h, FirstCall(c, h)) }

  function ThirdCall(c: Config, h: seq<Callback>): Option<nat> { Then(IsCall(c), h, SecondCall(c, h)) }

  /** The next listing after both the first listing and the first call. */
  function NextListing(c: Config, h: seq<Callback>): Option<nat> {
    Then(IsListing, h, Later(FirstListing(h), FirstCall(c, h)))
  }

  /** The next model boundary after both the first one and a position. */
  function NextModel(h: seq<Callback>, k: Option<nat>): Option<nat> {
    Then(IsModel, h, Later(FirstModel(h), k))
  }

  // ---------------------------------------------------------------- an acceptable history

  ghost predicate ShowsOriginal(c: Config, tools: seq<Tool>) { ShowsOnly(tools, c.original, c.replacement) }

  ghost predicate ShowsReplacement(c: Config, tools: seq<Tool>) { ShowsOnly(tools, c.replacement, c.original) }

  /** The stale call: under the original name, after a sound swap and a cached listing that still shows the original,
      answered by an unknown-tool error. */
  ghost predicate StaleCall(c: Config, e: Callback) {
    && e.CallTool? && e.name == c.original
    && e.replies.control.Returned? && e.replies.control.value == CallResult(false, Some("identity-swapped"))
    && e.replies.cached.Returned? && ShowsOriginal(c, e.replies.cached.value)
    && e.replies.result.Returned? && e.replies.result.value.isError
    && e.replies.result.value.text.Some? && e.replies.result.value.text.value != ""
    && c.unknownTool(e.replies.result.value.text.value)
  }

  /** The recovery call: under the replacement, answered freshly and without error. */
  predicate RecoveryCall(c: Config, e: Callback) {
    && e.CallTool? && e.name == c.replacement
    && e.replies.result.Returned? && e.replies.result.value == CallResult(false, Some("replacement:fresh"))
  }

  predicate NoLeak(h: seq<Callback>) {
    forall i | 0 <= i < |h| && IsListing(h[i]) :: Lacks(h[i].listing.value, "__agent_evals_identity_swap__")
  }

  /** A history in which the stale call was refused, the cache then dropped, and the next listing and the next model
      boundary showed the replacement, which was called with success. */
  ghost predicate Recovered(c: Config, h: seq<Callback>) {
    var f, g, k, l := FirstListing(h), FirstModel(h), FirstCall(c, h), SecondCall(c, h);
    var r := NextListing(c, h);
    var q := NextModel(h, r);
    && NoLeak(h)
    && f.Some? && ShowsOriginal(c, h[f.value].listing.value) && g.Some? && ShowsOriginal(c, h[g.value].tools)
    && k.Some? && StaleCall(c, h[k.value]) && h[k.value].replies.invalidated
    && l.Some? && RecoveryCall(c, h[l.value]) && ThirdCall(c, h).None?
    && r.Some? && r.value < l.value && ShowsReplacement(c, h[r.value].listing.value)
    && q.Some? && ShowsReplacement(c, h[q.value].tools)
  }

  // ---------------------------------------------------------------- what the recorder has of it

  /** The call ran to the invalidation of the cache. */
  predicate Invalidates(c: Config, e: Callback) {
    && e.CallTool? && e.name == c.original && e.replies.control.Returned?
    && (e.replies.control.value == CallResult(false, Some("identity-swapped")) ==> e.replies.cached.Returned?)
    && e.replies.result.Returned? && e.replies.invalidated
  }

  /** The listing that was recorded as the refreshed one. */
  function Refreshed(c: Config, h: seq<Callback>): Option<nat> {
    var k, l, r := FirstCall(c, h), SecondCall(c, h), NextListing(c, h);
    if r.None? || !Invalidates(c, h[k.value]) then None
    else if l.Some? && l.value < r.value && h[l.value].replies.result.Returned? then None
    else r
  }

  ghost predicate Counted(c: Config, h: seq<Callback>, s: State) {
    && (s.controlLeaked <==> !NoLeak(h))
    && (s.targetCalls == 0 <==> FirstCall(c, h).None?)
    && (s.targetCalls == 1 <==> FirstCall(c, h).Some? && SecondCall(c, h).None?)
    && (s.targetCalls == 2 <==> SecondCall(c, h).Some? && ThirdCall(c, h).None?)
  }

  /** What was shown first. */
  ghost predicate SeenFirst(c: Config, h: seq<Callback>, s: State) {
    var f, g := FirstListing(h), FirstModel(h);
    && s.seen.initialProtocol == (if f.None? then None else Some(Names(c, h[f.value].listing.value)))
    && s.seen.initialModel == (if g.None? then None else Some(Names(c, h[g.value].tools)))
  }

  /** What the refreshed listing showed. */
  ghost predicate SeenNext(c: Config, h: seq<Callback>, s: State) {
    var r := Refreshed(c, h);
    && s.seen.refreshedProtocol == (if r.None? then None else Some(Names(c, h[r.value].listing.value)))
    && (s.at.refreshedList.Some? <==> r.Some?) && (s.postInvalidationLists != 0 <==> r.Some?)
  }

  /** What the model was shown after it. */
  ghost predicate SeenAgain(c: Config, h: seq<Callback>, s: State) {
    var q := NextModel(h, Refreshed(c, h));
    s.seen.refreshedModel == (if q.None? then None else Some(Names(c, h[q.value].tools)))
  }

  ghost predicate Seen(c: Config, h: seq<Callback>, s: State) {
    SeenFirst(c, h, s) && SeenNext(c, h, s) && SeenAgain(c, h, s)
  }

  /** The stale exchange as recorded. */
  predicate StaleRecorded(c: Config, s: State) {
    && s.stale.tool == Some(c.original) && !s.controlFailed && s.at.identitySwap.Some?
    && s.seen.cachedProtocol == Some([c.original])
    && s.stale.isError == Some(true) && s.stale.text.Some? && s.stale.text != Some("")
    && c.unknownTool(s.stale.text.value)
  }

  predicate StaleUnrecorded(s: State) {
    && s.stale == NO_ATTEMPT && !s.controlFailed && s.at.identitySwap.None? && s.seen.cachedProtocol.None?
    && s.at.cacheInvalidation.None? && s.at.staleCall.None? && s.at.cachedList.None?
  }

  ghost predicate StalePart(c: Config, h: seq<Callback>, s: State) {
    var k := FirstCall(c, h);
    && (k.None? ==> StaleUnrecorded(s))
    && (k.Some? ==> (StaleRecorded(c, s) <==> StaleCall(c, h[k.value])))
    && (s.at.cacheInvalidation.Some? <==> k.Some? && Invalidates(c, h[k.value]))
  }

  ghost predicate RecoveryPart(c: Config, h: seq<Callback>, s: State) {
    var l, r := SecondCall(c, h), Refreshed(c, h);
    && (s.at.recoveryCall.Some? <==> l.Some? && h[l.value].replies.result.Returned?)
    && (s.recoveryBeforeRefresh <==> l.Some? && !(r.Some? && r.value < l.value))
    && (l.None? ==> s.recovery == NO_ATTEMPT)
    && (l.Some? ==> (RecoveryRecorded(c, s) <==> RecoveryCall(c, h[l.value])))
  }

  ghost predicate Called(c: Config, h: seq<Callback>, s: State) {
    StalePart(c, h, s) && RecoveryPart(c, h, s)
  }

  predicate RecoveryRecorded(c: Config, s: State) {
    s.recovery.tool == Some(c.replacement) && s.recovery.isError == Some(false)
        && s.recovery.text == Some("replacement:fresh")
  }

  ghost predicate Described(c: Config, h: seq<Callback>, s: State) {
    Counted(c, h, s) && Seen(c, h, s) && Called(c, h, s)
  }

  /** On a described state, completeness is the recovery of the history. */
  lemma CompleteMeansRecovered(c: Config, h: seq<Callback>, s: State)
    requires Described(c, h, s)
    ensures Complete(c, s) <==> Recovered(c, h)
  {
    var f, g, k, l := FirstListing(h), FirstModel(h), FirstCall(c, h), SecondCall(c, h);
    var r := NextListing(c, h);
    var q := NextModel(h, r);
    if f.Some? { ControlledMeaning(h[f.value].listing.value, c.original, c.replacement, c.original); }
    if g.Some? { ControlledMeaning(h[g.value].tools, c.original, c.replacement, c.original); }
    if r.Some? { ControlledMeaning(h[r.value].listing.value, c.original, c.replacement, c.replacement); }
    if q.Some? { ControlledMeaning(h[q.value].tools, c.original, c.replacement, c.replacement); }
  }

  // ---------------------------------------------------------------- one more callback

  lemma CallsSnoc(c: Config, h: seq<Callback>, e: Callback)
    ensures var longer, call := h + [e], IsCall(c)(e);
            && FirstCall(c, longer) == (if FirstCall(c, h).None? && call then Some(|h|) else FirstCall(c, h))
            && SecondCall(c, longer)
               == (if FirstCall(c, h).Some? && SecondCall(c, h).None? && call then Some(|h|) else SecondCall(c, h))
            && ThirdCall(c, longer)
               == (if SecondCall(c, h).Some? && ThirdCall(c, h).None? && call then Some(|h|) else ThirdCall(c, h))
  {
    NextSnoc(IsCall(c), h, e, 0);
    ThenSnoc(IsCall(c), h, e, FirstCall(c, h + [e]));
    ThenSnoc(IsCall(c), h, e, SecondCall(c, h + [e]));
  }

  lemma ListingsSnoc(c: Config, h: seq<Callback>, e: Callback)
    ensures var longer := h + [e];
            && FirstListing(longer) == (if FirstListing(h).None? && IsListing(e) then Some(|h|) else FirstListing(h))
            && NextListing(c, longer)
               == (if FirstListing(h).Some? && FirstCall(c, h).Some? && NextListing(c, h).None? && IsListing(e)
                   then Some(|h|) else NextListing(c, h))
  {
    NextSnoc(IsListing, h, e, 0);
    CallsSnoc(c, h, e);
    ThenSnoc(IsListing, h, e, Later(FirstListing(h + [e]), FirstCall(c, h + [e])));
  }

  lemma ModelsSnoc(h: seq<Callback>, e: Callback, k: Option<nat>)
    requires k.Some? ==> k.value < |h|
    ensures var longer := h + [e];
            && FirstModel(longer) == (if FirstModel(h).None? && IsModel(e) then Some(|h|) else FirstModel(h))
            && NextModel(longer, k)
               == (if FirstModel(h).Some? && k.Some? && NextModel(h, k).None? && IsModel(e)
                   then Some(|h|) else NextModel(h, k))
            && NextModel(longer, Some(|h|)) == None
  {
    NextSnoc(IsModel, h, e, 0);
    ThenSnoc(IsModel, h, e, Later(FirstModel(h + [e]), k));
    ThenSnoc(IsModel, h, e, Later(FirstModel(h + [e]), Some(|h|)));
  }

  /** The recorded refresh stays; it is set by a listing that comes after the first listing and an invalidating call,
      and before a recovery call has been answered. */
  lemma RefreshedSnoc(c: Config, h: seq<Callback>, e: Callback)
    ensures Refreshed(c, h).Some? ==> Refreshed(c, h + [e]) == Refreshed(c, h)
    ensures Refreshed(c, h).None? && !IsListing(e) ==> Refreshed(c, h + [e]) == None
    ensures Refreshed(c, h).None? && IsListing(e) ==>
              Refreshed(c, h + [e])
              == if FirstListing(h).Some? && FirstCall(c, h).Some? && Invalidates(c, h[FirstCall(c, h).value])
                    && !(SecondCall(c, h).Some? && h[SecondCall(c, h).value].replies.result.Returned?)
                 then Some(|h|) else None
  {
    var longer := h + [e];
    CallsSnoc(c, h, e);
    ListingsSnoc(c, h, e);
    assert longer[|h|] == e && forall i | 0 <= i < |h| :: longer[i] == h[i];
  }

  lemma LeakSnoc(h: seq<Callback>, e: Callback)
    ensures NoLeak(h + [e])
       <==> NoLeak(h) && (IsListing(e) ==> Lacks(e.listing.value, "__agent_evals_identity_swap__"))
  {
    var longer := h + [e];
    assert longer[|h|] == e && forall i | 0 <= i < |h| :: longer[i] == h[i];
    if NoLeak(longer) {
      assert forall i | 0 <= i < |h| && IsListing(h[i]) :: IsListing(longer[i]);
      assert IsListing(e) ==> IsListing(longer[|h|]);
    }
  }

  /** What was at a position stays there. */
  lemma Stays(h: seq<Callback>, e: Callback)
    ensures (h + [e])[|h|] == e && forall i | 0 <= i < |h| :: (h + [e])[i] == h[i]
  {
  }

  /** A callback that is no call leaves what was recorded of the calls. */
  predicate NoCallFrame(s: State, t: State) {
    && t.stale == s.stale && t.controlFailed == s.controlFailed && t.at.identitySwap == s.at.identitySwap
    && t.seen.cachedProtocol == s.seen.cachedProtocol && t.at.cacheInvalidation == s.at.cacheInvalidation
    && t.at.staleCall == s.at.staleCall && t.at.cachedList == s.at.cachedList
    && t.at.recoveryCall == s.at.recoveryCall && t.recovery == s.recovery
    && t.recoveryBeforeRefresh == s.recoveryBeforeRefresh
  }

  /** A callback that is no listing leaves what the listings showed. */
  predicate NoListingFrame(s: State, t: State) {
    && t.seen.initialProtocol == s.seen.initialProtocol && t.seen.refreshedProtocol == s.seen.refreshedProtocol
    && t.at.refreshedList == s.at.refreshedList && t.postInvalidationLists == s.postInvalidationLists
    && t.controlLeaked == s.controlLeaked
  }

  /** What a listing records. */
  predicate ListingEffect(c: Config, s: State, tools: seq<Tool>, t: State) {
    var refreshes := s.seen.initialProtocol.Some? && s.at.cacheInvalidation.Some? && s.at.recoveryCall.None?;
    && t.seen.initialProtocol
       == (if s.seen.initialProtocol.None? then Some(Names(c, tools)) else s.seen.initialProtocol)
    && t.seen.initialModel == s.seen.initialModel && t.seen.refreshedModel == s.seen.refreshedModel
    && t.seen.refreshedProtocol
       == (if refreshes && s.seen.refreshedProtocol.None? then Some(Names(c, tools)) else s.seen.refreshedProtocol)
    && (t.at.refreshedList.Some?
        <==> s.at.refreshedList.Some? || (refreshes && s.seen.refreshedProtocol.None?))
    && (t.postInvalidationLists != 0 <==> s.postInvalidationLists != 0 || refreshes)
    && (t.controlLeaked <==> s.controlLeaked || Lists(tools, CONTROL_TOOL))
    && t.targetCalls == s.targetCalls && NoCallFrame(s, t)
  }

  lemma ListingHas(c: Config, s: State, tools: seq<Tool>)
    ensures ListingEffect(c, s, tools, AfterList(c, s, tools))
  {
  }

  lemma ListingSeenFirst(c: Config, h: seq<Callback>, s: State, tools: seq<Tool>, t: State)
    requires SeenFirst(c, h, s) && ListingEffect(c, s, tools, t)
    ensures SeenFirst(c, h + [ListTools(Returned(tools))], t)
  {
    var e := ListTools(Returned(tools));
    Stays(h, e);
    ListingsSnoc(c, h, e);
    ModelsSnoc(h, e, None);
  }

  lemma ListingSeenNext(c: Config, h: seq<Callback>, s: State, tools: seq<Tool>, t: State)
    requires SeenFirst(c, h, s) && SeenNext(c, h, s) && StalePart(c, h, s) && RecoveryPart(c, h, s)
    requires ListingEffect(c, s, tools, t)
    ensures SeenNext(c, h + [ListTools(Returned(tools))], t)
  {
    var e := ListTools(Returned(tools));
    Stays(h, e);
    RefreshedSnoc(c, h, e);
  }

  /** No new model boundary is shown by a listing. */
  lemma ListingShowsNothing(c: Config, h: seq<Callback>, e: Callback)
    requires IsListing(e)
    ensures NextModel(h + [e], Refreshed(c, h + [e])) == NextModel(h, Refreshed(c, h))
  {
    RefreshedSnoc(c, h, e);
    ModelsSnoc(h, e, Refreshed(c, h));
  }

  lemma ListingSeenAgain(c: Config, h: seq<Callback>, s: State, tools: seq<Tool>, t: State)
    requires SeenAgain(c, h, s) && ListingEffect(c, s, tools, t)
    ensures SeenAgain(c, h + [ListTools(Returned(tools))], t)
  {
    var e := ListTools(Returned(tools));
    Stays(h, e);
    ListingShowsNothing(c, h, e);
  }

  lemma ListingIsCounted(c: Config, h: seq<Callback>, s: State, tools: seq<Tool>, t: State)
    requires Counted(c, h, s) && ListingEffect(c, s, tools, t)
    ensures Counted(c, h + [ListTools(Returned(tools))], t)
  {
    var e := ListTools(Returned(tools));
    CallsSnoc(c, h, e);
    LeakSnoc(h, e);
  }

  lemma NoCallKeepsStale(c: Config, h: seq<Callback>, s: State, t: State, e: Callback)
    requires StalePart(c, h, s) && !IsCall(c)(e) && NoCallFrame(s, t)
    ensures StalePart(c, h + [e], t)
  {
    Stays(h, e);
    CallsSnoc(c, h, e);
  }

  lemma NoCallKeepsRecovery(c: Config, h: seq<Callback>, s: State, t: State, e: Callback)
    requires RecoveryPart(c, h, s) && !IsCall(c)(e) && NoCallFrame(s, t)
    ensures RecoveryPart(c, h + [e], t)
  {
    Stays(h, e);
    CallsSnoc(c, h, e);
    RefreshedSnoc(c, h, e);
  }

  lemma ListingIsDescribed(c: Config, h: seq<Callback>, s: State, tools: seq<Tool>, t: State)
    requires Described(c, h, s) && ListingEffect(c, s, tools, t)
    ensures Described(c, h + [ListTools(Returned(tools))], t)
  {
    var e := ListTools(Returned(tools));
    ListingIsCounted(c, h, s, tools, t);
    ListingSeenFirst(c, h, s, tools, t);
    ListingSeenNext(c, h, s, tools, t);
    ListingSeenAgain(c, h, s, tools, t);
    NoCallKeepsStale(c, h, s, t, e);
    NoCallKeepsRecovery(c, h, s, t, e);
  }

  lemma NoListingKeepsNext(c: Config, h: seq<Callback>, s: State, t: State, e: Callback)
    requires SeenNext(c, h, s) && !IsListing(e) && NoListingFrame(s, t)
    ensures SeenNext(c, h + [e], t)
  {
    Stays(h, e);
    RefreshedSnoc(c, h, e);
  }

  lemma NoCallIsCounted(c: Config, h: seq<Callback>, s: State, t: State, e: Callback)
    requires Counted(c, h, s) && !IsListing(e) && !IsCall(c)(e) && NoListingFrame(s, t)
    requires t.targetCalls == s.targetCalls
    ensures Counted(c, h + [e], t)
  {
    CallsSnoc(c, h, e);
    LeakSnoc(h, e);
  }

  /** What a model boundary records. */
  predicate ModelEffect(c: Config, s: State, tools: seq<Tool>, t: State) {
    var reshown := s.seen.initialModel.Some? && s.at.refreshedList.Some? && s.seen.refreshedModel.None?;
    && t.seen.initialModel == (if s.seen.initialModel.None? then Some(Names(c, tools)) else s.seen.initialModel)
    && t.seen.refreshedModel == (if reshown then Some(Names(c, tools)) else s.seen.refreshedModel)
    && t.targetCalls == s.targetCalls && NoCallFrame(s, t) && NoListingFrame(s, t)
  }

  lemma ModelHas(c: Config, s: State, tools: seq<Tool>)
    ensures ModelEffect(c, s, tools, AfterModel(c, s, tools))
  {
  }

  lemma ModelSeenFirst(c: Config, h: seq<Callback>, s: State, tools: seq<Tool>, t: State)
    requires SeenFirst(c, h, s) && ModelEffect(c, s, tools, t)
    ensures SeenFirst(c, h + [ObserveModelTools(tools)], t)
  {
    var e := ObserveModelTools(tools);
    Stays(h, e);
    ListingsSnoc(c, h, e);
    ModelsSnoc(h, e, None);
  }

  lemma ModelSeenAgain(c: Config, h: seq<Callback>, s: State, tools: seq<Tool>, t: State)
    requires SeenFirst(c, h, s) && SeenNext(c, h, s) && SeenAgain(c, h, s) && ModelEffect(c, s, tools, t)
    ensures SeenAgain(c, h + [ObserveModelTools(tools)], t)
  {
    var e := ObserveModelTools(tools);
    Stays(h, e);
    RefreshedSnoc(c, h, e);
    ModelsSnoc(h, e, Refreshed(c, h));
  }

  lemma ModelIsDescribed(c: Config, h: seq<Callback>, s: State, tools: seq<Tool>, t: State)
    requires Described(c, h, s) && ModelEffect(c, s, tools, t)
    ensures Described(c, h + [ObserveModelTools(tools)], t)
  {
    var e := ObserveModelTools(tools);
    NoCallIsCounted(c, h, s, t, e);
    ModelSeenFirst(c, h, s, tools, t);
    NoListingKeepsNext(c, h, s, t, e);
    ModelSeenAgain(c, h, s, tools, t);
    NoCallKeepsStale(c, h, s, t, e);
    NoCallKeepsRecovery(c, h, s, t, e);
  }

  lemma QuietKeepsSeen(c: Config, h: seq<Callback>, s: State, t: State, e: Callback)
    requires SeenFirst(c, h, s) && SeenAgain(c, h, s) && !IsListing(e) && !IsModel(e)
    requires t.seen == s.seen.(cachedProtocol := t.seen.cachedProtocol)
    ensures SeenFirst(c, h + [e], t) && SeenAgain(c, h + [e], t)
  {
    Stays(h, e);
    ListingsSnoc(c, h, e);
    RefreshedSnoc(c, h, e);
    ModelsSnoc(h, e, Refreshed(c, h));
  }

  /** A callback that records nothing: a listing that raises, or a call of another tool. */
  lemma OtherIsDescribed(c: Config, h: seq<Callback>, s: State, e: Callback)
    requires Described(c, h, s) && !IsListing(e) && !IsModel(e) && !IsCall(c)(e)
    ensures Described(c, h + [e], s)
  {
    NoCallIsCounted(c, h, s, s, e);
    QuietKeepsSeen(c, h, s, s, e);
    NoListingKeepsNext(c, h, s, s, e);
    NoCallKeepsStale(c, h, s, s, e);
    NoCallKeepsRecovery(c, h, s, s, e);
  }

  /** What a call leaves alone. */
  predicate CallFrame(s: State, t: State) {
    && t.seen == s.seen.(cachedProtocol := t.seen.cachedProtocol)
    && t.at.refreshedList == s.at.refreshedList && t.postInvalidationLists == s.postInvalidationLists
    && t.controlLeaked == s.controlLeaked && t.targetCalls == s.targetCalls + 1
  }

  lemma FirstCallFrame(c: Config, s: State, arguments: Option<string>, r: Replies)
    ensures CallFrame(s, AfterStaleCall(c, s.(targetCalls := s.targetCalls + 1,
                                              stale := s.stale.(tool := Some(c.original))), arguments, r))
  {
  }

  lemma CallIsFramed(c: Config, s: State, e: Callback)
    requires IsCall(c)(e)
    ensures CallFrame(s, AfterCall(c, s, e.name, e.arguments, e.replies))
  {
    FirstCallFrame(c, s, e.arguments, e.replies);
  }

  lemma CallIsCounted(c: Config, h: seq<Callback>, s: State, t: State, e: Callback)
    requires Counted(c, h, s) && IsCall(c)(e) && CallFrame(s, t)
    ensures Counted(c, h + [e], t)
  {
    CallsSnoc(c, h, e);
    LeakSnoc(h, e);
  }

  /** What the recorder keeps of the first call says whether it was the stale call. */
  lemma StaleCallIsRecorded(c: Config, s: State, e: Callback)
    requires e.CallTool? && e.name == c.original && StaleUnrecorded(s)
    ensures var t := AfterStaleCall(c, s.(targetCalls := 1, stale := s.stale.(tool := Some(c.original))), e.arguments,
                                    e.replies);
            && (StaleRecorded(c, t) <==> StaleCall(c, e)) && (t.at.cacheInvalidation.Some? <==> Invalidates(c, e))
            && t.at.recoveryCall == s.at.recoveryCall && t.recovery == s.recovery
            && t.recoveryBeforeRefresh == s.recoveryBeforeRefresh
  {
    if e.replies.cached.Returned? {
      ControlledMeaning(e.replies.cached.value, c.original, c.replacement, c.original);
    }
  }

  lemma FirstCallIsDescribed(c: Config, h: seq<Callback>, s: State, e: Callback)
    requires StalePart(c, h, s) && RecoveryPart(c, h, s) && Counted(c, h, s)
    requires IsCall(c)(e) && FirstCall(c, h).None?
    ensures Called(c, h + [e], AfterCall(c, s, e.name, e.arguments, e.replies))
  {
    Stays(h, e);
    CallsSnoc(c, h, e);
    RefreshedSnoc(c, h, e);
    if e.name == c.original {
      StaleCallIsRecorded(c, s, e);
    }
  }

  lemma SecondCallIsDescribed(c: Config, h: seq<Callback>, s: State, e: Callback)
    requires SeenNext(c, h, s) && StalePart(c, h, s) && RecoveryPart(c, h, s) && Counted(c, h, s)
    requires IsCall(c)(e) && FirstCall(c, h).Some? && SecondCall(c, h).None?
    ensures Called(c, h + [e], AfterCall(c, s, e.name, e.arguments, e.replies))
  {
    Stays(h, e);
    CallsSnoc(c, h, e);
    RefreshedSnoc(c, h, e);
  }

  lemma LateCallIsDescribed(c: Config, h: seq<Callback>, s: State, e: Callback)
    requires StalePart(c, h, s) && RecoveryPart(c, h, s) && Counted(c, h, s)
    requires IsCall(c)(e) && SecondCall(c, h).Some?
    ensures Called(c, h + [e], AfterCall(c, s, e.name, e.arguments, e.replies))
  {
    LateCallRecordsNothing(c, s, e);
    Stays(h, e);
    CallsSnoc(c, h, e);
    RefreshedSnoc(c, h, e);
  }

  lemma LateCallRecordsNothing(c: Config, s: State, e: Callback)
    requires IsCall(c)(e) && s.targetCalls >= 2
    ensures AfterCall(c, s, e.name, e.arguments, e.replies) == s.(targetCalls := s.targetCalls + 1)
  {
  }

  lemma CallIsDescribed(c: Config, h: seq<Callback>, s: State, e: Callback)
    requires Described(c, h, s) && IsCall(c)(e)
    ensures Described(c, h + [e], AfterCall(c, s, e.name, e.arguments, e.replies))
  {
    var t := AfterCall(c, s, e.name, e.arguments, e.replies);
    CallIsFramed(c, s, e);
    QuietKeepsSeen(c, h, s, t, e);
    NoListingKeepsNext(c, h, s, t, e);
    CallIsCounted(c, h, s, t, e);
    if FirstCall(c, h).None? {
      FirstCallIsDescribed(c, h, s, e);
    } else if SecondCall(c, h).None? {
      SecondCallIsDescribed(c, h, s, e);
    } else {
      LateCallIsDescribed(c, h, s, e);
    }
  }

  lemma StepIsDescribed(c: Config, h: seq<Callback>, s: State, e: Callback)
    requires Described(c, h, s)
    ensures Described(c, h + [e], Step(c, s, e))
  {
    if IsListing(e) {
      ListingHas(c, s, e.listing.value);
      ListingIsDescribed(c, h, s, e.listing.value, Step(c, s, e));
    } else if IsModel(e) {
      ModelHas(c, s, e.tools);
      ModelIsDescribed(c, h, s, e.tools, Step(c, s, e));
    } else if IsCall(c)(e) {
      CallIsDescribed(c, h, s, e);
    } else {
      OtherIsDescribed(c, h, s, e);
    }
  }

  lemma {:induction false} RunIsDescribed(c: Config, h: seq<Callback>)
    ensures Described(c, h, Run(c, h))
  {
    if h != [] {
      var front, last := h[..|h| - 1], h[|h| - 1];
      assert h == front + [last];
      RunIsDescribed(c, front);
      StepIsDescribed(c, front, Run(c, front), last);
    }
  }

  /** A run is accepted exactly when its history is one of recovery. */
  lemma AcceptanceMeaning(c: Config, h: seq<Callback>)
    ensures Complete(c, Run(c, h)) <==> Recovered(c, h)
  {
    RunIsDescribed(c, h);
    CompleteMeansRecovered(c, h, Run(c, h));
  }
}
