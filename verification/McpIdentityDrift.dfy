/** The tool-identity drift recorder (adapters/openai_mcp_tool_identity_drift.py:130-462). Callbacks run one at
    a time; the server's and the model's replies are arbitrary. */
module McpIdentityDrift {
  import opened Wrappers
  import opened McpReplies
  import opened Sequences

  const CONTROL_TOOL := "__agent_evals_identity_swap__"
  const EXPECTED_CONTROL_RESULT := "identity-swapped"
  const EXPECTED_RECOVERY_TEXT := "replacement:fresh"

  /** `unknownTool` is the case-insensitive search for "unknown tool". */
  datatype Config = Config(original: string, replacement: string, unknownTool: string -> bool)

  datatype Callback =
    | ListTools(listing: Reply<seq<Tool>>)
    | ObserveModelTools(tools: seq<Tool>)
    | CallTool(name: string, arguments: Option<string>, replies: Replies)

  /** The first-seen tool names at the protocol and at the model. */
  datatype Seen = Seen(
    initialProtocol: Option<seq<string>>, cachedProtocol: Option<seq<string>>, refreshedProtocol: Option<seq<string>>,
    initialModel: Option<seq<string>>, refreshedModel: Option<seq<string>>)

  datatype Chronology = Chronology(
    initialList: Option<nat>, identitySwap: Option<nat>, cachedList: Option<nat>, staleCall: Option<nat>,
    cacheInvalidation: Option<nat>, refreshedList: Option<nat>, recoveryCall: Option<nat>)

  datatype State = State(
    ordinal: nat, targetCalls: nat, postInvalidationLists: nat,
    controlFailed: bool, controlLeaked: bool, recoveryBeforeRefresh: bool,
    seen: Seen, stale: Attempt, recovery: Attempt, at: Chronology)

  const NOTHING_SEEN := Seen(None, None, None, None, None)
  const NO_ORDINALS := Chronology(None, None, None, None, None, None, None)
  const START := State(0, 0, 0, false, false, false, NOTHING_SEEN, NO_ATTEMPT, NO_ATTEMPT, NO_ORDINALS)

  predicate Controlled(c: Config, name: string) {
    name == c.original || name == c.replacement
  }

  function Names(c: Config, tools: seq<Tool>): seq<string> {
    ControlledNames(tools, c.original, c.replacement)
  }

  // ---------------------------------------------------------------- one callback

  function AfterList(c: Config, s: State, tools: seq<Tool>): State {
    var t := if Lists(tools, CONTROL_TOOL) then s.(controlLeaked := true) else s;
    if t.seen.initialProtocol.None? then
      t.(seen := t.seen.(initialProtocol := Some(Names(c, tools))), at :=
          t.at.(initialList := Some(t.ordinal)), ordinal := t.ordinal + 1)
    else if t.at.cacheInvalidation.Some? && t.at.recoveryCall.None? then
      var u := t.(postInvalidationLists := t.postInvalidationLists + 1);
      if u.seen.refreshedProtocol.None? then
        u.(seen := u.seen.(refreshedProtocol := Some(Names(c, tools))), at :=
            u.at.(refreshedList := Some(u.ordinal)), ordinal := u.ordinal + 1)
      else u
    else t
  }

  function AfterModel(c: Config, s: State, tools: seq<Tool>): State {
    if s.seen.initialModel.None? then s.(seen := s.seen.(initialModel := Some(Names(c, tools))))
    else if s.at.refreshedList.Some? && s.seen.refreshedModel.None? then
      s.(seen := s.seen.(refreshedModel := Some(Names(c, tools))))
    else s
  }

  /** The first controlled call, from its control request on. */
  function AfterStaleCall(c: Config, s: State, arguments: Option<string>, r: Replies): State {
    if r.control.Raised? then s
    else
      var failed := r.control.value.isError || r.control.value.text != Some(EXPECTED_CONTROL_RESULT);
      var t := s.(controlFailed := failed);
      if failed then AfterStaleResult(t, arguments, r)
      else
        var u := t.(at := t.at.(identitySwap := Some(t.ordinal)), ordinal := t.ordinal + 1);
        if r.cached.Raised? then u
        else
          AfterStaleResult(u.(seen := u.seen.(cachedProtocol := Some(Names(c, r.cached.value))),
                              at := u.at.(cachedList := Some(u.ordinal)), ordinal := u.ordinal + 1), arguments, r)
  }

  function AfterStaleResult(s: State, arguments: Option<string>, r: Replies): State {
    var t := s.(stale := s.stale.(arguments := arguments));
    if r.result.Raised? then t
    else
      var u := t.(stale := Attempt(t.stale.tool, arguments, Some(r.result.value.isError), r.result.value.text),
                  at := t.at.(staleCall := Some(t.ordinal)), ordinal := t.ordinal + 1);
      if !r.invalidated then u
      else u.(at := u.at.(cacheInvalidation := Some(u.ordinal)), ordinal := u.ordinal + 1)
  }

  function AfterRecoveryCall(s: State, name: string, arguments: Option<string>, r: Replies): State {
    var t := s.(recovery := s.recovery.(tool := Some(name), arguments := arguments),
                recoveryBeforeRefresh := s.recoveryBeforeRefresh || s.at.refreshedList.None?);
    if r.result.Raised? then t
    else
      t.(recovery := Attempt(Some(name), arguments, Some(r.result.value.isError), r.result.value.text),
         at := t.at.(recoveryCall := Some(t.ordinal)), ordinal := t.ordinal + 1)
  }

  function AfterCall(c: Config, s: State, name: string, arguments: Option<string>, r: Replies): State {
    if !Controlled(c, name) then s
    else
      var t := s.(targetCalls := s.targetCalls + 1);
      if t.targetCalls == 1 then
        var u := t.(stale := t.stale.(tool := Some(name)));
        if name != c.original then u else AfterStaleCall(c, u, arguments, r)
      else if t.targetCalls == 2 then AfterRecoveryCall(t, name, arguments, r)
      else t
  }

  predicate Swapped(control: CallResult) {
    !control.isError && control.text == Some(EXPECTED_CONTROL_RESULT)
  }

  /** A request around the first controlled call raised: the control request, the cached listing that follows a sound
      one, or the invalidation of the cache after the answer. */
  predicate Interrupted(r: Replies) {
    || r.control.Raised? || (Swapped(r.control.value) && r.cached.Raised?)
    || (r.result.Returned? && !r.invalidated)
  }

  function Step(c: Config, s: State, e: Callback): State {
    match e
    case ListTools(Raised) => s
    case ListTools(Returned(tools)) => AfterList(c, s, tools)
    case ObserveModelTools(tools) => AfterModel(c, s, tools)
    case CallTool(name, arguments, replies) => AfterCall(c, s, name, arguments, replies)
  }

  function Run(c: Config, history: seq<Callback>): State {
    if history == [] then START
    else Step(c, Run(c, history[..|history| - 1]), history[|history| - 1])
  }

  /** require_complete_relation */
  predicate Complete(c: Config, s: State) {
    && !s.controlLeaked
    && s.seen.initialProtocol == Some([c.original]) && s.seen.initialModel == Some([c.original])
    && s.targetCalls != 0 && s.stale.tool == Some(c.original)
    && !s.controlFailed && s.at.identitySwap.Some?
    && s.seen.cachedProtocol == Some([c.original])
    && s.stale.isError == Some(true) && s.stale.text.Some? && s.stale.text != Some("")
       && c.unknownTool(s.stale.text.value)
    && s.targetCalls != 1 && s.targetCalls == 2
    && !s.recoveryBeforeRefresh
    && s.postInvalidationLists != 0 && s.seen.refreshedProtocol == Some([c.replacement])
    && s.seen.refreshedModel == Some([c.replacement])
    && s.recovery.tool == Some(c.replacement)
    && s.recovery.isError == Some(false) && s.recovery.text == Some(EXPECTED_RECOVERY_TEXT)
  }

  // ---------------------------------------------------------------- the recorder

  class Recorder {
    const config: Config
    var ordinal: nat
    var targetCalls: nat
    var postInvalidationLists: nat
    var controlFailed: bool
    var controlLeaked: bool
    var recoveryBeforeRefresh: bool
    var seen: Seen
    var stale: Attempt
    var recovery: Attempt
    var at: Chronology
    /** Every callback so far. */
    ghost var history: seq<Callback>

    function View(): State
      reads this
    {
      State(ordinal, targetCalls, postInvalidationLists, controlFailed, controlLeaked, recoveryBeforeRefresh,
            seen, stale, recovery, at)
    }

    ghost predicate Valid()
      reads this
    {
      View() == Run(config, history)
    }

    constructor (config: Config)
      ensures Valid() && this.config == config && history == []
    {
      this.config := config;
      ordinal, targetCalls, postInvalidationLists := 0, 0, 0;
      controlFailed, controlLeaked, recoveryBeforeRefresh := false, false, false;
      seen, stale, recovery, at := NOTHING_SEEN, NO_ATTEMPT, NO_ATTEMPT, NO_ORDINALS;
      history := [];
    }

    method Mark() returns (value: nat)
      modifies this`ordinal
      ensures value == old(ordinal) && ordinal == old(ordinal) + 1
    {
      value := ordinal;
      ordinal := ordinal + 1;
    }

    method ListTools(listing: Reply<seq<Tool>>) returns (tools: Reply<seq<Tool>>)
      requires Valid()
      modifies this
      ensures Valid() && history == old(history) + [Callback.ListTools(listing)] && tools == listing
    {
      if listing.Returned? {
        RecordListing(listing.value);
      }
      history := history + [Callback.ListTools(listing)];
      tools := listing;
    }

    method RecordListing(tools: seq<Tool>)
      modifies this
      ensures View() == AfterList(config, old(View()), tools) && history == old(history)
    {
      if Lists(tools, CONTROL_TOOL) {
        controlLeaked := true;
      }
      var controlled := Names(config, tools);
      if seen.initialProtocol.None? {
        seen := seen.(initialProtocol := Some(controlled));
        var mark := Mark();
        at := at.(initialList := Some(mark));
      } else if at.cacheInvalidation.Some? && at.recoveryCall.None? {
        postInvalidationLists := postInvalidationLists + 1;
        if seen.refreshedProtocol.None? {
          seen := seen.(refreshedProtocol := Some(controlled));
          var mark := Mark();
          at := at.(refreshedList := Some(mark));
        }
      }
    }

    method ObserveModelTools(tools: seq<Tool>)
      requires Valid()
      modifies this
      ensures Valid() && history == old(history) + [Callback.ObserveModelTools(tools)]
    {
      history := history + [Callback.ObserveModelTools(tools)];
      var controlled := Names(config, tools);
      if seen.initialModel.None? {
        seen := seen.(initialModel := Some(controlled));
        return;
      }
      if at.refreshedList.Some? && seen.refreshedModel.None? {
        seen := seen.(refreshedModel := Some(controlled));
      }
    }

    method CallTool(name: string, arguments: Option<string>, replies: Replies) returns (result: Reply<CallResult>)
      requires Valid()
      modifies this
      ensures Valid() && history == old(history) + [Callback.CallTool(name, arguments, replies)]
      // The caller gets the answer to the call, unless the first controlled call was interrupted.
      ensures result == if old(targetCalls) == 0 && name == config.original && Interrupted(replies) then Raised
                        else replies.result
    {
      history := history + [Callback.CallTool(name, arguments, replies)];
      if !Controlled(config, name) {
        return replies.result;
      }
      targetCalls := targetCalls + 1;
      if targetCalls == 1 {
        stale := stale.(tool := Some(name));
        if name != config.original {
          return replies.result;
        }
        result := FirstCall(arguments, replies);
        return;
      }
      if targetCalls == 2 {
        result := SecondCall(name, arguments, replies);
        return;
      }
      result := replies.result;
    }

    /** The control request and the cached listing, then the stale call. */
    method FirstCall(arguments: Option<string>, replies: Replies) returns (result: Reply<CallResult>)
      modifies this
      ensures View() == AfterStaleCall(config, old(View()), arguments, replies) && history == old(history)
      ensures result == if Interrupted(replies) then Raised else replies.result
    {
      if replies.control.Raised? {
        return Raised;
      }
      controlFailed := replies.control.value.isError || replies.control.value.text != Some(EXPECTED_CONTROL_RESULT);
      if !controlFailed {
        var swapped := Mark();
        at := at.(identitySwap := Some(swapped));
        if replies.cached.Raised? {
          return Raised;
        }
        RecordCached(replies.cached.value);
      }
      result := StaleResult(arguments, replies);
    }

    method RecordCached(tools: seq<Tool>)
      modifies this
      ensures View() == old(View()).(seen := old(seen).(cachedProtocol := Some(Names(config, tools))),
                                     at := old(at).(cachedList := Some(old(ordinal))), ordinal := old(ordinal) + 1)
      ensures history == old(history)
    {
      seen := seen.(cachedProtocol := Some(Names(config, tools)));
      var cached := Mark();
      at := at.(cachedList := Some(cached));
    }

    /** The stale call and the invalidation of the cache. */
    method StaleResult(arguments: Option<string>, replies: Replies) returns (result: Reply<CallResult>)
      modifies this
      ensures View() == AfterStaleResult(old(View()), arguments, replies) && history == old(history)
      ensures result == if replies.result.Returned? && !replies.invalidated then Raised else replies.result
    {
      stale := stale.(arguments := arguments);
      if replies.result.Raised? {
        return Raised;
      }
      stale := stale.(isError := Some(replies.result.value.isError), text := replies.result.value.text);
      var called := Mark();
      at := at.(staleCall := Some(called));
      if !replies.invalidated {
        return Raised;
      }
      var mark := Mark();
      at := at.(cacheInvalidation := Some(mark));
      result := replies.result;
    }

    method SecondCall(name: string, arguments: Option<string>, replies: Replies) returns (result: Reply<CallResult>)
      modifies this
      ensures View() == AfterRecoveryCall(old(View()), name, arguments, replies) && history == old(history)
      ensures result == replies.result
    {
      recovery := recovery.(tool := Some(name), arguments := arguments);
      if at.refreshedList.None? {
        recoveryBeforeRefresh := true;
      }
      if replies.result.Raised? {
        return Raised;
      }
      recovery := recovery.(isError := Some(replies.result.value.isError), text := replies.result.value.text);
      var mark := Mark();
      at := at.(recoveryCall := Some(mark));
      result := replies.result;
    }

    /** require_complete_relation: acceptance fixes the whole chronology exactly when the first discovery came
        before the first controlled call. */
    method RequireCompleteRelation() returns (accepted: bool)
      requires Valid()
      ensures accepted <==> Complete(config, View())
      ensures accepted ==> (FullChronology(View()) <==> DiscoveryFirst(config, history))
    {
      accepted := Complete(config, View());
      if accepted {
        CompleteChronology(config, history);
      }
    }
  }

  // ---------------------------------------------------------------- chronology

  /** Discovery, swap, cached listing, stale call, invalidation, refreshed listing, recovery call. */
  predicate FullChronology(s: State) {
    && s.at.initialList == Some(0) && s.at.identitySwap == Some(1) && s.at.cachedList == Some(2)
       && s.at.staleCall == Some(3)
    && s.at.cacheInvalidation == Some(4) && s.at.refreshedList == Some(5) && s.at.recoveryCall == Some(6)
  }

  predicate Discovers(e: Callback) {
    e.ListTools? && e.listing.Returned?
  }

  predicate CallsControlled(c: Config, e: Callback) {
    e.CallTool? && Controlled(c, e.name)
  }

  predicate Uncalled(c: Config, history: seq<Callback>) {
    forall i | 0 <= i < |history| :: !CallsControlled(c, history[i])
  }

  /** The first successful listing came before the first controlled call. */
  predicate DiscoveryFirst(c: Config, history: seq<Callback>) {
    exists i | 0 <= i < |history| :: Discovers(history[i]) && Uncalled(c, history[..i])
  }

  lemma DiscoveryFirstSnoc(c: Config, history: seq<Callback>, e: Callback)
    ensures Uncalled(c, history + [e]) <==> Uncalled(c, history) && !CallsControlled(c, e)
    ensures DiscoveryFirst(c, history + [e]) <==> DiscoveryFirst(c, history) || (Discovers(e) && Uncalled(c, history))
  {
    var longer := history + [e];
    assert longer[|history|] == e && longer[..|history|] == history;
    assert forall i | 0 <= i < |history| :: longer[i] == history[i] && longer[..i] == history[..i];
    if Uncalled(c, longer) {
      assert forall i | 0 <= i < |history| :: !CallsControlled(c, longer[i]);
    }
  }

  /** Nothing of the controlled exchange has been recorded. */
  predicate Untouched(s: State) {
    && s.at.identitySwap.None? && s.at.cachedList.None? && s.seen.cachedProtocol.None? && s.at.staleCall.None?
       && s.stale.isError.None?
    && s.at.cacheInvalidation.None? && s.at.refreshedList.None? && s.seen.refreshedProtocol.None?
       && s.at.recoveryCall.None?
    && s.recovery.isError.None? && !s.recoveryBeforeRefresh && s.postInvalidationLists == 0
  }

  /** The stale exchange ran to the end: the swap, the cached listing and the stale call were all recorded. */
  predicate Exchanged(s: State) {
    s.at.identitySwap.Some? && s.seen.cachedProtocol.Some? && s.stale.isError.Some?
  }

  /** The recovery part of the chronology, once the cache was invalidated at ordinal 4. */
  predicate Recovering(s: State) {
    || (s.at.refreshedList.None? && s.at.recoveryCall.None? && s.ordinal == 5 && s.targetCalls == 1)
    || (s.at.refreshedList == Some(5) && s.at.recoveryCall.None? && s.ordinal == 6 && s.recovery.isError.None?)
    || (s.at.refreshedList == Some(5) && s.at.recoveryCall == Some(6) && s.targetCalls >= 2)
    || s.recoveryBeforeRefresh
  }

  ghost predicate Recorded(s: State, early: bool) {
    && (s.at.refreshedList.Some? <==> s.seen.refreshedProtocol.Some?)
       && (s.at.refreshedList.Some? ==> s.at.cacheInvalidation.Some?)
    && (s.recovery.isError.Some? ==> s.at.recoveryCall.Some?)
    && (s.targetCalls == 0 ==> Untouched(s) && s.ordinal == (if s.at.initialList.Some? then 1 else 0))
    && (s.targetCalls == 1 ==> s.at.recoveryCall.None? && !s.recoveryBeforeRefresh)
    && (s.targetCalls > 0 && early && Exchanged(s) ==>
          && s.at.initialList == Some(0) && s.at.identitySwap == Some(1) && s.at.cachedList == Some(2)
             && s.at.staleCall == Some(3)
          && (s.at.cacheInvalidation.Some? ==> s.at.cacheInvalidation == Some(4) && Recovering(s)))
    && (s.targetCalls > 0 && !early && s.at.identitySwap.Some? ==> s.at.identitySwap == Some(0))
  }

  lemma ListKeeps(c: Config, s: State, tools: seq<Tool>, early: bool)
    requires Recorded(s, early) && (s.targetCalls > 0 && early ==> s.seen.initialProtocol.Some?)
    requires s.at.initialList.Some? <==> s.seen.initialProtocol.Some?
    ensures Recorded(AfterList(c, s, tools), early)
  {
  }

  lemma StaleCallKeeps(c: Config, s: State, arguments: Option<string>, r: Replies)
    requires Recorded(s, s.at.initialList.Some?) && s.targetCalls == 0
        && (s.at.initialList.Some? ==> s.at.initialList == Some(0))
    ensures Recorded(AfterStaleCall(c, s.(targetCalls := 1, stale := s.stale.(tool := Some(c.original))), arguments,
        r), s.at.initialList.Some?)
  {
  }

  lemma RecoveryCallKeeps(s: State, name: string, arguments: Option<string>, r: Replies, early: bool)
    requires Recorded(s, early) && s.targetCalls == 1
    ensures Recorded(AfterRecoveryCall(s.(targetCalls := 2), name, arguments, r), early)
  {
  }

  lemma OtherCallKeeps(s: State, name: string, early: bool)
    requires Recorded(s, early)
    ensures s.targetCalls >= 2 ==> Recorded(s.(targetCalls := s.targetCalls + 1), early)
    ensures s.targetCalls == 0 ==> Recorded(s.(targetCalls := 1, stale := s.stale.(tool := Some(name))), early)
  {
  }

  lemma CallKeeps(c: Config, s: State, name: string, arguments: Option<string>, r: Replies, early: bool)
    requires Recorded(s, early) && (s.targetCalls == 0 ==> early == s.at.initialList.Some?)
    requires s.targetCalls == 0 && s.at.initialList.Some? ==> s.at.initialList == Some(0)
    ensures Recorded(AfterCall(c, s, name, arguments, r), early)
  {
    if Controlled(c, name) {
      if s.targetCalls == 0 && name == c.original {
        StaleCallKeeps(c, s, arguments, r);
      } else if s.targetCalls == 1 {
        RecoveryCallKeeps(s, name, arguments, r, early);
      } else {
        OtherCallKeeps(s, name, early);
      }
    }
  }

  /** Which callbacks can change the first discovery and the number of controlled calls. */
  lemma StepCounts(c: Config, s: State, e: Callback)
    ensures var t := Step(c, s, e);
            && (s.seen.initialProtocol.Some? ==> t.at.initialList == s.at.initialList && t.seen.initialProtocol.Some?)
            && (s.seen.initialProtocol.None? && !Discovers(e)
               ==> t.at.initialList == s.at.initialList && t.seen.initialProtocol.None?)
            && (s.seen.initialProtocol.None? && Discovers(e)
               ==> t.at.initialList == Some(s.ordinal) && t.seen.initialProtocol.Some?)
            && t.targetCalls == s.targetCalls + (if CallsControlled(c, e) then 1 else 0)
  {
  }

  lemma StepRecords(c: Config, s: State, e: Callback, early: bool)
    requires Recorded(s, early) && (s.at.initialList.Some? <==> s.seen.initialProtocol.Some?)
    requires s.targetCalls == 0 ==> early == s.at.initialList.Some?
    requires early ==> s.at.initialList == Some(0)
    requires e.CallTool?
    ensures Recorded(Step(c, s, e), early)
  {
    CallKeeps(c, s, e.name, e.arguments, e.replies, early);
  }

  /** What every run records. */
  ghost predicate Known(s: State, early: bool, uncalled: bool) {
    && Recorded(s, early)
    && (s.at.initialList.Some? <==> s.seen.initialProtocol.Some?)
    && (s.targetCalls == 0 <==> uncalled)
    && (s.targetCalls == 0 ==> early == s.at.initialList.Some?)
    && (early ==> s.at.initialList == Some(0))
  }

  lemma ListingKnown(c: Config, s: State, e: Callback, early: bool, uncalled: bool)
    requires Known(s, early, uncalled) && Discovers(e)
    ensures Known(Step(c, s, e), early || uncalled, uncalled)
  {
    StepCounts(c, s, e);
    if uncalled {
      FirstListing(c, s, e.listing.value, early);
    } else {
      ListKeeps(c, s, e.listing.value, early);
    }
  }

  lemma FirstListing(c: Config, s: State, tools: seq<Tool>, early: bool)
    requires Recorded(s, early) && s.targetCalls == 0
    requires s.at.initialList.Some? <==> s.seen.initialProtocol.Some?
    ensures Recorded(AfterList(c, s, tools), true)
  {
  }

  lemma CallKnown(c: Config, s: State, e: Callback, early: bool, uncalled: bool)
    requires Known(s, early, uncalled) && e.CallTool?
    ensures Known(Step(c, s, e), early, uncalled && !CallsControlled(c, e))
  {
    StepCounts(c, s, e);
    StepRecords(c, s, e, early);
  }

  lemma ModelKnown(c: Config, s: State, e: Callback, early: bool, uncalled: bool)
    requires Known(s, early, uncalled) && !e.CallTool? && !Discovers(e)
    ensures Known(Step(c, s, e), early, uncalled)
  {
  }

  lemma {:induction false} RunRecords(c: Config, history: seq<Callback>)
    ensures Known(Run(c, history), DiscoveryFirst(c, history), Uncalled(c, history))
  {
    if history != [] {
      var n := |history| - 1;
      var before, e := history[..n], history[n];
      assert history == before + [e];
      RunRecords(c, before);
      DiscoveryFirstSnoc(c, before, e);
      var s, early, uncalled := Run(c, before), DiscoveryFirst(c, before), Uncalled(c, before);
      if e.CallTool? {
        CallKnown(c, s, e, early, uncalled);
      } else if Discovers(e) {
        ListingKnown(c, s, e, early, uncalled);
      } else {
        ModelKnown(c, s, e, early, uncalled);
      }
    }
  }

  /** In every run that is accepted the ordinals are exactly 0 to 6, if and only if the first discovery preceded
      the first controlled call. */
  lemma CompleteChronology(c: Config, history: seq<Callback>)
    requires Complete(c, Run(c, history))
    ensures FullChronology(Run(c, history)) <==> DiscoveryFirst(c, history)
  {
    RunRecords(c, history);
  }

  // ---------------------------------------------------------------- a late discovery is accepted all the same

  function Listing(name: string): seq<Tool> { [Tool(Some(name), None)] }

  lemma ListingNames(c: Config, name: string)
    requires Controlled(c, name) && name != CONTROL_TOOL
    ensures Names(c, Listing(name)) == [name] && !Lists(Listing(name), CONTROL_TOOL)
  {
    var tools := Listing(name);
    FilterOne((t: Tool) => t.name == Some(name), tools, 0);
    var other := if name == c.original then c.replacement else c.original;
    if other != name {
      FilterNone((t: Tool) => t.name == Some(other), tools);
      assert [] + [name] == [name] + [];
    }
  }

  function StaleReplies(c: Config, rejection: string): Replies {
    Replies(Returned(CallResult(false, Some(EXPECTED_CONTROL_RESULT))), Returned(Listing(c.original)),
            Returned(CallResult(true, Some(rejection))), true)
  }

  function RecoveryReplies(): Replies {
    Replies(Raised, Raised, Returned(CallResult(false, Some(EXPECTED_RECOVERY_TEXT))), false)
  }

  /** The controlled call first, the first discovery after it. */
  function LateDiscovery(c: Config, rejection: string): seq<Callback> {
    [CallTool(c.original, None, StaleReplies(c, rejection)), ListTools(Returned(Listing(c.original))),
     ObserveModelTools(Listing(c.original)), ListTools(Returned(Listing(c.replacement))),
     ObserveModelTools(Listing(c.replacement)), CallTool(c.replacement, None, RecoveryReplies())]
  }

  lemma RunPrefix(c: Config, h: seq<Callback>, i: nat)
    requires i < |h|
    ensures Run(c, h[..i + 1]) == Step(c, Run(c, h[..i]), h[i])
  {
    assert h[..i + 1][..i] == h[..i];
  }

  /** The state after the stale call and the first i of the five later callbacks of LateDiscovery. */
  function LateState(c: Config, rejection: string, i: nat): State {
    var stale := Attempt(Some(c.original), None, Some(true), Some(rejection));
    var seen := Seen(if i >= 1 then Some([c.original]) else None, Some([c.original]), if i >= 3
        then Some([c.replacement]) else None,
                     if i >= 2 then Some([c.original]) else None, if i >= 4 then Some([c.replacement]) else None);
    var at := Chronology(if i >= 1 then Some(4) else None, Some(0), Some(1), Some(2), Some(3), if i >= 3 then Some(5)
        else None,
                         if i >= 5 then Some(6) else None);
    State(if i >= 5 then 7 else if i >= 3 then 6 else if i >= 1 then 5 else 4, if i >= 5 then 2 else 1, if i >= 3
        then 1 else 0,
          false, false, false, seen, stale,
          if i >= 5 then Attempt(Some(c.replacement), None, Some(false), Some(EXPECTED_RECOVERY_TEXT))
              else NO_ATTEMPT, at)
  }

  lemma LateStep(c: Config, rejection: string, i: nat)
    requires c.original != c.replacement && c.original != CONTROL_TOOL && c.replacement != CONTROL_TOOL && i < 5
    ensures Step(c, LateState(c, rejection, i), LateDiscovery(c, rejection)[i + 1]) == LateState(c, rejection, i + 1)
  {
    ListingNames(c, c.original);
    ListingNames(c, c.replacement);
  }

  lemma {:induction false} LateRun(c: Config, rejection: string, i: nat)
    requires c.original != c.replacement && c.original != CONTROL_TOOL && c.replacement != CONTROL_TOOL && i <= 5
    ensures Run(c, LateDiscovery(c, rejection)[..i + 1]) == LateState(c, rejection, i)
  {
    var h := LateDiscovery(c, rejection);
    RunPrefix(c, h, i);
    if i == 0 {
      ListingNames(c, c.original);
      assert h[..0] == [];
    } else {
      LateRun(c, rejection, i - 1);
      LateStep(c, rejection, i - 1);
    }
  }

  /** require_complete_relation alone does not exclude a first discovery after the stale call. */
  lemma LateDiscoveryIsAccepted(c: Config, rejection: string)
    requires c.original != c.replacement && c.original != CONTROL_TOOL && c.replacement != CONTROL_TOOL
    requires rejection != "" && c.unknownTool(rejection)
    ensures Complete(c, Run(c, LateDiscovery(c, rejection)))
    ensures !FullChronology(Run(c, LateDiscovery(c, rejection)))
  {
    LateRun(c, rejection, 5);
    assert LateDiscovery(c, rejection)[..6] == LateDiscovery(c, rejection);
  }
}
