/** The tool-schema drift recorder (adapters/openai_mcp_tool_schema_drift.py:120-395). Callbacks run one at a
    time; the server's replies are arbitrary. */
module McpSchemaDrift {
  import opened Wrappers
  import opened McpReplies
  import opened Sequences

  const CONTROL_TOOL := "__agent_evals_schema_swap__"
  const EXPECTED_CONTROL_RESULT := "schema-swapped"
  const EXPECTED_RECOVERY_TEXT := "replacement:7:true"

  datatype Config = Config(target: string)

  datatype Callback =
    | ListTools(listing: Reply<seq<Tool>>)
    | CallTool(name: string, arguments: Option<string>, replies: Replies)

  /** The first-seen schemas of the target. */
  datatype Seen = Seen(initial: Option<string>, cached: Option<string>, refreshed: Option<string>)

  datatype Chronology = Chronology(
    initialList: Option<nat>, schemaSwap: Option<nat>, cachedList: Option<nat>, staleCall: Option<nat>,
    cacheInvalidation: Option<nat>, refreshedList: Option<nat>, recoveryCall: Option<nat>)

  datatype State = State(
    ordinal: nat, targetCalls: nat, postInvalidationLists: nat,
    controlFailed: bool, controlLeaked: bool, recoveryBeforeRefresh: bool,
    seen: Seen, stale: Attempt, recovery: Attempt, at: Chronology)

  const NOTHING_SEEN := Seen(None, None, None)
  const NO_ORDINALS := Chronology(None, None, None, None, None, None, None)
  const START := State(0, 0, 0, false, false, false, NOTHING_SEEN, NO_ATTEMPT, NO_ATTEMPT, NO_ORDINALS)

  /** _exact_target_schema; None when the listing has no single target with a controlled schema. */
  function TargetSchema(c: Config, tools: seq<Tool>): Option<string> {
    var matching := Filter((t: Tool) => t.name == Some(c.target), tools);
    if |matching| != 1 then None else matching[0].schema
  }

  // ---------------------------------------------------------------- one callback

  function AfterList(c: Config, s: State, tools: seq<Tool>): State {
    AfterSchema(if Lists(tools, CONTROL_TOOL) then s.(controlLeaked := true) else s, TargetSchema(c, tools))
  }

  /** A listing that has no single controlled target raises before anything else is recorded. */
  function AfterSchema(s: State, schema: Option<string>): State {
    if schema.None? then s
    else if s.seen.initial.None? then
      s.(seen := s.seen.(initial := schema), at := s.at.(initialList := Some(s.ordinal)), ordinal := s.ordinal + 1)
    else if s.at.cacheInvalidation.Some? && s.at.recoveryCall.None? then
      var t := s.(postInvalidationLists := s.postInvalidationLists + 1);
      if t.seen.refreshed.None? then
        t.(seen := t.seen.(refreshed := schema), at := t.at.(refreshedList := Some(t.ordinal)), ordinal :=
            t.ordinal + 1)
      else t
    else s
  }

  /** The first call of the target, from its control request on. */
  function AfterStaleCall(c: Config, s: State, arguments: Option<string>, r: Replies): State {
    if r.control.Raised? then s
    else
      var failed := r.control.value.isError || r.control.value.text != Some(EXPECTED_CONTROL_RESULT);
      var t := s.(controlFailed := failed);
      if failed then AfterStaleResult(t, arguments, r)
      else
        var u := t.(at := t.at.(schemaSwap := Some(t.ordinal)), ordinal := t.ordinal + 1);
        if r.cached.Raised? || TargetSchema(c, r.cached.value).None? then u
        else
          AfterStaleResult(u.(seen := u.seen.(cached := TargetSchema(c, r.cached.value)),
                              at := u.at.(cachedList := Some(u.ordinal)), ordinal := u.ordinal + 1), arguments, r)
  }

  function AfterStaleResult(s: State, arguments: Option<string>, r: Replies): State {
    var t := s.(stale := s.stale.(arguments := arguments));
    if r.result.Raised? then t
    else
      var u := t.(stale := Attempt(t.stale.tool, arguments, Some(r.result.value.isError), r.result.value.text),
                  at := t.at.(staleCall := Some(t.ordinal)), ordinal := t.ordinal + 1);
      if !r.invalidated then u
      else u.(at := u.at.(cacheInvalidation := Some(u.ordinal)), ordinal := u.ordinal + 1)
  }

  function AfterRecoveryCall(s: State, arguments: Option<string>, r: Replies): State {
    var t := s.(recovery := s.recovery.(arguments := arguments),
                recoveryBeforeRefresh := s.recoveryBeforeRefresh || s.at.refreshedList.None?);
    if r.result.Raised? then t
    else
      t.(recovery := Attempt(t.recovery.tool, arguments, Some(r.result.value.isError), r.result.value.text),
         at := t.at.(recoveryCall := Some(t.ordinal)), ordinal := t.ordinal + 1)
  }

  function AfterCall(c: Config, s: State, name: string, arguments: Option<string>, r: Replies): State {
    if name != c.target then s
    else
      var t := s.(targetCalls := s.targetCalls + 1);
      if t.targetCalls == 1 then AfterStaleCall(c, t, arguments, r)
      else if t.targetCalls == 2 then AfterRecoveryCall(t, arguments, r)
      else t
  }

  predicate Swapped(control: CallResult) {
    !control.isError && control.text == Some(EXPECTED_CONTROL_RESULT)
  }

  /** A request around the first call of the target raised: the control request, the cached listing that follows a
      sound one or the search for the target in it, or the invalidation of the cache after the answer. */
  predicate Interrupted(c: Config, r: Replies) {
    || r.control.Raised?
    || (Swapped(r.control.value) && (r.cached.Raised? || TargetSchema(c, r.cached.value).None?))
    || (r.result.Returned? && !r.invalidated)
  }

  function Step(c: Config, s: State, e: Callback): State {
    match e
    case ListTools(Raised) => s
    case ListTools(Returned(tools)) => AfterList(c, s, tools)
    case CallTool(name, arguments, replies) => AfterCall(c, s, name, arguments, replies)
  }

  function Run(c: Config, history: seq<Callback>): State {
    if history == [] then START
    else Step(c, Run(c, history[..|history| - 1]), history[|history| - 1])
  }

  /** require_complete_relation */
  predicate Complete(s: State) {
    && !s.controlLeaked && s.seen.initial.Some? && s.targetCalls != 0
    && !s.controlFailed && s.at.schemaSwap.Some?
    && s.targetCalls != 1 && s.targetCalls == 2 && s.seen.cached.Some?
    && s.stale.isError == Some(true) && s.stale.text.Some? && s.stale.text != Some("")
    && !s.recoveryBeforeRefresh
    && s.postInvalidationLists != 0 && s.seen.refreshed.Some?
    && s.recovery.isError == Some(false) && s.recovery.text == Some(EXPECTED_RECOVERY_TEXT)
  }

  // ---------------------------------------------------------------- the recorder

  class Recorder {
    const config: Config
    var ordinal: nat
    var targetCalls: nat
    var postInvalidationLists: nat
    var controlFailed: bool
    var controlLeaked: bool
    var recoveryBeforeRefresh: bool
    var seen: Seen
    var stale: Attempt
    var recovery: Attempt
    var at: Chronology
    /** Every callback so far. */
    ghost var history: seq<Callback>

    function View(): State
      reads this
    {
      State(ordinal, targetCalls, postInvalidationLists, controlFailed, controlLeaked, recoveryBeforeRefresh,
            seen, stale, recovery, at)
    }

    ghost predicate Valid()
      reads this
    {
      View() == Run(config, history)
    }

    constructor (config: Config)
      ensures Valid() && this.config == config && history == []
    {
      this.config := config;
      ordinal, targetCalls, postInvalidationLists := 0, 0, 0;
      controlFailed, controlLeaked, recoveryBeforeRefresh := false, false, false;
      seen, stale, recovery, at := NOTHING_SEEN, NO_ATTEMPT, NO_ATTEMPT, NO_ORDINALS;
      history := [];
    }

    method Mark() returns (value: nat)
      modifies this`ordinal
      ensures value == old(ordinal) && ordinal == old(ordinal) + 1
    {
      value := ordinal;
      ordinal := ordinal + 1;
    }

    method ListTools(listing: Reply<seq<Tool>>) returns (tools: Reply<seq<Tool>>)
      requires Valid()
      modifies this
      ensures Valid() && history == old(history) + [Callback.ListTools(listing)]
      ensures tools == if listing.Returned? && TargetSchema(config, listing.value).Some? then listing else Raised
    {
      if listing.Returned? {
        RecordListing(listing.value);
      }
      history := history + [Callback.ListTools(listing)];
      tools := if listing.Returned? && TargetSchema(config, listing.value).Some? then listing else Raised;
    }

    method RecordListing(tools: seq<Tool>)
      modifies this
      ensures View() == AfterList(config, old(View()), tools) && history == old(history)
    {
      if Lists(tools, CONTROL_TOOL) {
        controlLeaked := true;
      }
      var schema := TargetSchema(config, tools);
      if schema.None? {
        return;
      }
      if seen.initial.None? {
        seen := seen.(initial := schema);
        var mark := Mark();
        at := at.(initialList := Some(mark));
      } else if at.cacheInvalidation.Some? && at.recoveryCall.None? {
        postInvalidationLists := postInvalidationLists + 1;
        if seen.refreshed.None? {
          seen := seen.(refreshed := schema);
          var mark := Mark();
          at := at.(refreshedList := Some(mark));
        }
      }
    }

    method CallTool(name: string, arguments: Option<string>, replies: Replies) returns (result: Reply<CallResult>)
      requires Valid()
      modifies this
      ensures Valid() && history == old(history) + [Callback.CallTool(name, arguments, replies)]
      // The caller gets the answer to the call, unless the first call of the target was interrupted.
      ensures result == if old(targetCalls) == 0 && name == config.target && Interrupted(config, replies) then Raised
                        else replies.result
    {
      history := history + [Callback.CallTool(name, arguments, replies)];
      if name != config.target {
        return replies.result;
      }
      targetCalls := targetCalls + 1;
      if targetCalls == 1 {
        result := FirstCall(arguments, replies);
        return;
      }
      if targetCalls == 2 {
        result := SecondCall(arguments, replies);
        return;
      }
      result := replies.result;
    }

    /** The control request and the cached listing, then the stale call. */
    method FirstCall(arguments: Option<string>, replies: Replies) returns (result: Reply<CallResult>)
      modifies this
      ensures View() == AfterStaleCall(config, old(View()), arguments, replies) && history == old(history)
      ensures result == if Interrupted(config, replies) then Raised else replies.result
    {
      if replies.control.Raised? {
        return Raised;
      }
      controlFailed := replies.control.value.isError || replies.control.value.text != Some(EXPECTED_CONTROL_RESULT);
      if !controlFailed {
        var swapped := Mark();
        at := at.(schemaSwap := Some(swapped));
        if replies.cached.Raised? || TargetSchema(config, replies.cached.value).None? {
          return Raised;
        }
        seen := seen.(cached := TargetSchema(config, replies.cached.value));
        var cached := Mark();
        at := at.(cachedList := Some(cached));
      }
      result := StaleResult(arguments, replies);
    }

    /** The stale call and the invalidation of the cache. */
    method StaleResult(arguments: Option<string>, replies: Replies) returns (result: Reply<CallResult>)
      modifies this
      ensures View() == AfterStaleResult(old(View()), arguments, replies) && history == old(history)
      ensures result == if replies.result.Returned? && !replies.invalidated then Raised else replies.result
    {
      stale := stale.(arguments := arguments);
      if replies.result.Raised? {
        return Raised;
      }
      stale := stale.(isError := Some(replies.result.value.isError), text := replies.result.value.text);
      var called := Mark();
      at := at.(staleCall := Some(called));
      if !replies.invalidated {
        return Raised;
      }
      var mark := Mark();
      at := at.(cacheInvalidation := Some(mark));
      result := replies.result;
    }

    method SecondCall(arguments: Option<string>, replies: Replies) returns (result: Reply<CallResult>)
      modifies this
      ensures View() == AfterRecoveryCall(old(View()), arguments, replies) && history == old(history)
      ensures result == replies.result
    {
      recovery := recovery.(arguments := arguments);
      if at.refreshedList.None? {
        recoveryBeforeRefresh := true;
      }
      if replies.result.Raised? {
        return Raised;
      }
      recovery := recovery.(isError := Some(replies.result.value.isError), text := replies.result.value.text);
      var mark := Mark();
      at := at.(recoveryCall := Some(mark));
      result := replies.result;
    }

    /** require_complete_relation: acceptance fixes the whole chronology exactly when the first discovery came
        before the first controlled call. */
    method RequireCompleteRelation() returns (accepted: bool)
      requires Valid()
      ensures accepted <==> Complete(View())
      ensures accepted ==> (FullChronology(View()) <==> DiscoveryFirst(config, history))
    {
      accepted := Complete(View());
      if accepted {
        CompleteChronology(config, history);
      }
    }
  }

  // ---------------------------------------------------------------- chronology

  /** Discovery, swap, cached listing, stale call, invalidation, refreshed listing, recovery call. */
  predicate FullChronology(s: State) {
    && s.at.initialList == Some(0) && s.at.schemaSwap == Some(1) && s.at.cachedList == Some(2)
       && s.at.staleCall == Some(3)
    && s.at.cacheInvalidation == Some(4) && s.at.refreshedList == Some(5) && s.at.recoveryCall == Some(6)
  }

  predicate Discovers(c: Config, e: Callback) {
    e.ListTools? && e.listing.Returned? && TargetSchema(c, e.listing.value).Some?
  }

  predicate CallsControlled(c: Config, e: Callback) {
    e.CallTool? && e.name == c.target
  }

  predicate Uncalled(c: Config, history: seq<Callback>) {
    forall i | 0 <= i < |history| :: !CallsControlled(c, history[i])
  }

  /** The first listing of the target came before the first controlled call. */
  predicate DiscoveryFirst(c: Config, history: seq<Callback>) {
    exists i | 0 <= i < |history| :: Discovers(c, history[i]) && Uncalled(c, history[..i])
  }

  lemma DiscoveryFirstSnoc(c: Config, history: seq<Callback>, e: Callback)
    ensures Uncalled(c, history + [e]) <==> Uncalled(c, history) && !CallsControlled(c, e)
    ensures DiscoveryFirst(c, history + [e])
        <==> DiscoveryFirst(c, history) || (Discovers(c, e) && Uncalled(c, history))
  {
    var longer := history + [e];
    assert longer[|history|] == e && longer[..|history|] == history;
    assert forall i | 0 <= i < |history| :: longer[i] == history[i] && longer[..i] == history[..i];
    if Uncalled(c, longer) {
      assert forall i | 0 <= i < |history| :: !CallsControlled(c, longer[i]);
    }
  }

  /** Nothing of the controlled exchange has been recorded. */
  predicate Untouched(s: State) {
    && s.at.schemaSwap.None? && s.at.cachedList.None? && s.seen.cached.None? && s.at.staleCall.None?
       && s.stale.isError.None?
    && s.at.cacheInvalidation.None? && s.at.refreshedList.None? && s.seen.refreshed.None? && s.at.recoveryCall.None?
    && s.recovery.isError.None? && !s.recoveryBeforeRefresh && s.postInvalidationLists == 0
  }

  /** The stale exchange ran to the end: the swap, the cached listing and the stale call were all recorded. */
  predicate Exchanged(s: State) {
    s.at.schemaSwap.Some? && s.seen.cached.Some? && s.stale.isError.Some?
  }

  /** The recovery part of the chronology, once the cache was invalidated at ordinal 4. */
  predicate Recovering(s: State) {
    || (s.at.refreshedList.None? && s.at.recoveryCall.None? && s.ordinal == 5 && s.targetCalls == 1)
    || (s.at.refreshedList == Some(5) && s.at.recoveryCall.None? && s.ordinal == 6 && s.recovery.isError.None?)
    || (s.at.refreshedList == Some(5) && s.at.recoveryCall == Some(6) && s.targetCalls >= 2)
    || s.recoveryBeforeRefresh
  }

  ghost predicate Recorded(s: State, early: bool) {
    && (s.at.refreshedList.Some? <==> s.seen.refreshed.Some?)
       && (s.at.refreshedList.Some? ==> s.at.cacheInvalidation.Some?)
    && (s.recovery.isError.Some? ==> s.at.recoveryCall.Some?)
    && (s.targetCalls == 0 ==> Untouched(s) && s.ordinal == (if s.at.initialList.Some? then 1 else 0))
    && (s.targetCalls == 1 ==> s.at.recoveryCall.None? && !s.recoveryBeforeRefresh)
    && (s.targetCalls > 0 && early && Exchanged(s) ==>
          && s.at.initialList == Some(0) && s.at.schemaSwap == Some(1) && s.at.cachedList == Some(2)
             && s.at.staleCall == Some(3)
          && (s.at.cacheInvalidation.Some? ==> s.at.cacheInvalidation == Some(4) && Recovering(s)))
    && (s.targetCalls > 0 && !early && s.at.schemaSwap.Some? ==> s.at.schemaSwap == Some(0))
  }

  lemma SchemaKeeps(s: State, schema: Option<string>, early: bool)
    requires Recorded(s, early) && (s.targetCalls > 0 && early ==> s.seen.initial.Some?)
    requires s.at.initialList.Some? <==> s.seen.initial.Some?
    ensures Recorded(AfterSchema(s, schema), early)
  {
  }

  lemma LeakKeeps(s: State, early: bool)
    requires Recorded(s, early)
    ensures Recorded(s.(controlLeaked := true), early)
  {
  }

  lemma ListKeeps(c: Config, s: State, tools: seq<Tool>, early: bool)
    requires Recorded(s, early) && (s.targetCalls > 0 && early ==> s.seen.initial.Some?)
    requires s.at.initialList.Some? <==> s.seen.initial.Some?
    ensures Recorded(AfterList(c, s, tools), early)
  {
    LeakKeeps(s, early);
    SchemaKeeps(if Lists(tools, CONTROL_TOOL) then s.(controlLeaked := true) else s, TargetSchema(c, tools), early);
  }

  lemma StaleCallKeeps(c: Config, s: State, arguments: Option<string>, r: Replies)
    requires Recorded(s, s.at.initialList.Some?) && s.targetCalls == 0
        && (s.at.initialList.Some? ==> s.at.initialList == Some(0))
    ensures Recorded(AfterStaleCall(c, s.(targetCalls := 1), arguments, r), s.at.initialList.Some?)
  {
  }

  lemma RecoveryCallKeeps(s: State, arguments: Option<string>, r: Replies, early: bool)
    requires Recorded(s, early) && s.targetCalls == 1
    ensures Recorded(AfterRecoveryCall(s.(targetCalls := 2), arguments, r), early)
  {
  }

  lemma OtherCallKeeps(s: State, early: bool)
    requires Recorded(s, early) && s.targetCalls >= 2
    ensures Recorded(s.(targetCalls := s.targetCalls + 1), early)
  {
  }

  lemma CallKeeps(c: Config, s: State, name: string, arguments: Option<string>, r: Replies, early: bool)
    requires Recorded(s, early) && (s.targetCalls == 0 ==> early == s.at.initialList.Some?)
    requires s.targetCalls == 0 && s.at.initialList.Some? ==> s.at.initialList == Some(0)
    ensures Recorded(AfterCall(c, s, name, arguments, r), early)
  {
    if name == c.target {
      if s.targetCalls == 0 {
        StaleCallKeeps(c, s, arguments, r);
      } else if s.targetCalls == 1 {
        RecoveryCallKeeps(s, arguments, r, early);
      } else {
        OtherCallKeeps(s, early);
      }
    }
  }

  lemma SchemaCounts(s: State, schema: Option<string>)
    ensures var t := AfterSchema(s, schema);
            && (s.seen.initial.Some? || schema.None?
               ==> t.at.initialList == s.at.initialList && t.seen.initial == s.seen.initial)
            && (s.seen.initial.None? && schema.Some?
               ==> t.at.initialList == Some(s.ordinal) && t.seen.initial == schema)
            && t.targetCalls == s.targetCalls
  {
  }

  /** The same first discovery and the same number of controlled calls. */
  predicate SameCounts(s: State, t: State) {
    t.at.initialList == s.at.initialList && t.seen.initial == s.seen.initial && t.targetCalls == s.targetCalls
  }

  lemma StaleCallCounts(c: Config, s: State, arguments: Option<string>, r: Replies)
    ensures SameCounts(s, AfterStaleCall(c, s, arguments, r))
  {
  }

  lemma CallCounts(c: Config, s: State, name: string, arguments: Option<string>, r: Replies)
    ensures var t := AfterCall(c, s, name, arguments, r);
            && t.at.initialList == s.at.initialList && t.seen.initial == s.seen.initial
            && t.targetCalls == s.targetCalls + (if name == c.target then 1 else 0)
  {
    StaleCallCounts(c, s.(targetCalls := s.targetCalls + 1), arguments, r);
  }

  /** Which callbacks can change the first discovery and the number of controlled calls. */
  lemma StepCounts(c: Config, s: State, e: Callback)
    ensures var t := Step(c, s, e);
            && (s.seen.initial.Some? ==> t.at.initialList == s.at.initialList && t.seen.initial.Some?)
            && (s.seen.initial.None? && !Discovers(c, e)
               ==> t.at.initialList == s.at.initialList && t.seen.initial.None?)
            && (s.seen.initial.None? && Discovers(c, e) ==> t.at.initialList == Some(s.ordinal) && t.seen.initial.Some?)
            && t.targetCalls == s.targetCalls + (if CallsControlled(c, e) then 1 else 0)
  {
    match e
    case ListTools(Raised) =>
    case ListTools(Returned(tools)) =>
      SchemaCounts(if Lists(tools, CONTROL_TOOL) then s.(controlLeaked := true) else s, TargetSchema(c, tools));
    case CallTool(name, arguments, r) => CallCounts(c, s, name, arguments, r);
  }

  lemma StepRecords(c: Config, s: State, e: Callback, early: bool)
    requires Recorded(s, early) && (s.at.initialList.Some? <==> s.seen.initial.Some?)
    requires s.targetCalls == 0 ==> early == s.at.initialList.Some?
    requires early ==> s.at.initialList == Some(0)
    requires e.CallTool?
    ensures Recorded(Step(c, s, e), early)
  {
    CallKeeps(c, s, e.name, e.arguments, e.replies, early);
  }

  /** What every run records. */
  ghost predicate Known(s: State, early: bool, uncalled: bool) {
    && Recorded(s, early)
    && (s.at.initialList.Some? <==> s.seen.initial.Some?)
    && (s.targetCalls == 0 <==> uncalled)
    && (s.targetCalls == 0 ==> early == s.at.initialList.Some?)
    && (early ==> s.at.initialList == Some(0))
  }

  lemma ListingKnown(c: Config, s: State, e: Callback, early: bool, uncalled: bool)
    requires Known(s, early, uncalled) && Discovers(c, e)
    ensures Known(Step(c, s, e), early || uncalled, uncalled)
  {
    StepCounts(c, s, e);
    if uncalled {
      FirstListing(c, s, e.listing.value, early);
    } else {
      ListKeeps(c, s, e.listing.value, early);
    }
  }

  lemma FirstListing(c: Config, s: State, tools: seq<Tool>, early: bool)
    requires Recorded(s, early) && s.targetCalls == 0 && (s.at.initialList.Some? <==> s.seen.initial.Some?)
    ensures Recorded(AfterList(c, s, tools), true)
  {
    assert Recorded(s, true);
    ListKeeps(c, s, tools, true);
  }

  lemma CallKnown(c: Config, s: State, e: Callback, early: bool, uncalled: bool)
    requires Known(s, early, uncalled) && e.CallTool?
    ensures Known(Step(c, s, e), early, uncalled && !CallsControlled(c, e))
  {
    StepCounts(c, s, e);
    StepRecords(c, s, e, early);
  }

  lemma OtherKnown(c: Config, s: State, e: Callback, early: bool, uncalled: bool)
    requires Known(s, early, uncalled) && !e.CallTool? && !Discovers(c, e)
    ensures Known(Step(c, s, e), early, uncalled)
  {
  }

  lemma {:induction false} RunRecords(c: Config, history: seq<Callback>)
    ensures Known(Run(c, history), DiscoveryFirst(c, history), Uncalled(c, history))
  {
    if history != [] {
      var n := |history| - 1;
      var before, e := history[..n], history[n];
      assert history == before + [e];
      RunRecords(c, before);
      DiscoveryFirstSnoc(c, before, e);
      var s, early, uncalled := Run(c, before), DiscoveryFirst(c, before), Uncalled(c, before);
      if e.CallTool? {
        CallKnown(c, s, e, early, uncalled);
      } else if Discovers(c, e) {
        ListingKnown(c, s, e, early, uncalled);
      } else {
        OtherKnown(c, s, e, early, uncalled);
      }
    }
  }

  /** In every run that is accepted the ordinals are exactly 0 to 6, if and only if the first discovery preceded
      the first controlled call. */
  lemma CompleteChronology(c: Config, history: seq<Callback>)
    requires Complete(Run(c, history))
    ensures FullChronology(Run(c, history)) <==> DiscoveryFirst(c, history)
  {
    RunRecords(c, history);
  }

  // ---------------------------------------------------------------- a late discovery is accepted all the same

  lemma RunPrefix(c: Config, h: seq<Callback>, i: nat)
    requires i < |h|
    ensures Run(c, h[..i + 1]) == Step(c, Run(c, h[..i]), h[i])
  {
    assert h[..i + 1][..i] == h[..i];
  }

  function Listing(c: Config, schema: string): seq<Tool> { [Tool(Some(c.target), Some(schema))] }

  lemma ListingSchema(c: Config, schema: string)
    requires c.target != CONTROL_TOOL
    ensures TargetSchema(c, Listing(c, schema)) == Some(schema) && !Lists(Listing(c, schema), CONTROL_TOOL)
  {
    FilterOne((t: Tool) => t.name == Some(c.target), Listing(c, schema), 0);
  }

  function StaleReplies(c: Config, schema: string, rejection: string): Replies {
    Replies(Returned(CallResult(false, Some(EXPECTED_CONTROL_RESULT))), Returned(Listing(c, schema)),
            Returned(CallResult(true, Some(rejection))), true)
  }

  function RecoveryReplies(): Replies {
    Replies(Raised, Raised, Returned(CallResult(false, Some(EXPECTED_RECOVERY_TEXT))), false)
  }

  /** The stale call first, the first discovery after it. */
  function LateDiscovery(c: Config, v1: string, v2: string, rejection: string): seq<Callback> {
    [CallTool(c.target, None, StaleReplies(c, v1, rejection)), ListTools(Returned(Listing(c, v1))),
     ListTools(Returned(Listing(c, v2))), CallTool(c.target, None, RecoveryReplies())]
  }

  /** The state after the stale call and the first i of the three later callbacks of LateDiscovery. */
  function LateState(v1: string, v2: string, rejection: string, i: nat): State {
    State(if i >= 3 then 7 else 4 + i, if i >= 3 then 2 else 1, if i >= 2 then 1 else 0, false, false, false,
          Seen(if i >= 1 then Some(v1) else None, Some(v1), if i >= 2 then Some(v2) else None),
          Attempt(None, None, Some(true), Some(rejection)),
          if i >= 3 then Attempt(None, None, Some(false), Some(EXPECTED_RECOVERY_TEXT)) else NO_ATTEMPT,
          Chronology(if i >= 1 then Some(4) else None, Some(0), Some(1), Some(2), Some(3), if i >= 2 then Some(5)
              else None,
                     if i >= 3 then Some(6) else None))
  }

  lemma LateStep(c: Config, v1: string, v2: string, rejection: string, i: nat)
    requires c.target != CONTROL_TOOL && i < 3
    ensures Step(c, LateState(v1, v2, rejection, i), LateDiscovery(c, v1, v2, rejection)[i + 1])
        == LateState(v1, v2, rejection, i + 1)
  {
    ListingSchema(c, v1);
    ListingSchema(c, v2);
  }

  lemma {:induction false} LateRun(c: Config, v1: string, v2: string, rejection: string, i: nat)
    requires c.target != CONTROL_TOOL && i <= 3
    ensures Run(c, LateDiscovery(c, v1, v2, rejection)[..i + 1]) == LateState(v1, v2, rejection, i)
  {
    var h := LateDiscovery(c, v1, v2, rejection);
    RunPrefix(c, h, i);
    if i == 0 {
      ListingSchema(c, v1);
      assert h[..0] == [];
    } else {
      LateRun(c, v1, v2, rejection, i - 1);
      LateStep(c, v1, v2, rejection, i - 1);
    }
  }

  /** require_complete_relation alone does not exclude a first discovery after the stale call. */
  lemma LateDiscoveryIsAccepted(c: Config, v1: string, v2: string, rejection: string)
    requires c.target != CONTROL_TOOL && rejection != ""
    ensures Complete(Run(c, LateDiscovery(c, v1, v2, rejection)))
    ensures !FullChronology(Run(c, LateDiscovery(c, v1, v2, rejection)))
  {
    LateRun(c, v1, v2, rejection, 3);
    assert LateDiscovery(c, v1, v2, rejection)[..4] == LateDiscovery(c, v1, v2, rejection);
  }
}
