/** The stale-cache recorder (adapters/openai_mcp_tool_stale_cache.py:121-408). Callbacks run one at a time; the
    server's and the model's replies are arbitrary. */
module McpStaleCache {
  import opened Wrappers
  import opened McpReplies
  import opened Sequences

  const CONTROL_TOOL := "__agent_evals_remove_target__"
  const EXPECTED_CONTROL_RESULT := "target-removed"

  /** `unknownTool` is the case-insensitive search for "unknown tool". */
  datatype Config = Config(target: string, unknownTool: string -> bool)

  /** The call identity and text of the one rejection that a model input shows. */
  datatype Rejection = Rejection(callId: string, text: string)

  datatype Callback =
    | ListTools(listing: Reply<seq<Tool>>)
    | ObserveModelBoundary(tools: seq<Tool>, visible: Reply<Rejection>)
    | CallTool(name: string, arguments: Option<string>, replies: Replies)

  /** The first-seen target names at the protocol and at the model. */
  datatype Seen = Seen(
    initialProtocol: Option<seq<string>>, cachedProtocol: Option<seq<string>>, refreshedProtocol: Option<seq<string>>,
    initialModel: Option<seq<string>>, refreshedModel: Option<seq<string>>)

  datatype Chronology = Chronology(
    initialList: Option<nat>, removal: Option<nat>, cachedList: Option<nat>, staleCall: Option<nat>,
    cacheInvalidation: Option<nat>, refreshedList: Option<nat>)

  datatype State = State(
    ordinal: nat, targetCalls: nat, postInvalidationLists: nat, controlFailed: bool, controlLeaked: bool,
    seen: Seen, stale: Attempt, modelError: Option<Rejection>, at: Chronology)

  const NOTHING_SEEN := Seen(None, None, None, None, None)
  const NO_ORDINALS := Chronology(None, None, None, None, None, None)
  const START := State(0, 0, 0, false, false, NOTHING_SEEN, NO_ATTEMPT, None, NO_ORDINALS)

  // ---------------------------------------------------------------- one callback

  function AfterList(c: Config, s: State, tools: seq<Tool>): State {
    var t := if Lists(tools, CONTROL_TOOL) then s.(controlLeaked := true) else s;
    var names := NamesOf(tools, c.target);
    if t.seen.initialProtocol.None? then
      t.(seen := t.seen.(initialProtocol := Some(names)), at := t.at.(initialList := Some(t.ordinal)), ordinal :=
          t.ordinal + 1)
    else if t.at.cacheInvalidation.Some? then
      var u := t.(postInvalidationLists := t.postInvalidationLists + 1);
      if u.seen.refreshedProtocol.None? then
        u.(seen := u.seen.(refreshedProtocol := Some(names)), at :=
            u.at.(refreshedList := Some(u.ordinal)), ordinal := u.ordinal + 1)
      else u
    else t
  }

  /** The names are recorded before the input is searched, so a refused input leaves them recorded. */
  function AfterModel(c: Config, s: State, tools: seq<Tool>, visible: Reply<Rejection>): State {
    var names := NamesOf(tools, c.target);
    if s.seen.initialModel.None? then s.(seen := s.seen.(initialModel := Some(names)))
    else if s.at.refreshedList.None? || s.seen.refreshedModel.Some? then s
    else
      var t := s.(seen := s.seen.(refreshedModel := Some(names)));
      if visible.Raised? then t else t.(modelError := Some(visible.value))
  }

  function AfterStaleCall(c: Config, s: State, arguments: Option<string>, r: Replies): State {
    if r.control.Raised? then s
    else
      var failed := r.control.value.isError || r.control.value.text != Some(EXPECTED_CONTROL_RESULT);
      var t := s.(controlFailed := failed);
      var u := if failed then t else t.(at := t.at.(removal := Some(t.ordinal)), ordinal := t.ordinal + 1);
      if r.cached.Raised? then u
      else
        AfterStaleResult(u.(seen := u.seen.(cachedProtocol := Some(NamesOf(r.cached.value, c.target))),
                            at := u.at.(cachedList := Some(u.ordinal)), ordinal := u.ordinal + 1), arguments, r)
  }

  function AfterStaleResult(s: State, arguments: Option<string>, r: Replies): State {
    var t := s.(stale := s.stale.(arguments := arguments));
    if r.result.Raised? then t
    else
      var u := t.(stale := Attempt(t.stale.tool, arguments, Some(r.result.value.isError), r.result.value.text),
                  at := t.at.(staleCall := Some(t.ordinal)), ordinal := t.ordinal + 1);
      if !r.invalidated then u
      else u.(at := u.at.(cacheInvalidation := Some(u.ordinal)), ordinal := u.ordinal + 1)
  }

  function AfterCall(c: Config, s: State, name: string, arguments: Option<string>, r: Replies): State {
    if name != c.target then s
    else
      var t := s.(targetCalls := s.targetCalls + 1);
      if t.targetCalls != 1 then t else AfterStaleCall(c, t, arguments, r)
  }

  /** A request around the first call of the target raised: the control request, the cached listing, or the
      invalidation of the cache after the answer. */
  predicate Interrupted(r: Replies) {
    r.control.Raised? || r.cached.Raised? || (r.result.Returned? && !r.invalidated)
  }

  function Step(c: Config, s: State, e: Callback): State {
    match e
    case ListTools(Raised) => s
    case ListTools(Returned(tools)) => AfterList(c, s, tools)
    case ObserveModelBoundary(tools, visible) => AfterModel(c, s, tools, visible)
    case CallTool(name, arguments, replies) => AfterCall(c, s, name, arguments, replies)
  }

  function Run(c: Config, history: seq<Callback>): State {
    if history == [] then START
    else Step(c, Run(c, history[..|history| - 1]), history[|history| - 1])
  }

  /** require_complete_relation */
  predicate Complete(c: Config, s: State) {
    && !s.controlLeaked
    && s.seen.initialProtocol == Some([c.target]) && s.seen.initialModel == Some([c.target])
    && s.targetCalls != 0 && s.targetCalls == 1
    && !s.controlFailed && s.at.removal.Some?
    && s.seen.cachedProtocol == Some([c.target])
    && s.stale.isError == Some(true) && s.stale.text.Some? && s.stale.text != Some("")
       && c.unknownTool(s.stale.text.value)
    && s.postInvalidationLists != 0 && s.seen.refreshedProtocol == Some([])
    && s.seen.refreshedModel == Some([])
    && s.modelError.Some? && Some(s.modelError.value.text) == s.stale.text
  }

  // ---------------------------------------------------------------- the recorder

  class Recorder {
    const config: Config
    var ordinal: nat
    var targetCalls: nat
    var postInvalidationLists: nat
    var controlFailed: bool
    var controlLeaked: bool
    var seen: Seen
    var stale: Attempt
    var modelError: Option<Rejection>
    var at: Chronology
    /** Every callback so far. */
    ghost var history: seq<Callback>

    function View(): State
      reads this
    {
      State(ordinal, targetCalls, postInvalidationLists, controlFailed, controlLeaked, seen, stale, modelError, at)
    }

    ghost predicate Valid()
      reads this
    {
      View() == Run(config, history)
    }

    constructor (config: Config)
      ensures Valid() && this.config == config && history == []
    {
      this.config := config;
      ordinal, targetCalls, postInvalidationLists, controlFailed, controlLeaked := 0, 0, 0, false, false;
      seen, stale, modelError, at := NOTHING_SEEN, NO_ATTEMPT, None, NO_ORDINALS;
      history := [];
    }

    method Mark() returns (value: nat)
      modifies this`ordinal
      ensures value == old(ordinal) && ordinal == old(ordinal) + 1
    {
      value := ordinal;
      ordinal := ordinal + 1;
    }

    method ListTools(listing: Reply<seq<Tool>>) returns (tools: Reply<seq<Tool>>)
      requires Valid()
      modifies this
      ensures Valid() && history == old(history) + [Callback.ListTools(listing)] && tools == listing
    {
      if listing.Returned? {
        RecordListing(listing.value);
      }
      history := history + [Callback.ListTools(listing)];
      tools := listing;
    }

    method RecordListing(tools: seq<Tool>)
      modifies this
      ensures View() == AfterList(config, old(View()), tools) && history == old(history)
    {
      if Lists(tools, CONTROL_TOOL) {
        controlLeaked := true;
      }
      var controlled := NamesOf(tools, config.target);
      if seen.initialProtocol.None? {
        seen := seen.(initialProtocol := Some(controlled));
        var mark := Mark();
        at := at.(initialList := Some(mark));
      } else if at.cacheInvalidation.Some? {
        postInvalidationLists := postInvalidationLists + 1;
        if seen.refreshedProtocol.None? {
          seen := seen.(refreshedProtocol := Some(controlled));
          var mark := Mark();
          at := at.(refreshedList := Some(mark));
        }
      }
    }

    method ObserveModelBoundary(tools: seq<Tool>, visible: Reply<Rejection>) returns (raised: bool)
      requires Valid()
      modifies this
      ensures Valid() && history == old(history) + [Callback.ObserveModelBoundary(tools, visible)]
      ensures raised <==>
                && visible.Raised? && old(seen.initialModel).Some? && old(at.refreshedList).Some?
                && old(seen.refreshedModel).None?
    {
      history := history + [Callback.ObserveModelBoundary(tools, visible)];
      raised := false;
      var controlled := NamesOf(tools, config.target);
      if seen.initialModel.None? {
        seen := seen.(initialModel := Some(controlled));
        return;
      }
      if at.refreshedList.None? || seen.refreshedModel.Some? {
        return;
      }
      seen := seen.(refreshedModel := Some(controlled));
      if visible.Raised? {
        return true;
      }
      modelError := Some(visible.value);
    }

    method CallTool(name: string, arguments: Option<string>, replies: Replies) returns (result: Reply<CallResult>)
      requires Valid()
      modifies this
      ensures Valid() && history == old(history) + [Callback.CallTool(name, arguments, replies)]
      // The caller gets the answer to the call, unless the first call of the target was interrupted.
      ensures result == if old(targetCalls) == 0 && name == config.target && Interrupted(replies) then Raised
                        else replies.result
    {
      history := history + [Callback.CallTool(name, arguments, replies)];
      if name != config.target {
        return replies.result;
      }
      targetCalls := targetCalls + 1;
      if targetCalls != 1 {
        return replies.result;
      }
      result := FirstCall(arguments, replies);
    }

    /** The control request and the cached listing, then the stale call. */
    method FirstCall(arguments: Option<string>, replies: Replies) returns (result: Reply<CallResult>)
      modifies this
      ensures View() == AfterStaleCall(config, old(View()), arguments, replies) && history == old(history)
      ensures result == if Interrupted(replies) then Raised else replies.result
    {
      if replies.control.Raised? {
        return Raised;
      }
      controlFailed := replies.control.value.isError || replies.control.value.text != Some(EXPECTED_CONTROL_RESULT);
      if !controlFailed {
        var removed := Mark();
        at := at.(removal := Some(removed));
      }
      if replies.cached.Raised? {
        return Raised;
      }
      seen := seen.(cachedProtocol := Some(NamesOf(replies.cached.value, config.target)));
      var cached := Mark();
      at := at.(cachedList := Some(cached));
      result := StaleResult(arguments, replies);
    }

    /** The stale call and the invalidation of the cache. */
    method StaleResult(arguments: Option<string>, replies: Replies) returns (result: Reply<CallResult>)
      modifies this
      ensures View() == AfterStaleResult(old(View()), arguments, replies) && history == old(history)
      ensures result == if replies.result.Returned? && !replies.invalidated then Raised else replies.result
    {
      stale := stale.(arguments := arguments);
      if replies.result.Raised? {
        return Raised;
      }
      stale := stale.(isError := Some(replies.result.value.isError), text := replies.result.value.text);
      var called := Mark();
      at := at.(staleCall := Some(called));
      if !replies.invalidated {
        return Raised;
      }
      var mark := Mark();
      at := at.(cacheInvalidation := Some(mark));
      result := replies.result;
    }

    /** require_complete_relation: acceptance fixes the whole chronology exactly when the first discovery came
        before the first call of the target. */
    method RequireCompleteRelation() returns (accepted: bool)
      requires Valid()
      ensures accepted <==> Complete(config, View())
      ensures accepted ==> (FullChronology(View()) <==> DiscoveryFirst(config, history))
    {
      accepted := Complete(config, View());
      if accepted {
        CompleteChronology(config, history);
      }
    }
  }

  // ---------------------------------------------------------------- chronology

  /** Discovery, removal, cached listing, stale call, invalidation, refreshed listing. */
  predicate FullChronology(s: State) {
    && s.at.initialList == Some(0) && s.at.removal == Some(1) && s.at.cachedList == Some(2) && s.at.staleCall == Some(3)
    && s.at.cacheInvalidation == Some(4) && s.at.refreshedList == Some(5)
  }

  predicate Discovers(e: Callback) {
    e.ListTools? && e.listing.Returned?
  }

  predicate CallsControlled(c: Config, e: Callback) {
    e.CallTool? && e.name == c.target
  }

  predicate Uncalled(c: Config, history: seq<Callback>) {
    forall i | 0 <= i < |history| :: !CallsControlled(c, history[i])
  }

  /** The first successful listing came before the first call of the target. */
  predicate DiscoveryFirst(c: Config, history: seq<Callback>) {
    exists i | 0 <= i < |history| :: Discovers(history[i]) && Uncalled(c, history[..i])
  }

  lemma DiscoveryFirstSnoc(c: Config, history: seq<Callback>, e: Callback)
    ensures Uncalled(c, history + [e]) <==> Uncalled(c, history) && !CallsControlled(c, e)
    ensures DiscoveryFirst(c, history + [e]) <==> DiscoveryFirst(c, history) || (Discovers(e) && Uncalled(c, history))
  {
    var longer := history + [e];
    assert longer[|history|] == e && longer[..|history|] == history;
    assert forall i | 0 <= i < |history| :: longer[i] == history[i] && longer[..i] == history[..i];
    if Uncalled(c, longer) {
      assert forall i | 0 <= i < |history| :: !CallsControlled(c, longer[i]);
    }
  }

  /** Nothing of the controlled exchange has been recorded. */
  predicate Untouched(s: State) {
    && s.at.removal.None? && s.at.cachedList.None? && s.seen.cachedProtocol.None? && s.at.staleCall.None?
       && s.stale.isError.None?
    && s.at.cacheInvalidation.None? && s.at.refreshedList.None? && s.seen.refreshedProtocol.None?
       && s.postInvalidationLists == 0
  }

  /** The stale exchange ran to the end: the removal, the cached listing and the stale call were all recorded. */
  predicate Exchanged(s: State) {
    s.at.removal.Some? && s.seen.cachedProtocol.Some? && s.stale.isError.Some?
  }

  ghost predicate Recorded(s: State, early: bool) {
    && (s.at.refreshedList.Some? <==> s.seen.refreshedProtocol.Some?)
       && (s.at.refreshedList.Some? ==> s.at.cacheInvalidation.Some?)
    && (s.targetCalls == 0 ==> Untouched(s) && s.ordinal == (if s.at.initialList.Some? then 1 else 0))
    && (s.targetCalls > 0 && early && Exchanged(s) ==>
          && s.at.initialList == Some(0) && s.at.removal == Some(1) && s.at.cachedList == Some(2)
             && s.at.staleCall == Some(3)
          && (s.at.cacheInvalidation.Some? ==>
                s.at.cacheInvalidation == Some(4)
                    && (s.at.refreshedList == Some(5) || (s.at.refreshedList.None? && s.ordinal == 5))))
    && (s.targetCalls > 0 && !early && s.at.removal.Some? ==> s.at.removal == Some(0))
  }

  ghost predicate Known(s: State, early: bool, uncalled: bool) {
    && Recorded(s, early)
    && (s.at.initialList.Some? <==> s.seen.initialProtocol.Some?)
    && (s.targetCalls == 0 <==> uncalled)
    && (s.targetCalls == 0 ==> early == s.at.initialList.Some?)
    && (early ==> s.at.initialList == Some(0))
  }

  lemma ListKnown(c: Config, s: State, tools: seq<Tool>, early: bool, uncalled: bool)
    requires Known(s, early, uncalled)
    ensures Known(AfterList(c, s, tools), early || uncalled, uncalled)
  {
  }

  lemma StaleCallKnown(c: Config, s: State, arguments: Option<string>, r: Replies, early: bool)
    requires Known(s, early, true)
    ensures Known(AfterStaleCall(c, s.(targetCalls := 1), arguments, r), early, false)
  {
  }

  lemma CallKnown(c: Config, s: State, e: Callback, early: bool, uncalled: bool)
    requires Known(s, early, uncalled) && e.CallTool?
    ensures Known(Step(c, s, e), early, uncalled && !CallsControlled(c, e))
  {
    if e.name == c.target && s.targetCalls == 0 {
      StaleCallKnown(c, s, e.arguments, e.replies, early);
    }
  }

  lemma {:induction false} RunRecords(c: Config, history: seq<Callback>)
    ensures Known(Run(c, history), DiscoveryFirst(c, history), Uncalled(c, history))
  {
    if history != [] {
      var n := |history| - 1;
      var before, e := history[..n], history[n];
      assert history == before + [e];
      RunRecords(c, before);
      DiscoveryFirstSnoc(c, before, e);
      var s, early, uncalled := Run(c, before), DiscoveryFirst(c, before), Uncalled(c, before);
      if e.CallTool? {
        CallKnown(c, s, e, early, uncalled);
      } else if Discovers(e) {
        ListKnown(c, s, e.listing.value, early, uncalled);
      }
    }
  }

  /** In every run that is accepted the ordinals are exactly 0 to 5, if and only if the first discovery preceded
      the first call of the target. */
  lemma CompleteChronology(c: Config, history: seq<Callback>)
    requires Complete(c, Run(c, history))
    ensures FullChronology(Run(c, history)) <==> DiscoveryFirst(c, history)
  {
    RunRecords(c, history);
  }

  // ---------------------------------------------------------------- a late discovery is accepted all the same

  lemma RunPrefix(c: Config, h: seq<Callback>, i: nat)
    requires i < |h|
    ensures Run(c, h[..i + 1]) == Step(c, Run(c, h[..i]), h[i])
  {
    assert h[..i + 1][..i] == h[..i];
  }

  function Listing(c: Config): seq<Tool> { [Tool(Some(c.target), None)] }

  lemma ListingNames(c: Config)
    requires c.target != CONTROL_TOOL
    ensures NamesOf(Listing(c), c.target) == [c.target] && !Lists(Listing(c), CONTROL_TOOL)
    ensures NamesOf([], c.target) == [] && !Lists([], CONTROL_TOOL)
  {
    FilterOne((t: Tool) => t.name == Some(c.target), Listing(c), 0);
  }

  function StaleReplies(c: Config, rejection: string): Replies {
    Replies(Returned(CallResult(false, Some(EXPECTED_CONTROL_RESULT))), Returned(Listing(c)),
            Returned(CallResult(true, Some(rejection))), true)
  }

  /** The stale call first, the first discovery after it. */
  function LateDiscovery(c: Config, rejection: string): seq<Callback> {
    [CallTool(c.target, None, StaleReplies(c, rejection)), ListTools(Returned(Listing(c))),
        ObserveModelBoundary(Listing(c), Raised),
     ListTools(Returned([])), ObserveModelBoundary([], Returned(Rejection("call", rejection)))]
  }

  /** The state after the stale call and the first i of the four later callbacks of LateDiscovery. */
  function LateState(c: Config, rejection: string, i: nat): State {
    State(if i >= 3 then 6 else if i >= 1 then 5 else 4, 1, if i >= 3 then 1 else 0, false, false,
          Seen(if i >= 1 then Some([c.target]) else None, Some([c.target]), if i >= 3 then Some([]) else None,
               if i >= 2 then Some([c.target]) else None, if i >= 4 then Some([]) else None),
          Attempt(None, None, Some(true), Some(rejection)), if i >= 4 then Some(Rejection("call", rejection)) else None,
          Chronology(if i >= 1 then Some(4) else None, Some(0), Some(1), Some(2), Some(3), if i >= 3 then Some(5)
              else None))
  }

  lemma LateStep(c: Config, rejection: string, i: nat)
    requires c.target != CONTROL_TOOL && i < 4
    ensures Step(c, LateState(c, rejection, i), LateDiscovery(c, rejection)[i + 1]) == LateState(c, rejection, i + 1)
  {
    ListingNames(c);
  }

  lemma {:induction false} LateRun(c: Config, rejection: string, i: nat)
    requires c.target != CONTROL_TOOL && i <= 4
    ensures Run(c, LateDiscovery(c, rejection)[..i + 1]) == LateState(c, rejection, i)
  {
    var h := LateDiscovery(c, rejection);
    RunPrefix(c, h, i);
    if i == 0 {
      ListingNames(c);
      assert h[..0] == [];
    } else {
      LateRun(c, rejection, i - 1);
      LateStep(c, rejection, i - 1);
    }
  }

  /** require_complete_relation alone does not exclude a first discovery after the stale call. */
  lemma LateDiscoveryIsAccepted(c: Config, rejection: string)
    requires c.target != CONTROL_TOOL && rejection != "" && c.unknownTool(rejection)
    ensures Complete(c, Run(c, LateDiscovery(c, rejection)))
    ensures !FullChronology(Run(c, LateDiscovery(c, rejection)))
  {
    LateRun(c, rejection, 4);
    assert LateDiscovery(c, rejection)[..5] == LateDiscovery(c, rejection);
  }
}
