/** Graph questions about a policy's handoff grants (contracts/models.py): the validator's reachability loop
    and the search for an approval-requiring path, each against walks in the grant graph. */
module PolicyGraph {
  import opened Wrappers
  import opened Evidence
  import opened Authority

  type Walk = seq<Grant>

  function EndOf(start: string, w: Walk): string {
    if w == [] then start else w[|w| - 1].target
  }

  /** A walk follows grants of the policy hop by hop from its starting agent; it may revisit agents. */
  predicate IsWalk(grants: seq<Grant>, start: string, w: Walk)
    decreases |w|
  {
    w != [] ==>
      var n := |w| - 1;
      IsWalk(grants, start, w[..n]) && w[n] in grants && w[n].source == EndOf(start, w[..n])
  }

  ghost predicate Reachable(grants: seq<Grant>, start: string, agent: string) {
    exists w :: IsWalk(grants, start, w) && EndOf(start, w) == agent
  }

  lemma ExtendWalk(grants: seq<Grant>, start: string, w: Walk, g: Grant)
    requires IsWalk(grants, start, w) && g in grants && g.source == EndOf(start, w)
    ensures IsWalk(grants, start, w + [g]) && EndOf(start, w + [g]) == g.target
  {
    assert (w + [g])[..|w|] == w;
  }

  lemma ReachableStep(grants: seq<Grant>, start: string, g: Grant)
    requires g in grants && Reachable(grants, start, g.source)
    ensures Reachable(grants, start, g.target)
  {
    var w :| IsWalk(grants, start, w) && EndOf(start, w) == g.source;
    ExtendWalk(grants, start, w, g);
  }

  /** A set holding the start and closed under grants holds every reachable agent. */
  lemma {:induction false} ClosedSetHoldsWalk(grants: seq<Grant>, start: string, w: Walk, closed: set<string>)
    requires start in closed && IsWalk(grants, start, w)
    requires forall g | g in grants && g.source in closed :: g.target in closed
    ensures EndOf(start, w) in closed
    decreases |w|
  {
    if w != [] {
      ClosedSetHoldsWalk(grants, start, w[..|w| - 1], closed);
    }
  }

  // ---------------------------------------------------------------- the reachability loop

  ghost predicate AllSourcesReachable(grants: seq<Grant>, root: string) {
    forall g | g in grants :: Reachable(grants, root, g.source)
  }

  ghost predicate OnlyReachable(grants: seq<Grant>, root: string, reachable: set<string>) {
    forall a | a in reachable :: Reachable(grants, root, a)
  }

  predicate Settled(g: Grant, reachable: set<string>) {
    g.source in reachable && g.target in reachable
  }

  /** One pass over the pending grants. */
  method Pass(grants: seq<Grant>, root: string, start: set<string>, pending: seq<Grant>)
    returns (reachable: set<string>, remaining: seq<Grant>, progressed: bool)
    requires OnlyReachable(grants, root, start) && forall g | g in pending :: g in grants
    ensures start <= reachable && OnlyReachable(grants, root, reachable)
    ensures forall g | g in remaining :: g in pending
    ensures forall g | g in pending && g !in remaining :: Settled(g, reachable)
    ensures progressed ==> |remaining| < |pending|
    ensures !progressed ==> reachable == start && forall g | g in pending :: g.source !in start
  {
    reachable, remaining, progressed := start, [], false;
    for i := 0 to |pending|
      invariant start <= reachable && OnlyReachable(grants, root, reachable)
      invariant |remaining| <= i && (progressed ==> |remaining| < i)
      invariant forall g | g in remaining :: g in pending
      invariant forall k | 0 <= k < i :: pending[k] in remaining || Settled(pending[k], reachable)
      invariant !progressed ==> reachable == start && forall k | 0 <= k < i :: pending[k].source !in start
    {
      var g := pending[i];
      if g.source in reachable {
        ReachableStep(grants, root, g);
        reachable := reachable + {g.target};
        progressed := true;
      } else {
        remaining := remaining + [g];
      }
    }
  }

  /** The pending/reachable loop of AuthorityPolicy.validate_authority. */
  method SourcesReachable(grants: seq<Grant>, root: string) returns (ok: bool)
    ensures ok <==> AllSourcesReachable(grants, root)
  {
    var reachable, pending := {root}, grants;
    assert IsWalk(grants, root, []);
    while pending != []
      invariant root in reachable && OnlyReachable(grants, root, reachable)
      invariant forall g | g in pending :: g in grants
      invariant forall g | g in grants && g !in pending :: Settled(g, reachable)
      decreases |pending|
    {
      var progressed;
      ghost var before := pending;
      reachable, pending, progressed := Pass(grants, root, reachable, pending);
      if !progressed {
        if AllSourcesReachable(grants, root) {
          var g := before[0];
          assert g in before;
          var w :| IsWalk(grants, root, w) && EndOf(root, w) == g.source;
          ClosedSetHoldsWalk(grants, root, w, reachable);
        }
        return false;
      }
    }
    ok := true;
  }

  predicate GrantWithinRoot(p: Policy, g: Grant) {
    && g.tools <= p.allowed && g.maxToolCalls <= p.maxToolCalls && g.maxHandoffs <= p.maxHandoffs
    && ScopesWithin(g.scopes, p.scopes)
  }

  /** HandoffAuthorityGrant.validate_grant. */
  predicate ValidGrant(g: Grant) {
    g.source != g.target && g.additionalApprovals <= g.tools
  }

  predicate UniqueTransitions(grants: seq<Grant>) {
    forall i, j | 0 <= i < j < |grants| :: (grants[i].source, grants[i].target) != (grants[j].source, grants[j].target)
  }

  /** What AuthorityPolicy accepts. */
  ghost predicate ValidPolicy(p: Policy) {
    && p.allowed * p.forbidden == {} && p.approvalRequired <= p.allowed
    && (p.grants != [] ==> p.rootAgent.Some?)
    && UniqueTransitions(p.grants)
    && (forall g | g in p.grants :: ValidGrant(g) && GrantWithinRoot(p, g))
    && (p.grants != [] ==> AllSourcesReachable(p.grants, p.rootAgent.value))
  }

  /** AuthorityPolicy.validate_authority over grants that passed their own validation. */
  method ValidateAuthority(p: Policy) returns (ok: bool)
    requires forall g | g in p.grants :: ValidGrant(g)
    ensures ok <==> ValidPolicy(p)
  {
    if p.allowed * p.forbidden != {} || !(p.approvalRequired <= p.allowed) {
      return false;
    }
    if p.grants != [] && p.rootAgent.None? {
      return false;
    }
    if !UniqueTransitions(p.grants) {
      return false;
    }
    for i := 0 to |p.grants|
      invariant forall k | 0 <= k < i :: GrantWithinRoot(p, p.grants[k])
    {
      if !GrantWithinRoot(p, p.grants[i]) {
        assert p.grants[i] in p.grants;
        return false;
      }
    }
    if p.rootAgent.Some? && p.grants != [] {
      ok := SourcesReachable(p.grants, p.rootAgent.value);
    } else {
      ok := true;
    }
  }

  lemma {:induction false} GrantIsFound(grants: seq<Grant>, i: nat)
    requires UniqueTransitions(grants) && i < |grants|
    ensures HandoffGrant(grants, grants[i].source, grants[i].target) == Some(grants[i])
  {
    if i > 0 {
      assert (grants[0].source, grants[0].target) != (grants[i].source, grants[i].target);
      GrantIsFound(grants[1..], i - 1);
    }
  }

  lemma RootAuthorizes(p: Policy, g: Grant, r: ResourceIdentifier, i: nat)
    requires GrantWithinRoot(p, g) && i < |g.scopes| && ContainsIdentifier(g.scopes[i], r)
    ensures FromRoot(p).AuthorizesResource(r)
  {
    var j :| 0 <= j < |p.scopes| && ContainsScope(p.scopes[j], g.scopes[i]);
    PrefixTransitive(p.scopes[j].components, g.scopes[i].components, r.components);
    assert ContainsIdentifier(FromRoot(p).scopes[j], r);
  }

  /** A valid policy has no dead grant at its root: every handoff that a grant of the root agent allows is accepted
      from the start. */
  lemma RootGrantIsPermitted(p: Policy, e: Event, g: Grant)
    requires ValidPolicy(p) && g in p.grants && p.rootAgent == Some(g.source)
    requires NamesAgent(e, "source_agent", g.source) && NamesAgent(e, "target_agent", g.target)
    ensures Permitted(p, FromPolicy(p), e, g.source, g.target, g)
  {
    var i :| 0 <= i < |p.grants| && p.grants[i] == g;
    GrantIsFound(p.grants, i);
    RootGrantIsWithin(p, g);
  }

  lemma RootGrantIsWithin(p: Policy, g: Grant)
    requires GrantWithinRoot(p, g) && p.allowed * p.forbidden == {}
    ensures WithinSource(g, FromRoot(p))
  {
    AllowedIsNotForbidden(p);
    forall r: ResourceIdentifier, i | r.components != [] && 0 <= i < |g.scopes| && ContainsIdentifier(g.scopes[i], r)
      ensures FromRoot(p).AuthorizesResource(r)
    {
      RootAuthorizes(p, g, r, i);
    }
  }

  lemma AllowedIsNotForbidden(p: Policy)
    requires p.allowed * p.forbidden == {}
    ensures p.allowed - p.forbidden == p.allowed
  {
    forall tool | tool in p.allowed ensures tool !in p.forbidden {
      assert tool !in p.allowed * p.forbidden;
    }
  }

  /** What a valid policy keeps true of the authority. */
  predicate Respects(p: Policy, a: EffectiveAuthority) {
    a.approvals <= a.tools <= p.allowed && a.tools * p.forbidden == {}
  }

  /** Along any trace under a valid policy only allowed and no forbidden tool is delegated, and whatever needs approval
      is delegated. */
  lemma {:induction false} StatesRespectPolicy(p: Policy, events: seq<Event>, n: nat)
    requires ValidPolicy(p)
    ensures Respects(p, StateBefore(p, events, n).authority)
    decreases n
  {
    AllowedIsNotForbidden(p);
    if n > 0 && p.HasHandoffAuthority() {
      StatesRespectPolicy(p, events, n - 1);
      if n <= |events| && events[n - 1].kind.Handoff? {
        HandoffRespects(p, StateBefore(p, events, n - 1), events[n - 1]);
      }
    }
  }

  lemma HandoffRespects(p: Policy, s: PathState, e: Event)
    requires ValidPolicy(p) && e.kind.Handoff? && Respects(p, s.authority)
    ensures Respects(p, AdvanceHandoff(p, s, e).0.authority)
  {
    var t := AdvanceHandoff(p, s, e).0;
    if t != s {
      var g := HandoffGrant(p.grants, AgentIdentity(Get(e.payload, "source_agent")).value,
                            AgentIdentity(Get(e.payload, "target_agent")).value).value;
      AttenuationRefuses(s.authority, g);
      assert ValidGrant(g) && GrantWithinRoot(p, g);
    }
  }

  /** The verdict depends on the set of grants only, not on their order. */
  lemma ReachabilityIgnoresOrder(grants: seq<Grant>, shuffled: seq<Grant>, root: string)
    requires forall g :: g in grants <==> g in shuffled
    ensures AllSourcesReachable(grants, root) <==> AllSourcesReachable(shuffled, root)
  {
    forall w ensures IsWalk(grants, root, w) <==> IsWalk(shuffled, root, w) {
      WalkIgnoresOrder(grants, shuffled, root, w);
    }
  }

  lemma {:induction false} WalkIgnoresOrder(grants: seq<Grant>, shuffled: seq<Grant>, root: string, w: Walk)
    requires forall g :: g in grants <==> g in shuffled
    ensures IsWalk(grants, root, w) <==> IsWalk(shuffled, root, w)
    decreases |w|
  {
    if w != [] {
      WalkIgnoresOrder(grants, shuffled, root, w[..|w| - 1]);
    }
  }

  // ---------------------------------------------------------------- the approval search

  predicate Delegates(w: Walk, tool: string) {
    forall i | 0 <= i < |w| :: tool in w[i].tools
  }

  predicate Requires(rootRequired: bool, w: Walk, tool: string) {
    rootRequired || exists i | 0 <= i < |w| :: tool in w[i].additionalApprovals
  }

  /** A walk from the root that delegates the tool at every hop, in the given approval state. */
  predicate ToolWalk(p: Policy, root: string, tool: string, w: Walk, end: string, required: bool) {
    && IsWalk(p.grants, root, w) && EndOf(root, w) == end && Delegates(w, tool)
    && Requires(tool in p.approvalRequired, w, tool) == required
  }

  ghost predicate PathRequiresApproval(p: Policy, root: string, agent: string, tool: string) {
    exists w :: w != [] && ToolWalk(p, root, tool, w, agent, true)
  }

  lemma ExtendToolWalk(p: Policy, root: string, tool: string, w: Walk, end: string, required: bool, g: Grant)
    requires ToolWalk(p, root, tool, w, end, required) && g in p.grants && g.source == end && tool in g.tools
    ensures ToolWalk(p, root, tool, w + [g], g.target, required || tool in g.additionalApprovals)
  {
    ExtendWalk(p.grants, root, w, g);
    var v := w + [g];
    if required && tool !in p.approvalRequired {
      var i :| 0 <= i < |w| && tool in w[i].additionalApprovals;
      assert v[i] == w[i];
    }
    if tool in g.additionalApprovals {
      assert v[|w|] == g;
    }
  }

  type SearchState = (string, bool)

  predicate Expands(s: SearchState, g: Grant, tool: string) {
    g.source == s.0 && tool in g.tools
  }

  function After(s: SearchState, g: Grant, tool: string): SearchState {
    (g.target, s.1 || tool in g.additionalApprovals)
  }

  /** Expanded states have all successors known, and none of these is the agent with approval required. */
  predicate ClosedUnder(p: Policy, agent: string, tool: string, visited: set<SearchState>, known: set<SearchState>) {
    forall s, g | s in visited && g in p.grants && Expands(s, g, tool) ::
      After(s, g, tool) in known && After(s, g, tool) != (agent, true)
  }

  lemma {:induction false} SearchCoversWalk(p: Policy, root: string, agent: string, tool: string,
      visited: set<SearchState>, w: Walk)
    requires ClosedUnder(p, agent, tool, visited, visited) && (root, tool in p.approvalRequired) in visited
    requires IsWalk(p.grants, root, w) && Delegates(w, tool)
    ensures (EndOf(root, w), Requires(tool in p.approvalRequired, w, tool)) in visited
    ensures w != [] ==> (EndOf(root, w), Requires(tool in p.approvalRequired, w, tool)) != (agent, true)
    decreases |w|
  {
    if w != [] {
      var n := |w| - 1;
      var v := w[..n];
      SearchCoversWalk(p, root, agent, tool, visited, v);
      var required := Requires(tool in p.approvalRequired, v, tool);
      assert ToolWalk(p, root, tool, v, EndOf(root, v), required);
      ExtendToolWalk(p, root, tool, v, EndOf(root, v), required, w[n]);
      assert v + [w[n]] == w;
      assert Expands((EndOf(root, v), required), w[n], tool);
    }
  }

  /** The states the search can ever see. */
  function Universe(p: Policy, root: string): set<SearchState> {
    var agents := {root} + set g | g in p.grants :: g.target;
    set a, b | a in agents && b in {true, false} :: (a, b)
  }

  ghost predicate Reached(p: Policy, root: string, tool: string, s: SearchState) {
    exists w :: ToolWalk(p, root, tool, w, s.0, s.1)
  }

  lemma ReachedInUniverse(p: Policy, root: string, tool: string, s: SearchState)
    requires Reached(p, root, tool, s)
    ensures s in Universe(p, root)
  {
    var w :| ToolWalk(p, root, tool, w, s.0, s.1);
    if w != [] {
      assert w[|w| - 1] in p.grants;
    }
    assert s == (s.0, s.1);
  }

  /** Expanding one search state over all grants. */
  method Expand(p: Policy, root: string, agent: string, tool: string, state: SearchState)
    returns (found: bool, successors: seq<SearchState>)
    requires Reached(p, root, tool, state)
    ensures found ==> PathRequiresApproval(p, root, agent, tool)
    ensures forall s | s in successors :: Reached(p, root, tool, s)
    ensures !found ==> forall g | g in p.grants && Expands(state, g, tool) ::
                         After(state, g, tool) in successors && After(state, g, tool) != (agent, true)
  {
    ghost var w :| ToolWalk(p, root, tool, w, state.0, state.1);
    successors := [];
    for i := 0 to |p.grants|
      invariant forall s | s in successors :: Reached(p, root, tool, s)
      invariant forall k | 0 <= k < i && Expands(state, p.grants[k], tool) ::
                  After(state, p.grants[k], tool) in successors && After(state, p.grants[k], tool) != (agent, true)
    {
      var g := p.grants[i];
      if g.source != state.0 || tool !in g.tools {
        continue;
      }
      var required := state.1 || tool in g.additionalApprovals;
      ExtendToolWalk(p, root, tool, w, state.0, state.1, g);
      if g.target == agent && required {
        return true, successors;
      }
      successors := successors + [(g.target, required)];
    }
    found := false;
  }

  /** _agent_path_requires_approval: a search with an explicit stack over a possibly cyclic grant graph. */
  method AgentPathRequiresApproval(p: Policy, agent: string, tool: string) returns (result: bool)
    ensures !p.HasHandoffAuthority() || p.rootAgent == Some(agent) ==> result == (tool in p.approvalRequired)
    ensures p.HasHandoffAuthority() && p.rootAgent.None? ==> !result
    ensures p.rootAgent.Some? && p.rootAgent != Some(agent) ==>
              (result <==> PathRequiresApproval(p, p.rootAgent.value, agent, tool))
  {
    var rootRequired := tool in p.approvalRequired;
    if !p.HasHandoffAuthority() {
      return rootRequired;
    }
    if p.rootAgent == Some(agent) {
      return rootRequired;
    }
    if p.rootAgent.None? {
      return false;
    }
    result := Search(p, p.rootAgent.value, agent, tool);
  }

  method Search(p: Policy, root: string, agent: string, tool: string) returns (result: bool)
    ensures result <==> PathRequiresApproval(p, root, agent, tool)
  {
    var start: SearchState := (root, tool in p.approvalRequired);
    var pending: seq<SearchState> := [start];
    var visited: set<SearchState> := {};
    assert ToolWalk(p, root, tool, [], root, start.1);
    while pending != []
      invariant forall s | s in pending :: Reached(p, root, tool, s)
      invariant visited <= Universe(p, root)
      invariant start in visited || start in pending
      invariant ClosedUnder(p, agent, tool, visited, visited + set s | s in pending)
      decreases Universe(p, root) - visited, |pending|
    {
      var state := pending[|pending| - 1];
      ghost var before := pending;
      pending := pending[..|pending| - 1];
      assert before == pending + [state];
      if state in visited {
        continue;
      }
      ReachedInUniverse(p, root, tool, state);
      visited := visited + {state};
      var found, successors := Expand(p, root, agent, tool, state);
      if found {
        return true;
      }
      pending := pending + successors;
    }
    forall w | w != [] && ToolWalk(p, root, tool, w, agent, true) ensures false {
      SearchCoversWalk(p, root, agent, tool, visited, w);
    }
    result := false;
  }

  // ---------------------------------------------------------------- runtime coverage

  /** The grants taken along an accepted path form a walk, and an approval held at its end was required by
      the root or added by some hop that delegates the tool all the way. */
  lemma {:induction false} PathGivesWalk(p: Policy, path: Path, tool: string) returns (w: Walk)
    requires p.rootAgent.Some? && (forall g | g in p.grants :: ValidGrant(g))
    requires AuthorityAlong(p, path).Some?
        && Chain(p.rootAgent, Some(if path == [] then p.rootAgent.value else path[|path| - 1].1), path)
    ensures IsWalk(p.grants, p.rootAgent.value, w) && |w| == |path|
    ensures EndOf(p.rootAgent.value, w) == if path == [] then p.rootAgent.value else path[|path| - 1].1
    ensures path != [] && tool in AuthorityAlong(p, path).value.tools ==> Delegates(w, tool)
    ensures tool in AuthorityAlong(p, path).value.approvals ==> Requires(tool in p.approvalRequired, w, tool)
    ensures path != [] && tool in AuthorityAlong(p, path).value.approvals
        ==> tool in AuthorityAlong(p, path).value.tools
    decreases |path|
  {
    var root := p.rootAgent.value;
    if path == [] {
      w := [];
    } else {
      var n := |path| - 1;
      var source := AuthorityAlong(p, path[..n]).value;
      var g := HandoffGrant(p.grants, path[n].0, path[n].1).value;
      AttenuationRefuses(source, g);
      var v := PathGivesWalk(p, path[..n], tool);
      ExtendWalk(p.grants, root, v, g);
      w := v + [g];
      if tool in source.approvals && Requires(tool in p.approvalRequired, v, tool) && tool !in p.approvalRequired {
        var i :| 0 <= i < |v| && tool in v[i].additionalApprovals;
        assert w[i] == v[i];
      }
      assert w[|v|] == g;
    }
  }

  /** Every accepted trace that reaches a non-root agent with the tool approval-required is covered by the
      static search. */
  lemma RuntimeApprovalIsCovered(p: Policy, events: seq<Event>, n: nat, agent: string, tool: string)
    requires ValidPolicy(p) && p.rootAgent.Some? && p.rootAgent != Some(agent)
    requires var s := StateBefore(p, events, n); s.active == Some(agent) && tool in s.authority.approvals
    ensures PathRequiresApproval(p, p.rootAgent.value, agent, tool)
  {
    var s := StateBefore(p, events, n);
    PathDeterminesAuthority(p, events, n);
    var w := PathGivesWalk(p, s.transitions, tool);
    assert ToolWalk(p, p.rootAgent.value, tool, w, agent, true);
  }
}
