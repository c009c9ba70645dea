/** Delegated authority (authority.py, contracts/resource.py): accepted handoffs fold into a path-local
    authority that can only narrow. */
module Authority {
  import opened Wrappers
  import opened Evidence

  /** Scopes name a domain and a prefix of its component hierarchy. */
  datatype ResourceScope = ResourceScope(domain: string, components: seq<string>)

  predicate ComponentsContain(scope: seq<string>, candidate: seq<string>) {
    |scope| <= |candidate| && candidate[..|scope|] == scope
  }

  predicate ContainsIdentifier(s: ResourceScope, r: ResourceIdentifier) {
    s.domain == r.domain && ComponentsContain(s.components, r.components)
  }

  predicate ContainsScope(s: ResourceScope, candidate: ResourceScope) {
    s.domain == candidate.domain && ComponentsContain(s.components, candidate.components)
  }

  datatype Grant = Grant(
    source: string, target: string, tools: set<string>, scopes: seq<ResourceScope>, additionalApprovals: set<string>,
    maxToolCalls: nat, maxHandoffs: nat)

  datatype Policy = Policy(
    allowed: set<string>, forbidden: set<string>, approvalRequired: set<string>, scopes: seq<ResourceScope>,
    maxToolCalls: nat, maxHandoffs: nat, rootAgent: Option<string>, grants: seq<Grant>)
  {
    predicate HasHandoffAuthority() { rootAgent.Some? || grants != [] }
  }

  datatype EffectiveAuthority = EffectiveAuthority(
    tools: set<string>, approvals: set<string>, scopes: seq<ResourceScope>, maxToolCalls: nat, maxHandoffs: nat)
  {
    predicate AuthorizesResource(r: ResourceIdentifier) {
      exists i | 0 <= i < |scopes| :: ContainsIdentifier(scopes[i], r)
    }
  }

  type Path = seq<(string, string)>

  datatype PathState = PathState(root: Option<string>, active: Option<string>, authority: EffectiveAuthority,
      transitions: Path) {
    function Epoch(): nat { |transitions| }
  }

  datatype Reason =
    | MissingIdentity | NotActive | Unauthorized
    | BroadensTools | BroadensResources | BroadensToolCalls | BroadensHandoffs

  function FromRoot(p: Policy): EffectiveAuthority {
    EffectiveAuthority(p.allowed - p.forbidden, p.approvalRequired, p.scopes, p.maxToolCalls, p.maxHandoffs)
  }

  function FromPolicy(p: Policy): PathState {
    var root := if p.HasHandoffAuthority() then p.rootAgent else None;
    PathState(root, root, FromRoot(p), [])
  }

  function HandoffGrant(grants: seq<Grant>, source: string, target: string): (g: Option<Grant>)
    ensures g.Some? ==> g.value in grants && g.value.source == source && g.value.target == target
    ensures g.None? ==> forall h | h in grants :: !(h.source == source && h.target == target)
  {
    if grants == [] then None
    else if grants[0].source == source && grants[0].target == target then Some(grants[0])
    else HandoffGrant(grants[1..], source, target)
  }

  function Child(source: EffectiveAuthority, g: Grant): EffectiveAuthority {
    EffectiveAuthority(g.tools, (source.approvals * g.tools) + g.additionalApprovals, g.scopes, g.maxToolCalls,
        g.maxHandoffs)
  }

  predicate ScopesWithin(scopes: seq<ResourceScope>, parents: seq<ResourceScope>) {
    forall i | 0 <= i < |scopes| :: exists j | 0 <= j < |parents| :: ContainsScope(parents[j], scopes[i])
  }

  /** attenuate_authority: the child authority, and every way in which it would widen its source. */
  function Attenuate(source: EffectiveAuthority, g: Grant): (EffectiveAuthority, seq<Reason>) {
    (Child(source, g),
     (if g.tools <= source.tools then [] else [BroadensTools])
     + (if ScopesWithin(g.scopes, source.scopes) then [] else [BroadensResources])
     + (if g.maxToolCalls <= source.maxToolCalls then [] else [BroadensToolCalls])
     + (if g.maxHandoffs <= source.maxHandoffs then [] else [BroadensHandoffs]))
  }

  function AgentIdentity(v: Option<Value>): Option<string> {
    if v.Some? && v.value.Text? && v.value.text != "" && Trimmed(v.value.text) then Some(v.value.text) else None
  }

  function AdvanceHandoff(p: Policy, s: PathState, e: Event): (PathState, seq<Reason>)
    requires e.kind.Handoff?
  {
    var source, target := AgentIdentity(Get(e.payload, "source_agent")), AgentIdentity(Get(e.payload, "target_agent"));
    if source.None? || target.None? then (s, [MissingIdentity])
    else if source != s.active then (s, [NotActive])
    else
      match HandoffGrant(p.grants, source.value, target.value)
      case None => (s, [Unauthorized])
      case Some(g) =>
        var (child, reasons) := Attenuate(s.authority, g);
        if reasons != [] then (s, reasons)
        else (PathState(s.root, target, child, s.transitions + [(source.value, target.value)]), [])
  }

  function Step(p: Policy, s: PathState, e: Event): PathState {
    if e.kind.Handoff? then AdvanceHandoff(p, s, e).0 else s
  }

  /** The state before the event with the given sequence: the fold of the handoffs that precede it. */
  function StateBefore(p: Policy, events: seq<Event>, n: nat): PathState
    decreases n
  {
    if n == 0 || !p.HasHandoffAuthority() then FromPolicy(p)
    else
      var before := StateBefore(p, events, n - 1);
      if n <= |events| then Step(p, before, events[n - 1]) else before
  }

  /** validated_handoff_state_before as the source computes it. */
  method ValidatedHandoffStateBefore(p: Policy, events: seq<Event>, sequence: nat) returns (state: PathState)
    ensures state == StateBefore(p, events, sequence)
  {
    state := FromPolicy(p);
    if !p.HasHandoffAuthority() {
      Frozen(p, events, sequence);
      return;
    }
    var stop := if sequence <= |events| then sequence else |events|;
    for i := 0 to stop
      invariant state == StateBefore(p, events, i)
    {
      if !events[i].kind.Handoff? {
        continue;
      }
      var (next, _) := AdvanceHandoff(p, state, events[i]);
      state := next;
    }
    PastTheEnd(p, events, stop, sequence);
  }

  lemma Frozen(p: Policy, events: seq<Event>, n: nat)
    requires !p.HasHandoffAuthority()
    ensures StateBefore(p, events, n) == FromPolicy(p)
  {
  }

  lemma {:induction false} PastTheEnd(p: Policy, events: seq<Event>, stop: nat, n: nat)
    requires stop <= n && (stop == n || stop >= |events|)
    ensures StateBefore(p, events, stop) == StateBefore(p, events, n)
    decreases n
  {
    if n > stop {
      PastTheEnd(p, events, stop, n - 1);
      if !p.HasHandoffAuthority() {
        Frozen(p, events, stop);
      }
    }
  }

  // ---------------------------------------------------------------- authority only narrows

  ghost predicate Narrower(later: EffectiveAuthority, earlier: EffectiveAuthority) {
    && later.tools <= earlier.tools
    && (forall r: ResourceIdentifier :: later.AuthorizesResource(r) ==> earlier.AuthorizesResource(r))
    && later.maxToolCalls <= earlier.maxToolCalls && later.maxHandoffs <= earlier.maxHandoffs
    && earlier.approvals * later.tools <= later.approvals
  }

  lemma PrefixTransitive(a: seq<string>, b: seq<string>, c: seq<string>)
    requires ComponentsContain(a, b) && ComponentsContain(b, c)
    ensures ComponentsContain(a, c)
  {
    assert c[..|a|] == c[..|b|][..|a|];
  }

  lemma AttenuationNarrows(source: EffectiveAuthority, g: Grant)
    requires Attenuate(source, g).1 == []
    ensures Narrower(Child(source, g), source)
  {
    var child := Child(source, g);
    forall r: ResourceIdentifier | child.AuthorizesResource(r) ensures source.AuthorizesResource(r) {
      var i :| 0 <= i < |g.scopes| && ContainsIdentifier(g.scopes[i], r);
      var j :| 0 <= j < |source.scopes| && ContainsScope(source.scopes[j], g.scopes[i]);
      PrefixTransitive(source.scopes[j].components, g.scopes[i].components, r.components);
    }
  }

  /** A component that begins no path of the scopes. */
  lemma {:induction false} FreshComponent(scopes: seq<ResourceScope>) returns (novel: string)
    ensures novel != "" && forall j | 0 <= j < |scopes| && scopes[j].components != [] ::
              |scopes[j].components[0]| < |novel|
  {
    if scopes == [] {
      novel := "a";
    } else {
      var n := |scopes| - 1;
      novel := FreshComponent(scopes[..n]);
      if scopes[n].components != [] {
        novel := novel + scopes[n].components[0] + "a";
      }
    }
  }

  /** Scopes whose resources are all authorized by some scopes lie, one by one, within single ones of them. */
  lemma CoveredScope(source: EffectiveAuthority, scope: ResourceScope)
    requires forall r: ResourceIdentifier | r.components != [] && ContainsIdentifier(scope, r) ::
               source.AuthorizesResource(r)
    ensures exists j | 0 <= j < |source.scopes| :: ContainsScope(source.scopes[j], scope)
  {
    var novel := FreshComponent(source.scopes);
    var inside := ResourceIdentifier(scope.domain, if scope.components == [] then [novel] else scope.components);
    assert ContainsIdentifier(scope, inside);
    var j :| 0 <= j < |source.scopes| && ContainsIdentifier(source.scopes[j], inside);
    assert source.scopes[j].components == inside.components[..|source.scopes[j].components|];
    assert ContainsScope(source.scopes[j], scope);
  }

  /** Attenuation accepts exactly the grants that widen nothing: the child may use no tool, reach no resource and
      spend no budget that its source could not. Resource identifiers have at least one component. */
  lemma AttenuationRefuses(source: EffectiveAuthority, g: Grant)
    ensures var child := Child(source, g);
            Attenuate(source, g).1 == [] <==>
              && child.tools <= source.tools
              && (forall r: ResourceIdentifier | r.components != [] && child.AuthorizesResource(r) ::
                    source.AuthorizesResource(r))
              && child.maxToolCalls <= source.maxToolCalls && child.maxHandoffs <= source.maxHandoffs
    ensures Attenuate(source, g).1 == [] <==> Narrower(Child(source, g), source)
  {
    var child := Child(source, g);
    if Attenuate(source, g).1 == [] {
      AttenuationNarrows(source, g);
    } else if forall r: ResourceIdentifier | r.components != [] && child.AuthorizesResource(r) ::
                source.AuthorizesResource(r) {
      forall i | 0 <= i < |g.scopes|
        ensures exists j | 0 <= j < |source.scopes| :: ContainsScope(source.scopes[j], g.scopes[i])
      {
        forall r: ResourceIdentifier | r.components != [] && ContainsIdentifier(g.scopes[i], r)
          ensures source.AuthorizesResource(r)
        {
          assert child.AuthorizesResource(r);
        }
        CoveredScope(source, g.scopes[i]);
      }
      assert ScopesWithin(g.scopes, source.scopes);
    }
  }

  /** Along any trace, every later authority lies within every earlier one and keeps the approvals it
      inherited for the tools it retains; the path only grows. */
  lemma {:induction false} AuthorityOnlyNarrows(p: Policy, events: seq<Event>, i: nat, j: nat)
    requires i <= j
    ensures Narrower(StateBefore(p, events, j).authority, StateBefore(p, events, i).authority)
    ensures StateBefore(p, events, i).transitions <= StateBefore(p, events, j).transitions
    decreases j
  {
    if i < j {
      if !p.HasHandoffAuthority() {
        Frozen(p, events, i);
        Frozen(p, events, j);
      } else {
        AuthorityOnlyNarrows(p, events, i, j - 1);
        if j <= |events| && events[j - 1].kind.Handoff? {
          AdvanceNarrows(p, StateBefore(p, events, j - 1), events[j - 1]);
        }
      }
    }
  }

  lemma AdvanceNarrows(p: Policy, s: PathState, e: Event)
    requires e.kind.Handoff?
    ensures var (t, reasons) := AdvanceHandoff(p, s, e);
            && Narrower(t.authority, s.authority) && s.transitions <= t.transitions
            && (t.transitions == s.transitions ==> t == s)
            && (reasons == [] <==> t != s)
  {
    var source, target := AgentIdentity(Get(e.payload, "source_agent")), AgentIdentity(Get(e.payload, "target_agent"));
    if source.Some? && target.Some? && source == s.active {
      match HandoffGrant(p.grants, source.value, target.value)
      case None =>
      case Some(g) => if Attenuate(s.authority, g).1 == [] { AttenuationNarrows(s.authority, g); }
    }
  }

  // ---------------------------------------------------------------- the path determines the authority

  /** The path is a chain of hops from the root to the active agent. */
  predicate Chain(root: Option<string>, active: Option<string>, path: Path)
    decreases |path|
  {
    if path == [] then active == root
    else
      var n := |path| - 1;
      active == Some(path[n].1) && Chain(root, Some(path[n].0), path[..n])
  }

  /** Authority at the end of a path, by folding the grants of its hops from the root. */
  function AuthorityAlong(p: Policy, path: Path): Option<EffectiveAuthority> {
    if path == [] then Some(FromRoot(p))
    else
      var n := |path| - 1;
      var source := AuthorityAlong(p, path[..n]);
      var g := HandoffGrant(p.grants, path[n].0, path[n].1);
      if source.None? || g.None? || Attenuate(source.value, g.value).1 != [] then None
      else Some(Child(source.value, g.value))
  }

  lemma {:induction false} PathDeterminesAuthority(p: Policy, events: seq<Event>, n: nat)
    ensures var s := StateBefore(p, events, n);
            && s.root == FromPolicy(p).root
            && Chain(s.root, s.active, s.transitions)
            && AuthorityAlong(p, s.transitions) == Some(s.authority)
    decreases n
  {
    if n > 0 && p.HasHandoffAuthority() {
      PathDeterminesAuthority(p, events, n - 1);
      if n <= |events| && events[n - 1].kind.Handoff? {
        AdvanceExtendsPath(p, StateBefore(p, events, n - 1), events[n - 1]);
      }
    }
  }

  lemma AdvanceExtendsPath(p: Policy, s: PathState, e: Event)
    requires e.kind.Handoff? && Chain(s.root, s.active, s.transitions)
    requires AuthorityAlong(p, s.transitions) == Some(s.authority)
    ensures var t := AdvanceHandoff(p, s, e).0;
            t.root == s.root && Chain(t.root, t.active, t.transitions)
                && AuthorityAlong(p, t.transitions) == Some(t.authority)
  {
    var t := AdvanceHandoff(p, s, e).0;
    if t != s {
      assert t.transitions[..|t.transitions| - 1] == s.transitions;
    }
  }

  /** Equal paths, in any two traces of one policy, mean equal active agent and equal authority. */
  lemma EqualPathsEqualState(p: Policy, events: seq<Event>, n: nat, events': seq<Event>, n': nat)
    requires StateBefore(p, events, n).transitions == StateBefore(p, events', n').transitions
    ensures StateBefore(p, events, n) == StateBefore(p, events', n')
  {
    PathDeterminesAuthority(p, events, n);
    PathDeterminesAuthority(p, events', n');
  }

  /** In one trace epochs never decrease, and equal epochs mean that no handoff was accepted in between. */
  lemma EpochIdentifiesState(p: Policy, events: seq<Event>, i: nat, j: nat)
    requires i <= j
    ensures StateBefore(p, events, i).Epoch() <= StateBefore(p, events, j).Epoch()
    ensures StateBefore(p, events, i).Epoch() == StateBefore(p, events, j).Epoch() ==>
              forall k | i <= k <= j :: StateBefore(p, events, k) == StateBefore(p, events, i)
  {
    AuthorityOnlyNarrows(p, events, i, j);
    if StateBefore(p, events, i).Epoch() == StateBefore(p, events, j).Epoch() {
      forall k | i <= k <= j ensures StateBefore(p, events, k) == StateBefore(p, events, i) {
        AuthorityOnlyNarrows(p, events, i, k);
        AuthorityOnlyNarrows(p, events, k, j);
        EqualPathsEqualState(p, events, k, events, i);
      }
    }
  }

  /** The state before a point does not depend on later events. */
  lemma {:induction false} StateDependsOnPrefix(p: Policy, events: seq<Event>, events': seq<Event>, n: nat)
    requires n <= |events| && n <= |events'| && events[..n] == events'[..n]
    ensures StateBefore(p, events, n) == StateBefore(p, events', n)
    decreases n
  {
    if n > 0 {
      assert events[..n - 1] == events[..n][..n - 1] && events'[..n - 1] == events'[..n][..n - 1];
      StateDependsOnPrefix(p, events, events', n - 1);
      assert events[n - 1] == events[..n][n - 1] && events'[n - 1] == events'[..n][n - 1];
    }
  }

  /** Events that are not handoffs leave the state alone. */
  lemma {:induction false} StateAcrossOtherEvents(p: Policy, events: seq<Event>, i: nat, j: nat)
    requires i <= j <= |events| && forall k | i <= k < j :: !events[k].kind.Handoff?
    ensures StateBefore(p, events, j) == StateBefore(p, events, i)
    decreases j
  {
    if i < j {
      StateAcrossOtherEvents(p, events, i, j - 1);
      if !p.HasHandoffAuthority() {
        Frozen(p, events, i);
        Frozen(p, events, j);
      }
    }
  }

  // ---------------------------------------------------------------- what a path authorizes, grant by grant

  /** The grants taken at the hops of a path. */
  ghost predicate Taken(p: Policy, path: Path, w: seq<Grant>) {
    && |w| == |path|
    && forall i | 0 <= i < |w| :: HandoffGrant(p.grants, path[i].0, path[i].1) == Some(w[i])
  }

  /** From hop k on, every hop delegates the tool. */
  predicate Delegated(w: seq<Grant>, k: nat, tool: string) {
    forall j | k <= j < |w| :: tool in w[j].tools
  }

  /** Some hop adds the approval and every later hop delegates the tool, or the root requires it and every hop does. */
  predicate ApprovalArrives(p: Policy, w: seq<Grant>, tool: string) {
    || (exists i | 0 <= i < |w| :: tool in w[i].additionalApprovals && Delegated(w, i + 1, tool))
    || (tool in p.approvalRequired && Delegated(w, 0, tool))
  }

  /** The authority is what the last grant says, with the approvals that arrive along the path. */
  ghost predicate Conferred(p: Policy, w: seq<Grant>, a: EffectiveAuthority) {
    && (forall tool :: tool in a.approvals <==> ApprovalArrives(p, w, tool))
    && if w == [] then
         && a.tools == p.allowed - p.forbidden && a.scopes == p.scopes
         && a.maxToolCalls == p.maxToolCalls && a.maxHandoffs == p.maxHandoffs
       else
         var last := w[|w| - 1];
         && a.tools == last.tools && a.scopes == last.scopes
         && a.maxToolCalls == last.maxToolCalls && a.maxHandoffs == last.maxHandoffs
  }

  lemma ArrivesSnoc(p: Policy, w: seq<Grant>, g: Grant, tool: string)
    ensures ApprovalArrives(p, w + [g], tool)
       <==> tool in g.additionalApprovals || (tool in g.tools && ApprovalArrives(p, w, tool))
  {
    var longer := w + [g];
    assert longer[|w|] == g && forall i | 0 <= i < |w| :: longer[i] == w[i];
    assert Delegated(longer, 0, tool) <==> Delegated(w, 0, tool) && tool in g.tools;
    assert Delegated(longer, |w| + 1, tool);
    if i :| 0 <= i < |longer| && tool in longer[i].additionalApprovals && Delegated(longer, i + 1, tool) && i < |w| {
      assert tool in w[i].additionalApprovals && Delegated(w, i + 1, tool);
    }
    if tool in g.tools {
      if i :| 0 <= i < |w| && tool in w[i].additionalApprovals && Delegated(w, i + 1, tool) {
        assert tool in longer[i].additionalApprovals;
      }
    }
  }

  lemma ConferredStep(p: Policy, s: PathState, e: Event, w: seq<Grant>) returns (w': seq<Grant>)
    requires e.kind.Handoff? && Taken(p, s.transitions, w) && Conferred(p, w, s.authority)
    ensures var t := AdvanceHandoff(p, s, e).0; Taken(p, t.transitions, w') && Conferred(p, w', t.authority)
  {
    var t := AdvanceHandoff(p, s, e).0;
    w' := w;
    if t != s {
      var g := HandoffGrant(p.grants, AgentIdentity(Get(e.payload, "source_agent")).value,
                            AgentIdentity(Get(e.payload, "target_agent")).value).value;
      w' := w + [g];
      forall tool ensures tool in t.authority.approvals <==> ApprovalArrives(p, w', tool) {
        ArrivesSnoc(p, w, g, tool);
      }
    }
  }

  /** After any trace, an approval is required exactly when some hop of the path adds it and every later hop delegates
      the tool, or the root requires it and every hop does; tools, scopes and budgets are those of the last grant. */
  lemma {:induction false} ApprovalsAlongPath(p: Policy, events: seq<Event>, n: nat) returns (w: seq<Grant>)
    ensures Taken(p, StateBefore(p, events, n).transitions, w) && Conferred(p, w, StateBefore(p, events, n).authority)
    decreases n
  {
    if n == 0 || !p.HasHandoffAuthority() {
      w := [];
    } else {
      w := ApprovalsAlongPath(p, events, n - 1);
      if n <= |events| && events[n - 1].kind.Handoff? {
        w := ConferredStep(p, StateBefore(p, events, n - 1), events[n - 1], w);
      }
    }
  }

  /** The payload names an agent: a non-empty text without surrounding whitespace. */
  predicate NamesAgent(e: Event, key: string, agent: string) {
    Has(e, key, agent) && agent != "" && Trimmed(agent)
  }

  /** What the handoff asks for lies within the authority it comes from. */
  ghost predicate WithinSource(g: Grant, a: EffectiveAuthority) {
    && g.tools <= a.tools && g.maxToolCalls <= a.maxToolCalls && g.maxHandoffs <= a.maxHandoffs
    && forall r: ResourceIdentifier, i | r.components != [] && 0 <= i < |g.scopes| && ContainsIdentifier(g.scopes[i], r)
         :: a.AuthorizesResource(r)
  }

  /** The handoff goes from the active agent to the target by the first grant for the pair, which widens nothing. */
  ghost predicate Permitted(p: Policy, s: PathState, e: Event, source: string, target: string, g: Grant) {
    && NamesAgent(e, "source_agent", source) && NamesAgent(e, "target_agent", target) && s.active == Some(source)
    && HandoffGrant(p.grants, source, target) == Some(g) && WithinSource(g, s.authority)
  }

  /** A handoff is accepted exactly when it is permitted, and then makes the target active and extends the path by
      this one hop; a refused one changes nothing. */
  lemma HandoffAcceptance(p: Policy, s: PathState, e: Event)
    requires e.kind.Handoff?
    ensures var (t, reasons) := AdvanceHandoff(p, s, e);
            && (reasons == [] <==> exists source, target, g :: Permitted(p, s, e, source, target, g))
            && (reasons != [] ==> t == s)
            && (forall source, target, g | Permitted(p, s, e, source, target, g) ::
                  t.root == s.root && t.active == Some(target) && t.transitions == s.transitions + [(source, target)])
  {
    var source, target := AgentIdentity(Get(e.payload, "source_agent")), AgentIdentity(Get(e.payload, "target_agent"));
    if source.Some? && target.Some? && source == s.active {
      match HandoffGrant(p.grants, source.value, target.value)
      case None =>
      case Some(g) =>
        AcceptanceByGrant(s.authority, g);
        if Attenuate(s.authority, g).1 == [] {
          assert Permitted(p, s, e, source.value, target.value, g);
        }
    }
  }

  /** Why a handoff is refused: the first of its faults, or each way in which its grant widens the authority. */
  ghost predicate Refuses(reason: Reason, p: Policy, s: PathState, e: Event) {
    match reason
    case MissingIdentity =>
      || (forall source :: !NamesAgent(e, "source_agent", source))
      || (forall target :: !NamesAgent(e, "target_agent", target))
    case NotActive =>
      exists source, target ::
        && NamesAgent(e, "source_agent", source) && NamesAgent(e, "target_agent", target) && s.active != Some(source)
    case Unauthorized =>
      exists source, target ::
        && NamesAgent(e, "source_agent", source) && NamesAgent(e, "target_agent", target) && s.active == Some(source)
        && forall g | g in p.grants :: !(g.source == source && g.target == target)
    case _ =>
      exists source, target, g ::
        && NamesAgent(e, "source_agent", source) && NamesAgent(e, "target_agent", target) && s.active == Some(source)
        && HandoffGrant(p.grants, source, target) == Some(g) && Widens(reason, s.authority, g)
  }

  ghost predicate Widens(reason: Reason, a: EffectiveAuthority, g: Grant) {
    match reason
    case BroadensTools => exists tool :: tool in g.tools && tool !in a.tools
    case BroadensResources =>
      exists r: ResourceIdentifier, i | r.components != [] && 0 <= i < |g.scopes| ::
        ContainsIdentifier(g.scopes[i], r) && !a.AuthorizesResource(r)
    case BroadensToolCalls => g.maxToolCalls > a.maxToolCalls
    case BroadensHandoffs => g.maxHandoffs > a.maxHandoffs
    case _ => false
  }

  lemma AcceptanceByGrant(a: EffectiveAuthority, g: Grant)
    ensures Attenuate(a, g).1 == [] <==> WithinSource(g, a)
  {
    AttenuationRefuses(a, g);
    if WithinSource(g, a) {
      forall r: ResourceIdentifier | r.components != [] && Child(a, g).AuthorizesResource(r)
        ensures a.AuthorizesResource(r)
      {
        var i :| 0 <= i < |g.scopes| && ContainsIdentifier(g.scopes[i], r);
      }
    } else {
      forall r: ResourceIdentifier, i | r.components != [] && 0 <= i < |g.scopes| && ContainsIdentifier(g.scopes[i], r)
        ensures Child(a, g).AuthorizesResource(r)
      {
      }
    }
  }

  lemma IdentityMeaning(e: Event, key: string, agent: string)
    ensures NamesAgent(e, key, agent) <==> AgentIdentity(Get(e.payload, key)) == Some(agent)
  {
  }

  /** Scopes lie within others exactly when every resource they reach is reached by these. */
  lemma ScopesMeaning(a: EffectiveAuthority, g: Grant)
    ensures ScopesWithin(g.scopes, a.scopes) <==> !Widens(BroadensResources, a, g)
  {
    var bare := g.(tools := {}, maxToolCalls := 0, maxHandoffs := 0);
    AcceptanceByGrant(a, bare);
    assert Attenuate(a, bare).1 == [] <==> ScopesWithin(g.scopes, a.scopes);
  }

  lemma GrantRefusals(a: EffectiveAuthority, g: Grant, reason: Reason)
    ensures reason in Attenuate(a, g).1 <==> Widens(reason, a, g)
  {
    ScopesMeaning(a, g);
  }

  /** The reasons that a handoff is refused for are exactly those that hold of it. */
  lemma RefusalReasons(p: Policy, s: PathState, e: Event, reason: Reason)
    requires e.kind.Handoff?
    ensures reason in AdvanceHandoff(p, s, e).1 <==> Refuses(reason, p, s, e)
  {
    var source, target := AgentIdentity(Get(e.payload, "source_agent")), AgentIdentity(Get(e.payload, "target_agent"));
    forall agent
      ensures NamesAgent(e, "source_agent", agent) <==> source == Some(agent)
      ensures NamesAgent(e, "target_agent", agent) <==> target == Some(agent)
    {
      IdentityMeaning(e, "source_agent", agent);
      IdentityMeaning(e, "target_agent", agent);
    }
    if source.Some? && target.Some? {
      assert NamesAgent(e, "source_agent", source.value) && NamesAgent(e, "target_agent", target.value);
      var found := HandoffGrant(p.grants, source.value, target.value);
      if source == s.active && found.Some? {
        GrantRefusals(s.authority, found.value, reason);
      }
    }
  }

  /** Along a trace, from the root with an empty path, the state moves at the permitted handoffs and nowhere else. */
  lemma StateFollowsPermittedHandoffs(p: Policy, events: seq<Event>, k: nat)
    ensures var start := StateBefore(p, events, 0);
            start.root == p.rootAgent && start.active == p.rootAgent && start.transitions == []
    ensures var s, t := StateBefore(p, events, k), StateBefore(p, events, k + 1);
            if k < |events| && events[k].kind.Handoff?
               && exists source, target, g :: Permitted(p, s, events[k], source, target, g)
            then forall source, target, g | Permitted(p, s, events[k], source, target, g) ::
                   t.root == s.root && t.active == Some(target) && t.transitions == s.transitions + [(source, target)]
            else t == s
  {
    if !p.HasHandoffAuthority() {
      Frozen(p, events, k);
      Frozen(p, events, k + 1);
    } else if k < |events| && events[k].kind.Handoff? {
      HandoffAcceptance(p, StateBefore(p, events, k), events[k]);
    }
  }
}
