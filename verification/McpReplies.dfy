/** What the MCP server and the model hand to the drift recorders: arbitrary replies, any of which may raise. */
module McpReplies {
  import opened Wrappers
  import opened Sequences

  datatype Reply<+T> = Raised | Returned(value: T)

  /** A tool of a listing. `schema` is its JSON input schema when it has one inside the controlled contract. */
  datatype Tool = Tool(name: Option<string>, schema: Option<string>)

  datatype CallResult = CallResult(isError: bool, text: Option<string>)

  /** The replies to one controlled call, in the order in which a recorder asks for them. */
  datatype Replies = Replies(control: Reply<CallResult>, cached: Reply<seq<Tool>>, result: Reply<CallResult>,
      invalidated: bool)

  /** What a recorder keeps of one controlled call. */
  datatype Attempt = Attempt(tool: Option<string>, arguments: Option<string>, isError: Option<bool>,
      text: Option<string>)

  const NO_ATTEMPT := Attempt(None, None, None, None)

  predicate Lists(tools: seq<Tool>, name: string) {
    exists i | 0 <= i < |tools| :: tools[i].name == Some(name)
  }

  function NamesOf(tools: seq<Tool>, name: string): seq<string> {
    var found := Filter((t: Tool) => t.name == Some(name), tools);
    seq(|found|, i => name)
  }

  /** Python's order on strings: by code points. */
  predicate LessOrEqual(a: string, b: string) {
    a == "" || (b != "" && (a[0] < b[0] || (a[0] == b[0] && LessOrEqual(a[1..], b[1..]))))
  }

  /** The listed names among two, sorted. */
  function ControlledNames(tools: seq<Tool>, one: string, other: string): seq<string> {
    if one == other then NamesOf(tools, one)
    else if LessOrEqual(one, other) then NamesOf(tools, one) + NamesOf(tools, other)
    else NamesOf(tools, other) + NamesOf(tools, one)
  }

  // ---------------------------------------------------------------- positions in a history

  /** The first position from `lo` on that satisfies the condition. */
  function NextAt<E>(f: E -> bool, h: seq<E>, lo: nat): (k: Option<nat>)
    ensures k.Some? ==> lo <= k.value < |h| && f(h[k.value]) && forall j | lo <= j < k.value :: !f(h[j])
    ensures k.None? ==> forall j | lo <= j < |h| :: !f(h[j])
  {
    if |h| <= lo then None
    else
      var n := |h| - 1;
      var earlier := NextAt(f, h[..n], lo);
      if earlier.Some? then earlier else if f(h[n]) then Some(n) else None
  }

  lemma NextSnoc<E>(f: E -> bool, h: seq<E>, e: E, lo: nat)
    ensures NextAt(f, h + [e], lo)
         == if NextAt(f, h, lo).Some? then NextAt(f, h, lo) else if lo <= |h| && f(e) then Some(|h|) else None
  {
    assert (h + [e])[..|h|] == h;
  }

  /** The first position after k that satisfies the condition, when k is a position. */
  function Then<E>(f: E -> bool, h: seq<E>, k: Option<nat>): (next: Option<nat>)
    ensures next.Some? ==> k.Some? && k.value < next.value < |h| && f(h[next.value])
    ensures next.Some? ==> forall j | k.value < j < next.value :: !f(h[j])
    ensures next.None? && k.Some? ==> forall j | k.value < j < |h| :: !f(h[j])
  {
    if k.None? then None else NextAt(f, h, k.value + 1)
  }

  lemma ThenSnoc<E>(f: E -> bool, h: seq<E>, e: E, k: Option<nat>)
    ensures k.Some? && k.value < |h| ==>
              Then(f, h + [e], k) == if Then(f, h, k).Some? then Then(f, h, k) else if f(e) then Some(|h|) else None
    ensures k == Some(|h|) ==> Then(f, h + [e], k) == None
  {
    if k.Some? { NextSnoc(f, h, e, k.value + 1); }
  }

  /** The later of two positions, when both are there. */
  function Later(a: Option<nat>, b: Option<nat>): Option<nat> {
    if a.None? || b.None? then None else if a.value < b.value then b else a
  }

  /** The listing has exactly one tool of the two names, and it is the first of them. */
  ghost predicate ShowsOnly(tools: seq<Tool>, name: string, other: string) {
    exists i | 0 <= i < |tools| ::
      && tools[i].name == Some(name)
      && forall j | 0 <= j < |tools| :: tools[j].name == Some(name) || tools[j].name == Some(other) ==> j == i
  }

  /** No tool of the listing has the name. */
  predicate Lacks(tools: seq<Tool>, name: string) {
    forall i | 0 <= i < |tools| :: tools[i].name != Some(name)
  }

  lemma NamesOfNone(tools: seq<Tool>, name: string)
    ensures NamesOf(tools, name) == [] <==> Lacks(tools, name)
  {
    var f := (t: Tool) => t.name == Some(name);
    if Lacks(tools, name) {
      FilterNone(f, tools);
    } else {
      var i :| 0 <= i < |tools| && tools[i].name == Some(name);
      FilterFinds(f, tools, i);
    }
  }

  lemma NamesOfOne(tools: seq<Tool>, name: string)
    ensures NamesOf(tools, name) == [name] <==> ShowsOnly(tools, name, name)
  {
    var f := (t: Tool) => t.name == Some(name);
    if NamesOf(tools, name) == [name] {
      var i := FilterSingle(f, tools);
      assert tools[i].name == Some(name);
    }
    if ShowsOnly(tools, name, name) {
      var i :| && 0 <= i < |tools| && tools[i].name == Some(name)
               && forall j | 0 <= j < |tools| :: tools[j].name == Some(name) || tools[j].name == Some(name) ==> j == i;
      FilterOne(f, tools, i);
    }
  }

  /** The sorted list of controlled names is the one name exactly when the listing shows only it. */
  lemma ControlledMeaning(tools: seq<Tool>, one: string, other: string, name: string)
    requires name == one || name == other
    ensures ControlledNames(tools, one, other) == [name]
       <==> ShowsOnly(tools, name, if name == one then other else one)
  {
    var rest := if name == one then other else one;
    NamesOfOne(tools, name);
    NamesOfNone(tools, name);
    NamesOfNone(tools, rest);
    if one != other {
      var all := ControlledNames(tools, one, other);
      assert all == NamesOf(tools, name) + NamesOf(tools, rest) || all == NamesOf(tools, rest) + NamesOf(tools, name);
      if all == [name] {
        assert all[0] == name && |all| == 1;
        assert NamesOf(tools, rest) == [] && NamesOf(tools, name) == [name];
      }
      if ShowsOnly(tools, name, rest) {
        assert Lacks(tools, rest) && ShowsOnly(tools, name, name);
        assert [] + [name] == [name] && [name] + [] == [name];
      }
      if NamesOf(tools, rest) == [] && NamesOf(tools, name) == [name] {
        assert ShowsOnly(tools, name, rest);
      }
    }
  }
}
