/** The iterative budget walk of evidence/limits.py.

    Python containers are modelled by identity: a heap maps each identity to the container it names, so
    one container may be referenced from several places and may reference itself. The reference
    definition is the unfolding of a value, a finite tree in which every alias is repeated by value.
    `ValidateJsonMaterial` accepts exactly the values whose unfolding exists and fits the budget. */
module MaterialBudget {
  import opened Wrappers
  import PointerPath

  datatype Budget = Budget(maxDepth: int, maxNodes: int, maxUtf8Bytes: int)

  const MAX_INTEGER_DIGITS := 4_096
  const MAX_INTEGER_BITS := 13_607

  type Id = nat

  /** A Python string is a sequence of code points, lone surrogates included. */
  type Text = seq<nat>

  datatype Value =
    | Null
    | True
    | False
    | Str(text: Text)
    | Int(value: int)
    | Float(finite: bool)
    | Ref(id: Id)
    | Unsupported

  datatype Key = TextKey(text: Text) | OtherKey

  datatype Container =
    | Dict(entries: seq<(Key, Value)>)
    | List(items: seq<Value>)

  type Heap = map<Id, Container>

  function Children(c: Container): seq<Value> {
    match c
    case Dict(entries) => seq(|entries|, i requires 0 <= i < |entries| => entries[i].1)
    case List(items) => items
  }

  function Keys(c: Container): seq<Key> {
    match c
    case Dict(entries) => seq(|entries|, i requires 0 <= i < |entries| => entries[i].0)
    case List(_) => []
  }

  predicate Known(h: Heap, v: Value) {
    v.Ref? ==> v.id in h
  }

  /** Every reference held by a container names a container: Python has no dangling references. */
  ghost predicate Closed(h: Heap) {
    forall id | id in h :: forall v | v in Children(h[id]) :: Known(h, v)
  }

  // ---------------------------------------------------------------- sizes of scalars and keys

  predicate Surrogate(point: nat) {
    0xD800 <= point <= 0xDFFF
  }

  predicate Encodable(text: Text) {
    forall i | 0 <= i < |text| :: !Surrogate(text[i])
  }

  function PointBytes(point: nat): nat {
    if point < 0x80 then 1 else if point < 0x800 then 2 else if point < 0x1_0000 then 3 else 4
  }

  function Utf8Length(text: Text): (n: nat)
    ensures |text| <= n
  {
    if text == [] then 0 else Utf8Length(text[..|text| - 1]) + PointBytes(text[|text| - 1])
  }

  function Magnitude(n: int): nat { if n < 0 then -n else n }

  /** int.bit_length */
  function BitLength(n: nat): nat {
    if n == 0 then 0 else BitLength(n / 2) + 1
  }

  /** Bytes charged for a scalar, or None when the walk must refuse it. */
  function ScalarBytes(v: Value): Option<nat>
    requires !v.Ref?
  {
    match v
    case Null => Some(4)
    case True => Some(4)
    case False => Some(5)
    case Str(text) => if Encodable(text) then Some(Utf8Length(text)) else None
    case Int(n) =>
      var digits := |PointerPath.Decimal(Magnitude(n))|;
      if BitLength(Magnitude(n)) <= MAX_INTEGER_BITS && digits <= MAX_INTEGER_DIGITS
      then Some(digits + if n < 0 then 1 else 0) else None
    case Float(finite) => if finite then Some(24) else None
    case Unsupported => None
  }

  function KeyBytes(keys: seq<Key>): Option<nat> {
    if keys == [] then Some(0)
    else
      var last := keys[|keys| - 1];
      var rest := KeyBytes(keys[..|keys| - 1]);
      if rest.Some? && last.TextKey? && Encodable(last.text)
      then Some(rest.value + Utf8Length(last.text)) else None
  }

  lemma {:induction false} KeyBytesPrefix(keys: seq<Key>, n: nat)
    requires n <= |keys| && KeyBytes(keys).Some?
    ensures KeyBytes(keys[..n]).Some? && KeyBytes(keys[..n]).value <= KeyBytes(keys).value
  {
    if n == |keys| {
      assert keys[..n] == keys;
    } else {
      KeyBytesPrefix(keys[..|keys| - 1], n);
      assert keys[..|keys| - 1][..n] == keys[..n];
    }
  }

  /** The bytes of one more key, and how they bound those of all keys. */
  lemma KeyBytesStep(keys: seq<Key>, i: nat)
    requires i < |keys|
    ensures KeyBytes(keys[..i + 1]).Some? <==> KeyBytes(keys[..i]).Some? && keys[i].TextKey? && Encodable(keys[i].text)
    ensures KeyBytes(keys[..i + 1]).Some?
        ==> KeyBytes(keys[..i + 1]).value == KeyBytes(keys[..i]).value + Utf8Length(keys[i].text)
    ensures KeyBytes(keys).Some? ==>
              KeyBytes(keys[..i + 1]).Some? && KeyBytes(keys[..i + 1]).value <= KeyBytes(keys).value
  {
    assert keys[..i + 1][..i] == keys[..i];
    if KeyBytes(keys).Some? {
      KeyBytesPrefix(keys, i + 1);
    }
  }

  // ---------------------------------------------------------------- the reference definition

  /** The unfolding of a value: no identities, aliases repeated by value. */
  datatype Tree = Leaf(value: Value) | Branch(keys: seq<Key>, kids: seq<Tree>)

  ghost predicate Unfolds(h: Heap, v: Value, t: Tree)
    decreases t
  {
    match t
    case Leaf(w) => !v.Ref? && w == v
    case Branch(keys, kids) => v.Ref? && v.id in h && keys == Keys(h[v.id]) && UnfoldsAll(h, Children(h[v.id]), kids)
  }

  ghost predicate UnfoldsAll(h: Heap, vs: seq<Value>, ts: seq<Tree>)
    decreases ts
  {
    |vs| == |ts| &&
    (ts != [] ==>
       var n := |ts| - 1;
       UnfoldsAll(h, vs[..n], ts[..n]) && Unfolds(h, vs[n], ts[n]))
  }

  predicate Admitted(t: Tree) {
    match t
    case Leaf(v) => !v.Ref? && ScalarBytes(v).Some?
    case Branch(keys, kids) => KeyBytes(keys).Some? && AllAdmitted(kids)
  }

  predicate AllAdmitted(ts: seq<Tree>) {
    ts != [] ==> AllAdmitted(ts[..|ts| - 1]) && Admitted(ts[|ts| - 1])
  }

  function NodeCount(t: Tree): nat {
    match t
    case Leaf(_) => 1
    case Branch(_, kids) => 1 + NodeCounts(kids)
  }

  function NodeCounts(ts: seq<Tree>): nat {
    if ts == [] then 0 else NodeCounts(ts[..|ts| - 1]) + NodeCount(ts[|ts| - 1])
  }

  function ByteCount(t: Tree): nat
    requires Admitted(t)
  {
    match t
    case Leaf(v) => ScalarBytes(v).value
    case Branch(keys, kids) => KeyBytes(keys).value + ByteCounts(kids)
  }

  function ByteCounts(ts: seq<Tree>): nat
    requires AllAdmitted(ts)
  {
    if ts == [] then 0 else ByteCounts(ts[..|ts| - 1]) + ByteCount(ts[|ts| - 1])
  }

  function Max(a: nat, b: nat): nat { if a < b then b else a }

  /** Number of edges from the root to the deepest node. */
  function Height(t: Tree): nat {
    match t
    case Leaf(_) => 0
    case Branch(_, kids) => Heights(kids)
  }

  function Heights(ts: seq<Tree>): nat {
    if ts == [] then 0 else Max(Heights(ts[..|ts| - 1]), 1 + Height(ts[|ts| - 1]))
  }

  predicate Fits(t: Tree, b: Budget) {
    Admitted(t) && Height(t) <= b.maxDepth && NodeCount(t) <= b.maxNodes && ByteCount(t) <= b.maxUtf8Bytes
  }

  /** What the walk is for: the value has a finite unfolding and that unfolding fits the budget. */
  ghost predicate Acceptable(h: Heap, v: Value, b: Budget) {
    exists t: Tree :: Unfolds(h, v, t) && Fits(t, b)
  }

  // ---------------------------------------------------------------- recursive measure

  datatype Size = Size(nodes: nat, bytes: nat, height: nat)

  /** Size of the unfolding of v below the ancestors `active`; None for a cycle or refused material. */
  function Measure(h: Heap, v: Value, active: set<Id>): Option<Size>
    decreases h.Keys - active, 0
  {
    if !v.Ref? then
      var bytes := ScalarBytes(v);
      if bytes.Some? then Some(Size(1, bytes.value, 0)) else None
    else if v.id !in h || v.id in active then None
    else
      var keys := KeyBytes(Keys(h[v.id]));
      var kids := MeasureAll(h, Children(h[v.id]), active + {v.id});
      if keys.Some? && kids.Some?
      then Some(Size(1 + kids.value.nodes, keys.value + kids.value.bytes, kids.value.height)) else None
  }

  function MeasureAll(h: Heap, vs: seq<Value>, active: set<Id>): Option<Size>
    decreases h.Keys - active, |vs| + 1
  {
    if vs == [] then Some(Size(0, 0, 0))
    else
      WithLast(MeasureAll(h, vs[..|vs| - 1], active), Measure(h, vs[|vs| - 1], active))
  }

  function WithLast(rest: Option<Size>, last: Option<Size>): Option<Size> {
    if rest.Some? && last.Some?
    then Some(Size(rest.value.nodes + last.value.nodes, rest.value.bytes + last.value.bytes,
                   Max(rest.value.height, 1 + last.value.height)))
    else None
  }

  lemma MeasureSnoc(h: Heap, vs: seq<Value>, v: Value, active: set<Id>)
    ensures MeasureAll(h, vs + [v], active) == WithLast(MeasureAll(h, vs, active), Measure(h, v, active))
  {
    assert (vs + [v])[..|vs|] == vs;
  }

  // ---------------------------------------------------------------- measure agrees with unfolding

  ghost predicate HasSize(t: Tree, s: Size) {
    Admitted(t) && s == Size(NodeCount(t), ByteCount(t), Height(t))
  }

  ghost predicate HaveSize(ts: seq<Tree>, s: Size) {
    AllAdmitted(ts) && s == Size(NodeCounts(ts), ByteCounts(ts), Heights(ts))
  }

  lemma {:induction false} MeasureGivesTree(h: Heap, v: Value, active: set<Id>) returns (t: Tree)
    requires Measure(h, v, active).Some?
    ensures Unfolds(h, v, t) && HasSize(t, Measure(h, v, active).value)
    decreases h.Keys - active, 0
  {
    if v.Ref? {
      var kids := MeasureAllGivesTrees(h, Children(h[v.id]), active + {v.id});
      t := Branch(Keys(h[v.id]), kids);
    } else {
      t := Leaf(v);
    }
  }

  lemma UnfoldsSnoc(h: Heap, vs: seq<Value>, v: Value, ts: seq<Tree>, t: Tree)
    requires UnfoldsAll(h, vs, ts) && Unfolds(h, v, t)
    ensures UnfoldsAll(h, vs + [v], ts + [t])
  {
    assert (vs + [v])[..|vs|] == vs && (ts + [t])[..|ts|] == ts;
  }

  lemma SizesSnoc(ts: seq<Tree>, t: Tree)
    ensures NodeCounts(ts + [t]) == NodeCounts(ts) + NodeCount(t)
    ensures Heights(ts + [t]) == Max(Heights(ts), 1 + Height(t))
    ensures AllAdmitted(ts + [t]) == (AllAdmitted(ts) && Admitted(t))
    ensures AllAdmitted(ts) && Admitted(t) ==> ByteCounts(ts + [t]) == ByteCounts(ts) + ByteCount(t)
  {
    assert (ts + [t])[..|ts|] == ts;
  }

  lemma {:induction false} MeasureAllGivesTrees(h: Heap, vs: seq<Value>, active: set<Id>) returns (ts: seq<Tree>)
    requires MeasureAll(h, vs, active).Some?
    ensures UnfoldsAll(h, vs, ts) && HaveSize(ts, MeasureAll(h, vs, active).value)
    decreases h.Keys - active, |vs| + 1
  {
    if vs == [] {
      ts := [];
    } else {
      var front, v := vs[..|vs| - 1], vs[|vs| - 1];
      assert vs == front + [v];
      MeasureSnoc(h, front, v, active);
      var rest := MeasureAllGivesTrees(h, front, active);
      var last := MeasureGivesTree(h, v, active);
      ts := rest + [last];
      UnfoldsSnoc(h, front, v, rest, last);
      HaveSizeSnoc(rest, last, MeasureAll(h, front, active).value, Measure(h, v, active).value);
    }
  }

  lemma {:induction false} UnfoldingUnique(h: Heap, v: Value, t: Tree, u: Tree)
    requires Unfolds(h, v, t) && Unfolds(h, v, u)
    ensures t == u
    decreases t
  {
    if v.Ref? {
      UnfoldingsUnique(h, Children(h[v.id]), t.kids, u.kids);
    }
  }

  lemma {:induction false} UnfoldingsUnique(h: Heap, vs: seq<Value>, ts: seq<Tree>, us: seq<Tree>)
    requires UnfoldsAll(h, vs, ts) && UnfoldsAll(h, vs, us)
    ensures ts == us
    decreases ts
  {
    if ts != [] {
      var n := |ts| - 1;
      UnfoldingsUnique(h, vs[..n], ts[..n], us[..n]);
      UnfoldingUnique(h, vs[n], ts[n], us[n]);
      assert ts == ts[..n] + [ts[n]] && us == us[..n] + [us[n]];
    }
  }

  /** Every ancestor unfolds to a strictly larger tree, so a finite unfolding never meets an ancestor. */
  ghost predicate LargerAncestors(h: Heap, active: set<Id>, trees: map<Id, Tree>, bound: nat) {
    forall a | a in active :: a in trees && Unfolds(h, Ref(a), trees[a]) && NodeCount(trees[a]) > bound
  }

  /** A container that unfolds joins its ancestors. */
  lemma JoinsAncestors(h: Heap, id: Id, t: Tree, active: set<Id>, trees: map<Id, Tree>)
    requires Unfolds(h, Ref(id), t) && LargerAncestors(h, active, trees, NodeCount(t))
    ensures id !in active && t.Branch? && LargerAncestors(h, active + {id}, trees[id := t], NodeCounts(t.kids))
  {
    if id in active {
      UnfoldingUnique(h, Ref(id), t, trees[id]);
    }
  }

  lemma {:induction false} TreeGivesMeasure(h: Heap, v: Value, t: Tree, active: set<Id>, trees: map<Id, Tree>)
    requires Unfolds(h, v, t) && Admitted(t) && LargerAncestors(h, active, trees, NodeCount(t))
    ensures Measure(h, v, active).Some? && HasSize(t, Measure(h, v, active).value)
    decreases t
  {
    if v.Ref? {
      JoinsAncestors(h, v.id, t, active, trees);
      TreesGiveMeasure(h, Children(h[v.id]), t.kids, active + {v.id}, trees[v.id := t]);
    }
  }

  lemma LargerForLess(h: Heap, active: set<Id>, trees: map<Id, Tree>, bound: nat, less: nat)
    requires LargerAncestors(h, active, trees, bound) && less <= bound
    ensures LargerAncestors(h, active, trees, less)
  {
  }

  lemma UnfoldsSplit(h: Heap, vs: seq<Value>, v: Value, ts: seq<Tree>, t: Tree)
    requires UnfoldsAll(h, vs + [v], ts + [t])
    ensures UnfoldsAll(h, vs, ts) && Unfolds(h, v, t)
  {
    assert |vs| == |ts|;
    assert (vs + [v])[..|vs|] == vs && (ts + [t])[..|ts|] == ts;
  }

  /** One more child of known size. */
  lemma HaveSizeSnoc(ts: seq<Tree>, t: Tree, front: Size, last: Size)
    requires HaveSize(ts, front) && HasSize(t, last)
    ensures HaveSize(ts + [t], WithLast(Some(front), Some(last)).value)
  {
    SizesSnoc(ts, t);
  }

  lemma BoundsSplit(h: Heap, ts: seq<Tree>, t: Tree, active: set<Id>, trees: map<Id, Tree>)
    requires LargerAncestors(h, active, trees, NodeCounts(ts + [t]))
    ensures LargerAncestors(h, active, trees, NodeCounts(ts)) && LargerAncestors(h, active, trees, NodeCount(t))
  {
    SizesSnoc(ts, t);
    LargerForLess(h, active, trees, NodeCounts(ts + [t]), NodeCounts(ts));
    LargerForLess(h, active, trees, NodeCounts(ts + [t]), NodeCount(t));
  }

  lemma {:induction false} TreesGiveMeasure(h: Heap, vs: seq<Value>, ts: seq<Tree>, active: set<Id>, trees: map<Id,
      Tree>)
    requires UnfoldsAll(h, vs, ts) && AllAdmitted(ts)
    requires LargerAncestors(h, active, trees, NodeCounts(ts))
    ensures MeasureAll(h, vs, active).Some? && HaveSize(ts, MeasureAll(h, vs, active).value)
    decreases ts
  {
    if ts == [] {
      assert MeasureAll(h, [], active) == Some(Size(0, 0, 0));
    } else {
      var n := |ts| - 1;
      var us, u, ws, w := ts[..n], ts[n], vs[..n], vs[n];
      assert ts == us + [u] && vs == ws + [w];
      UnfoldsSplit(h, ws, w, us, u);
      BoundsSplit(h, us, u, active, trees);
      SizesSnoc(us, u);
      TreesGiveMeasure(h, ws, us, active, trees);
      TreeGivesMeasure(h, w, u, active, trees);
      MeasureSnoc(h, ws, w, active);
      HaveSizeSnoc(us, u, MeasureAll(h, ws, active).value, Measure(h, w, active).value);
    }
  }

  /** Containers along references, each holding the next. */
  ghost predicate Trail(h: Heap, trail: seq<Id>) {
    && (forall i | 0 <= i < |trail| :: trail[i] in h)
    && (forall i | 0 <= i < |trail| - 1 :: Ref(trail[i + 1]) in Children(h[trail[i]]))
  }

  lemma {:induction false} KidAt(h: Heap, vs: seq<Value>, ts: seq<Tree>, i: nat)
    requires UnfoldsAll(h, vs, ts) && i < |vs|
    ensures |ts| == |vs| && Unfolds(h, vs[i], ts[i]) && NodeCount(ts[i]) <= NodeCounts(ts)
    decreases |ts|
  {
    var n := |ts| - 1;
    if i < n {
      KidAt(h, vs[..n], ts[..n], i);
    }
  }

  /** Along references the unfoldings get smaller. */
  lemma {:induction false} UnfoldingShrinks(h: Heap, trail: seq<Id>, t: Tree) returns (u: Tree)
    requires Trail(h, trail) && |trail| > 1 && Unfolds(h, Ref(trail[0]), t)
    ensures Unfolds(h, Ref(trail[|trail| - 1]), u) && NodeCount(u) < NodeCount(t)
    decreases |trail|
  {
    var vs := Children(h[trail[0]]);
    assert Ref(trail[0 + 1]) in vs;
    var i :| 0 <= i < |vs| && vs[i] == Ref(trail[1]);
    KidAt(h, vs, t.kids, i);
    u := t.kids[i];
    if |trail| > 2 {
      assert forall k | 0 <= k < |trail| - 1 :: trail[1..][k] == trail[k + 1];
      u := UnfoldingShrinks(h, trail[1..], u);
    }
  }

  /** A container that is reached again from itself has no unfolding, so the walk refuses it whatever the budget. */
  lemma CycleIsRefused(h: Heap, trail: seq<Id>, b: Budget)
    requires Trail(h, trail) && |trail| > 1 && trail[0] == trail[|trail| - 1]
    ensures !Acceptable(h, Ref(trail[0]), b)
  {
    forall t | Unfolds(h, Ref(trail[0]), t) ensures false {
      var u := UnfoldingShrinks(h, trail, t);
      UnfoldingUnique(h, Ref(trail[0]), t, u);
    }
  }

  predicate SizeFits(s: Option<Size>, b: Budget) {
    s.Some? && s.value.height <= b.maxDepth && s.value.nodes <= b.maxNodes && s.value.bytes <= b.maxUtf8Bytes
  }

  /** The recursive measure decides acceptability. */
  lemma MeasureDecides(h: Heap, v: Value, b: Budget)
    ensures Acceptable(h, v, b) <==> SizeFits(Measure(h, v, {}), b)
  {
    if Measure(h, v, {}).Some? {
      var t := MeasureGivesTree(h, v, {});
      forall u | Unfolds(h, v, u) ensures u == t {
        UnfoldingUnique(h, v, u, t);
      }
    } else {
      forall u | Unfolds(h, v, u) && Fits(u, b) ensures false {
        TreeGivesMeasure(h, v, u, {}, map[]);
      }
    }
  }

  // ---------------------------------------------------------------- the explicit stack

  datatype Entry = Visit(value: Value, depth: nat) | Exit(id: Id)

  /** Containers that have been entered but not left: the exit markers on the stack. */
  function Entered(stack: seq<Entry>): set<Id> {
    if stack == [] then {}
    else
      var rest := Entered(stack[..|stack| - 1]);
      var top := stack[|stack| - 1];
      if top.Exit? then rest + {top.id} else rest
  }

  predicate DistinctExits(stack: seq<Entry>) {
    stack != [] ==>
      var rest := stack[..|stack| - 1];
      var top := stack[|stack| - 1];
      DistinctExits(rest) && (top.Exit? ==> top.id !in Entered(rest))
  }

  /** The innermost container still open, if any. */
  function Innermost(stack: seq<Entry>): Option<Id> {
    if stack == [] then None
    else
      var top := stack[|stack| - 1];
      if top.Exit? then Some(top.id) else Innermost(stack[..|stack| - 1])
  }

  function Subject(e: Entry): Value {
    match e case Visit(v, _) => v case Exit(id) => Ref(id)
  }

  /** Each entry is the root or a child of the innermost container open below it. Hence, for the entry
      on top, the exit markers below it are exactly its chain of ancestors. */
  ghost predicate Lineage(h: Heap, root: Value, stack: seq<Entry>) {
    stack != [] ==>
      var rest := stack[..|stack| - 1];
      var v := Subject(stack[|stack| - 1]);
      && Lineage(h, root, rest)
      && match Innermost(rest)
         case None => v == root
         case Some(parent) => parent in h && v in Children(h[parent])
  }

  datatype Charge = Charge(nodes: nat, bytes: nat)

  /** Nodes and bytes still to be charged for a stack, None if any pending visit must be refused. */
  function Pending(h: Heap, stack: seq<Entry>, maxDepth: int): Option<Charge> {
    if stack == [] then Some(Charge(0, 0))
    else
      var rest := stack[..|stack| - 1];
      var below := Pending(h, rest, maxDepth);
      match stack[|stack| - 1]
      case Exit(_) => below
      case Visit(v, depth) => AddSize(below, Measure(h, v, Entered(rest)), depth, maxDepth)
  }

  function AddSize(below: Option<Charge>, s: Option<Size>, depth: nat, maxDepth: int): Option<Charge> {
    if below.Some? && s.Some? && depth + s.value.height <= maxDepth
    then Some(Charge(below.value.nodes + s.value.nodes, below.value.bytes + s.value.bytes)) else None
  }

  predicate ChargeFits(p: Option<Charge>, nodes: int, bytes: int, b: Budget) {
    p.Some? && nodes + p.value.nodes <= b.maxNodes && bytes + p.value.bytes <= b.maxUtf8Bytes
  }

  predicate StackFits(h: Heap, stack: seq<Entry>, nodes: int, bytes: int, b: Budget) {
    ChargeFits(Pending(h, stack, b.maxDepth), nodes, bytes, b)
  }

  function Visits(vs: seq<Value>, depth: nat): seq<Entry> {
    seq(|vs|, i requires 0 <= i < |vs| => Visit(vs[i], depth))
  }

  lemma PushVisit(h: Heap, stack: seq<Entry>, v: Value, depth: nat, maxDepth: int)
    ensures var pushed := stack + [Visit(v, depth)];
            && Entered(pushed) == Entered(stack)
            && DistinctExits(pushed) == DistinctExits(stack)
            && Innermost(pushed) == Innermost(stack)
            && Pending(h, pushed, maxDepth)
               == AddSize(Pending(h, stack, maxDepth), Measure(h, v, Entered(stack)), depth, maxDepth)
  {
    var pushed := stack + [Visit(v, depth)];
    assert pushed[..|pushed| - 1] == stack;
  }

  lemma VisitsSnoc(base: seq<Entry>, vs: seq<Value>, depth: nat)
    requires vs != []
    ensures var n := |vs| - 1;
            base + Visits(vs, depth) == (base + Visits(vs[..n], depth)) + [Visit(vs[n], depth)]
  {
  }

  /** Pushing the children of an open container leaves the open set as it was. */
  lemma {:induction false} PushedShape(h: Heap, base: seq<Entry>, vs: seq<Value>, depth: nat)
    ensures var stack := base + Visits(vs, depth);
            && Entered(stack) == Entered(base)
            && DistinctExits(stack) == DistinctExits(base)
            && Innermost(stack) == Innermost(base)
  {
    if vs == [] {
      assert base + Visits(vs, depth) == base;
    } else {
      var n := |vs| - 1;
      PushedShape(h, base, vs[..n], depth);
      VisitsSnoc(base, vs, depth);
      PushVisit(h, base + Visits(vs[..n], depth), vs[n], depth, 0);
    }
  }

  lemma {:induction false} PushedLineage(h: Heap, root: Value, base: seq<Entry>, vs: seq<Value>, depth: nat, id: Id)
    requires Lineage(h, root, base) && Innermost(base) == Some(id) && id in h
    requires forall v | v in vs :: v in Children(h[id])
    ensures Lineage(h, root, base + Visits(vs, depth))
  {
    var stack := base + Visits(vs, depth);
    if vs == [] {
      assert stack == base;
    } else {
      var n := |vs| - 1;
      PushedLineage(h, root, base, vs[..n], depth, id);
      PushedShape(h, base, vs[..n], depth);
      assert stack[..|stack| - 1] == base + Visits(vs[..n], depth);
      assert vs[n] in vs;
    }
  }

  /** Pushing the children of a container accounts for exactly the measure of those children. */
  lemma {:induction false} PushedPending(h: Heap, base: seq<Entry>, vs: seq<Value>, depth: nat, maxDepth: int)
    requires depth <= maxDepth
    ensures Pending(h, base + Visits(vs, depth + 1), maxDepth)
         == AddSize(Pending(h, base, maxDepth), MeasureAll(h, vs, Entered(base)), depth, maxDepth)
  {
    if vs == [] {
      assert base + Visits(vs, depth + 1) == base;
    } else {
      var n := |vs| - 1;
      PushedPending(h, base, vs[..n], depth, maxDepth);
      PushedShape(h, base, vs[..n], depth + 1);
      VisitsSnoc(base, vs, depth + 1);
      PushVisit(h, base + Visits(vs[..n], depth + 1), vs[n], depth + 1, maxDepth);
      SplitSize(h, vs, Entered(base), Pending(h, base, maxDepth), depth, maxDepth);
    }
  }

  lemma SplitSize(h: Heap, vs: seq<Value>, active: set<Id>, below: Option<Charge>, depth: nat, maxDepth: int)
    requires vs != []
    ensures AddSize(below, MeasureAll(h, vs, active), depth, maxDepth)
         == AddSize(AddSize(below, MeasureAll(h, vs[..|vs| - 1], active), depth, maxDepth),
                    Measure(h, vs[|vs| - 1], active), depth + 1, maxDepth)
  {
  }

  /** Every child pending below an open container costs at least one node. */
  lemma {:induction false} AtLeastOneNodeEach(h: Heap, vs: seq<Value>, active: set<Id>)
    requires MeasureAll(h, vs, active).Some?
    ensures MeasureAll(h, vs, active).value.nodes >= |vs|
  {
    if vs != [] {
      AtLeastOneNodeEach(h, vs[..|vs| - 1], active);
    }
  }

  // ---------------------------------------------------------------- the walk

  lemma ExitPending(h: Heap, rest: seq<Entry>, id: Id, maxDepth: int)
    ensures var base := rest + [Exit(id)];
            Pending(h, base, maxDepth) == Pending(h, rest, maxDepth) && Entered(base) == Entered(rest) + {id}
  {
    assert (rest + [Exit(id)])[..|rest|] == rest;
  }

  /** The measure of a container from those of its keys and children. */
  function ContainerSize(keys: Option<nat>, kids: Option<Size>): Option<Size> {
    if keys.Some? && kids.Some? then Some(Size(1 + kids.value.nodes, keys.value + kids.value.bytes,
        kids.value.height)) else None
  }

  /** Charging a container and its keys at once, or first them and then its children, comes to the same. */
  lemma ChargeInTwoSteps(below: Option<Charge>, keys: Option<nat>, kids: Option<Size>, children: nat, depth: nat,
      b: Budget, nodes: nat, bytes: nat)
    requires kids.Some? ==> kids.value.nodes >= children
    ensures var whole, parts := AddSize(below, ContainerSize(keys, kids), depth, b.maxDepth),
        AddSize(below, kids, depth, b.maxDepth);
            && ChargeFits(whole, nodes, bytes, b) == (keys.Some? && ChargeFits(parts, nodes + 1, bytes + keys.value, b))
            && (ChargeFits(whole, nodes, bytes, b) ==>
                  keys.Some? && children <= b.maxNodes - nodes - 1 && bytes + keys.value <= b.maxUtf8Bytes)
  {
  }

  /** What is pending when a container is about to be visited. */
  lemma PendingVisit(h: Heap, rest: seq<Entry>, id: Id, depth: nat, maxDepth: int)
    requires id in h && id !in Entered(rest)
    ensures Pending(h, rest + [Visit(Ref(id), depth)], maxDepth)
         == AddSize(Pending(h, rest, maxDepth),
                    ContainerSize(KeyBytes(Keys(h[id])), MeasureAll(h, Children(h[id]), Entered(rest) + {id})), depth,
                        maxDepth)
  {
    PushVisit(h, rest, Ref(id), depth, maxDepth);
  }

  /** What is pending when it has been entered. */
  lemma PendingChildren(h: Heap, rest: seq<Entry>, id: Id, depth: nat, maxDepth: int)
    requires id in h && depth <= maxDepth
    ensures Pending(h, rest + [Exit(id)] + Visits(Children(h[id]), depth + 1), maxDepth)
         == AddSize(Pending(h, rest, maxDepth), MeasureAll(h, Children(h[id]), Entered(rest) + {id}), depth, maxDepth)
  {
    ExitPending(h, rest, id, maxDepth);
    PushedPending(h, rest + [Exit(id)], Children(h[id]), depth, maxDepth);
  }

  /** Entering a container moves its own node and its keys from pending to charged. */
  lemma EnterContainer(h: Heap, rest: seq<Entry>, id: Id, depth: nat, b: Budget, nodes: nat, bytes: nat)
    requires id in h && id !in Entered(rest) && depth <= b.maxDepth
    ensures var keys := KeyBytes(Keys(h[id]));
            var stack := rest + [Exit(id)] + Visits(Children(h[id]), depth + 1);
            && StackFits(h, rest + [Visit(Ref(id), depth)], nodes, bytes, b)
               == (keys.Some? && StackFits(h, stack, nodes + 1, bytes + keys.value, b))
            && (StackFits(h, rest + [Visit(Ref(id), depth)], nodes, bytes, b) ==>
                  keys.Some? && |Children(h[id])| <= b.maxNodes - nodes - 1 && bytes + keys.value <= b.maxUtf8Bytes)
  {
    var keys, kids := KeyBytes(Keys(h[id])), MeasureAll(h, Children(h[id]), Entered(rest) + {id});
    var below, children := Pending(h, rest, b.maxDepth), Children(h[id]);
    assert kids.Some? ==> kids.value.nodes >= |children| by {
      if kids.Some? { AtLeastOneNodeEach(h, children, Entered(rest) + {id}); }
    }
    ChargeInTwoSteps(below, keys, kids, |children|, depth, b, nodes, bytes);
    assert Pending(h, rest + [Visit(Ref(id), depth)], b.maxDepth)
        == AddSize(below, ContainerSize(keys, kids), depth, b.maxDepth) by {
      PendingVisit(h, rest, id, depth, b.maxDepth);
    }
    assert Pending(h, rest + [Exit(id)] + Visits(children, depth + 1), b.maxDepth)
        == AddSize(below, kids, depth, b.maxDepth) by {
      PendingChildren(h, rest, id, depth, b.maxDepth);
    }
  }

  /** A visit that is refused, or a budget already overrun, settles the verdict. */
  lemma TopVisit(h: Heap, rest: seq<Entry>, v: Value, depth: nat, b: Budget, nodes: nat, bytes: nat)
    ensures var stack := rest + [Visit(v, depth)];
            StackFits(h, stack, nodes, bytes, b) ==>
              var s := Measure(h, v, Entered(rest));
              && s.Some? && s.value.nodes >= 1 && depth + s.value.height <= b.maxDepth
              && nodes + s.value.nodes <= b.maxNodes && bytes + s.value.bytes <= b.maxUtf8Bytes
    ensures !v.Ref? && ScalarBytes(v).Some? && depth <= b.maxDepth ==>
              StackFits(h, rest + [Visit(v, depth)], nodes, bytes, b)
              == StackFits(h, rest, nodes + 1, bytes + ScalarBytes(v).value, b)
  {
    var stack := rest + [Visit(v, depth)];
    assert stack[..|stack| - 1] == rest;
  }

  /** The inner loops: charge the keys of one container and push its children for a visit. */
  method OpenContainer(c: Container, base: seq<Entry>, depth: nat, charged: nat, b: Budget)
    returns (ok: bool, stack: seq<Entry>, bytes: nat)
    ensures ok ==> KeyBytes(Keys(c)).Some? && bytes == charged + KeyBytes(Keys(c)).value
    ensures ok ==> stack == base + Visits(Children(c), depth + 1)
    ensures !ok ==> KeyBytes(Keys(c)).Some? ==> charged + KeyBytes(Keys(c)).value > b.maxUtf8Bytes
  {
    var children, keys := Children(c), Keys(c);
    ok, stack, bytes := true, base, charged;
    for i := 0 to |children|
      invariant c.Dict? ==> KeyBytes(keys[..i]).Some? && bytes == charged + KeyBytes(keys[..i]).value
      invariant c.List? ==> bytes == charged
      invariant stack == base + Visits(children[..i], depth + 1)
    {
      if c.Dict? {
        var key := keys[i];
        KeyBytesStep(keys, i);
        if key.OtherKey? || |key.text| > b.maxUtf8Bytes || !Encodable(key.text) {
          return false, stack, bytes;
        }
        bytes := bytes + Utf8Length(key.text);
        if bytes > b.maxUtf8Bytes {
          return false, stack, bytes;
        }
      }
      VisitsSnoc(base, children[..i + 1], depth + 1);
      assert children[..i + 1][..i] == children[..i];
      stack := stack + [Visit(children[i], depth + 1)];
    }
    assert children[..|children|] == children && keys[..|keys|] == keys;
  }

  /** An opened container keeps the shape of the stack. */
  lemma OpenShape(h: Heap, root: Value, rest: seq<Entry>, id: Id, depth: nat)
    requires Closed(h) && id in h && id !in Entered(rest) && DistinctExits(rest)
    requires Lineage(h, root, rest + [Visit(Ref(id), depth)])
    ensures var stack := rest + [Exit(id)] + Visits(Children(h[id]), depth + 1);
            && Entered(stack) == Entered(rest) + {id}
            && DistinctExits(stack) && Lineage(h, root, stack)
  {
    var visited := rest + [Visit(Ref(id), depth)];
    assert visited[..|visited| - 1] == rest;
    var base := rest + [Exit(id)];
    assert base[..|base| - 1] == rest;
    PushedShape(h, base, Children(h[id]), depth + 1);
    PushedLineage(h, root, base, Children(h[id]), depth + 1, id);
  }

  /** What the loop keeps: the active set is the set of open containers, no container is open twice, and
      every entry is a child of the innermost container open below it. */
  ghost predicate WalkState(h: Heap, root: Value, stack: seq<Entry>, active: set<Id>) {
    active == Entered(stack) && DistinctExits(stack) && Lineage(h, root, stack)
  }

  lemma PopEntry(h: Heap, root: Value, rest: seq<Entry>, top: Entry, active: set<Id>)
    requires Closed(h) && Known(h, root) && WalkState(h, root, rest + [top], active)
    ensures WalkState(h, root, rest, if top.Exit? then active - {top.id} else active)
    ensures Known(h, Subject(top))
  {
    var stack := rest + [top];
    assert stack[..|stack| - 1] == rest;
  }

  /** Visiting a container: its keys are charged and its children pushed. */
  method VisitContainer(h: Heap, ghost root: Value, rest: seq<Entry>, open: set<Id>, id: Id, depth: nat, nodes: nat,
      charged: nat, b: Budget)
    returns (ok: bool, stack: seq<Entry>, bytes: nat)
    requires Closed(h) && id in h && id !in open && 1 <= nodes <= b.maxNodes && depth <= b.maxDepth
    requires WalkState(h, root, rest + [Visit(Ref(id), depth)], open) && DistinctExits(rest) && open == Entered(rest)
    ensures !ok ==> !StackFits(h, rest + [Visit(Ref(id), depth)], nodes - 1, charged, b)
    ensures ok ==> WalkState(h, root, stack, open + {id})
    ensures ok ==> StackFits(h, stack, nodes, bytes, b)
                   == StackFits(h, rest + [Visit(Ref(id), depth)], nodes - 1, charged, b)
  {
    stack, bytes := rest, charged;
    EnterContainer(h, rest, id, depth, b, nodes - 1, charged);
    if |Children(h[id])| > b.maxNodes - nodes {
      return false, stack, bytes;
    }
    OpenShape(h, root, rest, id, depth);
    ok, stack, bytes := OpenContainer(h[id], rest + [Exit(id)], depth, bytes, b);
  }

  /** One visit, its node already charged. */
  method VisitValue(h: Heap, ghost root: Value, rest: seq<Entry>, open: set<Id>, v: Value, depth: nat,
                    nodes: nat, charged: nat, b: Budget)
    returns (ok: bool, stack: seq<Entry>, active: set<Id>, bytes: nat)
    requires Closed(h) && Known(h, root) && Known(h, v) && 1 <= nodes <= b.maxNodes && depth <= b.maxDepth
    requires WalkState(h, root, rest + [Visit(v, depth)], open)
    ensures !ok ==> !StackFits(h, rest + [Visit(v, depth)], nodes - 1, charged, b)
    ensures ok ==> WalkState(h, root, stack, active) && bytes <= b.maxUtf8Bytes
    ensures ok ==> StackFits(h, stack, nodes, bytes, b)
                   == StackFits(h, rest + [Visit(v, depth)], nodes - 1, charged, b)
  {
    stack, active, bytes := rest, open, charged;
    TopVisit(h, rest, v, depth, b, nodes - 1, charged);
    PopVisit(h, root, rest, v, depth, open);
    if v.Ref? {
      if v.id in active {
        return false, stack, active, bytes;
      }
      active := active + {v.id};
      ok, stack, bytes := VisitContainer(h, root, rest, open, v.id, depth, nodes, bytes, b);
      if !ok {
        return false, stack, active, bytes;
      }
    } else {
      var size := ScalarBytes(v);
      if (v.Str? && |v.text| > b.maxUtf8Bytes) || size.None? {
        return false, stack, active, bytes;
      }
      bytes := bytes + size.value;
    }
    ok := bytes <= b.maxUtf8Bytes;
  }

  lemma PopVisit(h: Heap, root: Value, rest: seq<Entry>, v: Value, depth: nat, active: set<Id>)
    requires Closed(h) && Known(h, root) && WalkState(h, root, rest + [Visit(v, depth)], active)
    ensures WalkState(h, root, rest, active)
  {
    PopEntry(h, root, rest, Visit(v, depth), active);
  }

  lemma PopExit(h: Heap, rest: seq<Entry>, id: Id, b: Budget, nodes: nat, bytes: nat)
    ensures StackFits(h, rest + [Exit(id)], nodes, bytes, b) == StackFits(h, rest, nodes, bytes, b)
  {
    var stack := rest + [Exit(id)];
    assert stack[..|stack| - 1] == rest;
  }

  /** One visit, with its checks of depth and nodes. */
  method VisitEntry(h: Heap, ghost root: Value, rest: seq<Entry>, open: set<Id>, v: Value, depth: nat,
                    nodes: nat, charged: nat, b: Budget)
    returns (ok: bool, stack: seq<Entry>, active: set<Id>, bytes: nat)
    requires Closed(h) && Known(h, root) && Known(h, v) && WalkState(h, root, rest + [Visit(v, depth)], open)
    ensures !ok ==> !StackFits(h, rest + [Visit(v, depth)], nodes, charged, b)
    ensures ok ==> WalkState(h, root, stack, active) && nodes + 1 <= b.maxNodes && bytes <= b.maxUtf8Bytes
    ensures ok ==> StackFits(h, stack, nodes + 1, bytes, b)
                   == StackFits(h, rest + [Visit(v, depth)], nodes, charged, b)
  {
    TopVisit(h, rest, v, depth, b, nodes, charged);
    if depth > b.maxDepth || nodes + 1 > b.maxNodes {
      return false, rest, open, charged;
    }
    ok, stack, active, bytes := VisitValue(h, root, rest, open, v, depth, nodes + 1, charged, b);
  }

  /** validate_json_material: true for acceptance, false for ResourceLimitError (or UnicodeEncodeError). */
  method ValidateJsonMaterial(h: Heap, value: Value, b: Budget) returns (accepted: bool)
    requires Closed(h) && Known(h, value)
    ensures accepted <==> Acceptable(h, value, b)
  {
    MeasureDecides(h, value, b);
    var stack := [Visit(value, 0)];
    var active: set<Id> := {};
    var nodes: nat, bytes: nat := 0, 0;
    PushVisit(h, [], value, 0, b.maxDepth);
    assert stack == [] + [Visit(value, 0)];
    while stack != []
      invariant WalkState(h, value, stack, active)
      invariant Acceptable(h, value, b) == StackFits(h, stack, nodes, bytes, b)
      invariant stack != [Visit(value, 0)] ==> nodes <= b.maxNodes && bytes <= b.maxUtf8Bytes
      decreases b.maxNodes + 1 - nodes, |stack|
    {
      var current := stack[|stack| - 1];
      ghost var before := stack;
      stack := stack[..|stack| - 1];
      assert before == stack + [current];
      PopEntry(h, value, stack, current, active);
      match current
      case Exit(id) =>
        PopExit(h, stack, id, b, nodes, bytes);
        active := active - {id};
      case Visit(v, depth) =>
        var ok: bool;
        ok, stack, active, bytes := VisitEntry(h, value, stack, active, v, depth, nodes, bytes, b);
        nodes := nodes + 1;
        if !ok {
          return false;
        }
    }
    accepted := true;
  }
}
