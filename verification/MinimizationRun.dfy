/** The minimizer as it runs (evidence/minimization.py:217-548): counters that are checked at every step, loops
    over paths, events and children, and early refusals. It computes what EvidenceMinimization defines by sums
    that are compared with the ceilings once, at the end. */
module MinimizationRun {
  import opened Wrappers
  import opened PointerPath
  import opened Sequences
  import opened Minimization
  import opened EvidenceMinimization

  /** _TraversalBudget and _RedactionCounts. */
  class Traversal {
    const limit: nat
    const maxRedactions: nat
    var visited: nat
    var credential: nat
    var operatorPii: nat

    constructor (limit: nat, maxRedactions: nat)
      ensures this.limit == limit && this.maxRedactions == maxRedactions
      ensures visited == 0 && credential == 0 && operatorPii == 0
    {
      this.limit, this.maxRedactions := limit, maxRedactions;
      visited, credential, operatorPii := 0, 0, 0;
    }

    predicate Within()
      reads this
    {
      visited <= limit && credential + operatorPii <= maxRedactions
    }

    method Consume() returns (ok: bool)
      modifies this`visited
      ensures visited == old(visited) + 1 && (ok <==> visited <= limit)
    {
      visited := visited + 1;
      ok := visited <= limit;
    }

    method AddCredential() returns (ok: bool)
      modifies this`credential
      ensures credential == old(credential) + 1 && (ok <==> credential + operatorPii <= maxRedactions)
    {
      credential := credential + 1;
      ok := credential + operatorPii <= maxRedactions;
    }

    method AddOperatorPii() returns (ok: bool)
      modifies this`operatorPii
      ensures operatorPii == old(operatorPii) + 1 && (ok <==> credential + operatorPii <= maxRedactions)
    {
      operatorPii := operatorPii + 1;
      ok := credential + operatorPii <= maxRedactions;
    }
  }

  // ---------------------------------------------------------------- searching for credentials

  lemma {:induction false} SizePrefix(children: seq<Json>, i: nat)
    requires i <= |children|
    ensures SizeAll(children[..i]) <= SizeAll(children)
    ensures i < |children| ==> SizeAll(children[..i + 1]) == SizeAll(children[..i]) + Size(children[i])
  {
    if i < |children| {
      assert children[..i + 1][..i] == children[..i];
      var n := |children| - 1;
      SizePrefix(children[..n], if i < n then i else n);
      assert i < n ==> children[..n][..i] == children[..i];
      assert children[..n][..n] == children[..n];
    } else {
      assert children[..i] == children;
    }
  }

  /** _contains_credential: Some(false) exactly when the value holds no credential and fits in the budget. */
  method ContainsCredential(det: Detectors, json: Json, named: bool, t: Traversal) returns (found: Option<bool>)
    requires t.Within()
    modifies t`visited
    ensures found == Some(false) <==> !Contains(det, json, named) && old(t.visited) + Size(json) <= t.limit
    ensures found == Some(false) ==> t.visited == old(t.visited) + Size(json)
    ensures found == Some(true) ==> Contains(det, json, named)
    decreases json, 0
  {
    var ok := t.Consume();
    if !ok {
      return None;
    }
    if named {
      return Some(true);
    }
    match json
    case Container(keys, children) => found := AnyContainsCredential(det, keys, children, t);
    case Text(s) => found := Some(s == CREDENTIAL_MARKER || det.credential(s));
    case _ => found := Some(false);
  }

  method AnyContainsCredential(det: Detectors, keys: Option<seq<string>>, children: seq<Json>, t: Traversal)
      returns (found: Option<bool>)
    requires t.Within()
    modifies t`visited
    ensures found == Some(false) <==>
              && (forall j | 0 <= j < |children| :: !Contains(det, children[j], Named(det, keys, j)))
              && old(t.visited) + SizeAll(children) <= t.limit
    ensures found == Some(false) ==> t.visited == old(t.visited) + SizeAll(children)
    ensures found == Some(true) ==> exists j | 0 <= j < |children| :: Contains(det, children[j], Named(det, keys, j))
    decreases children, 1
  {
    for i := 0 to |children|
      invariant t.visited == old(t.visited) + SizeAll(children[..i]) && t.Within()
      invariant forall j | 0 <= j < i :: !Contains(det, children[j], Named(det, keys, j))
    {
      SizePrefix(children, i);
      SizePrefix(children, i + 1);
      var inner := ContainsCredential(det, children[i], Named(det, keys, i), t);
      if inner != Some(false) {
        return inner;
      }
    }
    assert children[..|children|] == children;
    found := Some(false);
  }

  // ---------------------------------------------------------------- transforming credentials

  /** A step that was refused, or that does not fit under the ceilings from where the counters were. */
  ghost predicate Refused<T>(o: Option<Step<T>>, t: Traversal, visited: nat, marked: nat) {
    o.None? || visited + o.value.cost > t.limit || marked + o.value.marks > t.maxRedactions
  }

  /** A step that was taken: its value, and how far the counters moved. */
  ghost predicate Taken<T>(o: Option<Step<T>>, value: T, visited: nat, marked: nat, visited': nat, marked': nat) {
    && o.Some? && o.value.value == value
    && visited' == visited + o.value.cost && marked' == marked + o.value.marks
  }

  lemma {:induction false} TransformPrefix(det: Detectors, keys: Option<seq<string>>, children: seq<Json>,
      allow: bool, i: nat)
    requires i <= |children| && TransformAll(det, keys, children, allow).Some?
    ensures TransformAll(det, keys, children[..i], allow).Some?
    ensures TransformAll(det, keys, children[..i], allow).value.cost
        <= TransformAll(det, keys, children, allow).value.cost
    ensures TransformAll(det, keys, children[..i], allow).value.marks
        <= TransformAll(det, keys, children, allow).value.marks
    decreases |children|
  {
    if i < |children| {
      var n := |children| - 1;
      TransformPrefix(det, keys, children[..n], allow, i);
      assert children[..n][..i] == children[..i];
    } else {
      assert children[..i] == children;
    }
  }

  method TransformString(det: Detectors, s: string, allow: bool, t: Traversal) returns (r: Option<string>)
    requires t.Within()
    modifies t`credential
    ensures r.None? <==> Refused(TransformText(det, s, allow), t, old(t.visited), old(t.credential + t.operatorPii))
    ensures r.Some? ==>
              t.Within() && Taken(TransformText(det, s, allow), r.value, 0, old(t.credential), 0, t.credential)
  {
    if s == CREDENTIAL_MARKER {
      var ok := t.AddCredential();
      return if ok then Some(s) else None;
    }
    if !det.credential(s) {
      return Some(s);
    }
    if !allow {
      return None;
    }
    var ok := t.AddCredential();
    r := if ok then Some(CREDENTIAL_MARKER) else None;
  }

  /** _transform_credentials */
  method TransformCredentials(det: Detectors, json: Json, allow: bool, t: Traversal) returns (r: Option<Json>)
    requires t.Within()
    modifies t`visited, t`credential
    ensures r.None? <==> Refused(Transform(det, json, allow), t, old(t.visited), old(t.credential + t.operatorPii))
    ensures r.Some? ==>
              t.Within() && Taken(Transform(det, json, allow), r.value, old(t.visited), old(t.credential), t.visited,
                  t.credential)
    decreases json, 0
  {
    var ok := t.Consume();
    if !ok {
      return None;
    }
    match json
    case Container(keys, children) =>
      var transformed := TransformChildren(det, keys, children, allow, t);
      r := if transformed.Some? then Some(Container(keys, transformed.value)) else None;
    case Text(s) =>
      var text := TransformString(det, s, allow, t);
      r := if text.Some? then Some(Text(text.value)) else None;
    case _ => r := Some(json);
  }

  /** If one more child is refused, so are all of them together. */
  lemma RefusedChild(det: Detectors, keys: Option<seq<string>>, children: seq<Json>, allow: bool, i: nat,
      t: Traversal, visited: nat, marked: nat)
    requires i < |children| && TransformAll(det, keys, children[..i], allow).Some?
    requires var front := TransformAll(det, keys, children[..i], allow).value;
             Refused(TransformChild(det, Named(det, keys, i), children[i], allow), t, visited + front.cost,
                 marked + front.marks)
    ensures Refused(TransformAll(det, keys, children, allow), t, visited, marked)
  {
    assert children[..i + 1][..i] == children[..i];
    if TransformAll(det, keys, children, allow).Some? {
      TransformPrefix(det, keys, children, allow, i + 1);
    }
  }

  method TransformChildren(det: Detectors, keys: Option<seq<string>>, children: seq<Json>, allow: bool, t: Traversal)
    returns (r: Option<seq<Json>>)
    requires t.Within()
    modifies t`visited, t`credential
    ensures r.None? <==> Refused(TransformAll(det, keys, children, allow), t, old(t.visited),
        old(t.credential + t.operatorPii))
    ensures r.Some? ==>
              t.Within() && Taken(TransformAll(det, keys, children, allow), r.value, old(t.visited),
                  old(t.credential), t.visited, t.credential)
    decreases children, 0
  {
    var transformed: seq<Json> := [];
    for i := 0 to |children|
      invariant t.Within()
      invariant Taken(TransformAll(det, keys, children[..i], allow), transformed, old(t.visited), old(t.credential),
          t.visited, t.credential)
    {
      ghost var visited, marked := t.visited, t.credential + t.operatorPii;
      var child;
      if Named(det, keys, i) {
        child := ReplaceNamed(children[i], allow, t);
      } else {
        child := TransformCredentials(det, children[i], allow, t);
      }
      if child.None? {
        RefusedChild(det, keys, children, allow, i, t, old(t.visited), old(t.credential + t.operatorPii));
        return None;
      }
      assert children[..i + 1][..i] == children[..i];
      transformed := transformed + [child.value];
    }
    assert children[..|children|] == children;
    r := Some(transformed);
  }

  /** A child under a credential-named key. */
  method ReplaceNamed(child: Json, allow: bool, t: Traversal) returns (r: Option<Json>)
    requires t.Within()
    modifies t`credential
    ensures r.None? <==> (!allow && child != CREDENTIAL) || old(t.credential + t.operatorPii) + 1 > t.maxRedactions
    ensures r.Some? ==> t.Within() && r.value == CREDENTIAL && t.credential == old(t.credential) + 1
  {
    if !allow && child != CREDENTIAL {
      return None;
    }
    var ok := t.AddCredential();
    r := if ok then Some(CREDENTIAL) else None;
  }

  // ---------------------------------------------------------------- one declared path

  /** `parent` is what the child positions lead to. */
  ghost predicate Reaches(root: Json, positions: seq<nat>, parent: Json)
    decreases |positions|
  {
    if positions == [] then root == parent
    else
      && root.Container? && positions[0] < |root.children|
      && Reaches(root.children[positions[0]], positions[1..], parent)
  }

  /** The root with the value at the positions replaced. */
  function Rebuilt(root: Json, positions: seq<nat>, json: Json): Json
    decreases |positions|
  {
    if positions == [] then json
    else if root.Container? && positions[0] < |root.children| then
      Put(root, positions[0], Rebuilt(root.children[positions[0]], positions[1..], json))
    else root
  }

  lemma {:induction false} ReachesDeeper(root: Json, positions: seq<nat>, parent: Json, i: nat)
    requires Reaches(root, positions, parent) && parent.Container? && i < |parent.children|
    ensures Reaches(root, positions + [i], parent.children[i])
    ensures forall json :: Rebuilt(root, positions + [i], json) == Rebuilt(root, positions, Put(parent, i, json))
    decreases |positions|
  {
    if positions == [] {
      assert ([i])[1..] == [];
    } else {
      assert (positions + [i])[1..] == positions[1..] + [i];
      ReachesDeeper(root.children[positions[0]], positions[1..], parent, i);
    }
  }

  lemma {:induction false} RebuiltSame(root: Json, positions: seq<nat>, parent: Json)
    requires Reaches(root, positions, parent)
    ensures Rebuilt(root, positions, parent) == root
    decreases |positions|
  {
    if positions != [] {
      RebuiltSame(root.children[positions[0]], positions[1..], parent);
    }
  }

  /** The outcome at the root, from the outcome at the parent that the walk has reached. */
  function Outward(root: Json, positions: seq<nat>, inner: Option<Step<Json>>): Option<Step<Json>> {
    match inner
    case None => None
    case Some(step) => Some(Step(Rebuilt(root, positions, step.value), |positions| + step.cost, step.marks))
  }

  /** _redact_declared_path: the walk to the parent, then the replacement in it. */
  method RedactDeclaredPath(det: Detectors, root: Json, tail: seq<string>, allow: bool, t: Traversal)
      returns (r: Option<Json>)
    requires tail != [] && t.Within()
    modifies t`visited, t`operatorPii
    ensures r.None? <==> Refused(Redact(det, root, tail, allow), t, old(t.visited), old(t.credential + t.operatorPii))
    ensures r.Some? ==>
              t.Within() && Taken(Redact(det, root, tail, allow), r.value, old(t.visited), old(t.operatorPii),
                  t.visited, t.operatorPii)
  {
    var parent, k := root, 0;
    var positions: seq<nat> := [];
    assert tail[0..] == tail;
    while k < |tail| - 1
      invariant 0 <= k < |tail| && |positions| == k && Reaches(root, positions, parent)
      invariant t.Within() && t.visited == old(t.visited) + k && t.operatorPii == old(t.operatorPii)
      invariant Redact(det, root, tail, allow) == Outward(root, positions, Redact(det, parent, tail[k..], allow))
    {
      var segment := tail[k];
      var ok := t.Consume();
      if !ok {
        return None;
      }
      var resolved := Find(parent, segment);
      if resolved.Failure? {
        return None;
      }
      RebuiltSame(root, positions, parent);
      if resolved.value.None? {
        return Some(root);
      }
      var i := resolved.value.value;
      assert tail[k..][1..] == tail[k + 1..];
      ReachesDeeper(root, positions, parent, i);
      parent, positions, k := parent.children[i], positions + [i], k + 1;
    }
    r := ReplaceTarget(det, root, positions, parent, tail[k], allow, t);
    assert tail[k..] == [tail[k]];
  }

  /** The last segment. */
  method ReplaceTarget(det: Detectors, root: Json, positions: seq<nat>, parent: Json, segment: string, allow: bool,
      t: Traversal)
    returns (r: Option<Json>)
    requires t.Within() && Reaches(root, positions, parent)
    modifies t`visited, t`operatorPii
    ensures r.None? <==> Refused(Redact(det, parent, [segment], allow), t, old(t.visited),
        old(t.credential + t.operatorPii))
    ensures r.Some? ==>
              && t.Within() && Redact(det, parent, [segment], allow).Some?
              && var step := Redact(det, parent, [segment], allow).value;
                 && r.value == Rebuilt(root, positions, step.value)
                 && t.visited == old(t.visited) + step.cost && t.operatorPii == old(t.operatorPii) + step.marks
  {
    var ok := t.Consume();
    if !ok {
      return None;
    }
    var resolved := Find(parent, segment);
    if resolved.Failure? {
      return None;
    }
    if resolved.value.None? {
      RebuiltSame(root, positions, parent);
      return Some(root);
    }
    if !allow {
      return None;
    }
    var i := resolved.value.value;
    var found := ContainsCredential(det, parent.children[i], det.sensitive(segment), t);
    if found != Some(false) {
      return None;
    }
    ok := t.AddOperatorPii();
    r := if ok then Some(Rebuilt(root, positions, Put(parent, i, PII))) else None;
  }

  // ---------------------------------------------------------------- the whole record

  lemma {:induction false} RedactPrefix(det: Detectors, r: Record, places: seq<Place>, more: seq<Place>)
    requires AllFit(r, places) && AllFit(r, more)
    ensures AllFit(r, places + more)
    ensures RedactAll(det, r, places + more).Some? ==>
              && RedactAll(det, r, places).Some?
              && RedactAll(det, r, places).value.cost <= RedactAll(det, r, places + more).value.cost
              && RedactAll(det, r, places).value.marks <= RedactAll(det, r, places + more).value.marks
  {
    if more == [] {
      assert places + more == places;
    } else {
      var n := |more| - 1;
      assert Fits(r, more[n]);
      RedactPrefix(det, r, places, more[..n]);
      RedactSnoc(det, r, places + more[..n], more[n]);
      assert places + more == places + more[..n] + [more[n]];
    }
  }

  /** The record after the places so far, with the counters that belong to it. */
  ghost predicate Redacted(det: Detectors, r0: Record, done: seq<Place>, r: Record, t: Traversal)
    reads t
  {
    && AllFit(r0, done) && t.Within() && t.credential == 0
    && RedactAll(det, r0, done) == Some(Step(r, t.visited, t.operatorPii))
  }

  ghost predicate Stopped(det: Detectors, r0: Record, places: seq<Place>, t: Traversal) {
    AllFit(r0, places) && Refused(RedactAll(det, r0, places), t, 0, 0)
  }

  /** What one more place does to the list so far, from the step that was taken or refused there. */
  lemma OneMorePlace(det: Detectors, r0: Record, done: seq<Place>, r: Record, a: Place, visited: nat, marks: nat)
    requires AllFit(r0, done) && Fits(r0, a) && Fits(r, a) && RedactAll(det, r0, done) == Some(Step(r, visited, marks))
    ensures AllFit(r0, done + [a])
    ensures RedactAll(det, r0, done + [a]) ==
            match RedactPlace(det, r, a)
            case None => None
            case Some(o) => Some(Step(o.value, visited + o.cost, marks + o.marks))
  {
    RedactSnoc(det, r0, done, a);
  }

  /** One place of a declared path, on its own. */
  method RedactThere(det: Detectors, r: Record, a: Place, t: Traversal) returns (o: Option<Record>)
    requires t.Within() && Fits(r, a)
    modifies t`visited, t`operatorPii
    ensures o.None? <==> Refused(RedactPlace(det, r, a), t, old(t.visited), old(t.credential + t.operatorPii))
    ensures o.Some? ==>
              t.Within() && Taken(RedactPlace(det, r, a), o.value, old(t.visited), old(t.operatorPii), t.visited,
                  t.operatorPii)
  {
    if a.slot.Final? {
      o := RedactFinalOutput(det, r, t);
    } else {
      var json := RedactDeclaredPath(det, SlotJson(r, a), a.tail, AllowedAt(r, a), t);
      o := if json.Some? then Some(WithSlot(r, a, json.value)) else None;
    }
  }

  /** One place of a declared path, after others. */
  method RedactAt(det: Detectors, ghost r0: Record, ghost done: seq<Place>, r: Record, a: Place, t: Traversal)
    returns (o: Option<Record>)
    requires Redacted(det, r0, done, r, t) && Fits(r0, a) && Fits(r, a)
    modifies t`visited, t`operatorPii
    ensures o.None? ==> Stopped(det, r0, done + [a], t)
    ensures o.Some? ==> Redacted(det, r0, done + [a], o.value, t) && |o.value.events| == |r.events|
  {
    OneMorePlace(det, r0, done, r, a, t.visited, t.operatorPii);
    o := RedactThere(det, r, a, t);
  }

  method RedactFinalOutput(det: Detectors, r: Record, t: Traversal) returns (o: Option<Record>)
    requires t.Within()
    modifies t`visited, t`operatorPii
    ensures o.None? <==> Refused(RedactOutput(det, r), t, old(t.visited), old(t.credential + t.operatorPii))
    ensures o.Some? ==>
              t.Within() && Taken(RedactOutput(det, r), o.value, old(t.visited), old(t.operatorPii), t.visited,
                  t.operatorPii)
  {
    if r.finalOutput.None? {
      return Some(r);
    }
    var ok := t.Consume();
    if !ok || det.credential(r.finalOutput.value) {
      return None;
    }
    ok := t.AddOperatorPii();
    o := if ok then Some(r.(finalOutput := Some(PII_MARKER))) else None;
  }

  /** A refusal at one place refuses every list that goes on from there. */
  lemma StoppedEarly(det: Detectors, r0: Record, done: seq<Place>, rest: seq<Place>, t: Traversal)
    requires Stopped(det, r0, done, t) && AllFit(r0, rest)
    ensures Stopped(det, r0, done + rest, t)
  {
    RedactPrefix(det, r0, done, rest);
  }

  /** A refusal at one event refuses the whole wildcard path. */
  lemma StoppedAtEvent(det: Detectors, r0: Record, done: seq<Place>, places: seq<Place>, i: nat, t: Traversal)
    requires i <= |places| && AllFit(r0, places) && Stopped(det, r0, done + places[..i], t)
    ensures Stopped(det, r0, done + places, t)
  {
    var front, rest := places[..i], places[i..];
    StoppedEarly(det, r0, done + front, rest, t);
    Associative(done, front, rest);
    assert front + rest == places;
  }

  /** A path with the wildcard: every event in turn. */
  method RedactEveryEvent(det: Detectors, ghost r0: Record, ghost done: seq<Place>, r: Record, tail: seq<string>,
                          ghost places: seq<Place>, t: Traversal)
    returns (o: Option<Record>)
    requires Redacted(det, r0, done, r, t) && tail != [] && |r.events| == |r0.events|
    requires places == Places(Path(Events(None), tail), |r0.events|)
    modifies t`visited, t`operatorPii
    ensures o.None? ==> Stopped(det, r0, done + places, t)
    ensures o.Some? ==> Redacted(det, r0, done + places, o.value, t) && |o.value.events| == |r0.events|
  {
    var current := r;
    assert done + places[..0] == done;
    for index := 0 to |r.events|
      invariant |current.events| == |r0.events|
      invariant Redacted(det, r0, done + places[..index], current, t)
    {
      var a := Place(Payload(index), tail);
      assert places[..index + 1] == places[..index] + [a];
      Associative(done, places[..index], [a]);
      var next := RedactAt(det, r0, done + places[..index], current, a, t);
      if next.None? {
        StoppedAtEvent(det, r0, done, places, index + 1, t);
        return None;
      }
      current := next.value;
    }
    assert places[..|r.events|] == places;
    o := Some(current);
  }

  /** One declared path; an event index past the end selects nothing. */
  method RedactPath(det: Detectors, ghost r0: Record, ghost done: seq<Place>, r: Record, p: Path, t: Traversal)
    returns (o: Option<Record>)
    requires Redacted(det, r0, done, r, t) && WellFormed(p) && |r.events| == |r0.events|
    modifies t`visited, t`operatorPii
    ensures o.None? ==> Stopped(det, r0, done + Places(p, |r0.events|), t)
    ensures o.Some? ==> Redacted(det, r0, done + Places(p, |r0.events|), o.value, t) && |o.value.events| == |r0.events|
  {
    match p.scope
    case FinalOutput => o := RedactAt(det, r0, done, r, Place(Final, []), t);
    case FinalState => o := RedactAt(det, r0, done, r, Place(State, p.tail), t);
    case Events(None) => o := RedactEveryEvent(det, r0, done, r, p.tail, Places(p, |r0.events|), t);
    case Events(Some(index)) =>
      if index < |r.events| {
        o := RedactAt(det, r0, done, r, Place(Payload(index), p.tail), t);
      } else {
        assert done + [] == done;
        o := Some(r);
      }
  }

  lemma PathSnoc(paths: seq<Path>, i: nat, n: nat)
    requires i < |paths|
    ensures AllPlaces(paths[..i + 1], n) == AllPlaces(paths[..i], n) + Places(paths[i], n)
  {
    PlacesSnoc(paths[..i], paths[i], n);
    assert paths[..i + 1] == paths[..i] + [paths[i]];
  }

  lemma SplitPlaces(paths: seq<Path>, i: nat, r: Record)
    requires i <= |paths| && forall k | 0 <= k < |paths| :: WellFormed(paths[k])
    ensures AllFit(r, AllPlaces(paths[i..], |r.events|))
    ensures AllPlaces(paths, |r.events|) == AllPlaces(paths[..i], |r.events|) + AllPlaces(paths[i..], |r.events|)
  {
    PlacesFit(paths[i..], r);
    assert paths == paths[..i] + paths[i..];
    PlacesAppend(paths[..i], paths[i..], |r.events|);
  }

  lemma StoppedAtPath(det: Detectors, r: Record, paths: seq<Path>, i: nat, t: Traversal)
    requires i <= |paths| && forall k | 0 <= k < |paths| :: WellFormed(paths[k])
    requires Stopped(det, r, AllPlaces(paths[..i], |r.events|), t)
    ensures Stopped(det, r, AllPlaces(paths, |r.events|), t)
  {
    SplitPlaces(paths, i, r);
    StoppedEarly(det, r, AllPlaces(paths[..i], |r.events|), AllPlaces(paths[i..], |r.events|), t);
  }

  method RedactPaths(det: Detectors, r: Record, paths: seq<Path>, t: Traversal) returns (o: Option<Record>)
    requires t.visited == 0 && t.credential == 0 && t.operatorPii == 0
    requires forall i | 0 <= i < |paths| :: WellFormed(paths[i])
    modifies t`visited, t`operatorPii
    ensures o.None? ==> Stopped(det, r, AllPlaces(paths, |r.events|), t)
    ensures o.Some? ==> Redacted(det, r, AllPlaces(paths, |r.events|), o.value, t)
  {
    var current := r;
    for i := 0 to |paths|
      invariant |current.events| == |r.events|
      invariant Redacted(det, r, AllPlaces(paths[..i], |r.events|), current, t)
    {
      PathSnoc(paths, i, |r.events|);
      var next := RedactPath(det, r, AllPlaces(paths[..i], |r.events|), current, paths[i], t);
      if next.None? {
        StoppedAtPath(det, r, paths, i + 1, t);
        return None;
      }
      current := next.value;
    }
    assert paths[..|paths|] == paths;
    o := Some(current);
  }

  lemma {:induction false} EventsPrefix(det: Detectors, events: seq<Event>, i: nat)
    requires i <= |events| && TransformEvents(det, events).Some?
    ensures TransformEvents(det, events[..i]).Some?
    ensures TransformEvents(det, events[..i]).value.cost <= TransformEvents(det, events).value.cost
    ensures TransformEvents(det, events[..i]).value.marks <= TransformEvents(det, events).value.marks
  {
    if i < |events| {
      var n := |events| - 1;
      EventsPrefix(det, events[..n], i);
      assert events[..n][..i] == events[..i];
    } else {
      assert events[..i] == events;
    }
  }

  lemma RefusedEvent(det: Detectors, events: seq<Event>, i: nat, t: Traversal, visited: nat, marked: nat)
    requires i < |events| && TransformEvents(det, events[..i]).Some?
    requires var front := TransformEvents(det, events[..i]).value;
             Refused(Transform(det, events[i].payload, Redactable(events[i])), t, visited + front.cost,
                 marked + front.marks)
    ensures Refused(TransformEvents(det, events), t, visited, marked)
  {
    assert events[..i + 1][..i] == events[..i];
    if TransformEvents(det, events).Some? {
      EventsPrefix(det, events, i + 1);
    }
  }

  method TransformPayloads(det: Detectors, events: seq<Event>, t: Traversal) returns (r: Option<seq<Event>>)
    requires t.Within()
    modifies t`visited, t`credential
    ensures r.None? <==> Refused(TransformEvents(det, events), t, old(t.visited), old(t.credential + t.operatorPii))
    ensures r.Some? ==>
              t.Within() && Taken(TransformEvents(det, events), r.value, old(t.visited), old(t.credential), t.visited,
                  t.credential)
  {
    var minimized: seq<Event> := [];
    for i := 0 to |events|
      invariant t.Within()
      invariant Taken(TransformEvents(det, events[..i]), minimized, old(t.visited), old(t.credential), t.visited,
          t.credential)
    {
      var payload := TransformCredentials(det, events[i].payload, Redactable(events[i]), t);
      if payload.None? {
        RefusedEvent(det, events, i, t, old(t.visited), old(t.credential + t.operatorPii));
        return None;
      }
      assert events[..i + 1][..i] == events[..i];
      minimized := minimized + [events[i].(payload := payload.value)];
    }
    assert events[..|events|] == events;
    r := Some(minimized);
  }

  method TransformEvidence(det: Detectors, r: Record, t: Traversal) returns (o: Option<Record>)
    requires t.Within()
    modifies t`visited, t`credential
    ensures o.None? <==> Refused(TransformRecord(det, r), t, old(t.visited), old(t.credential + t.operatorPii))
    ensures o.Some? ==>
              t.Within() && Taken(TransformRecord(det, r), o.value, old(t.visited), old(t.credential), t.visited,
                  t.credential)
  {
    var state := TransformCredentials(det, r.finalState, true, t);
    if state.None? {
      return None;
    }
    var output := r.finalOutput;
    if output.Some? {
      output := TransformString(det, output.value, true, t);
      if output.None? {
        return None;
      }
    }
    var events := TransformPayloads(det, r.events, t);
    if events.None? {
      return None;
    }
    o := Some(r.(finalState := state.value, finalOutput := output, events := events.value));
  }

  /** minimize_evidence_for_persistence computes Minimize. */
  method MinimizeEvidence(b: Boundary, policy: Policy, r: Record) returns (p: Option<Preparation>)
    requires forall i | 0 <= i < |policy.paths| :: WellFormed(policy.paths[i])
    ensures AllFit(r, AllPlaces(policy.paths, |r.events|)) && p == Minimize(b, policy, r)
  {
    PlacesFit(policy.paths, r);
    var t := new Traversal(policy.maxTraversalNodes, policy.maxRedactions);
    var redacted := RedactPaths(b.detectors, r, policy.paths, t);
    if redacted.None? {
      return None;
    }
    var minimized := TransformEvidence(b.detectors, redacted.value, t);
    if minimized.None? || !b.admissible(minimized.value) {
      return None;
    }
    p := Some(Preparation(minimized.value, Receipt(policy, t.credential, t.operatorPii, b.root(minimized.value))));
  }
}
