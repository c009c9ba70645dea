/** Minimization of one evidence record before it is persisted (evidence/minimization.py:261-378): the declared
    paths are redacted one after the other, then credentials are transformed everywhere. */
module EvidenceMinimization {
  import opened Wrappers
  import opened PointerPath
  import opened Sequences
  import opened Minimization
  import Evidence

  /** `facts` stands for the remaining fields, which minimization copies. */
  datatype Event = Event(kind: Evidence.Kind, critical: bool, payload: Json, facts: nat)

  datatype Record = Record(finalState: Json, finalOutput: Option<string>, events: seq<Event>, facts: nat)

  /** What the minimizer calls: the detectors, the validation of the rebuilt record, and its evidence root. */
  datatype Boundary = Boundary(detectors: Detectors, admissible: Record -> bool, root: Record -> string)

  datatype Policy = Policy(paths: seq<Path>, maxTraversalNodes: nat, maxRedactions: nat)

  datatype Receipt = Receipt(policy: Policy, credential: nat, operatorPii: nat, root: string)

  datatype Preparation = Preparation(evidence: Record, receipt: Receipt)

  /** _event_payload_redactable */
  predicate Redactable(e: Event) {
    !e.critical && (e.kind.StateObservation? || e.kind.Output? || e.kind.EvaluationError? || e.kind.RuntimeError?)
  }

  // ---------------------------------------------------------------- one declared path, one place at a time

  datatype Slot = State | Final | Payload(index: nat)

  datatype Place = Place(slot: Slot, tail: seq<string>)

  /** The places a path addresses in a record of n events; an index past the end addresses none. */
  function Places(p: Path, n: nat): seq<Place> {
    match p.scope
    case FinalOutput => [Place(Final, [])]
    case FinalState => [Place(State, p.tail)]
    case Events(Some(i)) => if i < n then [Place(Payload(i), p.tail)] else []
    case Events(None) => seq(n, i requires 0 <= i < n => Place(Payload(i), p.tail))
  }

  function AllPlaces(paths: seq<Path>, n: nat): seq<Place> {
    if paths == [] then [] else AllPlaces(paths[..|paths| - 1], n) + Places(paths[|paths| - 1], n)
  }

  predicate Fits(r: Record, a: Place) {
    && (!a.slot.Final? ==> a.tail != [])
    && (a.slot.Payload? ==> a.slot.index < |r.events|)
  }

  predicate AllFit(r: Record, places: seq<Place>) {
    forall i | 0 <= i < |places| :: Fits(r, places[i])
  }

  function WithPayload(r: Record, i: nat, payload: Json): Record
    requires i < |r.events|
  {
    r.(events := r.events[i := r.events[i].(payload := payload)])
  }

  /** The value of a place's slot. */
  function SlotJson(r: Record, a: Place): Json
    requires Fits(r, a) && !a.slot.Final?
  {
    match a.slot
    case State => r.finalState
    case Payload(i) => r.events[i].payload
  }

  function WithSlot(r: Record, a: Place, json: Json): Record
    requires Fits(r, a) && !a.slot.Final?
  {
    match a.slot
    case State => r.(finalState := json)
    case Payload(i) => WithPayload(r, i, json)
  }

  predicate AllowedAt(r: Record, a: Place)
    requires Fits(r, a)
  {
    a.slot.Payload? ==> Redactable(r.events[a.slot.index])
  }

  function RedactOutput(det: Detectors, r: Record): Option<Step<Record>> {
    match r.finalOutput
    case None => Some(Step(r, 0, 0))
    case Some(s) => if det.credential(s) then None else Some(Step(r.(finalOutput := Some(PII_MARKER)), 1, 1))
  }

  function RedactPlace(det: Detectors, r: Record, a: Place): (o: Option<Step<Record>>)
    requires Fits(r, a)
    ensures o.Some? ==> |o.value.value.events| == |r.events|
  {
    if a.slot.Final? then RedactOutput(det, r)
    else
      match Redact(det, SlotJson(r, a), a.tail, AllowedAt(r, a))
      case None => None
      case Some(step) => Some(Step(WithSlot(r, a, step.value), step.cost, step.marks))
  }

  /** One redaction after a step that may have been refused; costs and counts add up. */
  function AndThen(det: Detectors, o: Option<Step<Record>>, a: Place): (o': Option<Step<Record>>)
    requires o.Some? ==> Fits(o.value.value, a)
    ensures o'.Some? ==> o.Some? && |o'.value.value.events| == |o.value.value.events|
  {
    match o
    case None => None
    case Some(first) =>
      match RedactPlace(det, first.value, a)
      case None => None
      case Some(second) => Some(Step(second.value, first.cost + second.cost, first.marks + second.marks))
  }

  /** The first phase: every place in turn. */
  function RedactAll(det: Detectors, r: Record, places: seq<Place>): (o: Option<Step<Record>>)
    requires AllFit(r, places)
    ensures o.Some? ==> |o.value.value.events| == |r.events|
  {
    if places == [] then Some(Step(r, 0, 0))
    else
      var n := |places| - 1;
      assert Fits(r, places[n]);
      AndThen(det, RedactAll(det, r, places[..n]), places[n])
  }

  // ---------------------------------------------------------------- the second phase

  function TransformEvents(det: Detectors, events: seq<Event>): (o: Option<Step<seq<Event>>>)
    ensures o.Some? ==> |o.value.value| == |events|
  {
    if events == [] then Some(Step([], 0, 0))
    else
      var n := |events| - 1;
      match TransformEvents(det, events[..n])
      case None => None
      case Some(front) =>
        match Transform(det, events[n].payload, Redactable(events[n]))
        case None => None
        case Some(t) =>
          Some(Step(front.value + [events[n].(payload := t.value)], front.cost + t.cost, front.marks + t.marks))
  }

  function TransformOutput(det: Detectors, output: Option<string>): Option<Step<Option<string>>> {
    match output
    case None => Some(Step(None, 0, 0))
    case Some(s) =>
      match TransformText(det, s, true)
      case None => None
      case Some(t) => Some(Step(Some(t.value), t.cost, t.marks))
  }

  function TransformRecord(det: Detectors, r: Record): (o: Option<Step<Record>>)
    ensures o.Some? ==> |o.value.value.events| == |r.events|
  {
    match Transform(det, r.finalState, true)
    case None => None
    case Some(state) =>
      match TransformOutput(det, r.finalOutput)
      case None => None
      case Some(output) =>
        match TransformEvents(det, r.events)
        case None => None
        case Some(events) =>
          Some(Step(r.(finalState := state.value, finalOutput := output.value, events := events.value),
                    state.cost + output.cost + events.cost, state.marks + output.marks + events.marks))
  }

  ghost predicate Accepted(paths: seq<Path>) {
    Disjoint(paths) && forall i | 0 <= i < |paths| :: WellFormed(paths[i])
  }

  lemma {:induction false} PlacesFit(paths: seq<Path>, r: Record)
    requires forall i | 0 <= i < |paths| :: WellFormed(paths[i])
    ensures AllFit(r, AllPlaces(paths, |r.events|))
  {
    if paths != [] {
      PlacesFit(paths[..|paths| - 1], r);
    }
  }

  /** minimize_evidence_for_persistence; None stands for every refusal. */
  function Minimize(b: Boundary, policy: Policy, r: Record): Option<Preparation>
    requires AllFit(r, AllPlaces(policy.paths, |r.events|))
  {
    match RedactAll(b.detectors, r, AllPlaces(policy.paths, |r.events|))
    case None => None
    case Some(redacted) =>
      match TransformRecord(b.detectors, redacted.value)
      case None => None
      case Some(t) =>
        if redacted.cost + t.cost > policy.maxTraversalNodes || redacted.marks + t.marks > policy.maxRedactions
           || !b.admissible(t.value)
        then None
        else Some(Preparation(t.value, Receipt(policy, t.marks, redacted.marks, b.root(t.value))))
  }

  // ---------------------------------------------------------------- what a minimized record holds

  function EventMarkers(events: seq<Event>): nat {
    if events == [] then 0 else EventMarkers(events[..|events| - 1]) + Markers(events[|events| - 1].payload)
  }

  /** The credential markers of a record. */
  function RecordMarkers(r: Record): nat {
    Markers(r.finalState) + (if r.finalOutput == Some(CREDENTIAL_MARKER) then 1 else 0) + EventMarkers(r.events)
  }

  predicate CleanRecord(det: Detectors, r: Record) {
    && Clean(det, r.finalState)
    && (r.finalOutput.Some? ==> !det.credential(r.finalOutput.value))
    && forall i | 0 <= i < |r.events| :: Clean(det, r.events[i].payload)
  }

  /** Only redactable payloads may differ. */
  predicate SameAuthority(before: seq<Event>, after: seq<Event>) {
    && |before| == |after|
    && (forall i | 0 <= i < |before| :: after[i] == before[i].(payload := after[i].payload))
    && (forall i | 0 <= i < |before| && !Redactable(before[i]) :: after[i] == before[i])
  }

  lemma {:induction false} TransformEventsResult(det: Detectors, events: seq<Event>)
    requires Valid(det) && TransformEvents(det, events).Some?
    ensures var t := TransformEvents(det, events).value;
            && (forall i | 0 <= i < |events| :: Clean(det, t.value[i].payload))
            && EventMarkers(t.value) == t.marks && SameAuthority(events, t.value)
  {
    if events != [] {
      var n := |events| - 1;
      TransformEventsResult(det, events[..n]);
      TransformResult(det, events[n].payload, Redactable(events[n]));
      var t := TransformEvents(det, events).value;
      assert t.value[..n] == TransformEvents(det, events[..n]).value.value;
      assert forall i | 0 <= i < n :: events[..n][i] == events[i];
    }
  }

  lemma {:induction false} RefusedMeansUnchanged(det: Detectors, json: Json, s: seq<string>)
    requires s != [] && Redact(det, json, s, false).Some?
    ensures Redact(det, json, s, false).value.value == json
    decreases |s|
  {
    if Find(json, s[0]) != Success(None) {
      var i := Find(json, s[0]).value.value;
      if |s| > 1 { RefusedMeansUnchanged(det, json.children[i], s[1..]); }
      assert Put(json, i, json.children[i]) == json;
    }
  }

  lemma {:induction false} RedactAllKeepsAuthority(det: Detectors, r: Record, places: seq<Place>)
    requires AllFit(r, places) && RedactAll(det, r, places).Some?
    ensures SameAuthority(r.events, RedactAll(det, r, places).value.value.events)
    ensures RedactAll(det, r, places).value.value.facts == r.facts
  {
    if places != [] {
      var n := |places| - 1;
      RedactAllKeepsAuthority(det, r, places[..n]);
      var before := RedactAll(det, r, places[..n]).value.value;
      assert Fits(before, places[n]) by { assert Fits(r, places[n]); }
      if places[n].slot.Payload? && !Redactable(before.events[places[n].slot.index]) {
        RefusedMeansUnchanged(det, before.events[places[n].slot.index].payload, places[n].tail);
      }
    }
  }

  lemma TransformRecordResult(det: Detectors, r: Record)
    requires Valid(det) && TransformRecord(det, r).Some?
    ensures var t := TransformRecord(det, r).value;
            CleanRecord(det, t.value) && RecordMarkers(t.value) == t.marks && SameAuthority(r.events, t.value.events)
                && t.value.facts == r.facts
  {
    TransformResult(det, r.finalState, true);
    TransformEventsResult(det, r.events);
  }

  lemma AuthorityThrough(before: seq<Event>, middle: seq<Event>, after: seq<Event>)
    requires SameAuthority(before, middle) && SameAuthority(middle, after)
    ensures SameAuthority(before, after)
  {
  }

  /** Successful minimization leaves no credential-pattern string and only the marker under credential-named
      keys, copies authority-bearing payloads, and reports as many credentials as the output holds markers. */
  lemma MinimizedIsClean(b: Boundary, policy: Policy, r: Record)
    requires Valid(b.detectors) && AllFit(r, AllPlaces(policy.paths, |r.events|)) && Minimize(b, policy, r).Some?
    ensures var p := Minimize(b, policy, r).value;
            && CleanRecord(b.detectors, p.evidence) && p.receipt.credential == RecordMarkers(p.evidence)
            && SameAuthority(r.events, p.evidence.events) && p.evidence.facts == r.facts
  {
    var det, places := b.detectors, AllPlaces(policy.paths, |r.events|);
    var redacted := RedactAll(det, r, places).value.value;
    RedactAllKeepsAuthority(det, r, places);
    TransformRecordResult(det, redacted);
    AuthorityThrough(r.events, redacted.events, TransformRecord(det, redacted).value.value.events);
  }

  // ---------------------------------------------------------------- the order of the paths

  predicate PlacesApart(a: Place, b: Place) {
    a.slot == b.slot ==> !a.slot.Final? && Apart(a.tail, b.tail)
  }

  predicate PairwiseApart(places: seq<Place>) {
    forall i, j | 0 <= i < j < |places| :: PlacesApart(places[i], places[j])
  }

  /** Two steps one after the other, from the start of the first. */
  function Twice(det: Detectors, r: Record, a: Place, b: Place): Option<Step<Record>>
    requires Fits(r, a) && Fits(r, b)
  {
    AndThen(det, RedactPlace(det, r, a), b)
  }

  /** Writing a slot: what it then holds, and that the last write wins. */
  lemma SlotWrites(r: Record, a: Place, json: Json, next: Json)
    requires Fits(r, a) && !a.slot.Final?
    ensures Fits(WithSlot(r, a, json), a) && SlotJson(WithSlot(r, a, json), a) == json
    ensures AllowedAt(WithSlot(r, a, json), a) == AllowedAt(r, a)
    ensures WithSlot(WithSlot(r, a, json), a, next) == WithSlot(r, a, next)
  {
  }

  function JsonTwice(det: Detectors, json: Json, s: seq<string>, t: seq<string>, allow: bool): Option<Step<Json>>
    requires s != [] && t != []
  {
    match Redact(det, json, s, allow)
    case None => None
    case Some(first) =>
      match Redact(det, first.value, t, allow)
      case None => None
      case Some(second) => Some(Step(second.value, first.cost + second.cost, first.marks + second.marks))
  }

  lemma TwiceInSlot(det: Detectors, r: Record, a: Place, b: Place)
    requires Fits(r, a) && Fits(r, b) && a.slot == b.slot && !a.slot.Final?
    ensures Twice(det, r, a, b) ==
            match JsonTwice(det, SlotJson(r, a), a.tail, b.tail, AllowedAt(r, a))
            case None => None
            case Some(t) => Some(Step(WithSlot(r, a, t.value), t.cost, t.marks))
  {
    var allow := AllowedAt(r, a);
    var first := Redact(det, SlotJson(r, a), a.tail, allow);
    if first.Some? {
      var second := Redact(det, first.value.value, b.tail, allow);
      var r' := WithSlot(r, a, first.value.value);
      SlotWrites(r, a, first.value.value, first.value.value);
      assert SlotJson(r', b) == first.value.value && AllowedAt(r', b) == allow;
      if second.Some? {
        SlotWrites(r, a, first.value.value, second.value.value);
        assert WithSlot(r', b, second.value.value) == WithSlot(r, a, second.value.value);
      }
    }
  }

  lemma SameSlotCommutes(det: Detectors, r: Record, a: Place, b: Place)
    requires Fits(r, a) && Fits(r, b) && a.slot == b.slot && !a.slot.Final? && Apart(a.tail, b.tail)
    ensures Twice(det, r, a, b) == Twice(det, r, b, a)
  {
    var json, allow := SlotJson(r, a), AllowedAt(r, a);
    RedactionsCommute(det, json, a.tail, b.tail, allow, allow);
    RedactionsCommute(det, json, b.tail, a.tail, allow, allow);
    assert JsonTwice(det, json, a.tail, b.tail, allow) == JsonTwice(det, json, b.tail, a.tail, allow);
    TwiceInSlot(det, r, a, b);
    TwiceInSlot(det, r, b, a);
  }

  lemma WritesCommute(r: Record, i: nat, j: nat, x: Json, y: Json)
    requires i < |r.events| && j < |r.events| && i != j
    ensures WithPayload(WithPayload(r, i, x), j, y) == WithPayload(WithPayload(r, j, y), i, x)
  {
  }

  lemma PayloadsIndependent(det: Detectors, r: Record, a: Place, b: Place)
    requires Fits(r, a) && Fits(r, b) && a.slot.Payload? && b.slot.Payload? && a.slot.index != b.slot.index
    ensures Twice(det, r, a, b) == Twice(det, r, b, a)
  {
    var i, j := a.slot.index, b.slot.index;
    var x, y := Redact(det, r.events[i].payload, a.tail, AllowedAt(r, a)),
        Redact(det, r.events[j].payload, b.tail, AllowedAt(r, b));
    if x.Some? && y.Some? {
      WritesCommute(r, i, j, x.value.value, y.value.value);
    }
  }

  lemma OutputIndependent(det: Detectors, r: Record, a: Place, b: Place)
    requires Fits(r, a) && Fits(r, b) && a.slot.Final? && !b.slot.Final?
    ensures Twice(det, r, a, b) == Twice(det, r, b, a)
  {
  }

  lemma StateIndependent(det: Detectors, r: Record, a: Place, b: Place)
    requires Fits(r, a) && Fits(r, b) && a.slot.State? && b.slot.Payload?
    ensures Twice(det, r, a, b) == Twice(det, r, b, a)
  {
  }

  lemma SlotsIndependent(det: Detectors, r: Record, a: Place, b: Place)
    requires Fits(r, a) && Fits(r, b) && a.slot != b.slot
    ensures Twice(det, r, a, b) == Twice(det, r, b, a)
  {
    match (a.slot, b.slot)
    case (Final, _) => OutputIndependent(det, r, a, b);
    case (_, Final) => OutputIndependent(det, r, b, a);
    case (State, _) => StateIndependent(det, r, a, b);
    case (_, State) => StateIndependent(det, r, b, a);
    case (Payload(_), Payload(_)) => PayloadsIndependent(det, r, a, b);
  }

  lemma PlacesCommute(det: Detectors, r: Record, a: Place, b: Place)
    requires Fits(r, a) && Fits(r, b) && PlacesApart(a, b)
    ensures Twice(det, r, a, b) == Twice(det, r, b, a)
  {
    if a.slot == b.slot {
      SameSlotCommutes(det, r, a, b);
    } else {
      SlotsIndependent(det, r, a, b);
    }
  }

  lemma RedactSnoc(det: Detectors, r: Record, places: seq<Place>, a: Place)
    requires AllFit(r, places) && Fits(r, a)
    ensures AllFit(r, places + [a])
    ensures RedactAll(det, r, places + [a]) == AndThen(det, RedactAll(det, r, places), a)
  {
    assert (places + [a])[..|places|] == places;
  }

  lemma SwapLast(det: Detectors, r: Record, places: seq<Place>, a: Place, b: Place)
    requires AllFit(r, places) && Fits(r, a) && Fits(r, b) && PlacesApart(a, b)
    ensures AllFit(r, places + [a] + [b]) && AllFit(r, places + [b] + [a])
    ensures RedactAll(det, r, places + [a] + [b]) == RedactAll(det, r, places + [b] + [a])
  {
    RedactSnoc(det, r, places, a);
    RedactSnoc(det, r, places, b);
    RedactSnoc(det, r, places + [a], b);
    RedactSnoc(det, r, places + [b], a);
    var o := RedactAll(det, r, places);
    if o.Some? {
      PlacesCommute(det, o.value.value, a, b);
    }
  }

  /** One step of moving a place behind others. */
  lemma MoveStep(det: Detectors, r: Record, u: seq<Place>, x: Place, v: seq<Place>, y: Place)
    requires AllFit(r, u) && Fits(r, x) && AllFit(r, v) && Fits(r, y) && PlacesApart(x, y)
    requires AllFit(r, u + [x] + v) && AllFit(r, u + v + [x])
        && RedactAll(det, r, u + [x] + v) == RedactAll(det, r, u + v + [x])
    ensures AllFit(r, u + [x] + (v + [y])) && AllFit(r, u + (v + [y]) + [x])
    ensures RedactAll(det, r, u + [x] + (v + [y])) == RedactAll(det, r, u + (v + [y]) + [x])
  {
    RedactSnoc(det, r, u + [x] + v, y);
    RedactSnoc(det, r, u + v + [x], y);
    SwapLast(det, r, u + v, x, y);
    Associative(u + [x], v, [y]);
    Associative(u, v, [y]);
  }

  lemma {:induction false} MoveToEnd(det: Detectors, r: Record, u: seq<Place>, x: Place, v: seq<Place>)
    requires AllFit(r, u) && Fits(r, x) && AllFit(r, v) && forall i | 0 <= i < |v| :: PlacesApart(x, v[i])
    ensures AllFit(r, u + [x] + v) && AllFit(r, u + v + [x])
    ensures RedactAll(det, r, u + [x] + v) == RedactAll(det, r, u + v + [x])
  {
    if v == [] {
      assert u + [x] + v == u + v + [x];
    } else {
      var n := |v| - 1;
      MoveToEnd(det, r, u, x, v[..n]);
      MoveStep(det, r, u, x, v[..n], v[n]);
      Snoc(v);
    }
  }

  lemma ApartFromOthers(xs: seq<Place>, others: seq<Place>)
    requires xs != [] && PairwiseApart(xs) && multiset(xs[..|xs| - 1]) == multiset(others)
    ensures forall i | 0 <= i < |others| :: PlacesApart(xs[|xs| - 1], others[i])
  {
    var n := |xs| - 1;
    forall i | 0 <= i < |others| ensures PlacesApart(xs[n], others[i]) {
      assert others[i] in multiset(xs[..n]);
      var j :| 0 <= j < n && xs[..n][j] == others[i];
      assert PlacesApart(xs[j], xs[n]);
    }
  }

  lemma FitsParts(r: Record, u: seq<Place>, x: Place, v: seq<Place>)
    requires AllFit(r, u + [x] + v)
    ensures AllFit(r, u) && Fits(r, x) && AllFit(r, v)
  {
    var ys := u + [x] + v;
    assert forall i | 0 <= i < |u| :: u[i] == ys[i];
    assert ys[|u|] == x;
    assert forall i | 0 <= i < |v| :: v[i] == ys[|u| + 1 + i];
  }

  lemma FitsPermuted(r: Record, xs: seq<Place>, ys: seq<Place>)
    requires AllFit(r, xs) && multiset(xs) == multiset(ys)
    ensures AllFit(r, ys)
  {
    forall i | 0 <= i < |ys| ensures Fits(r, ys[i]) {
      assert ys[i] in multiset(xs);
    }
  }

  /** In-place redaction gives the same result in every order of places that do not overlap. */
  lemma {:induction false} OrderIsIrrelevant(det: Detectors, r: Record, xs: seq<Place>, ys: seq<Place>)
    requires AllFit(r, xs) && PairwiseApart(xs) && multiset(xs) == multiset(ys)
    ensures AllFit(r, ys)
    ensures RedactAll(det, r, xs) == RedactAll(det, r, ys)
    decreases |xs|
  {
    FitsPermuted(r, xs, ys);
    if xs == [] {
      assert |multiset(ys)| == 0;
    } else {
      var n := |xs| - 1;
      var u, v := TakeOut(xs, ys);
      ApartFromOthers(xs, u + v);
      forall i | 0 <= i < |v| ensures PlacesApart(xs[n], v[i]) {
        assert (u + v)[|u| + i] == v[i];
      }
      OrderIsIrrelevant(det, r, xs[..n], u + v);
      FitsParts(r, u, xs[n], v);
      MoveToEnd(det, r, u, xs[n], v);
      RedactSnoc(det, r, u + v, xs[n]);
    }
  }

  // ---------------------------------------------------------------- from paths to places

  lemma {:induction false} PlaceOrigin(paths: seq<Path>, n: nat, a: Place) returns (i: nat)
    requires a in AllPlaces(paths, n)
    ensures i < |paths| && a in Places(paths[i], n)
  {
    var m := |paths| - 1;
    if a in Places(paths[m], n) {
      i := m;
    } else {
      i := PlaceOrigin(paths[..m], n, a);
    }
  }

  lemma DisjointPathsApart(p: Path, q: Path, n: nat, a: Place, b: Place)
    requires !PathsOverlap(p, q) && a in Places(p, n) && b in Places(q, n)
    ensures PlacesApart(a, b)
  {
  }

  lemma OnePathApart(p: Path, n: nat)
    ensures PairwiseApart(Places(p, n))
  {
  }

  lemma {:induction false} DisjointPlaces(paths: seq<Path>, n: nat)
    requires Disjoint(paths)
    ensures PairwiseApart(AllPlaces(paths, n))
  {
    if paths != [] {
      var m := |paths| - 1;
      DisjointPlaces(paths[..m], n);
      OnePathApart(paths[m], n);
      var front, last := AllPlaces(paths[..m], n), Places(paths[m], n);
      forall i, j | 0 <= i < |front| && 0 <= j < |last| ensures PlacesApart(front[i], last[j]) {
        var k := PlaceOrigin(paths[..m], n, front[i]);
        DisjointPathsApart(paths[k], paths[m], n, front[i], last[j]);
      }
    }
  }

  /** The value a place selects in a record, as a slot and child positions. */
  function Selected(r: Record, a: Place): Option<(Slot, seq<nat>)>
    requires Fits(r, a)
  {
    if a.slot.Final? then (if r.finalOutput.None? then None else Some((Final, [])))
    else
      match Location(SlotJson(r, a), a.tail)
      case None => None
      case Some(location) => Some((a.slot, location))
  }

  /** Accepted paths never select the same value, or nested values, in any record. */
  lemma SelectionsApart(paths: seq<Path>, r: Record, i: nat, j: nat, a: Place, b: Place)
    requires Accepted(paths) && i < j < |paths|
    requires a in Places(paths[i], |r.events|) && b in Places(paths[j], |r.events|)
    ensures Fits(r, a) && Fits(r, b)
    ensures Selected(r, a).Some? && Selected(r, b).Some? ==>
              var (s, l), (t, m) := Selected(r, a).value, Selected(r, b).value;
              s == t ==> !(l <= m) && !(m <= l)
  {
    DisjointPathsApart(paths[i], paths[j], |r.events|, a, b);
    if a.slot == b.slot && Selected(r, a).Some? && Selected(r, b).Some? {
      LocationsApart(SlotJson(r, a), a.tail, b.tail);
    }
  }

  lemma PlacesSnoc(paths: seq<Path>, p: Path, n: nat)
    ensures AllPlaces(paths + [p], n) == AllPlaces(paths, n) + Places(p, n)
  {
    assert (paths + [p])[..|paths|] == paths;
  }

  lemma {:induction false} PlacesAppend(paths: seq<Path>, more: seq<Path>, n: nat)
    ensures AllPlaces(paths + more, n) == AllPlaces(paths, n) + AllPlaces(more, n)
  {
    if more == [] {
      assert paths + more == paths;
    } else {
      var m := |more| - 1;
      PlacesAppend(paths, more[..m], n);
      Snoc(more);
      Associative(paths, more[..m], [more[m]]);
      PlacesSnoc(paths + more[..m], more[m], n);
      PlacesSnoc(more[..m], more[m], n);
      Associative(AllPlaces(paths, n), AllPlaces(more[..m], n), Places(more[m], n));
    }
  }

  lemma {:induction false} PlacesPermuted(ps: seq<Path>, qs: seq<Path>, n: nat)
    requires multiset(ps) == multiset(qs)
    ensures multiset(AllPlaces(ps, n)) == multiset(AllPlaces(qs, n))
    decreases |ps|
  {
    if ps == [] {
      assert |multiset(qs)| == 0;
    } else {
      var m := |ps| - 1;
      var u, v := TakeOut(ps, qs);
      PlacesPermuted(ps[..m], u + v, n);
      PlacesAppend(u, v, n);
      PlacesAppend(u + [ps[m]], v, n);
      PlacesAppend(u, [ps[m]], n);
      assert AllPlaces([ps[m]], n) == Places(ps[m], n);
    }
  }

  /** The order in which the policy lists its paths does not change the redactions. */
  lemma PathOrderIsIrrelevant(det: Detectors, r: Record, ps: seq<Path>, qs: seq<Path>)
    requires Accepted(ps) && multiset(ps) == multiset(qs)
    ensures AllFit(r, AllPlaces(ps, |r.events|)) && AllFit(r, AllPlaces(qs, |r.events|))
    ensures RedactAll(det, r, AllPlaces(ps, |r.events|)) == RedactAll(det, r, AllPlaces(qs, |r.events|))
  {
    PlacesFit(ps, r);
    DisjointPlaces(ps, |r.events|);
    PlacesPermuted(ps, qs, |r.events|);
    OrderIsIrrelevant(det, r, AllPlaces(ps, |r.events|), AllPlaces(qs, |r.events|));
  }

  // ---------------------------------------------------------------- a second run under the same policy

  /** The redaction of the place leaves the record as it is. */
  ghost predicate SettledAt(det: Detectors, r: Record, a: Place) {
    Fits(r, a) && RedactPlace(det, r, a).Some? && RedactPlace(det, r, a).value.value == r
  }

  predicate CrossesAt(det: Detectors, r: Record, a: Place)
    requires Fits(r, a)
  {
    !a.slot.Final? && Crosses(det, SlotJson(r, a), a.tail)
  }

  /** Some declared path steps through a member under a credential-named key. */
  predicate CrossesCredential(det: Detectors, r: Record, places: seq<Place>)
    requires AllFit(r, places)
  {
    exists i | 0 <= i < |places| :: CrossesAt(det, r, places[i])
  }

  lemma WriteBack(r: Record, a: Place, json: Json)
    requires Fits(r, a) && !a.slot.Final?
    ensures WithSlot(r, a, json) == r <==> json == SlotJson(r, a)
  {
    if json == SlotJson(r, a) && a.slot.Payload? {
      assert r.events[a.slot.index].(payload := json) == r.events[a.slot.index];
    }
    SlotWrites(r, a, json, json);
  }

  lemma PlaceAgain(det: Detectors, r: Record, a: Place)
    requires Valid(det) && Fits(r, a) && RedactPlace(det, r, a).Some?
    ensures var o := RedactPlace(det, r, a).value;
            && SettledAt(det, o.value, a)
            && RedactPlace(det, o.value, a).value.marks == o.marks && RedactPlace(det, o.value, a).value.cost <= o.cost
  {
    if !a.slot.Final? {
      var allow := AllowedAt(r, a);
      RedactAgain(det, SlotJson(r, a), a.tail, allow);
      var json := Redact(det, SlotJson(r, a), a.tail, allow).value.value;
      SlotWrites(r, a, json, json);
    }
  }

  /** A place that is settled stays settled, at the same cost and count, when another place is redacted. */
  lemma SettledAfterOther(det: Detectors, r: Record, a: Place, b: Place)
    requires SettledAt(det, r, a) && Fits(r, b) && PlacesApart(a, b) && RedactPlace(det, r, b).Some?
    ensures var o := RedactPlace(det, r, b).value;
            && SettledAt(det, o.value, a)
            && RedactPlace(det, o.value, a).value.marks == RedactPlace(det, r, a).value.marks
            && RedactPlace(det, o.value, a).value.cost == RedactPlace(det, r, a).value.cost
  {
    PlacesCommute(det, r, a, b);
  }

  /** Both records are fixed points of every place, with the same costs and counts. */
  ghost predicate SameEffects(det: Detectors, r: Record, r': Record, places: seq<Place>) {
    forall i | 0 <= i < |places| ::
      && SettledAt(det, r, places[i]) && SettledAt(det, r', places[i])
      && RedactPlace(det, r, places[i]).value.marks == RedactPlace(det, r', places[i]).value.marks
      && RedactPlace(det, r, places[i]).value.cost == RedactPlace(det, r', places[i]).value.cost
  }

  lemma {:induction false} SameTotals(det: Detectors, r: Record, r': Record, places: seq<Place>)
    requires SameEffects(det, r, r', places)
    ensures AllFit(r, places) && AllFit(r', places)
    ensures RedactAll(det, r, places).Some? && RedactAll(det, r, places).value.value == r
    ensures RedactAll(det, r', places)
         == Some(Step(r', RedactAll(det, r, places).value.cost, RedactAll(det, r, places).value.marks))
  {
    if places != [] {
      SameTotals(det, r, r', places[..|places| - 1]);
      assert SettledAt(det, r, places[|places| - 1]);
    }
  }

  /** One more redaction after some that are settled. */
  lemma SettledStep(det: Detectors, r: Record, front: seq<Place>, a: Place)
    requires Valid(det) && SameEffects(det, r, r, front) && Fits(r, a) && RedactPlace(det, r, a).Some?
    requires forall i | 0 <= i < |front| :: PlacesApart(front[i], a)
    ensures var o := RedactPlace(det, r, a).value.value;
            SameEffects(det, r, o, front) && SettledAt(det, o, a)
  {
    PlaceAgain(det, r, a);
    forall i | 0 <= i < |front|
      ensures var o := RedactPlace(det, r, a).value.value;
              && SettledAt(det, o, front[i])
              && RedactPlace(det, r, front[i]).value.marks == RedactPlace(det, o, front[i]).value.marks
              && RedactPlace(det, r, front[i]).value.cost == RedactPlace(det, o, front[i]).value.cost
    {
      SettledAfterOther(det, r, front[i], a);
    }
  }

  lemma SettledSnoc(det: Detectors, r: Record, front: seq<Place>, a: Place)
    requires SameEffects(det, r, r, front) && SettledAt(det, r, a)
    ensures SameEffects(det, r, r, front + [a])
  {
  }

  lemma SettledOnRight(det: Detectors, r: Record, o: Record, front: seq<Place>)
    requires SameEffects(det, r, o, front)
    ensures SameEffects(det, o, o, front)
  {
  }

  /** After all the redactions every place is settled. */
  lemma {:induction false} AllSettled(det: Detectors, r: Record, places: seq<Place>)
    requires Valid(det) && AllFit(r, places) && PairwiseApart(places) && RedactAll(det, r, places).Some?
    ensures var o := RedactAll(det, r, places).value.value; SameEffects(det, o, o, places)
  {
    if places != [] {
      var n := |places| - 1;
      assert Fits(r, places[n]);
      AllSettled(det, r, places[..n]);
      var before, after := RedactAll(det, r, places[..n]).value.value, RedactAll(det, r, places).value.value;
      SettledStep(det, before, places[..n], places[n]);
      SettledOnRight(det, before, after, places[..n]);
      SettledSnoc(det, after, places[..n], places[n]);
      Snoc(places);
    }
  }

  /** Redacting again counts the same and costs no more. */
  lemma {:induction false} RedactAllAgain(det: Detectors, r: Record, places: seq<Place>)
    requires Valid(det) && AllFit(r, places) && PairwiseApart(places) && RedactAll(det, r, places).Some?
    ensures var o := RedactAll(det, r, places).value;
            && SameEffects(det, o.value, o.value, places)
            && RedactAll(det, o.value, places).Some?
            && RedactAll(det, o.value, places).value.marks == o.marks
               && RedactAll(det, o.value, places).value.cost <= o.cost
  {
    AllSettled(det, r, places);
    SameTotals(det, RedactAll(det, r, places).value.value, RedactAll(det, r, places).value.value, places);
    if places != [] {
      var n := |places| - 1;
      assert Fits(r, places[n]);
      RedactAllAgain(det, r, places[..n]);
      var before := RedactAll(det, r, places[..n]).value.value;
      SettledStep(det, before, places[..n], places[n]);
      SameTotals(det, before, RedactAll(det, r, places).value.value, places[..n]);
      PlaceAgain(det, before, places[n]);
    }
  }

  lemma CrossesAfterPlace(det: Detectors, r: Record, a: Place, b: Place)
    requires Fits(r, a) && Fits(r, b) && (PlacesApart(a, b) || a == b) && RedactPlace(det, r, b).Some?
    ensures Fits(RedactPlace(det, r, b).value.value, a)
    ensures CrossesAt(det, RedactPlace(det, r, b).value.value, a) == CrossesAt(det, r, a)
  {
    if !a.slot.Final? && a.slot == b.slot {
      var allow := AllowedAt(r, b);
      CrossesAfterRedact(det, SlotJson(r, a), a.tail, b.tail, allow);
      var json := Redact(det, SlotJson(r, b), b.tail, allow).value.value;
      SlotWrites(r, b, json, json);
      assert SlotJson(WithSlot(r, b, json), a) == json;
    }
  }

  lemma ApartOrSame(places: seq<Place>, i: nat)
    requires PairwiseApart(places) && i < |places|
    ensures forall j | 0 <= j < |places| :: PlacesApart(places[i], places[j]) || places[i] == places[j]
  {
    forall j | 0 <= j < i ensures PlacesApart(places[i], places[j]) {
      assert PlacesApart(places[j], places[i]);
    }
  }

  lemma {:induction false} CrossesAfterAll(det: Detectors, r: Record, places: seq<Place>, a: Place)
    requires AllFit(r, places) && Fits(r, a) && RedactAll(det, r, places).Some?
    requires forall i | 0 <= i < |places| :: PlacesApart(a, places[i]) || a == places[i]
    ensures Fits(RedactAll(det, r, places).value.value, a)
    ensures CrossesAt(det, RedactAll(det, r, places).value.value, a) == CrossesAt(det, r, a)
  {
    if places != [] {
      var n := |places| - 1;
      assert Fits(r, places[n]);
      CrossesAfterAll(det, r, places[..n], a);
      CrossesAfterPlace(det, RedactAll(det, r, places[..n]).value.value, a, places[n]);
    }
  }

  lemma {:induction false} TransformEventsAt(det: Detectors, events: seq<Event>, i: nat)
    requires TransformEvents(det, events).Some? && i < |events|
    ensures Transform(det, events[i].payload, Redactable(events[i])).Some?
    ensures TransformEvents(det, events).value.value[i]
         == events[i].(payload := Transform(det, events[i].payload, Redactable(events[i])).value.value)
  {
    var n := |events| - 1;
    if i < n {
      TransformEventsAt(det, events[..n], i);
    }
  }

  /** The slot of a transformed record holds the transformed value. */
  lemma SlotAfterTransform(det: Detectors, r: Record, a: Place)
    requires Fits(r, a) && !a.slot.Final? && TransformRecord(det, r).Some?
    ensures var t := TransformRecord(det, r).value.value;
            && Fits(t, a) && AllowedAt(t, a) == AllowedAt(r, a)
            && Transform(det, SlotJson(r, a), AllowedAt(r, a)).Some?
            && SlotJson(t, a) == Transform(det, SlotJson(r, a), AllowedAt(r, a)).value.value
  {
    if a.slot.Payload? {
      TransformEventsAt(det, r.events, a.slot.index);
    }
  }

  /** After the transformation a settled place is still settled, unless its path crossed a credential-named
      member; then its redaction is refused. */
  lemma PlaceAfterTransform(det: Detectors, r: Record, a: Place)
    requires Valid(det) && SettledAt(det, r, a) && TransformRecord(det, r).Some?
    ensures var t := TransformRecord(det, r).value.value;
            && Fits(t, a)
            && RedactPlace(det, t, a) == if CrossesAt(det, r, a) then None
                                         else Some(Step(t, RedactPlace(det, r, a).value.cost,
                                             RedactPlace(det, r, a).value.marks))
  {
    if !a.slot.Final? {
      var t := TransformRecord(det, r).value.value;
      var json := SlotJson(r, a);
      SlotAfterTransform(det, r, a);
      WriteBack(r, a, Redact(det, json, a.tail, AllowedAt(r, a)).value.value);
      TransformKeepsSettled(det, json, a.tail, AllowedAt(r, a), AllowedAt(r, a));
      WriteBack(t, a, SlotJson(t, a));
    }
  }

  lemma {:induction false} TransformEventsAgain(det: Detectors, events: seq<Event>)
    requires Valid(det) && TransformEvents(det, events).Some?
    ensures TransformEvents(det, TransformEvents(det, events).value.value) == TransformEvents(det, events)
  {
    if events != [] {
      var n := |events| - 1;
      var t := TransformEvents(det, events).value.value;
      TransformEventsAgain(det, events[..n]);
      TransformIsIdempotent(det, events[n].payload, Redactable(events[n]), Redactable(events[n]));
      assert t[..n] == TransformEvents(det, events[..n]).value.value;
    }
  }

  lemma TransformRecordAgain(det: Detectors, r: Record)
    requires Valid(det) && TransformRecord(det, r).Some?
    ensures TransformRecord(det, TransformRecord(det, r).value.value) == TransformRecord(det, r)
  {
    TransformIsIdempotent(det, r.finalState, true, true);
    TransformEventsAgain(det, r.events);
  }

  lemma {:induction false} OneRefusalRefuses(det: Detectors, r: Record, places: seq<Place>, i: nat)
    requires AllFit(r, places) && i < |places| && RedactPlace(det, r, places[i]).None?
    requires forall k | 0 <= k < |places| :: RedactPlace(det, r, places[k]).None? || SettledAt(det, r, places[k])
    ensures RedactAll(det, r, places).None?
  {
    var n := |places| - 1;
    var front := places[..n];
    assert forall k | 0 <= k < n :: front[k] == places[k];
    if i < n {
      OneRefusalRefuses(det, r, front, i);
    } else {
      StaysWhileSettled(det, r, front);
    }
    assert RedactAll(det, r, places) == AndThen(det, RedactAll(det, r, front), places[n]);
  }

  lemma {:induction false} StaysWhileSettled(det: Detectors, r: Record, places: seq<Place>)
    requires AllFit(r, places)
    requires forall k | 0 <= k < |places| :: RedactPlace(det, r, places[k]).None? || SettledAt(det, r, places[k])
    ensures RedactAll(det, r, places).Some? ==> RedactAll(det, r, places).value.value == r
  {
    if places != [] {
      StaysWhileSettled(det, r, places[..|places| - 1]);
      assert Fits(r, places[|places| - 1]);
    }
  }

  /** The redactions of a second run: refused when a path crosses a credential-named member, and otherwise
      without effect, at no greater cost and with the same count. */
  lemma SecondRedaction(det: Detectors, r: Record, places: seq<Place>)
    requires Valid(det) && AllFit(r, places) && PairwiseApart(places) && RedactAll(det, r, places).Some?
    requires TransformRecord(det, RedactAll(det, r, places).value.value).Some?
    ensures var first := RedactAll(det, r, places).value;
            var t := TransformRecord(det, first.value).value.value;
            && AllFit(t, places)
            && (if CrossesCredential(det, r, places) then RedactAll(det, t, places).None?
                else RedactAll(det, t, places).Some? && RedactAll(det, t, places).value.value == t
                     && RedactAll(det, t, places).value.marks == first.marks
                     && RedactAll(det, t, places).value.cost <= first.cost)
  {
    var first := RedactAll(det, r, places).value;
    var t := TransformRecord(det, first.value).value.value;
    RedactAllAgain(det, r, places);
    forall i | 0 <= i < |places|
      ensures SettledAt(det, first.value, places[i]) && Fits(t, places[i])
      ensures RedactPlace(det, t, places[i])
           == if CrossesAt(det, r, places[i]) then None
              else Some(Step(t, RedactPlace(det, first.value, places[i]).value.cost,
                  RedactPlace(det, first.value, places[i]).value.marks))
    {
      ApartOrSame(places, i);
      CrossesAfterAll(det, r, places, places[i]);
      PlaceAfterTransform(det, first.value, places[i]);
    }
    if CrossesCredential(det, r, places) {
      var i :| 0 <= i < |places| && CrossesAt(det, r, places[i]);
      OneRefusalRefuses(det, t, places, i);
    } else {
      assert SameEffects(det, first.value, t, places);
      SameTotals(det, first.value, t, places);
    }
  }

  /** A second run under the same policy succeeds, with the same evidence and the same receipt, exactly when no
      declared path steps through a member under a credential-named key. */
  lemma SecondRun(b: Boundary, policy: Policy, r: Record)
    requires Valid(b.detectors) && Accepted(policy.paths)
    requires AllFit(r, AllPlaces(policy.paths, |r.events|)) && Minimize(b, policy, r).Some?
    ensures var p := Minimize(b, policy, r).value;
            var places := AllPlaces(policy.paths, |r.events|);
            && |p.evidence.events| == |r.events| && AllFit(p.evidence, places)
            && Minimize(b, policy, p.evidence) == if CrossesCredential(b.detectors, r, places) then None else Some(p)
  {
    var det, places := b.detectors, AllPlaces(policy.paths, |r.events|);
    DisjointPlaces(policy.paths, |r.events|);
    SecondRedaction(det, r, places);
    TransformRecordAgain(det, RedactAll(det, r, places).value.value);
  }

  // ---------------------------------------------------------------- a second run that is refused

  const TOKEN_DETECTORS := Detectors((key: string) => key == "token", (s: string) => false)
  const TOKEN_BOUNDARY := Boundary(TOKEN_DETECTORS, (r: Record) => true, (r: Record) => "root")
  const TOKEN_PATH := Path(FinalState, ["token", "x"])
  const TOKEN_POLICY := Policy([TOKEN_PATH], 100, 10)

  /** The final state {"token": {"x": "a"}}. */
  const TOKEN_RECORD :=
    Record(Container(Some(["token"]), [Container(Some(["x"]), [Text("a")])]), None, [], 0)

  lemma TokenPlaces()
    ensures AllPlaces([TOKEN_PATH], 0) == [Place(State, ["token", "x"])]
  {
    assert [TOKEN_PATH][..0] == [];
  }

  lemma TokenFound(child: Json)
    ensures Find(Container(Some(["token"]), [child]), "token") == Success(Some(0))
    ensures Find(Container(Some(["x"]), [child]), "x") == Success(Some(0))
  {
  }

  /** The first run replaces "a", and then the whole member "token". */
  lemma TokenRedacted()
    ensures var inner := Container(Some(["x"]), [Text("a")]);
            && Redact(TOKEN_DETECTORS, Container(Some(["token"]), [inner]), ["token", "x"], true)
               == Some(Step(Container(Some(["token"]), [Container(Some(["x"]), [PII])]), 3, 1))
            && Crosses(TOKEN_DETECTORS, Container(Some(["token"]), [inner]), ["token", "x"])
  {
    var inner := Container(Some(["x"]), [Text("a")]);
    TokenFound(inner);
    TokenFound(Text("a"));
    assert ["token", "x"][1..] == ["x"];
    assert RedactChild(TOKEN_DETECTORS, Text("a"), ["x"], true) == Some(Step(PII, 1, 1)) by {
      assert !Contains(TOKEN_DETECTORS, Text("a"), false);
    }
    assert Put(inner, 0, PII) == Container(Some(["x"]), [PII]);
    assert Redact(TOKEN_DETECTORS, inner, ["x"], true) == Some(Step(Container(Some(["x"]), [PII]), 2, 1));
    assert RedactChild(TOKEN_DETECTORS, inner, ["token", "x"], true)
        == Some(Step(Container(Some(["x"]), [PII]), 2, 1));
    assert [inner][0 := Container(Some(["x"]), [PII])] == [Container(Some(["x"]), [PII])];
  }

  lemma TokenTransformed(inner: Json)
    ensures Transform(TOKEN_DETECTORS, Container(Some(["token"]), [inner]), true)
         == Some(Step(Container(Some(["token"]), [CREDENTIAL]), 1, 1))
  {
    assert Named(TOKEN_DETECTORS, Some(["token"]), 0);
    assert TransformChild(TOKEN_DETECTORS, true, inner, true) == Some(Step(CREDENTIAL, 0, 1));
    assert [inner][..0] == [];
    assert TransformAll(TOKEN_DETECTORS, Some(["token"]), [], true) == Some(Step([], 0, 0));
    assert [] + [CREDENTIAL] == [CREDENTIAL];
    assert TransformAll(TOKEN_DETECTORS, Some(["token"]), [inner], true) == Some(Step([CREDENTIAL], 0, 1));
  }

  /** With "token" a credential-named key, the policy that declares /final_state/token/x minimizes the final state
      {"token": {"x": "a"}}, and is refused on its own result. */
  lemma SecondRunCanBeRefused()
    ensures Valid(TOKEN_DETECTORS) && Accepted(TOKEN_POLICY.paths)
    ensures AllFit(TOKEN_RECORD, AllPlaces(TOKEN_POLICY.paths, 0))
    ensures var first := Minimize(TOKEN_BOUNDARY, TOKEN_POLICY, TOKEN_RECORD);
            && first.Some? && |first.value.evidence.events| == 0
            && AllFit(first.value.evidence, AllPlaces(TOKEN_POLICY.paths, 0))
            && Minimize(TOKEN_BOUNDARY, TOKEN_POLICY, first.value.evidence).None?
  {
    TokenPlaces();
    TokenRedacted();
    TokenTransformed(Container(Some(["x"]), [PII]));
    TokenRecordRedacted();
    assert CrossesAt(TOKEN_DETECTORS, TOKEN_RECORD, AllPlaces(TOKEN_POLICY.paths, 0)[0]);
    SecondRun(TOKEN_BOUNDARY, TOKEN_POLICY, TOKEN_RECORD);
  }

  lemma TokenRecordRedacted()
    ensures AllFit(TOKEN_RECORD, [Place(State, ["token", "x"])])
    ensures var redacted := RedactAll(TOKEN_DETECTORS, TOKEN_RECORD, [Place(State, ["token", "x"])]);
            && redacted.Some? && redacted.value.cost == 3 && redacted.value.marks == 1
            && redacted.value.value == TOKEN_RECORD.(finalState :=
                 Container(Some(["token"]), [Container(Some(["x"]), [PII])]))
  {
    TokenRedacted();
    RedactSnoc(TOKEN_DETECTORS, TOKEN_RECORD, [], Place(State, ["token", "x"]));
    assert [] + [Place(State, ["token", "x"])] == [Place(State, ["token", "x"])];
  }
}
