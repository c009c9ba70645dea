/** What minimization leaves of a record (evidence/minimization.py:261-548), said at once of every value of the record
    and not pass by pass: declared values, credentials, and everything else. */
module MinimizationMeaning {
  import opened Wrappers
  import opened PointerPath
  import opened Sequences
  import opened Minimization
  import opened EvidenceMinimization

  // ---------------------------------------------------------------- positions

  /** The value at a sequence of child positions. */
  function ValueAt(json: Json, position: seq<nat>): Option<Json>
    decreases |position|
  {
    if position == [] then Some(json)
    else if json.Container? && position[0] < |json.children| then ValueAt(json.children[position[0]], position[1..])
    else None
  }

  /** The value with another one put at a position. */
  function Replaced(json: Json, position: seq<nat>, value: Json): Json
    requires ValueAt(json, position).Some?
    decreases |position|
  {
    if position == [] then value
    else Put(json, position[0], Replaced(json.children[position[0]], position[1..], value))
  }

  // ---------------------------------------------------------------- what a value becomes

  /** The value with the operator marker at the declared positions and nothing else changed; `at` is where it is. */
  ghost predicate Masked(declared: set<seq<nat>>, at: seq<nat>, before: Json, after: Json)
    decreases before
  {
    if at in declared then after == PII
    else
      match before
      case Container(keys, children) =>
        && after.Container? && after.keys == keys && |after.children| == |children|
        && forall i | 0 <= i < |children| :: Masked(declared, at + [i], children[i], after.children[i])
      case _ => after == before
  }

  /** What minimization makes of a value: the operator marker at the declared positions; elsewhere the credential marker
      for credential-pattern strings and for whatever stands under a credential-named key; all else as it was. */
  ghost predicate Becomes(det: Detectors, declared: set<seq<nat>>, at: seq<nat>, before: Json, after: Json)
    decreases before
  {
    if at in declared then after == PII
    else
      match before
      case Text(s) => after == (if det.credential(s) then CREDENTIAL else before)
      case Container(keys, children) =>
        && after.Container? && after.keys == keys && |after.children| == |children|
        && forall i | 0 <= i < |children| ::
             if Named(det, keys, i) then after.children[i] == CREDENTIAL
             else Becomes(det, declared, at + [i], children[i], after.children[i])
      case _ => after == before
  }

  // ---------------------------------------------------------------- one redaction

  lemma {:induction false} MaskedSelf(at: seq<nat>, json: Json)
    ensures Masked({}, at, json, json)
    decreases json
  {
    if json.Container? {
      forall i | 0 <= i < |json.children| ensures Masked({}, at + [i], json.children[i], json.children[i]) {
        MaskedSelf(at + [i], json.children[i]);
      }
    }
  }

  /** A declared position elsewhere makes no difference. */
  lemma {:induction false} MaskedElsewhere(declared: set<seq<nat>>, at: seq<nat>, before: Json, after: Json,
      other: seq<nat>)
    requires Masked(declared, at, before, after) && !(at <= other)
    ensures Masked(declared + {other}, at, before, after)
    decreases before
  {
    if at !in declared && before.Container? {
      forall i | 0 <= i < |before.children|
        ensures Masked(declared + {other}, at + [i], before.children[i], after.children[i])
      {
        MaskedElsewhere(declared, at + [i], before.children[i], after.children[i], other);
      }
    }
  }

  /** Putting the operator marker at one more position. */
  lemma {:induction false} MaskedMore(declared: set<seq<nat>>, at: seq<nat>, before: Json, after: Json,
      position: seq<nat>)
    requires Masked(declared, at, before, after) && ValueAt(after, position).Some?
    ensures Masked(declared + {at + position}, at, before, Replaced(after, position, PII))
    decreases |position|
  {
    if position == [] {
      assert at + position == at;
    } else {
      var k, rest, more := position[0], position[1..], declared + {at + position};
      assert after.Container? && at !in declared && before.Container?;
      assert at != at + position;
      assert at + position == at + [k] + rest;
      MaskedMore(declared, at + [k], before.children[k], after.children[k], rest);
      forall i | 0 <= i < |before.children| && i != k
        ensures Masked(more, at + [i], before.children[i], after.children[i])
      {
        assert (at + position)[|at|] == k && (at + [i])[|at|] == i;
        MaskedElsewhere(declared, at + [i], before.children[i], after.children[i], at + position);
      }
    }
  }

  /** A redaction puts the marker at the location of its path, and counts it; without one it changes nothing. */
  lemma {:induction false} RedactIsReplacement(det: Detectors, json: Json, tail: seq<string>, allow: bool)
    requires tail != [] && Redact(det, json, tail, allow).Some?
    ensures var r := Redact(det, json, tail, allow).value;
            match Location(json, tail)
            case None => r.value == json && r.marks == 0
            case Some(position) =>
              && allow && position != [] && r.marks == 1
              && ValueAt(json, position).Some? && r.value == Replaced(json, position, PII)
    decreases |tail|
  {
    if Find(json, tail[0]).value.Some? {
      var i := Find(json, tail[0]).value.value;
      var child := json.children[i];
      if |tail| > 1 {
        RedactIsReplacement(det, child, tail[1..], allow);
        match Location(child, tail[1..])
        case None => assert Put(json, i, child) == json;
        case Some(rest) => assert ([i] + rest)[1..] == rest;
      } else {
        assert [i][1..] == [];
      }
    }
  }

  /** A redaction does not move the location of another path. */
  lemma {:induction false} LocationAfterRedact(det: Detectors, json: Json, s: seq<string>, t: seq<string>, allow: bool)
    requires s != [] && t != [] && Apart(s, t) && Redact(det, json, t, allow).Some?
    ensures Location(Redact(det, json, t, allow).value.value, s) == Location(json, s)
    decreases |s|
  {
    if Find(json, t[0]) != Success(None) {
      var i := Find(json, t[0]).value.value;
      var child := RedactChild(det, json.children[i], t, allow).value.value;
      FindAfterPut(json, i, child, s[0]);
      if Find(json, s[0]) == Success(Some(i)) {
        FindIsInjective(json, s[0], t[0]);
        ApartTails(s, t);
        LocationAfterRedact(det, json.children[i], s[1..], t[1..], allow);
      }
    }
  }

  // ---------------------------------------------------------------- all redactions of a record

  function LocationIn(r: Record, a: Place): Option<seq<nat>>
    requires Fits(r, a)
  {
    if a.slot.Final? then None else Location(SlotJson(r, a), a.tail)
  }

  /** Whether the record has the value that a place declares. */
  predicate Present(r: Record, a: Place)
    requires Fits(r, a)
  {
    if a.slot.Final? then r.finalOutput.Some? else LocationIn(r, a).Some?
  }

  function CountPresent(r: Record, places: seq<Place>): nat
    requires AllFit(r, places)
  {
    if places == [] then 0
    else
      var n := |places| - 1;
      assert Fits(r, places[n]);
      CountPresent(r, places[..n]) + if Present(r, places[n]) then 1 else 0
  }

  /** The positions that the places declare in one slot. */
  function Positions(r: Record, places: seq<Place>, slot: Slot): set<seq<nat>>
    requires AllFit(r, places)
  {
    if places == [] then {}
    else
      var n := |places| - 1;
      assert Fits(r, places[n]);
      var front := Positions(r, places[..n], slot);
      if places[n].slot == slot && LocationIn(r, places[n]).Some? then front + {LocationIn(r, places[n]).value}
      else front
  }

  predicate OutputDeclared(places: seq<Place>) {
    exists i | 0 <= i < |places| :: places[i].slot.Final?
  }

  /** The record with the operator marker at every place that is present. */
  ghost predicate RecordMasked(r: Record, places: seq<Place>, o: Record)
    requires AllFit(r, places)
  {
    && Masked(Positions(r, places, State), [], r.finalState, o.finalState)
    && o.finalOutput == (if OutputDeclared(places) && r.finalOutput.Some? then Some(PII_MARKER) else r.finalOutput)
    && o.facts == r.facts && |o.events| == |r.events|
    && forall i: nat | i < |r.events| ::
         && o.events[i] == r.events[i].(payload := o.events[i].payload)
         && Masked(Positions(r, places, Payload(i)), [], r.events[i].payload, o.events[i].payload)
  }

  lemma PlacesSnocFacts(r: Record, places: seq<Place>, a: Place)
    requires AllFit(r, places) && Fits(r, a)
    ensures AllFit(r, places + [a])
    ensures CountPresent(r, places + [a]) == CountPresent(r, places) + if Present(r, a) then 1 else 0
    ensures forall slot ::
              Positions(r, places + [a], slot)
              == if a.slot == slot && LocationIn(r, a).Some? then Positions(r, places, slot) + {LocationIn(r, a).value}
                 else Positions(r, places, slot)
    ensures OutputDeclared(places + [a]) <==> OutputDeclared(places) || a.slot.Final?
  {
    var longer := places + [a];
    assert longer[..|places|] == places && longer[|places|] == a;
    assert forall i | 0 <= i < |places| :: longer[i] == places[i];
  }

  /** One more redaction in a slot of values. */
  lemma MaskSlot(det: Detectors, declared: set<seq<nat>>, before: Json, json: Json, tail: seq<string>, allow: bool)
    requires tail != [] && Redact(det, json, tail, allow).Some? && Masked(declared, [], before, json)
    requires Location(json, tail) == Location(before, tail)
    ensures var r := Redact(det, json, tail, allow).value;
            match Location(before, tail)
            case None => r.value == json && r.marks == 0
            case Some(position) => Masked(declared + {position}, [], before, r.value) && r.marks == 1
  {
    RedactIsReplacement(det, json, tail, allow);
    if Location(json, tail).Some? {
      var position := Location(json, tail).value;
      assert [] + position == position;
      MaskedMore(declared, [], before, json, position);
    }
  }

  /** The parts of a record that a redaction in another slot leaves. */
  lemma MaskFrame(det: Detectors, r: Record, places: seq<Place>, a: Place, o: Record)
    requires AllFit(r, places) && Fits(r, a) && Fits(o, a) && RecordMasked(r, places, o)
    requires RedactPlace(det, o, a).Some?
    ensures AllFit(r, places + [a])
    ensures var o' := RedactPlace(det, o, a).value.value;
            && o'.facts == o.facts && |o'.events| == |o.events|
            && (!a.slot.State? ==>
                  Masked(Positions(r, places + [a], State), [], r.finalState, o'.finalState))
            && (!a.slot.Final? ==> o'.finalOutput == o.finalOutput)
            && (forall i: nat | i < |r.events| :: o'.events[i] == r.events[i].(payload := o'.events[i].payload))
            && (forall i: nat | i < |r.events| && a.slot != Payload(i) ::
                  Masked(Positions(r, places + [a], Payload(i)), [], r.events[i].payload, o'.events[i].payload))
  {
    PlacesSnocFacts(r, places, a);
  }

  lemma MaskOutput(det: Detectors, r: Record, places: seq<Place>, a: Place, o: Record)
    requires AllFit(r, places) && a.slot.Final? && RecordMasked(r, places, o) && !OutputDeclared(places)
    requires RedactPlace(det, o, a).Some?
    ensures AllFit(r, places + [a]) && RecordMasked(r, places + [a], RedactPlace(det, o, a).value.value)
    ensures RedactPlace(det, o, a).value.marks == if Present(r, a) then 1 else 0
  {
    MaskFrame(det, r, places, a, o);
    PlacesSnocFacts(r, places, a);
  }

  lemma MaskStep(det: Detectors, r: Record, places: seq<Place>, a: Place, o: Record)
    requires AllFit(r, places) && Fits(r, a) && Fits(o, a) && RecordMasked(r, places, o)
    requires RedactPlace(det, o, a).Some? && LocationIn(o, a) == LocationIn(r, a)
    requires a.slot.Final? ==> !OutputDeclared(places)
    ensures AllFit(r, places + [a])
    ensures RecordMasked(r, places + [a], RedactPlace(det, o, a).value.value)
    ensures RedactPlace(det, o, a).value.marks == if Present(r, a) then 1 else 0
  {
    if a.slot.Final? {
      MaskOutput(det, r, places, a, o);
    } else {
      MaskFrame(det, r, places, a, o);
      PlacesSnocFacts(r, places, a);
      MaskSlot(det, Positions(r, places, a.slot), SlotJson(r, a), SlotJson(o, a), a.tail, AllowedAt(o, a));
      assert SlotJson(RedactPlace(det, o, a).value.value, a)
          == Redact(det, SlotJson(o, a), a.tail, AllowedAt(o, a)).value.value;
    }
  }

  lemma LocationAfterPlace(det: Detectors, r: Record, a: Place, b: Place)
    requires Fits(r, a) && Fits(r, b) && PlacesApart(a, b) && RedactPlace(det, r, b).Some?
    ensures Fits(RedactPlace(det, r, b).value.value, a)
    ensures LocationIn(RedactPlace(det, r, b).value.value, a) == LocationIn(r, a)
  {
    if !a.slot.Final? && a.slot == b.slot {
      LocationAfterRedact(det, SlotJson(r, a), a.tail, b.tail, AllowedAt(r, b));
      var json := Redact(det, SlotJson(r, b), b.tail, AllowedAt(r, b)).value.value;
      SlotWrites(r, b, json, json);
      assert SlotJson(WithSlot(r, b, json), a) == json;
    }
  }

  lemma {:induction false} LocationAfterAll(det: Detectors, r: Record, places: seq<Place>, a: Place)
    requires AllFit(r, places) && Fits(r, a) && RedactAll(det, r, places).Some?
    requires forall i | 0 <= i < |places| :: PlacesApart(a, places[i])
    ensures Fits(RedactAll(det, r, places).value.value, a)
    ensures LocationIn(RedactAll(det, r, places).value.value, a) == LocationIn(r, a)
  {
    if places != [] {
      var n := |places| - 1;
      assert Fits(r, places[n]);
      LocationAfterAll(det, r, places[..n], a);
      LocationAfterPlace(det, RedactAll(det, r, places[..n]).value.value, a, places[n]);
    }
  }

  /** Redacting places that do not overlap puts the marker at each that is present, counts them, and changes nothing
      else. */
  lemma {:induction false} RedactAllMasks(det: Detectors, r: Record, places: seq<Place>)
    requires AllFit(r, places) && PairwiseApart(places) && RedactAll(det, r, places).Some?
    ensures RecordMasked(r, places, RedactAll(det, r, places).value.value)
    ensures RedactAll(det, r, places).value.marks == CountPresent(r, places)
  {
    if places == [] {
      MaskedSelf([], r.finalState);
      forall i | 0 <= i < |r.events| ensures Masked({}, [], r.events[i].payload, r.events[i].payload) {
        MaskedSelf([], r.events[i].payload);
      }
    } else {
      var n := |places| - 1;
      var front, a := places[..n], places[n];
      assert places == front + [a] && Fits(r, a);
      RedactAllMasks(det, r, front);
      ApartFromFront(places);
      LocationAfterAll(det, r, front, a);
      MaskStep(det, r, front, a, RedactAll(det, r, front).value.value);
      PlacesSnocFacts(r, front, a);
    }
  }

  lemma ApartFromFront(places: seq<Place>)
    requires places != [] && PairwiseApart(places)
    ensures var n := |places| - 1;
            && (forall i | 0 <= i < n :: PlacesApart(places[n], places[..n][i]))
            && PairwiseApart(places[..n]) && (places[n].slot.Final? ==> !OutputDeclared(places[..n]))
  {
    var n := |places| - 1;
    forall i | 0 <= i < n ensures PlacesApart(places[n], places[..n][i]) {
      assert PlacesApart(places[i], places[n]);
    }
  }

  // ---------------------------------------------------------------- then the credentials

  /** The transformation of a value with operator markers. */
  lemma {:induction false} TransformBecomes(det: Detectors, declared: set<seq<nat>>, at: seq<nat>, before: Json,
      masked: Json, allow: bool)
    requires Valid(det) && Masked(declared, at, before, masked) && Transform(det, masked, allow).Some?
    ensures Becomes(det, declared, at, before, Transform(det, masked, allow).value.value)
    decreases before
  {
    if at !in declared && before.Container? {
      var keys := before.keys;
      forall i | 0 <= i < |before.children|
        ensures |Transform(det, masked, allow).value.value.children| == |before.children|
        ensures var child := Transform(det, masked, allow).value.value.children[i];
                if Named(det, keys, i) then child == CREDENTIAL
                else Becomes(det, declared, at + [i], before.children[i], child)
      {
        TransformChildAt(det, keys, masked.children, allow, i);
        if !Named(det, keys, i) {
          TransformBecomes(det, declared, at + [i], before.children[i], masked.children[i], allow);
        }
      }
      if before.children == [] {
        assert masked.children == [];
      }
    }
  }

  // ---------------------------------------------------------------- from paths to slots

  /** The path selects in this slot. */
  predicate Addresses(p: Path, slot: Slot) {
    match (p.scope, slot)
    case (FinalOutput, Final) => true
    case (FinalState, State) => true
    case (Events(None), Payload(_)) => true
    case (Events(Some(i)), Payload(j)) => i == j
    case _ => false
  }

  /** The positions in a slot's value that the declared paths select. */
  ghost function Declared(paths: seq<Path>, slot: Slot, json: Json): set<seq<nat>>
  {
    set i | 0 <= i < |paths| && Selects(paths[i], slot, json) :: Location(json, paths[i].tail).value
  }

  /** The path selects a value inside the value of this slot. */
  predicate Selects(p: Path, slot: Slot, json: Json) {
    !slot.Final? && Addresses(p, slot) && p.tail != [] && Location(json, p.tail).Some?
  }

  function CountEvents(tail: seq<string>, events: seq<Event>): nat
    requires tail != []
  {
    if events == [] then 0
    else
      var n := |events| - 1;
      CountEvents(tail, events[..n]) + if Location(events[n].payload, tail).Some? then 1 else 0
  }

  /** In how many values of the record a path selects something. */
  function CountSelected(p: Path, r: Record): nat
    requires WellFormed(p)
  {
    match p.scope
    case FinalOutput => if r.finalOutput.Some? then 1 else 0
    case FinalState => if Location(r.finalState, p.tail).Some? then 1 else 0
    case Events(Some(i)) => if i < |r.events| && Location(r.events[i].payload, p.tail).Some? then 1 else 0
    case Events(None) => CountEvents(p.tail, r.events)
  }

  function CountDeclared(paths: seq<Path>, r: Record): nat
    requires forall i | 0 <= i < |paths| :: WellFormed(paths[i])
  {
    if paths == [] then 0
    else CountDeclared(paths[..|paths| - 1], r) + CountSelected(paths[|paths| - 1], r)
  }

  lemma PlaceOfPath(p: Path, n: nat, slot: Slot)
    requires slot.Payload? ==> slot.index < n
    requires WellFormed(p)
    ensures Addresses(p, slot) <==> Place(slot, p.tail) in Places(p, n)
    ensures forall a | a in Places(p, n) :: a.tail == p.tail && Addresses(p, a.slot)
  {
    if p.scope == Events(None) && slot.Payload? {
      assert Places(p, n)[slot.index] == Place(slot, p.tail);
    }
  }

  lemma {:induction false} PlacesOfPath(paths: seq<Path>, n: nat, i: nat, a: Place)
    requires i < |paths| && a in Places(paths[i], n)
    ensures a in AllPlaces(paths, n)
  {
    var m := |paths| - 1;
    if i < m {
      PlacesOfPath(paths[..m], n, i, a);
    }
  }

  lemma {:induction false} InPositions(r: Record, places: seq<Place>, slot: Slot, position: seq<nat>)
    requires AllFit(r, places)
    ensures position in Positions(r, places, slot)
       <==> exists i :: 0 <= i < |places| && Fits(r, places[i]) && places[i].slot == slot
                        && LocationIn(r, places[i]) == Some(position)
  {
    if places != [] {
      var n := |places| - 1;
      InPositions(r, places[..n], slot, position);
      assert Fits(r, places[n]);
      assert forall i | 0 <= i < n :: places[..n][i] == places[i];
    }
  }

  /** The declared positions of a slot, by paths and by places. */
  lemma DeclaredPositions(paths: seq<Path>, r: Record, slot: Slot)
    requires forall i | 0 <= i < |paths| :: WellFormed(paths[i])
    requires !slot.Final? && Fits(r, Place(slot, ["x"]))
    ensures AllFit(r, AllPlaces(paths, |r.events|))
    ensures Positions(r, AllPlaces(paths, |r.events|), slot) == Declared(paths, slot, SlotJson(r, Place(slot, ["x"])))
  {
    var places, json := AllPlaces(paths, |r.events|), SlotJson(r, Place(slot, ["x"]));
    PlacesFit(paths, r);
    forall position ensures position in Positions(r, places, slot) <==> position in Declared(paths, slot, json) {
      InPositions(r, places, slot, position);
      if position in Positions(r, places, slot) {
        var k :| 0 <= k < |places| && Fits(r, places[k]) && places[k].slot == slot
            && LocationIn(r, places[k]) == Some(position);
        PlaceIsDeclared(paths, r, places[k], position);
      }
      if position in Declared(paths, slot, json) {
        var i :| 0 <= i < |paths| && Selects(paths[i], slot, json) && Location(json, paths[i].tail).value == position;
        DeclaredIsPlace(paths, r, i, slot, position);
      }
    }
  }

  lemma PlaceIsDeclared(paths: seq<Path>, r: Record, a: Place, position: seq<nat>)
    requires forall i | 0 <= i < |paths| :: WellFormed(paths[i])
    requires a in AllPlaces(paths, |r.events|) && Fits(r, a) && !a.slot.Final? && LocationIn(r, a) == Some(position)
    ensures position in Declared(paths, a.slot, SlotJson(r, a))
  {
    var i := PlaceOrigin(paths, |r.events|, a);
    PlaceOfPath(paths[i], |r.events|, a.slot);
    assert Selects(paths[i], a.slot, SlotJson(r, a));
  }

  lemma DeclaredIsPlace(paths: seq<Path>, r: Record, i: nat, slot: Slot, position: seq<nat>)
    requires forall j | 0 <= j < |paths| :: WellFormed(paths[j])
    requires i < |paths| && Addresses(paths[i], slot) && !slot.Final? && paths[i].tail != []
    requires Fits(r, Place(slot, paths[i].tail)) && LocationIn(r, Place(slot, paths[i].tail)) == Some(position)
    ensures AllFit(r, AllPlaces(paths, |r.events|)) && position in Positions(r, AllPlaces(paths, |r.events|), slot)
  {
    var places, a := AllPlaces(paths, |r.events|), Place(slot, paths[i].tail);
    PlacesFit(paths, r);
    PlaceOfPath(paths[i], |r.events|, slot);
    PlacesOfPath(paths, |r.events|, i, a);
    var k :| 0 <= k < |places| && places[k] == a;
    assert Fits(r, places[k]);
    InPositions(r, places, slot, position);
  }

  lemma {:induction false} CountAppend(r: Record, xs: seq<Place>, ys: seq<Place>)
    requires AllFit(r, xs) && AllFit(r, ys)
    ensures AllFit(r, xs + ys) && CountPresent(r, xs + ys) == CountPresent(r, xs) + CountPresent(r, ys)
  {
    if ys == [] {
      assert xs + ys == xs;
    } else {
      var n := |ys| - 1;
      CountAppend(r, xs, ys[..n]);
      assert xs + ys == xs + ys[..n] + [ys[n]] && ys == ys[..n] + [ys[n]];
      PlacesSnocFacts(r, xs + ys[..n], ys[n]);
      PlacesSnocFacts(r, ys[..n], ys[n]);
    }
  }

  function WildPlaces(tail: seq<string>, n: nat): seq<Place> {
    seq(n, i requires 0 <= i < n => Place(Payload(i), tail))
  }

  lemma {:induction false} CountWild(r: Record, tail: seq<string>, n: nat)
    requires tail != [] && n <= |r.events|
    ensures AllFit(r, WildPlaces(tail, n))
    ensures CountPresent(r, WildPlaces(tail, n)) == CountEvents(tail, r.events[..n])
  {
    if n > 0 {
      CountWild(r, tail, n - 1);
      assert WildPlaces(tail, n)[..n - 1] == WildPlaces(tail, n - 1);
      assert r.events[..n][..n - 1] == r.events[..n - 1];
    }
  }

  lemma CountOnePath(r: Record, p: Path)
    requires WellFormed(p)
    ensures AllFit(r, Places(p, |r.events|)) && CountPresent(r, Places(p, |r.events|)) == CountSelected(p, r)
  {
    if p.scope == Events(None) {
      assert Places(p, |r.events|) == WildPlaces(p.tail, |r.events|);
      CountWild(r, p.tail, |r.events|);
      assert r.events[..|r.events|] == r.events;
    } else {
      assert |Places(p, |r.events|)| <= 1;
    }
  }

  lemma {:induction false} CountPaths(paths: seq<Path>, r: Record)
    requires forall i | 0 <= i < |paths| :: WellFormed(paths[i])
    ensures AllFit(r, AllPlaces(paths, |r.events|))
    ensures CountPresent(r, AllPlaces(paths, |r.events|)) == CountDeclared(paths, r)
  {
    if paths != [] {
      var n := |paths| - 1;
      CountPaths(paths[..n], r);
      CountOnePath(r, paths[n]);
      CountAppend(r, AllPlaces(paths[..n], |r.events|), Places(paths[n], |r.events|));
    }
  }

  // ---------------------------------------------------------------- the minimized record

  /** What the final output becomes. */
  function OutputBecomes(det: Detectors, declared: bool, output: Option<string>): Option<string> {
    if output.None? then None
    else if declared then Some(PII_MARKER)
    else if det.credential(output.value) then Some(CREDENTIAL_MARKER)
    else output
  }

  ghost predicate EventMinimized(det: Detectors, paths: seq<Path>, r: Record, o: Record, i: nat)
    requires i < |r.events|
  {
    && i < |o.events| && o.events[i] == r.events[i].(payload := o.events[i].payload)
    && Becomes(det, Declared(paths, Payload(i), r.events[i].payload), [], r.events[i].payload, o.events[i].payload)
  }

  /** The record that minimization must leave. */
  ghost predicate Minimized(det: Detectors, paths: seq<Path>, r: Record, o: Record) {
    && Becomes(det, Declared(paths, State, r.finalState), [], r.finalState, o.finalState)
    && o.finalOutput == OutputBecomes(det, exists p | p in paths :: p.scope.FinalOutput?, r.finalOutput)
    && o.facts == r.facts && |o.events| == |r.events|
    && forall i: nat | i < |r.events| :: EventMinimized(det, paths, r, o, i)
  }

  lemma OutputDeclaredByPath(paths: seq<Path>, n: nat)
    ensures OutputDeclared(AllPlaces(paths, n)) <==> exists p | p in paths :: p.scope.FinalOutput?
  {
    var places := AllPlaces(paths, n);
    if OutputDeclared(places) {
      var k :| 0 <= k < |places| && places[k].slot.Final?;
      var i := PlaceOrigin(paths, n, places[k]);
      assert paths[i].scope.FinalOutput?;
    }
    if p :| p in paths && p.scope.FinalOutput? {
      var i :| 0 <= i < |paths| && paths[i] == p;
      PlacesOfPath(paths, n, i, Place(Final, []));
    }
  }

  lemma StateBecomes(det: Detectors, paths: seq<Path>, r: Record, masked: Record)
    requires Valid(det) && forall i | 0 <= i < |paths| :: WellFormed(paths[i])
    requires AllFit(r, AllPlaces(paths, |r.events|)) && RecordMasked(r, AllPlaces(paths, |r.events|), masked)
    requires TransformRecord(det, masked).Some?
    ensures Becomes(det, Declared(paths, State, r.finalState), [], r.finalState,
                    TransformRecord(det, masked).value.value.finalState)
  {
    DeclaredPositions(paths, r, State);
    TransformBecomes(det, Declared(paths, State, r.finalState), [], r.finalState, masked.finalState, true);
  }

  lemma EventBecomes(det: Detectors, paths: seq<Path>, r: Record, masked: Record, i: nat)
    requires Valid(det) && forall i | 0 <= i < |paths| :: WellFormed(paths[i])
    requires AllFit(r, AllPlaces(paths, |r.events|)) && RecordMasked(r, AllPlaces(paths, |r.events|), masked)
    requires TransformRecord(det, masked).Some? && i < |r.events|
    ensures EventMinimized(det, paths, r, TransformRecord(det, masked).value.value, i)
  {
    DeclaredPositions(paths, r, Payload(i));
    TransformEventsAt(det, masked.events, i);
    TransformBecomes(det, Declared(paths, Payload(i), r.events[i].payload), [], r.events[i].payload,
                     masked.events[i].payload, Redactable(masked.events[i]));
  }

  lemma OutputIsTransformed(det: Detectors, masked: Record)
    requires Valid(det) && TransformRecord(det, masked).Some?
    ensures var o := TransformRecord(det, masked).value.value;
            && o.finalOutput == OutputBecomes(det, false, masked.finalOutput)
            && o.facts == masked.facts && |o.events| == |masked.events|
  {
  }

  lemma RestBecomes(det: Detectors, paths: seq<Path>, r: Record, masked: Record)
    requires Valid(det) && TransformRecord(det, masked).Some?
    requires AllFit(r, AllPlaces(paths, |r.events|)) && RecordMasked(r, AllPlaces(paths, |r.events|), masked)
    ensures var o := TransformRecord(det, masked).value.value;
            && o.finalOutput == OutputBecomes(det, exists p | p in paths :: p.scope.FinalOutput?, r.finalOutput)
            && o.facts == r.facts && |o.events| == |r.events|
  {
    OutputDeclaredByPath(paths, |r.events|);
    OutputIsTransformed(det, masked);
  }

  lemma MaskedBecomesMinimized(det: Detectors, paths: seq<Path>, r: Record, masked: Record)
    requires Valid(det) && forall i | 0 <= i < |paths| :: WellFormed(paths[i])
    requires AllFit(r, AllPlaces(paths, |r.events|)) && RecordMasked(r, AllPlaces(paths, |r.events|), masked)
    requires TransformRecord(det, masked).Some?
    ensures Minimized(det, paths, r, TransformRecord(det, masked).value.value)
  {
    StateBecomes(det, paths, r, masked);
    RestBecomes(det, paths, r, masked);
    forall i: nat | i < |r.events| ensures EventMinimized(det, paths, r, TransformRecord(det, masked).value.value, i) {
      EventBecomes(det, paths, r, masked, i);
    }
  }

  /** After success every declared value that is present and every credential is replaced by its marker, everything else
      is as it was, and the receipt counts the declared values that were present. */
  lemma MinimizedRecord(b: Boundary, policy: Policy, r: Record)
    requires Valid(b.detectors) && Accepted(policy.paths)
    requires AllFit(r, AllPlaces(policy.paths, |r.events|)) && Minimize(b, policy, r).Some?
    ensures var p := Minimize(b, policy, r).value;
            && Minimized(b.detectors, policy.paths, r, p.evidence)
            && p.receipt.operatorPii == CountDeclared(policy.paths, r)
            && p.receipt.policy == policy && p.receipt.root == b.root(p.evidence) && b.admissible(p.evidence)
  {
    var places := AllPlaces(policy.paths, |r.events|);
    DisjointPlaces(policy.paths, |r.events|);
    RedactAllMasks(b.detectors, r, places);
    MaskedBecomesMinimized(b.detectors, policy.paths, r, RedactAll(b.detectors, r, places).value.value);
    CountPaths(policy.paths, r);
  }

  // ---------------------------------------------------------------- a declared value

  /** The way to a position goes through no child under a credential-named key, and stops at no declared position. */
  ghost predicate Clear(det: Detectors, declared: set<seq<nat>>, at: seq<nat>, json: Json, position: seq<nat>)
    decreases |position|
  {
    position != [] ==>
      && at !in declared && json.Container? && position[0] < |json.children| && !Named(det, json.keys, position[0])
      && Clear(det, declared, at + [position[0]], json.children[position[0]], position[1..])
  }

  lemma {:induction false} MarkerAtDeclared(det: Detectors, declared: set<seq<nat>>, at: seq<nat>, before: Json,
      after: Json, position: seq<nat>)
    requires Becomes(det, declared, at, before, after) && at + position in declared
    requires Clear(det, declared, at, before, position)
    ensures ValueAt(after, position) == Some(PII)
    decreases |position|
  {
    if position == [] {
      assert at + position == at;
    } else {
      assert at + position == at + [position[0]] + position[1..];
      MarkerAtDeclared(det, declared, at + [position[0]], before.children[position[0]],
                       after.children[position[0]], position[1..]);
    }
  }
}
