/** When minimization succeeds (evidence/minimization.py:261-548): exactly on the records whose declared values can all
    be redacted and whose authority-bearing payloads hold no credential, once the ceilings are large enough. */
module MinimizationSuccess {
  import opened Wrappers
  import opened PointerPath
  import opened Minimization
  import opened EvidenceMinimization
  import opened MinimizationMeaning

  // ---------------------------------------------------------------- one path

  /** Some segment of the path is simply not there. */
  predicate Missing(json: Json, tail: seq<string>)
    requires tail != []
    decreases |tail|
  {
    match Find(json, tail[0])
    case Success(None) => true
    case Success(Some(i)) => |tail| > 1 && Missing(json.children[i], tail[1..])
    case Failure(_) => false
  }

  /** The value that the path selects may be replaced: redaction is allowed there, its name is no credential's and it
      holds no credential; or there is no such value. */
  predicate Replaceable(det: Detectors, json: Json, tail: seq<string>, allow: bool)
    requires tail != []
  {
    match Location(json, tail)
    case None => Missing(json, tail)
    case Some(position) =>
      && allow && !det.sensitive(tail[|tail| - 1])
      && ValueAt(json, position).Some? && !Contains(det, ValueAt(json, position).value, false)
  }

  lemma {:induction false} RedactSucceeds(det: Detectors, json: Json, tail: seq<string>, allow: bool)
    requires tail != []
    ensures Redact(det, json, tail, allow).Some? <==> Replaceable(det, json, tail, allow)
    decreases |tail|
  {
    match Find(json, tail[0])
    case Failure(_) =>
    case Success(None) =>
    case Success(Some(i)) =>
      var child := json.children[i];
      if |tail| > 1 {
        RedactSucceeds(det, child, tail[1..], allow);
        assert tail[1..][|tail| - 2] == tail[|tail| - 1];
        if Location(child, tail[1..]).Some? {
          var rest := Location(child, tail[1..]).value;
          assert ([i] + rest)[1..] == rest;
        }
      } else {
        assert Location(json, tail) == Some([i]) && ValueAt(json, [i]) == Some(child) by {
          assert [i][1..] == [];
        }
        ContainsNamed(det, child, det.sensitive(tail[0]));
      }
  }

  lemma ContainsNamed(det: Detectors, json: Json, named: bool)
    ensures Contains(det, json, named) <==> named || Contains(det, json, false)
  {
  }

  /** A redaction does not change whether another path can be redacted. */
  lemma {:induction false} RedactableAfter(det: Detectors, json: Json, s: seq<string>, t: seq<string>, x: bool, y: bool)
    requires s != [] && t != [] && Apart(s, t) && Redact(det, json, t, y).Some?
    ensures Redact(det, Redact(det, json, t, y).value.value, s, x).Some? <==> Redact(det, json, s, x).Some?
    decreases |s|
  {
    if Find(json, t[0]) != Success(None) {
      var i := Find(json, t[0]).value.value;
      var child := RedactChild(det, json.children[i], t, y).value.value;
      FindAfterPut(json, i, child, s[0]);
      if Find(json, s[0]) == Success(Some(i)) {
        FindIsInjective(json, s[0], t[0]);
        ApartTails(s, t);
        RedactableAfter(det, json.children[i], s[1..], t[1..], x, y);
      }
    }
  }

  // ---------------------------------------------------------------- all places

  lemma PlaceableAfter(det: Detectors, r: Record, a: Place, b: Place)
    requires Fits(r, a) && Fits(r, b) && PlacesApart(a, b) && RedactPlace(det, r, b).Some?
    ensures Fits(RedactPlace(det, r, b).value.value, a)
    ensures RedactPlace(det, RedactPlace(det, r, b).value.value, a).Some? <==> RedactPlace(det, r, a).Some?
  {
    if !a.slot.Final? && a.slot == b.slot {
      RedactableAfter(det, SlotJson(r, a), a.tail, b.tail, AllowedAt(r, a), AllowedAt(r, b));
      var json := Redact(det, SlotJson(r, b), b.tail, AllowedAt(r, b)).value.value;
      SlotWrites(r, b, json, json);
      assert SlotJson(WithSlot(r, b, json), a) == json && AllowedAt(WithSlot(r, b, json), a) == AllowedAt(r, a);
    }
  }

  lemma {:induction false} PlaceableAfterAll(det: Detectors, r: Record, places: seq<Place>, a: Place)
    requires AllFit(r, places) && Fits(r, a) && RedactAll(det, r, places).Some?
    requires forall i | 0 <= i < |places| :: PlacesApart(a, places[i])
    ensures Fits(RedactAll(det, r, places).value.value, a)
    ensures RedactPlace(det, RedactAll(det, r, places).value.value, a).Some? <==> RedactPlace(det, r, a).Some?
  {
    if places != [] {
      var n := |places| - 1;
      assert Fits(r, places[n]);
      PlaceableAfterAll(det, r, places[..n], a);
      PlaceableAfter(det, RedactAll(det, r, places[..n]).value.value, a, places[n]);
    }
  }

  /** The place's value may be replaced in the record. */
  ghost predicate PlaceReplaceable(det: Detectors, r: Record, a: Place) {
    && Fits(r, a)
    && if a.slot.Final? then r.finalOutput.Some? ==> !det.credential(r.finalOutput.value)
       else Replaceable(det, SlotJson(r, a), a.tail, AllowedAt(r, a))
  }

  lemma RedactPlaceSucceeds(det: Detectors, r: Record, a: Place)
    requires Fits(r, a)
    ensures RedactPlace(det, r, a).Some? <==> PlaceReplaceable(det, r, a)
  {
    if !a.slot.Final? {
      RedactSucceeds(det, SlotJson(r, a), a.tail, AllowedAt(r, a));
    }
  }

  ghost predicate AllReplaceable(det: Detectors, r: Record, places: seq<Place>) {
    forall i | 0 <= i < |places| :: PlaceReplaceable(det, r, places[i])
  }

  lemma {:induction false} RedactAllSucceeds(det: Detectors, r: Record, places: seq<Place>)
    requires AllFit(r, places) && PairwiseApart(places)
    ensures RedactAll(det, r, places).Some? <==> AllReplaceable(det, r, places)
  {
    if places != [] {
      var n := |places| - 1;
      var front := places[..n];
      ApartFromFront(places);
      RedactAllSucceeds(det, r, front);
      assert Fits(r, places[n]);
      RedactPlaceSucceeds(det, r, places[n]);
      if RedactAll(det, r, front).Some? {
        PlaceableAfterAll(det, r, front, places[n]);
      }
      assert AllReplaceable(det, r, places)
         <==> AllReplaceable(det, r, front) && PlaceReplaceable(det, r, places[n]) by {
        assert forall i | 0 <= i < n :: front[i] == places[i];
      }
    }
  }

  // ---------------------------------------------------------------- the credentials

  /** Where redaction is allowed the transformation always succeeds; elsewhere exactly on clean values. */
  lemma {:induction false} TransformSucceeds(det: Detectors, json: Json, allow: bool)
    requires Valid(det)
    ensures Transform(det, json, allow).Some? <==> allow || Clean(det, json)
    decreases json, 0
  {
    if json.Container? {
      TransformAllSucceeds(det, json.keys, json.children, allow);
    }
  }

  lemma {:induction false} TransformAllSucceeds(det: Detectors, keys: Option<seq<string>>, children: seq<Json>,
      allow: bool)
    requires Valid(det)
    ensures TransformAll(det, keys, children, allow).Some? <==> allow || CleanChildren(det, keys, children)
    decreases children, 0
  {
    if children != [] {
      var n := |children| - 1;
      var front, child := children[..n], children[n];
      TransformAllSucceeds(det, keys, front, allow);
      TransformSucceeds(det, child, allow);
      var last := if Named(det, keys, n) then child == CREDENTIAL else Clean(det, child);
      assert CleanChildren(det, keys, children) <==> CleanChildren(det, keys, front) && last by {
        assert forall i | 0 <= i < n :: front[i] == children[i];
      }
    }
  }

  /** No authority-bearing payload holds a credential. */
  predicate CleanAuthority(det: Detectors, events: seq<Event>) {
    forall i | 0 <= i < |events| && !Redactable(events[i]) :: Clean(det, events[i].payload)
  }

  lemma {:induction false} TransformEventsSucceeds(det: Detectors, events: seq<Event>)
    requires Valid(det)
    ensures TransformEvents(det, events).Some? <==> CleanAuthority(det, events)
  {
    if events != [] {
      var n := |events| - 1;
      TransformEventsSucceeds(det, events[..n]);
      TransformSucceeds(det, events[n].payload, Redactable(events[n]));
      assert forall i | 0 <= i < n :: events[..n][i] == events[i];
    }
  }

  lemma TransformRecordSucceeds(det: Detectors, r: Record)
    requires Valid(det)
    ensures TransformRecord(det, r).Some? <==> CleanAuthority(det, r.events)
  {
    TransformSucceeds(det, r.finalState, true);
    TransformEventsSucceeds(det, r.events);
  }

  lemma SameAuthorityIsAsClean(det: Detectors, before: seq<Event>, after: seq<Event>)
    requires SameAuthority(before, after)
    ensures CleanAuthority(det, before) <==> CleanAuthority(det, after)
  {
    assert forall i | 0 <= i < |before| :: Redactable(before[i]) == Redactable(after[i]);
  }

  // ---------------------------------------------------------------- the whole run

  /** The policy with other ceilings. */
  function WithCeilings(policy: Policy, nodes: nat, redactions: nat): Policy {
    policy.(maxTraversalNodes := nodes, maxRedactions := redactions)
  }

  /** Every declared value may be replaced, and no authority-bearing payload holds a credential. */
  ghost predicate Minimizable(det: Detectors, paths: seq<Path>, r: Record) {
    AllReplaceable(det, r, AllPlaces(paths, |r.events|)) && CleanAuthority(det, r.events)
  }

  lemma PassesSucceed(det: Detectors, paths: seq<Path>, r: Record)
    requires Valid(det) && Accepted(paths) && AllFit(r, AllPlaces(paths, |r.events|))
    ensures var redacted := RedactAll(det, r, AllPlaces(paths, |r.events|));
            Minimizable(det, paths, r) <==> redacted.Some? && TransformRecord(det, redacted.value.value).Some?
  {
    var places := AllPlaces(paths, |r.events|);
    DisjointPlaces(paths, |r.events|);
    RedactAllSucceeds(det, r, places);
    if RedactAll(det, r, places).Some? {
      var o := RedactAll(det, r, places).value.value;
      RedactAllKeepsAuthority(det, r, places);
      TransformRecordSucceeds(det, o);
      SameAuthorityIsAsClean(det, r.events, o.events);
    }
  }

  /** Where every rebuilt record is admissible, minimization succeeds under some ceilings, and then under all larger
      ones, exactly when the record is minimizable; the markers set never exceed their ceiling. */
  lemma MinimizationSucceeds(b: Boundary, policy: Policy, r: Record)
    requires Valid(b.detectors) && Accepted(policy.paths) && AllFit(r, AllPlaces(policy.paths, |r.events|))
    requires forall o: Record :: b.admissible(o)
    ensures Minimizable(b.detectors, policy.paths, r)
       <==> exists nodes, redactions :: Minimize(b, WithCeilings(policy, nodes, redactions), r).Some?
    ensures Minimize(b, policy, r).Some? ==>
              && Minimizable(b.detectors, policy.paths, r)
              && var receipt := Minimize(b, policy, r).value.receipt;
                 receipt.credential + receipt.operatorPii <= policy.maxRedactions
    ensures forall nodes, redactions | nodes >= policy.maxTraversalNodes && redactions >= policy.maxRedactions ::
              Minimize(b, policy, r).Some? ==> Minimize(b, WithCeilings(policy, nodes, redactions), r).Some?
  {
    var places := AllPlaces(policy.paths, |r.events|);
    PassesSucceed(b.detectors, policy.paths, r);
    if Minimizable(b.detectors, policy.paths, r) {
      var redacted := RedactAll(b.detectors, r, places).value;
      var t := TransformRecord(b.detectors, redacted.value).value;
      assert Minimize(b, WithCeilings(policy, redacted.cost + t.cost, redacted.marks + t.marks), r).Some?;
    }
  }

  // ---------------------------------------------------------------- a declared value

  lemma {:induction false} ClearWay(det: Detectors, declared: set<seq<nat>>, at: seq<nat>, json: Json,
      tail: seq<string>)
    requires tail != [] && Location(json, tail).Some? && !Crosses(det, json, tail) && !det.sensitive(tail[|tail| - 1])
    requires var position := Location(json, tail).value;
             forall k | 0 <= k < |position| :: at + position[..k] !in declared
    ensures Clear(det, declared, at, json, Location(json, tail).value)
    decreases |tail|
  {
    var position := Location(json, tail).value;
    var i := Find(json, tail[0]).value.value;
    assert position[0] == i && at + position[..0] == at;
    if |tail| > 1 {
      var rest := Location(json.children[i], tail[1..]).value;
      assert position[1..] == rest;
      forall k | 0 <= k < |rest| ensures at + [i] + rest[..k] !in declared {
        assert at + position[..k + 1] == at + [i] + rest[..k];
      }
      ClearWay(det, declared, at + [i], json.children[i], tail[1..]);
    } else {
      assert position[1..] == [];
    }
  }

  /** No declared position lies above another. */
  lemma NoneAbove(paths: seq<Path>, slot: Slot, json: Json, i: nat, k: nat)
    requires Accepted(paths) && i < |paths| && Selects(paths[i], slot, json)
    requires k < |Location(json, paths[i].tail).value|
    ensures Location(json, paths[i].tail).value[..k] !in Declared(paths, slot, json)
  {
    var position := Location(json, paths[i].tail).value;
    if position[..k] in Declared(paths, slot, json) {
      var j :| 0 <= j < |paths| && Selects(paths[j], slot, json)
          && Location(json, paths[j].tail).value == position[..k];
      if j != i {
        ApartPaths(paths, slot, i, j);
        LocationsApart(json, paths[i].tail, paths[j].tail);
      }
    }
  }

  lemma ApartPaths(paths: seq<Path>, slot: Slot, i: nat, j: nat)
    requires Accepted(paths) && i < |paths| && j < |paths| && i != j && !slot.Final?
    requires Addresses(paths[i], slot) && Addresses(paths[j], slot)
    ensures Apart(paths[i].tail, paths[j].tail)
  {
    assert !PathsOverlap(paths[if i < j then i else j], paths[if i < j then j else i]);
  }

  lemma SlotMarker(det: Detectors, paths: seq<Path>, slot: Slot, json: Json, after: Json, i: nat)
    requires Accepted(paths) && Becomes(det, Declared(paths, slot, json), [], json, after)
    requires i < |paths| && Selects(paths[i], slot, json)
    requires !Crosses(det, json, paths[i].tail) && !det.sensitive(paths[i].tail[|paths[i].tail| - 1])
    ensures ValueAt(after, Location(json, paths[i].tail).value) == Some(PII)
  {
    var declared, position := Declared(paths, slot, json), Location(json, paths[i].tail).value;
    forall k | 0 <= k < |position| ensures [] + position[..k] !in declared {
      NoneAbove(paths, slot, json, i, k);
      assert [] + position[..k] == position[..k];
    }
    ClearWay(det, declared, [], json, paths[i].tail);
    assert [] + position == position;
    MarkerAtDeclared(det, declared, [], json, after, position);
  }

  /** After success, a declared value that is present, and whose path crosses no credential-named member, is the
      operator marker, in the final state and in every payload that a declared path addresses. */
  lemma DeclaredValueIsRedacted(b: Boundary, policy: Policy, r: Record, i: nat, a: Place)
    requires Valid(b.detectors) && Accepted(policy.paths)
    requires AllFit(r, AllPlaces(policy.paths, |r.events|)) && Minimize(b, policy, r).Some?
    requires i < |policy.paths| && !a.slot.Final? && Fits(r, a) && a.tail == policy.paths[i].tail
    requires Addresses(policy.paths[i], a.slot)
    requires Location(SlotJson(r, a), a.tail).Some? && !Crosses(b.detectors, SlotJson(r, a), a.tail)
    ensures var o := Minimize(b, policy, r).value.evidence;
            Fits(o, a) && ValueAt(SlotJson(o, a), Location(SlotJson(r, a), a.tail).value) == Some(PII)
  {
    var o := Minimize(b, policy, r).value.evidence;
    MinimizedRecord(b, policy, r);
    PassesSucceed(b.detectors, policy.paths, r);
    DeclaredIsReplaceable(b.detectors, policy.paths, r, i, a);
    SlotIsMinimized(b.detectors, policy.paths, r, o, a);
    SlotMarker(b.detectors, policy.paths, a.slot, SlotJson(r, a), SlotJson(o, a), i);
  }

  lemma SlotIsMinimized(det: Detectors, paths: seq<Path>, r: Record, o: Record, a: Place)
    requires Minimized(det, paths, r, o) && Fits(r, a) && !a.slot.Final?
    ensures Fits(o, a) && Becomes(det, Declared(paths, a.slot, SlotJson(r, a)), [], SlotJson(r, a), SlotJson(o, a))
  {
    if a.slot.Payload? { assert EventMinimized(det, paths, r, o, a.slot.index); }
  }

  lemma DeclaredIsReplaceable(det: Detectors, paths: seq<Path>, r: Record, i: nat, a: Place)
    requires Accepted(paths) && AllReplaceable(det, r, AllPlaces(paths, |r.events|))
    requires i < |paths| && !a.slot.Final? && Fits(r, a) && a.tail == paths[i].tail && Addresses(paths[i], a.slot)
    ensures Replaceable(det, SlotJson(r, a), a.tail, AllowedAt(r, a))
  {
    PlaceOfPath(paths[i], |r.events|, a.slot);
    PlacesOfPath(paths, |r.events|, i, a);
    var places := AllPlaces(paths, |r.events|);
    var k :| 0 <= k < |places| && places[k] == a;
    assert PlaceReplaceable(det, r, places[k]);
  }
}
