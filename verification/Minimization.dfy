/** Evidence minimization (evidence/minimization.py:261-548) as functions on values: redaction of a declared
    path, the credential transformation, and what they leave in the evidence. Credential matching and key
    sensitivity are arbitrary predicates that do not match the two markers. */
module Minimization {
  import opened Wrappers
  import opened PointerPath

  /** An array, when `keys` is None, or an object whose i-th member is named by keys[i]. */
  datatype Json =
    | Null | Boolean(b: bool) | Number(n: real) | Text(text: string)
    | Container(keys: Option<seq<string>>, children: seq<Json>)

  const CREDENTIAL_MARKER := "[REDACTED:CREDENTIAL]"
  const PII_MARKER := "[REDACTED:OPERATOR_PII]"

  const CREDENTIAL := Text(CREDENTIAL_MARKER)
  const PII := Text(PII_MARKER)

  /** _sensitive_key and _string_has_credential. */
  datatype Detectors = Detectors(sensitive: string -> bool, credential: string -> bool)

  ghost predicate Valid(det: Detectors) {
    !det.credential(CREDENTIAL_MARKER) && !det.credential(PII_MARKER)
  }

  /** The i-th child sits under a credential-named key. */
  predicate Named(det: Detectors, keys: Option<seq<string>>, i: nat) {
    keys.Some? && i < |keys.value| && det.sensitive(keys.value[i])
  }

  // ---------------------------------------------------------------- credentials

  /** _contains_credential */
  predicate Contains(det: Detectors, json: Json, named: bool)
    decreases json
  {
    named ||
    match json
    case Text(s) => s == CREDENTIAL_MARKER || det.credential(s)
    case Container(keys, children) =>
      exists i | 0 <= i < |children| :: Contains(det, children[i], Named(det, keys, i))
    case _ => false
  }

  /** Nodes of a value: the traversal cost of a search that finds nothing. */
  function Size(json: Json): nat {
    match json
    case Container(_, children) => 1 + SizeAll(children)
    case _ => 1
  }

  function SizeAll(children: seq<Json>): nat {
    if children == [] then 0
    else SizeAll(children[..|children| - 1]) + Size(children[|children| - 1])
  }

  /** A value with its traversal cost and the markers it was counted for. */
  datatype Step<+T> = Step(value: T, cost: nat, marks: nat)

  /** _transform_credential_string; None is a refusal. */
  function TransformText(det: Detectors, s: string, allow: bool): Option<Step<string>> {
    if s == CREDENTIAL_MARKER then Some(Step(s, 0, 1))
    else if !det.credential(s) then Some(Step(s, 0, 0))
    else if !allow then None
    else Some(Step(CREDENTIAL_MARKER, 0, 1))
  }

  /** _transform_credentials */
  function Transform(det: Detectors, json: Json, allow: bool): Option<Step<Json>>
    decreases json, 0
  {
    match json
    case Text(s) =>
      (match TransformText(det, s, allow)
       case None => None
       case Some(t) => Some(Step(Text(t.value), 1, t.marks)))
    case Container(keys, children) =>
      (match TransformAll(det, keys, children, allow)
       case None => None
       case Some(t) => Some(Step(Container(keys, t.value), 1 + t.cost, t.marks)))
    case _ => Some(Step(json, 1, 0))
  }

  function TransformAll(det: Detectors, keys: Option<seq<string>>, children: seq<Json>,
      allow: bool): Option<Step<seq<Json>>>
    decreases children, 0
  {
    if children == [] then Some(Step([], 0, 0))
    else
      var n := |children| - 1;
      WithChild(TransformAll(det, keys, children[..n], allow),
          TransformChild(det, Named(det, keys, n), children[n], allow))
  }

  /** One more child after others; costs and counts add up. */
  function WithChild(front: Option<Step<seq<Json>>>, last: Option<Step<Json>>): Option<Step<seq<Json>>> {
    if front.None? || last.None? then None
    else
      Some(Step(front.value.value + [last.value.value], front.value.cost + last.value.cost,
          front.value.marks + last.value.marks))
  }

  /** A child under a credential-named key is replaced whole and not visited. */
  function TransformChild(det: Detectors, named: bool, child: Json, allow: bool): Option<Step<Json>>
    decreases child, 1
  {
    if !named then Transform(det, child, allow)
    else if !allow && child != CREDENTIAL then None
    else Some(Step(CREDENTIAL, 0, 1))
  }

  // ---------------------------------------------------------------- declared paths

  function IndexOf(keys: seq<string>, segment: string): (i: nat)
    ensures i <= |keys| && (i < |keys| ==> keys[i] == segment) && segment !in keys[..i]
  {
    if keys == [] || keys[0] == segment then 0 else 1 + IndexOf(keys[1..], segment)
  }

  /** _resolve_child: the position of the child; None when it is missing, a failure when the value has no such
      kind of child. */
  function Find(json: Json, segment: string): Result<Option<nat>, ()> {
    match json
    case Container(Some(keys), children) =>
      var i := IndexOf(keys, segment);
      Success(if i < |keys| && i < |children| then Some(i) else None)
    case Container(None, children) =>
      (match CanonicalIndex(segment)
       case None => Failure(())
       case Some(i) => Success(if i < |children| then Some(i) else None))
    case _ => Failure(())
  }

  function Put(json: Json, i: nat, child: Json): Json
    requires json.Container? && i < |json.children|
  {
    Container(json.keys, json.children[i := child])
  }

  /** _redact_declared_path; None is a refusal. */
  function Redact(det: Detectors, json: Json, tail: seq<string>, allow: bool): Option<Step<Json>>
    requires tail != []
    decreases |tail|, 1
  {
    match Find(json, tail[0])
    case Failure(_) => None
    case Success(None) => Some(Step(json, 1, 0))
    case Success(Some(i)) =>
      match RedactChild(det, json.children[i], tail, allow)
      case None => None
      case Some(r) => Some(Step(Put(json, i, r.value), 1 + r.cost, r.marks))
  }

  /** At the child that the first segment names: the target itself, or further down. */
  function RedactChild(det: Detectors, child: Json, tail: seq<string>, allow: bool): Option<Step<Json>>
    requires tail != []
    decreases |tail|, 0
  {
    if |tail| > 1 then Redact(det, child, tail[1..], allow)
    else if !allow || Contains(det, child, det.sensitive(tail[0])) then None
    else Some(Step(PII, Size(child), 1))
  }

  /** The walk along a path steps through a member under a credential-named key, before its last segment. */
  predicate Crosses(det: Detectors, json: Json, tail: seq<string>)
    requires tail != []
    decreases |tail|
  {
    |tail| > 1 &&
    match Find(json, tail[0])
    case Success(Some(i)) => Named(det, json.keys, i) || Crosses(det, json.children[i], tail[1..])
    case _ => false
  }

  /** The child positions a path selects, when its value is present. */
  function Location(json: Json, tail: seq<string>): Option<seq<nat>>
    requires tail != []
    decreases |tail|
  {
    match Find(json, tail[0])
    case Success(Some(i)) =>
      if |tail| == 1 then Some([i])
      else
        (match Location(json.children[i], tail[1..])
         case None => None
         case Some(rest) => Some([i] + rest))
    case _ => None
  }

  // ---------------------------------------------------------------- what the transformation leaves

  /** No string matches a credential pattern, and a credential-named key holds only the marker. */
  predicate Clean(det: Detectors, json: Json)
    decreases json
  {
    match json
    case Text(s) => !det.credential(s)
    case Container(keys, children) =>
      forall i | 0 <= i < |children| ::
        if Named(det, keys, i) then children[i] == CREDENTIAL else Clean(det, children[i])
    case _ => true
  }

  /** The values equal to the credential marker. */
  function Markers(json: Json): nat {
    match json
    case Text(s) => if s == CREDENTIAL_MARKER then 1 else 0
    case Container(_, children) => MarkersAll(children)
    case _ => 0
  }

  function MarkersAll(children: seq<Json>): nat {
    if children == [] then 0
    else MarkersAll(children[..|children| - 1]) + Markers(children[|children| - 1])
  }

  /** The transformed value is clean, its markers are exactly the redactions counted, and it is unchanged where
      redaction is not allowed. */
  lemma {:induction false} TransformResult(det: Detectors, json: Json, allow: bool)
    requires Valid(det) && Transform(det, json, allow).Some?
    ensures var t := Transform(det, json, allow).value;
            Clean(det, t.value) && Markers(t.value) == t.marks && (!allow ==> t.value == json)
    decreases json, 0
  {
    if json.Container? {
      TransformAllResult(det, json.keys, json.children, allow);
    }
  }

  /** What one child is transformed to. */
  lemma {:induction false} TransformChildResult(det: Detectors, named: bool, child: Json, allow: bool)
    requires Valid(det) && TransformChild(det, named, child, allow).Some?
    ensures var t := TransformChild(det, named, child, allow).value;
            && (if named then t.value == CREDENTIAL else Clean(det, t.value))
            && Markers(t.value) == t.marks && (!allow ==> t.value == child)
    decreases child, 1
  {
    if !named {
      TransformResult(det, child, allow);
    }
  }

  predicate CleanChildren(det: Detectors, keys: Option<seq<string>>, children: seq<Json>) {
    forall i | 0 <= i < |children| :: if Named(det, keys, i) then children[i] == CREDENTIAL else Clean(det, children[i])
  }

  lemma MarkersSnoc(children: seq<Json>, child: Json)
    ensures MarkersAll(children + [child]) == MarkersAll(children) + Markers(child)
  {
    assert (children + [child])[..|children|] == children;
  }

  /** The children `children` were transformed to a clean list with as many markers as were counted. */
  predicate Delivered(det: Detectors, keys: Option<seq<string>>, children: seq<Json>, t: Step<seq<Json>>, allow: bool) {
    && |t.value| == |children| && CleanChildren(det, keys, t.value)
    && MarkersAll(t.value) == t.marks && (!allow ==> t.value == children)
  }

  lemma DeliveredSnoc(det: Detectors, keys: Option<seq<string>>, children: seq<Json>, child: Json,
      front: Step<seq<Json>>,
                      last: Step<Json>, allow: bool)
    requires Delivered(det, keys, children, front, allow)
    requires if Named(det, keys, |children|) then last.value == CREDENTIAL else Clean(det, last.value)
    requires Markers(last.value) == last.marks && (!allow ==> last.value == child)
    ensures Delivered(det, keys, children + [child], WithChild(Some(front), Some(last)).value, allow)
  {
    MarkersSnoc(front.value, last.value);
  }

  lemma TransformSnoc(det: Detectors, keys: Option<seq<string>>, children: seq<Json>, child: Json, allow: bool)
    ensures TransformAll(det, keys, children + [child], allow)
         == WithChild(TransformAll(det, keys, children, allow),
             TransformChild(det, Named(det, keys, |children|), child, allow))
  {
    assert (children + [child])[..|children|] == children;
  }

  lemma {:induction false} TransformAllResult(det: Detectors, keys: Option<seq<string>>, children: seq<Json>,
      allow: bool)
    requires Valid(det) && TransformAll(det, keys, children, allow).Some?
    ensures Delivered(det, keys, children, TransformAll(det, keys, children, allow).value, allow)
    decreases children, 0
  {
    if children != [] {
      var n := |children| - 1;
      var front, child := children[..n], children[n];
      assert children == front + [child];
      TransformAllResult(det, keys, front, allow);
      TransformChildResult(det, Named(det, keys, n), child, allow);
      TransformSnoc(det, keys, front, child, allow);
      DeliveredSnoc(det, keys, front, child, TransformAll(det, keys, front, allow).value,
                    TransformChild(det, Named(det, keys, n), child, allow).value, allow);
    }
  }

  /** A second transformation changes nothing, costs the same and counts the same, whatever is allowed. */
  lemma {:induction false} TransformIsIdempotent(det: Detectors, json: Json, allow: bool, again: bool)
    requires Valid(det) && Transform(det, json, allow).Some?
    ensures Transform(det, Transform(det, json, allow).value.value, again) == Transform(det, json, allow)
    decreases json, 0
  {
    if json.Container? {
      TransformAllIsIdempotent(det, json.keys, json.children, allow, again);
    }
  }

  lemma {:induction false} TransformChildIsIdempotent(det: Detectors, named: bool, child: Json, allow: bool,
      again: bool)
    requires Valid(det) && TransformChild(det, named, child, allow).Some?
    ensures TransformChild(det, named, TransformChild(det, named, child, allow).value.value, again)
         == TransformChild(det, named, child, allow)
    decreases child, 1
  {
    if !named {
      TransformIsIdempotent(det, child, allow, again);
    }
  }

  lemma {:induction false} TransformAllIsIdempotent(det: Detectors, keys: Option<seq<string>>, children: seq<Json>,
      allow: bool, again: bool)
    requires Valid(det) && TransformAll(det, keys, children, allow).Some?
    ensures TransformAll(det, keys, TransformAll(det, keys, children, allow).value.value, again)
         == TransformAll(det, keys, children, allow)
    ensures |TransformAll(det, keys, children, allow).value.value| == |children|
    decreases children, 0
  {
    if children != [] {
      var n := |children| - 1;
      TransformAllIsIdempotent(det, keys, children[..n], allow, again);
      TransformChildIsIdempotent(det, Named(det, keys, n), children[n], allow, again);
      TransformSnoc(det, keys, TransformAll(det, keys, children[..n], allow).value.value,
                    TransformChild(det, Named(det, keys, n), children[n], allow).value.value, again);
    }
  }

  /** Position by position. */
  lemma {:induction false} TransformChildAt(det: Detectors, keys: Option<seq<string>>, children: seq<Json>,
      allow: bool, i: nat)
    requires TransformAll(det, keys, children, allow).Some? && i < |children|
    ensures |TransformAll(det, keys, children, allow).value.value| == |children|
    ensures TransformChild(det, Named(det, keys, i), children[i], allow).Some?
    ensures TransformAll(det, keys, children, allow).value.value[i]
         == TransformChild(det, Named(det, keys, i), children[i], allow).value.value
    decreases |children|
  {
    var n := |children| - 1;
    if n > 0 {
      TransformChildAt(det, keys, children[..n], allow, if i < n then i else 0);
    }
  }

  // ---------------------------------------------------------------- paths that do not overlap

  predicate Apart(s: seq<string>, t: seq<string>) {
    !IsPrefix(s, t) && !IsPrefix(t, s)
  }

  lemma PrefixCons(s: seq<string>, t: seq<string>)
    requires s != [] && t != [] && s[0] == t[0]
    ensures IsPrefix(s, t) <==> IsPrefix(s[1..], t[1..])
  {
    if |s| <= |t| {
      assert t[..|s|] == [t[0]] + t[1..][..|s| - 1];
      assert s == [s[0]] + s[1..];
      assert t[..|s|][1..] == t[1..][..|s| - 1];
    }
  }

  lemma ApartTails(s: seq<string>, t: seq<string>)
    requires Apart(s, t) && s != [] && t != [] && s[0] == t[0]
    ensures |s| > 1 && |t| > 1 && Apart(s[1..], t[1..])
  {
    PrefixCons(s, t);
    PrefixCons(t, s);
  }

  /** Different segments find different children. */
  lemma FindIsInjective(json: Json, a: string, b: string)
    requires Find(json, a).Success? && Find(json, b).Success?
    requires Find(json, a).value.Some? && Find(json, a).value == Find(json, b).value
    ensures a == b
  {
    if json.keys.None? {
      var i := Find(json, a).value.value;
      IndexIsDecimal(a, i);
      IndexIsDecimal(b, i);
    }
  }

  /** Paths that do not overlap never select the same value or nested values. */
  lemma {:induction false} LocationsApart(json: Json, s: seq<string>, t: seq<string>)
    requires s != [] && t != [] && Apart(s, t) && Location(json, s).Some? && Location(json, t).Some?
    ensures var l, m := Location(json, s).value, Location(json, t).value;
            !(l <= m) && !(m <= l)
    decreases |s|
  {
    var l, m := Location(json, s).value, Location(json, t).value;
    if s[0] == t[0] {
      ApartTails(s, t);
      LocationsApart(json.children[l[0]], s[1..], t[1..]);
      assert l[1..] == Location(json.children[l[0]], s[1..]).value;
      assert m[1..] == Location(json.children[l[0]], t[1..]).value;
    } else {
      if l[0] == m[0] { FindIsInjective(json, s[0], t[0]); }
      assert l[0] != m[0];
    }
  }

  /** Changing a child changes neither which children there are nor their names. */
  lemma FindAfterPut(json: Json, i: nat, child: Json, segment: string)
    requires json.Container? && i < |json.children|
    ensures Find(Put(json, i, child), segment) == Find(json, segment)
  {
  }

  /** Whenever one order of two redactions succeeds, the other does, with the same value, costs and counts. */
  ghost predicate Commute(first: Option<Step<Json>>, second: Option<Step<Json>>, second': Option<Step<Json>>,
      first': Option<Step<Json>>) {
    first.Some? && second.Some? ==>
      && second'.Some? && second'.value.cost == second.value.cost && second'.value.marks == second.value.marks
      && first' == Some(Step(second.value.value, first.value.cost, first.value.marks))
  }

  /** Redact(json, t) after Redact(json, s), when that succeeds. */
  function Then(det: Detectors, first: Option<Step<Json>>, t: seq<string>, allow: bool): Option<Step<Json>>
    requires t != []
  {
    match first
    case None => None
    case Some(step) => Redact(det, step.value, t, allow)
  }

  ghost predicate PathsCommute(det: Detectors, json: Json, s: seq<string>, t: seq<string>, x: bool, y: bool)
    requires s != [] && t != []
  {
    var first, second' := Redact(det, json, s, x), Redact(det, json, t, y);
    Commute(first, Then(det, first, t, y), second', Then(det, second', s, x))
  }

  lemma MissingCommutes(det: Detectors, json: Json, s: seq<string>, t: seq<string>, x: bool, y: bool)
    requires s != [] && t != []
    requires Find(json, s[0]) == Success(None) || Find(json, t[0]) == Success(None)
    ensures PathsCommute(det, json, s, t, x, y)
  {
    var first, second' := Redact(det, json, s, x), Redact(det, json, t, y);
    if first.Some? && Find(json, s[0]) != Success(None) {
      var i := Find(json, s[0]).value.value;
      FindAfterPut(json, i, first.value.value.children[i], t[0]);
    }
    if second'.Some? && Find(json, t[0]) != Success(None) {
      var j := Find(json, t[0]).value.value;
      FindAfterPut(json, j, second'.value.value.children[j], s[0]);
    }
  }

  lemma RedactAtChild(det: Detectors, json: Json, i: nat, child: Json, s: seq<string>, allow: bool)
    requires s != [] && Find(json, s[0]) == Success(Some(i))
    ensures json.Container? && i < |json.children|
    ensures Redact(det, Put(json, i, child), s, allow) ==
            match RedactChild(det, child, s, allow)
            case None => None
            case Some(r) => Some(Step(Put(json, i, r.value), 1 + r.cost, r.marks))
  {
    FindAfterPut(json, i, child, s[0]);
    assert forall c :: Put(Put(json, i, child), i, c) == Put(json, i, c);
  }

  lemma SameChildCommutes(det: Detectors, json: Json, i: nat, s: seq<string>, t: seq<string>, x: bool, y: bool)
    requires |s| > 1 && |t| > 1 && s[0] == t[0] && Find(json, s[0]) == Success(Some(i))
    requires PathsCommute(det, json.children[i], s[1..], t[1..], x, y)
    ensures PathsCommute(det, json, s, t, x, y)
  {
    var child := json.children[i];
    var first, second' := Redact(det, child, s[1..], x), Redact(det, child, t[1..], y);
    if first.Some? { RedactAtChild(det, json, i, first.value.value, t, y); }
    if second'.Some? { RedactAtChild(det, json, i, second'.value.value, s, x); }
  }

  lemma OtherChildCommutes(det: Detectors, json: Json, s: seq<string>, t: seq<string>, x: bool, y: bool, i: nat, j: nat)
    requires s != [] && t != [] && i != j
    requires Find(json, s[0]) == Success(Some(i)) && Find(json, t[0]) == Success(Some(j))
    ensures PathsCommute(det, json, s, t, x, y)
  {
    var c, d := RedactChild(det, json.children[i], s, x), RedactChild(det, json.children[j], t, y);
    if c.Some? { FindAfterPut(json, i, c.value.value, t[0]); }
    if d.Some? { FindAfterPut(json, j, d.value.value, s[0]); }
    if c.Some? && d.Some? {
      assert Put(Put(json, i, c.value.value), j, d.value.value) == Put(Put(json, j, d.value.value), i, c.value.value);
    }
  }

  /** Redactions of non-overlapping paths commute. */
  lemma {:induction false} RedactionsCommute(det: Detectors, json: Json, s: seq<string>, t: seq<string>, x: bool,
      y: bool)
    requires s != [] && t != [] && Apart(s, t)
    ensures PathsCommute(det, json, s, t, x, y)
    decreases |s|
  {
    var a, b := Find(json, s[0]), Find(json, t[0]);
    if a == Success(None) || b == Success(None) {
      MissingCommutes(det, json, s, t, x, y);
    } else if a.Success? && b.Success? {
      var i, j := a.value.value, b.value.value;
      if s[0] == t[0] {
        ApartTails(s, t);
        RedactionsCommute(det, json.children[i], s[1..], t[1..], x, y);
        SameChildCommutes(det, json, i, s, t, x, y);
      } else {
        if i == j { FindIsInjective(json, s[0], t[0]); }
        OtherChildCommutes(det, json, s, t, x, y, i, j);
      }
    } else {
      RefusedEitherWay(det, json, s, t, x, y);
    }
  }

  lemma RefusedEitherWay(det: Detectors, json: Json, s: seq<string>, t: seq<string>, x: bool, y: bool)
    requires s != [] && t != [] && (Find(json, s[0]).Failure? || Find(json, t[0]).Failure?)
    ensures PathsCommute(det, json, s, t, x, y)
  {
    if Find(json, s[0]) != Success(None) && Redact(det, json, s, x).Some? {
      var i := Find(json, s[0]).value.value;
      FindAfterPut(json, i, Redact(det, json, s, x).value.value.children[i], t[0]);
    }
  }

  // ---------------------------------------------------------------- a second run

  /** Redacting again changes nothing, counts the same and costs no more. */
  lemma {:induction false} RedactAgain(det: Detectors, json: Json, s: seq<string>, allow: bool)
    requires Valid(det) && s != [] && Redact(det, json, s, allow).Some?
    ensures var r := Redact(det, json, s, allow).value;
            && Redact(det, r.value, s, allow).Some?
            && Redact(det, r.value, s, allow).value == r.(cost := Redact(det, r.value, s, allow).value.cost)
            && Redact(det, r.value, s, allow).value.cost <= r.cost
    decreases |s|
  {
    if Find(json, s[0]) != Success(None) {
      var i := Find(json, s[0]).value.value;
      var child := json.children[i];
      if |s| > 1 {
        RedactAgain(det, child, s[1..], allow);
      } else {
        assert !Contains(det, PII, det.sensitive(s[0]));
        assert Size(PII) == 1 <= Size(child);
      }
      RedactAtChild(det, json, i, RedactChild(det, child, s, allow).value.value, s, allow);
    }
  }

  /** The redaction of a path leaves the value as it is. */
  ghost predicate Settled(det: Detectors, json: Json, s: seq<string>, allow: bool)
    requires s != []
  {
    Redact(det, json, s, allow).Some? && Redact(det, json, s, allow).value.value == json
  }

  lemma FindAfterTransform(det: Detectors, json: Json, allow: bool, segment: string)
    requires Transform(det, json, allow).Some?
    ensures Find(Transform(det, json, allow).value.value, segment) == Find(json, segment)
    ensures Find(json, segment).Success? && Find(json, segment).value.Some? ==>
              var i := Find(json, segment).value.value;
              && TransformChild(det, Named(det, json.keys, i), json.children[i], allow).Some?
              && Transform(det, json, allow).value.value.children[i]
                   == TransformChild(det, Named(det, json.keys, i), json.children[i], allow).value.value
  {
    if json.Container? {
      if json.children == [] {
        assert TransformAll(det, json.keys, [], allow) == Some(Step([], 0, 0));
      } else {
        TransformChildAt(det, json.keys, json.children, allow, 0);
      }
      if Find(json, segment).Success? && Find(json, segment).value.Some? {
        TransformChildAt(det, json.keys, json.children, allow, Find(json, segment).value.value);
      }
    }
  }

  /** After the transformation a settled path is still settled, at the same cost and count, unless it crosses a
      credential-named member; then its value is gone and the redaction is refused. */
  lemma {:induction false} TransformKeepsSettled(det: Detectors, json: Json, s: seq<string>, x: bool, allow: bool)
    requires Valid(det) && s != [] && Settled(det, json, s, x) && Transform(det, json, allow).Some?
    ensures var t := Transform(det, json, allow).value.value;
            Redact(det, t, s, x) == if Crosses(det, json, s) then None
                else Some(Redact(det, json, s, x).value.(value := t))
    decreases |s|
  {
    var t := Transform(det, json, allow).value.value;
    FindAfterTransform(det, json, allow, s[0]);
    if Find(json, s[0]) != Success(None) {
      var i := Find(json, s[0]).value.value;
      var child := json.children[i];
      var r := RedactChild(det, child, s, x).value;
      assert Put(json, i, r.value).children[i] == r.value == child;
      if Named(det, json.keys, i) {
        assert |s| > 1;
        assert Redact(det, CREDENTIAL, s[1..], x) == None;
      } else if |s| > 1 {
        TransformKeepsSettled(det, child, s[1..], x, allow);
        assert !Crosses(det, json, s) ==> Put(t, i, t.children[i]) == t;
      } else {
        assert child == PII && t.children[i] == PII && Put(t, i, PII) == t;
      }
    }
  }

  /** A redaction does not change whether another path, or the same one, crosses a credential-named member. */
  lemma {:induction false} CrossesAfterRedact(det: Detectors, json: Json, s: seq<string>, t: seq<string>, allow: bool)
    requires s != [] && t != [] && (Apart(s, t) || s == t) && Redact(det, json, t, allow).Some?
    ensures Crosses(det, Redact(det, json, t, allow).value.value, s) == Crosses(det, json, s)
    decreases |s|
  {
    if Find(json, t[0]) != Success(None) && |s| > 1 {
      var i := Find(json, t[0]).value.value;
      var child := RedactChild(det, json.children[i], t, allow).value.value;
      FindAfterPut(json, i, child, s[0]);
      if Find(json, s[0]) == Success(Some(i)) {
        FindIsInjective(json, s[0], t[0]);
        if s != t { ApartTails(s, t); }
        CrossesAfterRedact(det, json.children[i], s[1..], t[1..], allow);
      }
    }
  }
}
