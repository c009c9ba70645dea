/** Operator paths of the minimization policy (evidence/minimization.py:562-668): parsing, canonical printing
    with the escapes of RFC 6901, and overlap. */
module PointerPath {
  import opened Wrappers

  const MAX_PATH_BYTES := 512
  const MAX_PATH_SEGMENTS := 32
  const FINAL_OUTPUT := "final_output"
  const FINAL_STATE := "final_state"
  const EVENTS := "events"
  const PAYLOAD := "payload"

  /** The event selector is None for the wildcard. */
  datatype Scope = FinalState | FinalOutput | Events(selector: Option<nat>)

  datatype Path = Path(scope: Scope, tail: seq<string>)

  // ---------------------------------------------------------------- text

  function Utf8Width(c: char): nat {
    if c as int < 0x80 then 1 else if c as int < 0x800 then 2 else if c as int < 0x1_0000 then 3 else 4
  }

  function Utf8Length(s: string): nat {
    if s == "" then 0 else Utf8Width(s[0]) + Utf8Length(s[1..])
  }

  function Split(s: string): (parts: seq<string>)
    ensures parts != []
  {
    if s == "" then [""]
    else
      var rest := Split(s[1..]);
      if s[0] == '/' then [""] + rest else [[s[0]] + rest[0]] + rest[1..]
  }

  function Join(parts: seq<string>): string
    requires parts != []
  {
    if |parts| == 1 then parts[0] else parts[0] + "/" + Join(parts[1..])
  }

  lemma {:induction false} JoinSplit(s: string)
    ensures Join(Split(s)) == s
  {
    if s != "" {
      JoinSplit(s[1..]);
      var rest := Split(s[1..]);
      if s[0] == '/' {
        assert Join([""] + rest) == "" + "/" + Join(rest);
      } else {
        assert Join([[s[0]] + rest[0]] + rest[1..]) == [s[0]] + Join(rest);
      }
    }
  }

  lemma {:induction false} SplitPart(s: string)
    requires '/' !in s
    ensures Split(s) == [s]
  {
    if s != "" {
      SplitPart(s[1..]);
      assert [s[0]] + s[1..] == s;
    }
  }

  lemma {:induction false} SplitAtSlash(part: string, rest: string)
    requires '/' !in part
    ensures Split(part + "/" + rest) == [part] + Split(rest)
  {
    var s := part + "/" + rest;
    if part == "" {
      assert s[1..] == rest;
    } else {
      assert s[1..] == part[1..] + "/" + rest;
      SplitAtSlash(part[1..], rest);
      assert [s[0]] + part[1..] == part;
    }
  }

  lemma {:induction false} SplitJoin(parts: seq<string>)
    requires parts != [] && forall i | 0 <= i < |parts| :: '/' !in parts[i]
    ensures Split(Join(parts)) == parts
  {
    if |parts| == 1 {
      SplitPart(parts[0]);
    } else {
      SplitAtSlash(parts[0], Join(parts[1..]));
      SplitJoin(parts[1..]);
    }
  }

  // ---------------------------------------------------------------- segments

  /** str.replace for one character. */
  function Replace(s: string, c: char, with: string): string {
    if s == "" then "" else (if s[0] == c then with else [s[0]]) + Replace(s[1..], c, with)
  }

  /** _encode_pointer_segment */
  function EncodeSegment(s: string): string {
    Replace(Replace(s, '~', "~0"), '/', "~1")
  }

  function EncodedChar(c: char): string {
    if c == '~' then "~0" else if c == '/' then "~1" else [c]
  }

  lemma {:induction false} ReplaceAppend(s: string, t: string, c: char, with: string)
    ensures Replace(s + t, c, with) == Replace(s, c, with) + Replace(t, c, with)
  {
    if s == "" {
      assert s + t == t;
    } else {
      assert (s + t)[1..] == s[1..] + t;
      ReplaceAppend(s[1..], t, c, with);
    }
  }

  /** Two passes over the text encode it character by character. */
  lemma EncodeCons(s: string)
    requires s != ""
    ensures EncodeSegment(s) == EncodedChar(s[0]) + EncodeSegment(s[1..])
  {
    var first := if s[0] == '~' then "~0" else [s[0]];
    assert Replace(s, '~', "~0") == first + Replace(s[1..], '~', "~0");
    ReplaceAppend(first, Replace(s[1..], '~', "~0"), '/', "~1");
    assert Replace("0", '/', "~1") == "0";
    assert "~0"[1..] == "0" && [s[0]][1..] == "";
    assert Replace(first, '/', "~1") == EncodedChar(s[0]);
  }

  lemma {:induction false} EncodedHasNoSlash(s: string)
    ensures '/' !in EncodeSegment(s)
    ensures s != "" ==> EncodeSegment(s) != ""
  {
    if s != "" {
      EncodeCons(s);
      EncodedHasNoSlash(s[1..]);
    }
  }

  /** A text that encoding leaves alone. */
  predicate Plain(s: string) {
    forall i | 0 <= i < |s| :: s[i] != '~' && s[i] != '/'
  }

  lemma {:induction false} EncodePlain(s: string)
    requires Plain(s)
    ensures EncodeSegment(s) == s
  {
    if s != "" {
      EncodeCons(s);
      EncodePlain(s[1..]);
    }
  }

  /** The text a segment stands for; None when an escape is not ~0 or ~1. */
  function Unescape(e: string): Option<string> {
    if e == "" then Some("")
    else if e[0] != '~' then Prefixed(e[0], Unescape(e[1..]))
    else if |e| < 2 || e[1] !in "01" then None
    else Prefixed(if e[1] == '0' then '~' else '/', Unescape(e[2..]))
  }

  function Prefixed(c: char, rest: Option<string>): Option<string> {
    match rest
    case None => None
    case Some(s) => Some([c] + s)
  }

  function Followed(output: string, rest: Option<string>): Option<string> {
    match rest
    case None => None
    case Some(s) => Some(output + s)
  }

  lemma Unfollowed(rest: Option<string>)
    ensures Followed("", rest) == rest
  {
    assert rest.Some? ==> "" + rest.value == rest.value;
  }

  lemma FollowedByChar(output: string, c: char, rest: Option<string>)
    ensures Followed(output, Prefixed(c, rest)) == Followed(output + [c], rest)
  {
    assert rest.Some? ==> output + ([c] + rest.value) == output + [c] + rest.value;
  }

  /** _decode_pointer_segment */
  function DecodeSegment(e: string): Option<string> {
    if Unescape(e) == Some("") then None else Unescape(e)
  }

  method DecodePointerSegment(segment: string) returns (decoded: Option<string>)
    ensures decoded == DecodeSegment(segment)
  {
    var output, index := "", 0;
    assert segment[0..] == segment;
    Unfollowed(Unescape(segment));
    while index < |segment|
      invariant 0 <= index <= |segment|
      invariant Unescape(segment) == Followed(output, Unescape(segment[index..]))
    {
      var character := segment[index];
      if character != '~' {
        assert segment[index..][1..] == segment[index + 1..];
        FollowedByChar(output, character, Unescape(segment[index + 1..]));
        output := output + [character];
        index := index + 1;
      } else {
        if index + 1 >= |segment| || segment[index + 1] !in "01" {
          return None;
        }
        assert segment[index..][2..] == segment[index + 2..];
        character := if segment[index + 1] == '0' then '~' else '/';
        FollowedByChar(output, character, Unescape(segment[index + 2..]));
        output := output + [character];
        index := index + 2;
      }
    }
    assert segment[index..] == "" && output + "" == output;
    decoded := if output == "" then None else Some(output);
  }

  lemma {:induction false} EncodeUnescape(e: string)
    requires Unescape(e).Some? && '/' !in e
    ensures EncodeSegment(Unescape(e).value) == e
  {
    if e != "" {
      var k := if e[0] != '~' then 1 else 2;
      EncodeUnescape(e[k..]);
      EncodeCons(Unescape(e).value);
    }
  }

  lemma {:induction false} UnescapeEncode(s: string)
    ensures Unescape(EncodeSegment(s)) == Some(s)
  {
    if s != "" {
      EncodeCons(s);
      UnescapeEncode(s[1..]);
      var k := |EncodedChar(s[0])|;
      assert EncodeSegment(s)[k..] == EncodeSegment(s[1..]);
      assert [s[0]] + s[1..] == s;
    }
  }

  // ---------------------------------------------------------------- list indexes

  predicate IsDigit(c: char) { '0' <= c <= '9' }

  function Digit(d: nat): (c: char)
    requires d < 10
    ensures IsDigit(c) && c as int - '0' as int == d
  {
    '0' + d as char
  }

  function Decimal(n: nat): (s: string)
    ensures s != "" && forall i | 0 <= i < |s| :: IsDigit(s[i])
  {
    if n < 10 then [Digit(n)] else Decimal(n / 10) + [Digit(n % 10)]
  }

  function Value(digits: string): nat
    requires forall i | 0 <= i < |digits| :: IsDigit(digits[i])
  {
    if digits == "" then 0
    else
      var last := digits[|digits| - 1];
      assert IsDigit(last);
      Value(digits[..|digits| - 1]) * 10 + (last as int - '0' as int)
  }

  /** _canonical_list_index */
  function CanonicalIndex(segment: string): Option<nat> {
    if segment == "" || exists i | 0 <= i < |segment| :: !IsDigit(segment[i]) then None
    else if |segment| > 1 && segment[0] == '0' then None
    else Some(Value(segment))
  }

  lemma {:induction false} DecimalOfValue(s: string)
    requires s != "" && forall i | 0 <= i < |s| :: IsDigit(s[i])
    requires |s| > 1 ==> s[0] != '0'
    ensures Decimal(Value(s)) == s
    ensures s[0] != '0' ==> Value(s) > 0
  {
    var n := |s| - 1;
    if n > 0 {
      DecimalOfValue(s[..n]);
      assert Value(s) / 10 == Value(s[..n]);
      assert s == s[..n] + [s[n]];
    } else {
      assert s[..0] == "";
    }
  }

  lemma {:induction false} ValueOfDecimal(n: nat)
    ensures Value(Decimal(n)) == n
    ensures n > 0 ==> Decimal(n)[0] != '0'
    ensures n < 10 ==> |Decimal(n)| == 1
  {
    var s := Decimal(n);
    if n >= 10 {
      ValueOfDecimal(n / 10);
      assert s[..|s| - 1] == Decimal(n / 10);
    } else {
      assert s[..0] == "";
    }
  }

  /** A segment is accepted as an index exactly when it is the decimal form of that index. */
  lemma IndexIsDecimal(s: string, n: nat)
    ensures CanonicalIndex(s) == Some(n) <==> s == Decimal(n)
  {
    if CanonicalIndex(s).Some? {
      DecimalOfValue(s);
    }
    ValueOfDecimal(n);
  }

  // ---------------------------------------------------------------- parsing and printing

  function DecodeAll(encoded: seq<string>): (r: Option<seq<string>>)
    ensures r.Some? ==> |r.value| == |encoded|
  {
    if encoded == [] then Some([])
    else
      match DecodeSegment(encoded[0])
      case None => None
      case Some(s) =>
        match DecodeAll(encoded[1..])
        case None => None
        case Some(rest) => Some([s] + rest)
  }

  function EncodeAll(segments: seq<string>): seq<string> {
    seq(|segments|, i requires 0 <= i < |segments| => EncodeSegment(segments[i]))
  }

  function Selector(segment: string): Option<Scope> {
    if segment == "*" then Some(Events(None))
    else
      match CanonicalIndex(segment)
      case None => None
      case Some(index) => Some(Events(Some(index)))
  }

  /** The path that decoded segments denote. */
  function FromSegments(segments: seq<string>): Option<Path>
    requires segments != []
  {
    if segments[0] == FINAL_OUTPUT then
      if |segments| == 1 then Some(Path(FinalOutput, [])) else None
    else if segments[0] == FINAL_STATE then
      if |segments| >= 2 then Some(Path(FinalState, segments[1..])) else None
    else if segments[0] == EVENTS then
      if |segments| < 4 || segments[2] != PAYLOAD then None
      else
        match Selector(segments[1])
        case None => None
        case Some(scope) => if "*" in segments[3..] then None else Some(Path(scope, segments[3..]))
    else None
  }

  /** _parse_operator_path */
  function Parse(raw: string): Option<Path> {
    if raw == "" || raw[0] != '/' || Utf8Length(raw) > MAX_PATH_BYTES then None
    else
      var encoded := Split(raw[1..]);
      if |encoded| > MAX_PATH_SEGMENTS || "" in encoded then None
      else
        match DecodeAll(encoded)
        case None => None
        case Some(segments) => FromSegments(segments)
  }

  function SelectorText(selector: Option<nat>): string {
    match selector
    case None => "*"
    case Some(index) => Decimal(index)
  }

  /** The canonical field of a parsed path. */
  function Canonical(p: Path): string
    requires !p.scope.FinalOutput? ==> p.tail != []
  {
    match p.scope
    case FinalOutput => "/" + FINAL_OUTPUT
    case FinalState => "/" + FINAL_STATE + "/" + Join(EncodeAll(p.tail))
    case Events(selector) => "/" + EVENTS + "/" + SelectorText(selector) + "/" + PAYLOAD + "/" + Join(EncodeAll(p.tail))
  }

  /** The decoded segments a parsed path came from. */
  function Segments(p: Path): (segments: seq<string>)
    ensures segments != []
  {
    match p.scope
    case FinalOutput => [FINAL_OUTPUT]
    case FinalState => [FINAL_STATE] + p.tail
    case Events(selector) => [EVENTS, SelectorText(selector), PAYLOAD] + p.tail
  }

  /** What the parser admits, apart from the two size ceilings. */
  predicate WellFormed(p: Path) {
    && "" !in p.tail
    && (if p.scope.FinalOutput? then p.tail == [] else p.tail != [])
    && (p.scope.Events? ==> "*" !in p.tail)
  }

  lemma {:induction false} EncodeDecodeAll(encoded: seq<string>)
    requires DecodeAll(encoded).Some? && forall i | 0 <= i < |encoded| :: '/' !in encoded[i]
    ensures EncodeAll(DecodeAll(encoded).value) == encoded && "" !in DecodeAll(encoded).value
  {
    if encoded != [] {
      EncodeUnescape(encoded[0]);
      EncodeDecodeAll(encoded[1..]);
    }
  }

  lemma EncodeAllCons(segments: seq<string>)
    requires segments != []
    ensures EncodeAll(segments) == [EncodeSegment(segments[0])] + EncodeAll(segments[1..])
  {
  }

  lemma {:induction false} DecodeEncodeAll(segments: seq<string>)
    requires "" !in segments
    ensures DecodeAll(EncodeAll(segments)) == Some(segments)
    ensures forall i | 0 <= i < |segments| :: '/' !in EncodeAll(segments)[i] && EncodeAll(segments)[i] != ""
  {
    if segments != [] {
      UnescapeEncode(segments[0]);
      EncodedHasNoSlash(segments[0]);
      DecodeEncodeAll(segments[1..]);
      EncodeAllCons(segments);
      assert [segments[0]] + segments[1..] == segments;
    }
  }

  lemma {:induction false} SplitHasNoSlash(s: string)
    ensures forall i | 0 <= i < |Split(s)| :: '/' !in Split(s)[i]
  {
    if s != "" {
      SplitHasNoSlash(s[1..]);
    }
  }

  lemma SegmentsDetermined(segments: seq<string>)
    requires segments != [] && "" !in segments && FromSegments(segments).Some?
    ensures Segments(FromSegments(segments).value) == segments && WellFormed(FromSegments(segments).value)
  {
    var p := FromSegments(segments).value;
    if p.scope.Events? {
      if segments[1] != "*" {
        IndexIsDecimal(segments[1], p.scope.selector.value);
      }
      assert segments == segments[..3] + segments[3..];
    }
  }

  lemma SegmentsGiveBack(p: Path)
    requires WellFormed(p)
    ensures FromSegments(Segments(p)) == Some(p) && "" !in Segments(p)
  {
    if p.scope.Events? {
      assert Segments(p)[3..] == p.tail;
      if p.scope.selector.Some? {
        IndexIsDecimal(Decimal(p.scope.selector.value), p.scope.selector.value);
      }
    }
  }

  lemma JoinNamed(name: string, tail: seq<string>)
    requires Plain(name) && tail != []
    ensures "/" + Join(EncodeAll([name] + tail)) == "/" + name + "/" + Join(EncodeAll(tail))
  {
    EncodePlain(name);
    var segments := [name] + tail;
    EncodeAllCons(segments);
    assert segments[1..] == tail;
    assert EncodeAll(segments)[1..] == EncodeAll(tail);
    var rest := Join(EncodeAll(tail));
    assert "/" + (name + "/" + rest) == "/" + name + "/" + rest;
  }

  lemma JoinEvents(events: string, selector: string, payload: string, tail: seq<string>)
    requires Plain(events) && Plain(selector) && Plain(payload) && tail != []
    ensures "/" + Join(EncodeAll([events, selector, payload] + tail))
         == "/" + events + "/" + selector + "/" + payload + "/" + Join(EncodeAll(tail))
  {
    JoinNamed(payload, tail);
    JoinNamed(selector, [payload] + tail);
    JoinNamed(events, [selector] + ([payload] + tail));
    assert [events] + ([selector] + ([payload] + tail)) == [events, selector, payload] + tail;
    var inner, middle := "/" + payload + "/" + Join(EncodeAll(tail)), "/" + selector;
    assert middle + "/" + Join(EncodeAll([payload] + tail)) == middle + inner;
    assert "/" + events + "/" + Join(EncodeAll([selector] + ([payload] + tail))) == "/" + events + (middle + inner);
  }

  lemma NamesArePlain(selector: Option<nat>)
    ensures Plain(FINAL_OUTPUT) && Plain(FINAL_STATE) && Plain(EVENTS) && Plain(PAYLOAD)
        && Plain(SelectorText(selector))
  {
  }

  /** The canonical form joins the encoded segments. */
  lemma CanonicalJoins(p: Path)
    requires WellFormed(p)
    ensures Canonical(p) == "/" + Join(EncodeAll(Segments(p)))
  {
    match p.scope
    case FinalOutput =>
      NamesArePlain(None);
      EncodePlain(FINAL_OUTPUT);
    case FinalState =>
      NamesArePlain(None);
      JoinNamed(FINAL_STATE, p.tail);
    case Events(selector) =>
      NamesArePlain(selector);
      JoinEvents(EVENTS, SelectorText(selector), PAYLOAD, p.tail);
  }

  /** Printing a parsed path gives back the text that was accepted. */
  lemma CanonicalIsIdentity(raw: string)
    requires Parse(raw).Some?
    ensures WellFormed(Parse(raw).value) && Canonical(Parse(raw).value) == raw
  {
    var encoded := Split(raw[1..]);
    var segments := DecodeAll(encoded).value;
    SplitHasNoSlash(raw[1..]);
    EncodeDecodeAll(encoded);
    SegmentsDetermined(segments);
    CanonicalJoins(FromSegments(segments).value);
    JoinSplit(raw[1..]);
  }

  lemma SplitCanonical(p: Path)
    requires WellFormed(p)
    ensures Canonical(p) != "" && Canonical(p)[0] == '/' && Split(Canonical(p)[1..]) == EncodeAll(Segments(p))
    ensures "" !in EncodeAll(Segments(p)) && DecodeAll(EncodeAll(Segments(p))) == Some(Segments(p))
  {
    var segments := Segments(p);
    SegmentsGiveBack(p);
    CanonicalJoins(p);
    DecodeEncodeAll(segments);
    SplitJoin(EncodeAll(segments));
    assert Canonical(p)[1..] == Join(EncodeAll(segments));
  }

  /** Every well-formed path within the ceilings is the parse of its canonical form. */
  lemma ParseOfCanonical(p: Path)
    requires WellFormed(p) && |Segments(p)| <= MAX_PATH_SEGMENTS && Utf8Length(Canonical(p)) <= MAX_PATH_BYTES
    ensures Parse(Canonical(p)) == Some(p)
  {
    SplitCanonical(p);
    SegmentsGiveBack(p);
  }

  // ---------------------------------------------------------------- overlap

  predicate IsPrefix(left: seq<string>, right: seq<string>) {
    |left| <= |right| && right[..|left|] == left
  }

  predicate SelectorsOverlap(left: Option<nat>, right: Option<nat>) {
    left.None? || right.None? || left == right
  }

  /** _paths_overlap */
  predicate PathsOverlap(left: Path, right: Path) {
    match (left.scope, right.scope)
    case (FinalOutput, FinalOutput) => true
    case (FinalState, FinalState) => IsPrefix(left.tail, right.tail) || IsPrefix(right.tail, left.tail)
    case (Events(l), Events(r)) => SelectorsOverlap(l, r)
        && (IsPrefix(left.tail, right.tail) || IsPrefix(right.tail, left.tail))
    case _ => false
  }

  /** Where a value can be: the final output, or at segments of the final state or of the payload of one event. */
  datatype Address = Output | InState(segments: seq<string>) | InEvent(event: nat, segments: seq<string>)

  predicate Reaches(p: Path, a: Address) {
    match p.scope
    case FinalOutput => a.Output?
    case FinalState => a.InState? && a.segments == p.tail
    case Events(selector) =>
      a.InEvent? && a.segments == p.tail && (selector.Some? ==> a.event == selector.value)
  }

  /** The first address is that of a value inside, or the same as, the value at the second. */
  predicate Inside(inner: Address, outer: Address) {
    match outer
    case Output => inner.Output?
    case InState(segments) => inner.InState? && segments <= inner.segments
    case InEvent(n, segments) => inner.InEvent? && inner.event == n && segments <= inner.segments
  }

  ghost predicate Collide(left: Path, right: Path, a: Address, b: Address) {
    Reaches(left, a) && Reaches(right, b) && (Inside(a, b) || Inside(b, a))
  }

  /** Two paths overlap exactly when they can select the same value or one value inside the other. */
  lemma OverlapMeaning(left: Path, right: Path)
    ensures PathsOverlap(left, right) <==> exists a, b :: Collide(left, right, a, b)
  {
    if PathsOverlap(left, right) {
      match left.scope
      case FinalOutput => assert Collide(left, right, Output, Output);
      case FinalState => assert Collide(left, right, InState(left.tail), InState(right.tail));
      case Events(l) =>
        var n := if l.Some? then l.value else if right.scope.selector.Some? then right.scope.selector.value else 0;
        assert Collide(left, right, InEvent(n, left.tail), InEvent(n, right.tail));
    }
    if a, b :| Collide(left, right, a, b) {
      assert Inside(a, b) || Inside(b, a);
    }
  }

  /** No path of the policy selects the value of another or a value inside it, by its text. */
  ghost predicate Disjoint(paths: seq<Path>) {
    forall i, j | 0 <= i < j < |paths| :: !PathsOverlap(paths[i], paths[j])
  }

  const MAX_DECLARED_PATHS := 64

  method ParseAll(raw: seq<string>) returns (parsed: Option<seq<Path>>)
    ensures parsed.None? ==> exists i | 0 <= i < |raw| :: Parse(raw[i]).None?
    ensures parsed.Some? ==>
              |parsed.value| == |raw| && forall i | 0 <= i < |raw| :: Parse(raw[i]) == Some(parsed.value[i])
  {
    var items: seq<Path> := [];
    for k := 0 to |raw|
      invariant |items| == k && forall i | 0 <= i < k :: Parse(raw[i]) == Some(items[i])
    {
      var item := Parse(raw[k]);
      if item.None? {
        return None;
      }
      items := items + [item.value];
    }
    parsed := Some(items);
  }

  method AnyOverlap(paths: seq<Path>) returns (found: bool)
    ensures found <==> !Disjoint(paths)
  {
    for i := 0 to |paths|
      invariant forall m, n | 0 <= m < i && m < n < |paths| :: !PathsOverlap(paths[m], paths[n])
    {
      for j := i + 1 to |paths|
        invariant forall n | i < n < j :: !PathsOverlap(paths[i], paths[n])
      {
        if PathsOverlap(paths[i], paths[j]) {
          return true;
        }
      }
    }
    found := false;
  }

  /** The paths of a policy: all of them parse, and none overlaps another. */
  ghost predicate Admits(raw: seq<string>, paths: seq<Path>) {
    && |raw| == |paths| <= MAX_DECLARED_PATHS
    && (forall i | 0 <= i < |raw| :: Parse(raw[i]) == Some(paths[i]))
    && Disjoint(paths)
  }

  /** Comparing canonical forms for uniqueness refuses nothing that the overlap test would not refuse. */
  lemma RepeatedPathsOverlap(raw: seq<string>, paths: seq<Path>, i: nat, j: nat)
    requires |raw| == |paths| && forall k | 0 <= k < |raw| :: Parse(raw[k]) == Some(paths[k])
    requires i < j < |paths|
    ensures WellFormed(paths[i]) && WellFormed(paths[j])
    ensures Canonical(paths[i]) == Canonical(paths[j]) ==> PathsOverlap(paths[i], paths[j])
  {
    CanonicalIsIdentity(raw[i]);
    CanonicalIsIdentity(raw[j]);
  }

  predicate Distinct(xs: seq<string>) {
    forall i, j | 0 <= i < j < |xs| :: xs[i] != xs[j]
  }

  lemma CanonicalForms(raw: seq<string>, paths: seq<Path>)
    requires |raw| == |paths| && forall k | 0 <= k < |raw| :: Parse(raw[k]) == Some(paths[k])
    ensures forall i | 0 <= i < |paths| :: WellFormed(paths[i]) && Canonical(paths[i]) == raw[i]
    ensures Disjoint(paths) ==> Distinct(raw)
  {
    forall i | 0 <= i < |paths| ensures WellFormed(paths[i]) && Canonical(paths[i]) == raw[i] {
      CanonicalIsIdentity(raw[i]);
    }
    forall i, j | 0 <= i < j < |paths| && Disjoint(paths) ensures raw[i] != raw[j] {
      assert !PathsOverlap(paths[i], paths[j]);
    }
  }

  /** validate_operator_paths, up to the final sorting of the canonical forms. */
  method ValidateOperatorPaths(raw: seq<string>) returns (accepted: Option<seq<Path>>)
    ensures accepted.Some? ==> Admits(raw, accepted.value)
    ensures accepted.None? ==> forall paths :: !Admits(raw, paths)
  {
    if |raw| > MAX_DECLARED_PATHS {
      return None;
    }
    var parsed := ParseAll(raw);
    if parsed.None? {
      return None;
    }
    ghost var paths := parsed.value;
    CanonicalForms(raw, paths);
    forall other | Admits(raw, other) ensures other == paths {
      assert forall i | 0 <= i < |raw| :: other[i] == paths[i];
    }
    var canonical := seq(|parsed.value|, i requires 0 <= i < |parsed.value|
        && WellFormed(parsed.value[i]) => Canonical(parsed.value[i]));
    assert canonical == raw;
    if !Distinct(canonical) {
      return None;
    }
    var overlapping := AnyOverlap(parsed.value);
    accepted := if overlapping then None else parsed;
  }
}
