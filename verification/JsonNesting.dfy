/** The one-pass nesting scanner that runs before a JSON text is parsed (_strict_json.py:95-118), against the
    grammar of RFC 8259, sections 2 to 7. */
module JsonNesting {
  import opened Wrappers

  // ---------------------------------------------------------------- the scanner

  datatype Error = TooDeep | Unbalanced

  datatype State = State(depth: nat, inString: bool, escaped: bool)

  type Outcome = Result<State, Error>

  function Outside(depth: nat): State { State(depth, false, false) }

  function Next(s: State, c: char, maxDepth: nat): Outcome {
    if s.inString then
      if s.escaped then Success(s.(escaped := false))
      else if c == '\\' then Success(s.(escaped := true))
      else if c == '"' then Success(s.(inString := false))
      else Success(s)
    else if c == '"' then Success(s.(inString := true))
    else if c in "[{" then if s.depth + 1 > maxDepth then Failure(TooDeep) else Success(s.(depth := s.depth + 1))
    else if c in "]}" then if s.depth == 0 then Failure(Unbalanced) else Success(s.(depth := s.depth - 1))
    else Success(s)
  }

  function Scan(text: string, s: State, maxDepth: nat): Outcome {
    if text == "" then Success(s)
    else
      match Scan(text[..|text| - 1], s, maxDepth)
      case Failure(error) => Failure(error)
      case Success(t) => Next(t, text[|text| - 1], maxDepth)
  }

  /** _preflight_nesting: scanning stops at the first character that is refused. */
  method PreflightNesting(text: string, maxDepth: nat) returns (refusal: Option<Error>)
    ensures refusal == match Scan(text, Outside(0), maxDepth) case Success(_) => None case Failure(error) => Some(error)
  {
    var depth, inString, escaped := 0, false, false;
    for i := 0 to |text|
      invariant depth >= 0 && (escaped ==> inString)
      invariant Scan(text[..i], Outside(0), maxDepth) == Success(State(depth, inString, escaped))
    {
      var character := text[i];
      assert text[..i + 1][..i] == text[..i];
      if inString {
        if escaped {
          escaped := false;
        } else if character == '\\' {
          escaped := true;
        } else if character == '"' {
          inString := false;
        }
      } else if character == '"' {
        inString := true;
      } else if character in "[{" {
        depth := depth + 1;
        if depth > maxDepth {
          FailureStays(text, i + 1, Outside(0), maxDepth);
          return Some(TooDeep);
        }
      } else if character in "]}" {
        depth := depth - 1;
        if depth < 0 {
          FailureStays(text, i + 1, Outside(0), maxDepth);
          return Some(Unbalanced);
        }
      }
    }
    assert text[..|text|] == text;
    refusal := None;
  }

  lemma {:induction false} ScanAppend(a: string, b: string, s: State, maxDepth: nat)
    ensures Scan(a + b, s, maxDepth) ==
            match Scan(a, s, maxDepth) case Failure(error) => Failure(error) case Success(t) => Scan(b, t, maxDepth)
  {
    if b == "" {
      assert a + b == a;
    } else {
      ScanAppend(a, b[..|b| - 1], s, maxDepth);
      assert (a + b)[..|a + b| - 1] == a + b[..|b| - 1];
    }
  }

  lemma FailureStays(text: string, i: nat, s: State, maxDepth: nat)
    requires i <= |text| && Scan(text[..i], s, maxDepth).Failure?
    ensures Scan(text, s, maxDepth) == Scan(text[..i], s, maxDepth)
  {
    ScanAppend(text[..i], text[i..], s, maxDepth);
    assert text == text[..i] + text[i..];
  }

  // ---------------------------------------------------------------- JSON texts

  datatype StringChar = Plain(c: char) | Escape(c: char) | Unicode(hex: string)

  datatype Value =
    | Literal(text: string)
    | Text(chars: seq<StringChar>)
    | Array(blank: string, elements: seq<Element>)
    | Object(blank: string, members: seq<Member>)

  /** A value between optional white space. */
  datatype Element = Element(before: string, value: Value, after: string)

  datatype Member = Member(before: string, key: seq<StringChar>, after: string, element: Element)

  predicate Space(s: string) {
    forall i | 0 <= i < |s| :: s[i] in " \t\n\r"
  }

  /** A literal name or a number; the number grammar is widened to every token of its characters. */
  predicate Token(s: string) {
    s == "true" || s == "false" || s == "null" || (s != "" && forall i | 0 <= i < |s| :: s[i] in "0123456789+-.eE")
  }

  predicate CharOk(c: StringChar) {
    match c
    case Plain(x) => x != '"' && x != '\\' && x >= ' '
    case Escape(x) => x in "\"\\/bfnrt"
    case Unicode(hex) => |hex| == 4 && forall i | 0 <= i < 4 :: hex[i] in "0123456789abcdefABCDEF"
  }

  predicate CharsOk(chars: seq<StringChar>) {
    forall i | 0 <= i < |chars| :: CharOk(chars[i])
  }

  /** The grammar. */
  predicate Json(v: Value)
    decreases v, 0
  {
    match v
    case Literal(text) => Token(text)
    case Text(chars) => CharsOk(chars)
    case Array(blank, elements) => Space(blank) && forall i | 0 <= i < |elements| :: JsonElement(elements[i])
    case Object(blank, members) => Space(blank) && forall i | 0 <= i < |members| :: JsonMember(members[i])
  }

  predicate JsonElement(e: Element)
    decreases e, 1
  {
    Space(e.before) && Json(e.value) && Space(e.after)
  }

  predicate JsonMember(m: Member)
    decreases m, 2
  {
    Space(m.before) && CharsOk(m.key) && Space(m.after) && JsonElement(m.element)
  }

  function PrintChar(c: StringChar): string {
    match c
    case Plain(x) => [x]
    case Escape(x) => ['\\', x]
    case Unicode(hex) => "\\u" + hex
  }

  function PrintChars(chars: seq<StringChar>): string {
    if chars == [] then "" else PrintChars(chars[..|chars| - 1]) + PrintChar(chars[|chars| - 1])
  }

  function PrintText(chars: seq<StringChar>): string {
    ['"'] + PrintChars(chars) + ['"']
  }

  function Print(v: Value): string
    decreases v, 0
  {
    match v
    case Literal(text) => text
    case Text(chars) => PrintText(chars)
    case Array(blank, elements) => ['['] + (if elements == [] then blank else PrintElements(elements)) + [']']
    case Object(blank, members) => ['{'] + (if members == [] then blank else PrintMembers(members)) + ['}']
  }

  function PrintElement(e: Element): string
    decreases e, 1
  {
    e.before + Print(e.value) + e.after
  }

  function PrintElements(elements: seq<Element>): string
    requires elements != []
    decreases elements, 2
  {
    var n := |elements| - 1;
    (if n == 0 then "" else PrintElements(elements[..n]) + ",") + PrintElement(elements[n])
  }

  function PrintMember(m: Member): string
    decreases m, 2
  {
    m.before + PrintText(m.key) + m.after + ":" + PrintElement(m.element)
  }

  function PrintMembers(members: seq<Member>): string
    requires members != []
    decreases members, 3
  {
    var n := |members| - 1;
    (if n == 0 then "" else PrintMembers(members[..n]) + ",") + PrintMember(members[n])
  }

  function Max(a: nat, b: nat): nat { if a < b then b else a }

  /** How deeply arrays and objects nest in a value. */
  function Nesting(v: Value): nat
    decreases v, 0
  {
    match v
    case Array(_, elements) => 1 + NestingOfElements(elements)
    case Object(_, members) => 1 + NestingOfMembers(members)
    case _ => 0
  }

  function NestingOfElements(elements: seq<Element>): nat
    decreases elements, 1
  {
    if elements == [] then 0
    else Max(NestingOfElements(elements[..|elements| - 1]), Nesting(elements[|elements| - 1].value))
  }

  function NestingOfMembers(members: seq<Member>): nat
    decreases members, 1
  {
    if members == [] then 0
    else Max(NestingOfMembers(members[..|members| - 1]), Nesting(members[|members| - 1].element.value))
  }

  // ---------------------------------------------------------------- scanning a JSON text

  /** From outside a string the text is passed back to the same depth, unless it nests too deeply. */
  ghost predicate Nests(text: string, n: nat) {
    forall d: nat, maxDepth: nat | d <= maxDepth ::
      Scan(text, Outside(d), maxDepth) == if d + n <= maxDepth then Success(Outside(d)) else Failure(TooDeep)
  }

  lemma NestsConcat(a: string, m: nat, b: string, n: nat)
    requires Nests(a, m) && Nests(b, n)
    ensures Nests(a + b, Max(m, n))
  {
    forall d: nat, maxDepth: nat | d <= maxDepth
      ensures Scan(a + b, Outside(d), maxDepth) == if d + Max(m, n) <= maxDepth then Success(Outside(d))
          else Failure(TooDeep)
    {
      ScanAppend(a, b, Outside(d), maxDepth);
    }
  }

  lemma ScanOne(c: char, s: State, maxDepth: nat)
    ensures Scan([c], s, maxDepth) == Next(s, c, maxDepth)
  {
    assert [c][..0] == "";
  }

  lemma NestsBracketed(open: char, inner: string, close: char, n: nat)
    requires open in "[{" && close in "]}" && Nests(inner, n)
    ensures Nests([open] + inner + [close], n + 1)
  {
    forall d: nat, maxDepth: nat | d <= maxDepth
      ensures Scan([open] + inner + [close], Outside(d), maxDepth)
           == if d + n + 1 <= maxDepth then Success(Outside(d)) else Failure(TooDeep)
    {
      ScanOne(open, Outside(d), maxDepth);
      ScanAppend([open], inner, Outside(d), maxDepth);
      ScanAppend([open] + inner, [close], Outside(d), maxDepth);
      ScanOne(close, Outside(d + 1), maxDepth);
    }
  }

  /** Characters that mean nothing to the scanner outside strings. */
  predicate Neutral(s: string) {
    forall i | 0 <= i < |s| :: s[i] !in "\"[]{}"
  }

  lemma TokenIsNeutral(s: string)
    requires Token(s)
    ensures Neutral(s)
  {
  }

  lemma {:induction false} NestsNeutral(s: string)
    requires Neutral(s)
    ensures Nests(s, 0)
  {
    if s != "" {
      NestsNeutral(s[..|s| - 1]);
    }
  }

  /** A backslash and the character after it leave the scanner inside the string. */
  lemma ScanEscape(x: char, d: nat, maxDepth: nat)
    ensures Scan(['\\'] + [x], State(d, true, false), maxDepth) == Success(State(d, true, false))
  {
    ScanOne('\\', State(d, true, false), maxDepth);
    ScanOne(x, State(d, true, true), maxDepth);
    ScanAppend(['\\'], [x], State(d, true, false), maxDepth);
  }

  lemma HexIsPlain(hex: string)
    requires CharOk(Unicode(hex))
    ensures forall i | 0 <= i < |hex| :: hex[i] != '"' && hex[i] != '\\'
  {
  }

  lemma ScanUnicode(hex: string, d: nat, maxDepth: nat)
    requires forall i | 0 <= i < |hex| :: hex[i] != '"' && hex[i] != '\\'
    ensures Scan("\\u" + hex, State(d, true, false), maxDepth) == Success(State(d, true, false))
  {
    assert "\\u" == ['\\'] + ['u'];
    ScanEscape('u', d, maxDepth);
    ScanHex(hex, d, maxDepth);
    ScanAppend("\\u", hex, State(d, true, false), maxDepth);
  }

  /** One character of a string, escapes included, leaves the scanner inside the string. */
  lemma ScanChar(c: StringChar, d: nat, maxDepth: nat)
    requires CharOk(c)
    ensures Scan(PrintChar(c), State(d, true, false), maxDepth) == Success(State(d, true, false))
  {
    match c
    case Plain(x) => ScanOne(x, State(d, true, false), maxDepth);
    case Escape(x) =>
      assert PrintChar(c) == ['\\'] + [x];
      ScanEscape(x, d, maxDepth);
    case Unicode(hex) =>
      HexIsPlain(hex);
      ScanUnicode(hex, d, maxDepth);
  }

  lemma {:induction false} ScanHex(hex: string, d: nat, maxDepth: nat)
    requires forall i | 0 <= i < |hex| :: hex[i] != '"' && hex[i] != '\\'
    ensures Scan(hex, State(d, true, false), maxDepth) == Success(State(d, true, false))
  {
    if hex != "" {
      ScanHex(hex[..|hex| - 1], d, maxDepth);
    }
  }

  lemma {:induction false} ScanChars(chars: seq<StringChar>, d: nat, maxDepth: nat)
    requires CharsOk(chars)
    ensures Scan(PrintChars(chars), State(d, true, false), maxDepth) == Success(State(d, true, false))
  {
    if chars != [] {
      var n := |chars| - 1;
      ScanChars(chars[..n], d, maxDepth);
      ScanChar(chars[n], d, maxDepth);
      ScanAppend(PrintChars(chars[..n]), PrintChar(chars[n]), State(d, true, false), maxDepth);
    }
  }

  /** Brackets and escaped quotes inside a string never count. */
  lemma NestsText(chars: seq<StringChar>)
    requires CharsOk(chars)
    ensures Nests(PrintText(chars), 0)
  {
    var body, quote := PrintChars(chars), ['"'];
    forall d: nat, maxDepth: nat | d <= maxDepth
      ensures Scan(PrintText(chars), Outside(d), maxDepth) == Success(Outside(d))
    {
      ScanOne('"', Outside(d), maxDepth);
      ScanChars(chars, d, maxDepth);
      ScanAppend(quote, body, Outside(d), maxDepth);
      ScanOne('"', State(d, true, false), maxDepth);
      ScanAppend(quote + body, quote, Outside(d), maxDepth);
    }
  }

  lemma {:induction false} NestsArray(blank: string, elements: seq<Element>)
    requires Space(blank) && forall i | 0 <= i < |elements| :: JsonElement(elements[i])
    ensures Nests(if elements == [] then blank else PrintElements(elements), NestingOfElements(elements))
    decreases elements, 3
  {
    if elements == [] {
      NestsNeutral(blank);
    } else {
      NestsElements(elements);
    }
  }

  lemma {:induction false} NestsObject(blank: string, members: seq<Member>)
    requires Space(blank) && forall i | 0 <= i < |members| :: JsonMember(members[i])
    ensures Nests(if members == [] then blank else PrintMembers(members), NestingOfMembers(members))
    decreases members, 4
  {
    if members == [] {
      NestsNeutral(blank);
    } else {
      NestsMembers(members);
    }
  }

  lemma {:induction false} NestsValue(v: Value)
    requires Json(v)
    ensures Nests(Print(v), Nesting(v))
    decreases v, 0
  {
    match v
    case Literal(text) =>
      TokenIsNeutral(text);
      NestsNeutral(text);
    case Text(chars) => NestsText(chars);
    case Array(blank, elements) =>
      NestsArray(blank, elements);
      var inner := if elements == [] then blank else PrintElements(elements);
      assert Print(v) == ['['] + inner + [']'];
      NestsBracketed('[', inner, ']', NestingOfElements(elements));
    case Object(blank, members) =>
      NestsObject(blank, members);
      var inner := if members == [] then blank else PrintMembers(members);
      assert Print(v) == ['{'] + inner + ['}'];
      NestsBracketed('{', inner, '}', NestingOfMembers(members));
  }

  lemma {:induction false} NestsElement(e: Element)
    requires JsonElement(e)
    ensures Nests(PrintElement(e), Nesting(e.value))
    decreases e, 1
  {
    NestsNeutral(e.before);
    NestsValue(e.value);
    NestsNeutral(e.after);
    NestsConcat(e.before, 0, Print(e.value), Nesting(e.value));
    NestsConcat(e.before + Print(e.value), Nesting(e.value), e.after, 0);
  }

  lemma {:induction false} NestsElements(elements: seq<Element>)
    requires elements != [] && forall i | 0 <= i < |elements| :: JsonElement(elements[i])
    ensures Nests(PrintElements(elements), NestingOfElements(elements))
    decreases elements, 2
  {
    var n := |elements| - 1;
    NestsElement(elements[n]);
    if n == 0 {
      assert "" + PrintElement(elements[0]) == PrintElement(elements[0]);
    } else {
      NestsElements(elements[..n]);
      NestsNeutral(",");
      NestsConcat(PrintElements(elements[..n]), NestingOfElements(elements[..n]), ",", 0);
      NestsConcat(PrintElements(elements[..n]) + ",", NestingOfElements(elements[..n]),
                  PrintElement(elements[n]), Nesting(elements[n].value));
    }
  }

  lemma {:induction false} NestsMember(m: Member)
    requires JsonMember(m)
    ensures Nests(PrintMember(m), Nesting(m.element.value))
    decreases m, 2
  {
    NestsNeutral(m.before);
    NestsText(m.key);
    NestsNeutral(m.after);
    NestsNeutral(":");
    NestsConcat(m.before, 0, PrintText(m.key), 0);
    NestsConcat(m.before + PrintText(m.key), 0, m.after, 0);
    NestsConcat(m.before + PrintText(m.key) + m.after, 0, ":", 0);
    NestsElement(m.element);
    NestsConcat(m.before + PrintText(m.key) + m.after + ":", 0, PrintElement(m.element), Nesting(m.element.value));
  }

  lemma {:induction false} NestsMembers(members: seq<Member>)
    requires members != [] && forall i | 0 <= i < |members| :: JsonMember(members[i])
    ensures Nests(PrintMembers(members), NestingOfMembers(members))
    decreases members, 3
  {
    var n := |members| - 1;
    NestsMember(members[n]);
    if n == 0 {
      assert "" + PrintMember(members[0]) == PrintMember(members[0]);
    } else {
      NestsMembers(members[..n]);
      NestsNeutral(",");
      NestsConcat(PrintMembers(members[..n]), NestingOfMembers(members[..n]), ",", 0);
      NestsConcat(PrintMembers(members[..n]) + ",", NestingOfMembers(members[..n]),
                  PrintMember(members[n]), Nesting(members[n].element.value));
    }
  }

  /** For every JSON text the scan ends at depth zero outside a string, and the text is accepted exactly when
      its arrays and objects nest at most maxDepth deep. */
  lemma PreflightMeasuresNesting(text: Element, maxDepth: nat)
    requires JsonElement(text)
    ensures Scan(PrintElement(text), Outside(0), maxDepth)
         == if Nesting(text.value) <= maxDepth then Success(Outside(0)) else Failure(TooDeep)
  {
    NestsElement(text);
  }
}
