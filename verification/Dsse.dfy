/** DSSE v1 signing bytes and envelope verification (dsse.py:163-283, 403-461). */
module Dsse {
  import opened Wrappers
  import opened Hashing
  import opened PointerPath

  const MAX_PAYLOAD_BYTES := 16 * 1024 * 1024
  const MAX_SIGNATURE_BYTES := 16 * 1024
  const MAX_TRUSTED_VERIFIERS := 256
  const MAX_PAYLOAD_TYPE_BYTES := 512
  const MAX_SIGNATURES := 16
  const MAX_KEY_ID_BYTES := 1024

  // ---------------------------------------------------------------- UTF-8

  /** The 6 bits of a code point above the given weight, as a continuation byte. */
  function Continuation(c: int, weight: int): Byte
    requires c >= 0 && weight in {1, 64, 4096}
  {
    (0x80 + c / weight % 64) as Byte
  }

  function Utf8Char(x: char): (bytes: Bytes)
    ensures |bytes| == Utf8Width(x)
  {
    var c := x as int;
    if c < 0x80 then [c as Byte]
    else if c < 0x800 then [(0xC0 + c / 64) as Byte, Continuation(c, 1)]
    else if c < 0x1_0000 then [(0xE0 + c / 4096) as Byte, Continuation(c, 64), Continuation(c, 1)]
    else [(0xF0 + c / 262144) as Byte, Continuation(c, 4096), Continuation(c, 64), Continuation(c, 1)]
  }

  function Utf8(s: string): (bytes: Bytes)
    ensures |bytes| == Utf8Length(s)
  {
    if s == "" then [] else Utf8Char(s[0]) + Utf8(s[1..])
  }

  /** The encoding of RFC 3629, section 3: the first byte tells how many follow, these all start with the bits 10, and
      the other bits put together are the code point. */
  lemma Utf8CharMeaning(x: char)
    ensures var b, c := Utf8Char(x), x as int;
            match |b|
            case 1 => b[0] as int == c < 0x80
            case 2 =>
              && 0xC0 <= b[0] as int < 0xE0 && 0x80 <= b[1] as int < 0xC0 && 0x80 <= c < 0x800
              && c == (b[0] as int - 0xC0) * 64 + (b[1] as int - 0x80)
            case 3 =>
              && 0xE0 <= b[0] as int < 0xF0 && (forall i | 1 <= i < 3 :: 0x80 <= b[i] as int < 0xC0)
              && 0x800 <= c < 0x1_0000
              && c == ((b[0] as int - 0xE0) * 64 + (b[1] as int - 0x80)) * 64 + (b[2] as int - 0x80)
            case _ =>
              && |b| == 4 && 0xF0 <= b[0] as int < 0xF8 && (forall i | 1 <= i < 4 :: 0x80 <= b[i] as int < 0xC0)
              && 0x1_0000 <= c
              && c == (((b[0] as int - 0xF0) * 64 + (b[1] as int - 0x80)) * 64 + (b[2] as int - 0x80)) * 64
                      + (b[3] as int - 0x80)
  {
    Digits64(x as int);
  }

  /** The first byte of an encoded character tells its width. */
  lemma FirstByteTellsWidth(x: char, y: char)
    requires Utf8Char(x)[0] == Utf8Char(y)[0]
    ensures Utf8Width(x) == Utf8Width(y)
  {
    assert x as int < 0x11_0000 && y as int < 0x11_0000;
  }

  lemma Utf8CharInjective(x: char, y: char)
    requires Utf8Char(x) == Utf8Char(y)
    ensures x == y
  {
    var c, d := x as int, y as int;
    var u, v := Utf8Char(x), Utf8Char(y);
    FirstByteTellsWidth(x, y);
    assert u[0] == v[0] && (|u| > 1 ==> u[1] == v[1]) && (|u| > 2 ==> u[2] == v[2]) && (|u| > 3 ==> u[3] == v[3]);
    Digits64(c);
    Digits64(d);
  }

  lemma Digits64(c: int)
    requires c >= 0
    ensures c == c / 64 * 64 + c % 64
    ensures c / 64 == c / 4096 * 64 + c / 64 % 64
    ensures c / 4096 == c / 262144 * 64 + c / 4096 % 64
  {
  }

  lemma {:induction false} Utf8Injective(s: string, t: string)
    requires Utf8(s) == Utf8(t)
    ensures s == t
  {
    if s != "" && t != "" {
      assert Utf8(s)[0] == Utf8Char(s[0])[0] && Utf8(t)[0] == Utf8Char(t[0])[0];
      FirstByteTellsWidth(s[0], t[0]);
      SplitEqual(Utf8Char(s[0]), Utf8(s[1..]), Utf8Char(t[0]), Utf8(t[1..]));
      Utf8CharInjective(s[0], t[0]);
      Utf8Injective(s[1..], t[1..]);
      assert s == [s[0]] + s[1..] && t == [t[0]] + t[1..];
    }
  }

  // ---------------------------------------------------------------- pre-authentication encoding

  const SPACE: Byte := 32

  /** b"DSSEv1 " */
  const HEADER: Bytes := [68, 83, 83, 69, 118, 49, 32]

  function Ascii(digits: string): (bytes: Bytes)
    requires forall i | 0 <= i < |digits| :: IsDigit(digits[i])
    ensures |bytes| == |digits| && forall i | 0 <= i < |digits| :: bytes[i] as int == digits[i] as int
  {
    seq(|digits|, i requires 0 <= i < |digits| && IsDigit(digits[i]) => (digits[i] as int) as Byte)
  }

  /** A length, a space and that many bytes. */
  function Counted(b: Bytes): Bytes {
    Ascii(Decimal(|b|)) + [SPACE] + b
  }

  function Encoded(payloadType: Bytes, payload: Bytes): Bytes {
    HEADER + Counted(payloadType) + [SPACE] + Counted(payload)
  }

  /** pre_authentication_encode; None when the type or the payload is refused. */
  function PreAuthenticationEncode(payloadType: string, payload: Bytes): Option<Bytes> {
    var bytes := Utf8(payloadType);
    if payloadType == "" || |bytes| > MAX_PAYLOAD_TYPE_BYTES || |payload| > MAX_PAYLOAD_BYTES then None
    else Some(Encoded(bytes, payload))
  }

  function FirstSpace(b: Bytes): (i: nat)
    ensures i <= |b|
  {
    if b == [] || b[0] == SPACE then 0 else 1 + FirstSpace(b[1..])
  }

  function Digits(b: Bytes): Option<string> {
    if b == [] then Some("")
    else if !(48 <= b[0] as int <= 57) then None
    else
      match Digits(b[1..])
      case None => None
      case Some(rest) => Some([b[0] as char] + rest)
  }

  /** Reads a counted string off the front. */
  function ReadCounted(b: Bytes): Option<(Bytes, Bytes)> {
    var i := FirstSpace(b);
    if i == |b| then None
    else
      match Digits(b[..i])
      case None => None
      case Some(digits) =>
        match CanonicalIndex(digits)
        case None => None
        case Some(n) => if i + 1 + n > |b| then None else Some((b[i + 1..i + 1 + n], b[i + 1 + n..]))
  }

  /** A reader of signing bytes: the type's bytes and the payload. */
  function Decode(b: Bytes): Option<(Bytes, Bytes)> {
    if |b| < |HEADER| || b[..|HEADER|] != HEADER then None
    else
      match ReadCounted(b[|HEADER|..])
      case None => None
      case Some((payloadType, rest)) =>
        if rest == [] || rest[0] != SPACE then None
        else
          match ReadCounted(rest[1..])
          case None => None
          case Some((payload, end)) => if end == [] then Some((payloadType, payload)) else None
  }

  lemma {:induction false} FirstSpaceAfter(digits: Bytes, rest: Bytes)
    requires forall i | 0 <= i < |digits| :: digits[i] != SPACE
    ensures FirstSpace(digits + [SPACE] + rest) == |digits|
  {
    var b := digits + [SPACE] + rest;
    if digits != [] {
      assert b[1..] == digits[1..] + [SPACE] + rest;
      FirstSpaceAfter(digits[1..], rest);
    }
  }

  lemma {:induction false} DigitsOfAscii(digits: string)
    requires forall i | 0 <= i < |digits| :: IsDigit(digits[i])
    ensures Digits(Ascii(digits)) == Some(digits)
  {
    if digits != "" {
      DigitsOfAscii(digits[1..]);
      assert Ascii(digits)[1..] == Ascii(digits[1..]);
      assert [digits[0]] + digits[1..] == digits;
    }
  }

  lemma ReadCountedBack(b: Bytes, rest: Bytes)
    ensures ReadCounted(Counted(b) + rest) == Some((b, rest))
  {
    var digits := Decimal(|b|);
    var count := Ascii(digits);
    var whole := Counted(b) + rest;
    assert whole == count + [SPACE] + (b + rest);
    FirstSpaceAfter(count, b + rest);
    assert whole[..|count|] == count;
    DigitsOfAscii(digits);
    IndexIsDecimal(digits, |b|);
    var k := |count| + 1;
    assert whole[k..k + |b|] == b && whole[k + |b|..] == rest;
  }

  /** The type and the payload can be read back from the signing bytes, spaces and digits in them included. */
  lemma DecodeEncoded(payloadType: Bytes, payload: Bytes)
    ensures Decode(Encoded(payloadType, payload)) == Some((payloadType, payload))
  {
    var b := Encoded(payloadType, payload);
    var tail := [SPACE] + Counted(payload);
    assert b == HEADER + (Counted(payloadType) + tail);
    assert b[..|HEADER|] == HEADER && b[|HEADER|..] == Counted(payloadType) + tail;
    ReadCountedBack(payloadType, tail);
    assert tail[1..] == Counted(payload) + [];
    ReadCountedBack(payload, []);
  }

  /** Equal signing bytes come from equal types and payloads. */
  lemma EncodingIsInjective(t: string, p: Bytes, u: string, q: Bytes)
    requires PreAuthenticationEncode(t, p).Some? && PreAuthenticationEncode(t, p) == PreAuthenticationEncode(u, q)
    ensures t == u && p == q
  {
    DecodeEncoded(Utf8(t), p);
    DecodeEncoded(Utf8(u), q);
    Utf8Injective(t, u);
  }

  // ---------------------------------------------------------------- envelopes

  datatype Signature = Signature(keyid: string, sig: string)

  datatype Envelope = Envelope(payloadType: string, payload: string, signatures: seq<Signature>)

  /** A caller-trusted key; a verifier that raises or returns anything but True does not accept. */
  datatype Verifier = Verifier(keyId: string, accepts: (Bytes, Bytes) -> bool)

  datatype Base64 = Base64(encode: Bytes -> string, decode: string -> Option<Bytes>)

  /** _decode_canonical_base64 */
  function DecodeCanonical(codec: Base64, value: string, maxDecoded: nat): Option<Bytes> {
    if |value| > 4 * ((maxDecoded + 2) / 3) then None
    else
      match codec.decode(value)
      case None => None
      case Some(decoded) => if |decoded| > maxDecoded || codec.encode(decoded) != value then None else Some(decoded)
  }

  /** Two texts that are both canonical and decode alike are the same text. */
  lemma CanonicalIsUnique(codec: Base64, v: string, w: string, maxDecoded: nat)
    requires DecodeCanonical(codec, v, maxDecoded).Some?
    requires DecodeCanonical(codec, v, maxDecoded) == DecodeCanonical(codec, w, maxDecoded)
    ensures v == w
  {
    var decoded := DecodeCanonical(codec, v, maxDecoded).value;
    assert codec.encode(decoded) == v && codec.encode(decoded) == w;
  }

  /** The type, the payload and the signatures are what verification can read. */
  predicate Readable(codec: Base64, e: Envelope) {
    && e.payloadType != "" && Utf8Length(e.payloadType) <= MAX_PAYLOAD_TYPE_BYTES
    && DecodeCanonical(codec, e.payload, MAX_PAYLOAD_BYTES).Some?
    && forall i | 0 <= i < |e.signatures| :: DecodeCanonical(codec, e.signatures[i].sig, MAX_SIGNATURE_BYTES).Some?
  }

  /** What the envelope's own validation guarantees. */
  predicate ValidEnvelope(codec: Base64, e: Envelope) {
    && Readable(codec, e) && 1 <= |e.signatures| <= MAX_SIGNATURES
    && (forall i | 0 <= i < |e.signatures| ::
          && SignatureBytes(codec, e.signatures[i]) != []
          && e.signatures[i].keyid != "" && Utf8Length(e.signatures[i].keyid) <= MAX_KEY_ID_BYTES)
    && forall i, j | 0 <= i < j < |e.signatures| :: e.signatures[i].keyid != e.signatures[j].keyid
  }

  datatype Verified = Verified(payloadType: string, payload: Bytes, keyIds: seq<string>)

  datatype Error = WrongType | WrongPayload | NoVerifiers | TooManyVerifiers | BadKeyId | NoValidSignature

  /** The type and the payload that the caller asked for, when it did. */
  predicate ExpectedType(e: Envelope, expectedType: Option<string>) {
    expectedType.None? || expectedType.value == e.payloadType
  }

  predicate ExpectedPayload(codec: Base64, e: Envelope, expectedPayload: Option<Bytes>)
    requires Readable(codec, e)
  {
    expectedPayload.None? || expectedPayload == DecodeCanonical(codec, e.payload, MAX_PAYLOAD_BYTES)
  }

  function SignatureBytes(codec: Base64, s: Signature): Bytes
    requires DecodeCanonical(codec, s.sig, MAX_SIGNATURE_BYTES).Some?
  {
    DecodeCanonical(codec, s.sig, MAX_SIGNATURE_BYTES).value
  }

  /** The trusted verifier k accepts the signature of the entry. */
  predicate Accepts(codec: Base64, message: Bytes, v: Verifier, s: Signature) {
    DecodeCanonical(codec, s.sig, MAX_SIGNATURE_BYTES).Some? && v.accepts(message, SignatureBytes(codec, s))
  }

  function Message(codec: Base64, e: Envelope): Bytes
    requires Readable(codec, e)
  {
    PreAuthenticationEncode(e.payloadType, DecodeCanonical(codec, e.payload, MAX_PAYLOAD_BYTES).value).value
  }

  /** Two valid envelopes whose signatures are over the same bytes carry the same type and the same payload text. */
  lemma SameMessageSameBody(codec: Base64, e: Envelope, f: Envelope)
    requires Readable(codec, e) && Readable(codec, f) && Message(codec, e) == Message(codec, f)
    ensures e.payloadType == f.payloadType && e.payload == f.payload
  {
    EncodingIsInjective(e.payloadType, DecodeCanonical(codec, e.payload, MAX_PAYLOAD_BYTES).value,
                        f.payloadType, DecodeCanonical(codec, f.payload, MAX_PAYLOAD_BYTES).value);
    CanonicalIsUnique(codec, e.payload, f.payload, MAX_PAYLOAD_BYTES);
  }

  /** Whether a verifier accepts an entry, for one message. */
  type Acceptance = (Verifier, Signature) -> bool

  function AcceptanceOf(codec: Base64, message: Bytes): Acceptance {
    (v: Verifier, s: Signature) => Accepts(codec, message, v, s)
  }

  predicate SomeAccepted(ok: Acceptance, signatures: seq<Signature>, trusted: seq<Verifier>) {
    exists i, k | 0 <= i < |signatures| && 0 <= k < |trusted| :: ok(trusted[k], signatures[i])
  }

  /** Some trusted verifier accepts some signature; key-ID hints play no part. */
  predicate Authentic(codec: Base64, e: Envelope, trusted: seq<Verifier>)
    requires Readable(codec, e)
  {
    SomeAccepted(AcceptanceOf(codec, Message(codec, e)), e.signatures, trusted)
  }

  function WithKey(vs: seq<Verifier>, key: string, hinted: bool): (r: seq<Verifier>)
    ensures forall v :: v in r <==> v in vs && (v.keyId == key) == hinted
  {
    if vs == [] then []
    else
      var n := |vs| - 1;
      WithKey(vs[..n], key, hinted) + if (vs[n].keyId == key) == hinted then [vs[n]] else []
  }

  /** The order in which the verifiers are tried for one signature: hinted keys first, when there are any. */
  function Candidates(trusted: seq<Verifier>, keyid: string): (r: seq<Verifier>)
    ensures forall v :: v in r <==> v in trusted
  {
    var hinted := WithKey(trusted, keyid, true);
    if keyid == "" || hinted == [] then trusted else hinted + WithKey(trusted, keyid, false)
  }

  predicate Hinted(v: Verifier, s: Signature) {
    s.keyid != "" && v.keyId == s.keyid
  }

  /** The verifier at k accepts the entry, and no other that accepts it is tried earlier: hinted ones come first, and
      otherwise the order is that of the trusted verifiers. */
  predicate TriedFirst(ok: Acceptance, s: Signature, trusted: seq<Verifier>, k: int) {
    && 0 <= k < |trusted| && ok(trusted[k], s)
    && forall j | 0 <= j < |trusted| && ok(trusted[j], s) ::
         if Hinted(trusted[j], s) == Hinted(trusted[k], s) then k <= j else Hinted(trusted[k], s)
  }

  /** The key that is reported for an entry. */
  ghost predicate Chosen(ok: Acceptance, s: Signature, trusted: seq<Verifier>, keyId: string) {
    exists k | 0 <= k < |trusted| && trusted[k].keyId == keyId :: TriedFirst(ok, s, trusted, k)
  }

  lemma ChosenIsUnique(ok: Acceptance, s: Signature, trusted: seq<Verifier>, one: string, other: string)
    requires Chosen(ok, s, trusted, one) && Chosen(ok, s, trusted, other)
    ensures one == other
  {
    var k :| 0 <= k < |trusted| && trusted[k].keyId == one && TriedFirst(ok, s, trusted, k);
    var l :| 0 <= l < |trusted| && trusted[l].keyId == other && TriedFirst(ok, s, trusted, l);
    assert k <= l && l <= k;
  }

  /** The first verifier of a list that accepts the entry. */
  ghost predicate FirstIn(ok: Acceptance, s: Signature, vs: seq<Verifier>, k: nat) {
    k < |vs| && ok(vs[k], s) && forall j | 0 <= j < k :: !ok(vs[j], s)
  }

  /** The verifier at l accepts the entry, and none of the kind does so before it. */
  ghost predicate FirstKind(ok: Acceptance, s: Signature, vs: seq<Verifier>, key: string, hinted: bool, l: nat) {
    && l < |vs| && (vs[l].keyId == key) == hinted && ok(vs[l], s)
    && forall j | 0 <= j < l && (vs[j].keyId == key) == hinted :: !ok(vs[j], s)
  }

  lemma {:induction false} FirstOfKind(ok: Acceptance, s: Signature, vs: seq<Verifier>, key: string, hinted: bool,
      k: nat) returns (l: nat)
    requires FirstIn(ok, s, WithKey(vs, key, hinted), k)
    ensures FirstKind(ok, s, vs, key, hinted, l) && vs[l] == WithKey(vs, key, hinted)[k]
  {
    var n := |vs| - 1;
    var front := WithKey(vs[..n], key, hinted);
    if k < |front| {
      FirstInPrefix(ok, s, WithKey(vs, key, hinted), k, front);
      l := FirstOfKind(ok, s, vs[..n], key, hinted, k);
      assert FirstKind(ok, s, vs, key, hinted, l) by {
        assert forall j | 0 <= j < n :: vs[j] == vs[..n][j];
      }
    } else {
      l := n;
      forall j | 0 <= j < n && (vs[j].keyId == key) == hinted ensures !ok(vs[j], s) {
        assert vs[..n][j] == vs[j];
        NoneBefore(ok, s, WithKey(vs, key, hinted), k, front, vs[j]);
      }
    }
  }

  lemma FirstInPrefix(ok: Acceptance, s: Signature, vs: seq<Verifier>, k: nat, front: seq<Verifier>)
    requires FirstIn(ok, s, vs, k) && front <= vs && k < |front|
    ensures FirstIn(ok, s, front, k) && front[k] == vs[k]
  {
    assert forall j | 0 <= j < |front| :: front[j] == vs[j];
  }

  lemma NoneBefore(ok: Acceptance, s: Signature, vs: seq<Verifier>, k: nat, front: seq<Verifier>, v: Verifier)
    requires FirstIn(ok, s, vs, k) && |front| <= k && front <= vs && v in front
    ensures !ok(v, s)
  {
    var j :| 0 <= j < |front| && front[j] == v;
    assert vs[j] == v;
  }

  /** The first candidate that accepts is the verifier tried first. */
  lemma FirstCandidateIsChosen(ok: Acceptance, s: Signature, trusted: seq<Verifier>, k: nat)
    requires FirstIn(ok, s, Candidates(trusted, s.keyid), k)
    ensures Chosen(ok, s, trusted, Candidates(trusted, s.keyid)[k].keyId)
  {
    var hinted, others := WithKey(trusted, s.keyid, true), WithKey(trusted, s.keyid, false);
    if s.keyid == "" || hinted == [] {
      NoHint(s, trusted);
      assert TriedFirst(ok, s, trusted, k);
    } else if k < |hinted| {
      FirstInPrefix(ok, s, hinted + others, k, hinted);
      var l := FirstOfKind(ok, s, trusted, s.keyid, true, k);
      assert TriedFirst(ok, s, trusted, l);
    } else {
      OthersAfter(ok, s, hinted, others, k);
      var l := FirstOfKind(ok, s, trusted, s.keyid, false, k - |hinted|);
      forall j | 0 <= j < |trusted| && Hinted(trusted[j], s) ensures !ok(trusted[j], s) {
        assert trusted[j] in hinted;
        NoneBefore(ok, s, hinted + others, k, hinted, trusted[j]);
      }
      assert TriedFirst(ok, s, trusted, l);
    }
  }

  lemma NoHint(s: Signature, trusted: seq<Verifier>)
    requires s.keyid == "" || WithKey(trusted, s.keyid, true) == []
    ensures forall v | v in trusted :: !Hinted(v, s)
  {
    forall v | v in trusted ensures !Hinted(v, s) {
      assert v !in WithKey(trusted, s.keyid, true) || s.keyid == "";
    }
  }

  lemma OthersAfter(ok: Acceptance, s: Signature, hinted: seq<Verifier>, others: seq<Verifier>, k: nat)
    requires FirstIn(ok, s, hinted + others, k) && |hinted| <= k
    ensures FirstIn(ok, s, others, k - |hinted|) && (hinted + others)[k] == others[k - |hinted|]
  {
    forall j | 0 <= j < k - |hinted| ensures !ok(others[j], s) {
      assert (hinted + others)[|hinted| + j] == others[j];
    }
  }

  /** The key is the chosen one of some signature. */
  ghost predicate Vouched(ok: Acceptance, signatures: seq<Signature>, trusted: seq<Verifier>, keyId: string) {
    exists i | 0 <= i < |signatures| :: Chosen(ok, signatures[i], trusted, keyId)
  }

  /** If any trusted verifier accepts the entry, its chosen key is among these. */
  ghost predicate Covered(ok: Acceptance, s: Signature, trusted: seq<Verifier>, keyIds: seq<string>) {
    forall v | v in trusted && ok(v, s) :: exists keyId | keyId in keyIds :: Chosen(ok, s, trusted, keyId)
  }

  /** The first key is chosen for some signature up to which the second is not chosen. */
  ghost predicate Earlier(ok: Acceptance, signatures: seq<Signature>, trusted: seq<Verifier>, first: string,
      second: string) {
    exists i | 0 <= i < |signatures| ::
      && Chosen(ok, signatures[i], trusted, first)
      && forall j | 0 <= j <= i :: !Chosen(ok, signatures[j], trusted, second)
  }

  /** Exactly the chosen keys of the signatures that some trusted verifier accepts, each once, in the order of the
      signatures. */
  ghost predicate Reported(ok: Acceptance, signatures: seq<Signature>, trusted: seq<Verifier>, keyIds: seq<string>) {
    && (forall m | 0 <= m < |keyIds| :: Vouched(ok, signatures, trusted, keyIds[m]))
    && (forall m, n | 0 <= m < n < |keyIds| :: Earlier(ok, signatures, trusted, keyIds[m], keyIds[n]))
    && (forall i | 0 <= i < |signatures| :: Covered(ok, signatures[i], trusted, keyIds))
  }

  lemma ReportedOnce(ok: Acceptance, signatures: seq<Signature>, trusted: seq<Verifier>, keyIds: seq<string>,
      m: nat, n: nat)
    requires Reported(ok, signatures, trusted, keyIds) && m < n < |keyIds|
    ensures keyIds[m] != keyIds[n]
  {
    assert Earlier(ok, signatures, trusted, keyIds[m], keyIds[n]);
  }

  /** What the search over the candidates for one entry found. */
  ghost predicate FoundFor(ok: Acceptance, s: Signature, trusted: seq<Verifier>, found: Option<string>) {
    match found
    case Some(keyId) => Chosen(ok, s, trusted, keyId)
    case None => forall v | v in trusted :: !ok(v, s)
  }

  function WithFound(keyIds: seq<string>, found: Option<string>): seq<string> {
    if found.Some? && found.value !in keyIds then keyIds + [found.value] else keyIds
  }

  lemma VouchedStays(ok: Acceptance, signatures: seq<Signature>, s: Signature, trusted: seq<Verifier>, keyId: string)
    requires Vouched(ok, signatures, trusted, keyId) || Chosen(ok, s, trusted, keyId)
    ensures Vouched(ok, signatures + [s], trusted, keyId)
  {
    var longer := signatures + [s];
    if Vouched(ok, signatures, trusted, keyId) {
      var i :| 0 <= i < |signatures| && Chosen(ok, signatures[i], trusted, keyId);
      assert longer[i] == signatures[i];
    } else {
      assert longer[|signatures|] == s;
    }
  }

  lemma EarlierStays(ok: Acceptance, signatures: seq<Signature>, s: Signature, trusted: seq<Verifier>, first: string,
      second: string)
    requires Earlier(ok, signatures, trusted, first, second)
    ensures Earlier(ok, signatures + [s], trusted, first, second)
  {
    var longer := signatures + [s];
    var i :| 0 <= i < |signatures| && Chosen(ok, signatures[i], trusted, first)
             && forall j | 0 <= j <= i :: !Chosen(ok, signatures[j], trusted, second);
    assert forall j | 0 <= j <= i :: longer[j] == signatures[j];
  }

  /** A key that is not yet reported has not been chosen so far. */
  lemma NewKeyIsLater(ok: Acceptance, signatures: seq<Signature>, trusted: seq<Verifier>, keyIds: seq<string>,
      m: nat, keyId: string)
    requires Reported(ok, signatures, trusted, keyIds) && m < |keyIds| && keyId !in keyIds
    ensures Earlier(ok, signatures, trusted, keyIds[m], keyId)
  {
    assert Vouched(ok, signatures, trusted, keyIds[m]);
    var i :| 0 <= i < |signatures| && Chosen(ok, signatures[i], trusted, keyIds[m]);
    forall j | 0 <= j <= i ensures !Chosen(ok, signatures[j], trusted, keyId) {
      if Chosen(ok, signatures[j], trusted, keyId) {
        var k :| 0 <= k < |trusted| && trusted[k].keyId == keyId && TriedFirst(ok, signatures[j], trusted, k);
        assert Covered(ok, signatures[j], trusted, keyIds) && trusted[k] in trusted;
        var other :| other in keyIds && Chosen(ok, signatures[j], trusted, other);
        ChosenIsUnique(ok, signatures[j], trusted, keyId, other);
      }
    }
  }

  lemma CoveredNow(ok: Acceptance, s: Signature, trusted: seq<Verifier>, keyIds: seq<string>, found: Option<string>)
    requires FoundFor(ok, s, trusted, found)
    ensures Covered(ok, s, trusted, WithFound(keyIds, found))
  {
    if found.Some? {
      assert found.value in WithFound(keyIds, found);
    }
  }

  lemma VouchedSnoc(ok: Acceptance, signatures: seq<Signature>, s: Signature, trusted: seq<Verifier>,
      keyIds: seq<string>, found: Option<string>)
    requires forall m | 0 <= m < |keyIds| :: Vouched(ok, signatures, trusted, keyIds[m])
    requires FoundFor(ok, s, trusted, found)
    ensures var keys := WithFound(keyIds, found);
            forall m | 0 <= m < |keys| :: Vouched(ok, signatures + [s], trusted, keys[m])
  {
    var keys := WithFound(keyIds, found);
    forall m | 0 <= m < |keys| ensures Vouched(ok, signatures + [s], trusted, keys[m]) {
      VouchedStays(ok, signatures, s, trusted, keys[m]);
    }
  }

  lemma EarlierSnoc(ok: Acceptance, signatures: seq<Signature>, s: Signature, trusted: seq<Verifier>,
      keyIds: seq<string>, found: Option<string>)
    requires Reported(ok, signatures, trusted, keyIds)
    ensures var keys := WithFound(keyIds, found);
            forall m, n | 0 <= m < n < |keys| :: Earlier(ok, signatures + [s], trusted, keys[m], keys[n])
  {
    var keys := WithFound(keyIds, found);
    forall m, n | 0 <= m < n < |keys| ensures Earlier(ok, signatures + [s], trusted, keys[m], keys[n]) {
      if n == |keyIds| {
        NewKeyIsLater(ok, signatures, trusted, keyIds, m, keys[n]);
      }
      EarlierStays(ok, signatures, s, trusted, keys[m], keys[n]);
    }
  }

  lemma CoveredStays(ok: Acceptance, s: Signature, trusted: seq<Verifier>, keyIds: seq<string>, more: seq<string>)
    requires Covered(ok, s, trusted, keyIds) && forall k | k in keyIds :: k in more
    ensures Covered(ok, s, trusted, more)
  {
    forall v | v in trusted && ok(v, s) ensures exists keyId | keyId in more :: Chosen(ok, s, trusted, keyId) {
      var keyId :| keyId in keyIds && Chosen(ok, s, trusted, keyId);
      assert keyId in more;
    }
  }

  lemma CoveredSnoc(ok: Acceptance, signatures: seq<Signature>, s: Signature, trusted: seq<Verifier>,
      keyIds: seq<string>, found: Option<string>)
    requires forall i | 0 <= i < |signatures| :: Covered(ok, signatures[i], trusted, keyIds)
    requires FoundFor(ok, s, trusted, found)
    ensures forall i | 0 <= i < |signatures| + 1 ::
              Covered(ok, (signatures + [s])[i], trusted, WithFound(keyIds, found))
  {
    var longer := signatures + [s];
    CoveredNow(ok, s, trusted, keyIds, found);
    forall i | 0 <= i < |longer| ensures Covered(ok, longer[i], trusted, WithFound(keyIds, found)) {
      if i < |signatures| {
        CoveredStays(ok, signatures[i], trusted, keyIds, WithFound(keyIds, found));
      }
    }
  }

  lemma ReportedSnoc(ok: Acceptance, signatures: seq<Signature>, s: Signature, trusted: seq<Verifier>,
      keyIds: seq<string>, found: Option<string>)
    requires Reported(ok, signatures, trusted, keyIds) && FoundFor(ok, s, trusted, found)
    ensures Reported(ok, signatures + [s], trusted, WithFound(keyIds, found))
  {
    VouchedSnoc(ok, signatures, s, trusted, keyIds, found);
    EarlierSnoc(ok, signatures, s, trusted, keyIds, found);
    CoveredSnoc(ok, signatures, s, trusted, keyIds, found);
  }

  lemma ReportedMeansAccepted(ok: Acceptance, signatures: seq<Signature>, trusted: seq<Verifier>, keyIds: seq<string>)
    requires Reported(ok, signatures, trusted, keyIds)
    ensures keyIds != [] <==> SomeAccepted(ok, signatures, trusted)
  {
    if keyIds != [] {
      assert Vouched(ok, signatures, trusted, keyIds[0]);
      var i :| 0 <= i < |signatures| && Chosen(ok, signatures[i], trusted, keyIds[0]);
      var k :| 0 <= k < |trusted| && trusted[k].keyId == keyIds[0] && TriedFirst(ok, signatures[i], trusted, k);
      assert ok(trusted[k], signatures[i]);
    }
    if SomeAccepted(ok, signatures, trusted) {
      var i, k :| 0 <= i < |signatures| && 0 <= k < |trusted| && ok(trusted[k], signatures[i]);
      assert Covered(ok, signatures[i], trusted, keyIds) && trusted[k] in trusted;
    }
  }

  /** The first candidate that accepts a signature. */
  method FirstAccepting(codec: Base64, message: Bytes, s: Signature, trusted: seq<Verifier>)
    returns (found: Option<string>)
    requires DecodeCanonical(codec, s.sig, MAX_SIGNATURE_BYTES).Some?
    ensures FoundFor(AcceptanceOf(codec, message), s, trusted, found)
  {
    ghost var ok := AcceptanceOf(codec, message);
    var signature := SignatureBytes(codec, s);
    var candidates := Candidates(trusted, s.keyid);
    for k := 0 to |candidates|
      invariant forall j | 0 <= j < k :: !ok(candidates[j], s)
    {
      assert ok(candidates[k], s) == candidates[k].accepts(message, signature);
      if candidates[k].accepts(message, signature) {
        FirstCandidateIsChosen(ok, s, trusted, k);
        return Some(candidates[k].keyId);
      }
    }
    forall v | v in trusted ensures !ok(v, s) {
      assert v in candidates;
    }
    found := None;
  }

  /** One entry: its chosen key is reported, unless it already is. */
  method Verify(codec: Base64, message: Bytes, ghost done: seq<Signature>, s: Signature, trusted: seq<Verifier>,
      keyIds: seq<string>)
    returns (more: seq<string>)
    requires DecodeCanonical(codec, s.sig, MAX_SIGNATURE_BYTES).Some?
        && Reported(AcceptanceOf(codec, message), done, trusted, keyIds)
    ensures Reported(AcceptanceOf(codec, message), done + [s], trusted, more)
  {
    var found := FirstAccepting(codec, message, s, trusted);
    ReportedSnoc(AcceptanceOf(codec, message), done, s, trusted, keyIds, found);
    more := keyIds;
    if found.Some? && found.value !in keyIds {
      more := keyIds + [found.value];
    }
  }

  /** The trusted keys that accepted a signature, in the order in which they were found. */
  method VerifiedKeyIds(codec: Base64, message: Bytes, signatures: seq<Signature>, trusted: seq<Verifier>)
      returns (keyIds: seq<string>)
    requires forall i | 0 <= i < |signatures| :: DecodeCanonical(codec, signatures[i].sig, MAX_SIGNATURE_BYTES).Some?
    ensures Reported(AcceptanceOf(codec, message), signatures, trusted, keyIds)
  {
    ghost var ok := AcceptanceOf(codec, message);
    keyIds := [];
    for i := 0 to |signatures|
      invariant Reported(ok, signatures[..i], trusted, keyIds)
    {
      keyIds := Verify(codec, message, signatures[..i], signatures[i], trusted, keyIds);
      assert signatures[..i + 1] == signatures[..i] + [signatures[i]];
    }
    assert signatures[..|signatures|] == signatures;
  }

  /** verify_dsse_envelope: it succeeds exactly when the type and the payload are the expected ones, there are 1 to
      256 trusted verifiers, all with a key, and one of them accepts some signature; the first check that fails is
      reported. */
  method VerifyEnvelope(codec: Base64, e: Envelope, trusted: seq<Verifier>, expectedType: Option<string>,
      expectedPayload: Option<Bytes>)
    returns (r: Result<Verified, Error>)
    requires Readable(codec, e)
    ensures r == Failure(WrongType) <==> !ExpectedType(e, expectedType)
    ensures r == Failure(WrongPayload) <==>
              ExpectedType(e, expectedType) && !ExpectedPayload(codec, e, expectedPayload)
    ensures r == Failure(NoVerifiers) <==>
              ExpectedType(e, expectedType) && ExpectedPayload(codec, e, expectedPayload) && trusted == []
    ensures r == Failure(TooManyVerifiers) <==>
              ExpectedType(e, expectedType) && ExpectedPayload(codec, e, expectedPayload) && |trusted| > 256
    ensures r == Failure(BadKeyId) <==>
              && ExpectedType(e, expectedType) && ExpectedPayload(codec, e, expectedPayload) && |trusted| <= 256
              && exists v :: v in trusted && v.keyId == ""
    ensures r.Success? <==>
              && ExpectedType(e, expectedType) && ExpectedPayload(codec, e, expectedPayload) && |trusted| <= 256
              && (forall v | v in trusted :: v.keyId != "") && Authentic(codec, e, trusted)
    ensures r.Success? ==>
              && r.value.payloadType == e.payloadType
              && Some(r.value.payload) == DecodeCanonical(codec, e.payload, MAX_PAYLOAD_BYTES)
              && Reported(AcceptanceOf(codec, Message(codec, e)), e.signatures, trusted, r.value.keyIds)
  {
    var payload := DecodeCanonical(codec, e.payload, MAX_PAYLOAD_BYTES).value;
    if expectedType.Some? && e.payloadType != expectedType.value {
      return Failure(WrongType);
    }
    if expectedPayload.Some? && payload != expectedPayload.value {
      return Failure(WrongPayload);
    }
    if trusted == [] {
      return Failure(NoVerifiers);
    }
    if |trusted| > MAX_TRUSTED_VERIFIERS {
      return Failure(TooManyVerifiers);
    }
    if exists i | 0 <= i < |trusted| :: trusted[i].keyId == "" {
      assert exists v :: v in trusted && v.keyId == "";
      return Failure(BadKeyId);
    }
    var message := Message(codec, e);
    var keyIds := VerifiedKeyIds(codec, message, e.signatures, trusted);
    ReportedMeansAccepted(AcceptanceOf(codec, message), e.signatures, trusted, keyIds);
    if keyIds == [] {
      return Failure(NoValidSignature);
    }
    r := Success(Verified(e.payloadType, payload, keyIds));
  }

  /** Relabelling the signatures changes nothing about whether an envelope is authentic. */
  lemma HintsAreIrrelevant(codec: Base64, e: Envelope, f: Envelope, trusted: seq<Verifier>)
    requires Readable(codec, e) && e.payloadType == f.payloadType && e.payload == f.payload
        && |e.signatures| == |f.signatures|
    requires forall i | 0 <= i < |e.signatures| :: e.signatures[i].sig == f.signatures[i].sig
    ensures Readable(codec, f) && (Authentic(codec, e, trusted) <==> Authentic(codec, f, trusted))
  {
    assert Message(codec, f) == Message(codec, e);
    SameAcceptance(codec, Message(codec, e), e.signatures, f.signatures, trusted);
  }

  lemma SameAcceptance(codec: Base64, message: Bytes, ss: seq<Signature>, ts: seq<Signature>, trusted: seq<Verifier>)
    requires |ss| == |ts| && forall i | 0 <= i < |ss| :: ss[i].sig == ts[i].sig
    ensures SomeAccepted(AcceptanceOf(codec, message), ss, trusted)
        <==> SomeAccepted(AcceptanceOf(codec, message), ts, trusted)
  {
    var ok := AcceptanceOf(codec, message);
    assert forall i, k | 0 <= i < |ss| && 0 <= k < |trusted| :: ok(trusted[k], ss[i]) == ok(trusted[k], ts[i]);
  }

  // ---------------------------------------------------------------- signing

  /** create_dsse_envelope; None when the signing primitive's result or the key ID is refused. */
  function CreateEnvelope(codec: Base64, payloadType: string, payload: Bytes, keyId: string,
      sign: Bytes -> Bytes): Option<Envelope> {
    match PreAuthenticationEncode(payloadType, payload)
    case None => None
    case Some(message) =>
      var signature := sign(message);
      if keyId == "" || signature == [] || |signature| > MAX_SIGNATURE_BYTES || Utf8Length(keyId) > MAX_KEY_ID_BYTES
      then None
      else Some(Envelope(payloadType, codec.encode(payload), [Signature(keyId, codec.encode(signature))]))
  }

  /** Base64 gives back what it encoded, four characters for three bytes. */
  ghost predicate FaithfulBase64(codec: Base64) {
    forall b: Bytes :: codec.decode(codec.encode(b)) == Some(b) && |codec.encode(b)| == 4 * ((|b| + 2) / 3)
  }

  lemma CanonicalEncoding(codec: Base64, b: Bytes, maxDecoded: nat)
    requires FaithfulBase64(codec) && |b| <= maxDecoded
    ensures DecodeCanonical(codec, codec.encode(b), maxDecoded) == Some(b)
  {
    assert (|b| + 2) / 3 <= (maxDecoded + 2) / 3;
  }

  /** The texts that are accepted are exactly the encodings of what fits. */
  lemma CanonicalMeaning(codec: Base64, value: string, maxDecoded: nat, b: Bytes)
    requires FaithfulBase64(codec)
    ensures DecodeCanonical(codec, value, maxDecoded) == Some(b) <==> |b| <= maxDecoded && value == codec.encode(b)
  {
    if |b| <= maxDecoded && value == codec.encode(b) {
      CanonicalEncoding(codec, b, maxDecoded);
    }
  }

  /** A payload and its type that can be signed. */
  predicate Signable(payloadType: string, payload: Bytes) {
    payloadType != "" && |Utf8(payloadType)| <= 512 && |payload| <= 16 * 1024 * 1024
  }

  /** The envelope over one payload: it exists exactly when the payload, the key ID and what the signer makes of the
      signing bytes are within their bounds; it then is valid and holds the type, the payload and the one signature. */
  lemma CreateEnvelopeMeaning(codec: Base64, payloadType: string, payload: Bytes, keyId: string, sign: Bytes -> Bytes)
    requires FaithfulBase64(codec)
    ensures var made := CreateEnvelope(codec, payloadType, payload, keyId, sign);
            var signature := sign(Encoded(Utf8(payloadType), payload));
            && (made.Some? <==>
                 && Signable(payloadType, payload) && keyId != "" && |Utf8(keyId)| <= 1024
                 && 1 <= |signature| <= 16 * 1024)
            && (made.Some? ==>
                  && ValidEnvelope(codec, made.value) && made.value.payloadType == payloadType
                  && codec.decode(made.value.payload) == Some(payload)
                  && Message(codec, made.value) == Encoded(Utf8(payloadType), payload)
                  && |made.value.signatures| == 1 && made.value.signatures[0].keyid == keyId
                  && codec.decode(made.value.signatures[0].sig) == Some(signature))
  {
    var made := CreateEnvelope(codec, payloadType, payload, keyId, sign);
    if made.Some? {
      CanonicalEncoding(codec, payload, MAX_PAYLOAD_BYTES);
      CanonicalEncoding(codec, sign(Encoded(Utf8(payloadType), payload)), MAX_SIGNATURE_BYTES);
    }
  }

  /** A created envelope is authentic for every verifier that accepts what the signer made. */
  lemma SignThenVerify(codec: Base64, payloadType: string, payload: Bytes, keyId: string, sign: Bytes -> Bytes,
      trusted: seq<Verifier>, k: nat)
    requires FaithfulBase64(codec) && CreateEnvelope(codec, payloadType, payload, keyId, sign).Some? && k < |trusted|
    requires var message := PreAuthenticationEncode(payloadType, payload).value; trusted[k].accepts(message,
        sign(message))
    ensures ValidEnvelope(codec, CreateEnvelope(codec, payloadType, payload, keyId, sign).value)
    ensures Authentic(codec, CreateEnvelope(codec, payloadType, payload, keyId, sign).value, trusted)
  {
    var e := CreateEnvelope(codec, payloadType, payload, keyId, sign).value;
    var message := PreAuthenticationEncode(payloadType, payload).value;
    CanonicalEncoding(codec, payload, MAX_PAYLOAD_BYTES);
    CanonicalEncoding(codec, sign(message), MAX_SIGNATURE_BYTES);
    assert Message(codec, e) == message;
    assert AcceptanceOf(codec, message)(trusted[k], e.signatures[0]);
  }
}
