/** Bytes, digests and canonical JSON, as the evidence roots use them. The hash is an arbitrary function into 32
    bytes: nothing is assumed about collisions, they are exhibited. */
module Hashing {
  import opened Wrappers
  import opened PointerPath

  newtype Byte = x: int | 0 <= x < 256

  type Bytes = seq<Byte>

  /** 32 bytes. */
  type Digest = d: Bytes | |d| == 32 witness seq(32, i => 0)

  /** JSON values; numbers are their decimal tokens, objects are unordered. */
  datatype Json = Null | Bool(b: bool) | Number(token: string) | Text(s: string) | Array(items: seq<Json>)
      | Object(members: map<string, Json>)

  datatype Hasher = Hasher(sha: Bytes -> Digest, encode: Json -> Bytes)

  /** What canonical JSON encoding gives: different values have different bytes, and an object is at least as
      long as any of its text members. */
  ghost predicate Faithful(h: Hasher) {
    && (forall v, w :: h.encode(v) == h.encode(w) ==> v == w)
    && (forall m: map<string, Json>, k | k in m && m[k].Text? :: |h.encode(Object(m))| >= |m[k].s|)
  }

  ghost predicate Collision(h: Hasher, a: Bytes, b: Bytes) {
    a != b && h.sha(a) == h.sha(b)
  }

  // ---------------------------------------------------------------- hexadecimal

  const HEX: string := "0123456789abcdef"

  function HexByte(b: Byte): (s: string)
    ensures |s| == 2
  {
    [HEX[b as int / 16], HEX[b as int % 16]]
  }

  function Hex(bytes: Bytes): (s: string)
    ensures |s| == 2 * |bytes|
  {
    if bytes == [] then "" else HexByte(bytes[0]) + Hex(bytes[1..])
  }

  function Nibble(c: char): Option<int> {
    if '0' <= c <= '9' then Some(c as int - '0' as int)
    else if 'a' <= c <= 'f' then Some(c as int - 'a' as int + 10)
    else None
  }

  /** bytes.fromhex, on lower-case digits. */
  function FromHex(s: string): Option<Bytes> {
    if s == "" then Some([])
    else if |s| < 2 then None
    else
      match (Nibble(s[0]), Nibble(s[1]), FromHex(s[2..]))
      case (Some(high), Some(low), Some(rest)) =>
        if 0 <= high < 16 && 0 <= low < 16 then Some([(high * 16 + low) as Byte] + rest) else None
      case _ => None
  }

  lemma NibbleOfHex(d: nat)
    requires d < 16
    ensures Nibble(HEX[d]) == Some(d)
  {
    assert HEX[0] == '0' && HEX[1] == '1' && HEX[2] == '2' && HEX[3] == '3' && HEX[4] == '4' && HEX[5] == '5';
    assert HEX[6] == '6' && HEX[7] == '7' && HEX[8] == '8' && HEX[9] == '9' && HEX[10] == 'a' && HEX[11] == 'b';
    assert HEX[12] == 'c' && HEX[13] == 'd' && HEX[14] == 'e' && HEX[15] == 'f';
  }

  /** Two digits give back their byte. */
  lemma FromHexByte(b: Byte, rest: string)
    ensures FromHex(HexByte(b) + rest)
         == match FromHex(rest) case None => None case Some(bytes) => Some([b] + bytes)
  {
    var s := HexByte(b) + rest;
    NibbleOfHex(b as int / 16);
    NibbleOfHex(b as int % 16);
    assert s[0] == HEX[b as int / 16] && s[1] == HEX[b as int % 16] && s[2..] == rest;
    assert b as int / 16 * 16 + b as int % 16 == b as int;
  }

  lemma {:induction false} HexRoundTrip(bytes: Bytes)
    ensures FromHex(Hex(bytes)) == Some(bytes)
  {
    if bytes != [] {
      HexRoundTrip(bytes[1..]);
      FromHexByte(bytes[0], Hex(bytes[1..]));
      assert bytes == [bytes[0]] + bytes[1..];
    }
  }

  lemma HexInjective(a: Bytes, b: Bytes)
    requires Hex(a) == Hex(b)
    ensures a == b
  {
    HexRoundTrip(a);
    HexRoundTrip(b);
  }

  /** A decimal token determines its number. */
  lemma DecimalInjective(m: nat, n: nat)
    requires Decimal(m) == Decimal(n)
    ensures m == n
  {
    ValueOfDecimal(m);
    ValueOfDecimal(n);
  }

  lemma SplitEqual<T>(a: seq<T>, b: seq<T>, c: seq<T>, d: seq<T>)
    requires a + b == c + d && |a| == |c|
    ensures a == c && b == d
  {
    assert a == (a + b)[..|a|] && c == (c + d)[..|a|];
    assert b == (a + b)[|a|..] && d == (c + d)[|a|..];
  }
}
