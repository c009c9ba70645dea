/** What the budget walk charges for scalars and keys (evidence/limits.py:88-137), by the text that they are rendered
    to; and that the ceiling on the bits of an integer refuses nothing that the ceiling on its digits admits. */
module MaterialSizes {
  import opened Wrappers
  import opened MaterialBudget
  import PointerPath

  // ---------------------------------------------------------------- texts

  /** The code points from a bound on. */
  function From(text: Text, bound: nat): nat {
    if text == [] then 0 else From(text[..|text| - 1], bound) + if text[|text| - 1] >= bound then 1 else 0
  }

  /** UTF-8 takes one byte for a code point, and one more from each of three bounds on. */
  lemma {:induction false} TextLength(text: Text)
    ensures Utf8Length(text) == |text| + From(text, 0x80) + From(text, 0x800) + From(text, 0x1_0000)
  {
    if text != [] {
      TextLength(text[..|text| - 1]);
    }
  }

  /** A text that UTF-8 can encode: no code point is a surrogate. */
  predicate WellFormed(text: Text) {
    forall point | point in text :: point < 0xD800 || point > 0xDFFF
  }

  lemma EncodableMeaning(text: Text)
    ensures Encodable(text) <==> WellFormed(text)
  {
    if Encodable(text) {
      forall point | point in text ensures point < 0xD800 || point > 0xDFFF {
        var i :| 0 <= i < |text| && text[i] == point;
        assert !Surrogate(text[i]);
      }
    } else {
      var i :| 0 <= i < |text| && Surrogate(text[i]);
      assert text[i] in text;
    }
  }

  // ---------------------------------------------------------------- powers

  function Pow(b: nat, e: nat): nat {
    if e == 0 then 1 else b * Pow(b, e - 1)
  }

  lemma {:induction false} PowAdds(b: nat, d: nat, e: nat)
    ensures Pow(b, d + e) == Pow(b, d) * Pow(b, e)
  {
    if d > 0 {
      PowAdds(b, d - 1, e);
      assert Pow(b, d + e) == b * Pow(b, d - 1 + e);
      Regroup(b, Pow(b, d - 1), Pow(b, e));
    }
  }

  lemma Regroup(x: nat, y: nat, z: nat)
    ensures x * (y * z) == x * y * z
  {
  }

  /** A number has at most d digits in a base exactly when it is below the d-th power of the base. */
  lemma {:induction false} BitsBound(n: nat, d: nat)
    ensures BitLength(n) <= d <==> n < Pow(2, d)
    decreases d
  {
    if d == 0 || n == 0 {
      PowGrows(2, 0, d);
    } else {
      BitsBound(n / 2, d - 1);
      assert n / 2 < Pow(2, d - 1) <==> n < 2 * Pow(2, d - 1);
    }
  }

  lemma {:induction false} DigitsBound(n: nat, d: nat)
    requires d > 0
    ensures |PointerPath.Decimal(n)| <= d <==> n < Pow(10, d)
  {
    if n < 10 {
      PowGrows(10, 1, d);
    } else if d > 1 {
      DigitsBound(n / 10, d - 1);
    }
  }

  lemma {:induction false} PowGrows(b: nat, d: nat, e: nat)
    requires b > 0 && d <= e
    ensures Pow(b, d) <= Pow(b, e)
    decreases e
  {
    if d < e {
      PowGrows(b, d, e - 1);
      Larger(b, Pow(b, e - 1));
    }
  }

  lemma Larger(b: nat, x: nat)
    requires b > 0
    ensures x <= b * x
  {
  }

  // ---------------------------------------------------------------- the two ceilings of an integer

  /** Upper bounds, as mantissa and exponent, of ten squared again and again. */
  const MANTISSAS: seq<nat> :=
    [10, 100, 10000, 100000000, 596046448, 661744491, 815663061,
     619614711, 715111178, 952526922, 844995992, 664981294, 823661912]
  const EXPONENTS: seq<nat> := [0, 0, 0, 0, 24, 77, 183, 396, 821, 1671, 3372, 6774, 13577]

  function Doubled(k: nat): nat {
    if k == 0 then 1 else Doubled(k - 1) + Doubled(k - 1)
  }

  /** How far the product of two mantissas is shifted. */
  const SHIFTS: seq<nat> := [0, 0, 0, 24, 29, 29, 30, 29, 29, 30, 30, 29]
  const SCALES: seq<nat> := [1, 1, 1, 16777216, 536870912, 536870912,
                             1073741824, 536870912, 536870912, 1073741824, 1073741824, 536870912]

  lemma MantissaSquares(k: nat)
    requires k < 12
    ensures MANTISSAS[k] * MANTISSAS[k] <= MANTISSAS[k + 1] * SCALES[k]
    ensures EXPONENTS[k + 1] == EXPONENTS[k] + EXPONENTS[k] + SHIFTS[k]
  {
  }

  lemma PowersOfTwo(d: nat)
    requires d in {0, 24, 29, 30}
    ensures Pow(2, d) == match d
                         case 0 => 1
                         case 24 => 16_777_216
                         case 29 => 536_870_912
                         case _ => 1_073_741_824
  {
    if d > 0 {
      assert Pow(2, 10) == 1024 && Pow(2, 9) == 512 && Pow(2, 4) == 16;
      PowAdds(2, 10, 10);
      PowAdds(2, d - 20, 20);
    }
  }

  lemma ScaleIsPower(k: nat)
    requires k < 12
    ensures Pow(2, SHIFTS[k]) == SCALES[k]
  {
    PowersOfTwo(SHIFTS[k]);
  }

  lemma Multiplies(a: nat, b: nat, c: nat, d: nat)
    requires a <= b && c <= d
    ensures a * c <= b * d
  {
  }

  lemma Exchanged(m: nat, p: nat)
    ensures (m * p) * (m * p) == (m * m) * (p * p)
  {
    Regroup(m * p, m, p);
    assert m * p * m == m * m * p by {
      Regroup(m, p, m);
      Regroup(m, m, p);
      assert p * m == m * p;
    }
    Regroup(m * m, p, p);
  }

  lemma Square(x: nat, m: nat, p: nat, m': nat, scale: nat)
    requires x <= m * p && m * m <= m' * scale
    ensures x * x <= m' * (p * p * scale)
  {
    Multiplies(x, m * p, x, m * p);
    Exchanged(m, p);
    Multiplies(m * m, m' * scale, p * p, p * p);
    Regroup(m', scale, p * p);
    assert scale * (p * p) == p * p * scale;
  }

  lemma {:induction false} TenSquared(k: nat)
    requires k <= 12
    ensures Pow(10, Doubled(k)) <= MANTISSAS[k] * Pow(2, EXPONENTS[k])
  {
    if k > 0 {
      TenSquared(k - 1);
      MantissaSquares(k - 1);
      ScaleIsPower(k - 1);
      PowAdds(10, Doubled(k - 1), Doubled(k - 1));
      PowAdds(2, EXPONENTS[k - 1], EXPONENTS[k - 1]);
      PowAdds(2, EXPONENTS[k - 1] + EXPONENTS[k - 1], SHIFTS[k - 1]);
      Square(Pow(10, Doubled(k - 1)), MANTISSAS[k - 1], Pow(2, EXPONENTS[k - 1]), MANTISSAS[k], SCALES[k - 1]);
    }
  }

  /** With at most 4096 digits a number has at most 13607 bits. */
  lemma DigitsBoundBits(digits: nat, bits: nat)
    requires digits == MAX_INTEGER_DIGITS && bits == MAX_INTEGER_BITS
    ensures Pow(10, digits) <= Pow(2, bits)
  {
    var k := 12;
    TenSquared(k);
    DoubledTwelve();
    var e := EXPONENTS[k];
    PowersOfTwo(bits - e);
    PowAdds(2, bits - e, e);
    Multiplies(MANTISSAS[k], Pow(2, bits - e), Pow(2, e), Pow(2, e));
  }

  lemma DoubledTwelve()
    ensures Doubled(12) == 4096
  {
    assert Doubled(6) == 64;
    assert Doubled(9) == 512;
  }

  /** An integer is admitted exactly when it has at most 4096 decimal digits; the earlier test of its bits refuses
      nothing else. */
  lemma IntegerMeaning(n: int, digits: nat)
    requires digits == MAX_INTEGER_DIGITS
    ensures ScalarBytes(Int(n)).Some? <==> Magnitude(n) < Pow(10, digits)
  {
    var bits: nat := MAX_INTEGER_BITS;
    DigitsBoundBits(digits, bits);
    BitsBound(Magnitude(n), bits);
    DigitsBound(Magnitude(n), digits);
  }

  /** The text of an integer, with its sign. */
  function Rendered(n: int): string {
    if n < 0 then "-" + PointerPath.Decimal(-n) else PointerPath.Decimal(n)
  }

  // ---------------------------------------------------------------- what is charged

  /** The charge for an admitted scalar is the length of its JSON text without quotes, and 24 bytes for any number with
      a fraction. */
  lemma ScalarMeaning(v: Value)
    requires !v.Ref?
    ensures match v
            case Null => ScalarBytes(v) == Some(|"null"|)
            case True => ScalarBytes(v) == Some(|"true"|)
            case False => ScalarBytes(v) == Some(|"false"|)
            case Str(text) =>
              && (ScalarBytes(v).Some? <==> WellFormed(text))
              && (ScalarBytes(v).Some? ==>
                    ScalarBytes(v).value
                    == |text| + From(text, 0x80) + From(text, 0x800) + From(text, 0x1_0000))
            case Int(n) => ScalarBytes(v).Some? ==> ScalarBytes(v).value == |Rendered(n)|
            case Float(finite) => ScalarBytes(v) == if finite then Some(24) else None
            case Unsupported => ScalarBytes(v).None?
  {
    if v.Str? {
      EncodableMeaning(v.text);
      TextLength(v.text);
    }
  }

  /** Keys are admitted exactly when all are well-formed texts. */
  lemma {:induction false} KeysMeaning(keys: seq<Key>)
    ensures KeyBytes(keys).Some? <==> forall key | key in keys :: key.TextKey? && WellFormed(key.text)
  {
    if keys != [] {
      var n := |keys| - 1;
      KeysMeaning(keys[..n]);
      assert forall key :: key in keys <==> key in keys[..n] || key == keys[n];
      if keys[n].TextKey? {
        EncodableMeaning(keys[n].text);
      }
    }
  }
}
