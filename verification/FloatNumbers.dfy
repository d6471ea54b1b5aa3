/**
  What binary64 patterns are as numbers (section 3.4 of IEEE 754-2019), in units of the
  smallest subnormal, and that the comparisons of `Values` compare these numbers.
 */
module FloatNumbers {
  import opened MachineWords
  import opened Values

  predicate Finite(bits: nat) {
    Exponent(bits) != 0x7FF
  }

  // The number of a finite pattern, counted in units of 2^-1074, without its sign.
  function Magnitude(bits: nat): nat {
    if Exponent(bits) == 0 then Fraction(bits) else (TWO_52 + Fraction(bits)) * Pow2(Exponent(bits) - 1)
  }

  function Scaled(bits: nat): int {
    if (bits / TWO_63) % 2 == 1 then 0 - Magnitude(bits) else Magnitude(bits)
  }

  // ------------------------------------------------------------------ powers of two

  lemma {:induction false} Pow2Add(a: nat, b: nat)
    ensures Pow2(a + b) == Pow2(a) * Pow2(b)
  {
    if a > 0 {
      Pow2Add(a - 1, b);
      assert Pow2(a + b) == 2 * Pow2(a - 1 + b);
      assert 2 * (Pow2(a - 1) * Pow2(b)) == (2 * Pow2(a - 1)) * Pow2(b);
    }
  }

  lemma {:induction false} Pow2Positive(n: nat)
    ensures Pow2(n) >= 1
  {
    if n > 0 {
      Pow2Positive(n - 1);
    }
  }

  lemma Pow2Of52()
    ensures Pow2(52) == TWO_52
  {
    assert Pow2(13) == 0x2000;
    Pow2Add(13, 13);
    Pow2Add(26, 26);
    assert Pow2(26) == 0x400_0000;
  }

  lemma Cancel(a: int, b: int, p: nat)
    requires p >= 1
    ensures a * p == b * p <==> a == b
  {
    if a < b {
      assert b * p == a * p + (b - a) * p;
      Grows(b - a, p);
    } else if a > b {
      assert a * p == b * p + (a - b) * p;
      Grows(a - b, p);
    }
  }

  lemma Grows(a: nat, p: nat)
    requires a >= 1 && p >= 1
    ensures a * p >= p
  {
    assert a * p == p + (a - 1) * p;
  }

  // ------------------------------------------------------- an integer and a float

  // An integer equals a float exactly when the float is finite and is that number.
  lemma IntegerFloatExact(i: int, bits: nat)
    ensures IntegerFloatEqual(i, bits) <==> Finite(bits) && i * Pow2(1074) == Scaled(bits)
  {
    if Finite(bits) {
      var exponent := if Exponent(bits) == 0 then 1 else Exponent(bits);
      var significand := if Exponent(bits) == 0 then Fraction(bits) else TWO_52 + Fraction(bits);
      var signed := if (bits / TWO_63) % 2 == 1 then 0 - significand else significand;
      assert Pow2(0) == 1;
      assert Magnitude(bits) == significand * Pow2(exponent - 1);
      assert Scaled(bits) == signed * Pow2(exponent - 1) by {
        NegatedProduct(significand, Pow2(exponent - 1));
      }
      if exponent >= 1075 {
        Pow2Add(exponent - 1075, 1074);
        assert signed * Pow2(exponent - 1) == (signed * Pow2(exponent - 1075)) * Pow2(1074) by {
          Regroup(signed, Pow2(exponent - 1075), Pow2(1074));
        }
        Pow2Positive(1074);
        Cancel(i, signed * Pow2(exponent - 1075), Pow2(1074));
      } else {
        Pow2Add(1075 - exponent, exponent - 1);
        assert i * Pow2(1074) == (i * Pow2(1075 - exponent)) * Pow2(exponent - 1) by {
          Regroup(i, Pow2(1075 - exponent), Pow2(exponent - 1));
        }
        Pow2Positive(exponent - 1);
        Cancel(i * Pow2(1075 - exponent), signed, Pow2(exponent - 1));
      }
    }
  }

  lemma NegatedProduct(a: int, b: int)
    ensures (0 - a) * b == 0 - a * b
  {
  }

  lemma Regroup(a: int, b: int, c: int)
    ensures a * (b * c) == (a * b) * c
  {
  }

  // The binary logarithm, rounded down.
  function Log2(m: nat): nat
    requires m >= 1
  {
    if m == 1 then 0 else 1 + Log2(m / 2)
  }

  lemma {:induction false} Log2Bounds(m: nat)
    requires m >= 1
    ensures Pow2(Log2(m)) <= m < 2 * Pow2(Log2(m))
  {
    if m > 1 {
      Log2Bounds(m / 2);
    }
  }

  lemma {:induction false} Pow2Monotone(a: nat, b: nat)
    requires a <= b
    ensures Pow2(a) <= Pow2(b)
  {
    if a < b {
      Pow2Monotone(a, b - 1);
      Pow2Positive(b - 1);
    }
  }

  function Shifted(m: nat, k: nat): nat {
    m * Pow2(k)
  }

  // The pattern of an integer of at most 53 bits.
  function PatternOf(i: int): nat
    requires -0x20_0000_0000_0000 < i < 0x20_0000_0000_0000
  {
    if i == 0 then 0
    else
      var m := if i < 0 then 0 - i else i;
      var e := Log2(m);
      Log2Bounds(m);
      Log2Small(m);
      (if i < 0 then TWO_63 else 0) + (e + 1023) * TWO_52 + Shifted(m - Pow2(e), 52 - e)
  }

  lemma Log2Small(m: nat)
    requires 1 <= m < 0x20_0000_0000_0000
    ensures Log2(m) <= 52
  {
    Log2Bounds(m);
    Pow2Of52();
    Pow2Add(52, 1);
    assert Pow2(1) == 2;
    if Log2(m) > 52 {
      Pow2Monotone(53, Log2(m));
    }
  }

  // The leading bit of a number is the hidden one, the others are the fraction.
  lemma FractionBits(m: nat, e: nat)
    requires e <= 52 && Pow2(e) <= m < 2 * Pow2(e)
    ensures Shifted(m, 52 - e) == TWO_52 + Shifted(m - Pow2(e), 52 - e)
    ensures Shifted(m - Pow2(e), 52 - e) < TWO_52
  {
    var p, q := Pow2(e), Pow2(52 - e);
    Pow2Add(e, 52 - e);
    Pow2Of52();
    Pow2Positive(52 - e);
    assert p * q == TWO_52;
    Distribute(m - p, p, q);
    Distribute(2 * p - m, m - p, q);
    Grows(2 * p - m, q);
  }

  lemma Distribute(a: int, b: int, c: int)
    ensures (a + b) * c == a * c + b * c
  {
  }

  lemma PatternParts(i: int)
    requires -0x20_0000_0000_0000 < i < 0x20_0000_0000_0000 && i != 0
    ensures var m := if i < 0 then 0 - i else i;
      var e, bits := Log2(m), PatternOf(i);
      && e <= 52 && Exponent(bits) == e + 1023 && TWO_52 + Fraction(bits) == Shifted(m, 52 - e)
      && ((bits / TWO_63) % 2 == 1 <==> i < 0) && bits < TWO_64
  {
    var m := if i < 0 then 0 - i else i;
    var e := Log2(m);
    Log2Small(m);
    Log2Bounds(m);
    FractionBits(m, e);
    FieldsOf(if i < 0 then 1 else 0, e + 1023, Shifted(m - Pow2(e), 52 - e));
  }

  // Sign, exponent and fraction put together and taken apart.
  lemma FieldsOf(s: nat, e: nat, f: nat)
    requires s <= 1 && e < 0x800 && f < TWO_52
    ensures var bits := s * TWO_63 + e * TWO_52 + f;
      Exponent(bits) == e && Fraction(bits) == f && (bits / TWO_63) % 2 == s && bits < TWO_64
  {
    var bits := s * TWO_63 + e * TWO_52 + f;
    assert bits / TWO_52 == s * 0x800 + e;
  }

  // A pattern with these parts is this integer.
  lemma PartsAreInteger(j: int, bits: nat, m: nat, e: nat)
    requires e <= 52 && Exponent(bits) == e + 1023 && TWO_52 + Fraction(bits) == Shifted(m, 52 - e)
    ensures IntegerFloatEqual(j, bits) <==> j == if (bits / TWO_63) % 2 == 1 then 0 - m else m
  {
    hide Exponent, Fraction;
    assert Pow2(0) == 1;
    var p := Pow2(52 - e);
    Pow2Positive(52 - e);
    Cancel(j, m, p);
    Cancel(j, 0 - m, p);
    NegatedProduct(m, p);
  }

  lemma ZeroPattern(j: int)
    ensures IntegerFloatEqual(j, 0) <==> j == 0
  {
    assert IntegerFloatEqual(j, 0) <==> 0 == j * Pow2(1074);
    Pow2Positive(1074);
    Cancel(j, 0, Pow2(1074));
  }

  // The pattern of an integer is that integer, and no other integer equals it.
  lemma PatternIsInteger(i: int, j: int)
    requires -0x20_0000_0000_0000 < i < 0x20_0000_0000_0000
    ensures IntegerFloatEqual(j, PatternOf(i)) <==> j == i
  {
    hide IntegerFloatEqual, Exponent, Fraction, Log2, Shifted;
    if i == 0 {
      ZeroPattern(j);
    } else {
      PatternParts(i);
      var m := if i < 0 then 0 - i else i;
      PartsAreInteger(j, PatternOf(i), m, Log2(m));
    }
  }

  // -------------------------------------------------------------------- two floats

  // A larger pattern is a larger number: the next one is larger.
  lemma NextIsLarger(bits: nat)
    requires bits + 1 < 0x7FF * TWO_52
    ensures Magnitude(bits) < Magnitude(bits + 1)
  {
    var e, f := bits / TWO_52, bits % TWO_52;
    FieldsOf(0, e, f);
    assert bits == e * TWO_52 + f;
    if f + 1 < TWO_52 {
      FieldsOf(0, e, f + 1);
      if e > 0 {
        Pow2Positive(e - 1);
        assert (TWO_52 + f + 1) * Pow2(e - 1) == (TWO_52 + f) * Pow2(e - 1) + Pow2(e - 1);
      }
    } else {
      FieldsOf(0, e + 1, 0);
      assert bits + 1 == (e + 1) * TWO_52;
      if e > 0 {
        Pow2Positive(e - 1);
        assert TWO_52 * Pow2(e) == (2 * TWO_52) * Pow2(e - 1);
        assert (2 * TWO_52) * Pow2(e - 1) == (TWO_52 + f) * Pow2(e - 1) + Pow2(e - 1);
      } else {
        assert Pow2(0) == 1;
      }
    }
  }

  lemma {:induction false} LargerIsLarger(a: nat, b: nat)
    requires a < b < 0x7FF * TWO_52
    ensures Magnitude(a) < Magnitude(b)
    decreases b - a
  {
    NextIsLarger(b - 1);
    if a < b - 1 {
      LargerIsLarger(a, b - 1);
    }
  }

  // The sign does not matter for the magnitude.
  lemma Unsigned(bits: nat)
    requires bits < TWO_64
    ensures Magnitude(bits) == Magnitude(bits % TWO_63) && Finite(bits) == Finite(bits % TWO_63)
    ensures Finite(bits) <==> bits % TWO_63 < 0x7FF * TWO_52
    ensures IsNaN(bits) <==> bits % TWO_63 > 0x7FF * TWO_52
  {
    var low := bits % TWO_63;
    var e, f := low / TWO_52, low % TWO_52;
    FieldsOf(0, e, f);
    FieldsOf(bits / TWO_63, e, f);
    assert bits == (bits / TWO_63) * TWO_63 + e * TWO_52 + f;
    assert low == e * TWO_52 + f;
  }

  lemma SameMagnitude(x: nat, y: nat)
    requires x < 0x7FF * TWO_52 && y < 0x7FF * TWO_52
    ensures Magnitude(x) == Magnitude(y) <==> x == y
    ensures Magnitude(x) == 0 <==> x == 0
  {
    MagnitudeOfZero();
    hide Magnitude;
    if x < y {
      LargerIsLarger(x, y);
    } else if y < x {
      LargerIsLarger(y, x);
    }
    if x > 0 {
      LargerIsLarger(0, x);
    }
  }

  lemma MagnitudeOfZero()
    ensures Magnitude(0) == 0
  {
  }

  // Equal patterns, or both zeros: by the sign bit and the rest.
  lemma FloatEqualParts(a: nat, b: nat)
    requires a < TWO_64 && b < TWO_64
    ensures FloatEqual(a, b) <==>
      && !IsNaN(a) && !IsNaN(b) && a % TWO_63 == b % TWO_63
      && (a / TWO_63 == b / TWO_63 || a % TWO_63 == 0)
  {
    hide IsNaN;
    assert a == (a / TWO_63) * TWO_63 + a % TWO_63 && b == (b / TWO_63) * TWO_63 + b % TWO_63;
    assert a / TWO_63 <= 1 && b / TWO_63 <= 1;
  }

  // The number of a finite pattern by the sign bit and the rest.
  lemma ScaledParts(a: nat)
    requires a < TWO_64
    ensures Scaled(a) == if a / TWO_63 == 1 then 0 - Magnitude(a) else Magnitude(a)
  {
    hide Magnitude;
    assert a / TWO_63 <= 1;
  }

  lemma SameScaled(a: nat, b: nat)
    requires a < TWO_64 && b < TWO_64 && Finite(a) && Finite(b)
    ensures Scaled(a) == Scaled(b) <==> a % TWO_63 == b % TWO_63 && (a / TWO_63 == b / TWO_63 || a % TWO_63 == 0)
  {
    Unsigned(a);
    Unsigned(b);
    ScaledParts(a);
    ScaledParts(b);
    SameMagnitude(a % TWO_63, b % TWO_63);
    SameMagnitude(b % TWO_63, a % TWO_63);
    hide Magnitude, Exponent, Fraction, Pow2, Finite, Scaled;
    assert a / TWO_63 <= 1 && b / TWO_63 <= 1;
  }

  // Finite floats are equal exactly when they are the same number; otherwise they are
  // equal exactly when they are the same pattern and no NaN.
  lemma FloatEqualExact(a: nat, b: nat)
    requires a < TWO_64 && b < TWO_64
    ensures Finite(a) && Finite(b) ==> (FloatEqual(a, b) <==> Scaled(a) == Scaled(b))
    ensures !Finite(a) || !Finite(b) ==> (FloatEqual(a, b) <==> a == b && !IsNaN(a))
  {
    FloatEqualParts(a, b);
    Unsigned(a);
    Unsigned(b);
    NotFinite(a);
    NotFinite(b);
    if Finite(a) && Finite(b) {
      SameScaled(a, b);
    } else {
      hide Finite, IsNaN, Magnitude, Scaled, FloatEqual;
      assert a == (a / TWO_63) * TWO_63 + a % TWO_63 && b == (b / TWO_63) * TWO_63 + b % TWO_63;
    }
  }

  lemma NotFinite(a: nat)
    ensures IsNaN(a) ==> !Finite(a)
  {
  }
}
