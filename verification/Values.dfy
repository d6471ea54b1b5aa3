/**
  Values of the register machine (src/value.rs, src/object.rs) and the exact
  comparison of floats, as binary64 patterns, with each other and with integers.
 */
module Values {
  import opened MachineWords

  datatype ObjectRef = ObjectRef(heapId: nat, slot: nat, generation: nat)

  datatype Value =
    | SmallInt(i: int)
    | Float(bits: nat)
    | Bool(b: bool)
    | NoneValue
    | Object(reference: ObjectRef)
    | Uninitialized

  predicate IsZero(bits: nat) {
    bits % TWO_63 == 0
  }

  // Equality of binary64 numbers: NaN differs from everything, the two zeros agree.
  predicate FloatEqual(a: nat, b: nat) {
    !IsNaN(a) && !IsNaN(b) && (a == b || (IsZero(a) && IsZero(b)))
  }

  function Pow2(n: nat): nat {
    if n == 0 then 1 else 2 * Pow2(n - 1)
  }

  // Whether a finite float is the given integer, exactly: its magnitude is
  // `significand * 2^(exponent - 1075)`.
  predicate IntegerFloatEqual(integer: int, bits: nat) {
    && Exponent(bits) != 0x7FF
    && var exponent := if Exponent(bits) == 0 then 1 else Exponent(bits);
       var significand := if Exponent(bits) == 0 then Fraction(bits) else TWO_52 + Fraction(bits);
       var signed := if (bits / TWO_63) % 2 == 1 then 0 - significand else significand;
       if exponent >= 1075 then integer == signed * Pow2(exponent - 1075)
       else signed == integer * Pow2(1075 - exponent)
  }
}
