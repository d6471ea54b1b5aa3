/**
  Machine words as numbers: widths, and binary64 patterns (section 3.4 of IEEE 754-2019).
 */
module MachineWords {

  const TWO_32: nat := 0x1_0000_0000
  const TWO_52: nat := 0x10_0000_0000_0000
  const TWO_63: nat := 0x8000_0000_0000_0000
  const TWO_64: nat := 0x1_0000_0000_0000_0000
  const USIZE_MAX: nat := TWO_64 - 1

  function Exponent(bits: nat): nat {
    (bits / TWO_52) % 0x800
  }

  function Fraction(bits: nat): nat {
    bits % TWO_52
  }

  // All exponent bits set and some fraction bit set.
  predicate IsNaN(bits: nat) {
    Exponent(bits) == 0x7FF && Fraction(bits) != 0
  }
}
