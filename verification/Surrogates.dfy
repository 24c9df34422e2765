/** The UTF-16 code units that come in pairs. */
module Surrogates {
  predicate IsHigh(u: nat) { 0xD800 <= u < 0xDC00 }
  predicate IsLow(u: nat) { 0xDC00 <= u < 0xE000 }
  predicate IsSurrogate(u: nat) { IsHigh(u) || IsLow(u) }

  /** The scalar value that a pair stands for. */
  function PairValue(high: nat, low: nat): (c: nat)
    requires IsHigh(high) && IsLow(low)
    ensures 0x1_0000 <= c < 0x11_0000
  {
    0x1_0000 + (high - 0xD800) * 0x400 + (low - 0xDC00)
  }
}
