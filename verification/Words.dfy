/** Machine words as numbers. Facts about bit vectors are kept apart from the arithmetic that uses them. */
module Words {

  lemma Join16(hi: bv8, lo: bv8)
    ensures (((hi as bv16) << 8) | (lo as bv16)) as nat == 0x100 * (hi as nat) + lo as nat
  {
  }

  lemma Join32(hi: bv16, lo: bv16)
    ensures (((hi as bv32) << 16) | (lo as bv32)) as nat == 0x1_0000 * (hi as nat) + lo as nat
  {
  }

  lemma Join64(hi: bv32, lo: bv32)
    ensures (((hi as bv64) << 32) | (lo as bv64)) as nat == 0x1_0000_0000 * (hi as nat) + lo as nat
  {
  }

  function Value64(w: bv64): nat {
    w as nat
  }

  function HighValue(w: bv64): nat {
    (w >> 32) as nat
  }

  function LowValue(w: bv64): nat {
    (w & 0xFFFF_FFFF) as nat
  }

  lemma JoinParts(hi: bv32, lo: bv32)
    ensures Value64(((hi as bv64) << 32) | (lo as bv64)) == 0x1_0000_0000 * (hi as nat) + lo as nat
    ensures HighValue(((hi as bv64) << 32) | (lo as bv64)) == hi as nat
    ensures LowValue(((hi as bv64) << 32) | (lo as bv64)) == lo as nat
  {
  }

  lemma Split64(w: bv64) returns (hi: bv32, lo: bv32)
    ensures w == ((hi as bv64) << 32) | (lo as bv64)
  {
    hi, lo := (w >> 32) as bv32, (w & 0xFFFF_FFFF) as bv32;
  }

  /** What the shift and the mask yield of a 64-bit word. */
  lemma HighAndLow(w: bv64)
    ensures Value64(w) == 0x1_0000_0000 * HighValue(w) + LowValue(w)
    ensures HighValue(w) < 0x1_0000_0000 && LowValue(w) < 0x1_0000_0000
  {
    hide Value64, HighValue, LowValue;
    var hi, lo := Split64(w);
    JoinParts(hi, lo);
  }

  // Adding one to a word, half by half: there is a carry exactly if the lower half is full.

  function Value8(w: bv8): nat {
    w as nat
  }

  function Next8(w: bv8): bv8 {
    w + 1
  }

  function Value16(w: bv16): nat {
    w as nat
  }

  function Next16(w: bv16): bv16 {
    w + 1
  }

  function Value32(w: bv32): nat {
    w as nat
  }

  function Next32(w: bv32): bv32 {
    w + 1
  }

  lemma NextValue8(w: bv8)
    ensures Value8(Next8(w)) == if w == 0xFF then 0 else Value8(w) + 1
    ensures Value8(w) < 0x100 && (w == 0xFF <==> Value8(w) == 0xFF)
  {
  }

  lemma Zero8()
    ensures Value8(0) == 0
  {
  }

  /** hi and lo are the halves of a word. */
  predicate Halves16(w: bv16, hi: bv8, lo: bv8) {
    w == ((hi as bv16) << 8) | (lo as bv16)
  }

  lemma HalvesValue16(w: bv16, hi: bv8, lo: bv8)
    requires Halves16(w, hi, lo)
    ensures Value16(w) == 0x100 * Value8(hi) + Value8(lo)
  {
    Join16(hi, lo);
  }

  lemma SplitBits16(w: bv16)
    ensures w == ((((w >> 8) as bv8) as bv16) << 8) | (((w & 0xFF) as bv8) as bv16)
  {
  }

  lemma Split16(w: bv16) returns (hi: bv8, lo: bv8)
    ensures Halves16(w, hi, lo)
  {
    SplitBits16(w);
    hi, lo := (w >> 8) as bv8, (w & 0xFF) as bv8;
  }

  lemma CarryBits16(w: bv16, hi: bv8)
    requires w == ((hi as bv16) << 8) | ((0xFF as bv8) as bv16)
    ensures w + 1 == ((hi + 1) as bv16) << 8
  {
  }

  lemma NoCarryBits16(hi: bv8, lo: bv8)
    requires lo != 0xFF
    ensures (((hi as bv16) << 8) | (lo as bv16)) + 1 == ((hi as bv16) << 8) | ((lo + 1) as bv16)
  {
  }

  lemma CarryTo16(w: bv16, hi: bv8, next: bv8)
    requires Halves16(w, hi, 0xFF) && next == hi + 1
    ensures Halves16(w + 1, next, 0)
  {
    CarryBits16(w, hi);
  }

  lemma Carry16(w: bv16, hi: bv8)
    requires Halves16(w, hi, 0xFF)
    ensures Halves16(Next16(w), Next8(hi), 0)
  {
    hide Halves16;
    CarryTo16(w, hi, hi + 1);
  }

  lemma NoCarry16(w: bv16, hi: bv8, lo: bv8)
    requires Halves16(w, hi, lo) && lo != 0xFF
    ensures Halves16(Next16(w), hi, Next8(lo))
  {
    NoCarryBits16(hi, lo);
  }

  lemma Full16(w: bv16)
    ensures w == 0xFFFF <==> Value16(w) == 0xFFFF
  {
  }

  lemma NextValue16(w: bv16)
    ensures Value16(Next16(w)) == if w == 0xFFFF then 0 else Value16(w) + 1
    ensures Value16(w) < 0x1_0000 && (w == 0xFFFF <==> Value16(w) == 0xFFFF)
  {
    hide Value8, Value16, Next8, Next16, Halves16;
    var hi, lo := Split16(w);
    HalvesValue16(w, hi, lo);
    NextValue8(hi);
    NextValue8(lo);
    if lo == 0xFF {
      Carry16(w, hi);
      HalvesValue16(Next16(w), Next8(hi), 0);
      Zero8();
    } else {
      NoCarry16(w, hi, lo);
      HalvesValue16(Next16(w), hi, Next8(lo));
    }
    Full16(w);
  }

  lemma Zero16()
    ensures Value16(0) == 0
  {
  }

  /** hi and lo are the halves of a word. */
  predicate Halves32(w: bv32, hi: bv16, lo: bv16) {
    w == ((hi as bv32) << 16) | (lo as bv32)
  }

  lemma HalvesValue32(w: bv32, hi: bv16, lo: bv16)
    requires Halves32(w, hi, lo)
    ensures Value32(w) == 0x1_0000 * Value16(hi) + Value16(lo)
  {
    Join32(hi, lo);
  }

  lemma SplitBits32(w: bv32)
    ensures w == ((((w >> 16) as bv16) as bv32) << 16) | (((w & 0xFFFF) as bv16) as bv32)
  {
  }

  lemma Split32(w: bv32) returns (hi: bv16, lo: bv16)
    ensures Halves32(w, hi, lo)
  {
    SplitBits32(w);
    hi, lo := (w >> 16) as bv16, (w & 0xFFFF) as bv16;
  }

  lemma CarryBits32(w: bv32, hi: bv16)
    requires w == ((hi as bv32) << 16) | ((0xFFFF as bv16) as bv32)
    ensures w + 1 == ((hi + 1) as bv32) << 16
  {
  }

  lemma NoCarryBits32(hi: bv16, lo: bv16)
    requires lo != 0xFFFF
    ensures (((hi as bv32) << 16) | (lo as bv32)) + 1 == ((hi as bv32) << 16) | ((lo + 1) as bv32)
  {
  }

  lemma CarryTo32(w: bv32, hi: bv16, next: bv16)
    requires Halves32(w, hi, 0xFFFF) && next == hi + 1
    ensures Halves32(w + 1, next, 0)
  {
    CarryBits32(w, hi);
  }

  lemma Carry32(w: bv32, hi: bv16)
    requires Halves32(w, hi, 0xFFFF)
    ensures Halves32(Next32(w), Next16(hi), 0)
  {
    hide Halves32;
    CarryTo32(w, hi, hi + 1);
  }

  lemma NoCarry32(w: bv32, hi: bv16, lo: bv16)
    requires Halves32(w, hi, lo) && lo != 0xFFFF
    ensures Halves32(Next32(w), hi, Next16(lo))
  {
    NoCarryBits32(hi, lo);
  }

  /** Adding one to a 32-bit word wraps around at 2^32. */
  lemma NextValue32(w: bv32)
    ensures Value32(Next32(w)) == if Value32(w) == 0xFFFF_FFFF then 0 else Value32(w) + 1
    ensures Value32(w) < 0x1_0000_0000
  {
    hide Value16, Value32, Next16, Next32, Halves32;
    var hi, lo := Split32(w);
    HalvesValue32(w, hi, lo);
    NextValue16(hi);
    NextValue16(lo);
    if lo == 0xFFFF {
      Carry32(w, hi);
      HalvesValue32(Next32(w), Next16(hi), 0);
      Zero16();
    } else {
      NoCarry32(w, hi, lo);
      HalvesValue32(Next32(w), hi, Next16(lo));
    }
  }
}
