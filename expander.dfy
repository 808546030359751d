/** The 8-bit word on the port expander's pins P0..P7 as the display sees it,
    and the bitwise operators the drivers apply to such words.

    Python integers are unbounded two's-complement values, so `v | m` and
    `v & ~m` for a single-bit mask `m` are written out arithmetically here;
    Dafny's `/` and `%` by a positive constant agree with Python's floor
    division and modulo, also for negative `v`. */
module Expander {

  /** Masks of a single bit of a byte, or zero. */
  predicate IsBitMask(m: int)
  {
    m == 0 || m == 1 || m == 2 || m == 4 || m == 8 || m == 16 || m == 32 || m == 64 || m == 128
  }

  /** Whether `v & m` is nonzero, for a single-bit mask `m`. */
  predicate TestBit(v: int, m: int)
    requires IsBitMask(m) && m > 0
  {
    if m == 1 then v % 2 == 1
    else if m == 2 then (v / 2) % 2 == 1
    else if m == 4 then (v / 4) % 2 == 1
    else if m == 8 then (v / 8) % 2 == 1
    else if m == 16 then (v / 16) % 2 == 1
    else if m == 32 then (v / 32) % 2 == 1
    else if m == 64 then (v / 64) % 2 == 1
    else (v / 128) % 2 == 1
  }

  /** Python's `v | m` for a single-bit mask `m` (or `m == 0`). */
  function Or(v: int, m: int): int
    requires IsBitMask(m)
  {
    if m == 0 || TestBit(v, m) then v else v + m
  }

  /** Python's `v & ~m` for a single-bit mask `m`. */
  function AndNot(v: int, m: int): int
    requires IsBitMask(m) && m > 0
  {
    if TestBit(v, m) then v - m else v
  }

  /** Python's `int(b)` for a boolean flag, as in `self.backlight << 3`. */
  function BoolBit(b: bool): int
  {
    if b then 1 else 0
  }

  /** The word with data nibble `nibble` on P4..P7, the backlight on P3,
      the enable strobe on P2, read/write held low on P1 and
      register-select on P0. */
  function Word(nibble: int, backlight: bool, enable: bool, rs: bool): int
  {
    nibble * 16 + (if backlight then 8 else 0) + (if enable then 4 else 0) + (if rs then 1 else 0)
  }

  predicate HasRs(b: int) { b % 2 == 1 }
  predicate HasRw(b: int) { (b / 2) % 2 == 1 }
  predicate HasEnable(b: int) { (b / 4) % 2 == 1 }
  predicate HasBacklight(b: int) { (b / 8) % 2 == 1 }
  function DataNibble(b: int): int { (b / 16) % 16 }

  /** Each field of a word reads back as it was laid out, and the word is a byte. */
  lemma WordFields(nibble: int, backlight: bool, enable: bool, rs: bool)
    requires 0 <= nibble < 16
    ensures var b := Word(nibble, backlight, enable, rs);
      0 <= b < 256 && DataNibble(b) == nibble && b / 16 == nibble &&
      (HasBacklight(b) <==> backlight) && (HasEnable(b) <==> enable) &&
      !HasRw(b) && (HasRs(b) <==> rs)
  {
    var low := LowBits(backlight, enable, rs);
    LowBitsLayout(backlight, enable, rs);
    WordDivisions(nibble, low);
    assert Word(nibble, backlight, enable, rs) == nibble * 16 + low;
    Parity(nibble, low / 8);
    Parity(2 * nibble + low / 8, (low % 8) / 4);
    Parity(4 * nibble + low / 4, (low % 4) / 2);
    Parity(8 * nibble + low / 2, low % 2);
  }

  /** The lower half of a word: backlight, enable, read/write low, register-select. */
  function LowBits(backlight: bool, enable: bool, rs: bool): int
  {
    (if backlight then 8 else 0) + (if enable then 4 else 0) + (if rs then 1 else 0)
  }

  lemma LowBitsLayout(backlight: bool, enable: bool, rs: bool)
    ensures var low := LowBits(backlight, enable, rs);
      0 <= low < 16 && low / 8 == BoolBit(backlight) && (low % 8) / 4 == BoolBit(enable) &&
      (low % 4) / 2 == 0 && low % 2 == BoolBit(rs) &&
      low / 4 == 2 * (low / 8) + (low % 8) / 4 && low / 2 == 2 * (low / 4) + (low % 4) / 2
  {
  }

  /** Shifting a word right by 4, 3, 2 and 1 bits, each step as twice the
      next coarser shift plus one bit of the lower half. */
  lemma WordDivisions(nibble: int, low: int)
    requires 0 <= nibble < 16 && 0 <= low < 16
    ensures var b := nibble * 16 + low;
      0 <= b < 256 && b / 16 == nibble &&
      b / 8 == 2 * nibble + low / 8 &&
      b / 4 == 2 * (2 * nibble + low / 8) + (low % 8) / 4 &&
      b / 2 == 2 * (4 * nibble + low / 4) + (low % 4) / 2 &&
      b == 2 * (8 * nibble + low / 2) + low % 2
  {
  }

  lemma Parity(k: int, x: int)
    requires 0 <= x < 2
    ensures (2 * k + x) % 2 == x
  {
  }

  /** `(nibble << 4) | (backlight << 3)` is the word with that nibble and
      backlight and every control line low. */
  lemma OrBacklight(nibble: int, backlight: bool)
    requires 0 <= nibble < 16
    ensures Or(nibble * 16, BoolBit(backlight) * 8) == Word(nibble, backlight, false, false)
  {
    WordFields(nibble, false, false, false);
  }

  /** Setting RS, or raising or lowering E, on a word changes just that field. */
  lemma OrFields(nibble: int, backlight: bool, enable: bool, rs: bool)
    requires 0 <= nibble < 16
    ensures Or(Word(nibble, backlight, enable, false), 1) == Word(nibble, backlight, enable, true)
    ensures Or(Word(nibble, backlight, false, rs), 4) == Word(nibble, backlight, true, rs)
    ensures Or(Word(nibble, backlight, true, rs), 4) == Word(nibble, backlight, true, rs)
    ensures AndNot(Word(nibble, backlight, true, rs), 4) == Word(nibble, backlight, false, rs)
    ensures AndNot(Word(nibble, backlight, false, rs), 4) == Word(nibble, backlight, false, rs)
  {
    WordFields(nibble, backlight, enable, false);
    WordFields(nibble, backlight, false, rs);
    WordFields(nibble, backlight, true, rs);
  }

  /** The two nibbles of `v` put back together give its low byte:
      `((v >> 4) & 0xF) << 4 | (v & 0xF) == v & 0xFF`. */
  lemma NibbleSplit(v: int)
    ensures ((v / 16) % 16) * 16 + v % 16 == v % 256
  {
    var a, r := v / 256, v % 256;
    assert v == 256 * a + r && 0 <= r < 256;
    assert v / 16 == 16 * a + r / 16 by {
      assert v == 16 * (16 * a + r / 16) + r % 16;
    }
    assert (v / 16) % 16 == r / 16;
    assert v % 16 == r % 16 by {
      assert v == 16 * (16 * a + r / 16) + r % 16;
    }
  }
}
