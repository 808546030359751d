/** `LcdApi`'s own transport: `hal_write_byte` sends each half of a byte as a
    word followed by an enable pulse, `hal_pulse_enable`. */
module LcdApiHal {
  import opened Expander

  const EnableBit := 0x04

  /** The two words `hal_pulse_enable(data)` writes. */
  function PulseEnableBytes(data: int): seq<int>
  {
    [Or(data, EnableBit), AndNot(data, EnableBit)]
  }

  /** `data` with the enable bit raised, then with it cleared; every other
      bit is left as it is. */
  lemma PulseEnableLayout(data: int)
    ensures var r := PulseEnableBytes(data);
      |r| == 2 && HasEnable(r[0]) && !HasEnable(r[1]) &&
      r[0] - data == (if HasEnable(data) then 0 else 4) &&
      data - r[1] == (if HasEnable(data) then 4 else 0)
  {
  }

  /** The word `hal_write_byte` builds for one nibble, before its pulse:
      `(nibble << 4) | rs | (backlight << 3)`. */
  function NibbleWord(shifted: int, rs: int, backlight: bool): int
    requires rs == 0 || rs == 1
  {
    Or(Or(shifted, rs), BoolBit(backlight) * 8)
  }

  /** The six words `hal_write_byte(rs, data)` writes. */
  function WriteByteBytes(rs: int, backlight: bool, data: int): seq<int>
    requires rs == 0 || rs == 1
  {
    // (data & 0xF0) | (rs << 0) | (backlight << 3)
    var high := NibbleWord((data / 16 % 16) * 16, rs, backlight);
    // ((data << 4) & 0xF0) | (rs << 0) | (backlight << 3)
    var low := NibbleWord((data * 16) % 256, rs, backlight);
    [high] + PulseEnableBytes(high) + [low] + PulseEnableBytes(low)
  }

  /** For the high nibble and then the low nibble of `data`, the word with
      enable low, high, low. RS is `rs`, the backlight bit is `backlight`,
      read/write stays low. */
  lemma WriteByteLayout(rs: int, backlight: bool, data: int)
    requires rs == 0 || rs == 1
    ensures var hi := (data / 16) % 16; var lo := data % 16;
      WriteByteBytes(rs, backlight, data) ==
        [Word(hi, backlight, false, rs == 1), Word(hi, backlight, true, rs == 1), Word(hi, backlight, false, rs == 1),
         Word(lo, backlight, false, rs == 1), Word(lo, backlight, true, rs == 1), Word(lo, backlight, false, rs == 1)]
  {
    var hi, lo := (data / 16) % 16, data % 16;
    assert (data / 16 % 16) * 16 == hi * 16;
    assert (data * 16) % 256 == lo * 16;
    NibbleWordLayout(hi, rs == 1, backlight);
    NibbleWordLayout(lo, rs == 1, backlight);
    OrFields(hi, backlight, false, rs == 1);
    OrFields(lo, backlight, false, rs == 1);
  }

  /** `(nibble << 4) | rs | (backlight << 3)` is the word with those fields and E low. */
  lemma NibbleWordLayout(nibble: int, rs: bool, backlight: bool)
    requires 0 <= nibble < 16
    ensures NibbleWord(nibble * 16, BoolBit(rs), backlight) == Word(nibble, backlight, false, rs)
  {
  }
}
