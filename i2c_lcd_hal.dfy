/** `I2cLcd`'s transport: the PCF8574 pin map and the words its `hal_*`
    overrides put on the bus. */
module I2cLcdHal {
  import opened Expander

  const MaskRs := 0x01
  const MaskE := 0x04

  /** `(value >> 4) & 0x0F` and `value & 0x0F`: the two nibbles of a byte. */
  function HighNibble(value: int): int { (value / 16) % 16 }
  function LowNibble(value: int): int { value % 16 }

  /** The four words of one transfer of `value` with the given RS: high
      nibble with E, without E, then low nibble with E, without E, all with
      the backlight bit of `backlight`. */
  function Transfer(rs: bool, backlight: bool, value: int): seq<int>
  {
    [Word(HighNibble(value), backlight, true, rs), Word(HighNibble(value), backlight, false, rs),
     Word(LowNibble(value), backlight, true, rs), Word(LowNibble(value), backlight, false, rs)]
  }

  // `(backlight << SHIFT_BACKLIGHT) | (nibble << SHIFT_DATA)` is written with
  // the single-bit operand second; `|` is commutative. With SHIFT_BACKLIGHT 3
  // and SHIFT_DATA 4 the shifts are `* 8` and `* 16`; MASK_RW (P1) is never
  // set, which `Expander.WordFields` states as `!HasRw`.

  /** The word `hal_write_command` builds for one nibble. */
  function CommandWord(nibble: int, backlight: bool): int
  {
    Or(nibble * 16, BoolBit(backlight) * 8)
  }

  /** The word `hal_write_data` builds for one nibble: the command word with
      `MASK_RS`. */
  function DataWord(nibble: int, backlight: bool): int
  {
    Or(CommandWord(nibble, backlight), MaskRs)
  }

  /** `hal_write_command(cmd)`. */
  function CommandBytes(backlight: bool, cmd: int): seq<int>
  {
    var high, low := CommandWord(HighNibble(cmd), backlight), CommandWord(LowNibble(cmd), backlight);
    [Or(high, MaskE), high, Or(low, MaskE), low]
  }

  /** `hal_write_data(data)`. */
  function DataBytes(backlight: bool, data: int): seq<int>
  {
    var high, low := DataWord(HighNibble(data), backlight), DataWord(LowNibble(data), backlight);
    [Or(high, MaskE), high, Or(low, MaskE), low]
  }

  /** A command is one transfer with RS low. Bytes 2 and 4 give the command
      byte back: `((b2 >> 4) << 4) | (b4 >> 4) == cmd & 0xFF`. */
  lemma CommandLayout(backlight: bool, cmd: int)
    ensures var r := CommandBytes(backlight, cmd);
      r == Transfer(false, backlight, cmd) && (r[1] / 16) * 16 + r[3] / 16 == cmd % 256
  {
    OrBacklight(HighNibble(cmd), backlight);
    OrBacklight(LowNibble(cmd), backlight);
    OrFields(HighNibble(cmd), backlight, false, false);
    OrFields(LowNibble(cmd), backlight, false, false);
    WordFields(HighNibble(cmd), backlight, false, false);
    WordFields(LowNibble(cmd), backlight, false, false);
    NibbleSplit(cmd);
  }

  /** Data is the same transfer with `MASK_RS` set in every word; bytes 2
      and 4 give back `data & 0xFF`. */
  lemma DataLayout(backlight: bool, data: int)
    ensures var r := DataBytes(backlight, data);
      r == Transfer(true, backlight, data) && (r[1] / 16) * 16 + r[3] / 16 == data % 256
  {
    OrBacklight(HighNibble(data), backlight);
    OrBacklight(LowNibble(data), backlight);
    OrFields(HighNibble(data), backlight, false, true);
    OrFields(LowNibble(data), backlight, false, true);
    WordFields(HighNibble(data), backlight, false, true);
    WordFields(LowNibble(data), backlight, false, true);
    NibbleSplit(data);
  }

  /** `hal_write_init_nibble(nibble)`. */
  function InitNibbleBytes(nibble: int): seq<int>
  {
    var word := HighNibble(nibble) * 16;
    [Or(word, MaskE), word]
  }

  /** The high nibble of `nibble` with E, then without; neither word carries
      the backlight or RS. */
  lemma InitNibbleLayout(nibble: int)
    ensures InitNibbleBytes(nibble) ==
            [Word(HighNibble(nibble), false, true, false), Word(HighNibble(nibble), false, false, false)]
  {
    OrFields(HighNibble(nibble), false, false, false);
  }

  /** `hal_backlight_on` and `hal_backlight_off`. */
  function BacklightBytes(on: bool): (r: seq<int>)
    ensures r == [Word(0, on, false, false)]
    ensures r == [if on then 0x08 else 0x00]
  {
    if on then [1 * 8] else [0x00]
  }

  /** Every word of a command or data transfer has E set exactly in bytes 1
      and 3, never RW, RS as requested and bit 3 equal to the backlight flag. */
  lemma TransferPins(rs: bool, backlight: bool, value: int)
    ensures var r := Transfer(rs, backlight, value);
      |r| == 4 &&
      forall i :: 0 <= i < 4 ==>
        0 <= r[i] < 256 && (HasEnable(r[i]) <==> i % 2 == 0) && !HasRw(r[i]) &&
        (HasRs(r[i]) <==> rs) && (HasBacklight(r[i]) <==> backlight)
  {
    WordFields(HighNibble(value), backlight, true, rs);
    WordFields(HighNibble(value), backlight, false, rs);
    WordFields(LowNibble(value), backlight, true, rs);
    WordFields(LowNibble(value), backlight, false, rs);
  }
}
