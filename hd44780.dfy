/** The HD44780 command set as `LcdApi` names it, and the command words the
    driver builds from it. */
module Hd44780 {
  import opened Expander

  const LcdClr := 0x01
  const LcdHome := 0x02

  const LcdEntryMode := 0x04
  const LcdEntryInc := 0x02
  const LcdEntryShift := 0x01

  const LcdOnCtrl := 0x08
  const LcdOnDisplay := 0x04
  const LcdOnCursor := 0x02
  const LcdOnBlink := 0x01

  const LcdMove := 0x10
  const LcdMoveDisp := 0x08
  const LcdMoveRight := 0x04

  const LcdFunction := 0x20
  const LcdFunction8Bit := 0x10
  const LcdFunction2Lines := 0x08
  const LcdFunction10Dots := 0x04

  const LcdCgram := 0x40
  const LcdDdram := 0x80

  const LcdRsCmd := 0
  const LcdRsData := 1

  const LcdRwWrite := 0
  const LcdRwRead := 1

  /** The command words sent by the entry-mode and display-control operations. */
  const EntryModeInc := Or(LcdEntryMode, LcdEntryInc)
  const DisplayOffCmd := LcdOnCtrl
  const DisplayOnCmd := Or(LcdOnCtrl, LcdOnDisplay)
  const HideCursorCmd := Or(LcdOnCtrl, LcdOnDisplay)
  const ShowCursorCmd := Or(Or(LcdOnCtrl, LcdOnDisplay), LcdOnCursor)
  const BlinkCursorOnCmd := Or(Or(Or(LcdOnCtrl, LcdOnDisplay), LcdOnCursor), LcdOnBlink)
  const BlinkCursorOffCmd := Or(Or(LcdOnCtrl, LcdOnDisplay), LcdOnCursor)

  /** The values those words have on the wire. Every display-control word
      keeps the display-on bit except display_off's. */
  lemma ControlWords()
    ensures EntryModeInc == 0x06
    ensures DisplayOffCmd == 0x08 && DisplayOnCmd == 0x0C && HideCursorCmd == 0x0C
    ensures ShowCursorCmd == 0x0E && BlinkCursorOnCmd == 0x0F && BlinkCursorOffCmd == 0x0E
  {
  }

  /** The DDRAM address of cell (x, y): `x & 0x3F`, plus 0x40 when bit 0 of
      the row is set, plus the row width when bit 1 is set. Rows 0 and 1 start
      at 0x00 and 0x40; rows 2 and 3 continue each of them after `columns`
      cells. */
  function DdramAddress(columns: nat, x: int, y: int): nat
  {
    x % 64 + (if y % 2 == 1 then 0x40 else 0) + (if (y / 2) % 2 == 1 then columns else 0)
  }

  /** The set-DDRAM-address command `0x80 | addr` for cell (x, y). */
  function DdramCommand(columns: nat, x: int, y: int): nat
  {
    Or(DdramAddress(columns, x, y), LcdDdram)
  }

  /** The address is at most 127 plus the row width, and on a cell with
      x < 64 and y < 4 it is x + 0x40 (y mod 2) + columns (y div 2). The
      command lies in 0x80..0xFF on displays up to 40 wide, and is 0x80 plus
      the address whenever the address is below 0x80. */
  lemma DdramLayout(columns: nat, x: int, y: int)
    ensures var addr := DdramAddress(columns, x, y);
      addr <= 63 + 64 + columns &&
      (0 <= x < 64 && 0 <= y < 4 ==> addr == x + 0x40 * (y % 2) + columns * (y / 2))
    ensures columns <= 40 ==> 0x80 <= DdramCommand(columns, x, y) < 0x100
    ensures DdramAddress(columns, x, y) < 0x80 ==> DdramCommand(columns, x, y) == 0x80 + DdramAddress(columns, x, y)
  {
    var addr := DdramAddress(columns, x, y);
    if 0 <= x < 64 && 0 <= y < 4 {
      assert columns * (y / 2) == (if (y / 2) % 2 == 1 then columns else 0);
    }
    DdramOr(addr);
  }

  /** `addr | 0x80` on an address below 0x80 adds 0x80, and any address
      below 0x100 stays below 0x100. */
  lemma DdramOr(addr: nat)
    ensures addr < 0x80 ==> Or(addr, LcdDdram) == addr + 0x80
    ensures addr < 0x100 ==> 0x80 <= Or(addr, LcdDdram) < 0x100
  {
  }

  /** The cell a set-DDRAM-address command selects on a display `columns`
      wide: the inverse of `DdramCommand` on the cells of a display of up to
      four rows. */
  function DdramPosition(columns: nat, cmd: int): (int, int)
  {
    var addr := cmd - 0x80;
    var row0 := addr % 0x40;
    var odd := if addr >= 0x40 then 1 else 0;
    if row0 < columns then (row0, odd) else (row0 - columns, odd + 2)
  }

  /** Decoding the command that `move_to(x, y)` sends yields (x, y) again,
      for every cell of a display of up to 4 rows whose rows do not overlap
      in DDRAM (rows 2 and 3 need `2 * columns <= 64`). */
  lemma DdramRoundTrip(columns: nat, x: int, y: int)
    requires 0 <= x < columns <= 40 && 0 <= y < 4
    requires y >= 2 ==> 2 * columns <= 64
    ensures DdramPosition(columns, DdramCommand(columns, x, y)) == (x, y)
  {
    DdramLayout(columns, x, y);
  }

  /** Two different cells of such a display get different commands. */
  lemma DdramInjective(columns: nat, x1: int, y1: int, x2: int, y2: int)
    requires 0 <= x1 < columns <= 40 && 0 <= y1 < 4 && (y1 >= 2 ==> 2 * columns <= 64)
    requires 0 <= x2 < columns && 0 <= y2 < 4 && (y2 >= 2 ==> 2 * columns <= 64)
    requires (x1, y1) != (x2, y2)
    ensures DdramCommand(columns, x1, y1) != DdramCommand(columns, x2, y2)
  {
    DdramRoundTrip(columns, x1, y1);
    DdramRoundTrip(columns, x2, y2);
  }

  /** The set-CGRAM-address command for glyph slot `location & 0x7`: the
      slot's first row, 8 bytes per slot from 0x40. */
  function CgramCommand(location: int): nat
  {
    var slot := location % 8;
    Or(slot * 8, LcdCgram)
  }

  /** The command is 0x40 plus eight times the slot: a multiple of 8 in
      0x40..0x78 from which the slot reads back. */
  lemma CgramLayout(location: int)
    ensures var cmd := CgramCommand(location);
      0x40 <= cmd <= 0x78 && cmd % 8 == 0 && (cmd - 0x40) / 8 == location % 8
  {
  }

  /** The function-set command sent after initialisation: 4-bit interface,
      5x8 font, and the two-line flag exactly when more than one line. */
  function FunctionSet(numLines: int): (cmd: nat)
    ensures cmd / 16 == 2
    ensures (cmd / 8) % 2 == 1 <==> numLines > 1
    ensures (cmd / 4) % 2 == 0 && cmd % 4 == 0
  {
    var cmd := LcdFunction;
    if numLines > 1 then Or(cmd, LcdFunction2Lines) else cmd
  }
}
