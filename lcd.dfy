/** The display driver object: `LcdApi` with either its own transport or the
    PCF8574 overrides of `I2cLcd`. Its fields are the cursor, the
    implied-newline flag and the backlight flag; the bus it writes to is
    modelled by `trace`, the sequence of every `bus.write_byte` call so far. */
module Driver {
  import opened Expander
  import opened Hd44780
  import opened Bus
  import CursorRules
  import LcdApiHal
  import I2cLcdHal

  /** The reset nibble of the power-up sequence: function set with the 8-bit
      interface, `LCD_FUNCTION | LCD_FUNCTION_8BIT`. The source uses a
      constant of this role without defining it; this is the value the
      HD44780 power-up procedure calls for. */
  const LcdFunctionReset := 0x30

  /** What `LcdApi.__init__` sends after setting its fields: display off,
      backlight on, clear, entry mode "increment", cursor hidden, display on. */
  function BaseInitOps(): seq<HalOp>
  {
    [WriteCommand(DisplayOffCmd), BacklightOn, WriteCommand(LcdClr),
     WriteCommand(EntryModeInc), WriteCommand(HideCursorCmd), WriteCommand(DisplayOnCmd)]
  }

  /** The base start-up is command 0x08, backlight on, then the commands
      0x01, 0x06, 0x0C and 0x0C. */
  lemma BaseInitCommands()
    ensures BaseInitOps() == [WriteCommand(0x08), BacklightOn, WriteCommand(0x01),
                              WriteCommand(0x06), WriteCommand(0x0C), WriteCommand(0x0C)]
  {
    ControlWords();
  }

  /** What `I2cLcd.__init__` sends before the protocol layer starts: all pins
      low, the reset nibble three times, then the nibble selecting the 4-bit
      interface. */
  function PowerUpOps(functionReset: int): seq<HalOp>
  {
    [PinsLow, InitNibble(functionReset), InitNibble(functionReset), InitNibble(functionReset),
     InitNibble(LcdFunction)]
  }

  /** The whole `I2cLcd` start-up, with `LcdApi.__init__` called as intended:
      power-up, the protocol layer's initialisation, and finally the function
      set for the requested number of lines. */
  function I2cInitOps(functionReset: int, numLines: int): seq<HalOp>
  {
    PowerUpOps(functionReset) + BaseInitOps() + [WriteCommand(FunctionSet(numLines))]
  }

  /** The start-up is twelve calls: the five of power-up, the six of the
      base start-up, and the function set last. */
  lemma I2cInitLayout(functionReset: int, numLines: int)
    ensures var ops := I2cInitOps(functionReset, numLines);
      |ops| == 12 && ops[11] == WriteCommand(FunctionSet(numLines)) &&
      ops[..5] == PowerUpOps(functionReset) && ops[5..11] == BaseInitOps()
  {
    var ops := I2cInitOps(functionReset, numLines);
    assert ops[..5] == PowerUpOps(functionReset);
    assert ops[5..11] == BaseInitOps();
  }

  /** One data write per value, in order. The ensures spell out the
      comprehension element by element, for the loop of `Lcd.CustomChar`;
      what the calls mean is `DataOpsWrites`. */
  function DataOps(values: seq<int>): (ops: seq<HalOp>)
    ensures |ops| == |values|
    ensures forall k :: 0 <= k < |values| ==> ops[k] == WriteData(values[k])
  {
    seq(|values|, k requires 0 <= k < |values| => WriteData(values[k]))
  }

  /** What `custom_char(location, charmap)` sends with the cursor at (x, y):
      the CGRAM address of the slot, its eight rows as data, then a `move_to`
      back to the cursor. */
  function CustomCharOps(g: CursorRules.Geometry, x: int, y: int, location: int, charmap: seq<int>): seq<HalOp>
    requires |charmap| >= 8
  {
    [WriteCommand(CgramCommand(location))] + DataOps(charmap[..8]) + [CursorRules.MoveToOp(g, x, y)]
  }

  class Lcd {
    const transport: Transport
    const address: int
    const numLines: nat
    const numColumns: nat
    var cursorX: int
    var cursorY: int
    var impliedNewline: bool
    var backlight: bool
    /** Every `bus.write_byte(address, value)` made so far. */
    var trace: seq<BusWrite>
    /** Every transport call made so far. */
    ghost var halLog: seq<HalOp>

    function Geom(): CursorRules.Geometry
    {
      CursorRules.Geometry(numLines, numColumns)
    }

    function Cursor(): CursorRules.CursorState
      reads this`cursorX, this`cursorY, this`impliedNewline
    {
      CursorRules.CursorState(cursorX, cursorY, impliedNewline)
    }

    /** The trace is what the logged transport calls put on the bus, starting
        with the backlight on, and the geometry is clamped. */
    ghost predicate Synced()
      reads this`trace, this`halLog
    {
      numLines <= 4 && numColumns <= 40 &&
      trace == Writes(address, Bytes(transport, true, halLog))
    }

    /** Also the backlight flag is the one the logged calls leave. */
    ghost predicate Valid()
      reads this`trace, this`halLog, this`backlight
    {
      Synced() && backlight == BacklightAfter(true, halLog)
    }

    /** Since the start of the current call, exactly `ops` were made on the
        transport. With `Valid()` before and after, this fixes the words
        appended to the trace (`Bus.LogExtension`). */
    twostate predicate Emitted(ops: seq<HalOp>)
      reads this`halLog
    {
      halLog == old(halLog) + ops
    }

    /** `LcdApi(bus, address, num_lines, num_columns)`: the geometry is
        clamped to 4 lines and 40 columns, the cursor is at the origin, the
        backlight is on, and the initialisation commands are sent. */
    constructor Api(address: int, numLines: nat, numColumns: nat)
      ensures Valid() && transport == NibblePulse && this.address == address
      ensures this.numLines == (if numLines < 4 then numLines else 4)
      ensures this.numColumns == (if numColumns < 40 then numColumns else 40)
      ensures Cursor() == CursorRules.CursorState(0, 0, false) && backlight
      ensures halLog == BaseInitOps()
    {
      transport := NibblePulse;
      this.address := address;
      this.numLines := if numLines < 4 then numLines else 4;
      this.numColumns := if numColumns < 40 then numColumns else 40;
      cursorX, cursorY := 0, 0;
      impliedNewline := false;
      backlight := true;
      trace, halLog := [], [];
      new;
      InitDisplay();
    }

    /** `I2cLcd(bus, i2c_addr, num_lines, num_columns)` with the reset nibble
        supplied by the caller and the protocol layer initialised as
        intended: power-up, the base initialisation, then the function set. */
    constructor I2c(i2cAddr: int, functionReset: int, numLines: nat, numColumns: nat)
      ensures Valid() && transport == Pcf8574 && address == i2cAddr
      ensures this.numLines == (if numLines < 4 then numLines else 4)
      ensures this.numColumns == (if numColumns < 40 then numColumns else 40)
      ensures Cursor() == CursorRules.CursorState(0, 0, false) && backlight
      ensures halLog == I2cInitOps(functionReset, numLines)
    {
      transport := Pcf8574;
      address := i2cAddr;
      this.numLines := if numLines < 4 then numLines else 4;
      this.numColumns := if numColumns < 40 then numColumns else 40;
      cursorX, cursorY := 0, 0;
      impliedNewline := false;
      backlight := true;
      trace, halLog := [], [];
      new;
      PowerUp(functionReset);
      InitDisplay();
      HalWriteCommand(FunctionSet(numLines));
    }

    /** Lines 20-33 of `I2cLcd.__init__`: all pins low, the reset nibble
        three times, then 4-bit mode. */
    method PowerUp(functionReset: int)
      requires Valid() && transport.Pcf8574?
      modifies this`trace, this`halLog
      ensures Valid() && Emitted(PowerUpOps(functionReset))
    {
      PinsLowWrite();
      HalWriteInitNibble(functionReset);
      HalWriteInitNibble(functionReset);
      HalWriteInitNibble(functionReset);
      HalWriteInitNibble(LcdFunction);
    }

    /** `bus.write_byte(i2c_addr, 0)`: every pin of the expander low. */
    method PinsLowWrite()
      requires Valid() && transport.Pcf8574?
      modifies this`trace, this`halLog
      ensures Valid() && Emitted([PinsLow])
    {
      LogStep(transport, address, halLog, PinsLow);
      BusWriteByte(0x00);
      assert Writes(address, [0x00]) == [BusWrite(address, 0x00)];
      halLog := halLog + [PinsLow];
    }

    /** Lines 50-55 of the base constructor. */
    method InitDisplay()
      requires Valid()
      modifies this`trace, this`halLog, this`backlight, this`cursorX, this`cursorY
      ensures Valid() && backlight && cursorX == 0 && cursorY == 0
      ensures Emitted(BaseInitOps())
    {
      DisplayOff();
      BacklightOn();
      Clear();
      HalWriteCommand(EntryModeInc);
      HideCursor();
      DisplayOn();
    }

    /** `bus.write_byte(address, value)`. */
    method BusWriteByte(value: int)
      modifies this`trace
      ensures trace == old(trace) + [BusWrite(address, value)]
    {
      trace := trace + [BusWrite(address, value)];
    }

    /** `hal_pulse_enable(data)`: `data` with E raised, then with E cleared. */
    method HalPulseEnable(data: int)
      modifies this`trace
      ensures trace == old(trace) + Writes(address, LcdApiHal.PulseEnableBytes(data))
    {
      BusWriteByte(Or(data, LcdApiHal.EnableBit));
      BusWriteByte(AndNot(data, LcdApiHal.EnableBit));
    }

    /** `hal_write_byte(rs, data)`: each nibble as a word, then its pulse. */
    method HalWriteByte(rs: int, data: int)
      requires rs == 0 || rs == 1
      modifies this`trace
      ensures trace == old(trace) + Writes(address, LcdApiHal.WriteByteBytes(rs, backlight, data))
    {
      var high := LcdApiHal.NibbleWord((data / 16 % 16) * 16, rs, backlight);
      HalWriteNibble(high);
      var low := LcdApiHal.NibbleWord((data * 16) % 256, rs, backlight);
      HalWriteNibble(low);
      WritesAppend(address, [high] + LcdApiHal.PulseEnableBytes(high), [low] + LcdApiHal.PulseEnableBytes(low));
    }

    /** One half of `hal_write_byte`: the word, then its enable pulse. */
    method HalWriteNibble(word: int)
      modifies this`trace
      ensures trace == old(trace) + Writes(address, [word] + LcdApiHal.PulseEnableBytes(word))
    {
      BusWriteByte(word);
      HalPulseEnable(word);
      WritesAppend(address, [word], LcdApiHal.PulseEnableBytes(word));
    }

    /** `hal_write_command(cmd)` of whichever transport this driver uses. */
    method HalWriteCommand(cmd: int)
      requires Valid()
      modifies this`trace, this`halLog
      ensures Valid() && Emitted([WriteCommand(cmd)])
    {
      LogStep(transport, address, halLog, WriteCommand(cmd));
      if transport.NibblePulse? {
        HalWriteByte(LcdRsCmd, cmd);
      } else {
        I2cWriteCommand(cmd);
      }
      halLog := halLog + [WriteCommand(cmd)];
    }

    /** `hal_write_data(data)` of whichever transport this driver uses. */
    method HalWriteData(data: int)
      requires Valid()
      modifies this`trace, this`halLog
      ensures Valid() && Emitted([WriteData(data)])
    {
      LogStep(transport, address, halLog, WriteData(data));
      if transport.NibblePulse? {
        HalWriteByte(LcdRsData, data);
      } else {
        I2cWriteData(data);
      }
      halLog := halLog + [WriteData(data)];
    }

    /** `I2cLcd.hal_write_command(cmd)`: each nibble of `cmd` with E, then
        without, under the current backlight bit. */
    method I2cWriteCommand(cmd: int)
      modifies this`trace
      ensures trace == old(trace) + Writes(address, I2cLcdHal.CommandBytes(backlight, cmd))
    {
      var high := Or(I2cLcdHal.HighNibble(cmd) * 16, BoolBit(backlight) * 8);
      var low := Or(I2cLcdHal.LowNibble(cmd) * 16, BoolBit(backlight) * 8);
      Transfer4(Or(high, I2cLcdHal.MaskE), high, Or(low, I2cLcdHal.MaskE), low);
    }

    /** `I2cLcd.hal_write_data(data)`: the same with `MASK_RS` in every word. */
    method I2cWriteData(data: int)
      modifies this`trace
      ensures trace == old(trace) + Writes(address, I2cLcdHal.DataBytes(backlight, data))
    {
      var high := Or(Or(I2cLcdHal.HighNibble(data) * 16, BoolBit(backlight) * 8), I2cLcdHal.MaskRs);
      var low := Or(Or(I2cLcdHal.LowNibble(data) * 16, BoolBit(backlight) * 8), I2cLcdHal.MaskRs);
      Transfer4(Or(high, I2cLcdHal.MaskE), high, Or(low, I2cLcdHal.MaskE), low);
    }

    /** Four `bus.write_byte` calls in a row. */
    method Transfer4(a: int, b: int, c: int, d: int)
      modifies this`trace
      ensures trace == old(trace) + Writes(address, [a, b, c, d])
    {
      BusWriteByte(a);
      BusWriteByte(b);
      BusWriteByte(c);
      BusWriteByte(d);
    }

    /** `hal_backlight_on`: nothing on `LcdApi`'s own transport, 0x08 on
        the PCF8574. The caller has already set the flag. */
    method HalBacklightOn()
      requires Synced()
      modifies this`trace, this`halLog
      ensures Synced() && halLog == old(halLog) + [HalOp.BacklightOn]
      ensures trace == old(trace) + Writes(address, OpBytes(transport, backlight, HalOp.BacklightOn))
    {
      LogStep(transport, address, halLog, HalOp.BacklightOn);
      if transport.Pcf8574? {
        BusWriteByte(1 * 8);
      }
      halLog := halLog + [HalOp.BacklightOn];
    }

    /** `hal_backlight_off`: nothing on `LcdApi`'s own transport, 0x00 on
        the PCF8574. */
    method HalBacklightOff()
      requires Synced()
      modifies this`trace, this`halLog
      ensures Synced() && halLog == old(halLog) + [HalOp.BacklightOff]
      ensures trace == old(trace) + Writes(address, OpBytes(transport, backlight, HalOp.BacklightOff))
    {
      LogStep(transport, address, halLog, HalOp.BacklightOff);
      if transport.Pcf8574? {
        BusWriteByte(0x00);
      }
      halLog := halLog + [HalOp.BacklightOff];
    }

    /** `I2cLcd.hal_write_init_nibble(nibble)`: the high nibble of `nibble`
        with E, then without. */
    method HalWriteInitNibble(nibble: int)
      requires Valid() && transport.Pcf8574?
      modifies this`trace, this`halLog
      ensures Valid() && Emitted([InitNibble(nibble)])
    {
      LogStep(transport, address, halLog, InitNibble(nibble));
      I2cWriteInitNibble(nibble);
      halLog := halLog + [InitNibble(nibble)];
    }

    /** The two bus writes of `hal_write_init_nibble`. */
    method I2cWriteInitNibble(nibble: int)
      modifies this`trace
      ensures trace == old(trace) + Writes(address, I2cLcdHal.InitNibbleBytes(nibble))
    {
      var byte := I2cLcdHal.HighNibble(nibble) * 16;
      BusWriteByte(Or(byte, I2cLcdHal.MaskE));
      BusWriteByte(byte);
    }

    method Clear()
      requires Valid()
      modifies this`trace, this`halLog, this`cursorX, this`cursorY
      ensures Valid() && Emitted([WriteCommand(LcdClr)])
      ensures cursorX == 0 && cursorY == 0
    {
      HalWriteCommand(LcdClr);
      cursorX := 0;
      cursorY := 0;
    }

    method ShowCursor()
      requires Valid()
      modifies this`trace, this`halLog
      ensures Valid() && Emitted([WriteCommand(ShowCursorCmd)])
    {
      HalWriteCommand(ShowCursorCmd);
    }

    method HideCursor()
      requires Valid()
      modifies this`trace, this`halLog
      ensures Valid() && Emitted([WriteCommand(HideCursorCmd)])
    {
      HalWriteCommand(HideCursorCmd);
    }

    method BlinkCursorOn()
      requires Valid()
      modifies this`trace, this`halLog
      ensures Valid() && Emitted([WriteCommand(BlinkCursorOnCmd)])
    {
      HalWriteCommand(BlinkCursorOnCmd);
    }

    method BlinkCursorOff()
      requires Valid()
      modifies this`trace, this`halLog
      ensures Valid() && Emitted([WriteCommand(BlinkCursorOffCmd)])
    {
      HalWriteCommand(BlinkCursorOffCmd);
    }

    method DisplayOn()
      requires Valid()
      modifies this`trace, this`halLog
      ensures Valid() && Emitted([WriteCommand(DisplayOnCmd)])
    {
      HalWriteCommand(DisplayOnCmd);
    }

    method DisplayOff()
      requires Valid()
      modifies this`trace, this`halLog
      ensures Valid() && Emitted([WriteCommand(DisplayOffCmd)])
    {
      HalWriteCommand(DisplayOffCmd);
    }

    method BacklightOn()
      requires Valid()
      modifies this`trace, this`halLog, this`backlight
      ensures Valid() && backlight && Emitted([HalOp.BacklightOn])
    {
      backlight := true;
      HalBacklightOn();
      LogStep(transport, address, old(halLog), HalOp.BacklightOn);
    }

    method BacklightOff()
      requires Valid()
      modifies this`trace, this`halLog, this`backlight
      ensures Valid() && !backlight && Emitted([HalOp.BacklightOff])
    {
      backlight := false;
      HalBacklightOff();
      LogStep(transport, address, old(halLog), HalOp.BacklightOff);
    }

    /** `move_to(x, y)`: the cursor becomes (x, y) and the DDRAM address of
        that cell is selected. */
    method MoveTo(x: int, y: int)
      requires Valid()
      modifies this`trace, this`halLog, this`cursorX, this`cursorY
      ensures Valid() && cursorX == x && cursorY == y
      ensures Emitted([CursorRules.MoveToOp(Geom(), x, y)])
    {
      cursorX := x;
      cursorY := y;
      var addr := x % 64;
      if y % 2 == 1 {
        addr := addr + 0x40;
      }
      if (y / 2) % 2 == 1 {
        addr := addr + numColumns;
      }
      HalWriteCommand(Or(addr, LcdDdram));
    }

    /** `putchar(ch)`: the cursor moves by the rules of `CursorRules.Putchar`
        and the calls of `CursorRules.PutcharOps` are made. */
    method Putchar(ch: char)
      requires Valid()
      modifies this`trace, this`halLog, this`cursorX, this`cursorY, this`impliedNewline
      ensures Valid() && Cursor() == CursorRules.Putchar(Geom(), old(Cursor()), ch)
      ensures Emitted(CursorRules.PutcharOps(Geom(), old(Cursor()), ch))
    {
      var x, y, implied := cursorX, cursorY, impliedNewline;
      if ch == '\n' {
        if !implied {
          x := numColumns;
        }
      } else {
        HalWriteData(ch as int);
        x := x + 1;
      }
      if x >= numColumns {
        x := 0;
        y := y + 1;
        implied := ch != '\n';
      }
      if y >= numLines {
        y := 0;
      }
      impliedNewline := implied;
      ghost var written := if ch == '\n' then [] else [WriteData(ch as int)];
      assert halLog == old(halLog) + written;
      MoveTo(x, y);
      LogAssoc(old(halLog), written, [CursorRules.MoveToOp(Geom(), x, y)]);
    }

    /** `putstr(s)`: `putchar` of every character of `s` in turn. */
    method Putstr(s: string)
      requires Valid()
      modifies this`trace, this`halLog, this`cursorX, this`cursorY, this`impliedNewline
      ensures Valid() && Cursor() == CursorRules.Putstr(Geom(), old(Cursor()), s)
      ensures Emitted(CursorRules.PutstrOps(Geom(), old(Cursor()), s))
    {
      for i := 0 to |s|
        invariant Valid()
        invariant CursorRules.Putstr(Geom(), Cursor(), s[i..]) == CursorRules.Putstr(Geom(), old(Cursor()), s)
        invariant halLog + CursorRules.PutstrOps(Geom(), Cursor(), s[i..]) ==
                  old(halLog) + CursorRules.PutstrOps(Geom(), old(Cursor()), s)
      {
        ghost var log, c := halLog, Cursor();
        CursorRules.PutstrStep(Geom(), c, s, i);
        ghost var now, rest := CursorRules.PutcharOps(Geom(), c, s[i]), CursorRules.PutstrOps(Geom(), CursorRules.Putchar(Geom(), c, s[i]), s[i + 1..]);
        Putchar(s[i]);
        LogAssoc(log, now, rest);
      }
      assert s[|s|..] == [];
    }

    /** `custom_char(location, charmap)`: the eight rows of `charmap` go to
        glyph slot `location & 0x7` and the cursor is put back where it was. */
    method CustomChar(location: int, charmap: seq<int>)
      requires Valid() && |charmap| >= 8
      modifies this`trace, this`halLog, this`cursorX, this`cursorY
      ensures Valid() && cursorX == old(cursorX) && cursorY == old(cursorY)
      ensures Emitted(CustomCharOps(Geom(), old(cursorX), old(cursorY), location, charmap))
    {
      var slot := location % 8;
      HalWriteCommand(Or(slot * 8, LcdCgram));
      ghost var head := halLog;
      assert DataOps(charmap[..0]) == [];
      for i := 0 to 8
        invariant Valid()
        invariant cursorX == old(cursorX) && cursorY == old(cursorY)
        invariant halLog == head + DataOps(charmap[..i])
      {
        DataOpsSnoc(charmap, i);
        LogAssoc(head, DataOps(charmap[..i]), [WriteData(charmap[i])]);
        HalWriteData(charmap[i]);
      }
      MoveTo(cursorX, cursorY);
      ghost var cmd, move := [WriteCommand(CgramCommand(location))], [CursorRules.MoveToOp(Geom(), cursorX, cursorY)];
      LogAssoc(old(halLog), cmd, DataOps(charmap[..8]));
      LogAssoc(old(halLog), cmd + DataOps(charmap[..8]), move);
    }
  }

  // ---------------------------------------------------------------------
  // Start-up, as it reaches the wire and the controller.

  /** On the PCF8574 with the HD44780 reset value, power-up puts exactly these
      words on the bus: all pins low, then 0x3 three times and 0x2 once on
      D4..D7, each strobed, with the backlight off. */
  lemma PowerUpWords()
    ensures Bytes(Pcf8574, true, PowerUpOps(LcdFunctionReset)) ==
            [0x00, 0x34, 0x30, 0x34, 0x30, 0x34, 0x30, 0x24, 0x20]
  {
    var n, m := InitNibble(LcdFunctionReset), InitNibble(LcdFunction);
    BytesCons(Pcf8574, true, m, []);
    BytesCons(Pcf8574, true, n, [m]);
    BytesCons(Pcf8574, true, n, [n, m]);
    BytesCons(Pcf8574, true, n, [n, n, m]);
    BytesCons(Pcf8574, true, PinsLow, [n, n, n, m]);
    assert PowerUpOps(LcdFunctionReset) == [PinsLow] + [n, n, n, m];
  }

  /** Power-up reaches the controller as the high nibble of the reset value
      three times, then 0x2, which selects the 4-bit interface. */
  lemma PowerUpView(functionReset: int)
    ensures ControllerStream(PowerUpOps(functionReset)) ==
            [Latch(false, (functionReset / 16) % 16), Latch(false, (functionReset / 16) % 16),
             Latch(false, (functionReset / 16) % 16), Latch(false, 2)]
  {
    var n, m := InitNibble(functionReset), InitNibble(LcdFunction);
    ControllerStreamCons(m, []);
    ControllerStreamCons(n, [m]);
    ControllerStreamCons(n, [n, m]);
    ControllerStreamCons(n, [n, n, m]);
    ControllerStreamCons(PinsLow, [n, n, n, m]);
    assert PowerUpOps(functionReset) == [PinsLow] + [n, n, n, m];
  }

  /** The closing function set on the PCF8574 with the backlight on: 0x28
      for two or more lines, 0x20 for one. */
  lemma FunctionSetWords(numLines: int)
    ensures OpBytes(Pcf8574, true, WriteCommand(FunctionSet(numLines))) ==
            (if numLines > 1 then [0x2C, 0x28, 0x8C, 0x88] else [0x2C, 0x28, 0x0C, 0x08])
  {
  }

  /** On `LcdApi`'s own transport the first start-up command, display off
      (0x08), is the nibbles 0x0 and 0x8, each sent as word, strobe, word. */
  lemma DisplayOffWords()
    ensures OpBytes(NibblePulse, true, WriteCommand(DisplayOffCmd)) == [0x08, 0x0C, 0x08, 0x88, 0x8C, 0x88]
  {
  }

  /** The sequence of (RS, nibble) samples of a run of commands. */
  function CommandLatches(cmds: seq<int>): seq<Latch>
    decreases |cmds|
  {
    if cmds == [] then []
    else [Latch(false, (cmds[0] / 16) % 16), Latch(false, cmds[0] % 16)] + CommandLatches(cmds[1..])
  }

  lemma {:induction false} ControllerStreamAppend(a: seq<HalOp>, b: seq<HalOp>)
    ensures ControllerStream(a + b) == ControllerStream(a) + ControllerStream(b)
    decreases |a|
  {
    if a == [] {
      assert a + b == b;
    } else {
      assert (a + b)[1..] == a[1..] + b;
      ControllerStreamAppend(a[1..], b);
    }
  }

  lemma {:induction false} CommandLatchesAppend(a: seq<int>, b: seq<int>)
    ensures CommandLatches(a + b) == CommandLatches(a) + CommandLatches(b)
    decreases |a|
  {
    if a == [] {
      assert a + b == b;
    } else {
      assert (a + b)[1..] == a[1..] + b;
      CommandLatchesAppend(a[1..], b);
    }
  }

  /** The base initialisation reaches the controller as the commands 0x08,
      0x01, 0x06, 0x0C, 0x0C, whichever transport carries it and whatever
      the backlight does. */
  lemma BaseInitStream(t: Transport, backlight: bool)
    ensures Latched(Bytes(t, backlight, BaseInitOps())) == CommandLatches([0x08, 0x01, 0x06, 0x0C, 0x0C])
  {
    TransportIndependence(t, backlight, BaseInitOps());
    BaseInitView();
  }

  lemma BaseInitView()
    ensures ControllerStream(BaseInitOps()) == CommandLatches([0x08, 0x01, 0x06, 0x0C, 0x0C])
  {
    BaseInitCommands();
    var a, b, c, d := WriteCommand(0x08), WriteCommand(0x01), WriteCommand(0x06), WriteCommand(0x0C);
    ControllerStreamCons(d, []);
    ControllerStreamCons(d, [d]);
    ControllerStreamCons(c, [d, d]);
    ControllerStreamCons(b, [c, d, d]);
    ControllerStreamCons(BacklightOn, [b, c, d, d]);
    ControllerStreamCons(a, [BacklightOn, b, c, d, d]);
  }

  /** The whole `I2cLcd` start-up with the reset nibble 0x30, as the
      controller latches it: the 8-bit reset 0x3 three times, 0x2 to enter
      4-bit mode, then the base initialisation and the function set. */
  lemma I2cInitStream(numLines: int)
    ensures Latched(Bytes(Pcf8574, true, I2cInitOps(LcdFunctionReset, numLines))) ==
            [Latch(false, 3), Latch(false, 3), Latch(false, 3), Latch(false, 2)] +
            CommandLatches([0x08, 0x01, 0x06, 0x0C, 0x0C, if numLines > 1 then 0x28 else 0x20])
  {
    TransportIndependence(Pcf8574, true, I2cInitOps(LcdFunctionReset, numLines));
    I2cInitView(numLines);
  }

  lemma I2cInitView(numLines: int)
    ensures ControllerStream(I2cInitOps(LcdFunctionReset, numLines)) ==
            [Latch(false, 3), Latch(false, 3), Latch(false, 3), Latch(false, 2)] +
            CommandLatches([0x08, 0x01, 0x06, 0x0C, 0x0C, if numLines > 1 then 0x28 else 0x20])
  {
    var power, base, last := PowerUpOps(LcdFunctionReset), BaseInitOps(), [WriteCommand(FunctionSet(numLines))];
    ControllerStreamAppend(power + base, last);
    ControllerStreamAppend(power, base);
    PowerUpView(LcdFunctionReset);
    BaseInitView();
    var fs := if numLines > 1 then 0x28 else 0x20;
    FunctionSetStream(numLines);
    var cmds := [0x08, 0x01, 0x06, 0x0C, 0x0C];
    CommandLatchesAppend(cmds, [fs]);
    assert cmds + [fs] == [0x08, 0x01, 0x06, 0x0C, 0x0C, fs];
    assert (LcdFunctionReset / 16) % 16 == 3;
    LatchAssoc(ControllerStream(power), ControllerStream(base), ControllerStream(last));
  }

  /** The closing function set reaches the controller as one command. */
  lemma FunctionSetStream(numLines: int)
    ensures ControllerStream([WriteCommand(FunctionSet(numLines))]) ==
            CommandLatches([if numLines > 1 then 0x28 else 0x20])
  {
    ControllerStreamCons(WriteCommand(FunctionSet(numLines)), []);
    assert [WriteCommand(FunctionSet(numLines))] == [WriteCommand(FunctionSet(numLines))] + [];
  }

  lemma LatchAssoc(a: seq<Latch>, b: seq<Latch>, c: seq<Latch>)
    ensures a + b + c == a + (b + c)
  {
  }

  /** `custom_char` writes exactly the glyph's eight rows as data, between
      two commands: the slot's CGRAM address first and a `move_to` back to
      the cursor last. */
  lemma CustomCharWritesGlyph(g: CursorRules.Geometry, x: int, y: int, location: int, charmap: seq<int>)
    requires |charmap| >= 8
    ensures var ops := CustomCharOps(g, x, y, location, charmap);
      |ops| == 10 && CursorRules.DataWrites(ops) == charmap[..8] && CursorRules.CommandCount(ops) == 2 &&
      ops[0] == WriteCommand(CgramCommand(location)) && ops[9] == CursorRules.MoveToOp(g, x, y)
  {
    var first, rows, last := [WriteCommand(CgramCommand(location))], DataOps(charmap[..8]), [CursorRules.MoveToOp(g, x, y)];
    CursorRules.DataWritesAppend(first + rows, last);
    CursorRules.DataWritesAppend(first, rows);
    DataOpsWrites(charmap[..8]);
    assert first[1..] == [] && last[1..] == [];
  }

  lemma DataOpsSnoc(values: seq<int>, i: int)
    requires 0 <= i < |values|
    ensures DataOps(values[..i + 1]) == DataOps(values[..i]) + [WriteData(values[i])]
  {
    assert values[..i + 1] == values[..i] + [values[i]];
  }

  lemma {:induction false} DataOpsWrites(values: seq<int>)
    ensures CursorRules.DataWrites(DataOps(values)) == values
    ensures CursorRules.CommandCount(DataOps(values)) == 0
    decreases |values|
  {
    if values != [] {
      DataOpsWrites(values[1..]);
      assert DataOps(values)[1..] == DataOps(values[1..]);
    }
  }

  // ---------------------------------------------------------------------
  // `I2cLcd.__init__` as written.

  datatype Option<T> = None | Some(value: T)

  /** The two exceptions the as-written constructor can stop with: the
      reset constant it reads is not an attribute of the class, and the
      protocol layer's constructor is called with two of its four
      arguments. */
  datatype InitError = MissingAttribute | WrongArgumentCount

  datatype InitOutcome = Initialised(trace: seq<BusWrite>) | Raised(error: InitError, trace: seq<BusWrite>)

  /** The source's constructor: `resetConstant` is the value of
      `LCD_FUNCTION_RESET` if some definition supplied one (the source has
      none). The all-pins-low write always happens; then the attribute lookup
      fails, or, were it defined, the power-up runs and the call
      `LcdApi.__init__(self, num_lines, num_columns)` fails before any
      command is sent. */
  function I2cInitAsWritten(i2cAddr: int, resetConstant: Option<int>): (o: InitOutcome)
    ensures o.Raised?
  {
    match resetConstant
    case None => Raised(MissingAttribute, Writes(i2cAddr, [0x00]))
    case Some(reset) => Raised(WrongArgumentCount, Writes(i2cAddr, Bytes(Pcf8574, true, PowerUpOps(reset))))
  }

  /** As written, the constructor stops after one bus write, a strict prefix
      of what the intended start-up sends. */
  lemma MissingResetConstant(i2cAddr: int, reset: int, numLines: int)
    ensures I2cInitAsWritten(i2cAddr, None) == Raised(MissingAttribute, [BusWrite(i2cAddr, 0x00)])
    ensures IsStrictPrefix(I2cInitAsWritten(i2cAddr, None).trace,
                           Writes(i2cAddr, Bytes(Pcf8574, true, I2cInitOps(reset, numLines))))
  {
    var ops := I2cInitOps(reset, numLines);
    assert ops == [PinsLow] + ops[1..];
    BytesAppend(Pcf8574, true, [PinsLow], ops[1..]);
    assert [PinsLow][1..] == [];
  }

  /** With the constant supplied, the constructor still stops at the
      two-argument call: the controller has then received only the four
      power-up nibbles (0x3 three times, 0x2), never a command, so the
      display is never switched on; the trace is a strict prefix of the
      intended one. */
  lemma BaseInitCallRejected(i2cAddr: int, numLines: int)
    ensures var o := I2cInitAsWritten(i2cAddr, Some(LcdFunctionReset));
      o == Raised(WrongArgumentCount, Writes(i2cAddr, [0x00, 0x34, 0x30, 0x34, 0x30, 0x34, 0x30, 0x24, 0x20]))
    ensures Latched(Bytes(Pcf8574, true, PowerUpOps(LcdFunctionReset))) ==
            [Latch(false, 3), Latch(false, 3), Latch(false, 3), Latch(false, 2)]
    ensures IsStrictPrefix(I2cInitAsWritten(i2cAddr, Some(LcdFunctionReset)).trace,
                           Writes(i2cAddr, Bytes(Pcf8574, true, I2cInitOps(LcdFunctionReset, numLines))))
  {
    PowerUpWords();
    PowerUpLatches();
    PowerUpIsPrefix(i2cAddr, LcdFunctionReset, numLines);
  }

  lemma PowerUpLatches()
    ensures Latched(Bytes(Pcf8574, true, PowerUpOps(LcdFunctionReset))) ==
            [Latch(false, 3), Latch(false, 3), Latch(false, 3), Latch(false, 2)]
  {
    PowerUpView(LcdFunctionReset);
    TransportIndependence(Pcf8574, true, PowerUpOps(LcdFunctionReset));
  }

  predicate IsStrictPrefix(a: seq<BusWrite>, b: seq<BusWrite>)
  {
    |a| < |b| && b[..|a|] == a
  }

  /** Whatever the reset value, the power-up words are a strict prefix of
      the intended start-up's words. */
  lemma PowerUpIsPrefix(i2cAddr: int, reset: int, numLines: int)
    ensures IsStrictPrefix(Writes(i2cAddr, Bytes(Pcf8574, true, PowerUpOps(reset))),
                           Writes(i2cAddr, Bytes(Pcf8574, true, I2cInitOps(reset, numLines))))
  {
    var power := PowerUpOps(reset);
    var rest := BaseInitOps() + [WriteCommand(FunctionSet(numLines))];
    assert I2cInitOps(reset, numLines) == power + rest;
    BytesAppend(Pcf8574, true, power, rest);
    var restBytes := Bytes(Pcf8574, BacklightAfter(true, power), rest);
    WritesAppend(i2cAddr, Bytes(Pcf8574, true, power), restBytes);
    assert rest == [rest[0]] + rest[1..];
    BytesCons(Pcf8574, BacklightAfter(true, power), rest[0], rest[1..]);
    assert |restBytes| > 0;
  }
}
