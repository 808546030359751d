/** The calls the protocol layer makes on its transport, the two transports
    that realise them, the trace of `bus.write_byte` calls they leave, and
    what the display controller latches from that trace. */
module Bus {
  import opened Expander
  import Hd44780
  import LcdApiHal
  import I2cLcdHal

  /** One `bus.write_byte(address, value)` call. */
  datatype BusWrite = BusWrite(addr: int, value: int)

  /** `LcdApi`'s own `hal_write_byte` path, or the overrides of `I2cLcd`. */
  datatype Transport = NibblePulse | Pcf8574

  /** One call of the transport interface: `hal_write_command`,
      `hal_write_data`, `hal_backlight_on`, `hal_backlight_off`,
      `hal_write_init_nibble`, and the all-pins-low write `I2cLcd` sends
      first at power-up. */
  datatype HalOp =
    | WriteCommand(cmd: int)
    | WriteData(data: int)
    | BacklightOn
    | BacklightOff
    | InitNibble(nibble: int)
    | PinsLow

  /** The words one transport call puts on the bus while the backlight flag
      is `backlight`. `LcdApi`'s backlight hooks are empty. */
  function OpBytes(t: Transport, backlight: bool, op: HalOp): seq<int>
  {
    match op
    case WriteCommand(cmd) =>
      if t.NibblePulse? then LcdApiHal.WriteByteBytes(Hd44780.LcdRsCmd, backlight, cmd)
      else I2cLcdHal.CommandBytes(backlight, cmd)
    case WriteData(data) =>
      if t.NibblePulse? then LcdApiHal.WriteByteBytes(Hd44780.LcdRsData, backlight, data)
      else I2cLcdHal.DataBytes(backlight, data)
    case BacklightOn => if t.NibblePulse? then [] else I2cLcdHal.BacklightBytes(true)
    case BacklightOff => if t.NibblePulse? then [] else I2cLcdHal.BacklightBytes(false)
    case InitNibble(nibble) => I2cLcdHal.InitNibbleBytes(nibble)
    case PinsLow => [0x00]
  }

  /** The backlight flag after a call: `backlight_on` and `backlight_off`
      set it before invoking their hook; nothing else changes it. */
  function BacklightStep(backlight: bool, op: HalOp): bool
  {
    match op
    case BacklightOn => true
    case BacklightOff => false
    case _ => backlight
  }

  /** The backlight flag after a run of calls. */
  function BacklightAfter(backlight: bool, ops: seq<HalOp>): bool
    decreases |ops|
  {
    if ops == [] then backlight else BacklightAfter(BacklightStep(backlight, ops[0]), ops[1..])
  }

  /** The words a run of calls puts on the bus, each call using the backlight
      flag the calls before it left. */
  function Bytes(t: Transport, backlight: bool, ops: seq<HalOp>): seq<int>
    decreases |ops|
  {
    if ops == [] then []
    else OpBytes(t, backlight, ops[0]) + Bytes(t, BacklightStep(backlight, ops[0]), ops[1..])
  }

  /** The bus trace of writing `bytes` to device `addr`. */
  function Writes(addr: int, bytes: seq<int>): seq<BusWrite>
  {
    seq(|bytes|, i requires 0 <= i < |bytes| => BusWrite(addr, bytes[i]))
  }

  lemma WritesAppend(addr: int, a: seq<int>, b: seq<int>)
    ensures Writes(addr, a + b) == Writes(addr, a) + Writes(addr, b)
  {
  }

  lemma {:induction false} BacklightAfterAppend(backlight: bool, a: seq<HalOp>, b: seq<HalOp>)
    ensures BacklightAfter(backlight, a + b) == BacklightAfter(BacklightAfter(backlight, a), b)
    decreases |a|
  {
    if a == [] {
      assert a + b == b;
    } else {
      assert (a + b)[1..] == a[1..] + b;
      BacklightAfterAppend(BacklightStep(backlight, a[0]), a[1..], b);
    }
  }

  /** Running `a` and then `b` writes what `a` writes followed by what `b`
      writes under the backlight flag `a` leaves. */
  lemma {:induction false} BytesAppend(t: Transport, backlight: bool, a: seq<HalOp>, b: seq<HalOp>)
    ensures Bytes(t, backlight, a + b) == Bytes(t, backlight, a) + Bytes(t, BacklightAfter(backlight, a), b)
    decreases |a|
  {
    if a == [] {
      assert a + b == b;
    } else {
      assert (a + b)[1..] == a[1..] + b;
      BytesAppend(t, BacklightStep(backlight, a[0]), a[1..], b);
    }
  }

  /** A bus trace that extends a log of calls by `ops` extends the log's
      trace by the words of `ops`. */
  lemma LogExtension(t: Transport, addr: int, log: seq<HalOp>, ops: seq<HalOp>)
    ensures Writes(addr, Bytes(t, true, log + ops)) ==
            Writes(addr, Bytes(t, true, log)) + Writes(addr, Bytes(t, BacklightAfter(true, log), ops))
    ensures BacklightAfter(true, log + ops) == BacklightAfter(BacklightAfter(true, log), ops)
  {
    BytesAppend(t, true, log, ops);
    BacklightAfterAppend(true, log, ops);
    WritesAppend(addr, Bytes(t, true, log), Bytes(t, BacklightAfter(true, log), ops));
  }

  lemma LogAssoc(a: seq<HalOp>, b: seq<HalOp>, c: seq<HalOp>)
    ensures a + (b + c) == (a + b) + c
  {
  }

  lemma BytesCons(t: Transport, backlight: bool, op: HalOp, rest: seq<HalOp>)
    ensures Bytes(t, backlight, [op] + rest) == OpBytes(t, backlight, op) + Bytes(t, BacklightStep(backlight, op), rest)
  {
    assert ([op] + rest)[1..] == rest;
  }

  lemma ControllerStreamCons(op: HalOp, rest: seq<HalOp>)
    ensures ControllerStream([op] + rest) == ControllerView(op) + ControllerStream(rest)
  {
    assert ([op] + rest)[1..] == rest;
  }

  /** One more call on a log appends that call's words. */
  lemma LogStep(t: Transport, addr: int, log: seq<HalOp>, op: HalOp)
    ensures Writes(addr, Bytes(t, true, log + [op])) ==
            Writes(addr, Bytes(t, true, log)) + Writes(addr, OpBytes(t, BacklightAfter(true, log), op))
    ensures BacklightAfter(true, log + [op]) == BacklightStep(BacklightAfter(true, log), op)
  {
    LogExtension(t, addr, log, [op]);
    BytesSingle(t, BacklightAfter(true, log), op);
    BytesSingle(t, true, op);
  }

  lemma BytesSingle(t: Transport, backlight: bool, op: HalOp)
    ensures Bytes(t, backlight, [op]) == OpBytes(t, backlight, op)
    ensures BacklightAfter(backlight, [op]) == BacklightStep(backlight, op)
  {
    assert [op][1..] == [];
    assert OpBytes(t, backlight, op) + [] == OpBytes(t, backlight, op);
  }

  // ---------------------------------------------------------------------
  // What the HD44780 sees: it samples RS and D4..D7 when E falls.

  /** The register-select line and data nibble sampled on one falling edge of E. */
  datatype Latch = Latch(rs: bool, nibble: int)

  /** The samples the controller takes from a run of words on the expander. */
  function Latched(bytes: seq<int>): seq<Latch>
    decreases |bytes|
  {
    if |bytes| < 2 then []
    else
      (if HasEnable(bytes[0]) && !HasEnable(bytes[1]) then [Latch(HasRs(bytes[1]), DataNibble(bytes[1]))] else [])
      + Latched(bytes[1..])
  }

  /** What the controller must receive for one transport call, whichever
      transport carries it: a byte as its high then low nibble, an
      initialisation nibble alone, and nothing for the backlight and power-up
      writes. */
  function ControllerView(op: HalOp): seq<Latch>
  {
    match op
    case WriteCommand(cmd) => [Latch(false, (cmd / 16) % 16), Latch(false, cmd % 16)]
    case WriteData(data) => [Latch(true, (data / 16) % 16), Latch(true, data % 16)]
    case InitNibble(nibble) => [Latch(false, (nibble / 16) % 16)]
    case _ => []
  }

  function ControllerStream(ops: seq<HalOp>): seq<Latch>
    decreases |ops|
  {
    if ops == [] then [] else ControllerView(ops[0]) + ControllerStream(ops[1..])
  }

  /** Samples of two runs concatenate when the first run ends with E low. */
  lemma {:induction false} LatchedAppend(a: seq<int>, b: seq<int>)
    requires a != [] ==> !HasEnable(a[|a| - 1])
    ensures Latched(a + b) == Latched(a) + Latched(b)
    decreases |a|
  {
    if a == [] {
      assert a + b == b;
    } else if |a| == 1 {
      if b != [] {
        assert (a + b)[1..] == b;
      }
    } else {
      assert (a + b)[1..] == a[1..] + b;
      LatchedAppend(a[1..], b);
    }
  }

  lemma LatchedPulse(x: int, y: int)
    requires HasEnable(x) && !HasEnable(y)
    ensures Latched([x, y]) == [Latch(HasRs(y), DataNibble(y))]
  {
    assert [x, y][1..] == [y];
  }

  lemma LatchedIdlePulse(w: int, x: int, y: int)
    requires !HasEnable(w) && HasEnable(x) && !HasEnable(y)
    ensures Latched([w, x, y]) == [Latch(HasRs(y), DataNibble(y))]
  {
    assert [w, x, y][1..] == [x, y];
    LatchedPulse(x, y);
  }

  /** Each transport call leaves E low and delivers exactly `ControllerView`. */
  lemma OpLatched(t: Transport, backlight: bool, op: HalOp)
    ensures var bs := OpBytes(t, backlight, op);
      (bs != [] ==> !HasEnable(bs[|bs| - 1])) && Latched(bs) == ControllerView(op)
  {
    match op
    case WriteCommand(cmd) => TransferLatched(t, false, backlight, cmd);
    case WriteData(data) => TransferLatched(t, true, backlight, data);
    case InitNibble(nibble) =>
      I2cLcdHal.InitNibbleLayout(nibble);
      var n := (nibble / 16) % 16;
      WordFields(n, false, true, false);
      WordFields(n, false, false, false);
      LatchedPulse(Word(n, false, true, false), Word(n, false, false, false));
    case BacklightOn => WordFields(0, true, false, false);
    case BacklightOff => WordFields(0, false, false, false);
    case PinsLow =>
  }

  /** The words of one command or data call on either transport, in terms
      of `Word`: `hal_write_byte` surrounds each nibble's pulse with the
      idle word, the PCF8574 overrides send the pulse alone. */
  lemma TransferWords(t: Transport, rs: bool, backlight: bool, value: int)
    ensures var hi, lo := (value / 16) % 16, value % 16;
      var hE, h, lE, l := Word(hi, backlight, true, rs), Word(hi, backlight, false, rs),
                          Word(lo, backlight, true, rs), Word(lo, backlight, false, rs);
      OpBytes(t, backlight, if rs then WriteData(value) else WriteCommand(value)) ==
        (if t.NibblePulse? then [h, hE, h, l, lE, l] else [hE, h, lE, l])
  {
    if t.NibblePulse? {
      LcdApiHal.WriteByteLayout(if rs then 1 else 0, backlight, value);
    } else if rs {
      I2cLcdHal.DataLayout(backlight, value);
    } else {
      I2cLcdHal.CommandLayout(backlight, value);
    }
  }

  lemma TransferLatched(t: Transport, rs: bool, backlight: bool, value: int)
    ensures var bs := OpBytes(t, backlight, if rs then WriteData(value) else WriteCommand(value));
      bs != [] && !HasEnable(bs[|bs| - 1]) &&
      Latched(bs) == [Latch(rs, (value / 16) % 16), Latch(rs, value % 16)]
  {
    var hi, lo := (value / 16) % 16, value % 16;
    TransferWords(t, rs, backlight, value);
    WordFields(hi, backlight, true, rs);
    WordFields(hi, backlight, false, rs);
    WordFields(lo, backlight, true, rs);
    WordFields(lo, backlight, false, rs);
    var hE, h, lE, l := Word(hi, backlight, true, rs), Word(hi, backlight, false, rs),
                        Word(lo, backlight, true, rs), Word(lo, backlight, false, rs);
    if t.NibblePulse? {
      assert [h, hE, h, l, lE, l] == [h, hE, h] + [l, lE, l];
      LatchedIdlePulse(h, hE, h);
      LatchedIdlePulse(l, lE, l);
      LatchedAppend([h, hE, h], [l, lE, l]);
    } else {
      assert [hE, h, lE, l] == [hE, h] + [lE, l];
      LatchedPulse(hE, h);
      LatchedPulse(lE, l);
      LatchedAppend([hE, h], [lE, l]);
    }
  }

  /** Transport independence: whichever transport carries a run of calls,
      and whatever the backlight does, the controller latches the same
      register-select/nibble stream, `ControllerStream(ops)`. So `LcdApi`'s
      `hal_write_byte` path and `I2cLcd`'s overrides are interchangeable as far
      as the display is concerned. */
  lemma {:induction false} TransportIndependence(t: Transport, backlight: bool, ops: seq<HalOp>)
    ensures Latched(Bytes(t, backlight, ops)) == ControllerStream(ops)
    decreases |ops|
  {
    if ops != [] {
      TransportIndependence(t, BacklightStep(backlight, ops[0]), ops[1..]);
      OpLatched(t, backlight, ops[0]);
      LatchedAppend(OpBytes(t, backlight, ops[0]), Bytes(t, BacklightStep(backlight, ops[0]), ops[1..]));
    }
  }

  /** The round trip through the controller: the two nibbles latched for a
      command or data byte reassemble to `value & 0xFF`. */
  lemma ViewRoundTrip(op: HalOp)
    requires op.WriteCommand? || op.WriteData?
    ensures var v := ControllerView(op); var value := if op.WriteCommand? then op.cmd else op.data;
      |v| == 2 && v[0].rs == v[1].rs == op.WriteData? &&
      v[0].nibble * 16 + v[1].nibble == value % 256
  {
    NibbleSplit(if op.WriteCommand? then op.cmd else op.data);
  }

  /** Every word either transport emits is a byte with the read/write line low. */
  lemma {:induction false} NeverReads(t: Transport, backlight: bool, ops: seq<HalOp>)
    ensures forall b :: b in Bytes(t, backlight, ops) ==> 0 <= b < 256 && !HasRw(b)
    decreases |ops|
  {
    if ops != [] {
      NeverReads(t, BacklightStep(backlight, ops[0]), ops[1..]);
      OpPins(t, backlight, ops[0]);
    }
  }

  /** The pins of one call's words: bytes, RW low, and bit 3 equal to the
      current backlight flag in every word of a command, data or backlight
      write. */
  lemma OpPins(t: Transport, backlight: bool, op: HalOp)
    ensures forall b :: b in OpBytes(t, backlight, op) ==> 0 <= b < 256 && !HasRw(b)
    ensures op.WriteCommand? || op.WriteData? || op.BacklightOn? || op.BacklightOff? ==>
      forall b :: b in OpBytes(t, backlight, op) ==> (HasBacklight(b) <==> BacklightStep(backlight, op))
    ensures op.InitNibble? || op.PinsLow? ==> forall b :: b in OpBytes(t, backlight, op) ==> !HasBacklight(b) && !HasRs(b)
  {
    if op.WriteCommand? || op.WriteData? {
      TransferPinsBoth(t, backlight, op);
    } else {
      ControlPins(t, backlight, op);
    }
  }

  /** The words of the backlight, init-nibble and pins-low calls. */
  lemma ControlPins(t: Transport, backlight: bool, op: HalOp)
    requires !op.WriteCommand? && !op.WriteData?
    ensures forall b :: b in OpBytes(t, backlight, op) ==> 0 <= b < 256 && !HasRw(b)
    ensures op.BacklightOn? || op.BacklightOff? ==>
      forall b :: b in OpBytes(t, backlight, op) ==> (HasBacklight(b) <==> BacklightStep(backlight, op))
    ensures op.InitNibble? || op.PinsLow? ==> forall b :: b in OpBytes(t, backlight, op) ==> !HasBacklight(b) && !HasRs(b)
  {
    match op
    case InitNibble(nibble) =>
      I2cLcdHal.InitNibbleLayout(nibble);
      WordFields((nibble / 16) % 16, false, true, false);
      WordFields((nibble / 16) % 16, false, false, false);
    case BacklightOn => WordFields(0, true, false, false);
    case BacklightOff => WordFields(0, false, false, false);
    case PinsLow =>
  }

  lemma TransferPinsBoth(t: Transport, backlight: bool, op: HalOp)
    requires op.WriteCommand? || op.WriteData?
    ensures forall b :: b in OpBytes(t, backlight, op) ==>
      0 <= b < 256 && !HasRw(b) && (HasBacklight(b) <==> backlight) && (HasRs(b) <==> op.WriteData?)
  {
    var rs, value := op.WriteData?, if op.WriteData? then op.data else op.cmd;
    assert op == (if rs then WriteData(value) else WriteCommand(value));
    var hi, lo := (value / 16) % 16, value % 16;
    TransferWords(t, rs, backlight, value);
    WordFields(hi, backlight, true, rs);
    WordFields(hi, backlight, false, rs);
    WordFields(lo, backlight, true, rs);
    WordFields(lo, backlight, false, rs);
  }

  /** While the backlight is off, no word carries the backlight bit: once
      `backlight_off` has run, every later word has bit 3 clear until the next
      `backlight_on`. */
  lemma {:induction false} DarkStaysDark(t: Transport, ops: seq<HalOp>)
    requires forall k :: 0 <= k < |ops| ==> !ops[k].BacklightOn?
    ensures forall b :: b in Bytes(t, false, ops) ==> !HasBacklight(b)
    ensures !BacklightAfter(false, ops)
    decreases |ops|
  {
    if ops != [] {
      DarkStaysDark(t, ops[1..]);
      OpPins(t, false, ops[0]);
    }
  }

  /** While the backlight is on and only commands and data are sent, every
      word carries the backlight bit. */
  lemma {:induction false} LitStaysLit(t: Transport, ops: seq<HalOp>)
    requires forall k :: 0 <= k < |ops| ==> ops[k].WriteCommand? || ops[k].WriteData?
    ensures forall b :: b in Bytes(t, true, ops) ==> HasBacklight(b)
    ensures BacklightAfter(true, ops)
    decreases |ops|
  {
    if ops != [] {
      LitStaysLit(t, ops[1..]);
      OpPins(t, true, ops[0]);
    }
  }
}
