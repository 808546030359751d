/** The cursor rules of `LcdApi`: where `move_to` points the controller,
    and how `putchar` and `putstr` advance, wrap and suppress line feeds. */
module CursorRules {
  import opened Hd44780
  import opened Bus

  /** `num_lines` and `num_columns` after the constructor's clamping. */
  datatype Geometry = Geometry(lines: nat, columns: nat)

  /** `cursor_x`, `cursor_y` and `implied_newline`. */
  datatype CursorState = CursorState(x: int, y: int, impliedNewline: bool)

  predicate InRange(g: Geometry, c: CursorState)
  {
    0 <= c.x < g.columns && 0 <= c.y < g.lines
  }

  /** The command `move_to(x, y)` sends. */
  function MoveToOp(g: Geometry, x: int, y: int): HalOp
  {
    WriteCommand(DdramCommand(g.columns, x, y))
  }

  /** The cursor after `putchar(ch)`. A line feed moves to the next line
      unless the previous wrap was implied; any other character advances x.
      Reaching `columns` wraps to the start of the next line and records
      whether the wrap was implied; reaching `lines` wraps to the top. */
  function Putchar(g: Geometry, c: CursorState, ch: char): CursorState
  {
    var x := if ch == '\n' then (if c.impliedNewline then c.x else g.columns) else c.x + 1;
    var wrapped := x >= g.columns;
    var y := if wrapped then c.y + 1 else c.y;
    CursorState(
      if wrapped then 0 else x,
      if y >= g.lines then 0 else y,
      if wrapped then ch != '\n' else c.impliedNewline)
  }

  /** The line below `y`, the bottom line wrapping to the top. */
  function NextLine(g: Geometry, y: int): int
  {
    if y + 1 < g.lines then y + 1 else 0
  }

  /** On the display, the next line is `(y + 1) mod lines`. */
  lemma NextLineIsModulo(g: Geometry, y: int)
    requires 0 <= y < g.lines
    ensures NextLine(g, y) == (y + 1) % g.lines
    ensures 0 <= NextLine(g, y) < g.lines
  {
    if y + 1 == g.lines {
      assert (y + 1) % g.lines == 0;
    }
  }

  /** The transport calls `putchar(ch)` makes: the character's code as data
      unless it is a line feed, then always a `move_to` of the new cursor.
      The ensures only spell out the shape, for the proofs of `Lcd.Putchar`
      and `PutstrWritesText`; what the calls mean is `PutcharTracksCursor`. */
  function PutcharOps(g: Geometry, c: CursorState, ch: char): (ops: seq<HalOp>)
    ensures |ops| == (if ch == '\n' then 1 else 2)
    ensures ops[|ops| - 1] == MoveToOp(g, Putchar(g, c, ch).x, Putchar(g, c, ch).y)
    ensures ch != '\n' ==> ops[0] == WriteData(ch as int)
  {
    var r := Putchar(g, c, ch);
    (if ch == '\n' then [] else [WriteData(ch as int)]) + [MoveToOp(g, r.x, r.y)]
  }

  /** The cursor after `putstr(s)`: `putchar` of each character in turn. */
  function Putstr(g: Geometry, c: CursorState, s: string): CursorState
    decreases |s|
  {
    if s == [] then c else Putstr(g, Putchar(g, c, s[0]), s[1..])
  }

  function PutstrOps(g: Geometry, c: CursorState, s: string): seq<HalOp>
    decreases |s|
  {
    if s == [] then [] else PutcharOps(g, c, s[0]) + PutstrOps(g, Putchar(g, c, s[0]), s[1..])
  }

  /** `putstr` of a suffix of `s` starting at `i` is `putchar` of `s[i]`
      followed by `putstr` of the rest. */
  lemma PutstrStep(g: Geometry, c: CursorState, s: string, i: int)
    requires 0 <= i < |s|
    ensures Putstr(g, c, s[i..]) == Putstr(g, Putchar(g, c, s[i]), s[i + 1..])
    ensures PutstrOps(g, c, s[i..]) == PutcharOps(g, c, s[i]) + PutstrOps(g, Putchar(g, c, s[i]), s[i + 1..])
  {
    assert s[i..][0] == s[i] && s[i..][1..] == s[i + 1..];
  }

  /** A cursor on the display stays on the display. */
  lemma PutcharStaysInRange(g: Geometry, c: CursorState, ch: char)
    requires InRange(g, c)
    ensures InRange(g, Putchar(g, c, ch))
  {
  }

  /** A visible character that does not reach the last column: one data
      write of its code, x + 1, y and `implied_newline` unchanged. */
  lemma PutcharAdvances(g: Geometry, c: CursorState, ch: char)
    requires ch != '\n' && 0 <= c.y < g.lines && c.x + 1 < g.columns
    ensures Putchar(g, c, ch) == CursorState(c.x + 1, c.y, c.impliedNewline)
    ensures PutcharOps(g, c, ch) == [WriteData(ch as int), MoveToOp(g, c.x + 1, c.y)]
  {
  }

  /** A visible character in the last column wraps to the start of the next
      line, from the bottom line to the top, and marks the wrap as implied. */
  lemma PutcharWraps(g: Geometry, c: CursorState, ch: char)
    requires ch != '\n' && 0 <= c.y < g.lines && c.x + 1 >= g.columns
    ensures Putchar(g, c, ch) == CursorState(0, NextLine(g, c.y), true)
    ensures PutcharOps(g, c, ch) == [WriteData(ch as int), MoveToOp(g, 0, NextLine(g, c.y))]
  {
  }

  /** A line feed right after an implied wrap writes nothing and leaves the
      cursor where it is; only the `move_to` is sent. */
  lemma NewlineSuppressed(g: Geometry, c: CursorState)
    requires c.impliedNewline && InRange(g, c)
    ensures Putchar(g, c, '\n') == c
    ensures PutcharOps(g, c, '\n') == [MoveToOp(g, c.x, c.y)]
  {
  }

  /** Any other line feed moves to the start of the next line and clears
      `implied_newline`. */
  lemma NewlineAdvances(g: Geometry, c: CursorState)
    requires !c.impliedNewline && 0 <= c.y < g.lines
    ensures Putchar(g, c, '\n') == CursorState(0, NextLine(g, c.y), false)
    ensures PutcharOps(g, c, '\n') == [MoveToOp(g, 0, NextLine(g, c.y))]
  {
  }

  /** A display of up to 4x40 whose rows do not overlap in DDRAM (rows 2
      and 3 start at `columns` and `0x40 + columns`). */
  predicate Addressable(g: Geometry)
  {
    g.lines <= 4 && g.columns <= 40 && (g.lines > 2 ==> 2 * g.columns <= 64)
  }

  /** On such a display, `putchar` from a cursor on it writes the character's
      code (nothing for a line feed) and sends one command, and that last
      command selects the new cursor's cell: the controller's address
      follows the logical cursor. */
  lemma PutcharTracksCursor(g: Geometry, c: CursorState, ch: char)
    requires InRange(g, c) && Addressable(g)
    ensures var ops, r := PutcharOps(g, c, ch), Putchar(g, c, ch);
      DataWrites(ops) == (if ch == '\n' then [] else [ch as int]) && CommandCount(ops) == 1 &&
      ops[|ops| - 1].WriteCommand? && DdramPosition(g.columns, ops[|ops| - 1].cmd) == (r.x, r.y)
  {
    var ops, r := PutcharOps(g, c, ch), Putchar(g, c, ch);
    PutcharStaysInRange(g, c, ch);
    DdramRoundTrip(g.columns, r.x, r.y);
    if ch == '\n' {
      assert ops[1..] == [];
    } else {
      assert ops[1..] == [MoveToOp(g, r.x, r.y)] && ops[1..][1..] == [];
      assert DataWrites(ops[1..]) == [];
      assert CommandCount(ops[1..]) == 1;
    }
  }

  /** After a non-empty `putstr` from a cursor on such a display, the last
      command sent selects the cell of the final cursor. */
  lemma {:induction false} PutstrTracksCursor(g: Geometry, c: CursorState, s: string)
    requires InRange(g, c) && Addressable(g) && s != []
    ensures var ops, r := PutstrOps(g, c, s), Putstr(g, c, s);
      |ops| > 0 && ops[|ops| - 1].WriteCommand? && DdramPosition(g.columns, ops[|ops| - 1].cmd) == (r.x, r.y)
    decreases |s|
  {
    var first, next := PutcharOps(g, c, s[0]), Putchar(g, c, s[0]);
    var rest := PutstrOps(g, next, s[1..]);
    assert PutstrOps(g, c, s) == first + rest;
    PutcharTracksCursor(g, c, s[0]);
    if |s| == 1 {
      assert rest == [] && first + rest == first;
    } else {
      PutcharStaysInRange(g, c, s[0]);
      PutstrTracksCursor(g, next, s[1..]);
      assert (first + rest)[|first + rest| - 1] == rest[|rest| - 1];
    }
  }

  /** `putstr` keeps a cursor on the display on the display. */
  lemma {:induction false} PutstrStaysInRange(g: Geometry, c: CursorState, s: string)
    requires InRange(g, c)
    ensures InRange(g, Putstr(g, c, s))
    decreases |s|
  {
    if s != [] {
      PutcharStaysInRange(g, c, s[0]);
      PutstrStaysInRange(g, Putchar(g, c, s[0]), s[1..]);
    }
  }

  /** The character codes in their order, skipping line feeds. */
  function Visible(s: string): seq<int>
    decreases |s|
  {
    if s == [] then [] else (if s[0] == '\n' then [] else [s[0] as int]) + Visible(s[1..])
  }

  /** The values of the data writes among a run of transport calls. */
  function DataWrites(ops: seq<HalOp>): seq<int>
    decreases |ops|
  {
    if ops == [] then [] else (if ops[0].WriteData? then [ops[0].data] else []) + DataWrites(ops[1..])
  }

  /** The number of commands among a run of transport calls. */
  function CommandCount(ops: seq<HalOp>): nat
    decreases |ops|
  {
    if ops == [] then 0 else (if ops[0].WriteCommand? then 1 else 0) + CommandCount(ops[1..])
  }

  lemma {:induction false} DataWritesAppend(a: seq<HalOp>, b: seq<HalOp>)
    ensures DataWrites(a + b) == DataWrites(a) + DataWrites(b)
    ensures CommandCount(a + b) == CommandCount(a) + CommandCount(b)
    decreases |a|
  {
    if a == [] {
      assert a + b == b;
    } else {
      var ab := a + b;
      assert ab[0] == a[0] && ab[1..] == a[1..] + b;
      DataWritesAppend(a[1..], b);
      var head := if a[0].WriteData? then [a[0].data] else [];
      assert DataWrites(ab) == head + DataWrites(a[1..] + b);
      assert DataWrites(a) == head + DataWrites(a[1..]);
    }
  }

  /** `putstr(s)` sends exactly the codes of the visible characters of `s` as
      data, in order, and one `move_to` per character. */
  lemma {:induction false} PutstrWritesText(g: Geometry, c: CursorState, s: string)
    ensures DataWrites(PutstrOps(g, c, s)) == Visible(s)
    ensures CommandCount(PutstrOps(g, c, s)) == |s|
    decreases |s|
  {
    if s != [] {
      var first := PutcharOps(g, c, s[0]);
      PutstrWritesText(g, Putchar(g, c, s[0]), s[1..]);
      DataWritesAppend(first, PutstrOps(g, Putchar(g, c, s[0]), s[1..]));
      if s[0] == '\n' {
        assert first == [MoveToOp(g, Putchar(g, c, s[0]).x, Putchar(g, c, s[0]).y)];
      } else {
        assert first == [WriteData(s[0] as int), MoveToOp(g, Putchar(g, c, s[0]).x, Putchar(g, c, s[0]).y)];
      }
      assert first[1..] == [] || first[1..][1..] == [];
    }
  }

  predicate NoNewline(s: string)
  {
    forall i :: 0 <= i < |s| ==> s[i] != '\n'
  }

  lemma {:induction false} PutstrSnoc(g: Geometry, c: CursorState, s: string, ch: char)
    ensures Putstr(g, c, s + [ch]) == Putchar(g, Putstr(g, c, s), ch)
    decreases |s|
  {
    if s == [] {
      assert [ch][1..] == [];
    } else {
      assert (s + [ch])[1..] == s[1..] + [ch];
      PutstrSnoc(g, Putchar(g, c, s[0]), s[1..], ch);
    }
  }

  /** The wrap law: a full line of visible characters written from the start
      of a line leaves the cursor at the start of the next line, the bottom
      line wrapping to the top, with the wrap marked as implied; a line feed
      then changes nothing. */
  lemma WrapLaw(g: Geometry, y: int, implied: bool, s: string)
    requires NoNewline(s) && |s| == g.columns > 0 && 0 <= y < g.lines
    ensures Putstr(g, CursorState(0, y, implied), s) == CursorState(0, NextLine(g, y), true)
    ensures Putchar(g, Putstr(g, CursorState(0, y, implied), s), '\n') == CursorState(0, NextLine(g, y), true)
  {
    var init := s[..|s| - 1];
    PutstrFromColumn(g, 0, y, implied, init);
    PutstrSnoc(g, CursorState(0, y, implied), init, s[|s| - 1]);
    assert init + [s[|s| - 1]] == s;
  }

  /** On a 2x16 display, "HS:42" from the home position leaves the cursor at
      (5, 0). "Score" written from (14, 0) wraps once, to (3, 1), with the
      wrap implied, so a line feed straight after it changes nothing. */
  lemma ScoreLineScenario()
    ensures Putstr(Geometry(2, 16), CursorState(0, 0, false), "HS:42") == CursorState(5, 0, false)
    ensures Putstr(Geometry(2, 16), CursorState(14, 0, false), "Score") == CursorState(3, 1, true)
    ensures Putstr(Geometry(2, 16), CursorState(14, 0, false), "Score\n") == CursorState(3, 1, true)
  {
    var g := Geometry(2, 16);
    assert NoNewline("HS:42");
    PutstrFromColumn(g, 0, 0, false, "HS:42");
    PutstrSnoc(g, CursorState(14, 0, false), "Score", '\n');
    assert "Score" + ['\n'] == "Score\n";
  }

  lemma {:induction false} PutstrAppend(g: Geometry, c: CursorState, a: string, b: string)
    ensures Putstr(g, c, a + b) == Putstr(g, Putstr(g, c, a), b)
    decreases |a|
  {
    if a == [] {
      assert a + b == b;
    } else {
      assert (a + b)[1..] == a[1..] + b;
      PutstrAppend(g, Putchar(g, c, a[0]), a[1..], b);
    }
  }

  /** `k` visible characters from column `x`, short of the line's end, leave
      the cursor at column `x + k` of the same line. */
  lemma {:induction false} PutstrFromColumn(g: Geometry, x: int, y: int, implied: bool, s: string)
    requires NoNewline(s) && 0 <= x && x + |s| < g.columns && 0 <= y < g.lines
    ensures Putstr(g, CursorState(x, y, implied), s) == CursorState(x + |s|, y, implied)
    decreases |s|
  {
    if s != [] {
      PutstrFromColumn(g, x + 1, y, implied, s[1..]);
    }
  }

  /** After an implied wrap, visible characters that stay on the line leave
      `implied_newline` set, so a later line feed is still swallowed. */
  lemma ImpliedNewlinePersists(g: Geometry, c: CursorState, s: string)
    requires c.impliedNewline && InRange(g, c) && NoNewline(s) && c.x + |s| < g.columns
    ensures Putstr(g, c, s + "\n") == CursorState(c.x + |s|, c.y, true)
  {
    PutstrFromColumn(g, c.x, c.y, true, s);
    PutstrSnoc(g, c, s, '\n');
  }

  /** Once set on a cursor on the display, `implied_newline` stays set and
      the cursor stays on the display, whatever is written: a line feed
      never wraps there, and every visible wrap sets the flag again. */
  lemma {:induction false} FlagSticks(g: Geometry, c: CursorState, s: string)
    requires InRange(g, c) && c.impliedNewline
    ensures InRange(g, Putstr(g, c, s)) && Putstr(g, c, s).impliedNewline
    decreases |s|
  {
    if s != [] {
      PutcharStaysInRange(g, c, s[0]);
      FlagSticks(g, Putchar(g, c, s[0]), s[1..]);
    }
  }

  /** So after an implied wrap on the display no later line feed moves the
      cursor, after any text, further wraps included: it sends only the
      `move_to` of the unchanged cursor. */
  lemma LineFeedsIgnored(g: Geometry, c: CursorState, s: string)
    requires InRange(g, c) && c.impliedNewline
    ensures var r := Putstr(g, c, s);
      Putchar(g, r, '\n') == r && PutcharOps(g, r, '\n') == [MoveToOp(g, r.x, r.y)]
  {
    FlagSticks(g, c, s);
    NewlineSuppressed(g, Putstr(g, c, s));
  }

  /** The one way out: a line feed with the cursor at or past the last
      column (after a `move_to` there) wraps to the next line and clears the
      flag. */
  lemma FlagClearedPastEdge(g: Geometry, c: CursorState)
    requires c.x >= g.columns && 0 <= c.y < g.lines
    ensures Putchar(g, c, '\n') == CursorState(0, NextLine(g, c.y), false)
  {
  }
}
