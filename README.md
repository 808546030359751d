# HD44780 character-LCD driver over a PCF8574 I2C expander

A Dafny model of a two-layer Python driver for HD44780-compatible character
displays, together with the pure rules of a small obstacle-avoiding game that
runs on it.

- `LcdApi` (lcd_api.py) is the protocol layer. It knows the controller's
  command set and keeps the cursor (`cursor_x`, `cursor_y`), the
  `implied_newline` flag and the `backlight` flag. It encodes DDRAM
  addresses, wraps text, and uploads custom glyphs. Once an implied wrap has
  set `implied_newline`, no line feed moves the cursor while it is on the
  display. It also carries a default transport,
  `hal_write_byte`/`hal_pulse_enable`, which sends each nibble as a word
  followed by an enable pulse.
- `I2cLcd` (i2c_lcd_raspi4.py) overrides the transport for a PCF8574. Every
  command or data byte becomes four expander words: the high nibble with E
  and then without, then the low nibble the same way. It adds the power-up
  sequence of reset nibbles.
- avoid_game.py supplies the game rules: the player switches rows, one
  obstacle walks left and respawns, and there is a highscore, a death
  condition and a victory condition.

The bus is a trace. Every `bus.write_byte(address, value)` appends
`BusWrite(address, value)` to the field `trace` of the driver object.

Modules:

- `Expander` defines the 8-bit word on the expander pins (`Word`) and the
  Python bit operators as the drivers use them.
- `Hd44780` holds the command set and the encodings: DDRAM, CGRAM and
  function set.
- `LcdApiHal` and `I2cLcdHal` give the words each transport writes.
- `Bus` makes the two transports alternatives (`Transport`). It holds the
  log of transport calls (`HalOp`) and the words a log produces
  (`Bytes`). It also gives the controller's view of those words (`Latched`):
  RS and the data nibble, sampled on each falling edge of E.
- `CursorRules` holds the cursor rules of `putchar`/`putstr` as functions
  over a cursor value.
- `Driver` holds the class `Lcd`, whose methods change the fields in place,
  the start-up sequences, and the as-written constructor.
- `AvoidGame` holds the game rules.

The class invariant `Lcd.Valid()` ties the bus trace to the log of transport
calls: `trace == Writes(address, Bytes(transport, true, halLog))`. It also
ties the backlight flag to the last backlight call in that log. Each method
states its new cursor and flags, and the transport calls it makes
(`Emitted(ops)`). Together with `Valid()`, `Emitted(ops)` fixes the words
appended to the trace (`Bus.LogExtension`, `Bus.LogStep`).

`Bus.TransportIndependence` shows that both transports deliver the same
RS/nibble stream to the controller, `ControllerStream(ops)`.

Behaviour of the code worth knowing:

- Start-up order. The code sends the function set last, after the base
  initialisation (i2c_lcd_raspi4.py:35-39). It does not send it before
  display off.
- Sticky `implied_newline`. Only a wrap changes the flag
  (lcd_api.py:107-110), and a wrap caused by a visible character sets it
  again. With the flag set, a line feed on the display does not wrap, so
  the flag never clears there. Visible characters, further wraps, `move_to`
  and `clear` all leave it set, and every later line feed is swallowed
  (`CursorRules.FlagSticks`, `CursorRules.LineFeedsIgnored`). Only a line
  feed sent after a `move_to` at or past the last column clears it
  (`CursorRules.FlagClearedPastEdge`).
- Backlight bit. Not every word carries it. The init nibbles and
  `hal_backlight_off` write it as 0, and `LcdApi`'s own backlight hooks
  write nothing (`Bus.OpPins`).
- No validation and no error handling. `move_to` accepts any coordinates,
  and bus failures are not caught.
- Every `putchar` ends with a `move_to`, not only those that wrap.

## Model

| member | source | states |
|---|---|---|
| Expander.WordFields | i2c_lcd_raspi4.py:5-11 | a pin word is a byte; its data nibble, backlight, E and RS fields read back as laid out and RW is low |
| Expander.OrBacklight | i2c_lcd_raspi4.py:57-58 | `(backlight << 3) \| (nibble << 4)` is the word with that nibble and backlight and every control line low |
| Expander.NibbleSplit | i2c_lcd_raspi4.py:57-63 | the high nibble `(v >> 4) & 0x0F` and the low nibble `v & 0x0F` reassemble to `v & 0xFF` |
| Expander.OrFields | lcd_api.py:151-155 | OR-ing a word with RS or E sets just that field; `& ~E` clears just E; both are idempotent |
| Hd44780.ControlWords | lcd_api.py:63-79 | display off 0x08, display on and hide cursor 0x0C, show cursor and blink off 0x0E, blink on 0x0F, entry mode 0x06 |
| Hd44780.DdramAddress | lcd_api.py:92-96 | the DDRAM address of `move_to(x, y)`, built with the bit tests of the code; its layout is stated by `DdramLayout` |
| Hd44780.DdramCommand | lcd_api.py:97 | `LCD_DDRAM \| addr`; its range and its inverse are stated by `DdramLayout` and `DdramRoundTrip` |
| Hd44780.DdramLayout | lcd_api.py:92-97 | the address is bounded by 127 + columns, and on cells with x < 64 and y < 4 it is x + 0x40·(y mod 2) + columns·(y div 2); on displays up to 40 wide the command lies in 0x80..0xFF, and it is 0x80 + address when the address is below 0x80 |
| Hd44780.DdramRoundTrip | lcd_api.py:89-97 | decoding the command for cell (x, y) of a display up to 4x40, whose rows do not overlap, gives back (x, y) |
| Hd44780.DdramInjective | lcd_api.py:89-97 | different cells of such a display get different commands |
| Hd44780.CgramCommand | lcd_api.py:120-121 | `LCD_CGRAM \| ((location & 7) << 3)`; stated by `CgramLayout` |
| Hd44780.CgramLayout | lcd_api.py:120-121 | the command lies in 0x40..0x78, is a multiple of 8, and selects slot `location & 7` |
| Hd44780.FunctionSet | i2c_lcd_raspi4.py:36-39 | high nibble 0x2 (4-bit interface); the two-line bit is set iff num_lines > 1; the 5x10-font bit and the low bits are clear |
| LcdApiHal.PulseEnableBytes | lcd_api.py:151-156 | the two words of `hal_pulse_enable`; stated by `PulseEnableLayout` |
| LcdApiHal.PulseEnableLayout | lcd_api.py:151-156 | two words: the data with E raised, then with E cleared; no other bit changes |
| LcdApiHal.NibbleWordLayout | lcd_api.py:143-148 | `nibble_shifted \| rs \| (backlight << 3)` is the pin word with that nibble, RS and backlight, and E low |
| LcdApiHal.WriteByteBytes | lcd_api.py:142-149 | the six words of `hal_write_byte`; stated by `WriteByteLayout` and `Bus.TransferLatched` |
| LcdApiHal.WriteByteLayout | lcd_api.py:142-149 | six words: for the high and then the low nibble, E low, high, low; each word has RS = rs, the backlight bit and RW low |
| I2cLcdHal.CommandBytes | i2c_lcd_raspi4.py:55-65 | the four words of `hal_write_command`; stated by `CommandLayout` and `TransferPins` |
| I2cLcdHal.CommandLayout | i2c_lcd_raspi4.py:55-65 | four words [hi+E, hi, lo+E, lo] with RS clear (`Transfer`); words 2 and 4 reassemble to `cmd & 0xFF` |
| I2cLcdHal.DataBytes | i2c_lcd_raspi4.py:71-83 | the four words of `hal_write_data`; stated by `DataLayout` and `TransferPins` |
| I2cLcdHal.DataLayout | i2c_lcd_raspi4.py:71-83 | the same four-word shape with MASK_RS set in every word; words 2 and 4 reassemble to `data & 0xFF` |
| I2cLcdHal.InitNibbleBytes | i2c_lcd_raspi4.py:41-45 | the two words of `hal_write_init_nibble`; stated by `InitNibbleLayout` |
| I2cLcdHal.InitNibbleLayout | i2c_lcd_raspi4.py:41-45 | two words: the high nibble of the argument with E, then without; no backlight bit and no RS |
| I2cLcdHal.BacklightBytes | i2c_lcd_raspi4.py:47-53 | `hal_backlight_on` writes exactly 0x08 and `hal_backlight_off` exactly 0x00 |
| I2cLcdHal.TransferPins | i2c_lcd_raspi4.py:55-83 | in each transfer, E is set in words 1 and 3 and clear in words 2 and 4; RW is never set; RS is as requested; bit 3 equals the backlight flag |
| Bus.OpBytes | lcd_api.py:128-156 | the words one transport call writes on either transport; stated by `TransferWords`, `OpPins` and `OpLatched` |
| Bus.BytesAppend | lcd_api.py:128-156 | the words of two runs of calls are the first run's words followed by the second's, under the backlight flag the first leaves |
| Bus.LogExtension | lcd_api.py:128-156 | extending the call log extends the trace by exactly the words of the new calls |
| Bus.LogStep | lcd_api.py:136-149 | one more transport call appends exactly that call's words, under the current backlight flag |
| Bus.LatchedPulse | lcd_api.py:151-156 | a word with E set followed by one with E clear latches exactly the second word's RS and nibble |
| Bus.LatchedIdlePulse | lcd_api.py:143-149 | a word with E low, then E high, then E low latches exactly one RS/nibble pair |
| Bus.OpLatched | i2c_lcd_raspi4.py:55-83 | every transport call leaves E low and the controller latches exactly its nibbles: a byte as high then low nibble, an init nibble alone, nothing for backlight writes |
| Bus.TransferWords | i2c_lcd_raspi4.py:55-83 | a command or data byte is six words (idle, strobe, idle per nibble) on the base transport and four (strobe, idle per nibble) on the PCF8574, high nibble first, RS as the call asks |
| Bus.TransferLatched | lcd_api.py:142-156 | a command or data byte reaches the controller as its high then its low nibble with the right RS, on either transport |
| Bus.TransportIndependence | i2c_lcd_raspi4.py:13-83 | for any run of calls, both transports deliver the same RS/nibble stream to the controller, whatever the backlight does |
| Bus.ViewRoundTrip | i2c_lcd_raspi4.py:57-65 | the two latched nibbles of a byte reassemble to the value mod 256 |
| Bus.NeverReads | lcd_api.py:142-156 | every word either transport emits is a byte, and the read/write line is low |
| Bus.OpPins | i2c_lcd_raspi4.py:41-83 | every word of a command, data or backlight write carries the current backlight flag; init nibbles and the power-up word carry neither backlight nor RS |
| Bus.TransferPinsBoth | lcd_api.py:142-156 | every word of a command or data byte is a byte with RW low, the backlight bit equal to the flag and RS set exactly for data |
| Bus.ControlPins | i2c_lcd_raspi4.py:41-53 | the backlight writes carry the backlight bit exactly when they turn it on; init nibbles and the power-up word carry neither backlight nor RS; RW is never set |
| Bus.DarkStaysDark | lcd_api.py:85-87 | after backlight off, no word has the backlight bit until the next backlight on |
| Bus.LitStaysLit | lcd_api.py:81-83 | with the backlight on, every word of the commands and data that follow has the backlight bit |
| CursorRules.Putchar | lcd_api.py:99-112 | the cursor and flag after putchar; stated by `PutcharStaysInRange`, `PutcharAdvances`, `PutcharWraps`, `NewlineSuppressed` and `NewlineAdvances` |
| CursorRules.Putstr | lcd_api.py:115-117 | putchar of each character in turn; stated by `PutstrStaysInRange`, `PutstrAppend`, `WrapLaw`, `ImpliedNewlinePersists` and `FlagSticks` |
| CursorRules.PutstrOps | lcd_api.py:115-117 | the calls of putchar of each character in turn; stated by `PutstrWritesText` and `PutstrTracksCursor` |
| CursorRules.NextLineIsModulo | lcd_api.py:107-112 | the next line after line y is (y + 1) mod lines, and it is a line of the display |
| CursorRules.PutcharOps | lcd_api.py:99-113 | the calls of putchar: the character code as data unless it is a line feed, then the `move_to` of the new cursor; what they mean is stated by `PutcharTracksCursor` |
| CursorRules.PutcharTracksCursor | lcd_api.py:99-113 | on a display of up to 4x40 whose rows do not overlap, from a cursor on it: the data written is the character's code (none for a line feed), one command is sent, and it selects exactly the new cursor's cell |
| CursorRules.PutstrTracksCursor | lcd_api.py:113-117 | after a non-empty putstr from a cursor on such a display, the last command sent selects exactly the final cursor's cell |
| CursorRules.PutcharStaysInRange | lcd_api.py:107-112 | a cursor inside the display stays inside it |
| CursorRules.PutcharAdvances | lcd_api.py:103-105 | a visible character short of the last column: one data write of its code, x + 1, y and implied_newline unchanged |
| CursorRules.PutcharWraps | lcd_api.py:107-112 | a visible character in the last column wraps to column 0 of the next line (`NextLine`, (y + 1) mod lines) and sets implied_newline |
| CursorRules.NewlineSuppressed | lcd_api.py:100-102 | with implied_newline set, a line feed writes no data and leaves the cursor unchanged; only the `move_to` is sent |
| CursorRules.NewlineAdvances | lcd_api.py:100-110 | with implied_newline clear, a line feed moves to column 0 of the next line (`NextLine`) and leaves implied_newline clear |
| CursorRules.PutstrStaysInRange | lcd_api.py:115-117 | putstr keeps a cursor on the display on the display |
| CursorRules.PutstrWritesText | lcd_api.py:115-117 | putstr sends exactly the codes of the visible characters, in order, and one `move_to` per character |
| CursorRules.PutstrSnoc | lcd_api.py:115-117 | putstr of s followed by one more character is putchar of that character after putstr of s |
| CursorRules.PutstrAppend | lcd_api.py:115-117 | putstr of a + b is putstr of b after putstr of a |
| CursorRules.PutstrFromColumn | lcd_api.py:103-105 | k visible characters from column x, short of the line's end, leave the cursor at (x + k, y) with the flag unchanged |
| CursorRules.WrapLaw | lcd_api.py:99-117 | a full line of visible characters from (0, y) ends at column 0 of the next line (`NextLine`) with the wrap implied; a line feed then changes nothing |
| CursorRules.ScoreLineScenario | lcd_api.py:115-117 | on a 2x16 display, "HS:42" from the origin ends at (5, 0); "Score" from (14, 0) wraps once and ends at (3, 1) with the wrap implied; a line feed after it changes nothing |
| CursorRules.FlagSticks | lcd_api.py:100-110 | from a cursor on the display with implied_newline set, any string leaves the cursor on the display and the flag set |
| CursorRules.LineFeedsIgnored | lcd_api.py:100-113 | in that state, a line feed after any string changes nothing and sends only the `move_to` of the unchanged cursor |
| CursorRules.FlagClearedPastEdge | lcd_api.py:100-110 | a line feed with the cursor at or past the last column wraps to column 0 of the next line and clears the flag, whatever it was |
| CursorRules.ImpliedNewlinePersists | lcd_api.py:107-110 | after an implied wrap, visible characters that stay on the line leave the flag set, so a later line feed is swallowed |
| Driver.BaseInitOps | lcd_api.py:50-55 | the calls of the base start-up; stated by `BaseInitCommands` and `BaseInitView` |
| Driver.PowerUpOps | i2c_lcd_raspi4.py:20-32 | the power-up calls; stated by `PowerUpWords` and `PowerUpView` |
| Driver.I2cInitOps | i2c_lcd_raspi4.py:17-39 | the intended start-up calls; stated by `I2cInitLayout` and `I2cInitView` |
| Driver.BaseInitCommands | lcd_api.py:50-55 | the base start-up calls, in order: command 0x08, backlight on, then commands 0x01, 0x06, 0x0C and 0x0C |
| Driver.I2cInitLayout | i2c_lcd_raspi4.py:17-39 | the intended start-up is twelve calls: the five power-up calls, then the six base start-up calls, then the function set for num_lines |
| Driver.Lcd.Api | lcd_api.py:40-55 | clamps lines to at most 4 and columns to at most 40; the cursor is at (0, 0), implied_newline is false, the backlight is on; the trace holds exactly the base start-up |
| Driver.Lcd.I2c | i2c_lcd_raspi4.py:17-39 | the same clamped state, with the trace holding exactly the intended start-up for the given reset nibble |
| Driver.Lcd.PinsLowWrite | i2c_lcd_raspi4.py:20 | one all-pins-low call on the PCF8574, the single word 0x00 |
| Driver.Lcd.PowerUp | i2c_lcd_raspi4.py:20-33 | all pins low, the reset nibble three times, then the nibble for 4-bit mode |
| Driver.Lcd.InitDisplay | lcd_api.py:50-55 | sends the base start-up calls, leaves the backlight on and the cursor at (0, 0) |
| Driver.Lcd.BusWriteByte | lcd_api.py:144 | appends exactly one write of the value to the device's address |
| Driver.Lcd.HalPulseEnable | lcd_api.py:151-156 | appends the two pulse words and nothing else |
| Driver.Lcd.HalWriteNibble | lcd_api.py:143-149 | appends the nibble's word followed by its two enable-pulse words |
| Driver.Lcd.HalWriteByte | lcd_api.py:142-149 | appends exactly the six words of `WriteByteBytes` under the current backlight flag |
| Driver.Lcd.HalWriteCommand | lcd_api.py:136-137 | one command call on the driver's transport; the trace grows by exactly its words |
| Driver.Lcd.HalWriteData | lcd_api.py:139-140 | one data call on the driver's transport; the trace grows by exactly its words |
| Driver.Lcd.Transfer4 | i2c_lcd_raspi4.py:59-65 | appends exactly four writes, in order, to the device's address |
| Driver.Lcd.I2cWriteCommand | i2c_lcd_raspi4.py:55-69 | appends exactly the four words of `CommandBytes` under the current backlight flag |
| Driver.Lcd.I2cWriteData | i2c_lcd_raspi4.py:71-83 | appends exactly the four words of `DataBytes` under the current backlight flag |
| Driver.Lcd.HalBacklightOn | i2c_lcd_raspi4.py:47-49 | appends 0x08 on the PCF8574 and nothing on the base transport, which has an empty hook |
| Driver.Lcd.HalBacklightOff | i2c_lcd_raspi4.py:51-53 | appends 0x00 on the PCF8574 and nothing on the base transport |
| Driver.Lcd.I2cWriteInitNibble | i2c_lcd_raspi4.py:41-45 | appends exactly the two words of `InitNibbleBytes` |
| Driver.Lcd.HalWriteInitNibble | i2c_lcd_raspi4.py:41-45 | one init-nibble call on the PCF8574; the trace grows by exactly its words |
| Driver.Lcd.Clear | lcd_api.py:57-61 | sends command 0x01 and puts the cursor at (0, 0); by its frame, implied_newline and the backlight are untouched |
| Driver.Lcd.ShowCursor | lcd_api.py:63-64 | sends exactly command 0x0E |
| Driver.Lcd.HideCursor | lcd_api.py:66-67 | sends exactly command 0x0C |
| Driver.Lcd.BlinkCursorOn | lcd_api.py:69-70 | sends exactly command 0x0F |
| Driver.Lcd.BlinkCursorOff | lcd_api.py:72-73 | sends exactly command 0x0E |
| Driver.Lcd.DisplayOn | lcd_api.py:75-76 | sends exactly command 0x0C |
| Driver.Lcd.DisplayOff | lcd_api.py:78-79 | sends exactly command 0x08 |
| Driver.Lcd.BacklightOn | lcd_api.py:81-83 | sets the flag, then calls the backlight-on hook |
| Driver.Lcd.BacklightOff | lcd_api.py:85-87 | clears the flag, then calls the backlight-off hook |
| Driver.Lcd.MoveTo | lcd_api.py:89-97 | the cursor becomes exactly (x, y), and exactly one DDRAM-set command for that cell is sent |
| Driver.Lcd.Putchar | lcd_api.py:99-113 | the new cursor and flag are `CursorRules.Putchar` of the old ones, and the calls are `CursorRules.PutcharOps` |
| Driver.Lcd.Putstr | lcd_api.py:115-117 | the cursor and calls of putchar of each character in turn |
| Driver.Lcd.CustomChar | lcd_api.py:119-126 | sends the CGRAM address of slot `location & 7`, the eight rows, then the `move_to` of the unchanged cursor |
| Driver.CustomCharOps | lcd_api.py:119-126 | the calls of custom_char; stated by `CustomCharWritesGlyph` |
| Driver.CustomCharWritesGlyph | lcd_api.py:119-126 | custom_char makes ten calls: the data writes are exactly charmap[0..7] in order, between two commands, the CGRAM address first and the DDRAM address of the cursor last |
| Driver.DataOpsWrites | lcd_api.py:123-124 | the glyph loop writes exactly its values as data and sends no command |
| Driver.PowerUpWords | i2c_lcd_raspi4.py:20-33 | with reset nibble 0x30 the power-up words are exactly 0x00, 0x34, 0x30, 0x34, 0x30, 0x34, 0x30, 0x24, 0x20 |
| Driver.PowerUpView | i2c_lcd_raspi4.py:23-33 | power-up reaches the controller as the reset nibble three times, then 0x2 |
| Driver.FunctionSetWords | i2c_lcd_raspi4.py:36-39 | the closing function set on the PCF8574 is 0x28 for more than one line and 0x20 otherwise, as words 2C 28 8C 88 or 2C 28 0C 08 |
| Driver.DisplayOffWords | lcd_api.py:78-79 | on the base transport, display off is the six words 08 0C 08 88 8C 88 |
| Driver.PowerUpLatches | i2c_lcd_raspi4.py:20-33 | the power-up words with reset nibble 0x30 latch 3, 3, 3, then 2, all as commands |
| Driver.BaseInitView | lcd_api.py:50-55 | the base start-up reaches the controller as the commands 08 01 06 0C 0C |
| Driver.BaseInitStream | lcd_api.py:50-55 | the same on either transport, starting from either backlight state |
| Driver.I2cInitStream | i2c_lcd_raspi4.py:17-39 | the intended start-up reaches the controller as 3, 3, 3, 2, then the commands 08 01 06 0C 0C and 28 (two or more lines) or 20 |
| Driver.I2cInitView | i2c_lcd_raspi4.py:17-39 | the intended start-up's calls reach the controller as 3, 3, 3, 2, then the commands 08 01 06 0C 0C and the function set |
| Driver.FunctionSetStream | i2c_lcd_raspi4.py:36-39 | the closing function set reaches the controller as command 0x28 for more than one line and 0x20 otherwise |
| Driver.I2cInitAsWritten | i2c_lcd_raspi4.py:17-35 | the constructor as written always raises |
| Driver.MissingResetConstant | i2c_lcd_raspi4.py:20-24 | as written, it stops with a missing attribute after the single write 0x00, a strict prefix of the intended trace |
| Driver.BaseInitCallRejected | i2c_lcd_raspi4.py:24-35 | even with the constant supplied, it stops at the two-argument call: the controller has only 3, 3, 3, 2 and no command, and the trace is a strict prefix of the intended one |
| Driver.PowerUpIsPrefix | i2c_lcd_raspi4.py:17-39 | for any reset nibble, the power-up words are a strict prefix of the intended start-up words |
| AvoidGame.MovePlayerPos | avoid_game.py:36-37 | the result is a row; it is 1 exactly when the input is 0; a player on a row changes row |
| AvoidGame.MovePlayerTwice | avoid_game.py:36-37 | on the rows {0, 1}, two moves are the identity |
| AvoidGame.MoveObstacle | avoid_game.py:42-49 | the score grows by 0 or 1, and by 1 exactly when obstacle_x <= player_x; then the obstacle is at (15, coin); otherwise it is at (x - 1, y) |
| AvoidGame.ObstacleStaysInLane | avoid_game.py:42-49 | between the player's column and 15, on a row, the obstacle stays there; each move adds at most one point and the score never falls |
| AvoidGame.ScoreCycle | avoid_game.py:42-49 | with the player in column 7, an obstacle j columns from the edge is (j + n) mod 9 from it after n moves, with (j + n) div 9 more points |
| AvoidGame.GameLength | avoid_game.py:108-112 | from a new game, k moves score k div 9 points and leave the obstacle at 15 - k mod 9; victory holds exactly when k >= 900 |
| AvoidGame.CheckHighscore | avoid_game.py:51-54 | the result is at least both arguments and equal to one of them |
| AvoidGame.HighscoreIsMaximum | avoid_game.py:51-54 | repeated highscore checks never lower the highscore; it ends at least every score seen and is the old highscore or one of them |
| AvoidGame.IsDeath | avoid_game.py:56-57 | the condition of `check_death`: player and obstacle on the same cell; used by `CollisionTiming` and `RespawnIsSafe` |
| AvoidGame.IsVictory | avoid_game.py:70-71 | the condition of `check_victory`: score at least 100; used by `GameLength` |
| AvoidGame.CollisionTiming | avoid_game.py:56-57 | from a new game, a player in column 7 is hit exactly on moves k with k mod 9 = 8, when the obstacle is on the player's row |
| AvoidGame.RespawnIsSafe | avoid_game.py:42-46 | a respawned obstacle scores a point and is never on a player in column 7 |

## Findings

| source | as written | input that shows it | evidently intended | confidence | as-written member | corrected member |
|---|---|---|---|---|---|---|
| i2c_lcd_raspi4.py:24 | `self.LCD_FUNCTION_RESET` is read, but no such constant is defined in lcd_api.py:9-38 | any construction `I2cLcd(bus, 0x27, 2, 16)`: it raises after writing 0x00 | the HD44780 8-bit reset value 0x30 (`LCD_FUNCTION \| LCD_FUNCTION_8BIT`), sent three times | high; not executed | Driver.I2cInitAsWritten, Driver.MissingResetConstant | Driver.Lcd.I2c, Driver.I2cInitStream |
| i2c_lcd_raspi4.py:35 | `LcdApi.__init__(self, num_lines, num_columns)` passes two arguments to a four-argument constructor (lcd_api.py:40) | `I2cLcd(bus, 0x27, 2, 16)` with the constant defined: it raises after the four power-up nibbles, with the display never switched on | `LcdApi.__init__(self, bus, i2c_addr, num_lines, num_columns)` | high; not executed | Driver.I2cInitAsWritten, Driver.BaseInitCallRejected | Driver.Lcd.I2c, Driver.Lcd.InitDisplay |

## Left out

- All `time.sleep` delays, including the longer wait that `I2cLcd.hal_write_command` alone adds when `cmd <= 3` (i2c_lcd_raspi4.py:67-69). They are real-time timing. The trace keeps their order but not their spacing.
- The SMBus object and its failures. `bus.write_byte` is the append to `trace`. The code handles no errors, so no partial-progress or retry behaviour is modelled.
- `bus` and `i2c_addr` as separate fields. The intended call in `I2cLcd.__init__` sets `address` to `i2c_addr`, so one `address` serves both layers.
- Field setup order in `I2cLcd`. The geometry, cursor and flags are set before the power-up writes, where Python sets them afterwards inside `LcdApi.__init__`. The power-up writes read none of them, so the trace is the same.
- Negative line or column counts. The geometry is `nat`. `min(num_lines, 4)` of a negative count is not modelled.
- Driver.Lcd.CustomChar: requires at least eight rows in `charmap`. With fewer rows the source raises `IndexError` partway through the loop, and that path is not modelled.
- Driver.Lcd.HalWriteCommand, Driver.Lcd.HalWriteData and Driver.Lcd.HalWriteInitNibble: their contracts name the calls made. The words they add follow from `Valid()` through `Bus.LogStep`. They are not restated in the method contract, which keeps the callers' proofs small.
- Character codes beyond a byte. They are passed through as integers (`ch as int`). Both transports keep only the low eight bits (`I2cLcdHal.CommandLayout`, `Bus.ViewRoundTrip`).
- The rest of avoid_game.py: `main` and `lobby`, the GPIO button and LEDs, reading and writing `highscore.txt`, the recursive restarts, the display output of the game screens, and the timer. The floating-point speed-up of `interval_limit` is also left out.
- `choose_obstacle_pos_y` (`randint(0, 1)`). It is the `coin` parameter, restricted to 0 or 1.
- avoid_game2.py. It drives the display through a library that is not part of this model. Its helper functions are the same as those of avoid_game.py.
