# SSD1306 text display: verified model

A Dafny model of a small MicroPython firmware that shows text on a 128x64
SSD1306 OLED panel and accepts new text over HTTP.

- `ssd1306.dfy` (module `Ssd1306`) models the I2C driver as one class,
  `Ssd1306I2C`, merging the `SSD1306` base class and its `SSD1306_I2C`
  subclass. It holds the panel geometry, the page-packed framebuffer
  (`buffer`, an array of bytes), the two-byte command scratch array (`temp`)
  and `bus`, the log of every bus write. The bus primitive
  `i2c.writeto(addr, bytes)` is an append of `Write(addr, bytes)` to `bus`,
  so every method's contract lists exactly the transactions it sends:
  - the 25-byte initialisation sequence;
  - one `[0x80, b]` write per command byte;
  - one `[0x40] + buffer` data write;
  - the six-command address window of `show`;
  - the setters for power, contrast, inversion and rotation;
  - the whole-buffer fast path of `blit`.
- `strings.dfy` (module `Strings`) defines the Python string operations
  the application uses: `startswith`, `find`, `replace`, `strip`,
  `split('\n')` and `str(n)`. `find` and `strip` are specified by
  independent predicates. `replace` is tied to that search specification by
  lemmas. `split` and `join` are shown to be mutually inverse. `str(n)` is
  shown to read back as `n`.
- `app.dfy` (module `App`) covers the application. It lifts three pieces out
  of the socket loop as functions: message extraction from a request, reply
  selection and the response text. `update_display` becomes a method that
  returns the trace of display calls (`Fill(0)`, `Text(line, 0, y)`, `Show`)
  instead of drawing.

Facts about the code that the model keeps:
- `show` sends six command transactions (an opcode and two operands,
  twice) before the data write.
- `update_display` stops once `y` reaches the panel height (`y >= 64`).
- The driver keeps no power, inversion or rotation state. The setters only
  send commands.

## Model

| member | source | states |
|---|---|---|
| `Ssd1306.CommandFrames` | ssd1306.py:116-138 | command bytes go out as one two-byte write `[0x80, b]` each, in order, so n bytes give exactly n writes |
| `Ssd1306.CommandFramesAppend` | ssd1306.py:77-79 | sending two command lists one after the other equals sending their concatenation |
| `Ssd1306.Operands` | ssd1306.py:116-138 | `write_cmd` sends `cmd1` always, `cmd2` only when given, and `cmd3` only when `cmd2` is given too; 1, 2 or 3 bytes in argument order |
| `Ssd1306.Ssd1306I2C.WriteCmd` | ssd1306.py:116-138 | appends exactly one `[0x80, b]` write per sent operand, in argument order, and nothing else; the scratch array ends holding `[0x80, last operand]` |
| `Ssd1306.Ssd1306I2C.WriteData` | ssd1306.py:141-142 | appends exactly one write, `[0x40] + buf`, and leaves the framebuffer unchanged |
| `Ssd1306.InitSequence` | ssd1306.py:39-57 | the initialisation sequence is exactly 25 command bytes |
| `Ssd1306.InitSequenceOperands` | ssd1306.py:39-57 | display off first and on last; multiplex operand `height - 1`; COM-pin operand 0x02 iff `width > height`, else 0x12; precharge 0x22/0xF1 and charge pump 0x10/0x14 by `external_vcc` |
| `Ssd1306.InitSequenceVccOnly` | ssd1306.py:51-53 | toggling `external_vcc` changes exactly the precharge and charge-pump operands (positions 15 and 19) and nothing else |
| `Ssd1306.InitSequenceGeometryOnly` | ssd1306.py:46-48 | the panel size affects only the multiplex and COM-pin operands; every other byte is fixed |
| `Ssd1306.Ssd1306I2C.InitDisplay` | ssd1306.py:38-59 | appends one command write per byte of the sequence, in the listed order, followed by exactly the writes of one `show` |
| `Ssd1306.ShowWrites` | ssd1306.py:77-80 | a flush is 7 writes to `addr`: six `[0x80, b]` writes for the column window 0..width-1 and the page window 0..pages-1, then one data write `[0x40] + buffer` one byte longer than the buffer |
| `Ssd1306.Ssd1306I2C.Show` | ssd1306.py:77-80 | appends exactly the 7 flush writes for the current buffer and does not change the buffer |
| `Ssd1306.InitLog` | ssd1306.py:29-36 | construction sends 25 + 7 = 32 writes, all to `addr`: 31 command writes whose first 25 operands are the initialisation sequence, then a `[0x40]` data write of the all-zero buffer, of length `1 + pages * width` |
| `Ssd1306.InitLog128x64` | main.py:18-20 | for the application's 128x64 panel construction logs 32 writes; the last page-window operand is 7 and the final data write is 1025 bytes long |
| `Ssd1306.InitLogAtDefault` | ssd1306.py:109-113 | a driver built without an address, as main.py:19 builds it, sends every construction write to the default address 0x3C |
| `Ssd1306.Ssd1306I2C.constructor` | ssd1306.py:29-36 | `pages == height / 8`, the buffer has `pages * width` bytes and is all zeros, and the bus log is exactly the construction log |
| `Ssd1306.Ssd1306I2C.PowerOff` | ssd1306.py:61-62 | appends the single command write `[0x80, 0xAE]` |
| `Ssd1306.Ssd1306I2C.PowerOn` | ssd1306.py:64-65 | appends the single command write `[0x80, 0xAF]` |
| `Ssd1306.Ssd1306I2C.Contrast` | ssd1306.py:67-68 | appends `[0x80, 0x81]` then `[0x80, contrast]` |
| `Ssd1306.NormInvCommand` | ssd1306.py:70-71 | the bitwise OR of 0xA6 with `invert & 1` is 0xA6 for an even argument and 0xA7 for an odd one |
| `Ssd1306.Ssd1306I2C.Invert` | ssd1306.py:70-71 | appends exactly one command write carrying the normal/inverse opcode |
| `Ssd1306.ComOutDirCommand` | ssd1306.py:74 | the bitwise OR of 0xC0 with `(rotate & 1) << 3` is 0xC0 or 0xC8 by the low bit of `rotate` |
| `Ssd1306.SegRemapCommand` | ssd1306.py:75 | the bitwise OR of 0xA0 with `rotate & 1` is 0xA0 or 0xA1 by the low bit of `rotate` |
| `Ssd1306.Ssd1306I2C.Rotate` | ssd1306.py:73-75 | always appends exactly two writes: COM scan direction first, then segment remap |
| `Ssd1306.Ssd1306I2C.Blit` | ssd1306.py:94-100 | on the full-panel fast path the buffer afterwards equals `fbuf`; nothing is sent on the bus |
| `Strings.StartsWith` | main.py:110-116 | `startswith` holds exactly when the prefix fits and agrees with the text position by position; the text is then the prefix followed by the rest |
| `Strings.FindFrom` | main.py:112 | returns -1 exactly when no occurrence starts at or after `from`, otherwise the leftmost such occurrence |
| `Strings.Find` | main.py:112 | `find` returns -1 iff the pattern occurs nowhere, otherwise the start of its leftmost occurrence |
| `Strings.Replace` | main.py:118 | `replace` introduces no character that is in neither the subject nor the replacement |
| `Strings.ReplaceAtFirst` | main.py:118 | at the leftmost occurrence of the pattern (as `find` defines it), `replace` keeps the text before it, puts the replacement in its place and goes on after it |
| `Strings.ReplaceNoOccurrence` | main.py:118 | when `find` finds no occurrence, `replace` returns the text unchanged |
| `Strings.ReplaceChar` | main.py:118 | replacing one character by another keeps the length and maps each position independently |
| `Strings.ReplaceAbsentPattern` | main.py:118 | a subject without the pattern's first character is returned unchanged |
| `Strings.LeadingSpace` | main.py:120 | counts exactly the leading whitespace: all before it is whitespace, the character at it is not |
| `Strings.TrailingStart` | main.py:120 | marks the start of the trailing whitespace: all from it on is whitespace, the character before it is not |
| `Strings.Strip` | main.py:120 | the result is a contiguous part of the input that neither starts nor ends with whitespace, with only whitespace removed around it; empty iff the input is all whitespace |
| `Strings.IndexOf` | main.py:27 | the index of the first separator, or -1 iff there is none |
| `Strings.Split` | main.py:27 | `split` yields at least one piece and no piece holds the separator |
| `Strings.JoinSplit` | main.py:27 | joining the pieces of a split with the separator gives back the text |
| `Strings.SplitJoin` | main.py:27 | splitting a join of separator-free pieces gives back the pieces |
| `Strings.Decimal` | main.py:133 | `str(n)` is a non-empty digit string without a leading zero, except for 0 itself |
| `Strings.ParseDecimalOfDecimal` | main.py:133 | reading the decimal form of `n` back gives `n` |
| `App.PlaceLines` | main.py:27-30 | no more lines are drawn than given; the last drawn line is above row 64; lines are left out only once the next row would be at or below row 64 |
| `App.PlaceLinesAt` | main.py:27-30 | starting at row `8 * i0`, exactly `min(#lines, 8 - i0)` lines are drawn, line `i` at row `8 * (i0 + i)` |
| `App.DisplayTrace` | main.py:23-31 | `update_display` makes `2 + min(#lines, 8)` calls, `fill(0)` first and `show` last |
| `App.DisplayTraceShape` | main.py:26-30 | between `fill(0)` and `show`, `update_display` draws line `i` at (0, 8i) for each of the first `min(#lines, 8)` lines, all above row 64 |
| `App.ShortTextFullyShown` | main.py:26-30 | a text of at most 8 lines is drawn completely: every line is drawn, and the drawn lines joined by newlines give back the text |
| `App.UpdateDisplay` | main.py:23-31 | the loop with its `break` at `y >= 64` issues exactly the trace of `update_display` |
| `App.DecodeForm` | main.py:118 | the decoded `text=` value contains no `+`; a value without `+` or `%` is displayed as sent |
| `App.MessageFromBody` | main.py:114-120 | a `text=` body yields a message without `+`; any other body yields its stripped form, which is empty exactly when the body is all whitespace and otherwise neither starts nor ends with whitespace |
| `App.ExtractMessage` | main.py:108-120 | empty unless the request starts with `POST /display`; empty when there is no `\r\n\r\n`; otherwise the message of the text after the first `\r\n\r\n` (decoded `text=` value, or the stripped body) |
| `App.FormMessageHasNoPlus` | main.py:116-118 | a request whose body is a `text=` form yields a message without `+` |
| `App.SelectReply` | main.py:122-130 | status `200 OK` iff the message is non-empty, then with the body "Text received and displayed."; for an empty message status `240 No Content` with the usage hint as body |
| `App.ResponseHead` | main.py:133 | the head is the status line, a line break and `Content-Length: ` followed by digits only, and those digits read as a decimal give the body's length |
| `App.Response` | main.py:133 | the first `\r\n\r\n` of the response ends the head; the text before it is the head and the text after it is exactly the reply body |
| `App.HandleRequest` | main.py:108-133 | the display is updated exactly when the reply is `200 OK`, with the trace of `update_display` for the extracted message; the response is the one built for that message |

## Left out

- Drawing: `fill`, `pixel`, `scroll` and `text` only delegate to MicroPython's `framebuf` module (ssd1306.py:82-92), which is not part of this model. `update_display` records them as trace events.
- Blit: the partial-blit fallback (ssd1306.py:106) delegates to `framebuf.blit`. The contract says nothing about the buffer off the fast path.
- Blit: on the fast path the model requires `fbuf` to have the buffer's length. In Python, a slice assignment of another length would resize the bytearray.
- Bus errors: `i2c.writeto` always succeeds in the model. An `OSError` from the bus, which would abort the method half way, is not modelled.
- Ranges: the driver checks none of its arguments. The model requires `ValidGeometry` (`1 <= width, height <= 256` and `height % 8 == 0`) and gives `Contrast`'s argument the `Byte` type, so every byte stored into `temp` or `buffer` is in 0..255; it does not model what the driver does with other values. Within `ValidGeometry`, `height % 8 == 0` together with `1 <= height` makes `pages = height // 8` at least 1, so the page-window operand `pages - 1` sent by `show` (ssd1306.py:79) fits in a byte, and the `pages` pages of eight rows cover every row of the panel.
- Default arguments: `addr=0x3c` and `external_vcc=False` are passed explicitly. `DefaultAddress` names the default, and `InitLogAtDefault` states what passing it means for the bus log.
- Strings.Strip: uses MicroPython's whitespace set (space, `\t`, `\n`, `\r`, `\v`, `\f`). CPython would also strip other Unicode spaces.
- Strings.Replace: an empty search pattern is not modelled. The application replaces only non-empty literals.
- Wi-Fi association and retries (main.py:53-78) are network I/O with sleeps.
- The socket set-up, accept/recv/sendall/close and error loop (main.py:92-147) and the idle loop (main.py:149-153) are I/O plumbing. Only the string logic inside the loop is modelled. The 1024-byte `recv` limit is not modelled.
- Persistence (`load_last_message`, `save_message`, main.py:34-50) is filesystem I/O. `HandleRequest` does not model the save.
- UTF-8 decoding of the request and encoding of the response (main.py:104, 133) are not modelled. Both reply bodies are ASCII, so their character count equals their byte count.
- `print` logging is not modelled.
- `str(text)` in `update_display` is not modelled. The model takes a string.
