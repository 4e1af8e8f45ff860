# M5Stack MQTT message board: the status handler, in Dafny

This project models the core of the M5Stack message-board firmware (`src/main.cpp`).
That core is the code that runs when a message arrives on the board's MQTT topic.

- **Colour resolver** (`isTFTColor`, module `Colors`, `colors.dfy`). It maps a colour name
  to one of the display's colour constants. The match is exact and case-sensitive.
  `DARKBLUE` is an alias of `NAVY`. Any other word, including the empty one, gives `PURPLE`.
- **Payload copy** (the first lines of `callback`, module `Payload`, `payload.dfy`). The payload
  bytes are copied into the 256-character stack buffer `msgText`, which is then read as a C string.
- **Message handler** (`callback`, module `MessageBoard`, `board.dfy`). The class `Screen` holds
  the globals `msgFGColor`/`msgBGColor`, the main band (rows 50–129), the sub band (rows 146–229)
  and the diagnostic lines. `Screen.Apply` takes the parser's outcome: `None` stands for a payload
  the JSON library reports as undefined. On failure it only writes the diagnostic. On success it
  overwrites both globals with the resolved colours. It repaints the main band in the message's
  colours when `textMain` is not empty. It repaints the sub band white on black when `textSub` is
  not empty. Every message value is read as a C string, up to its first NUL (`Field`).
  `Screen.CallbackAsWritten` is the whole handler as the source writes it: copy, parse with a
  parser given as a parameter, apply. `Screen.Callback` is the same handler with the missing
  terminator added (see "## Findings"). All three methods are specified by the pure function
  `Step`, and the lemmas beside it state the handler's properties.

The message keys are `FGColor`, `BGColor`, `textMain` and `textSub`, as the code reads them
(src/main.cpp:115-135). The header comment spells the first two `FGcolor`/`BGcolor`; the model
follows the code.

## Model

| member | source | states |
|---|---|---|
| Colors.Resolve | src/main.cpp:222-248 | resolution never fails; the result is a real colour exactly when the name is one of the eleven recognised names, and PURPLE for every other string |
| Colors.ResolveNameOf | src/main.cpp:223-244 | every colour except PURPLE is produced by its own upper-case name |
| Colors.ResolvePreimage | src/main.cpp:223-244 | a name that resolves to a real colour is that colour's name, or DARKBLUE giving NAVY; no other string reaches a real colour |
| Colors.DarkBlueIsNavy | src/main.cpp:225-228 | DARKBLUE and NAVY resolve to the same colour, NAVY |
| Colors.FallbackExamples | src/main.cpp:245-246 | the empty string, lower-case and capitalised names, a trailing space and "PURPLE" itself all fall back to PURPLE |
| Colors.Code | src/main.cpp:47-48 | each colour's value, as held in the integer globals, is a 16-bit RGB565 code |
| Colors.CodeInjective | src/main.cpp:47-48 | distinct colours have distinct codes, so the Color datatype can stand for the integer globals |
| Payload.CString | src/main.cpp:102 | the text read from memory is its longest NUL-free prefix: it ends at the first NUL, or at the end of the memory the model is given |
| Payload.CStringUnique | src/main.cpp:102 | any NUL-free prefix that ends at a NUL or at the buffer's end is the C string |
| Payload.TerminatedRead | src/main.cpp:98-102 | a NUL at position n hides everything after it: the read equals the read of the first n characters |
| Payload.NulFreeText | src/main.cpp:102 | a string without NUL is read back whole |
| Payload.CStringAfter | src/main.cpp:102 | reading a NUL-free prefix and going on gives that prefix followed by the read of what comes after it |
| Payload.NulFreeRead | src/main.cpp:98-102 | a payload without zero bytes is read back whole |
| Payload.CopyAsWritten | src/main.cpp:94-100 | the copy loop, for payloads of up to 256 bytes, leaves the payload's characters at the front of the 256-character buffer and the buffer's earlier contents after them |
| Payload.AsWrittenReadsOn | src/main.cpp:98-102 | as written, the parser reads a payload without zero bytes followed by the memory after it, up to the first NUL there |
| Payload.CopyTerminated | src/main.cpp:94-102 | with a terminator after the payload, the parser reads exactly the payload up to its first zero byte, whatever the memory held before |
| Payload.UnterminatedReadsStale | src/main.cpp:94-102 | without the terminator, if the rest of the buffer holds no NUL, the read covers all 256 characters of the buffer and goes on into the memory after it |
| Payload.UnterminatedEmptyObject | src/main.cpp:94-102 | the payload "{}" over a buffer of 'x' reaches the parser as "{}" followed by 254 'x' and then by whatever follows the buffer: at least 256 characters |
| MessageBoard.BandsDisjoint | src/main.cpp:121-131 | the main band's fill (0, 50, 319×80) and the sub band's fill (0, 146, 320×84) lie on the 320×240 display and share no pixel |
| MessageBoard.ParseFailureOnlyShowsError | src/main.cpp:105-113 | on a parse failure the globals and both bands are unchanged; the diagnostic is the failure line followed by the text that failed |
| MessageBoard.GlobalsAlwaysOverwritten | src/main.cpp:115-116 | on a parsed message both globals take the colours resolved from the values read as C strings, even when neither band is repainted; the diagnostic is kept |
| MessageBoard.MainBandRule | src/main.cpp:118-127 | a main text non-empty as a C string repaints the main band with the resolved background and that text in the resolved foreground; an empty one leaves the band as it was |
| MessageBoard.SubBandRule | src/main.cpp:129-138 | a sub text non-empty as a C string repaints the sub band black with that text in white; an empty one leaves the band as it was |
| MessageBoard.SubIgnoresMessageColours | src/main.cpp:129-138 | two messages with the same sub text leave the same sub band, whatever colours they name |
| MessageBoard.BandsIndependent | src/main.cpp:118-138 | each band's new content depends only on its own old content and the message, never on the other band |
| MessageBoard.StepIdempotent | src/main.cpp:115-138 | handling the same outcome twice leaves the same state as handling it once |
| MessageBoard.EmptyMainTextKeepsMainBand | src/main.cpp:118-138 | a message with empty main text and sub text "Z" keeps the main band and sets the sub band to "Z" in white on black |
| MessageBoard.NulEndsField | src/main.cpp:115-118 | a value is read only up to an escaped NUL: "RED\0x" gives red, and a main text starting with NUL counts as empty and leaves the main band alone |
| MessageBoard.NulFreeMessage | src/main.cpp:115-138 | a message whose values hold no NUL sets the globals to its resolved colours and shows each non-empty text as it stands |
| MessageBoard.BuiltinMessage1 | src/main.cpp:52 | the first built-in message gives a white-on-red main band and a white-on-black sub band |
| MessageBoard.BuiltinMessage2 | src/main.cpp:53 | the second built-in message gives a black-on-yellow main band and a white-on-black sub band |
| MessageBoard.BuiltinMessage3 | src/main.cpp:54 | the third built-in message gives a black-on-green main band and a white-on-black sub band |
| MessageBoard.FailureEchoesPayload | src/main.cpp:105-111 | with the terminator added, a payload with no zero byte that fails to parse is shown whole by the diagnostic |
| MessageBoard.FailureEchoesAsWritten | src/main.cpp:98-111 | as written, the diagnostic shows the payload followed by the memory after it, up to the first NUL there |
| MessageBoard.Screen.constructor | src/main.cpp:47-48 | the start-up state: foreground BLACK, background GREEN, both bands blank, no diagnostic |
| MessageBoard.Screen.Apply | src/main.cpp:105-138 | the new state is Step of the old state: early return with the diagnostic on failure, otherwise the globals and then the two conditional repaints |
| MessageBoard.Screen.CallbackAsWritten | src/main.cpp:83-139 | the new state is Step of the old state on the outcome of parsing what is read from the unterminated buffer: the payload and then the memory after it up to a NUL |
| MessageBoard.Screen.Callback | src/main.cpp:83-139 | the handler with the terminator added: the new state is Step of the old state on the outcome of parsing the payload's own text, whatever the memory held before |

## Findings

| source | as written | input that shows it | evidently intended | confidence | as-written member | corrected member |
|---|---|---|---|---|---|---|
| src/main.cpp:98-102 | the loop copies `length` bytes into `msgText[256]` and writes no NUL; `JSON.parse(msgText)` then reads on into whatever the stack held | payload `{}` (2 bytes) over a buffer holding `x` in every position: the parser sees at least `{}` followed by 254 `x`, and then whatever follows the buffer up to a NUL | write `msgText[length] = '\0'` so that the parser reads exactly the payload | high; not executed | Payload.UnterminatedEmptyObject | Payload.CopyTerminated |

`Screen.CallbackAsWritten` is the handler with the copy as written. `Screen.Callback` uses the
corrected copy, and its diagnostic then echoes the payload itself, not leftover stack bytes.

## Left out

- Payload.CopyAsWritten: a payload of more than 256 bytes overflows `msgText` (there is no length check). The model requires at most 256 bytes rather than modelling the overflow. The corrected copy needs one more place for the terminator, so `CopyTerminated` and `Screen.Callback` require fewer than 256.
- Payload.AsWrittenText: the memory after `msgText` is a finite sequence, so a read that finds no NUL there stops at its end. The lemmas about it therefore state only what the read begins with ("at least").
- MessageBoard.Screen.Callback: describes the handler with `msgText[length] = '\0'` added. The handler as written is `Screen.CallbackAsWritten`.
- MessageBoard.FailureEchoesPayload: holds only with the terminator added. As written, the diagnostic also shows the stale bytes after the payload (`FailureEchoesAsWritten`).
- JSON parsing (`JSON.parse`, `JSON.typeof`) is a foreign library; `Callback` takes the parser as a function parameter, and `Apply` takes its outcome as an `Option<Msg>`.
- A parsed object lacking one of the four keys: its value, cast to `const char*`, goes to `strcmp`, and what happens depends on the library. `Msg` always carries all four strings.
- A payload that parses to something other than an object with four string values, such as `42` or `[]`: `JSON.typeof` is not "undefined" for it, so the handler goes on to look its keys up. What those lookups give depends on the library, so such payloads are not modelled.
- The `textEng` key is not read by the handler and is not part of `Msg`.
- Pixel rendering is not modelled. This covers fonts, cursor positions, text wrapping, and the case where a longer earlier diagnostic is overwritten only in part. A band is modelled as its fill colour plus the text drawn on it in a foreground colour.
- Printed text is not clipped to its band. The diagnostic starts at (0,20) in 8-pixel lines, so a failing text of about 107 characters or more reaches the main band's rows. A main text wider than the display wraps onto a second 48-pixel line that reaches into the sub band (the third built-in message's main text is that wide). So "a band is unchanged" (`ParseFailureOnlyShowsError`, `BandsIndependent`, `MainBandRule`, `SubBandRule`) holds of the band records, not of the pixels, and `BandsDisjoint` is about the two fill rectangles alone.
- The main band's fill is 319 pixels wide, so column 319 of rows 50–129 is never repainted; the model records the rectangle but not per-pixel contents.
- `reconnect` (src/main.cpp:141-174): a blocking MQTT retry loop with delays and broker calls (network I/O). It clears rows 200–239, which overlaps the lower part of the sub band; that overlap is not modelled.
- `setup` (src/main.cpp:176-212): Wi-Fi bring-up, the restart after more than 20 polls, and display start-up. Its status text in rows 200–215 also overlaps the sub band; the constructor starts from the black display that `fillScreen` leaves.
- `loop` (src/main.cpp:214-220) only pumps the MQTT client.
- This file has no clock redraw and no button publishing. The clock font and position constants (src/main.cpp:57-75) are unused, and the three literal messages are never published here. So no clock or button behaviour is modelled.
- The RGB565 values in `Colors.Code` are the display library's colour constants. That library is not part of this model.
- include/wifiinfo-example.h and include/myconfig-example.h hold only compile-time network settings, with no logic.
