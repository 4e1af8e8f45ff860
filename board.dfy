/** The message board's screen state and the inbound-message handler
    (callback in src/main.cpp).

    A message carries a foreground and a background colour name and two texts.
    The handler always records the resolved colours in the globals msgFGColor
    and msgBGColor; it repaints the main band with the main text in those
    colours when the main text is not empty, and the sub band with the sub
    text in white on black when the sub text is not empty. A payload that does
    not parse leaves all of that alone and only shows a diagnostic.
 */
module MessageBoard {
  import opened Colors
  import opened Payload

  datatype Option<T> = None | Some(value: T)

  /** The four keys the handler reads from a parsed message, as the JSON
      strings hold them. The handler reads each one as a C string, so a value
      holding an escaped NUL counts only up to it (see Field). */
  datatype Msg = Msg(FGColor: string, BGColor: string, textMain: string, textSub: string)

  /** A rectangle of the 320 x 240 display: left, top, width, height. */
  datatype Rect = Rect(x: int, y: int, w: nat, h: nat)

  ghost predicate Covers(r: Rect, px: int, py: int) {
    r.x <= px < r.x + r.w && r.y <= py < r.y + r.h
  }

  const Display := Rect(0, 0, 320, 240)
  /** The main band: rows 50 to 129, 319 columns wide. */
  const MainRect := Rect(0, 50, 319, 80)
  /** The sub band: rows 146 to 229, the full width. */
  const SubRect := Rect(0, 146, 320, 84)

  /** The two fills lie on the display and share no pixel. The lemma stands
      alone: the band records in State carry no rectangle, and the text printed
      on a band is not clipped to its fill. */
  lemma BandsDisjoint()
    ensures forall px, py :: Covers(MainRect, px, py) ==> Covers(Display, px, py) && !Covers(SubRect, px, py)
    ensures forall px, py :: Covers(SubRect, px, py) ==> Covers(Display, px, py)
  {
  }

  /** What a band shows: its fill colour and the text drawn on it in `fg` on `bg`. */
  datatype Band = Band(bg: Color, fg: Color, text: string)

  /** The state the handler reads and writes. */
  datatype State = State(
    msgFG: Color,          // the global msgFGColor
    msgBG: Color,          // the global msgBGColor
    main: Band,
    sub: Band,
    error: seq<string>)    // the lines of the diagnostic at the top of the display

  /** A band on the display cleared to black; white is the display's default text colour. */
  const Blank := Band(Black, White, "")

  /** The state at start-up: the globals' initial values and a black display. */
  const Initial := State(Black, Green, Blank, Blank, [])

  const ParseFailedLine := "Parsing input failed!"

  /** A message value as the handler sees it through `(const char*)`:
      strcmp, isTFTColor and print all stop at its first NUL. */
  function Field(v: string): string
  {
    CString(v)
  }

  /** One run of the handler on the outcome of parsing the text `msgText`
      (None when the parser reports an undefined value). */
  function Step(s: State, parsed: Option<Msg>, msgText: string): State
  {
    match parsed
    case None => s.(error := [ParseFailedLine, msgText])
    case Some(m) =>
      var fg := Resolve(Field(m.FGColor));
      var bg := Resolve(Field(m.BGColor));
      var textMain := Field(m.textMain);
      var textSub := Field(m.textSub);
      s.(msgFG := fg, msgBG := bg,
         main := if textMain != "" then Band(bg, fg, textMain) else s.main,
         sub := if textSub != "" then Band(Black, White, textSub) else s.sub)
  }

  /** On a parse failure only the diagnostic changes; it names the failing text. */
  lemma ParseFailureOnlyShowsError(s: State, msgText: string)
    ensures var t := Step(s, None, msgText);
      t.msgFG == s.msgFG && t.msgBG == s.msgBG && t.main == s.main && t.sub == s.sub &&
      t.error == [ParseFailedLine, msgText]
  {
  }

  /** On a parsed message the globals take the resolved colours, whether or not
      either band is repainted, and the diagnostic stays as it was. */
  lemma GlobalsAlwaysOverwritten(s: State, m: Msg, msgText: string)
    ensures var t := Step(s, Some(m), msgText);
      t.msgFG == Resolve(Field(m.FGColor)) && t.msgBG == Resolve(Field(m.BGColor)) && t.error == s.error
  {
  }

  /** The main band is repainted, in the message's colours, exactly when the
      main text is not empty. */
  lemma MainBandRule(s: State, m: Msg, msgText: string)
    ensures var t := Step(s, Some(m), msgText);
      (Field(m.textMain) != "" ==>
         t.main == Band(Resolve(Field(m.BGColor)), Resolve(Field(m.FGColor)), Field(m.textMain))) &&
      (Field(m.textMain) == "" ==> t.main == s.main)
  {
  }

  /** The sub band is repainted exactly when the sub text is not empty, and then
      always white on black. */
  lemma SubBandRule(s: State, m: Msg, msgText: string)
    ensures var t := Step(s, Some(m), msgText);
      (Field(m.textSub) != "" ==> t.sub == Band(Black, White, Field(m.textSub))) &&
      (Field(m.textSub) == "" ==> t.sub == s.sub)
  {
  }

  /** The sub band does not depend on the message's colours at all. */
  lemma SubIgnoresMessageColours(s: State, m1: Msg, m2: Msg, msgText: string)
    requires m1.textSub == m2.textSub
    ensures Step(s, Some(m1), msgText).sub == Step(s, Some(m2), msgText).sub
  {
  }

  /** Each band's new content depends only on that band's old content and the
      message: what the other band showed plays no part. */
  lemma BandsIndependent(s1: State, s2: State, parsed: Option<Msg>, msgText: string)
    ensures s1.main == s2.main ==> Step(s1, parsed, msgText).main == Step(s2, parsed, msgText).main
    ensures s1.sub == s2.sub ==> Step(s1, parsed, msgText).sub == Step(s2, parsed, msgText).sub
  {
  }

  /** Every write is an overwrite: handling the same outcome twice leaves the
      state that handling it once does. */
  lemma StepIdempotent(s: State, parsed: Option<Msg>, msgText: string)
    ensures Step(Step(s, parsed, msgText), parsed, msgText) == Step(s, parsed, msgText)
  {
  }

  /** The three messages the firmware keeps as literals (mqttMsg1..3). */
  const Msg1 := Msg("WHITE", "RED", "会議中です", "食事は会議が終わってから")
  const Msg2 := Msg("BLACK", "YELLOW", "仕事中", "呼ばれたらきりのいいとこで降りていきます")
  const Msg3 := Msg("BLACK", "GREEN", "今日は仕事終わり", "呼ばれれば降りていきます")

  /** A message whose four values hold no NUL is read whole: the globals take
      its colours and each non-empty text is shown as it stands. */
  lemma NulFreeMessage(s: State, m: Msg, msgText: string)
    requires NUL !in m.FGColor && NUL !in m.BGColor
    requires NUL !in m.textMain && NUL !in m.textSub
    ensures var t := Step(s, Some(m), msgText);
      var fg, bg := Resolve(m.FGColor), Resolve(m.BGColor);
      t.msgFG == fg && t.msgBG == bg &&
      t.main == (if m.textMain != "" then Band(bg, fg, m.textMain) else s.main) &&
      t.sub == (if m.textSub != "" then Band(Black, White, m.textSub) else s.sub)
  {
    NulFreeText(m.FGColor);
    NulFreeText(m.BGColor);
    NulFreeText(m.textMain);
    NulFreeText(m.textSub);
  }

  /** The first built-in message shows white on red, its sub text white on black. */
  lemma BuiltinMessage1(s: State, msgText: string)
    ensures Step(s, Some(Msg1), msgText).main == Band(Red, White, Msg1.textMain)
    ensures Step(s, Some(Msg1), msgText).sub == Band(Black, White, Msg1.textSub)
  {
    var m := Msg1;
    assert NUL !in m.FGColor && NUL !in m.BGColor;
    assert NUL !in m.textMain && NUL !in m.textSub;
    assert Resolve(m.FGColor) == White && Resolve(m.BGColor) == Red;
    assert m.textMain != "" && m.textSub != "";
    NulFreeMessage(s, m, msgText);
  }

  /** The second built-in message shows black on yellow, its sub text white on black. */
  lemma BuiltinMessage2(s: State, msgText: string)
    ensures Step(s, Some(Msg2), msgText).main == Band(Yellow, Black, Msg2.textMain)
    ensures Step(s, Some(Msg2), msgText).sub == Band(Black, White, Msg2.textSub)
  {
    var m := Msg2;
    assert NUL !in m.FGColor && NUL !in m.BGColor;
    assert NUL !in m.textMain && NUL !in m.textSub;
    assert Resolve(m.FGColor) == Black && Resolve(m.BGColor) == Yellow;
    assert m.textMain != "" && m.textSub != "";
    NulFreeMessage(s, m, msgText);
  }

  /** The third built-in message shows black on green, its sub text white on black. */
  lemma BuiltinMessage3(s: State, msgText: string)
    ensures Step(s, Some(Msg3), msgText).main == Band(Green, Black, Msg3.textMain)
    ensures Step(s, Some(Msg3), msgText).sub == Band(Black, White, Msg3.textSub)
  {
    var m := Msg3;
    assert NUL !in m.FGColor && NUL !in m.BGColor;
    assert NUL !in m.textMain && NUL !in m.textSub;
    assert Resolve(m.FGColor) == Black && Resolve(m.BGColor) == Green;
    assert m.textMain != "" && m.textSub != "";
    NulFreeMessage(s, m, msgText);
  }

  /** A message whose main text is empty leaves the main band as it was and
      repaints only the sub band. */
  lemma EmptyMainTextKeepsMainBand(s: State, msgText: string)
    ensures var t := Step(s, Some(Msg("RED", "BLUE", "", "Z")), msgText);
      t.main == s.main && t.sub == Band(Black, White, "Z")
  {
  }

  /** A value is read only up to an escaped NUL: "RED\0x" names red, and a main
      text that starts with NUL counts as empty and leaves the main band alone. */
  lemma NulEndsField(s: State, msgText: string)
    ensures var t := Step(s, Some(Msg("RED\0x", "BLUE", "\0abc", "")), msgText);
      t.msgFG == Red && t.main == s.main
  {
  }

  /** With the terminator added, a payload without zero bytes that fails to
      parse is echoed whole by the diagnostic. */
  lemma FailureEchoesPayload(s: State, payload: seq<byte>)
    requires forall i :: 0 <= i < |payload| ==> payload[i] != 0
    ensures Step(s, None, Text(payload)).error == [ParseFailedLine, Chars(payload)]
  {
    NulFreeRead(payload);
  }

  /** As written, the diagnostic echoes the payload followed by the memory
      after it, up to the first NUL there. */
  lemma FailureEchoesAsWritten(s: State, payload: seq<byte>, stale: seq<char>)
    requires |payload| <= |stale|
    requires forall i :: 0 <= i < |payload| ==> payload[i] != 0
    ensures Step(s, None, AsWrittenText(payload, stale)).error ==
            [ParseFailedLine, Chars(payload) + CString(stale[|payload|..])]
  {
    AsWrittenReadsOn(payload, stale);
  }

  /** The display and the handler's globals, updated in place. */
  class Screen {
    var msgFGColor: Color
    var msgBGColor: Color
    var main: Band
    var sub: Band
    var error: seq<string>

    function Current(): State
      reads this
    {
      State(msgFGColor, msgBGColor, main, sub, error)
    }

    constructor ()
      ensures Current() == Initial
    {
      msgFGColor, msgBGColor := Black, Green;
      main, sub := Blank, Blank;
      error := [];
    }

    /** The handler after parsing: the early return on failure, then the two
        globals, then the two conditional repaints. */
    method Apply(parsed: Option<Msg>, msgText: string)
      modifies this
      ensures Current() == Step(old(Current()), parsed, msgText)
    {
      if parsed.None? {
        error := [ParseFailedLine, msgText];
        return;
      }
      var m := parsed.value;
      msgFGColor := Resolve(Field(m.FGColor));
      msgBGColor := Resolve(Field(m.BGColor));
      if Field(m.textMain) != "" {
        main := Band(msgBGColor, msgFGColor, Field(m.textMain));
      }
      if Field(m.textSub) != "" {
        sub := Band(Black, White, Field(m.textSub));
      }
    }

    /** The whole handler as written: copy the payload into msgText without a
        terminator, parse the C string read from there with `parse`, apply the
        outcome. `stale` is the memory from msgText on before the copy. */
    method CallbackAsWritten(payload: seq<byte>, stale: seq<char>, parse: string -> Option<Msg>)
      requires |payload| <= BufferSize <= |stale|
      modifies this
      ensures Current() ==
        Step(old(Current()), parse(AsWrittenText(payload, stale)), AsWrittenText(payload, stale))
    {
      var msgText := CopyAsWritten(payload, stale);
      assert msgText + stale[BufferSize..] == Chars(payload) + stale[|payload|..];
      var text := CString(msgText + stale[BufferSize..]);
      Apply(parse(text), text);
    }

    /** The handler with the terminator written after the payload. The result
        no longer depends on what the memory held before. */
    method Callback(payload: seq<byte>, stale: seq<char>, parse: string -> Option<Msg>)
      requires |payload| < BufferSize <= |stale|
      modifies this
      ensures Current() == Step(old(Current()), parse(Text(payload)), Text(payload))
    {
      var msgText := CopyTerminated(payload, stale);
      var text := CString(msgText + stale[BufferSize..]);
      Apply(parse(text), text);
    }
  }
}
