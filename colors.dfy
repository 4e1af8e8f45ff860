/** The colour-name resolver of the message board (isTFTColor in src/main.cpp).

    A message names its foreground and background colours by upper-case words;
    the resolver turns such a word into one of the display's colour constants by
    exact, case-sensitive comparison, and never fails: a word it does not know
    becomes PURPLE.
 */
module Colors {

  /** The display colours the board can show: the eleven targets of the
      resolver plus its fallback. */
  datatype Color =
    | Black | Navy | DarkCyan | Blue | Green | Red
    | Cyan | Magenta | Yellow | White | Purple

  /** The 16-bit RGB565 value of each colour constant (TFT_BLACK, TFT_NAVY, ...),
      as the display library defines them; the globals msgFGColor and msgBGColor
      hold these values. */
  function Code(c: Color): (v: int)
    ensures 0 <= v < 0x1_0000
  {
    match c
    case Black    => 0x0000
    case Navy     => 0x000F
    case DarkCyan => 0x03EF
    case Blue     => 0x001F
    case Green    => 0x07E0
    case Red      => 0xF800
    case Cyan     => 0x07FF
    case Magenta  => 0xF81F
    case Yellow   => 0xFFE0
    case White    => 0xFFFF
    case Purple   => 0x780F
  }

  /** Distinct colours have distinct codes, so the datatype loses nothing
      the integer globals can tell apart. */
  lemma CodeInjective(a: Color, b: Color)
    ensures Code(a) == Code(b) <==> a == b
  {
  }

  /** The names the resolver recognises (DARKBLUE among them, as an alias). */
  const ColorNames: set<string> :=
    {"BLACK", "NAVY", "DARKBLUE", "DARKCYAN", "BLUE", "GREEN",
     "RED", "CYAN", "MAGENTA", "YELLOW", "WHITE"}

  /** The canonical name of every colour the resolver can produce by name.
      PURPLE has none: it is only the fallback. */
  function NameOf(c: Color): string
    requires c != Purple
  {
    match c
    case Black    => "BLACK"
    case Navy     => "NAVY"
    case DarkCyan => "DARKCYAN"
    case Blue     => "BLUE"
    case Green    => "GREEN"
    case Red      => "RED"
    case Cyan     => "CYAN"
    case Magenta  => "MAGENTA"
    case Yellow   => "YELLOW"
    case White    => "WHITE"
  }

  /** isTFTColor: the chain of exact comparisons, first match wins, PURPLE when
      nothing matches. */
  function Resolve(name: string): (c: Color)
    ensures c != Purple <==> name in ColorNames
  {
    if name == "BLACK" then Black
    else if name == "NAVY" then Navy
    else if name == "DARKBLUE" then Navy
    else if name == "DARKCYAN" then DarkCyan
    else if name == "BLUE" then Blue
    else if name == "GREEN" then Green
    else if name == "RED" then Red
    else if name == "CYAN" then Cyan
    else if name == "MAGENTA" then Magenta
    else if name == "YELLOW" then Yellow
    else if name == "WHITE" then White
    else Purple
  }

  /** Every colour but the fallback is reached from its canonical name. */
  lemma ResolveNameOf(c: Color)
    requires c != Purple
    ensures Resolve(NameOf(c)) == c
  {
  }

  /** Conversely, a name that resolves to a real colour is that colour's
      canonical name, or DARKBLUE standing for NAVY: no other name reaches it. */
  lemma ResolvePreimage(name: string)
    requires Resolve(name) != Purple
    ensures name == NameOf(Resolve(name)) || (name == "DARKBLUE" && Resolve(name) == Navy)
  {
  }

  /** DARKBLUE is an alias: it resolves exactly as NAVY does. */
  lemma DarkBlueIsNavy()
    ensures Resolve("DARKBLUE") == Resolve("NAVY") == Navy
  {
  }

  /** The match is exact and case-sensitive: the empty word, a lower-case or
      capitalised name and the fallback's own name all give the fallback. */
  lemma FallbackExamples()
    ensures Resolve("") == Purple
    ensures Resolve("red") == Purple && Resolve("Red") == Purple
    ensures Resolve("WHITE ") == Purple
    ensures Resolve("PURPLE") == Purple
  {
  }
}
