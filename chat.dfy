/** The chat component builder of data/chat.go: the hex colour validator and
    the `Chat` object whose setters change one field in place and hand the
    receiver back for chaining. Colours and fonts are Go string types; here
    they are strings. */
module ChatText {
  import opened Wire

  const COLOR_BLACK := "black"
  const COLOR_DARK_BLUE := "dark_blue"
  const COLOR_DARK_GREEN := "dark_green"
  const COLOR_DARK_AQUA := "dark_aqua"
  const COLOR_DARK_RED := "dark_red"
  const COLOR_DARK_PURPLE := "dark_purple"
  const COLOR_GOLD := "gold"
  const COLOR_GRAY := "gray"
  const COLOR_DARK_GRAY := "dark_gray"
  const COLOR_BLUE := "blue"
  const COLOR_GREEN := "green"
  const COLOR_AQUA := "aqua"
  const COLOR_RED := "red"
  const COLOR_LIGHT_PURPLE := "light_purple"
  const COLOR_YELLOW := "yellow"
  const COLOR_WHITE := "white"

  const FONT_DEFAULT := "minecraft:default"
  const FONT_UNIFORM := "minecraft:uniform"
  const FONT_ALT := "minecraft:alt"
  const FONT_ILLAGER_ALT := "minecraft:illageralt"

  // -------------------------------------------------------------------
  // The pattern `^#[0-9a-fA-F]{6}$`

  /** A bracket expression: a list of inclusive character ranges. */
  datatype CharClass = CharClass(ranges: seq<(char, char)>)

  /** A literal character, or a class repeated exactly `count` times. */
  datatype Atom = Lit(c: char) | Repeat(cls: CharClass, count: nat)

  const HEX_CLASS := CharClass([('0', '9'), ('a', 'f'), ('A', 'F')])

  /** The colour pattern, anchored at both ends of the string. */
  const COLOR_HEX_PATTERN := [Lit('#'), Repeat(HEX_CLASS, 6)]

  predicate InRanges(rs: seq<(char, char)>, c: char) {
    rs != [] && ((rs[0].0 <= c <= rs[0].1) || InRanges(rs[1..], c))
  }

  /** The first n characters of s are all in cls. */
  predicate RepeatMatches(cls: CharClass, n: nat, s: string) {
    n == 0 || (|s| > 0 && InRanges(cls.ranges, s[0]) && RepeatMatches(cls, n - 1, s[1..]))
  }

  /** The whole of s matches the pattern p (anchored with ^ and $). */
  predicate MatchesAll(p: seq<Atom>, s: string) {
    if p == [] then s == []
    else match p[0]
      case Lit(c) => |s| > 0 && s[0] == c && MatchesAll(p[1..], s[1..])
      case Repeat(cls, n) => |s| >= n && RepeatMatches(cls, n, s) && MatchesAll(p[1..], s[n..])
  }

  predicate IsHexDigit(c: char) {
    '0' <= c <= '9' || 'a' <= c <= 'f' || 'A' <= c <= 'F'
  }

  /** What the pattern means: '#' and then exactly six hex digits. */
  predicate IsHexColor(s: string) {
    |s| == 7 && s[0] == '#' && forall i :: 1 <= i < 7 ==> IsHexDigit(s[i])
  }

  lemma HexClassIsHexDigit(c: char)
    ensures InRanges(HEX_CLASS.ranges, c) <==> IsHexDigit(c)
  {
    var rs := HEX_CLASS.ranges;
    assert rs[1..] == [('a', 'f'), ('A', 'F')] && rs[1..][1..] == [('A', 'F')] && rs[1..][1..][1..] == [];
    assert InRanges(rs[1..][1..], c) <==> 'A' <= c <= 'F';
    assert InRanges(rs[1..], c) <==> 'a' <= c <= 'f' || 'A' <= c <= 'F';
  }

  /** n characters of the hex class are n hex digits. */
  lemma {:induction false} RepeatHex(n: nat, s: string)
    requires |s| >= n
    ensures RepeatMatches(HEX_CLASS, n, s) <==> forall i :: 0 <= i < n ==> IsHexDigit(s[i])
    decreases n
  {
    if n > 0 {
      HexClassIsHexDigit(s[0]);
      RepeatHex(n - 1, s[1..]);
      assert forall i :: 1 <= i < n ==> s[1..][i - 1] == s[i];
    }
  }

  /** The colour pattern accepts exactly the strings IsHexColor describes. */
  lemma PatternMeansHexColor(s: string)
    ensures MatchesAll(COLOR_HEX_PATTERN, s) <==> IsHexColor(s)
  {
    var p := COLOR_HEX_PATTERN;
    assert p[1..] == [Repeat(HEX_CLASS, 6)] && p[1..][1..] == [];
    if |s| > 0 && s[0] == '#' {
      assert MatchesAll(p, s) == MatchesAll(p[1..], s[1..]);
      if |s[1..]| >= 6 {
        RepeatHex(6, s[1..]);
        assert forall i :: 1 <= i < 7 ==> s[1..][i - 1] == s[i];
        assert MatchesAll(p[1..][1..], s[1..][6..]) <==> |s| == 7;
      }
    }
  }

  /** ChatColorHex: the input itself when it matches the colour pattern,
      otherwise the "invalid hex color" error. */
  function ChatColorHex(hex: string): (r: Result<string>)
    ensures r.Ok? <==> IsHexColor(hex)
    ensures r.Ok? ==> r.value == hex
    ensures r.Err? ==> r.err == InvalidHexColor
  {
    PatternMeansHexColor(hex);
    if MatchesAll(COLOR_HEX_PATTERN, hex) then Ok(hex) else Err(InvalidHexColor)
  }

  /** Verdicts on concrete strings: a mixed-case colour is accepted; a
      colour followed by a newline ($ is the end of the text), one digit
      short, and a named colour are not. */
  lemma HexColorExamples()
    ensures ChatColorHex("#a0B1c2") == Ok("#a0B1c2")
    ensures ChatColorHex("#a0B1c2\n") == Err(InvalidHexColor)
    ensures ChatColorHex("#a0B1c") == Err(InvalidHexColor)
    ensures ChatColorHex(COLOR_GOLD) == Err(InvalidHexColor)
  {
    assert IsHexColor("#a0B1c2");
  }

  // -------------------------------------------------------------------
  // The builder

  /** Every field of a Chat at one moment. */
  datatype ChatState = ChatState(
    text: Option<string>, color: Option<string>, font: Option<string>,
    extra: seq<Chat>,
    bold: bool, italic: bool, underlined: bool, strikethrough: bool, obfuscated: bool)

  /** The zero Chat: no text, colour, font or extras, every style off. */
  const EMPTY := ChatState(None, None, None, [], false, false, false, false, false)

  class Chat {
    var text: Option<string>
    var color: Option<string>
    var font: Option<string>
    var extra: seq<Chat>
    var bold: bool
    var italic: bool
    var underlined: bool
    var strikethrough: bool
    var obfuscated: bool

    function State(): ChatState
      reads this
    {
      ChatState(text, color, font, extra, bold, italic, underlined, strikethrough, obfuscated)
    }

    /** MakeChat: a new, zero Chat. */
    constructor()
      ensures State() == EMPTY
    {
      text, color, font, extra := None, None, None, [];
      bold, italic, underlined, strikethrough, obfuscated := false, false, false, false, false;
    }

    method SetText(value: string) returns (r: Chat)
      modifies this
      ensures r == this && State() == old(State()).(text := Some(value))
    {
      text := Some(value);
      r := this;
    }

    method RemoveText() returns (r: Chat)
      modifies this
      ensures r == this && State() == old(State()).(text := None)
    {
      text := None;
      r := this;
    }

    method SetColor(value: string) returns (r: Chat)
      modifies this
      ensures r == this && State() == old(State()).(color := Some(value))
    {
      color := Some(value);
      r := this;
    }

    method RemoveColor() returns (r: Chat)
      modifies this
      ensures r == this && State() == old(State()).(color := None)
    {
      color := None;
      r := this;
    }

    method SetFont(value: string) returns (r: Chat)
      modifies this
      ensures r == this && State() == old(State()).(font := Some(value))
    {
      font := Some(value);
      r := this;
    }

    method RemoveFont() returns (r: Chat)
      modifies this
      ensures r == this && State() == old(State()).(font := None)
    {
      font := None;
      r := this;
    }

    /** AddExtra: the children go after the existing extras, in order. */
    method AddExtra(children: seq<Chat>) returns (r: Chat)
      modifies this
      ensures r == this && State() == old(State()).(extra := old(extra) + children)
    {
      extra := extra + children;
      r := this;
    }

    /** BuildExtra: one new child, a fresh zero Chat that the callback has
        shaped, goes after the existing extras. The callback is given as
        what it does to the fields of the Chat it is handed. */
    method BuildExtra(callback: ChatState -> ChatState) returns (r: Chat)
      modifies this
      ensures r == this && |extra| == |old(extra)| + 1 && extra[..|old(extra)|] == old(extra)
      ensures fresh(extra[|old(extra)|]) && extra[|old(extra)|].State() == callback(EMPTY)
      ensures State() == old(State()).(extra := extra)
    {
      var child := new Chat();
      child.Assign(callback(child.State()));
      r := AddExtra([child]);
    }

    /** The fields of s written into this Chat (the callback's effect). */
    method Assign(s: ChatState)
      modifies this
      ensures State() == s
    {
      text, color, font, extra := s.text, s.color, s.font, s.extra;
      bold, italic, underlined, strikethrough := s.bold, s.italic, s.underlined, s.strikethrough;
      obfuscated := s.obfuscated;
    }

    method SetBold(value: bool) returns (r: Chat)
      modifies this
      ensures r == this && State() == old(State()).(bold := value)
    {
      bold := value;
      r := this;
    }

    method SetItalic(value: bool) returns (r: Chat)
      modifies this
      ensures r == this && State() == old(State()).(italic := value)
    {
      italic := value;
      r := this;
    }

    method SetUnderlined(value: bool) returns (r: Chat)
      modifies this
      ensures r == this && State() == old(State()).(underlined := value)
    {
      underlined := value;
      r := this;
    }

    method SetStrikethrough(value: bool) returns (r: Chat)
      modifies this
      ensures r == this && State() == old(State()).(strikethrough := value)
    {
      strikethrough := value;
      r := this;
    }

    method SetObfuscated(value: bool) returns (r: Chat)
      modifies this
      ensures r == this && State() == old(State()).(obfuscated := value)
    {
      obfuscated := value;
      r := this;
    }
  }

  /** A chain of setters on a new Chat: a bold gold "hi" with one child
      built by the callback, every other field still zero. */
  method BuilderChainExample() returns (c: Chat)
    ensures c.text == Some("hi") && c.color == Some(COLOR_GOLD) && c.bold
    ensures c.font.None? && !c.italic && !c.underlined && !c.strikethrough && !c.obfuscated
    ensures |c.extra| == 1 && c.extra[0].State() == EMPTY.(text := Some("!"))
  {
    c := new Chat();
    var r := c.SetText("hi");
    r := r.SetColor(COLOR_GOLD);
    r := r.SetBold(true);
    r := r.BuildExtra((s: ChatState) => s.(text := Some("!")));
  }
}
