/**
 * The ANSI style builder `Console` of lib/console.rb. Every call of an
 * unknown method on a console lands in `method_missing`: a style or colour
 * name adds its Select Graphic Rendition code (ECMA-48 section 8.3.117) to a
 * buffer, and a call that carries text wraps the text in one SGR sequence
 * holding the buffered codes and a reset, then empties the buffer.
 */
module Ansi {
  import opened Wrappers
  import opened Text

  const Esc: char := 27 as char
  /**
   * `Console::CSI`, written `"\e\x1b["` in the source: both escapes denote
   * ESC, so the introducer is two ESC characters and `[`.
   */
  const Csi: string := [Esc, Esc, '[']
  /** `Console::SGR`, the final byte of the sequence. */
  const SgrEnd: string := "m"
  /** `STYLES[:reset]`. */
  const ResetCode: nat := 0
  const ColorFg: nat := 30
  const ColorBg: nat := 40

  /** The keys of `STYLES`. */
  datatype Style = Reset | Bold | Dim | Italic | Underline | Blink | Inverse | Hidden | Strikethrough

  /** The keys of `COLORS`. */
  datatype Color = Black | Red | Green | Yellow | Blue | Magenta | Cyan | White

  function StyleName(s: Style): string {
    match s
    case Reset => "reset"
    case Bold => "bold"
    case Dim => "dim"
    case Italic => "italic"
    case Underline => "underline"
    case Blink => "blink"
    case Inverse => "inverse"
    case Hidden => "hidden"
    case Strikethrough => "strikethrough"
  }

  /** The values of `STYLES`. */
  function StyleCode(s: Style): nat {
    match s
    case Reset => 0
    case Bold => 1
    case Dim => 2
    case Italic => 3
    case Underline => 4
    case Blink => 5
    case Inverse => 7
    case Hidden => 8
    case Strikethrough => 9
  }

  function ColorName(c: Color): string {
    match c
    case Black => "black"
    case Red => "red"
    case Green => "green"
    case Yellow => "yellow"
    case Blue => "blue"
    case Magenta => "magenta"
    case Cyan => "cyan"
    case White => "white"
  }

  /** The values of `COLORS`. */
  function ColorCode(c: Color): nat {
    match c
    case Black => 0
    case Red => 1
    case Green => 2
    case Yellow => 3
    case Blue => 4
    case Magenta => 5
    case Cyan => 6
    case White => 7
  }

  /** `STYLES.key?(name)`, and which style it is. */
  function StyleNamed(name: string): (r: Option<Style>)
    ensures r.Some? ==> StyleName(r.value) == name
    ensures r.None? ==> forall s: Style :: StyleName(s) != name
  {
    if name == "reset" then Some(Reset)
    else if name == "bold" then Some(Bold)
    else if name == "dim" then Some(Dim)
    else if name == "italic" then Some(Italic)
    else if name == "underline" then Some(Underline)
    else if name == "blink" then Some(Blink)
    else if name == "inverse" then Some(Inverse)
    else if name == "hidden" then Some(Hidden)
    else if name == "strikethrough" then Some(Strikethrough)
    else None
  }

  /** `COLORS.key?(name)`, and which colour it is. */
  function ColorNamed(name: string): (r: Option<Color>)
    ensures r.Some? ==> ColorName(r.value) == name
    ensures r.None? ==> forall c: Color :: ColorName(c) != name
  {
    if name == "black" then Some(Black)
    else if name == "red" then Some(Red)
    else if name == "green" then Some(Green)
    else if name == "yellow" then Some(Yellow)
    else if name == "blue" then Some(Blue)
    else if name == "magenta" then Some(Magenta)
    else if name == "cyan" then Some(Cyan)
    else if name == "white" then Some(White)
    else None
  }

  /** The codes a console can ever buffer. */
  predicate ValidCode(c: nat) {
    c in {0, 1, 2, 3, 4, 5, 7, 8, 9} || 30 <= c <= 37 || 40 <= c <= 47
  }

  /**
   * The code `method_missing` buffers for a call of `name`: a style's code, a
   * colour's code plus 30, for `on_<colour>` the colour's code plus 40, and
   * nothing for any other name.
   */
  function CodeFor(name: string): (r: Option<nat>)
    ensures r.Some? ==> ValidCode(r.value)
  {
    match StyleNamed(name)
    case Some(s) => Some(StyleCode(s))
    case None =>
      match ColorNamed(name)
      case Some(c) => Some(ColorCode(c) + ColorFg)
      case None =>
        if |name| >= 3 && name[..3] == "on_" then
          match ColorNamed(name[3..])
          case Some(c) => Some(ColorCode(c) + ColorBg)
          case None => None
        else None
  }

  /** What one call of `name` adds to the buffer. */
  function Buffered(name: string): (r: seq<nat>)
    ensures |r| <= 1 && forall i :: 0 <= i < |r| ==> ValidCode(r[i])
  {
    match CodeFor(name)
    case Some(c) => [c]
    case None => []
  }

  /** The codes a chain of calls `console.a.b.c` buffers, in call order. */
  function Codes(names: seq<string>): (r: seq<nat>)
    ensures |r| <= |names|
    ensures forall i :: 0 <= i < |r| ==> ValidCode(r[i])
  {
    if names == [] then [] else Codes(names[..|names| - 1]) + Buffered(names[|names| - 1])
  }

  /** A style name buffers the style's code from `STYLES`. */
  lemma StyleNameCode(s: Style)
    ensures CodeFor(StyleName(s)) == Some(StyleCode(s))
  {
  }

  /** A colour name buffers the colour's code plus 30. */
  lemma ColorNameCode(c: Color)
    ensures CodeFor(ColorName(c)) == Some(ColorCode(c) + 30)
  {
    match c
    case Black =>
    case Red =>
    case Green =>
    case Yellow =>
    case Blue =>
    case Magenta =>
    case Cyan =>
    case White =>
  }

  /** `on_` and a colour name buffers the colour's code plus 40. */
  lemma BackgroundNameCode(c: Color)
    ensures CodeFor("on_" + ColorName(c)) == Some(ColorCode(c) + 40)
  {
    var name := "on_" + ColorName(c);
    assert name[0] == 'o' && name[..3] == "on_" && name[3..] == ColorName(c);
    NotPlainName(name);
    ColorNamedName(c);
  }

  /** No style and no colour is named with a leading `o`. */
  lemma NotPlainName(name: string)
    requires name != [] && name[0] == 'o'
    ensures StyleNamed(name) == None && ColorNamed(name) == None
  {
  }

  lemma ColorNamedName(c: Color)
    ensures ColorNamed(ColorName(c)) == Some(c)
  {
    match c
    case Black =>
    case Red =>
    case Green =>
    case Yellow =>
    case Blue =>
    case Magenta =>
    case Cyan =>
    case White =>
  }

  /** Any other name, `on_` with an unknown colour included, buffers nothing. */
  lemma OtherNameNoCode(name: string)
    requires forall s: Style :: StyleName(s) != name
    requires forall c: Color :: ColorName(c) != name && "on_" + ColorName(c) != name
    ensures CodeFor(name) == None
  {
    if |name| >= 3 && name[..3] == "on_" {
      assert name == "on_" + name[3..];
    }
  }

  /** The parameter string of an SGR sequence: `codes.join(";")`. */
  function Params(codes: seq<nat>): string {
    Join(seq(|codes|, i requires 0 <= i < |codes| => Decimal(codes[i])), ";")
  }

  /** The sequence that undoes every style: CSI, `0`, `m`. */
  const Trailer: string := Csi + Decimal(ResetCode) + SgrEnd

  /** The string a call with text returns, for the buffered `codes` and the joined arguments. */
  function Render(codes: seq<nat>, text: string): string {
    if codes == [] then text else Csi + Params(codes) + SgrEnd + text + Trailer
  }

  /** Styled text: the SGR codes in force and the text they apply to. */
  datatype Styled = Styled(codes: seq<nat>, text: string)

  /** The decimal numerals of a parameter string, read back as numbers. */
  function ParseParams(pieces: seq<string>): Option<seq<nat>> {
    if pieces == [] then Some([])
    else if pieces[0] == [] || !AllDigits(pieces[0]) then None
    else match ParseParams(pieces[1..])
      case None => None
      case Some(rest) => Some([DigitsValue(pieces[0])] + rest)
  }

  /**
   * Reads back what `Render` writes: text that begins with CSI must carry
   * parameters, an `m`, the text and the reset sequence; any other text is plain.
   */
  function Decode(out: string): Option<Styled> {
    if |out| >= |Csi| && out[..|Csi|] == Csi then DecodeSgr(out[|Csi|..]) else Some(Styled([], out))
  }

  /** What follows CSI: the parameters up to the first `m`, then the styled text. */
  function DecodeSgr(rest: string): Option<Styled> {
    match IndexOf(rest, 'm')
    case None => None
    case Some(k) => DecodeBody(rest[..k], rest[k + 1..])
  }

  /** The parameters, and the text up to the reset sequence that must end the output. */
  function DecodeBody(params: string, after: string): Option<Styled> {
    if |after| >= |Trailer| && after[|after| - |Trailer|..] == Trailer then
      match ParseParams(Split(params, ';'))
      case None => None
      case Some(codes) => Some(Styled(codes, after[..|after| - |Trailer|]))
    else None
  }

  lemma {:induction false} ParseDecimals(codes: seq<nat>)
    ensures ParseParams(seq(|codes|, i requires 0 <= i < |codes| => Decimal(codes[i]))) == Some(codes)
  {
    var ds := seq(|codes|, i requires 0 <= i < |codes| => Decimal(codes[i]));
    if codes != [] {
      DecimalValue(codes[0]);
      assert ds[1..] == seq(|codes[1..]|, i requires 0 <= i < |codes[1..]| => Decimal(codes[1..][i]));
      ParseDecimals(codes[1..]);
      assert codes == [codes[0]] + codes[1..];
    }
  }

  /** The parameters and the text of a styled string can be read back from it. */
  lemma DecodeRender(codes: seq<nat>, text: string)
    requires codes != []
    ensures Decode(Render(codes, text)) == Some(Styled(codes, text))
  {
    ParamsAvoid(codes);
    DecodeFrame(Params(codes), text);
    DecodeBodyTrailer(Params(codes), text);
    ParamsParse(codes);
  }

  /** No `m` occurs among the parameters. */
  lemma ParamsAvoid(codes: seq<nat>)
    ensures 'm' !in Params(codes)
  {
    var ds := seq(|codes|, i requires 0 <= i < |codes| => Decimal(codes[i]));
    JoinAvoids(ds, ";", 'm');
  }

  /** The parameter string splits at `;` into numerals that read back as the codes. */
  lemma ParamsParse(codes: seq<nat>)
    requires codes != []
    ensures ParseParams(Split(Params(codes), ';')) == Some(codes)
  {
    var ds := seq(|codes|, i requires 0 <= i < |codes| => Decimal(codes[i]));
    assert ";" == [';'];
    SplitJoin(ds, ';');
    ParseDecimals(codes);
  }

  /** `Decode` splits a CSI sequence at its first `m` and strips the trailer. */
  lemma DecodeFrame(p: string, text: string)
    requires 'm' !in p
    ensures Decode(Csi + p + SgrEnd + text + Trailer) == DecodeBody(p, text + Trailer)
  {
    var after := text + Trailer;
    var rest := p + SgrEnd + after;
    Regroup(Csi, p, SgrEnd, text, Trailer);
    DecodeCsi(rest);
    IndexOfAfter(p, 'm', after);
    DecodeSgrAt(rest, |p|);
    assert rest[..|p|] == p && rest[|p| + 1..] == after;
    assert Csi + p + SgrEnd + text + Trailer == Csi + rest;
  }

  lemma Regroup(a: string, b: string, c: string, d: string, e: string)
    ensures a + b + c + d + e == a + (b + c + (d + e))
  {
  }

  lemma DecodeCsi(rest: string)
    ensures Decode(Csi + rest) == DecodeSgr(rest)
  {
    assert (Csi + rest)[..|Csi|] == Csi && (Csi + rest)[|Csi|..] == rest;
  }

  lemma DecodeSgrAt(rest: string, k: nat)
    requires IndexOf(rest, 'm') == Some(k)
    ensures DecodeSgr(rest) == DecodeBody(rest[..k], rest[k + 1..])
  {
  }

  /** The text before the reset sequence is the styled text. */
  lemma DecodeBodyTrailer(params: string, text: string)
    ensures DecodeBody(params, text + Trailer) ==
              match ParseParams(Split(params, ';'))
              case None => None
              case Some(codes) => Some(Styled(codes, text))
  {
    var after := text + Trailer;
    assert after[|after| - |Trailer|..] == Trailer && after[..|after| - |Trailer|] == text;
  }

  lemma {:induction false} JoinAvoids(parts: seq<string>, sep: string, c: char)
    requires c !in sep && forall k :: 0 <= k < |parts| ==> c !in parts[k]
    ensures c !in Join(parts, sep)
    decreases |parts|
  {
    if |parts| > 1 { JoinAvoids(parts[1..], sep, c); }
  }

  /** A text without styles is its own rendering, and reads back as plain text unless it begins with ESC. */
  lemma DecodePlain(text: string)
    requires text == [] || text[0] != Esc
    ensures Decode(Render([], text)) == Some(Styled([], text))
  {
    assert |text| < |Csi| || text[..|Csi|][0] != Csi[0];
  }

  /** What a call on a console returns: the console itself (`self`), or a string. */
  datatype Reply = Chained | Text(out: string)

  /** Class `Console`: the buffer `@sgr` of codes waiting for text. */
  class Console {
    var sgr: seq<nat>

    ghost predicate Valid()
      reads this
    {
      forall i :: 0 <= i < |sgr| ==> ValidCode(sgr[i])
    }

    /** `Console#initialize`: an empty buffer. */
    constructor ()
      ensures Valid() && sgr == []
    {
      sgr := [];
    }

    /**
     * `Console#method_missing(name, *args)`: buffers the code named by `name`;
     * without arguments returns the console with the buffer kept; with
     * arguments returns their concatenation styled by the whole buffer, in
     * call order, and empties the buffer.
     */
    method MethodMissing(name: string, args: seq<string>) returns (r: Reply)
      requires Valid()
      modifies this
      ensures Valid()
      ensures args == [] ==> r == Chained && sgr == old(sgr) + Buffered(name)
      ensures args != [] ==> r == Text(Render(old(sgr) + Buffered(name), Join(args, ""))) && sgr == []
    {
      ghost var codes := old(sgr) + Buffered(name);
      var code := CodeFor(name);
      if code.Some? {
        sgr := sgr + [code.value];
      }
      assert sgr == codes;
      if args == [] {
        return Chained;
      }
      var out := Compose(sgr, args);
      sgr := [];
      return Text(out);
    }
  }

  /** The string `method_missing` builds from the buffer and the arguments. */
  method Compose(sgr: seq<nat>, args: seq<string>) returns (out: string)
    ensures out == Render(sgr, Join(args, ""))
  {
    out := "";
    if sgr != [] {
      out := out + Csi + Params(sgr) + SgrEnd;
    }
    out := out + Join(args, "");
    if sgr != [] {
      out := out + Csi + Decimal(ResetCode) + SgrEnd;
    }
  }
}
