/**
 * The text pieces of the HTML/CSS emitter: `rgb_to_html`
 * (tableimage/__init__.py:99-109), Python's `str` of an integer, and the
 * attribute and tag syntax the emitter's format strings spell out.
 */
module Markup {
  import opened Results
  import opened Data

  // ---------------------------------------------------------------------------
  // Colours as HTML hex strings

  /** `min(max(0, v), 255)`. */
  function Clamp(v: int): (r: int)
    ensures 0 <= r <= 255
    ensures 0 <= v <= 255 ==> r == v
    ensures v < 0 ==> r == 0
    ensures v > 255 ==> r == 255
  {
    if v < 0 then 0 else if v > 255 then 255 else v
  }

  /** The colour with every channel clamped into 0..255. */
  function Clamped(c: Color): Color {
    Color(Clamp(c.r), Clamp(c.g), Clamp(c.b))
  }

  /** The value of a lower-case hex digit, if `ch` is one. */
  function HexValue(ch: char): Option<nat> {
    if '0' <= ch <= '9' then Some(ch as int - '0' as int)
    else if 'a' <= ch <= 'f' then Some(ch as int - 'a' as int + 10)
    else None
  }

  /** The lower-case hex digit of `d`, as Python's `hex` writes it. */
  function HexDigit(d: nat): (ch: char)
    requires d < 16
    ensures HexValue(ch) == Some(d)
  {
    if d < 10 then ('0' as int + d) as char else ('a' as int + d - 10) as char
  }

  /** A channel as two hex digits, high digit first (zero-padded). */
  function HexPair(v: nat): (s: string)
    requires v < 256
  {
    [HexDigit(v / 16), HexDigit(v % 16)]
  }

  /** The six-digit form `#rrggbb` of a clamped colour. */
  function FullHex(c: Color): (s: string)
  {
    var k := Clamped(c);
    "#" + HexPair(k.r) + HexPair(k.g) + HexPair(k.b)
  }

  /** Every channel has two equal hex digits, so `#rrggbb` can be written `#rgb`. */
  predicate Shortenable(c: Color) {
    c.r % 17 == 0 && c.g % 17 == 0 && c.b % 17 == 0
  }

  /**
   * `rgb_to_html`: clamp every channel, write `#rrggbb`, and shorten it to
   * `#rgb` when every channel's two digits agree. The source does not pad
   * channels below 16 to two digits; see the Findings module for that.
   */
  function RgbToHtml(c: Color): (s: string)
    ensures |s| == 7 || |s| == 4
    ensures s[0] == '#'
    ensures forall i :: 1 <= i < |s| ==> HexValue(s[i]).Some?
  {
    var full := FullHex(c);
    if full[1] == full[2] && full[3] == full[4] && full[5] == full[6] then ['#', full[1], full[3], full[5]] else full
  }

  /** A channel's two hex digits are equal exactly when it is a multiple of 17 (0x11). */
  lemma Doubled(v: nat)
    requires v < 256
    ensures v / 16 == v % 16 <==> v % 17 == 0
  {
    var h, l := v / 16, v % 16;
    assert v == 16 * h + l;
    if h == l {
      assert v == 17 * h;
    }
    if v % 17 == 0 {
      var k := v / 17;
      assert v == 16 * k + k && k < 16;
    }
  }

  lemma DoubledDigit(v: nat)
    requires v < 256
    ensures HexDigit(v / 16) == HexDigit(v % 16) <==> v % 17 == 0
  {
    Doubled(v);
    assert HexValue(HexDigit(v / 16)) == Some(v / 16) && HexValue(HexDigit(v % 16)) == Some(v % 16);
  }

  /** The short form is chosen exactly when the clamped colour is shortenable. */
  lemma {:induction false} RgbToHtmlShort(c: Color)
    ensures |RgbToHtml(c)| == 4 <==> Shortenable(Clamped(c))
    ensures |RgbToHtml(c)| == 7 <==> !Shortenable(Clamped(c))
  {
    var k := Clamped(c);
    FullHexDigits(c);
    DoubledDigit(k.r);
    DoubledDigit(k.g);
    DoubledDigit(k.b);
  }

  /** The value of two hex digits, high first. */
  function PairValue(hi: char, lo: char): Option<nat> {
    match (HexValue(hi), HexValue(lo))
    case (Some(h), Some(l)) => Some(16 * h + l)
    case _ => None
  }

  /** Reads an HTML colour `#rrggbb` or `#rgb` back; None for anything else. */
  function ParseHtmlColour(s: string): Option<Color> {
    if |s| == 7 && s[0] == '#' then
      match (PairValue(s[1], s[2]), PairValue(s[3], s[4]), PairValue(s[5], s[6]))
      case (Some(r), Some(g), Some(b)) => Some(Color(r, g, b))
      case _ => None
    else if |s| == 4 && s[0] == '#' then
      match (PairValue(s[1], s[1]), PairValue(s[2], s[2]), PairValue(s[3], s[3]))
      case (Some(r), Some(g), Some(b)) => Some(Color(r, g, b))
      case _ => None
    else None
  }

  lemma PairRoundTrip(v: nat)
    requires v < 256
    ensures PairValue(HexDigit(v / 16), HexDigit(v % 16)) == Some(v)
    ensures v % 17 == 0 ==> PairValue(HexDigit(v / 16), HexDigit(v / 16)) == Some(v)
  {
    DoubledDigit(v);
  }

  /** The seven characters of the long form. */
  lemma FullHexDigits(c: Color)
    ensures var k := Clamped(c);
      FullHex(c) == ['#', HexDigit(k.r / 16), HexDigit(k.r % 16), HexDigit(k.g / 16), HexDigit(k.g % 16),
                     HexDigit(k.b / 16), HexDigit(k.b % 16)]
  {
  }

  /** `rgb_to_html` loses nothing but the clamping: reading its output back gives the clamped colour. */
  lemma {:induction false} RgbToHtmlRoundTrip(c: Color)
    ensures ParseHtmlColour(RgbToHtml(c)) == Some(Clamped(c))
  {
    var k := Clamped(c);
    FullHexDigits(c);
    RgbToHtmlShort(c);
    if Shortenable(k) {
      PairRoundTrip(k.r);
      PairRoundTrip(k.g);
      PairRoundTrip(k.b);
      assert RgbToHtml(c) == ['#', HexDigit(k.r / 16), HexDigit(k.g / 16), HexDigit(k.b / 16)];
    } else {
      PairRoundTrip(k.r);
      PairRoundTrip(k.g);
      PairRoundTrip(k.b);
      assert RgbToHtml(c) == FullHex(c);
    }
  }

  /** The examples of the docstring and the clamping rule. */
  lemma RgbToHtmlExamples()
    ensures RgbToHtml(Color(255, 0, 84)) == "#ff0054"
    ensures RgbToHtml(Color(255, 255, 255)) == "#fff"
    ensures RgbToHtml(Color(-5, 260, 10)) == "#00ff0a"
  {
    assert HexPair(255) == "ff" && HexPair(0) == "00" && HexPair(84) == "54" && HexPair(10) == "0a";
    FullHexDigits(Color(255, 0, 84));
    FullHexDigits(Color(255, 255, 255));
    FullHexDigits(Color(-5, 260, 10));
  }

  // ---------------------------------------------------------------------------
  // Integers as decimal text (`str`, `{!s}`)

  function DecimalDigit(d: nat): (ch: char)
    requires d < 10
    ensures '0' <= ch <= '9' && ch as int - '0' as int == d
  {
    ('0' as int + d) as char
  }

  /** The decimal digits of `n`, without leading zeros. */
  function NatToString(n: nat): (s: string)
    ensures s != [] && forall i :: 0 <= i < |s| ==> '0' <= s[i] <= '9'
    ensures n > 0 ==> s[0] != '0'
  {
    if n < 10 then [DecimalDigit(n)] else NatToString(n / 10) + [DecimalDigit(n % 10)]
  }

  /** The value of a string of decimal digits. */
  function ParseNat(s: string): int {
    if s == [] then 0 else 10 * ParseNat(s[..|s| - 1]) + (s[|s| - 1] as int - '0' as int)
  }

  lemma {:induction false} NatToStringRoundTrip(n: nat)
    ensures ParseNat(NatToString(n)) == n
  {
    if n >= 10 {
      NatToStringRoundTrip(n / 10);
      var s := NatToString(n);
      assert s[..|s| - 1] == NatToString(n / 10);
    }
  }

  /** Python's `str` of an integer: a minus sign for negative values. */
  function IntToString(i: int): (s: string)
    ensures s != [] && (s[0] == '-' <==> i < 0)
  {
    if i < 0 then "-" + NatToString(-i) else NatToString(i)
  }

  function ParseInt(s: string): int {
    if s != [] && s[0] == '-' then -ParseNat(s[1..]) else ParseNat(s)
  }

  lemma IntToStringRoundTrip(i: int)
    ensures ParseInt(IntToString(i)) == i
  {
    if i < 0 {
      NatToStringRoundTrip(-i);
      assert IntToString(i)[1..] == NatToString(-i);
    } else {
      NatToStringRoundTrip(i);
    }
  }

  // ---------------------------------------------------------------------------
  // Attribute and tag syntax

  /** An HTML attribute `name="value"`. */
  datatype Attr = Attr(name: string, value: string)

  /** A CSS declaration `property:value;`. */
  datatype Decl = Decl(property: string, value: string)

  /** The attributes of a tag, each preceded by a space. */
  function AttrText(attrs: seq<Attr>): string {
    if attrs == [] then ""
    else
      var a := attrs[|attrs| - 1];
      AttrText(attrs[..|attrs| - 1]) + " " + a.name + "=\"" + a.value + "\""
  }

  /** The text of a `style` attribute: every declaration followed by `;`. */
  function StyleText(decls: seq<Decl>): string {
    if decls == [] then ""
    else
      var d := decls[|decls| - 1];
      StyleText(decls[..|decls| - 1]) + d.property + ":" + d.value + ";"
  }

  /** An opening tag on a line of its own. */
  function StartTag(name: string, attrs: seq<Attr>): string {
    "<" + name + AttrText(attrs) + ">\n"
  }

  /** A self-closed tag on a line of its own. */
  function EmptyTag(name: string, attrs: seq<Attr>): string {
    "<" + name + AttrText(attrs) + "/>\n"
  }

  function EndTag(name: string): string {
    "</" + name + ">\n"
  }

  /** A length in pixels, `{n}px`. */
  function Px(n: int): string {
    IntToString(n) + "px"
  }
}
