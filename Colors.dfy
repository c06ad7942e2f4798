/** `hexToRgba`: the colour settings of the HUD are hex strings that are turned
    into CSS `rgba(...)` text. */
module Colors {
  import opened JsText

  /** One colour component as `parseInt` leaves it: a number, or NaN. */
  datatype Channel = Num(value: int) | NaN

  datatype Rgb = Rgb(r: Channel, g: Channel, b: Channel)

  /** The gold used when no colour is given. */
  const DefaultRgb := Rgb(Num(192), Num(160), Num(96))

  /** `s.replace("#", "")`: with a string pattern only the first `#` goes. */
  function RemoveFirstHash(s: string): string {
    if '#' in s then var i := IndexOf(s, '#'); s[..i] + s[i + 1..] else s
  }

  /** `s.slice(i, i + 2)`: the two characters from `i`, fewer past the end. */
  function Pair(s: string, i: nat): (p: string)
    ensures p == s[if i < |s| then i else |s|..if i + 2 < |s| then i + 2 else |s|]
  {
    if i + 2 <= |s| then [s[i], s[i + 1]] else if i < |s| then [s[i]] else []
  }

  /** The digits `hexToRgba` reads: the hash removed, then trimmed. */
  function Digits(hex: string): string {
    Trim(RemoveFirstHash(hex))
  }

  function ParseChannel(s: string): Channel {
    match ParseIntHex(s)
    case None => NaN
    case Some(v) => Num(v)
  }

  /** `#rgb`: each digit is doubled and read as a byte. */
  function ShortColor(h: string): Rgb
    requires |h| == 3
  {
    Rgb(ParseChannel([h[0], h[0]]), ParseChannel([h[1], h[1]]), ParseChannel([h[2], h[2]]))
  }

  /** Any other length: three two-character slices, short or empty past the end. */
  function LongColor(h: string): Rgb {
    Rgb(ParseChannel(Pair(h, 0)), ParseChannel(Pair(h, 2)), ParseChannel(Pair(h, 4)))
  }

  /** The three components `hexToRgba` computes. An empty string (as every falsy
      value) gives the default gold; three characters are each doubled; anything
      else is read as three two-character slices. */
  function ParseColor(hex: string): (c: Rgb)
    ensures hex == "" ==> c == DefaultRgb
    ensures ParsedRange(c.r) && ParsedRange(c.g) && ParsedRange(c.b)
  {
    if hex == "" then DefaultRgb
    else
      var h := Digits(hex);
      if |h| == 3 then ShortColor(h) else LongColor(h)
  }

  /** What `parseInt` can make of at most two characters: NaN, or a number
      from -15 (a sign and one digit) to 255. */
  predicate ParsedRange(c: Channel) {
    c.NaN? || -15 <= c.value <= 255
  }

  /** Two hex digits make one byte-sized component. */
  lemma ParseByte(x: char, y: char)
    requires IsHexDigit(x) && IsHexDigit(y)
    ensures ParseChannel([x, y]) == Num(16 * HexDigitValue(x) + HexDigitValue(y))
    ensures InByteRange(ParseChannel([x, y]))
  {
    ParseTwoHexDigits(x, y);
  }

  function ChannelText(c: Channel): string {
    match c
    case NaN => "NaN"
    case Num(v) => IntToDecimal(v)
  }

  /** `hexToRgba(hex, a)`, where `alphaText` is how the number `a` prints. */
  function HexToRgba(hex: string, alphaText: string): (css: string)
    ensures |css| > 5 + |alphaText| && css[..5] == "rgba("
    ensures css[|css| - |alphaText| - 2..] == "," + alphaText + ")"
  {
    ColorText(ParseColor(hex), alphaText)
  }

  /** The CSS text of three components and an alpha. */
  function ColorText(c: Rgb, alphaText: string): (css: string)
    ensures |css| > 5 + |alphaText| && css[..5] == "rgba("
    ensures css[|css| - |alphaText| - 2..] == "," + alphaText + ")"
  {
    RgbaText(ChannelText(c.r) + "," + ChannelText(c.g) + "," + ChannelText(c.b), alphaText)
  }

  /** `rgba(<components>,<alpha>)`. */
  function RgbaText(components: string, alphaText: string): (css: string)
    ensures |css| > 5 + |alphaText| && css[..5] == "rgba("
    ensures css[|css| - |alphaText| - 2..] == "," + alphaText + ")"
  {
    var tail := "," + alphaText + ")";
    assert ("rgba(" + components) + tail == "rgba(" + (components + tail);
    ("rgba(" + components) + tail
  }

  /** Three hex digits. */
  predicate ThreeHex(h: string) {
    |h| == 3 && IsHexDigit(h[0]) && IsHexDigit(h[1]) && IsHexDigit(h[2])
  }

  /** Six hex digits. */
  predicate SixHex(h: string) {
    |h| == 6 && IsHexDigit(h[0]) && IsHexDigit(h[1]) && IsHexDigit(h[2])
    && IsHexDigit(h[3]) && IsHexDigit(h[4]) && IsHexDigit(h[5])
  }

  predicate InByteRange(c: Channel) {
    c.Num? && 0 <= c.value <= 255
  }

  /** An empty colour gives `rgba(192,160,96,a)`. */
  lemma EmptyColourIsGold(alphaText: string)
    ensures HexToRgba("", alphaText) == "rgba(192,160,96," + alphaText + ")"
  {
    assert ParseColor("") == DefaultRgb;
    DefaultComponents();
    assert ColorText(DefaultRgb, alphaText) == RgbaText("192,160,96", alphaText);
  }

  /** The gold's components in decimal. */
  lemma DefaultComponents()
    ensures ChannelText(DefaultRgb.r) + "," + ChannelText(DefaultRgb.g) + "," + ChannelText(DefaultRgb.b)
      == "192,160,96"
  {
    assert ChannelText(Num(192)) == "192" by {
      assert NatToDecimal(19) == "19" by { assert NatToDecimal(1) == "1"; }
    }
    assert ChannelText(Num(160)) == "160" by {
      assert NatToDecimal(16) == "16" by { assert NatToDecimal(1) == "1"; }
    }
    assert ChannelText(Num(96)) == "96" by { assert NatToDecimal(9) == "9"; }
  }

  /** Three hex digits, each doubled: 17 times the digit's value. */
  lemma ShortColorOfDigits(h: string)
    requires ThreeHex(h)
    ensures ShortColor(h) == Rgb(Num(17 * HexDigitValue(h[0])), Num(17 * HexDigitValue(h[1])),
                                 Num(17 * HexDigitValue(h[2])))
  {
    var x, y, z := h[0], h[1], h[2];
    assert ParseChannel([x, x]) == Num(17 * HexDigitValue(x)) by { ParseByte(x, x); }
    assert ParseChannel([y, y]) == Num(17 * HexDigitValue(y)) by { ParseByte(y, y); }
    assert ParseChannel([z, z]) == Num(17 * HexDigitValue(z)) by { ParseByte(z, z); }
  }

  /** Six hex digits, read in pairs. */
  lemma LongColorOfDigits(h: string)
    requires SixHex(h)
    ensures LongColor(h) == Rgb(Num(16 * HexDigitValue(h[0]) + HexDigitValue(h[1])),
                                Num(16 * HexDigitValue(h[2]) + HexDigitValue(h[3])),
                                Num(16 * HexDigitValue(h[4]) + HexDigitValue(h[5])))
  {
    assert ParseChannel([h[0], h[1]]) == Num(16 * HexDigitValue(h[0]) + HexDigitValue(h[1])) by {
      ParseByte(h[0], h[1]);
    }
    assert ParseChannel([h[2], h[3]]) == Num(16 * HexDigitValue(h[2]) + HexDigitValue(h[3])) by {
      ParseByte(h[2], h[3]);
    }
    assert ParseChannel([h[4], h[5]]) == Num(16 * HexDigitValue(h[4]) + HexDigitValue(h[5])) by {
      ParseByte(h[4], h[5]);
    }
  }

  /** Three hex digits: each component is the digit doubled, 17 times its value,
      so a byte. */
  lemma ShortForm(hex: string)
    requires hex != "" && ThreeHex(Digits(hex))
    ensures var h := Digits(hex);
      ParseColor(hex) == Rgb(Num(17 * HexDigitValue(h[0])), Num(17 * HexDigitValue(h[1])),
                             Num(17 * HexDigitValue(h[2])))
    ensures InByteRange(ParseColor(hex).r) && InByteRange(ParseColor(hex).g) && InByteRange(ParseColor(hex).b)
  {
    var h := Digits(hex);
    assert ParseColor(hex) == ShortColor(h);
    ShortColorOfDigits(h);
  }

  /** Six hex digits: each component is the byte its two digits spell. */
  lemma LongForm(hex: string)
    requires hex != "" && SixHex(Digits(hex))
    ensures var h := Digits(hex);
      ParseColor(hex) == Rgb(Num(16 * HexDigitValue(h[0]) + HexDigitValue(h[1])),
                             Num(16 * HexDigitValue(h[2]) + HexDigitValue(h[3])),
                             Num(16 * HexDigitValue(h[4]) + HexDigitValue(h[5])))
    ensures InByteRange(ParseColor(hex).r) && InByteRange(ParseColor(hex).g) && InByteRange(ParseColor(hex).b)
  {
    var h := Digits(hex);
    LongColorOfDigits(h);
    assert ParseColor(hex) == LongColor(h) by { assert |h| != 3; }
  }

  /** The lower-case hex digit of `d`. */
  function HexChar(d: nat): (c: char)
    requires d < 16
    ensures IsHexDigit(c) && HexDigitValue(c) == d
  {
    HexDigits[d]
  }

  const HexDigits := "0123456789abcdef"

  /** `#rrggbb` for three bytes: the form the colour settings are written in. */
  function FormatHex(r: nat, g: nat, b: nat): string
    requires r < 256 && g < 256 && b < 256
  {
    ['#', HexChar(r / 16), HexChar(r % 16), HexChar(g / 16), HexChar(g % 16), HexChar(b / 16), HexChar(b % 16)]
  }

  /** A `#` followed by text that neither starts nor ends with whitespace reads
      as that text. */
  lemma DigitsAfterHash(s: string)
    requires |s| >= 2 && s[0] == '#' && !IsWhitespace(s[1]) && !IsWhitespace(s[|s| - 1])
    ensures Digits(s) == s[1..]
  {
    assert IndexOf(s, '#') == 0;
    assert RemoveFirstHash(s) == s[1..];
    TrimOfTrimmed(s[1..]);
  }

  /** `#` and six hex digits read as the six digits. */
  lemma HashSixDigits(s: string)
    requires |s| == 7 && s[0] == '#' && SixHex(s[1..])
    ensures ParseColor(s) == LongColor(s[1..])
  {
    DigitsAfterHash(s);
  }

  /** `#` and three hex digits read as the three digits. */
  lemma HashThreeDigits(s: string)
    requires |s| == 4 && s[0] == '#' && ThreeHex(s[1..])
    ensures ParseColor(s) == ShortColor(s[1..])
  {
    DigitsAfterHash(s);
  }

  /** Three digits and the six that double each of them are the same colour. */
  lemma ShortIsDoubledLong(h3: string, h6: string)
    requires ThreeHex(h3) && |h6| == 6
    requires h6[0] == h6[1] == h3[0] && h6[2] == h6[3] == h3[1] && h6[4] == h6[5] == h3[2]
    ensures ShortColor(h3) == LongColor(h6)
  {
    ShortColorOfDigits(h3);
    LongColorOfDigits(h6);
  }

  /** `#abc` and `#aabbcc` are the same colour. */
  lemma ShortFormIsDoubled(short: string, long: string)
    requires |short| == 4 && short[0] == '#' && ThreeHex(short[1..])
    requires |long| == 7 && long[0] == '#'
    requires long[1] == long[2] == short[1] && long[3] == long[4] == short[2] && long[5] == long[6] == short[3]
    ensures ParseColor(short) == ParseColor(long)
  {
    HashThreeDigits(short);
    HashSixDigits(long);
    ShortIsDoubledLong(short[1..], long[1..]);
  }

  /** A byte written as two hex digits reads back as that byte. */
  lemma HexPairValue(v: nat)
    requires v < 256
    ensures 16 * HexDigitValue(HexChar(v / 16)) + HexDigitValue(HexChar(v % 16)) == v
  {
  }

  /** The digits of `FormatHex(r, g, b)` spell `r`, `g` and `b` in pairs. */
  lemma FormatHexDigits(r: nat, g: nat, b: nat)
    requires r < 256 && g < 256 && b < 256
    ensures var h := FormatHex(r, g, b)[1..];
      && SixHex(h)
      && 16 * HexDigitValue(h[0]) + HexDigitValue(h[1]) == r
      && 16 * HexDigitValue(h[2]) + HexDigitValue(h[3]) == g
      && 16 * HexDigitValue(h[4]) + HexDigitValue(h[5]) == b
  {
    HexPairValue(r);
    HexPairValue(g);
    HexPairValue(b);
  }

  /** Six digits whose pairs spell `r`, `g` and `b` give those components. */
  lemma LongColorOfBytes(h: string, r: nat, g: nat, b: nat)
    requires SixHex(h)
    requires 16 * HexDigitValue(h[0]) + HexDigitValue(h[1]) == r
    requires 16 * HexDigitValue(h[2]) + HexDigitValue(h[3]) == g
    requires 16 * HexDigitValue(h[4]) + HexDigitValue(h[5]) == b
    ensures LongColor(h) == Rgb(Num(r), Num(g), Num(b))
  {
    LongColorOfDigits(h);
  }

  /** Reading a colour written as `#rrggbb` gives back its three bytes. */
  lemma FormatHexRoundTrip(r: nat, g: nat, b: nat)
    requires r < 256 && g < 256 && b < 256
    ensures ParseColor(FormatHex(r, g, b)) == Rgb(Num(r), Num(g), Num(b))
  {
    FormatHexDigits(r, g, b);
    HashSixDigits(FormatHex(r, g, b));
    LongColorOfBytes(FormatHex(r, g, b)[1..], r, g, b);
  }

  /** The text lists the three components, then the alpha. */
  lemma ColorTextComponents(c: Rgb, alphaText: string)
    ensures ColorText(c, alphaText)
      == "rgba(" + ChannelText(c.r) + "," + ChannelText(c.g) + "," + ChannelText(c.b) + "," + alphaText + ")"
  {
    var components := ChannelText(c.r) + "," + ChannelText(c.g) + "," + ChannelText(c.b);
    assert ColorText(c, alphaText) == "rgba(" + components + ("," + alphaText + ")");
  }

  /** A colour written as `#rrggbb` becomes `rgba(r,g,b,a)` with the three
      bytes in decimal. */
  lemma FormatHexToRgba(r: nat, g: nat, b: nat, alphaText: string)
    requires r < 256 && g < 256 && b < 256
    ensures HexToRgba(FormatHex(r, g, b), alphaText)
      == "rgba(" + NatToDecimal(r) + "," + NatToDecimal(g) + "," + NatToDecimal(b) + "," + alphaText + ")"
  {
    FormatHexRoundTrip(r, g, b);
    ColorTextComponents(Rgb(Num(r), Num(g), Num(b)), alphaText);
  }
}
