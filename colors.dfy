/** parseHexColor: a CSS-style hex colour ('#rrggbb', '#rgb', with any number of leading '#')
    read as red, green and blue channels. The QR code creator carries a private copy of the
    same method, which this model shares. */
module Colors {
  import opened Strings

  datatype Color = Color(r: nat, g: nat, b: nat)

  predicate IsChannel(n: nat) { n <= 255 }

  /** Every leading '#' goes; three characters are the short form, each digit doubled; any
      other length reads the channels from characters [0,2), [2,4) and [4,6), and missing
      characters read as 0 (hexdec of ''). Non-hex characters are skipped by hexdec. */
  function ParseHexColor(hex: string): (c: Color)
    ensures IsChannel(c.r) && IsChannel(c.g) && IsChannel(c.b)
  {
    var h := LTrim(hex, '#');
    if |h| == 3 then
      HexDecTwoDigitsBound([h[0], h[0]]);
      HexDecTwoDigitsBound([h[1], h[1]]);
      HexDecTwoDigitsBound([h[2], h[2]]);
      Color(HexDec([h[0], h[0]]), HexDec([h[1], h[1]]), HexDec([h[2], h[2]]))
    else
      HexDecTwoDigitsBound(Substr(h, 0, 2));
      HexDecTwoDigitsBound(Substr(h, 2, 2));
      HexDecTwoDigitsBound(Substr(h, 4, 2));
      Color(HexDec(Substr(h, 0, 2)), HexDec(Substr(h, 2, 2)), HexDec(Substr(h, 4, 2)))
  }

  /** The six-digit text of a colour, as a colour picker writes it. */
  function HexText(c: Color): string
    requires IsChannel(c.r) && IsChannel(c.g) && IsChannel(c.b)
  {
    "#" + Hex2(c.r) + Hex2(c.g) + Hex2(c.b)
  }

  lemma HexDecPair(x: char, y: char)
    requires IsHexDigit(x) && IsHexDigit(y)
    ensures HexDec([x, y]) == HexDigitValue(x) * 16 + HexDigitValue(y)
  {
    assert [x, y][..1] == [x];
    assert [x][..0] == [];
    assert HexDec([x]) == HexDigitValue(x);
  }

  /** Reading the written text gives the colour back. */
  lemma ParseHexText(c: Color)
    requires IsChannel(c.r) && IsChannel(c.g) && IsChannel(c.b)
    ensures ParseHexColor(HexText(c)) == c
  {
    var digits := Hex2(c.r) + Hex2(c.g) + Hex2(c.b);
    assert HexText(c) == "#" + digits;
    assert LTrim(HexText(c), '#') == digits by {
      assert (("#" + digits)[1..]) == digits;
      assert digits[0] != '#';
    }
    assert Substr(digits, 0, 2) == Hex2(c.r);
    assert Substr(digits, 2, 2) == Hex2(c.g);
    assert Substr(digits, 4, 2) == Hex2(c.b);
    HexDecHex2(c.r);
    HexDecHex2(c.g);
    HexDecHex2(c.b);
  }

  /** Any number of leading '#' is the same as none. */
  lemma LeadingHashes(n: nat, hex: string)
    ensures ParseHexColor(Repeat('#', n) + hex) == ParseHexColor(hex)
  {
    LTrimRepeat('#', n, hex);
  }

  /** The short form doubles each digit: 'abc' is 'aabbcc'. */
  lemma ShortForm(x: char, y: char, z: char)
    requires IsHexDigit(x) && IsHexDigit(y) && IsHexDigit(z)
    ensures ParseHexColor([x, y, z]) == Color(HexDigitValue(x) * 17, HexDigitValue(y) * 17, HexDigitValue(z) * 17)
  {
    HexDecPair(x, x);
    HexDecPair(y, y);
    HexDecPair(z, z);
  }

  /** A short text reads its missing channels as 0: 'ff' is red. */
  lemma MissingDigitsReadZero(x: char, y: char)
    requires IsHexDigit(x) && IsHexDigit(y)
    ensures ParseHexColor([x, y]) == Color(HexDigitValue(x) * 16 + HexDigitValue(y), 0, 0)
  {
    assert x != '#';
    HexDecPair(x, y);
    assert Substr([x, y], 0, 2) == [x, y];
  }

  /** The creator's defaults are black on white. */
  lemma Defaults()
    ensures ParseHexColor("#000000") == Color(0, 0, 0)
    ensures ParseHexColor("#ffffff") == Color(255, 255, 255)
  {
    assert HexText(Color(0, 0, 0)) == "#000000";
    ParseHexText(Color(0, 0, 0));
    assert HexText(Color(255, 255, 255)) == "#ffffff";
    ParseHexText(Color(255, 255, 255));
  }
}
