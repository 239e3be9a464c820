/** The fill colour of a triangle: each channel of the base violet scaled by
    the intensity, truncated to an integer and written as two lower-case hex
    digits, as the f-string `#{...:02x}{...:02x}{...:02x}` does. */
module Colour {

  /** Python's `int()` on a float: truncation toward zero. */
  function Trunc(x: real): (n: int)
    ensures x >= 0.0 ==> 0 <= n && n as real <= x < n as real + 1.0
    ensures x < 0.0 ==> n <= 0 && n as real - 1.0 < x <= n as real
  {
    if x >= 0.0 then x.Floor else -((-x).Floor)
  }

  const BaseRed: nat := 0xA6
  const BaseGreen: nat := 0x89
  const BaseBlue: nat := 0xE1

  lemma ScaleWithin(b: real, i: real)
    requires b >= 0.0 && 0.0 <= i <= 1.0
    ensures 0.0 <= b * i <= b
  {
    assert b * (1.0 - i) >= 0.0;
  }

  /** `int(base * intensity)`: an integer between 0 and `base`, the largest
      one not above `base * intensity`. */
  function Channel(base: nat, intensity: real): (c: nat)
    requires 0.0 <= intensity <= 1.0
    ensures c <= base
    ensures c as real <= base as real * intensity < c as real + 1.0
  {
    ScaleWithin(base as real, intensity);
    Trunc(base as real * intensity)
  }

  predicate IsHexDigit(c: char) {
    '0' <= c <= '9' || 'a' <= c <= 'f'
  }

  predicate IsHex(s: string) {
    forall k :: 0 <= k < |s| ==> IsHexDigit(s[k])
  }

  /** The lower-case hex digit of `d`. */
  function HexDigit(d: nat): (c: char)
    requires d < 16
    ensures IsHexDigit(c)
  {
    if d < 10 then ('0' as int + d) as char else ('a' as int + (d - 10)) as char
  }

  /** The value of a hex digit, the inverse of `HexDigit`. */
  function DigitValue(c: char): (d: nat)
    requires IsHexDigit(c)
    ensures d < 16 && HexDigit(d) == c
  {
    if c <= '9' then c as int - '0' as int else c as int - 'a' as int + 10
  }

  /** `format(n, 'x')`: the hex numeral of `n`, without leading zeros. */
  function Hex(n: nat): (s: string)
    ensures IsHex(s)
    ensures 1 <= |s|
  {
    if n < 16 then [HexDigit(n)] else Hex(n / 16) + [HexDigit(n % 16)]
  }

  /** The number a hex numeral stands for. */
  function HexValue(s: string): nat
    requires IsHex(s)
  {
    if s == [] then 0 else HexValue(s[..|s| - 1]) * 16 + DigitValue(s[|s| - 1])
  }

  /** Reading back the numeral gives the number. */
  lemma {:induction false} HexRoundTrip(n: nat)
    ensures HexValue(Hex(n)) == n
  {
    if n >= 16 {
      var s := Hex(n);
      assert s[..|s| - 1] == Hex(n / 16);
      HexRoundTrip(n / 16);
    }
  }

  /** One digit below 16, two below 256. */
  lemma HexLength(n: nat)
    ensures n < 16 <==> |Hex(n)| == 1
    ensures 16 <= n < 256 ==> |Hex(n)| == 2
  {
    if n >= 16 {
      assert |Hex(n / 16)| >= 1;
    }
  }

  /** `format(n, '02x')`: the hex numeral, padded with `0` to two digits. */
  function Hex02(n: nat): (s: string)
    ensures IsHex(s)
    ensures 2 <= |s|
    ensures n < 256 ==> |s| == 2
  {
    HexLength(n);
    var h := Hex(n);
    if |h| < 2 then "0" + h else h
  }

  /** The padding does not change the value read back. */
  lemma Hex02RoundTrip(n: nat)
    ensures HexValue(Hex02(n)) == n
  {
    HexRoundTrip(n);
    var h := Hex(n);
    if |h| < 2 {
      var s := "0" + h;
      assert s[..|s| - 1] == "0";
      assert HexValue("0") == 0 by {
        assert "0"[..0] == [];
      }
    }
  }

  /** The fill colour for an intensity in [0, 1]: `#` and six hex digits. */
  function ColourOf(intensity: real): (s: string)
    requires 0.0 <= intensity <= 1.0
    ensures |s| == 7 && s[0] == '#' && IsHex(s[1..])
  {
    "#" + Hex02(Channel(BaseRed, intensity))
        + Hex02(Channel(BaseGreen, intensity))
        + Hex02(Channel(BaseBlue, intensity))
  }

  /** Reads the three channels back from `#rrggbb`. */
  function DecodeColour(s: string): (nat, nat, nat)
    requires |s| == 7 && IsHex(s[1..])
  {
    assert s[1..3] == s[1..][0..2] && s[3..5] == s[1..][2..4] && s[5..7] == s[1..][4..6];
    (HexValue(s[1..3]), HexValue(s[3..5]), HexValue(s[5..7]))
  }

  /** Decoding the colour gives back the three truncated channel values. */
  lemma ColourRoundTrip(intensity: real)
    requires 0.0 <= intensity <= 1.0
    ensures DecodeColour(ColourOf(intensity)) ==
              (Channel(BaseRed, intensity), Channel(BaseGreen, intensity), Channel(BaseBlue, intensity))
  {
    var r, g, b := Channel(BaseRed, intensity), Channel(BaseGreen, intensity), Channel(BaseBlue, intensity);
    var s := ColourOf(intensity);
    assert s[1..3] == Hex02(r);
    assert s[3..5] == Hex02(g);
    assert s[5..7] == Hex02(b);
    Hex02RoundTrip(r);
    Hex02RoundTrip(g);
    Hex02RoundTrip(b);
  }

  /** Full intensity gives the base violet, zero intensity black. */
  lemma ColourExtremes()
    ensures ColourOf(1.0) == "#a689e1"
    ensures ColourOf(0.0) == "#000000"
  {
    assert Channel(BaseRed, 1.0) == 166 && Channel(BaseGreen, 1.0) == 137 && Channel(BaseBlue, 1.0) == 225;
    assert Hex(166) == Hex(10) + [HexDigit(6)];
    assert Hex(137) == Hex(8) + [HexDigit(9)];
    assert Hex(225) == Hex(14) + [HexDigit(1)];
    assert Hex02(0) == "00";
  }
}
