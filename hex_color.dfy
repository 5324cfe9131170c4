/** The two `hexToRgba(hex, alpha)` helpers of the browser scripts
    (static/scripts/dashboard.js and static/scripts/insight_modal.js): a
    `#rgb` or `#rrggbb` code becomes a CSS `rgba(...)` colour with the given
    alpha, and anything else becomes a fixed blue. The two differ only in
    the spacing of that blue. `alpha` is taken as the text JavaScript's
    string concatenation makes of it. */
module HexColor {
  import opened Wrappers
  import opened Text

  predicate IsHexDigit(c: char) {
    '0' <= c <= '9' || 'a' <= c <= 'f' || 'A' <= c <= 'F'
  }

  predicate AllHex(s: string) {
    forall i :: 0 <= i < |s| ==> IsHexDigit(s[i])
  }

  function HexDigitValue(c: char): (v: nat)
    requires IsHexDigit(c)
    ensures v < 16
  {
    if '0' <= c <= '9' then (c as int) - ('0' as int)
    else if 'a' <= c <= 'f' then (c as int) - ('a' as int) + 10
    else (c as int) - ('A' as int) + 10
  }

  /** `Number('0x' + digits)`. */
  function HexValue(s: string): (v: nat)
    requires AllHex(s)
  {
    if s == [] then 0 else HexValue(s[..|s| - 1]) * 16 + HexDigitValue(s[|s| - 1])
  }

  /** The test `/^#([A-Fa-f0-9]{3}){1,2}$/`: a '#' and then three or six
      hexadecimal digits, in either case, and nothing else. */
  predicate IsHexColor(s: string) {
    (|s| == 4 || |s| == 7) && s[0] == '#' && AllHex(s[1..])
  }

  /** The six digits the code stands for: a three-digit code has each of
      its digits doubled. */
  function SixDigits(s: string): (c: string)
    requires IsHexColor(s)
    ensures |c| == 6 && AllHex(c)
  {
    var d := s[1..];
    if |d| == 3 then [d[0], d[0], d[1], d[1], d[2], d[2]] else d
  }

  /** The value of two hexadecimal digits. */
  function ByteOf(hi: char, lo: char): (b: nat)
    requires IsHexDigit(hi) && IsHexDigit(lo)
    ensures b < 256
  {
    HexDigitValue(hi) * 16 + HexDigitValue(lo)
  }

  /** `(c >> 16) & 255`, `(c >> 8) & 255` and `c & 255` of the number the
      six digits spell: the high, middle and low bytes. A six-digit number is
      below 2^24, so the 32-bit shifts do not lose bits. */
  function Channels(c: string): (rgb: (nat, nat, nat))
    requires |c| == 6 && AllHex(c)
    ensures rgb.0 < 256 && rgb.1 < 256 && rgb.2 < 256
  {
    var v := HexValue(c);
    (v / 65536 % 256, v / 256 % 256, v % 256)
  }

  /** The channels of a code, or `None` when the test fails. */
  function ParseHexColor(s: string): (r: Option<(nat, nat, nat)>)
    ensures r.Some? <==> IsHexColor(s)
    ensures r.Some? ==> r.value.0 < 256 && r.value.1 < 256 && r.value.2 < 256
  {
    if IsHexColor(s) then Some(Channels(SixDigits(s))) else None
  }

  /** `rgba(r,g,b,alpha)` without spaces, as both helpers write a parsed code. */
  function Rgba(r: nat, g: nat, b: nat, alpha: string): string {
    "rgba(" + NatToDecimal(r) + "," + NatToDecimal(g) + "," + NatToDecimal(b) + "," + alpha + ")"
  }

  /** static/scripts/dashboard.js `hexToRgba`. */
  function DashboardHexToRgba(hex: string, alpha: string): (r: string)
    ensures |r| > 5 && r[..5] == "rgba(" && r[|r| - 1] == ')'
  {
    match ParseHexColor(hex)
    case Some(rgb) => Rgba(rgb.0, rgb.1, rgb.2, alpha)
    case None => "rgba(52,152,219," + alpha + ")"
  }

  /** static/scripts/insight_modal.js `hexToRgba`. */
  function InsightHexToRgba(hex: string, alpha: string): (r: string)
    ensures |r| > 5 && r[..5] == "rgba(" && r[|r| - 1] == ')'
    ensures ParseHexColor(hex).Some? <==> r == DashboardHexToRgba(hex, alpha)
  {
    match ParseHexColor(hex)
    case Some(rgb) => Rgba(rgb.0, rgb.1, rgb.2, alpha)
    case None => "rgba(52, 152, 219, " + alpha + ")"
  }

  /** A lower-case hexadecimal digit. */
  function HexDigitChar(d: nat): (c: char)
    requires d < 16
    ensures IsHexDigit(c) && HexDigitValue(c) == d
  {
    if d < 10 then (('0' as int) + d) as char else (('a' as int) + d - 10) as char
  }

  /** `#rrggbb` for three bytes, in lower case. */
  function HexCode(r: nat, g: nat, b: nat): (s: string)
    requires r < 256 && g < 256 && b < 256
    ensures IsHexColor(s) && |s| == 7
  {
    var s := ['#', HexDigitChar(r / 16), HexDigitChar(r % 16), HexDigitChar(g / 16),
              HexDigitChar(g % 16), HexDigitChar(b / 16), HexDigitChar(b % 16)];
    assert forall i :: 0 <= i < 6 ==> s[1..][i] == s[i + 1];
    s
  }

  // ---------------------------------------------------------------------
  // Properties
  // ---------------------------------------------------------------------

  /** The value of six digits, digit by digit. */
  lemma SixDigitValue(c: string)
    requires |c| == 6 && AllHex(c)
    ensures HexValue(c) == ByteOf(c[0], c[1]) * 65536 + ByteOf(c[2], c[3]) * 256 + ByteOf(c[4], c[5])
  {
    var h0, h1, h2 := HexDigitValue(c[0]), HexDigitValue(c[1]), HexDigitValue(c[2]);
    var h3, h4, h5 := HexDigitValue(c[3]), HexDigitValue(c[4]), HexDigitValue(c[5]);
    assert c[..1][..0] == [];
    assert HexValue(c[..1]) == h0;
    assert c[..2][..1] == c[..1];
    assert HexValue(c[..2]) == h0 * 16 + h1;
    assert c[..3][..2] == c[..2];
    assert HexValue(c[..3]) == (h0 * 16 + h1) * 16 + h2;
    assert c[..4][..3] == c[..3];
    assert HexValue(c[..4]) == (h0 * 16 + h1) * 256 + h2 * 16 + h3;
    assert c[..5][..4] == c[..4];
    assert HexValue(c[..5]) == ((h0 * 16 + h1) * 256 + h2 * 16 + h3) * 16 + h4;
    assert c[..6] == c;
    assert HexValue(c) == (h0 * 16 + h1) * 65536 + (h2 * 16 + h3) * 256 + h4 * 16 + h5;
  }

  /** The three channels are the code's bytes: digits one and two, three
      and four, five and six. */
  lemma ChannelsAreBytes(c: string)
    requires |c| == 6 && AllHex(c)
    ensures Channels(c) == (ByteOf(c[0], c[1]), ByteOf(c[2], c[3]), ByteOf(c[4], c[5]))
  {
    SixDigitValue(c);
    var r, g, b := ByteOf(c[0], c[1]), ByteOf(c[2], c[3]), ByteOf(c[4], c[5]);
    var v := HexValue(c);
    DivideUnique(v, 256, r * 256 + g, b);
    DivideUnique(v / 256, 256, r, g);
    DivideUnique(v, 65536, r, g * 256 + b);
    DivideUnique(r, 256, 0, r);
  }

  /** A three-digit code means the same colour as its six-digit spelling
      with each digit doubled, in both helpers. */
  lemma ShortCodeDoubles(x: char, y: char, z: char, alpha: string)
    requires IsHexDigit(x) && IsHexDigit(y) && IsHexDigit(z)
    ensures DashboardHexToRgba(['#', x, y, z], alpha) == DashboardHexToRgba(['#', x, x, y, y, z, z], alpha)
    ensures InsightHexToRgba(['#', x, y, z], alpha) == InsightHexToRgba(['#', x, x, y, y, z, z], alpha)
  {
    var s, l := ['#', x, y, z], ['#', x, x, y, y, z, z];
    assert s[1..] == [x, y, z];
    assert l[1..] == [x, x, y, y, z, z];
    assert SixDigits(s) == SixDigits(l);
  }

  /** Round trip: the code written for three bytes reads back as those
      bytes, in either helper. */
  lemma HexCodeRoundTrip(r: nat, g: nat, b: nat, alpha: string)
    requires r < 256 && g < 256 && b < 256
    ensures ParseHexColor(HexCode(r, g, b)) == Some((r, g, b))
    ensures DashboardHexToRgba(HexCode(r, g, b), alpha) == Rgba(r, g, b, alpha)
    ensures InsightHexToRgba(HexCode(r, g, b), alpha) == Rgba(r, g, b, alpha)
  {
    var s := HexCode(r, g, b);
    var c := SixDigits(s);
    assert c == s[1..];
    ChannelsAreBytes(c);
  }

  /** Lower-casing keeps a character a hexadecimal digit of the same value,
      and keeps anything else what it was. */
  lemma LowerHexDigit(c: char)
    ensures IsHexDigit(LowerChar(c)) <==> IsHexDigit(c)
    ensures IsHexDigit(c) ==> HexDigitValue(LowerChar(c)) == HexDigitValue(c)
  {
  }

  /** Digits of equal values spell equal channels. */
  lemma SameDigitsSameChannels(c: string, d: string)
    requires |c| == 6 && AllHex(c) && |d| == 6 && AllHex(d)
    requires forall i :: 0 <= i < 6 ==> HexDigitValue(d[i]) == HexDigitValue(c[i])
    ensures Channels(d) == Channels(c)
  {
    ChannelsAreBytes(c);
    ChannelsAreBytes(d);
  }

  /** Lower-casing keeps a code a code and its digits' values. */
  lemma LowerDigits(hex: string)
    ensures IsHexColor(Lower(hex)) <==> IsHexColor(hex)
    ensures IsHexColor(hex) ==> forall i :: 1 <= i < |hex| ==> HexDigitValue(Lower(hex)[i]) == HexDigitValue(hex[i])
  {
    var l := Lower(hex);
    forall i | 0 <= i < |hex| ensures IsHexDigit(l[i]) <==> IsHexDigit(hex[i]) {
      LowerHexDigit(hex[i]);
    }
    assert forall i :: 1 <= i < |hex| ==> l[1..][i - 1] == l[i] && hex[1..][i - 1] == hex[i];
    if IsHexColor(hex) {
      forall i | 1 <= i < |hex| ensures HexDigitValue(l[i]) == HexDigitValue(hex[i]) {
        LowerHexDigit(hex[i]);
      }
    }
  }

  /** Letter case does not matter: a code and its lower-case spelling are
      one colour, or both not a colour. */
  lemma CaseInsensitive(hex: string, alpha: string)
    ensures ParseHexColor(Lower(hex)) == ParseHexColor(hex)
    ensures DashboardHexToRgba(Lower(hex), alpha) == DashboardHexToRgba(hex, alpha)
    ensures InsightHexToRgba(Lower(hex), alpha) == InsightHexToRgba(hex, alpha)
  {
    LowerDigits(hex);
    var l := Lower(hex);
    if IsHexColor(hex) {
      var c, d := SixDigits(hex), SixDigits(l);
      if |hex| == 4 {
        assert c == [hex[1], hex[1], hex[2], hex[2], hex[3], hex[3]];
        assert d == [l[1], l[1], l[2], l[2], l[3], l[3]];
      } else {
        assert c == hex[1..] && d == l[1..];
        assert forall i :: 0 <= i < 6 ==> c[i] == hex[i + 1] && d[i] == l[i + 1];
      }
      SameDigitsSameChannels(c, d);
    }
  }

  /** The helpers agree on every code they accept and differ only in the
      spacing of the fallback blue, which both give for everything else. */
  lemma HelpersAgreeOnCodes(hex: string, alpha: string)
    ensures IsHexColor(hex) ==> DashboardHexToRgba(hex, alpha) == InsightHexToRgba(hex, alpha)
    ensures !IsHexColor(hex) ==> DashboardHexToRgba(hex, alpha) == "rgba(52,152,219," + alpha + ")"
    ensures !IsHexColor(hex) ==> InsightHexToRgba(hex, alpha) == "rgba(52, 152, 219, " + alpha + ")"
  {
  }

  /** Codes of other lengths get the fallback blue: a corollary of the
      second ensures of `HelpersAgreeOnCodes`, since a code of another
      length is not `IsHexColor`. */
  lemma OtherLengthsRejected(hex: string, alpha: string)
    requires |hex| != 4 && |hex| != 7
    ensures DashboardHexToRgba(hex, alpha) == "rgba(52,152,219," + alpha + ")"
  {
  }
}
