/** `color.ts` of the documentation app: linear interpolation of numbers
    and of RGB colours, and parsing of `#rrggbb` colour strings. */
module Colors {
  import opened Optional

  /** `lerp(a, b, p)`: `a` at `p = 0`, `b` at `p = 1`, and between the two
      for any `p` in between. */
  function Lerp(a: real, b: real, p: real): (r: real)
    ensures p == 0.0 ==> r == a
    ensures p == 1.0 ==> r == b
  {
    (b - a) * p + a
  }

  /** For `0 ≤ p ≤ 1` the interpolated value lies between the endpoints. */
  lemma LerpBetween(a: real, b: real, p: real)
    requires 0.0 <= p <= 1.0
    ensures a <= b ==> a <= Lerp(a, b, p) <= b
    ensures b <= a ==> b <= Lerp(a, b, p) <= a
  {
    var d := b - a;
    ScaledRange(d, p);
    assert Lerp(a, b, p) == a + d * p;
  }

  /** `d · p` lies between `0` and `d`, whatever the sign of `d`. */
  lemma ScaledRange(d: real, p: real)
    requires 0.0 <= p <= 1.0
    ensures 0.0 <= d ==> 0.0 <= d * p <= d
    ensures d <= 0.0 ==> d <= d * p <= 0.0
  {
    if 0.0 <= d {
      assert d * p <= d * 1.0;
    } else {
      assert d * 1.0 <= d * p;
    }
  }

  /** An RGB colour. `parseColor` yields whole components in `[0, 255]`;
      interpolation yields any reals. */
  datatype Color = Color(r: real, g: real, b: real)

  const Black: Color := Color(0.0, 0.0, 0.0)

  /** The sixteen hexadecimal digits in order of value, in each case. */
  const LowerDigits: string := "0123456789abcdef"
  const UpperDigits: string := "0123456789ABCDEF"

  /** The value of a hexadecimal digit, either case; `None` for any other
      character. */
  function HexValue(ch: char): (r: Option<nat>)
    ensures r.Some? ==> r.value < 16
    ensures r.Some? <==> ('0' <= ch <= '9' || 'a' <= ch <= 'f' || 'A' <= ch <= 'F')
  {
    if '0' <= ch <= '9' then Some(ch as nat - '0' as nat)
    else if 'a' <= ch <= 'f' then Some(ch as nat - 'a' as nat + 10)
    else if 'A' <= ch <= 'F' then Some(ch as nat - 'A' as nat + 10)
    else None
  }

  /** The value of a digit is its position in the digit list of its
      case. */
  lemma HexValueIsPosition(ch: char)
    ensures HexValue(ch).Some? ==>
              LowerDigits[HexValue(ch).value] == ch || UpperDigits[HexValue(ch).value] == ch
  {
  }

  /** Every digit of either list has its position as its value, so an
      upper-case letter means what its lower-case form means. */
  lemma HexDigitValues()
    ensures forall d :: 0 <= d < 16 ==> HexValue(LowerDigits[d]) == Some(d) && HexValue(UpperDigits[d]) == Some(d)
  {
    forall d | 0 <= d < 16
      ensures HexValue(LowerDigits[d]) == Some(d) && HexValue(UpperDigits[d]) == Some(d)
    {
      if d < 10 {
        assert LowerDigits[d] == UpperDigits[d] == ('0' as nat + d) as char;
      } else {
        assert LowerDigits[d] == ('a' as nat + d - 10) as char;
        assert UpperDigits[d] == ('A' as nat + d - 10) as char;
      }
    }
  }

  predicate IsHexDigit(ch: char)
  {
    HexValue(ch).Some?
  }

  /** The strings the pattern `^#?([a-f\d]{2})([a-f\d]{2})([a-f\d]{2})$`,
      case-insensitive, accepts: six hexadecimal digits, optionally after
      one `#`. */
  predicate IsHexColor(s: string)
  {
    || (|s| == 6 && forall i :: 0 <= i < 6 ==> IsHexDigit(s[i]))
    || (|s| == 7 && s[0] == '#' && forall i :: 1 <= i < 7 ==> IsHexDigit(s[i]))
  }

  /** The string after an optional leading `#`. */
  function StripHash(s: string): (t: string)
    ensures |s| == |t| + 1 ==> s[0] == '#' && t == s[1..]
    ensures |t| == |s| ==> t == s
  {
    if 0 < |s| && s[0] == '#' then s[1..] else s
  }

  /** One capture group of the pattern: two hexadecimal digits. */
  predicate HexGroup(g: string)
  {
    |g| == 2 && IsHexDigit(g[0]) && IsHexDigit(g[1])
  }

  /** The pattern read group by group: after the optional `#`, exactly three
      groups of two digits. */
  predicate ThreeGroups(t: string)
  {
    |t| == 6 && HexGroup(t[0..2]) && HexGroup(t[2..4]) && HexGroup(t[4..6])
  }

  /** Accepted colour strings are exactly those the pattern matches group
      by group. */
  lemma HexColorGroups(s: string)
    ensures IsHexColor(s) <==> ThreeGroups(StripHash(s))
  {
    var t := StripHash(s);
    if ThreeGroups(t) {
      assert t[0..2][0] == t[0] && t[0..2][1] == t[1];
      assert t[2..4][0] == t[2] && t[2..4][1] == t[3];
      assert t[4..6][0] == t[4] && t[4..6][1] == t[5];
      assert forall i :: 0 <= i < 6 ==> IsHexDigit(t[i]);
      if |s| == 7 {
        assert forall i :: 1 <= i < 7 ==> s[i] == t[i - 1];
      }
    }
  }

  /** `parseInt(pair, 16)` of two hexadecimal digits. */
  function HexByte(hi: char, lo: char): (r: nat)
    requires IsHexDigit(hi) && IsHexDigit(lo)
    ensures r < 256
  {
    HexValue(hi).value * 16 + HexValue(lo).value
  }

  /** The six digits of an accepted colour string. */
  function Digits(s: string): (d: string)
    requires IsHexColor(s)
    ensures |d| == 6 && forall i :: 0 <= i < 6 ==> IsHexDigit(d[i])
  {
    if |s| == 7 then s[1..] else s
  }

  /** `parseColor(hex)`: the three byte pairs of an accepted string, black
      for every other string. */
  function ParseColor(s: string): (r: Color)
    ensures !IsHexColor(s) ==> r == Black
    ensures 0.0 <= r.r <= 255.0 && 0.0 <= r.g <= 255.0 && 0.0 <= r.b <= 255.0
  {
    if |s| == 7 && s[0] == '#' && IsHexDigit(s[1]) && IsHexDigit(s[2]) && IsHexDigit(s[3])
       && IsHexDigit(s[4]) && IsHexDigit(s[5]) && IsHexDigit(s[6]) then
      Color(HexByte(s[1], s[2]) as real, HexByte(s[3], s[4]) as real, HexByte(s[5], s[6]) as real)
    else if |s| == 6 && IsHexDigit(s[0]) && IsHexDigit(s[1]) && IsHexDigit(s[2])
       && IsHexDigit(s[3]) && IsHexDigit(s[4]) && IsHexDigit(s[5]) then
      Color(HexByte(s[0], s[1]) as real, HexByte(s[2], s[3]) as real, HexByte(s[4], s[5]) as real)
    else
      Black
  }

  /** Lower-case hexadecimal digit of `d < 16`. */
  function HexChar(d: nat): (ch: char)
    requires d < 16
    ensures HexValue(ch) == Some(d)
  {
    if d < 10 then ('0' as nat + d) as char else ('a' as nat + d - 10) as char
  }

  /** The two-digit lower-case hexadecimal form of a byte. */
  function HexPair(n: nat): (s: string)
    requires n < 256
    ensures |s| == 2 && IsHexDigit(s[0]) && IsHexDigit(s[1]) && HexByte(s[0], s[1]) == n
  {
    [HexChar(n / 16), HexChar(n % 16)]
  }

  /** `rrggbb` of three bytes. */
  function FormatHex(r: nat, g: nat, b: nat): (s: string)
    requires r < 256 && g < 256 && b < 256
    ensures IsHexColor(s) && IsHexColor("#" + s)
  {
    HexPair(r) + HexPair(g) + HexPair(b)
  }

  /** Parsing the written form of a colour, with or without `#`, gives the
      colour back. */
  lemma ParseFormatRoundTrip(r: nat, g: nat, b: nat)
    requires r < 256 && g < 256 && b < 256
    ensures ParseColor(FormatHex(r, g, b)) == Color(r as real, g as real, b as real)
    ensures ParseColor("#" + FormatHex(r, g, b)) == Color(r as real, g as real, b as real)
  {
    var s := FormatHex(r, g, b);
    assert s[0..2] == HexPair(r) && s[2..4] == HexPair(g) && s[4..6] == HexPair(b);
    assert ("#" + s)[1..] == s;
  }

  /** An accepted string parses digit-pair by digit-pair. */
  lemma ParseAccepted(s: string)
    requires IsHexColor(s)
    ensures var d := Digits(s);
            ParseColor(s) == Color(HexByte(d[0], d[1]) as real, HexByte(d[2], d[3]) as real, HexByte(d[4], d[5]) as real)
  {
  }

  /** `lerpColor(c1, c2, p)`: each component interpolated on its own. */
  function LerpColor(c1: Color, c2: Color, p: real): (c: Color)
    ensures p == 0.0 ==> c == c1
    ensures p == 1.0 ==> c == c2
  {
    Color(Lerp(c1.r, c2.r, p), Lerp(c1.g, c2.g, p), Lerp(c1.b, c2.b, p))
  }

  /** Interpolating between two parsed colours with `0 ≤ p ≤ 1` stays
      within the byte range in every component. */
  lemma LerpColorInRange(s1: string, s2: string, p: real)
    requires 0.0 <= p <= 1.0
    ensures var c := LerpColor(ParseColor(s1), ParseColor(s2), p);
            0.0 <= c.r <= 255.0 && 0.0 <= c.g <= 255.0 && 0.0 <= c.b <= 255.0
  {
    var c1, c2 := ParseColor(s1), ParseColor(s2);
    LerpBetween(c1.r, c2.r, p);
    LerpBetween(c1.g, c2.g, p);
    LerpBetween(c1.b, c2.b, p);
  }
}
