/**
 * The hex colour parser both the PES writer and the colour processor use:
 * `/^#?([a-f\d]{2})([a-f\d]{2})([a-f\d]{2})$/i` followed by `parseInt(…, 16)`
 * on each captured pair.
 */
module Hex {
  import opened Wrappers

  datatype Rgb = Rgb(r: int, g: int, b: int)

  predicate IsChannel(v: int) {
    0 <= v < 256
  }

  /** One character of the class `[a-f\d]` under the `i` flag. */
  predicate IsHexDigit(c: char) {
    ('0' <= c <= '9') || ('a' <= c <= 'f') || ('A' <= c <= 'F')
  }

  function HexValue(c: char): (v: int)
    requires IsHexDigit(c)
    ensures 0 <= v < 16
  {
    if '0' <= c <= '9' then c as int - '0' as int
    else if 'a' <= c <= 'f' then c as int - 'a' as int + 10
    else c as int - 'A' as int + 10
  }

  predicate AllHex(s: string) {
    forall i :: 0 <= i < |s| ==> IsHexDigit(s[i])
  }

  /** The strings the regular expression matches: an optional '#' and exactly six hex digits. */
  predicate MatchesHexColor(s: string) {
    (|s| == 6 && AllHex(s)) || (|s| == 7 && s[0] == '#' && AllHex(s[1..]))
  }

  /** `parseInt(pair, 16)` of a captured pair. */
  function PairValue(hi: char, lo: char): (v: int)
    requires IsHexDigit(hi) && IsHexDigit(lo)
    ensures IsChannel(v)
  {
    16 * HexValue(hi) + HexValue(lo)
  }

  /** hexToRgb: the three channels, or no colour when the text does not match. */
  function ParseHexColor(s: string): (r: Option<Rgb>)
    ensures r.Some? <==> MatchesHexColor(s)
    ensures r.Some? ==> IsChannel(r.value.r) && IsChannel(r.value.g) && IsChannel(r.value.b)
  {
    if |s| == 6 && AllHex(s) then
      Some(Rgb(PairValue(s[0], s[1]), PairValue(s[2], s[3]), PairValue(s[4], s[5])))
    else if |s| == 7 && s[0] == '#' && AllHex(s[1..]) then
      assert forall i :: 1 <= i < 7 ==> s[i] == s[1..][i - 1];
      Some(Rgb(PairValue(s[1], s[2]), PairValue(s[3], s[4]), PairValue(s[5], s[6])))
    else None
  }

  /** A lower-case hex digit, as colours are written throughout the library ("#000000"). */
  function HexDigit(n: int): (c: char)
    requires 0 <= n < 16
    ensures IsHexDigit(c) && HexValue(c) == n
  {
    "0123456789abcdef"[n]
  }

  /** The "#rrggbb" text of a colour. */
  function FormatHex(c: Rgb): (s: string)
    requires IsChannel(c.r) && IsChannel(c.g) && IsChannel(c.b)
    ensures |s| == 7 && s[0] == '#'
  {
    ['#', HexDigit(c.r / 16), HexDigit(c.r % 16), HexDigit(c.g / 16), HexDigit(c.g % 16),
     HexDigit(c.b / 16), HexDigit(c.b % 16)]
  }

  /** Parsing a formatted colour gives the colour back. */
  lemma ParseFormatRoundTrip(c: Rgb)
    requires IsChannel(c.r) && IsChannel(c.g) && IsChannel(c.b)
    ensures ParseHexColor(FormatHex(c)) == Some(c)
  {
    var s := FormatHex(c);
    assert AllHex(s[1..]) by {
      forall i | 0 <= i < 6 ensures IsHexDigit(s[1..][i]) {
        assert s[1..][i] == s[i + 1];
      }
    }
  }

  /** Without the '#', the same six digits parse to the same colour. */
  lemma HashIsOptional(s: string)
    requires |s| == 6 && AllHex(s)
    ensures ParseHexColor(['#'] + s) == ParseHexColor(s)
  {
    assert (['#'] + s)[1..] == s;
  }
}
