/**
 Reading colours out of a style sheet (`lib/palette-source.ts`): a rule's body by
 counting braces, and an HSL triplet as hexadecimal.
 */
module Palette {
  import opened Wrappers

  // ---- HSL to channels ----

  function Abs(x: real): real {
    if x < 0.0 then -x else x
  }

  function Min(x: real, y: real): real {
    if x < y then x else y
  }

  function Max(x: real, y: real): real {
    if x > y then x else y
  }

  /** `x % m`, for `x` not negative. */
  function Rem(x: real, m: real): (r: real)
    requires m > 0.0
  {
    x - (x / m).Floor as real * m
  }

  datatype Channels = Channels(r: real, g: real, b: real)

  function Chroma(saturation: real, lightness: real): real {
    (1.0 - Abs(2.0 * lightness - 1.0)) * saturation
  }

  /** The chroma's share of each channel, by sixth of the colour circle; `at` is the hue in sixths. */
  function Shares(at: real): Channels
    requires at >= 0.0
  {
    var second := 1.0 - Abs(Rem(at, 2.0) - 1.0);
    match at.Floor % 6
    case 0 => Channels(1.0, second, 0.0)
    case 1 => Channels(second, 1.0, 0.0)
    case 2 => Channels(0.0, 1.0, second)
    case 3 => Channels(0.0, second, 1.0)
    case 4 => Channels(second, 0.0, 1.0)
    case _ => Channels(1.0, 0.0, second)
  }

  function Mixed(s: Channels, chroma: real, lightness: real): Channels {
    var base := lightness - chroma / 2.0;
    Channels(s.r * chroma + base, s.g * chroma + base, s.b * chroma + base)
  }

  function ToChannels(hue: real, saturation: real, lightness: real): Channels
    requires hue >= 0.0
  {
    Mixed(Shares(hue / 60.0), Chroma(saturation, lightness), lightness)
  }

  // ---- The definition in CSS Color 4, section 7.1 ----

  function CssShare(at: real, n: real): real
    requires at >= 0.0 && n >= 0.0
  {
    var k := Rem(n + 2.0 * at, 12.0);
    Max(-1.0, Min(k - 3.0, Min(9.0 - k, 1.0)))
  }

  function CssShares(at: real): Channels
    requires at >= 0.0
  {
    Channels(CssShare(at, 0.0), CssShare(at, 8.0), CssShare(at, 4.0))
  }

  function CssMixed(css: Channels, saturation: real, lightness: real): Channels {
    var reach := saturation * Min(lightness, 1.0 - lightness);
    Channels(lightness - reach * css.r, lightness - reach * css.g, lightness - reach * css.b)
  }

  function CssChannels(hue: real, saturation: real, lightness: real): Channels
    requires hue >= 0.0
  {
    CssMixed(CssShares(hue / 60.0), saturation, lightness)
  }

  lemma RemIs(x: real, m: real, q: int)
    requires m > 0.0 && q as real * m <= x < (q + 1) as real * m
    ensures Rem(x, m) == x - q as real * m
  {
    var d := x / m;
    assert d * m == x;
    assert q as real <= d < (q + 1) as real by { Scale(q as real, d, m); Scale(d, (q + 1) as real, m); }
    assert d.Floor == q;
  }

  lemma Scale(a: real, b: real, m: real)
    requires m > 0.0
    ensures a * m <= b * m ==> a <= b
    ensures a * m < b * m ==> a < b
  {
    if a > b { assert (a - b) * m > 0.0; }
  }

  /** Where a hue lies: turn, sixth within the turn, and the rest. */
  lemma Place(at: real) returns (turn: int, sixth: int, rest: real)
    requires at >= 0.0
    ensures at == 6.0 * turn as real + sixth as real + rest && 0 <= sixth < 6 && 0.0 <= rest < 1.0 && turn >= 0
    ensures at.Floor % 6 == sixth
  {
    turn, sixth := at.Floor / 6, at.Floor % 6;
    rest := at - at.Floor as real;
    assert at.Floor == 6 * turn + sixth;
  }

  lemma SecondIs(at: real, turn: int, sixth: int, rest: real)
    requires at >= 0.0 && at == 6.0 * turn as real + sixth as real + rest && 0 <= sixth < 6 && 0.0 <= rest < 1.0
    ensures 1.0 - Abs(Rem(at, 2.0) - 1.0) == if sixth % 2 == 0 then rest else 1.0 - rest
  {
    var half := sixth / 2;
    assert (3 * turn + half) as real == 3.0 * turn as real + half as real;
    assert sixth as real == 2.0 * half as real + (if sixth % 2 == 0 then 0.0 else 1.0);
    RemIs(at, 2.0, 3 * turn + half);
  }

  lemma CssRemIs(at: real, turn: int, sixth: int, rest: real, n: int)
    requires at >= 0.0 && at == 6.0 * turn as real + sixth as real + rest && 0 <= sixth < 6 && 0.0 <= rest < 1.0
    requires n == 0 || n == 8 || n == 4
    ensures Rem(n as real + 2.0 * at, 12.0) ==
            n as real + 2.0 * sixth as real + 2.0 * rest - if n + 2 * sixth < 12 then 0.0 else 12.0
  {
    RemIs(n as real + 2.0 * at, 12.0, if n + 2 * sixth < 12 then turn else turn + 1);
  }

  ghost predicate Halved(s: Channels, css: Channels) {
    s == Channels((1.0 - css.r) / 2.0, (1.0 - css.g) / 2.0, (1.0 - css.b) / 2.0)
  }

  /** The table of sixths is the standard's formula: each channel's share is (1 - share of the standard) / 2. */
  lemma SharesAreCss(at: real)
    requires at >= 0.0
    ensures Halved(Shares(at), CssShares(at))
  {
    var turn, sixth, rest := Place(at);
    SecondIs(at, turn, sixth, rest);
    CssRemIs(at, turn, sixth, rest, 0);
    CssRemIs(at, turn, sixth, rest, 8);
    CssRemIs(at, turn, sixth, rest, 4);
  }

  lemma ChromaIsTwiceReach(saturation: real, lightness: real)
    ensures Chroma(saturation, lightness) == 2.0 * (saturation * Min(lightness, 1.0 - lightness))
  {
  }

  lemma ChannelFromShare(share: real, css: real, reach: real, lightness: real)
    requires share == (1.0 - css) / 2.0
    ensures share * (2.0 * reach) + (lightness - (2.0 * reach) / 2.0) == lightness - reach * css
  {
  }

  lemma MixedIsCss(s: Channels, css: Channels, saturation: real, lightness: real)
    requires Halved(s, css)
    ensures Mixed(s, Chroma(saturation, lightness), lightness) == CssMixed(css, saturation, lightness)
  {
    var reach := saturation * Min(lightness, 1.0 - lightness);
    ChromaIsTwiceReach(saturation, lightness);
    ChannelFromShare(s.r, css.r, reach, lightness);
    ChannelFromShare(s.g, css.g, reach, lightness);
    ChannelFromShare(s.b, css.b, reach, lightness);
  }

  /** For every hue, saturation and lightness, the channels are the standard's. */
  lemma ChannelsFollowTheStandard(hue: real, saturation: real, lightness: real)
    requires hue >= 0.0
    ensures ToChannels(hue, saturation, lightness) == CssChannels(hue, saturation, lightness)
  {
    var at := hue / 60.0;
    SharesAreCss(at);
    MixedIsCss(Shares(at), CssShares(at), saturation, lightness);
  }

  // ---- What a conversion keeps ----

  function Largest(c: Channels): real {
    Max(c.r, Max(c.g, c.b))
  }

  function Smallest(c: Channels): real {
    Min(c.r, Min(c.g, c.b))
  }

  /** Some channel has the whole of it, some channel none, and the third lies between. */
  ghost predicate Spans(s: Channels, whole: real) {
    && 0.0 <= s.r <= whole && 0.0 <= s.g <= whole && 0.0 <= s.b <= whole
    && (s.r == 0.0 || s.g == 0.0 || s.b == 0.0)
    && (s.r == whole || s.g == whole || s.b == whole)
  }

  lemma SharesSpan(at: real)
    requires at >= 0.0
    ensures Spans(Shares(at), 1.0)
  {
    var turn, sixth, rest := Place(at);
    SecondIs(at, turn, sixth, rest);
  }

  lemma SpanOf(r: real, g: real, b: real, chroma: real, base: real)
    requires Spans(Channels(r, g, b), chroma)
    ensures var c := Channels(r + base, g + base, b + base);
            Largest(c) == chroma + base && Smallest(c) == base
  {
  }

  lemma ScaledSpans(s: Channels, chroma: real) returns (scaled: Channels)
    requires chroma >= 0.0 && Spans(s, 1.0)
    ensures scaled == Channels(s.r * chroma, s.g * chroma, s.b * chroma) && Spans(scaled, chroma)
  {
    var r := ScaledBetween(s.r, chroma);
    var g := ScaledBetween(s.g, chroma);
    var b := ScaledBetween(s.b, chroma);
    scaled := Channels(r, g, b);
  }

  lemma MixedFrom(s: Channels, scaled: Channels, chroma: real, lightness: real)
    requires scaled == Channels(s.r * chroma, s.g * chroma, s.b * chroma)
    ensures var base := lightness - chroma / 2.0;
            Mixed(s, chroma, lightness) == Channels(scaled.r + base, scaled.g + base, scaled.b + base)
  {
  }

  lemma MixedSpan(s: Channels, chroma: real, lightness: real)
    requires chroma >= 0.0 && Spans(s, 1.0)
    ensures var c := Mixed(s, chroma, lightness);
            Largest(c) == lightness + chroma / 2.0 && Smallest(c) == lightness - chroma / 2.0
  {
    var scaled := ScaledSpans(s, chroma);
    var base := lightness - chroma / 2.0;
    SpanOf(scaled.r, scaled.g, scaled.b, chroma, base);
    MixedFrom(s, scaled, chroma, lightness);
  }

  lemma NotNegative(a: real, b: real)
    requires a >= 0.0 && b >= 0.0
    ensures a * b >= 0.0
  {
  }

  lemma ScaledBetween(share: real, chroma: real) returns (scaled: real)
    requires chroma >= 0.0 && 0.0 <= share <= 1.0
    ensures scaled == share * chroma && 0.0 <= scaled <= chroma
    ensures share == 0.0 ==> scaled == 0.0
    ensures share == 1.0 ==> scaled == chroma
  {
    scaled := share * chroma;
    NotNegative(share, chroma);
    NotNegative(1.0 - share, chroma);
    assert (1.0 - share) * chroma == chroma - scaled;
  }

  ghost predicate Unit(x: real) {
    0.0 <= x <= 1.0
  }

  lemma ChromaFits(saturation: real, lightness: real)
    requires Unit(saturation) && Unit(lightness)
    ensures 0.0 <= Chroma(saturation, lightness) <= 2.0 * lightness
    ensures Chroma(saturation, lightness) <= 2.0 - 2.0 * lightness
  {
    var whole := 1.0 - Abs(2.0 * lightness - 1.0);
    assert 0.0 <= whole <= 2.0 * lightness && whole <= 2.0 - 2.0 * lightness;
    var scaled := ScaledBetween(saturation, whole);
    assert Chroma(saturation, lightness) == whole * saturation == saturation * whole;
  }

  lemma SpannedSaysHslBack(s: Channels, saturation: real, lightness: real)
    requires Spans(s, 1.0) && Unit(saturation) && Unit(lightness)
    ensures var c := Mixed(s, Chroma(saturation, lightness), lightness);
            && Largest(c) + Smallest(c) == 2.0 * lightness
            && Largest(c) - Smallest(c) == Chroma(saturation, lightness)
            && Unit(c.r) && Unit(c.g) && Unit(c.b)
  {
    ChromaFits(saturation, lightness);
    MixedSpan(s, Chroma(saturation, lightness), lightness);
  }

  /** Largest and smallest channel say the lightness and the chroma back, and every channel is displayable. */
  lemma ChannelsSayHslBack(hue: real, saturation: real, lightness: real)
    requires hue >= 0.0 && Unit(saturation) && Unit(lightness)
    ensures var c := ToChannels(hue, saturation, lightness);
            && Largest(c) + Smallest(c) == 2.0 * lightness
            && Largest(c) - Smallest(c) == Chroma(saturation, lightness)
            && Unit(c.r) && Unit(c.g) && Unit(c.b)
  {
    SharesSpan(hue / 60.0);
    SpannedSaysHslBack(Shares(hue / 60.0), saturation, lightness);
  }

  lemma RemRepeats(at: real)
    ensures Rem(at + 6.0, 2.0) == Rem(at, 2.0)
  {
    var q := (at / 2.0).Floor;
    RemIs(at + 6.0, 2.0, q + 3);
  }

  lemma SixthRepeats(at: real)
    ensures (at + 6.0).Floor % 6 == at.Floor % 6
  {
    assert (at + 6.0).Floor == at.Floor + 6;
  }

  lemma SharesRepeat(at: real)
    requires at >= 0.0
    ensures Shares(at + 6.0) == Shares(at)
  {
    RemRepeats(at);
    SixthRepeats(at);
  }

  /** A whole turn is no turn; 360 degrees is 0. */
  lemma AWholeTurnIsNone(hue: real, saturation: real, lightness: real)
    requires hue >= 0.0
    ensures ToChannels(hue + 360.0, saturation, lightness) == ToChannels(hue, saturation, lightness)
    ensures HslToHex(hue + 360.0, saturation, lightness) == HslToHex(hue, saturation, lightness)
  {
    assert (hue + 360.0) / 60.0 == hue / 60.0 + 6.0;
    SharesRepeat(hue / 60.0);
  }

  // ---- Hexadecimal ----

  predicate HexDigit(c: char) {
    '0' <= c <= '9' || 'a' <= c <= 'f'
  }

  function HexChar(d: int): (c: char)
    requires 0 <= d < 16
    ensures HexDigit(c)
  {
    if d < 10 then (d + '0' as int) as char else (d - 10 + 'a' as int) as char
  }

  function HexText(n: nat): string {
    if n < 16 then [HexChar(n)] else HexText(n / 16) + [HexChar(n % 16)]
  }

  /** `Number.prototype.toString(16)` on an integer, and `padStart(2, "0")`. */
  function Byte(channel: real): string {
    var n := (channel * 255.0 + 0.5).Floor;
    var text := if n < 0 then "-" + HexText(-n) else HexText(n);
    if |text| < 2 then "0" + text else text
  }

  function HslToHex(hue: real, saturation: real, lightness: real): string
    requires hue >= 0.0
  {
    var c := ToChannels(hue, saturation / 100.0, lightness / 100.0);
    "#" + Byte(c.r) + Byte(c.g) + Byte(c.b)
  }

  function HexValue(c: char): int {
    if '0' <= c <= '9' then c as int - '0' as int else c as int - 'a' as int + 10
  }

  /** What two hexadecimal digits say. */
  function ByteValue(s: string): int
    requires |s| == 2
  {
    16 * HexValue(s[0]) + HexValue(s[1])
  }

  /** A channel in range is written in two digits that name the nearest of the 256 steps. */
  lemma ByteReadsBack(channel: real)
    requires Unit(channel)
    ensures var s := Byte(channel);
            && |s| == 2 && HexDigit(s[0]) && HexDigit(s[1])
            && 0 <= ByteValue(s) <= 255
            && -0.5 <= ByteValue(s) as real - channel * 255.0 <= 0.5
  {
    var n := (channel * 255.0 + 0.5).Floor;
    assert 0 <= n <= 255;
    if n >= 16 {
      assert HexText(n / 16) == [HexChar(n / 16)];
      assert HexText(n) == [HexChar(n / 16), HexChar(n % 16)];
    }
  }

  /** Percentages in range give `#` and six digits, each pair within half a step of its channel. */
  lemma SixDigitsWithinHalfAStep(hue: real, saturation: real, lightness: real)
    requires hue >= 0.0 && 0.0 <= saturation <= 100.0 && 0.0 <= lightness <= 100.0
    ensures var hex := HslToHex(hue, saturation, lightness);
            var c := ToChannels(hue, saturation / 100.0, lightness / 100.0);
            && |hex| == 7 && hex[0] == '#' && (forall i | 1 <= i < 7 :: HexDigit(hex[i]))
            && -0.5 <= ByteValue(hex[1..3]) as real - c.r * 255.0 <= 0.5
            && -0.5 <= ByteValue(hex[3..5]) as real - c.g * 255.0 <= 0.5
            && -0.5 <= ByteValue(hex[5..7]) as real - c.b * 255.0 <= 0.5
  {
    var c := ToChannels(hue, saturation / 100.0, lightness / 100.0);
    ChannelsSayHslBack(hue, saturation / 100.0, lightness / 100.0);
    ByteReadsBack(c.r);
    ByteReadsBack(c.g);
    ByteReadsBack(c.b);
    var hex := HslToHex(hue, saturation, lightness);
    assert hex[1..3] == Byte(c.r) && hex[3..5] == Byte(c.g) && hex[5..7] == Byte(c.b);
    SixDigits(Byte(c.r), Byte(c.g), Byte(c.b));
  }

  lemma SixDigits(r: string, g: string, b: string)
    requires |r| == |g| == |b| == 2
    requires HexDigit(r[0]) && HexDigit(r[1]) && HexDigit(g[0]) && HexDigit(g[1]) && HexDigit(b[0]) && HexDigit(b[1])
    ensures var hex := "#" + r + g + b; |hex| == 7 && hex[0] == '#' && forall i | 1 <= i < 7 :: HexDigit(hex[i])
  {
    var hex := "#" + r + g + b;
    assert hex[1] == r[0] && hex[2] == r[1] && hex[3] == g[0] && hex[4] == g[1] && hex[5] == b[0] && hex[6] == b[1];
  }

  // ---- A rule's body ----

  /** How many braces are open after `s`. */
  function Depth(s: string): int {
    if s == "" then 0
    else Depth(s[..|s| - 1]) + (if s[|s| - 1] == '{' then 1 else if s[|s| - 1] == '}' then -1 else 0)
  }

  function DepthAt(css: string, from: nat, to: nat): int
    requires from <= to <= |css|
  {
    Depth(css[from..to])
  }

  /** `css[open]` is a brace, and the one at `close` is its partner: the first place where as many are closed as
      opened. */
  ghost predicate Partner(css: string, open: nat, close: nat) {
    && open < close < |css| && css[close] == '}' && DepthAt(css, open, close + 1) == 0
    && forall k | open < k <= close :: DepthAt(css, open, k) > 0
  }

  /** As many braces closed as opened, and never more closed on the way. */
  ghost predicate Balanced(css: string, from: nat, to: nat)
    requires from <= to <= |css|
  {
    DepthAt(css, from, to) == 0 && forall k | from <= k <= to :: DepthAt(css, from, k) >= 0
  }

  lemma DepthGoesOn(css: string, from: nat, i: nat)
    requires from <= i < |css|
    ensures DepthAt(css, from, i + 1) == DepthAt(css, from, i)
            + (if css[i] == '{' then 1 else if css[i] == '}' then -1 else 0)
  {
    var upTo := css[from..i + 1];
    assert upTo[..|upTo| - 1] == css[from..i] && upTo[|upTo| - 1] == css[i];
  }

  /** The scan from the opening brace; None when the rule is never closed. */
  method BodyFrom(css: string, open: nat) returns (body: Option<string>)
    requires open < |css| && css[open] == '{'
    ensures body.Some? ==> exists close: nat :: Partner(css, open, close) && body.value == css[open + 1..close]
    ensures body.None? ==> forall close: nat :: !Partner(css, open, close)
  {
    var depth := 0;
    for i := open to |css|
      invariant depth == DepthAt(css, open, i)
      invariant forall k | open < k <= i :: DepthAt(css, open, k) > 0
    {
      DepthGoesOn(css, open, i);
      if css[i] == '{' {
        depth := depth + 1;
      } else if css[i] == '}' {
        depth := depth - 1;
        if depth == 0 {
          assert Partner(css, open, i);
          return Some(css[open + 1..i]);
        }
      }
    }
    return None;
  }

  lemma {:induction false} DepthOfConcat(a: string, b: string)
    ensures Depth(a + b) == Depth(a) + Depth(b)
  {
    if b == "" {
      assert a + b == a;
    } else {
      DepthOfConcat(a, b[..|b| - 1]);
      assert (a + b)[..|a + b| - 1] == a + b[..|b| - 1];
    }
  }

  lemma DepthPastTheFirst(css: string, open: nat, k: nat)
    requires open < k <= |css| && css[open] == '{'
    ensures DepthAt(css, open, k) == 1 + DepthAt(css, open + 1, k)
  {
    var first := [css[open]];
    assert first[..|first| - 1] == "";
    assert css[open..k] == first + css[open + 1..k];
    DepthOfConcat(first, css[open + 1..k]);
  }

  /** What lies between partners is balanced. */
  lemma BodyIsBalanced(css: string, open: nat, close: nat)
    requires Partner(css, open, close) && css[open] == '{'
    ensures Balanced(css, open + 1, close)
  {
    DepthGoesOn(css, open, close);
    DepthPastTheFirst(css, open, close);
    var from := open + 1;
    forall k | from <= k <= close ensures DepthAt(css, from, k) >= 0 {
      DepthPastTheFirst(css, open, k);
    }
  }

  /** A brace has one partner at most. */
  lemma OnePartner(css: string, open: nat, a: nat, b: nat)
    requires Partner(css, open, a) && Partner(css, open, b)
    ensures a == b
  {
    assert DepthAt(css, open, a + 1) == 0 && DepthAt(css, open, b + 1) == 0;
  }
}
