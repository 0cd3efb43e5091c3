/** Display formatters of src/utils/formatters.ts: the `#rrggbb` colour codec and
    the uptime text. */
module Formatters {
  import opened Wrappers
  import opened Text
  import opened Types

  // ---------------------------------------------------------------------------
  // Colour codec
  // ---------------------------------------------------------------------------

  /** One channel as `x.toString(16)`, with a '0' put in front of a single digit. */
  function ChannelHex(x: int): string {
    var hex := HexString(x);
    if |hex| == 1 then "0" + hex else hex
  }

  /** `rgbToHex(r, g, b)`. */
  function RgbToHex(r: int, g: int, b: int): string {
    "#" + ChannelHex(r) + ChannelHex(g) + ChannelHex(b)
  }

  /** The two lower-case hexadecimal digits of a value in 0..255, high digit first. */
  function TwoDigits(x: int): string
    requires 0 <= x <= 255
  {
    [DigitChar(x / 16), DigitChar(x % 16)]
  }

  predicate AllHexDigits(s: string) {
    forall k :: 0 <= k < |s| ==> IsHexDigit(s[k])
  }

  /** The language of `/^#?([a-f\d]{2})([a-f\d]{2})([a-f\d]{2})$/i`: an optional '#'
      and then exactly six hexadecimal digits of either case. */
  predicate IsHexColor(s: string) {
    (|s| == 6 && AllHexDigits(s)) || (|s| == 7 && s[0] == '#' && AllHexDigits(s[1..]))
  }

  /** The value of a two-digit group as `parseInt(group, 16)` reads it. */
  function GroupValue(group: string): (v: int)
    requires |group| == 2 && AllHexDigits(group)
    ensures v == 16 * DigitValue(group[0]) + DigitValue(group[1])
  {
    assert AllDigitsBelow(group, 16);
    var hi := group[..1];
    assert hi[..0] == [] && hi[0] == group[0];
    assert DigitsValue(hi, 16) == DigitValue(group[0]);
    DigitsValue(group, 16)
  }

  /** `hexToRgb(hex)`, with `None` for the source's `null`. */
  function HexToRgb(hex: string): (c: Option<Rgb>)
    ensures c.Some? <==> IsHexColor(hex)
    ensures c.Some? ==> ChannelsInRange(c.value)
    ensures c.Some? ==>
      && c.value.r == 16 * DigitValue(hex[|hex| - 6]) + DigitValue(hex[|hex| - 5])
      && c.value.g == 16 * DigitValue(hex[|hex| - 4]) + DigitValue(hex[|hex| - 3])
      && c.value.b == 16 * DigitValue(hex[|hex| - 2]) + DigitValue(hex[|hex| - 1])
  {
    var digits := if |hex| == 7 && hex[0] == '#' then hex[1..] else hex;
    if |digits| == 6 && AllHexDigits(digits) then
      assert AllHexDigits(digits[0..2]) && AllHexDigits(digits[2..4]) && AllHexDigits(digits[4..6]);
      assert digits == hex[|hex| - 6..];
      Some(Rgb(GroupValue(digits[0..2]), GroupValue(digits[2..4]), GroupValue(digits[4..6])))
    else
      None
  }

  lemma ChannelHexTwoDigits(x: int)
    requires 0 <= x <= 255
    ensures ChannelHex(x) == TwoDigits(x)
  {
    if x >= 16 {
      DivideByBase(x, 16);
      assert NatDigits(x, 16) == NatDigits(x / 16, 16) + [DigitChar(x % 16)];
    }
  }

  /** For channels in 0..255 the text is '#' followed by two zero-padded lower-case
      hexadecimal digits per channel. */
  lemma RgbToHexShape(r: int, g: int, b: int)
    requires 0 <= r <= 255 && 0 <= g <= 255 && 0 <= b <= 255
    ensures var s := RgbToHex(r, g, b);
      && |s| == 7 && s[0] == '#'
      && s[1..3] == TwoDigits(r) && s[3..5] == TwoDigits(g) && s[5..7] == TwoDigits(b)
      && forall k :: 1 <= k < 7 ==> IsHexDigit(s[k]) && !('A' <= s[k] <= 'F')
  {
    ChannelHexTwoDigits(r);
    ChannelHexTwoDigits(g);
    ChannelHexTwoDigits(b);
    var s := RgbToHex(r, g, b);
    assert s == "#" + TwoDigits(r) + TwoDigits(g) + TwoDigits(b);
  }

  /** Decoding an encoded colour gives the colour back. */
  lemma HexRoundTrip(r: int, g: int, b: int)
    requires 0 <= r <= 255 && 0 <= g <= 255 && 0 <= b <= 255
    ensures HexToRgb(RgbToHex(r, g, b)) == Some(Rgb(r, g, b))
  {
    RgbToHexShape(r, g, b);
    var s := RgbToHex(r, g, b);
    assert IsHexColor(s);
    DigitValueOfChar(r / 16);
    DigitValueOfChar(r % 16);
    DigitValueOfChar(g / 16);
    DigitValueOfChar(g % 16);
    DigitValueOfChar(b / 16);
    DigitValueOfChar(b % 16);
    assert s[1] == DigitChar(r / 16) && s[2] == DigitChar(r % 16);
    assert s[3] == DigitChar(g / 16) && s[4] == DigitChar(g % 16);
    assert s[5] == DigitChar(b / 16) && s[6] == DigitChar(b % 16);
  }

  function LowerAscii(s: string): (t: string)
    ensures |t| == |s|
  {
    seq(|s|, k requires 0 <= k < |s| => ToLowerAscii(s[k]))
  }

  /** A pair of digits denotes a byte whose two digits are those characters, lower-cased. */
  lemma PairDigits(hi: char, lo: char)
    requires IsHexDigit(hi) && IsHexDigit(lo)
    ensures var v := 16 * DigitValue(hi) + DigitValue(lo);
      0 <= v <= 255 && TwoDigits(v) == [ToLowerAscii(hi), ToLowerAscii(lo)]
  {
    var v := 16 * DigitValue(hi) + DigitValue(lo);
    assert v / 16 == DigitValue(hi) && v % 16 == DigitValue(lo);
    DigitCharOfValue(hi);
    DigitCharOfValue(lo);
  }

  /** Re-encoding any accepted text gives its canonical form: a '#' and the six digits
      lower-cased. */
  lemma HexCanonical(hex: string)
    requires IsHexColor(hex)
    ensures var c := HexToRgb(hex).value;
      RgbToHex(c.r, c.g, c.b) == "#" + LowerAscii(hex[|hex| - 6..])
  {
    var n := |hex|;
    var d := hex[n - 6..];
    assert AllHexDigits(d) by {
      assert n == 7 ==> hex[1..] == d;
    }
    CanonicalOfDigits(HexToRgb(hex).value, d);
  }

  lemma CanonicalOfDigits(c: Rgb, d: string)
    requires |d| == 6 && AllHexDigits(d)
    requires c.r == 16 * DigitValue(d[0]) + DigitValue(d[1])
    requires c.g == 16 * DigitValue(d[2]) + DigitValue(d[3])
    requires c.b == 16 * DigitValue(d[4]) + DigitValue(d[5])
    ensures RgbToHex(c.r, c.g, c.b) == "#" + LowerAscii(d)
  {
    PairDigits(d[0], d[1]);
    PairDigits(d[2], d[3]);
    PairDigits(d[4], d[5]);
    ChannelHexTwoDigits(c.r);
    ChannelHexTwoDigits(c.g);
    ChannelHexTwoDigits(c.b);
    LowerSix(d);
  }

  lemma LowerSix(d: string)
    requires |d| == 6
    ensures LowerAscii(d) == [ToLowerAscii(d[0]), ToLowerAscii(d[1])] + [ToLowerAscii(d[2]), ToLowerAscii(d[3])]
      + [ToLowerAscii(d[4]), ToLowerAscii(d[5])]
  {
  }

  /** The worked examples: encoding pads each channel, decoding accepts either form and
      refuses anything but six hexadecimal digits. */
  lemma HexExamples()
    ensures RgbToHex(5, 0, 255) == "#0500ff"
    ensures HexToRgb("#ffffff") == Some(Rgb(255, 255, 255))
    ensures HexToRgb("abcdef") == Some(Rgb(171, 205, 239))
    ensures HexToRgb("#zzzzzz") == None
    ensures HexToRgb("#fff") == None
  {
    RgbToHexShape(5, 0, 255);
    assert RgbToHex(5, 0, 255)[1..3] == "05";
    assert !IsHexDigit('z');
  }

  // ---------------------------------------------------------------------------
  // Uptime
  // ---------------------------------------------------------------------------

  /** `formatUptime(ms)` for an integer number of milliseconds. `Math.floor(x / n)` for a
      positive divisor is Dafny's `/`; every `%` here is applied to a positive number, where
      JavaScript's remainder and Dafny's agree. */
  function FormatUptime(ms: int): string {
    var seconds := ms / 1000;
    var minutes := seconds / 60;
    var hours := minutes / 60;
    var days := hours / 24;
    if days > 0 then
      DecimalString(days) + "d " + DecimalString(hours % 24) + "h " + DecimalString(minutes % 60) + "m"
    else if hours > 0 then
      DecimalString(hours) + "h " + DecimalString(minutes % 60) + "m " + DecimalString(seconds % 60) + "s"
    else if minutes > 0 then
      DecimalString(minutes) + "m " + DecimalString(seconds % 60) + "s"
    else
      DecimalString(seconds) + "s"
  }

  /** Under a minute only the whole seconds are printed. */
  lemma UptimeSeconds(ms: int)
    requires ms < 60000
    ensures FormatUptime(ms) == DecimalString(ms / 1000) + "s"
  {
    assert ms / 1000 < 60;
  }

  /** From a minute up to an hour: `M` minutes and `S` seconds, with `M * 60 + S` the whole
      seconds. */
  lemma UptimeMinutes(ms: int, m: int, s: int)
    requires 1 <= m < 60 && 0 <= s < 60 && ms / 1000 == m * 60 + s
    ensures FormatUptime(ms) == DecimalString(m) + "m " + DecimalString(s) + "s"
  {
    var seconds := ms / 1000;
    assert seconds / 60 == m && seconds % 60 == s;
  }

  /** From an hour up to a day, all three units with minutes and seconds below 60. */
  lemma UptimeHours(ms: int, h: int, m: int, s: int)
    requires 1 <= h < 24 && 0 <= m < 60 && 0 <= s < 60 && ms / 1000 == h * 3600 + m * 60 + s
    ensures FormatUptime(ms) == DecimalString(h) + "h " + DecimalString(m) + "m " + DecimalString(s) + "s"
  {
    var seconds := ms / 1000;
    assert seconds / 60 == h * 60 + m && seconds % 60 == s;
    var minutes := seconds / 60;
    assert minutes / 60 == h && minutes % 60 == m;
  }

  /** From a day on, days, hours below 24 and minutes below 60; the seconds are dropped. */
  lemma UptimeDays(ms: int, d: int, h: int, m: int)
    requires d >= 1 && 0 <= h < 24 && 0 <= m < 60 && ms / 60000 == d * 1440 + h * 60 + m
    ensures FormatUptime(ms) == DecimalString(d) + "d " + DecimalString(h) + "h " + DecimalString(m) + "m"
  {
    var seconds := ms / 1000;
    var minutes := seconds / 60;
    assert minutes == ms / 60000;
    assert minutes / 60 == d * 24 + h && minutes % 60 == m;
    var hours := minutes / 60;
    assert hours / 24 == d && hours % 24 == h;
  }

  /** Past a day, two uptimes within the same minute print the same text. */
  lemma UptimeDaysIgnoreSeconds(ms: int, ms': int)
    requires ms >= 86400000 && ms' >= 86400000 && ms / 60000 == ms' / 60000
    ensures FormatUptime(ms) == FormatUptime(ms')
  {
    assert ms / 1000 / 60 == ms / 60000;
    assert ms' / 1000 / 60 == ms' / 60000;
  }

  lemma UptimeExamples()
    ensures FormatUptime(0) == "0s"
    ensures FormatUptime(90000) == "1m 30s"
    ensures FormatUptime(3600000) == "1h 0m 0s"
    ensures FormatUptime(90000000) == "1d 1h 0m"
    ensures FormatUptime(-1500) == "-2s"
  {
    UptimeSeconds(-1500);
    UptimeSeconds(0);
    UptimeMinutes(90000, 1, 30);
    UptimeHours(3600000, 1, 0, 0);
    UptimeDays(90000000, 1, 1, 0);
    DivideByBase(30, 10);
  }
}
