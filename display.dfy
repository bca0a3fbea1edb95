/**
  The browser client's pure display helpers: the chart type fallback, the colour conversion
  for chart fills and the closing countdown.
 */
module Display {
  import opened Wrappers
  import opened Text

  /** The chart types the client can draw. */
  const SupportedChartTypes: seq<string> := ["pie", "doughnut", "bar", "radar"]

  /** `resolveChartType`: a supported requested type is kept, anything else falls back to a pie chart. */
  function ResolveChartType(requested: string): (r: string)
    ensures r in SupportedChartTypes
    ensures r == requested <==> requested in SupportedChartTypes
    ensures requested !in SupportedChartTypes ==> r == "pie"
  {
    if requested in SupportedChartTypes then requested else "pie"
  }

  /** Resolving is idempotent: a resolved type resolves to itself. */
  lemma ResolveChartTypeIdempotent(requested: string)
    ensures ResolveChartType(ResolveChartType(requested)) == ResolveChartType(requested)
  {
  }

  // ---------------------------------------------------------------------------------------------
  // Colours
  // ---------------------------------------------------------------------------------------------

  /** The palette the charts cycle through. */
  const ChartColors: seq<string> := ["#1d4ed8", "#f97316", "#10b981", "#a855f7", "#0ea5e9", "#6366f1", "#ef4444"]

  predicate HexDigit(c: char) {
    '0' <= c <= '9' || 'a' <= c <= 'f' || 'A' <= c <= 'F'
  }

  function HexDigitValue(c: char): (v: nat)
    requires HexDigit(c)
    ensures v < 16
  {
    if '0' <= c <= '9' then c as int - '0' as int
    else if 'a' <= c <= 'f' then c as int - 'a' as int + 10
    else c as int - 'A' as int + 10
  }

  predicate AllHexDigits(s: string) {
    forall k :: 0 <= k < |s| ==> HexDigit(s[k])
  }

  /** The longest prefix of `s` made of hex digits. */
  function HexDigitPrefix(s: string): (r: string)
    ensures |r| <= |s| && r == s[..|r|]
    ensures AllHexDigits(r)
    ensures |r| < |s| ==> !HexDigit(s[|r|])
  {
    if s == [] || !HexDigit(s[0]) then [] else [s[0]] + HexDigitPrefix(s[1..])
  }

  /** The value of a string of hex digits, most significant digit first. */
  function HexValue(d: string): nat
    requires AllHexDigits(d)
  {
    if d == [] then 0 else HexValue(d[..|d| - 1]) * 16 + HexDigitValue(d[|d| - 1])
  }

  /**
    `parseInt(s, 16)`: leading white space is skipped, then an optional sign, then an optional
    `0x`/`0X` prefix, and the longest run of hex digits that follows is read; `None` stands for
    `NaN`, the result when that run is empty.
   */
  function ParseIntHex(s: string): Option<int> {
    ParseSignedHex(TrimStart(s))
  }

  /** The sign step of `parseInt`: a leading `-` negates, a leading `+` is dropped. */
  function ParseSignedHex(t: string): (r: Option<int>)
    ensures t != [] && HexDigit(t[0]) ==> r == ParseHexDigits(StripHexPrefix(t))
  {
    if t != [] && t[0] == '-' then
      var u := ParseHexDigits(StripHexPrefix(t[1..]));
      if u.Some? then Some(-u.value) else None
    else if t != [] && t[0] == '+' then ParseHexDigits(StripHexPrefix(t[1..]))
    else ParseHexDigits(StripHexPrefix(t))
  }

  /** The radix step of `parseInt`: a `0x` or `0X` prefix is dropped. */
  function StripHexPrefix(u: string): (r: string)
    ensures |u| >= 2 && HexDigit(u[1]) ==> r == u
  {
    if |u| >= 2 && u[0] == '0' && (u[1] == 'x' || u[1] == 'X') then u[2..] else u
  }

  /** The digit step of `parseInt`: the value of the longest run of hex digits, `None` if it is empty. */
  function ParseHexDigits(b: string): (r: Option<int>)
    ensures r.Some? ==> r.value >= 0
  {
    var digits := HexDigitPrefix(b);
    if digits == [] then None else Some(HexValue(digits))
  }

  /** A string of hex digits is its own longest hex-digit prefix. */
  lemma {:induction false} HexDigitPrefixAll(s: string)
    requires AllHexDigits(s)
    ensures HexDigitPrefix(s) == s
  {
    if s != [] {
      HexDigitPrefixAll(s[1..]);
    }
  }

  /** Two hex digits read as one byte. */
  lemma ParseHexPair(s: string)
    requires |s| == 2 && AllHexDigits(s)
    ensures ParseIntHex(s) == Some(HexValue(s))
  {
    StartsWithDigit(s);
    DigitsHaveNoPrefix(s);
    ParseHexDigitsAll(s);
  }

  /** A whole string of hex digits is read in full. */
  lemma ParseHexDigitsAll(d: string)
    requires d != [] && AllHexDigits(d)
    ensures ParseHexDigits(d) == Some(HexValue(d))
  {
    HexDigitPrefixAll(d);
  }

  lemma HexValuePair(s: string)
    requires |s| == 2 && AllHexDigits(s)
    ensures HexValue(s) == 16 * HexDigitValue(s[0]) + HexDigitValue(s[1])
    ensures HexValue(s) < 256
  {
    var head := s[..1];
    assert head[0] == s[0] && head[..0] == [];
    assert HexValue(head) == HexDigitValue(s[0]);
    assert s[..|s| - 1] == head;
  }

  /** Input that starts with a hex digit skips the white-space and sign steps of `parseInt`. */
  lemma StartsWithDigit(s: string)
    requires s != [] && HexDigit(s[0])
    ensures ParseIntHex(s) == ParseHexDigits(StripHexPrefix(s))
  {
    NoLeadingWhitespace(s);
  }

  /** The lower-case hex digit for a value below 16. */
  function HexChar(v: nat): (c: char)
    requires v < 16
    ensures HexDigit(c) && HexDigitValue(c) == v
  {
    if v < 10 then ('0' as int + v) as char else ('a' as int + v - 10) as char
  }

  /** A byte written as two lower-case hex digits. */
  function HexByte(n: nat): (s: string)
    requires n < 256
    ensures |s| == 2 && AllHexDigits(s)
  {
    [HexChar(n / 16), HexChar(n % 16)]
  }

  /** Reading back a written byte gives the byte. */
  lemma HexByteRoundTrip(n: nat)
    requires n < 256
    ensures ParseIntHex(HexByte(n)) == Some(n)
  {
    ParseHexPair(HexByte(n));
    HexByteValue(n);
  }

  lemma HexByteValue(n: nat)
    requires n < 256
    ensures HexValue(HexByte(n)) == n
  {
    var s := HexByte(n);
    HexValuePair(s);
    assert HexDigitValue(s[0]) == n / 16 && HexDigitValue(s[1]) == n % 16;
  }

  /** `parseInt` reads hex digits up to the first character that is not one and ignores the rest. */
  lemma ParseIntHexStopsAtNonDigit(d: string, rest: string)
    requires d != [] && AllHexDigits(d)
    requires rest == [] || !HexDigit(rest[0])
    requires d == "0" ==> rest == [] || (rest[0] != 'x' && rest[0] != 'X')
    ensures ParseIntHex(d + rest) == Some(HexValue(d))
  {
    NoPrefixBeforeNonDigit(d, rest);
    StartsWithDigit(d + rest);
    HexDigitPrefixStops(d, rest);
  }

  /** Digits followed by a non-digit carry no `0x` prefix unless they are a lone `0` before an `x`. */
  lemma NoPrefixBeforeNonDigit(d: string, rest: string)
    requires d != [] && AllHexDigits(d)
    requires d == "0" ==> rest == [] || (rest[0] != 'x' && rest[0] != 'X')
    ensures (d + rest)[0] == d[0] && HexDigit((d + rest)[0])
    ensures StripHexPrefix(d + rest) == d + rest
  {
    var s := d + rest;
    if |d| >= 2 {
      assert s[1] == d[1];
    } else if rest != [] {
      assert d == [d[0]];
      assert s[1] == rest[0];
    }
  }

  /** The longest hex-digit prefix of digits followed by a non-digit is those digits. */
  lemma {:induction false} HexDigitPrefixStops(d: string, rest: string)
    requires AllHexDigits(d)
    requires rest == [] || !HexDigit(rest[0])
    ensures HexDigitPrefix(d + rest) == d
  {
    if d != [] {
      assert (d + rest)[1..] == d[1..] + rest;
      HexDigitPrefixStops(d[1..], rest);
    } else {
      assert d + rest == rest;
    }
  }

  /** A leading minus sign negates what follows. */
  lemma ParseIntHexNegative(d: string)
    requires d != [] && AllHexDigits(d)
    ensures ParseIntHex("-" + d) == Some(-(HexValue(d) as int))
  {
    NoLeadingWhitespace("-" + d);
    NegativeDigits(d);
  }

  lemma NegativeDigits(d: string)
    requires d != [] && AllHexDigits(d)
    ensures ParseSignedHex("-" + d) == Some(-(HexValue(d) as int))
  {
    assert ("-" + d)[1..] == d;
    DigitsHaveNoPrefix(d);
    HexDigitPrefixAll(d);
  }

  /** Hex digits never start with the `0x` prefix, since `x` is not a hex digit. */
  lemma DigitsHaveNoPrefix(d: string)
    requires AllHexDigits(d)
    ensures StripHexPrefix(d) == d
  {
    if |d| >= 2 {
      assert HexDigit(d[1]);
    }
  }

  /** A string that does not start with white space is its own `trimStart`. */
  lemma NoLeadingWhitespace(s: string)
    requires s != [] && !IsWhitespace(s[0])
    ensures TrimStart(s) == s
  {
  }

  /** The channels of an `rgba(...)` colour; a channel is `None` where `parseInt` gives `NaN`. */
  datatype Rgba = Rgba(red: Option<int>, green: Option<int>, blue: Option<int>, alpha: real)

  /** The fallback colour, `rgba(29, 78, 216, alpha)`. */
  function DefaultRgba(alpha: real): Rgba {
    Rgba(Some(29), Some(78), Some(216), alpha)
  }

  /** Where `c` first occurs in `s`; `|s|` when it does not occur. */
  function FirstIndexOf(s: string, c: char): (i: nat)
    ensures i <= |s|
    ensures forall k :: 0 <= k < i ==> s[k] != c
    ensures i < |s| ==> s[i] == c
    ensures i == |s| <==> c !in s
  {
    if s == [] || s[0] == c then 0 else 1 + FirstIndexOf(s[1..], c)
  }

  /** `s.replace("#", "")`: a string pattern replaces only its first occurrence. */
  function RemoveFirstHash(s: string): (r: string)
    ensures '#' in s ==> |r| == |s| - 1
    ensures '#' !in s ==> r == s
  {
    if s == [] then []
    else if s[0] == '#' then s[1..]
    else [s[0]] + RemoveFirstHash(s[1..])
  }

  /** Exactly the first `#` is cut out: what precedes it is kept, and every later `#` stays. */
  lemma {:induction false} RemoveFirstHashCuts(s: string)
    ensures var i := FirstIndexOf(s, '#');
      RemoveFirstHash(s) == if i < |s| then s[..i] + s[i + 1..] else s
    decreases |s|
  {
    if s != [] && s[0] != '#' {
      RemoveFirstHashCuts(s[1..]);
      var j := FirstIndexOf(s[1..], '#');
      assert FirstIndexOf(s, '#') == j + 1;
      if j < |s| - 1 {
        ConsCut(s, j);
      }
    } else if s != [] {
      assert s[..0] == [];
    }
  }

  /** Cutting position `j` out of the tail is cutting position `j + 1` out of the whole. */
  lemma ConsCut(s: string, j: nat)
    requires j + 1 < |s|
    ensures [s[0]] + (s[1..][..j] + s[1..][j + 1..]) == s[..j + 1] + s[j + 2..]
  {
    assert s[..j + 1] == [s[0]] + s[1..][..j];
    assert s[j + 2..] == s[1..][j + 1..];
  }

  /** `parseInt(normalized.slice(i, i + 2), 16)`. */
  function Channel(normalized: string, i: nat): Option<int>
    requires i + 2 <= |normalized|
  {
    ParseIntHex(normalized[i..i + 2])
  }

  /**
    `hexToRgba`: a string that is six characters long once its first `#` is removed is read as
    three two-character hex channels; anything else (not a string, or another length) gives
    the fallback colour.
   */
  function HexToRgba(hex: Option<string>, alpha: real): (c: Rgba)
    ensures c.alpha == alpha
    ensures hex.None? ==> c == DefaultRgba(alpha)
    ensures hex.Some? && |RemoveFirstHash(hex.value)| != 6 ==> c == DefaultRgba(alpha)
  {
    if hex.None? then DefaultRgba(alpha)
    else
      var normalized := RemoveFirstHash(hex.value);
      if |normalized| != 6 then DefaultRgba(alpha)
      else Rgba(Channel(normalized, 0), Channel(normalized, 2), Channel(normalized, 4), alpha)
  }

  /** The channels of a six-character colour are its three two-character slices, read as hex. */
  lemma HexToRgbaSlices(hex: string, alpha: real)
    requires |RemoveFirstHash(hex)| == 6
    ensures var n := RemoveFirstHash(hex);
      HexToRgba(Some(hex), alpha) == Rgba(Channel(n, 0), Channel(n, 2), Channel(n, 4), alpha)
  {
  }

  /** A colour written as `#rrggbb` in lower-case hex converts back to its three channels. */
  lemma HexToRgbaRoundTrip(r: nat, g: nat, b: nat, alpha: real)
    requires r < 256 && g < 256 && b < 256
    ensures HexToRgba(Some("#" + HexByte(r) + HexByte(g) + HexByte(b)), alpha) == Rgba(Some(r), Some(g), Some(b), alpha)
  {
    var digits := HexByte(r) + HexByte(g) + HexByte(b);
    var hex := "#" + digits;
    assert hex == "#" + HexByte(r) + HexByte(g) + HexByte(b);
    assert RemoveFirstHash(hex) == digits by {
      assert hex[0] == '#' && hex[1..] == digits;
    }
    HexToRgbaSlices(hex, alpha);
    PairSlices(HexByte(r), HexByte(g), HexByte(b));
    HexByteRoundTrip(r);
    HexByteRoundTrip(g);
    HexByteRoundTrip(b);
  }

  /** The three two-character slices of three pairs laid end to end are the pairs. */
  lemma PairSlices(x: string, y: string, z: string)
    requires |x| == 2 && |y| == 2 && |z| == 2
    ensures (x + y + z)[0..2] == x && (x + y + z)[2..4] == y && (x + y + z)[4..6] == z
  {
    var n := x + y + z;
    assert n[0..2] == [n[0], n[1]] == x;
    assert n[2..4] == [n[2], n[3]] == y;
    assert n[4..6] == [n[4], n[5]] == z;
  }

  /** Six hex digits, with or without a leading `#`, always give three channels in 0..255. */
  lemma HexToRgbaChannels(hex: string, alpha: real)
    requires var n := RemoveFirstHash(hex); |n| == 6 && AllHexDigits(n)
    ensures var c := HexToRgba(Some(hex), alpha);
      ByteChannel(c.red) && ByteChannel(c.green) && ByteChannel(c.blue)
  {
    var n := RemoveFirstHash(hex);
    PairOfDigits(n, 0);
    PairOfDigits(n, 2);
    PairOfDigits(n, 4);
    HexToRgbaSlices(hex, alpha);
  }

  /** Two adjacent hex digits of a string read as a byte. */
  lemma PairOfDigits(n: string, i: nat)
    requires AllHexDigits(n) && i + 2 <= |n|
    ensures ByteChannel(Channel(n, i))
  {
    var pair := n[i..i + 2];
    assert pair[0] == n[i] && pair[1] == n[i + 1];
    ParseHexPair(pair);
    HexValuePair(pair);
  }

  /** A channel value `parseInt` produced from a byte: present and in 0..255. */
  predicate ByteChannel(c: Option<int>) {
    c.Some? && 0 <= c.value < 256
  }

  /** The palette's first colour is the fallback colour, 29, 78, 216, written in hex. */
  lemma FirstPaletteColourDigits()
    ensures ChartColors[0] == "#" + HexByte(29) + HexByte(78) + HexByte(216)
  {
  }

  /** The fallback colour is the palette's first colour. */
  lemma FallbackIsFirstPaletteColour(alpha: real)
    ensures HexToRgba(Some("#" + HexByte(29) + HexByte(78) + HexByte(216)), alpha) == DefaultRgba(alpha)
  {
    HexToRgbaRoundTrip(29, 78, 216, alpha);
  }

  // ---------------------------------------------------------------------------------------------
  // Countdown
  // ---------------------------------------------------------------------------------------------

  /**
    `getRemainingSeconds`: whole seconds left until the closing deadline, rounded up; no deadline
    (absent, or the falsy instant 0) and a deadline already passed both give 0.
   */
  function RemainingSeconds(closingEndsAt: Option<int>, now: int): (r: nat)
    ensures closingEndsAt.None? || closingEndsAt == Some(0) ==> r == 0
    ensures closingEndsAt.Some? && closingEndsAt.value != 0 ==>
      var diff := if closingEndsAt.value > now then closingEndsAt.value - now else 0;
      r * 1000 >= diff && (r == 0 || (r - 1) * 1000 < diff)
  {
    if closingEndsAt.None? || closingEndsAt.value == 0 then 0
    else
      var diff := if closingEndsAt.value > now then closingEndsAt.value - now else 0;
      (diff + 999) / 1000
  }

  /** The countdown never goes up as time passes. */
  lemma RemainingSecondsMonotone(closingEndsAt: Option<int>, earlier: int, later: int)
    requires earlier <= later
    ensures RemainingSeconds(closingEndsAt, later) <= RemainingSeconds(closingEndsAt, earlier)
  {
    if closingEndsAt.Some? && closingEndsAt.value != 0 {
      var e := closingEndsAt.value;
      var d1 := if e > earlier then e - earlier else 0;
      var d2 := if e > later then e - later else 0;
      var r1 := RemainingSeconds(closingEndsAt, earlier);
      var r2 := RemainingSeconds(closingEndsAt, later);
      assert d2 <= d1 <= r1 * 1000;
      assert r2 == 0 || (r2 - 1) * 1000 < d2;
    }
  }

  /**
    The countdown shown for a deadline set 5000 ms after `stoppedAt` (a clock reading, never
    negative): it starts at 5, never shows more than 5 afterwards, and reaches 0 exactly at the deadline.
   */
  lemma CountdownAfterStop(stoppedAt: int, now: int)
    requires stoppedAt >= 0
    ensures now == stoppedAt ==> RemainingSeconds(Some(stoppedAt + 5000), now) == 5
    ensures now >= stoppedAt ==> RemainingSeconds(Some(stoppedAt + 5000), now) <= 5
    ensures RemainingSeconds(Some(stoppedAt + 5000), now) == 0 <==> now >= stoppedAt + 5000
  {
    if now >= stoppedAt {
      RemainingSecondsMonotone(Some(stoppedAt + 5000), stoppedAt, now);
    }
  }
}
