/**
 * The colour arithmetic of the button's style: a colour string such as
 * `#10B981` is read as a hexadecimal number, split into its red, green and
 * blue channels, each channel is darkened by about fifteen percent, and the
 * channels are put back together and written out as `#` followed by six
 * lower-case hex digits (the second stop of the button's gradient).  The
 * undarkened channels also give the `rgba(…)` shadow colour.
 *
 * JavaScript's bit operators work on 32-bit integers.  Every value here is
 * below 2^24, so `num >> 16` is `num / 2^16`, `(num >> 8) & 0xff` is
 * `(num / 2^8) % 2^8`, `num & 0xff` is `num % 2^8`, and
 * `(r << 16) | (g << 8) | b` with channels below 2^8 is a sum of fields that
 * do not overlap.  The model writes these as the integer arithmetic they are.
 */
module Color {

  /** 16^k: one more than the largest value a hex string of k digits denotes. */
  function Pow16(k: nat): (p: nat)
    ensures p >= 1
  {
    if k == 0 then 1 else 16 * Pow16(k - 1)
  }

  lemma {:induction false} Pow16Monotone(j: nat, k: nat)
    requires j <= k
    ensures Pow16(j) <= Pow16(k)
  {
    if j < k {
      Pow16Monotone(j, k - 1);
    }
  }

  /** The largest colour value plus one: 16^6 = 2^24. */
  const COLOR_LIMIT: nat := 0x100_0000

  lemma Pow16Six()
    ensures Pow16(6) == COLOR_LIMIT
  {
    assert Pow16(3) == 4096 by {
      assert Pow16(1) == 16;
      assert Pow16(2) == 256;
    }
    assert Pow16(6) == 4096 * 4096 by {
      assert Pow16(4) == 65536;
      assert Pow16(5) == 1048576;
    }
  }

  // ---------------------------------------------------------------------
  // Reading a colour: `parseInt(color.replace("#", ""), 16)`
  // ---------------------------------------------------------------------

  predicate IsHexDigit(ch: char) {
    '0' <= ch <= '9' || 'a' <= ch <= 'f' || 'A' <= ch <= 'F'
  }

  function DigitValue(ch: char): (d: nat)
    requires IsHexDigit(ch)
    ensures d < 16
  {
    if '0' <= ch <= '9' then ch as int - '0' as int
    else if 'a' <= ch <= 'f' then ch as int - 'a' as int + 10
    else ch as int - 'A' as int + 10
  }

  predicate IsHexString(s: string) {
    forall i :: 0 <= i < |s| ==> IsHexDigit(s[i])
  }

  /** The number a string of hex digits denotes, most significant digit first. */
  function HexValue(s: string): (n: nat)
    requires IsHexString(s)
    ensures n < Pow16(|s|)
  {
    if s == [] then 0 else HexValue(s[..|s| - 1]) * 16 + DigitValue(s[|s| - 1])
  }

  /**
   * What `replace("#", "")` leaves of a colour string: the first `#` is
   * dropped.  On the strings `IsColor` admits that `#` can only be the first
   * character, since every other character is a hex digit.
   */
  function Digits(c: string): string {
    if |c| > 0 && c[0] == '#' then c[1..] else c
  }

  /**
   * A colour string that `parseInt(…, 16)` reads completely into a 24-bit
   * value: an optional leading `#` and one to six hex digits (the colour
   * picker and the defaults give `#` and six digits).
   */
  predicate IsColor(c: string) {
    var d := Digits(c);
    1 <= |d| <= 6 && IsHexString(d)
  }

  function ParseColor(c: string): (num: nat)
    requires IsColor(c)
    ensures num < COLOR_LIMIT
  {
    var d := Digits(c);
    Pow16Monotone(|d|, 6);
    Pow16Six();
    HexValue(d)
  }

  // ---------------------------------------------------------------------
  // Channels
  // ---------------------------------------------------------------------

  /** `num >> 16`. */
  function Red(num: nat): nat {
    num / 0x1_0000
  }

  /** `(num >> 8) & 0xff`. */
  function Green(num: nat): nat {
    (num / 0x100) % 0x100
  }

  /** `num & 0xff`. */
  function Blue(num: nat): nat {
    num % 0x100
  }

  predicate IsChannel(v: int) {
    0 <= v < 0x100
  }

  /** `(r << 16) | (g << 8) | b`. */
  function Combine(r: int, g: int, b: int): (num: nat)
    requires IsChannel(r) && IsChannel(g) && IsChannel(b)
    ensures num < COLOR_LIMIT
    ensures Red(num) == r && Green(num) == g && Blue(num) == b
  {
    var num := r * 0x1_0000 + g * 0x100 + b;
    assert num / 0x100 == r * 0x100 + g;
    assert num / 0x1_0000 == r by {
      assert num == r * 0x1_0000 + (g * 0x100 + b);
      assert 0 <= g * 0x100 + b < 0x1_0000;
    }
    num
  }

  /** A 24-bit value is rebuilt from its three channels. */
  lemma ChannelsRecombine(num: nat)
    requires num < COLOR_LIMIT
    ensures IsChannel(Red(num)) && IsChannel(Green(num)) && IsChannel(Blue(num))
    ensures Combine(Red(num), Green(num), Blue(num)) == num
  {
    var hi := num / 0x100;
    assert num == hi * 0x100 + Blue(num);
    assert hi == Red(num) * 0x100 + Green(num);
  }

  // ---------------------------------------------------------------------
  // Darkening: `Math.max(0, val - Math.round(val * 0.15))`
  // ---------------------------------------------------------------------

  /**
   * `Math.round(v * 0.15)` for a channel value.  `Math.round` rounds half
   * up, so on the exact product this is floor(15v/100 + 1/2).  For
   * 0 <= v <= 255 the double product `v * 0.15` differs from 15v/100 by less
   * than half a unit in the last place, so it lands exactly on the halves
   * (v = 10, 30, 50, …) and on the same side of every half elsewhere; the
   * rounded results agree.
   */
  function RoundFifteenPercent(v: nat): nat {
    (15 * v + 50) / 100
  }

  function Darken(v: int): (d: int)
    requires IsChannel(v)
    ensures 0 <= d <= v
    ensures -50 <= 100 * d - 85 * v < 50
    ensures d < v <==> v >= 4
  {
    var d := v - RoundFifteenPercent(v);
    if d < 0 then 0 else d
  }

  // ---------------------------------------------------------------------
  // Writing a colour: `"#" + n.toString(16).padStart(6, "0")`
  // ---------------------------------------------------------------------

  predicate IsLowerHexDigit(ch: char) {
    '0' <= ch <= '9' || 'a' <= ch <= 'f'
  }

  predicate IsLowerHexString(s: string) {
    forall i :: 0 <= i < |s| ==> IsLowerHexDigit(s[i])
  }

  function HexChar(d: nat): (ch: char)
    requires d < 16
    ensures IsLowerHexDigit(ch) && DigitValue(ch) == d
  {
    if d < 10 then ('0' as int + d) as char else ('a' as int + d - 10) as char
  }

  /** `n.toString(16)`: the shortest lower-case hex rendering, "0" for zero. */
  function ToHex(n: nat): (s: string)
    ensures 1 <= |s|
    ensures IsLowerHexString(s) && HexValue(s) == n
    decreases n
  {
    if n < 16 then [HexChar(n)]
    else
      var s := ToHex(n / 16) + [HexChar(n % 16)];
      assert s[..|s| - 1] == ToHex(n / 16);
      s
  }

  lemma {:induction false} ToHexFits(n: nat, k: nat)
    requires 1 <= k && n < Pow16(k)
    ensures |ToHex(n)| <= k
    decreases n
  {
    if n >= 16 {
      ToHexFits(n / 16, k - 1);
    }
  }

  /** `s.padStart(width, fill)`. */
  function PadStart(s: string, width: nat, fill: char): (p: string)
    ensures |p| == if |s| >= width then |s| else width
    ensures p[|p| - |s|..] == s
    ensures forall i :: 0 <= i < |p| - |s| ==> p[i] == fill
  {
    if |s| >= width then s else seq(width - |s|, _ => fill) + s
  }

  /** Leading zeros do not change the value of a hex string. */
  lemma {:induction false} LeadingZeros(z: string, s: string)
    requires forall i :: 0 <= i < |z| ==> z[i] == '0'
    requires IsHexString(s)
    ensures IsHexString(z + s) && HexValue(z + s) == HexValue(s)
    decreases |s|
  {
    if s == [] {
      assert z + s == z;
      ZerosValue(z);
    } else {
      var t := s[..|s| - 1];
      assert (z + s)[..|z + s| - 1] == z + t;
      LeadingZeros(z, t);
    }
  }

  lemma {:induction false} ZerosValue(z: string)
    requires forall i :: 0 <= i < |z| ==> z[i] == '0'
    ensures IsHexString(z) && HexValue(z) == 0
  {
    if z != [] {
      ZerosValue(z[..|z| - 1]);
    }
  }

  /** The six-digit rendering used in the darker colour. */
  function Hex6(n: nat): (s: string)
    requires n < COLOR_LIMIT
    ensures |s| == 6 && IsLowerHexString(s)
    ensures HexValue(s) == n
  {
    var h := ToHex(n);
    Pow16Six();
    ToHexFits(n, 6);
    var s := PadStart(h, 6, '0');
    assert s == s[..6 - |h|] + h;
    LeadingZeros(s[..6 - |h|], h);
    s
  }

  /** The channels of a colour, as the shadow's `rgba(sr, sg, sb, 0.15)` shows them. */
  function ShadowChannels(c: string): (rgb: (int, int, int))
    requires IsColor(c)
    ensures IsChannel(rgb.0) && IsChannel(rgb.1) && IsChannel(rgb.2)
    ensures Combine(rgb.0, rgb.1, rgb.2) == ParseColor(c)
  {
    var num := ParseColor(c);
    ChannelsRecombine(num);
    (Red(num), Green(num), Blue(num))
  }

  /**
   * The second gradient stop: the colour with every channel darkened.  The
   * result is itself a well-formed colour of exactly `#` and six digits, and
   * reading it back gives the darkened channels of the input.
   */
  function DarkerColor(c: string): (d: string)
    requires IsColor(c)
    ensures |d| == 7 && d[0] == '#' && IsLowerHexString(d[1..])
    ensures IsColor(d)
    ensures var (r, g, b) := ShadowChannels(c);
      var n := ParseColor(d);
      Red(n) == Darken(r) && Green(n) == Darken(g) && Blue(n) == Darken(b)
  {
    var (r, g, b) := ShadowChannels(c);
    var num := Combine(Darken(r), Darken(g), Darken(b));
    var d := "#" + Hex6(num);
    assert Digits(d) == Hex6(num);
    d
  }
}
