/** The `#rrggbb` codec: `hexToRgb` parses a CSS hex colour into channels,
    `rgbToHex` writes channels back as `#` and six lowercase hex digits. */
module HexCodec {
  import opened Colour

  // ----- Hex digits -----

  /** The regular-expression class `[a-f\d]` under the `i` flag. */
  predicate IsHexDigit(ch: char) {
    '0' <= ch <= '9' || 'a' <= ch <= 'f' || 'A' <= ch <= 'F'
  }

  predicate AllHexDigits(s: string) {
    forall i :: 0 <= i < |s| ==> IsHexDigit(s[i])
  }

  /** The value `parseInt` gives a single hex digit in base 16. */
  function DigitValue(ch: char): (v: nat)
    requires IsHexDigit(ch)
    ensures v < 16
  {
    if ch <= '9' then ch as int - '0' as int
    else if ch <= 'F' then ch as int - 'A' as int + 10
    else ch as int - 'a' as int + 10
  }

  /** The digit `Number.prototype.toString(16)` writes for 0 <= d < 16:
      always lowercase. */
  function HexDigit(d: nat): (ch: char)
    requires d < 16
    ensures IsHexDigit(ch) && DigitValue(ch) == d
    ensures !('A' <= ch <= 'F')
  {
    if d < 10 then ('0' as int + d) as char else ('a' as int + d - 10) as char
  }

  /** The lowercase form of a hex digit (other characters are unchanged). */
  function LowerDigit(ch: char): char {
    if 'A' <= ch <= 'F' then (ch as int - 'A' as int + 'a' as int) as char else ch
  }

  function LowerDigits(s: string): (t: string)
    ensures |t| == |s|
  {
    seq(|s|, i requires 0 <= i < |s| => LowerDigit(s[i]))
  }

  // ----- hexToRgb -----

  /** The strings matched by `/^#?([a-f\d]{2})([a-f\d]{2})([a-f\d]{2})$/i`:
      six hex digits, optionally after one `#`. */
  predicate MatchesHexPattern(s: string) {
    || (|s| == 6 && AllHexDigits(s))
    || (|s| == 7 && s[0] == '#' && AllHexDigits(s[1..]))
  }

  /** `parseInt(pair, 16)` on a pair of hex digits. */
  function PairValue(hi: char, lo: char): Channel
    requires IsHexDigit(hi) && IsHexDigit(lo)
  {
    16 * DigitValue(hi) + DigitValue(lo)
  }

  /** `hexToRgb`: the three channels, or `None` (the source's `null`)
      for any string the pattern rejects. */
  function HexToRgb(hex: string): (result: Option<Rgb>)
    ensures result.Some? <==> MatchesHexPattern(hex)
    ensures result.Some? ==>
      var d := hex[|hex| - 6..];
      && result.value.r == 16 * DigitValue(d[0]) + DigitValue(d[1])
      && result.value.g == 16 * DigitValue(d[2]) + DigitValue(d[3])
      && result.value.b == 16 * DigitValue(d[4]) + DigitValue(d[5])
  {
    var digits := if |hex| > 0 && hex[0] == '#' then hex[1..] else hex;
    if |digits| == 6 && AllHexDigits(digits) then
      Some(Rgb(PairValue(digits[0], digits[1]),
               PairValue(digits[2], digits[3]),
               PairValue(digits[4], digits[5])))
    else
      None
  }

  // ----- rgbToHex -----

  function Pow16(m: nat): (p: nat)
    ensures p >= 1
  {
    if m == 0 then 1 else 16 * Pow16(m - 1)
  }

  /** `n.toString(16)` for a non-negative integer: base 16, lowercase,
      no leading zeros. */
  function ToBase16(n: nat): (s: string)
    ensures |s| >= 1
    decreases n
  {
    if n < 16 then [HexDigit(n)] else ToBase16(n / 16) + [HexDigit(n % 16)]
  }

  /** The m low-order hex digits of v, zero-padded on the left. */
  function Fixed(v: nat, m: nat): (s: string)
    ensures |s| == m
  {
    if m == 0 then [] else Fixed(v / 16, m - 1) + [HexDigit(v % 16)]
  }

  /** One channel as exactly two lowercase hex digits. */
  function HexPair(x: Channel): string {
    [HexDigit(x / 16), HexDigit(x % 16)]
  }

  /** `rgbToHex`: `(1 << 24) + (r << 16) + (g << 8) + b` written in base 16,
      with the leading `1` sliced off. For channels in [0, 255] the shifts
      are multiplications and nothing reaches the 32-bit limit. */
  function RgbToHex(r: Channel, g: Channel, b: Channel): (hex: string)
    ensures hex == "#" + HexPair(r) + HexPair(g) + HexPair(b)
  {
    var packed := 0x100_0000 + r * 0x1_0000 + g * 0x100 + b;
    PackedDigits(r, g, b);
    "#" + ToBase16(packed)[1..]
  }

  // ----- Lemmas about the digit arithmetic -----

  lemma DivMod16(q: nat, d: nat)
    requires d < 16
    ensures (16 * q + d) / 16 == q && (16 * q + d) % 16 == d
  {
  }

  /** Writing 16^m + v in base 16 gives a `1` followed by v padded to m digits. */
  lemma {:induction false} LeadingOne(v: nat, m: nat)
    requires v < Pow16(m)
    ensures ToBase16(Pow16(m) + v) == ['1'] + Fixed(v, m)
  {
    if m == 0 {
      assert v == 0;
      assert ToBase16(1) == [HexDigit(1)];
    } else {
      var p := Pow16(m - 1);
      var n := Pow16(m) + v;
      assert n == 16 * (p + v / 16) + v % 16;
      DivMod16(p + v / 16, v % 16);
      assert v / 16 < p;
      LeadingOne(v / 16, m - 1);
      assert ToBase16(n) == ToBase16(p + v / 16) + [HexDigit(v % 16)];
    }
  }

  /** Padding splits across a product: the high digits of a * 16^n + b are
      those of a, the low n digits those of b. */
  lemma {:induction false} FixedConcat(a: nat, b: nat, m: nat, n: nat)
    requires b < Pow16(n)
    ensures Fixed(a * Pow16(n) + b, m + n) == Fixed(a, m) + Fixed(b, n)
  {
    if n == 0 {
      assert b == 0;
    } else {
      var p := Pow16(n - 1);
      assert a * Pow16(n) == 16 * (a * p);
      var x := a * Pow16(n) + b;
      assert x == 16 * (a * p + b / 16) + b % 16;
      DivMod16(a * p + b / 16, b % 16);
      assert b / 16 < p;
      FixedConcat(a, b / 16, m, n - 1);
      assert Fixed(x, m + n) == Fixed(a * p + b / 16, m + n - 1) + [HexDigit(b % 16)];
    }
  }

  lemma FixedPair(x: Channel)
    ensures Fixed(x, 2) == HexPair(x)
  {
    assert x / 16 < 16;
    assert Fixed(x / 16, 1) == Fixed(x / 16 / 16, 0) + [HexDigit(x / 16 % 16)];
  }

  lemma Pow16Values()
    ensures Pow16(2) == 0x100 && Pow16(4) == 0x1_0000 && Pow16(6) == 0x100_0000
  {
    assert Pow16(2) == 0x100;
    assert Pow16(4) == 0x1_0000 by { assert Pow16(3) == 0x1000; }
    assert Pow16(6) == 0x100_0000 by { assert Pow16(5) == 0x10_0000; }
  }

  lemma PackedDigits(r: Channel, g: Channel, b: Channel)
    ensures var packed := 0x100_0000 + r * 0x1_0000 + g * 0x100 + b;
      ToBase16(packed)[1..] == HexPair(r) + HexPair(g) + HexPair(b)
  {
    Pow16Values();
    var low := g * Pow16(2) + b;
    var v := r * Pow16(4) + low;
    assert low < Pow16(4);
    assert v < Pow16(6);
    assert Pow16(6) + v == 0x100_0000 + r * 0x1_0000 + g * 0x100 + b;
    LeadingOne(v, 6);
    assert Fixed(low, 4) == HexPair(g) + HexPair(b) by {
      FixedConcat(g, b, 2, 2);
      FixedPair(g);
      FixedPair(b);
    }
    assert Fixed(v, 6) == HexPair(r) + (HexPair(g) + HexPair(b)) by {
      FixedConcat(r, low, 2, 4);
      FixedPair(r);
    }
  }

  // ----- Properties of the codec -----

  /** `rgbToHex` always yields `#` and six lowercase hex digits. */
  lemma RgbToHexShape(r: Channel, g: Channel, b: Channel)
    ensures var hex := RgbToHex(r, g, b);
      && |hex| == 7 && hex[0] == '#'
      && forall i :: 1 <= i < 7 ==> IsHexDigit(hex[i]) && !('A' <= hex[i] <= 'F')
  {
  }

  /** Every colour survives `hexToRgb(rgbToHex(c))` unchanged. */
  lemma RoundTrip(r: Channel, g: Channel, b: Channel)
    ensures HexToRgb(RgbToHex(r, g, b)) == Some(Rgb(r, g, b))
  {
  }

  lemma HexDigitOfValue(ch: char)
    requires IsHexDigit(ch)
    ensures HexDigit(DigitValue(ch)) == LowerDigit(ch)
  {
  }

  lemma PairDigits(hi: char, lo: char)
    requires IsHexDigit(hi) && IsHexDigit(lo)
    ensures HexPair(PairValue(hi, lo)) == [LowerDigit(hi), LowerDigit(lo)]
  {
    DivMod16(DigitValue(hi), DigitValue(lo));
    HexDigitOfValue(hi);
    HexDigitOfValue(lo);
  }

  /** Six accepted digits, read as three pairs and written back, come out
      lowercased, one pair per channel. */
  lemma CanonicalDigits(d: string)
    requires |d| == 6 && AllHexDigits(d)
    ensures RgbToHex(PairValue(d[0], d[1]), PairValue(d[2], d[3]), PairValue(d[4], d[5]))
      == "#" + LowerDigits(d)
  {
    PairDigits(d[0], d[1]);
    PairDigits(d[2], d[3]);
    PairDigits(d[4], d[5]);
    assert LowerDigits(d) == [LowerDigit(d[0]), LowerDigit(d[1]), LowerDigit(d[2]),
                              LowerDigit(d[3]), LowerDigit(d[4]), LowerDigit(d[5])];
  }

  /** The other direction of the round trip: parsing an accepted string and
      writing it back gives its six digits in lowercase, after one `#`. */
  lemma Canonical(hex: string)
    requires MatchesHexPattern(hex)
    ensures HexToRgb(hex).Some?
    ensures var c := HexToRgb(hex).value;
      RgbToHex(c.r, c.g, c.b) == "#" + LowerDigits(hex[|hex| - 6..])
  {
    var d := hex[|hex| - 6..];
    assert AllHexDigits(d);
    assert HexToRgb(hex).value == Rgb(PairValue(d[0], d[1]), PairValue(d[2], d[3]), PairValue(d[4], d[5]));
    CanonicalDigits(d);
  }
}
