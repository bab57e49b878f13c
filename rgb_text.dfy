/**
 * The textual colour form the game writes into a square's style and compares
 * guesses against: "rgb(R, G, B)", each channel written as JavaScript writes a
 * small non-negative integer (decimal, no leading zeros).
 */
module RgbText {

  /** A channel value as produced by Math.floor(Math.random() * 256). */
  type Byte = x: int | 0 <= x < 256

  /** A colour as its three channel values. */
  datatype Rgb = Rgb(r: Byte, g: Byte, b: Byte)

  predicate IsDigit(c: char) {
    '0' <= c <= '9'
  }

  predicate AllDigits(s: string) {
    forall k :: 0 <= k < |s| ==> IsDigit(s[k])
  }

  function DigitChar(d: nat): (c: char)
    requires d < 10
    ensures IsDigit(c) && c as int - '0' as int == d
  {
    ('0' as int + d) as char
  }

  /**
   * The decimal text of n. For the channel values 0..255 it is applied to,
   * this is JavaScript's number-to-string conversion (which agrees with it
   * for every integer up to 2^53).
   */
  function Decimal(n: nat): (s: string)
    ensures |s| > 0 && AllDigits(s)
    ensures |s| > 1 ==> s[0] != '0'
    decreases n
  {
    if n < 10 then [DigitChar(n)] else Decimal(n / 10) + [DigitChar(n % 10)]
  }

  /** The number a string of decimal digits denotes; the reading partner of Decimal. */
  function DecimalValue(s: string): nat
    requires AllDigits(s)
  {
    if s == [] then 0
    else DecimalValue(s[..|s| - 1]) * 10 + (s[|s| - 1] as int - '0' as int)
  }

  lemma {:induction false} DecimalRoundTrip(n: nat)
    ensures DecimalValue(Decimal(n)) == n
    decreases n
  {
    if n >= 10 {
      var s := Decimal(n);
      assert s[..|s| - 1] == Decimal(n / 10);
      DecimalRoundTrip(n / 10);
    }
  }

  lemma DecimalInjective(m: nat, n: nat)
    ensures Decimal(m) == Decimal(n) <==> m == n
  {
    DecimalRoundTrip(m);
    DecimalRoundTrip(n);
  }

  /** The string randomColor builds: "rgb(" + r + ", " + g + ", " + b + ")". */
  function RgbString(c: Rgb): string {
    "rgb(" + Decimal(c.r) + ", " + Decimal(c.g) + ", " + Decimal(c.b) + ")"
  }

  /** In a digit run followed by a non-digit, position |d| is the first non-digit. */
  lemma FirstNonDigit(d: string, t: string)
    requires AllDigits(d) && |t| > 0 && !IsDigit(t[0])
    ensures forall k :: 0 <= k < |d| ==> IsDigit((d + t)[k])
    ensures !IsDigit((d + t)[|d|])
  {
  }

  /**
   * A run of digits followed by a non-digit is determined by the text it
   * stands in: the digit run ends exactly where the first non-digit begins.
   */
  lemma SplitAtNonDigit(d1: string, t1: string, d2: string, t2: string)
    requires AllDigits(d1) && AllDigits(d2)
    requires |t1| > 0 && |t2| > 0 && !IsDigit(t1[0]) && !IsDigit(t2[0])
    requires d1 + t1 == d2 + t2
    ensures d1 == d2 && t1 == t2
  {
    FirstNonDigit(d1, t1);
    FirstNonDigit(d2, t2);
    assert |d1| == |d2|;
    assert d1 == (d1 + t1)[..|d1|];
    assert d2 == (d2 + t2)[..|d2|];
  }

  lemma DropPrefix(p: string, x: string)
    ensures (p + x)[|p|..] == x
  {
  }

  /** The text after the red channel: ", G, B)". */
  function AfterRed(c: Rgb): string {
    ", " + (Decimal(c.g) + AfterGreen(c))
  }

  /** The text after the green channel: ", B)". */
  function AfterGreen(c: Rgb): string {
    ", " + (Decimal(c.b) + ")")
  }

  lemma RgbStringNested(c: Rgb)
    ensures RgbString(c) == "rgb(" + (Decimal(c.r) + AfterRed(c))
  {
  }

  /**
   * The serialisation is injective: two colours give the same string exactly
   * when their channel triples are equal. So the game's string comparison of
   * a clicked square with the target agrees with comparing channel triples.
   */
  lemma RgbStringInjective(c1: Rgb, c2: Rgb)
    ensures RgbString(c1) == RgbString(c2) <==> c1 == c2
  {
    if RgbString(c1) == RgbString(c2) {
      RgbStringNested(c1);
      RgbStringNested(c2);
      DropPrefix("rgb(", Decimal(c1.r) + AfterRed(c1));
      DropPrefix("rgb(", Decimal(c2.r) + AfterRed(c2));
      SplitAtNonDigit(Decimal(c1.r), AfterRed(c1), Decimal(c2.r), AfterRed(c2));
      DropPrefix(", ", Decimal(c1.g) + AfterGreen(c1));
      DropPrefix(", ", Decimal(c2.g) + AfterGreen(c2));
      SplitAtNonDigit(Decimal(c1.g), AfterGreen(c1), Decimal(c2.g), AfterGreen(c2));
      DropPrefix(", ", Decimal(c1.b) + ")");
      DropPrefix(", ", Decimal(c2.b) + ")");
      SplitAtNonDigit(Decimal(c1.b), ")", Decimal(c2.b), ")");
      DecimalInjective(c1.r, c2.r);
      DecimalInjective(c1.g, c2.g);
      DecimalInjective(c1.b, c2.b);
    }
  }

  /** Every serialised colour is non-empty text, hence truthy in JavaScript. */
  lemma RgbStringShape(c: Rgb)
    ensures |RgbString(c)| >= 12
    ensures RgbString(c)[..4] == "rgb(" && RgbString(c)[|RgbString(c)| - 1] == ')'
  {
  }
}
