/**
 * The game's random draws: randomColor, generatecolors and pickColor.
 *
 * Each value Math.random() returns is taken as an input, written as an exact
 * fraction num/den in [0, 1). A palette of num colours consumes 3 * num such
 * values in call order (red, green, blue for each colour), and the following
 * pickColor call consumes one more.
 */
module Draws {
  import opened RgbText

  /** One result of Math.random(), the fraction num/den. */
  datatype Roll = Roll(num: nat, den: nat)

  /** Math.random() returns a value in [0, 1). */
  predicate InUnit(u: Roll) {
    u.num < u.den
  }

  /** A supply of Math.random() results large enough for a palette of n colours and the pick after it. */
  predicate Supplies(rolls: seq<Roll>, n: nat) {
    |rolls| >= 3 * n + 1 && forall j :: 0 <= j < |rolls| ==> InUnit(rolls[j])
  }

  lemma MulMono(a: int, b: int, c: nat)
    requires a <= b
    ensures a * c <= b * c
  {
    assert b * c == a * c + (b - a) * c;
  }

  lemma MulStrictMono(a: int, b: int, c: nat)
    requires a < b && c > 0
    ensures a * c < b * c
  {
    MulMono(1, b - a, c);
    assert b * c == a * c + (b - a) * c;
  }

  lemma MulCancel(a: int, b: int, c: nat)
    requires a * c < b * c
    ensures a < b
  {
    if a >= b {
      MulMono(b, a, c);
    }
  }

  /** k = num * n / den is the floor of the product (num / den) * n, and for n > 0 it is below n. */
  lemma FloorBounds(num: nat, den: nat, n: nat, k: nat)
    requires num < den && k == num * n / den
    ensures k * den <= num * n < (k + 1) * den
    ensures n > 0 ==> k < n
  {
    var x := num * n;
    assert x == k * den + x % den && 0 <= x % den < den;
    assert (k + 1) * den == k * den + den;
    if n > 0 {
      MulStrictMono(num, den, n);
      assert num * n < n * den;
      MulCancel(k, n, den);
    }
  }

  /**
   * Math.floor(u * n): the largest k with k <= u * n, computed on the exact
   * fraction. For n > 0 it is an index below n.
   */
  function Scale(u: Roll, n: nat): (k: nat)
    requires InUnit(u)
    ensures k * u.den <= u.num * n < (k + 1) * u.den
    ensures n > 0 ==> k < n
  {
    FloorBounds(u.num, u.den, n, u.num * n / u.den);
    u.num * n / u.den
  }

  /** One channel: Math.floor(Math.random() * 256). */
  function Channel(u: Roll): (c: Byte)
    requires InUnit(u)
  {
    Scale(u, 256)
  }

  /** randomColor(), given the three Math.random() results it draws. */
  function RandomColor(r: Roll, g: Roll, b: Roll): string
    requires InUnit(r) && InUnit(g) && InUnit(b)
  {
    RgbString(Rgb(Channel(r), Channel(g), Channel(b)))
  }

  /**
   * randomColor() gives the same string for two sets of draws exactly when
   * the three channels they floor to agree.
   */
  lemma RandomColorInjective(r1: Roll, g1: Roll, b1: Roll, r2: Roll, g2: Roll, b2: Roll)
    requires InUnit(r1) && InUnit(g1) && InUnit(b1) && InUnit(r2) && InUnit(g2) && InUnit(b2)
    ensures RandomColor(r1, g1, b1) == RandomColor(r2, g2, b2) <==>
      Channel(r1) == Channel(r2) && Channel(g1) == Channel(g2) && Channel(b1) == Channel(b2)
  {
    RgbStringInjective(Rgb(Channel(r1), Channel(g1), Channel(b1)), Rgb(Channel(r2), Channel(g2), Channel(b2)));
  }

  /** The channel triple of the k-th colour a palette draws from rolls. */
  function DrawnRgb(rolls: seq<Roll>, k: nat): Rgb
    requires 3 * k + 2 < |rolls|
    requires forall j :: 0 <= j < |rolls| ==> InUnit(rolls[j])
  {
    Rgb(Channel(rolls[3 * k]), Channel(rolls[3 * k + 1]), Channel(rolls[3 * k + 2]))
  }

  /**
   * The array generatecolors(num) returns when Math.random() yields rolls:
   * one randomColor() after another, pushed in order.
   */
  function Palette(num: nat, rolls: seq<Roll>): (cs: seq<string>)
    requires |rolls| >= 3 * num
    requires forall j :: 0 <= j < |rolls| ==> InUnit(rolls[j])
    ensures |cs| == num
  {
    if num == 0 then []
    else Palette(num - 1, rolls) + [RandomColor(rolls[3 * (num - 1)], rolls[3 * (num - 1) + 1], rolls[3 * (num - 1) + 2])]
  }

  /**
   * The k-th entry of the palette is the "rgb(R, G, B)" string of the k-th
   * triple drawn, each channel in [0, 255].
   */
  lemma {:induction false} PaletteAt(num: nat, rolls: seq<Roll>, k: nat)
    requires |rolls| >= 3 * num
    requires forall j :: 0 <= j < |rolls| ==> InUnit(rolls[j])
    requires k < num
    ensures Palette(num, rolls)[k] == RgbString(DrawnRgb(rolls, k))
  {
    if k < num - 1 {
      PaletteAt(num - 1, rolls, k);
    }
  }

  /**
   * Two palette entries are the same string exactly when their channel
   * triples are equal, so a `===` test between palette strings is a test on
   * channel triples.
   */
  lemma PaletteMatchIffTriples(num: nat, rolls: seq<Roll>, k: nat, t: nat)
    requires |rolls| >= 3 * num
    requires forall j :: 0 <= j < |rolls| ==> InUnit(rolls[j])
    requires k < num && t < num
    ensures Palette(num, rolls)[k] == Palette(num, rolls)[t] <==> DrawnRgb(rolls, k) == DrawnRgb(rolls, t)
  {
    PaletteAt(num, rolls, k);
    PaletteAt(num, rolls, t);
    RgbStringInjective(DrawnRgb(rolls, k), DrawnRgb(rolls, t));
  }

  /**
   * generatecolors(num): pushes num fresh random colours onto an empty array.
   * The result has exactly num entries, the k-th being the "rgb(R, G, B)"
   * string of the k-th drawn triple (all channels in [0, 255]).
   */
  method GenerateColors(num: nat, rolls: seq<Roll>) returns (arr: seq<string>)
    requires |rolls| >= 3 * num
    requires forall j :: 0 <= j < |rolls| ==> InUnit(rolls[j])
    ensures |arr| == num
    ensures arr == Palette(num, rolls)
  {
    arr := [];
    var i := 0;
    while i < num
      invariant 0 <= i <= num
      invariant arr == Palette(i, rolls)
    {
      arr := arr + [RandomColor(rolls[3 * i], rolls[3 * i + 1], rolls[3 * i + 2])];
      i := i + 1;
    }
  }

  /** pickColor(): Math.floor(Math.random() * colors.length), an index into a non-empty palette. */
  function PickColor(len: nat, u: Roll): (k: nat)
    requires InUnit(u)
    ensures len > 0 ==> k < len
  {
    Scale(u, len)
  }
}
