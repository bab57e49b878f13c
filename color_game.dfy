/**
 * The colour-matching game's session: the difficulty mode, the palette, the
 * target colour and what the handlers write to the page (the message text,
 * the header's background, the New-Colors button's label and each square's
 * inline background and display style).
 */
module ColorGame {
  import opened RgbText
  import opened Draws

  datatype Mode = Easy | Hard | ExtraHard

  /** The palette size each mode's handler generates. */
  function PaletteSize(m: Mode): nat {
    match m
    case Easy => 3
    case Hard => 6
    case ExtraHard => 9
  }

  /** One square's inline style: its background colour text and its display value ("" when unset). */
  datatype Square = Square(background: string, display: string)

  /** The page holds nine squares. */
  const SquareCount := 9

  /** The background a wrongly guessed square is given. */
  const DefaultColor := "#232323"

  /** JavaScript truthiness of colors[i]: the entry exists and is not the empty string. */
  predicate Present(colors: seq<string>, i: nat) {
    i < |colors| && colors[i] != ""
  }

  /** Every entry of a generated palette is truthy, and nothing past its end is. */
  lemma PresentIffInPalette(num: nat, rolls: seq<Roll>, i: nat)
    requires |rolls| >= 3 * num
    requires forall j :: 0 <= j < |rolls| ==> InUnit(rolls[j])
    ensures Present(Palette(num, rolls), i) <==> i < num
  {
    if i < num {
      PaletteAt(num, rolls, i);
      RgbStringShape(DrawnRgb(rolls, i));
    }
  }

  class Game {
    var mode: Mode
    var colors: seq<string>
    var pickedColor: string
    var tempColor: nat
    var message: string
    var header: string
    var buttonText: string
    const squares: array<Square>

    /** The index pickedColor was taken from. */
    ghost var target: nat

    /**
     * The session invariant: the palette size matches the mode, the target
     * is a palette entry, every square that has a palette colour is shown,
     * and in easy mode the squares past the palette are hidden.
     */
    ghost predicate Valid()
      reads this, squares
    {
      && squares.Length == SquareCount
      && |colors| == PaletteSize(mode)
      && target < |colors|
      && pickedColor == colors[target]
      && (forall i :: 0 <= i < |colors| ==> squares[i].display == "block")
      && (mode == Easy ==> forall i :: |colors| <= i < squares.Length ==> squares[i].display == "None")
    }

    /** Every square shows the target colour, as after a correct guess. */
    ghost predicate Won()
      reads this, squares
    {
      forall j :: 0 <= j < squares.Length ==> squares[j].background == pickedColor
    }

    /**
     * Start-up: a six-colour palette, its target, mode "hard", and squares
     * 0..5 painted and shown. The page gives the squares' prior styles and
     * the initial texts.
     */
    constructor Init(page: seq<Square>, message0: string, header0: string, button0: string, rolls: seq<Roll>)
      requires |page| == SquareCount
      requires Supplies(rolls, 6)
      ensures Valid() && fresh(squares) && pickedColor in colors
      ensures mode == Hard && colors == Palette(6, rolls)
      ensures pickedColor == colors[PickColor(6, rolls[18])]
      ensures tempColor == 0
      ensures message == message0 && header == header0 && buttonText == button0
      ensures forall i :: 0 <= i < squares.Length ==>
        squares[i] == if i < 6 then Square(colors[i], "block") else page[i]
    {
      var cs := GenerateColors(6, rolls);
      colors := cs;
      squares := new Square[SquareCount](j requires 0 <= j < SquareCount => page[j]);
      var k := PickColor(|cs|, rolls[3 * |cs|]);
      pickedColor := cs[k];
      tempColor := 0;
      mode := Hard;
      message, header, buttonText := message0, header0, button0;
      target := k;
      new;
      var i := 0;
      while i < squares.Length
        invariant 0 <= i <= squares.Length
        invariant forall j :: 0 <= j < i ==> squares[j] == if j < 6 then Square(colors[j], "block") else page[j]
        invariant forall j :: i <= j < squares.Length ==> squares[j] == page[j]
        modifies squares
      {
        PresentIffInPalette(|colors|, rolls, i);
        if Present(colors, i) {
          squares[i] := squares[i].(background := colors[i], display := "block");
        }
        i := i + 1;
      }
    }

    /** colors = generatecolors(num); pickedColor = colors[pickColor()]. */
    method Deal(num: nat, rolls: seq<Roll>) returns (k: nat)
      requires 0 < num && Supplies(rolls, num)
      modifies this`colors, this`pickedColor, this`target
      ensures colors == Palette(num, rolls)
      ensures k == PickColor(num, rolls[3 * num]) && k < num
      ensures target == k && pickedColor == colors[k]
    {
      colors := GenerateColors(num, rolls);
      k := PickColor(|colors|, rolls[3 * |colors|]);
      pickedColor := colors[k];
      target := k;
    }

    /**
     * The easy button: when the mode changes, a three-colour palette and a
     * new target; squares 0..2 repainted (their display left as it was),
     * squares 3..8 hidden.
     */
    method ClickEasy(rolls: seq<Roll>)
      requires Valid() && Supplies(rolls, 3)
      modifies this, squares
      ensures Valid() && pickedColor in colors && mode == Easy
      ensures message == old(message) && header == old(header) && buttonText == old(buttonText)
      ensures tempColor == old(tempColor)
      ensures old(mode) == Easy ==> unchanged(this, squares)
      ensures old(mode) != Easy ==>
        && colors == Palette(3, rolls)
        && pickedColor == colors[PickColor(3, rolls[9])]
        && forall i :: 0 <= i < squares.Length ==>
             squares[i] == if i < 3 then old(squares[i]).(background := colors[i])
                           else old(squares[i]).(display := "None")
    {
      if mode != Easy {
        mode := Easy;
        var k := Deal(3, rolls);
        var i := 0;
        while i < squares.Length
          invariant 0 <= i <= squares.Length
          invariant forall j :: 0 <= j < i ==>
            squares[j] == if j < 3 then old(squares[j]).(background := colors[j])
                          else old(squares[j]).(display := "None")
          invariant forall j :: i <= j < squares.Length ==> squares[j] == old(squares[j])
          modifies squares
        {
          PresentIffInPalette(|colors|, rolls, i);
          if Present(colors, i) {
            squares[i] := squares[i].(background := colors[i]);
          } else {
            squares[i] := squares[i].(display := "None");
          }
          i := i + 1;
        }
      }
    }

    /**
     * The hard button: when the mode changes, a six-colour palette and a new
     * target; squares 0..5 repainted and shown, squares 6..8 hidden.
     */
    method ClickHard(rolls: seq<Roll>)
      requires Valid() && Supplies(rolls, 6)
      modifies this, squares
      ensures Valid() && pickedColor in colors && mode == Hard
      ensures message == old(message) && header == old(header) && buttonText == old(buttonText)
      ensures tempColor == old(tempColor)
      ensures old(mode) == Hard ==> unchanged(this, squares)
      ensures old(mode) != Hard ==>
        && colors == Palette(6, rolls)
        && pickedColor == colors[PickColor(6, rolls[18])]
        && forall i :: 0 <= i < squares.Length ==>
             squares[i] == if i < 6 then Square(colors[i], "block")
                           else old(squares[i]).(display := "None")
    {
      if mode != Hard {
        mode := Hard;
        var k := Deal(6, rolls);
        var i := 0;
        while i < squares.Length
          invariant 0 <= i <= squares.Length
          invariant forall j :: 0 <= j < i ==>
            squares[j] == if j < 6 then Square(colors[j], "block")
                          else old(squares[j]).(display := "None")
          invariant forall j :: i <= j < squares.Length ==> squares[j] == old(squares[j])
          modifies squares
        {
          PresentIffInPalette(|colors|, rolls, i);
          if Present(colors, i) {
            squares[i] := squares[i].(background := colors[i], display := "block");
          } else {
            squares[i] := squares[i].(display := "None");
          }
          i := i + 1;
        }
      }
    }

    /**
     * The extra-hard button: when the mode changes, a nine-colour palette and
     * a new target; every square repainted from the palette and shown.
     */
    method ClickExtraHard(rolls: seq<Roll>)
      requires Valid() && Supplies(rolls, 9)
      modifies this, squares
      ensures Valid() && pickedColor in colors && mode == ExtraHard
      ensures message == old(message) && header == old(header) && buttonText == old(buttonText)
      ensures tempColor == old(tempColor)
      ensures old(mode) == ExtraHard ==> unchanged(this, squares)
      ensures old(mode) != ExtraHard ==>
        && colors == Palette(9, rolls)
        && pickedColor == colors[PickColor(9, rolls[27])]
        && forall i :: 0 <= i < squares.Length ==> squares[i] == Square(colors[i], "block")
    {
      if mode != ExtraHard {
        mode := ExtraHard;
        var k := Deal(9, rolls);
        var i := 0;
        while i < squares.Length
          invariant 0 <= i <= squares.Length
          invariant forall j :: 0 <= j < i ==> squares[j] == Square(colors[j], "block")
          invariant forall j :: i <= j < squares.Length ==> squares[j] == old(squares[j])
          modifies squares
        {
          squares[i] := squares[i].(background := colors[i], display := "block");
          i := i + 1;
        }
      }
    }

    /**
     * reset_all(num): a fresh palette of num colours painted onto squares
     * 0..num-1 (display untouched), a new target recorded in temp_color, and
     * the texts and header put back to their neutral values. The mode is kept.
     */
    method ResetAll(num: nat, rolls: seq<Roll>)
      requires Valid() && 0 < num <= squares.Length && Supplies(rolls, num)
      modifies this, squares
      ensures num == PaletteSize(mode) ==> Valid() && pickedColor in colors
      ensures mode == old(mode)
      ensures colors == Palette(num, rolls)
      ensures tempColor == PickColor(num, rolls[3 * num]) && pickedColor == colors[tempColor]
      ensures message == "Pick a Color" && header == "steelblue" && buttonText == "New Colors"
      ensures forall i :: 0 <= i < squares.Length ==>
        squares[i] == if i < num then old(squares[i]).(background := colors[i]) else old(squares[i])
    {
      colors := GenerateColors(num, rolls);
      var i := 0;
      while i < |colors|
        invariant 0 <= i <= |colors|
        invariant forall j :: 0 <= j < i ==> squares[j] == old(squares[j]).(background := colors[j])
        invariant forall j :: i <= j < squares.Length ==> squares[j] == old(squares[j])
        modifies squares
      {
        squares[i] := squares[i].(background := colors[i]);
        i := i + 1;
      }
      tempColor := PickColor(|colors|, rolls[3 * |colors|]);
      pickedColor := colors[tempColor];
      target := tempColor;
      header := "steelblue";
      buttonText := "New Colors";
      message := "Pick a Color";
    }

    /** The New-Colors button: reset_all with the current mode's palette size. */
    method ClickNewColors(rolls: seq<Roll>)
      requires Valid() && Supplies(rolls, PaletteSize(mode))
      modifies this, squares
      ensures Valid() && pickedColor in colors
      ensures mode == old(mode)
      ensures colors == Palette(PaletteSize(mode), rolls)
      ensures tempColor == PickColor(|colors|, rolls[3 * |colors|]) && pickedColor == colors[tempColor]
      ensures message == "Pick a Color" && header == "steelblue" && buttonText == "New Colors"
      ensures forall i :: 0 <= i < squares.Length ==>
        squares[i] == if i < |colors| then old(squares[i]).(background := colors[i]) else old(squares[i])
    {
      if mode == Hard {
        ResetAll(6, rolls);
      } else if mode == Easy {
        ResetAll(3, rolls);
      } else {
        ResetAll(9, rolls);
      }
    }

    /** changecolors(color): every square's background and the header become color. */
    method ChangeColors(color: string)
      modifies this`header, squares
      ensures header == color
      ensures forall j :: 0 <= j < squares.Length ==> squares[j] == old(squares[j]).(background := color)
    {
      var i := 0;
      while i < squares.Length
        invariant 0 <= i <= squares.Length
        invariant forall j :: 0 <= j < i ==> squares[j] == old(squares[j]).(background := color)
        invariant forall j :: i <= j < squares.Length ==> squares[j] == old(squares[j])
        modifies squares
      {
        squares[i] := squares[i].(background := color);
        i := i + 1;
      }
      header := color;
    }

    /**
     * A click on square i. When its background text equals pickedColor
     * exactly, the guess is correct: message "Correct", every square and the
     * header take the target colour, the button reads "Play Again?".
     * Otherwise only the message ("Try Again") and that square's background
     * (DefaultColor) change. Once won, every later click is correct again.
     */
    method ClickSquare(i: nat)
      requires Valid() && i < squares.Length
      modifies this, squares
      ensures Valid() && pickedColor in colors
      ensures mode == old(mode) && colors == old(colors) && pickedColor == old(pickedColor)
      ensures tempColor == old(tempColor) && target == old(target)
      ensures old(squares[i].background) == pickedColor ==>
        && message == "Correct" && buttonText == "Play Again?" && header == pickedColor
        && forall j :: 0 <= j < squares.Length ==> squares[j] == old(squares[j]).(background := pickedColor)
      ensures old(squares[i].background) != pickedColor ==>
        && message == "Try Again" && header == old(header) && buttonText == old(buttonText)
        && squares[i] == old(squares[i]).(background := DefaultColor)
        && forall j :: 0 <= j < squares.Length && j != i ==> squares[j] == old(squares[j])
      ensures message == "Correct" || message == "Try Again"
      ensures old(Won()) ==> message == "Correct"
      ensures message == "Correct" ==> Won()
    {
      var clicked := squares[i].background;
      if clicked == pickedColor {
        message := "Correct";
        ChangeColors(pickedColor);
        buttonText := "Play Again?";
      } else {
        message := "Try Again";
        squares[i] := squares[i].(background := DefaultColor);
      }
    }

    /**
     * A fresh round (the New-Colors button) followed by a click on square i
     * of the new palette: the guess is correct exactly when that square's
     * drawn channel triple equals the target's, so the string test on the
     * square's background is a test on colours.
     */
    method NewRoundThenClick(rolls: seq<Roll>, i: nat)
      requires Valid() && Supplies(rolls, PaletteSize(mode)) && i < PaletteSize(mode)
      modifies this, squares
      ensures Valid() && mode == old(mode) && tempColor < PaletteSize(mode)
      ensures message == "Correct" <==> DrawnRgb(rolls, i) == DrawnRgb(rolls, tempColor)
    {
      ClickNewColors(rolls);
      ghost var n := PaletteSize(mode);
      assert squares[i].background == colors[i];
      PaletteMatchIffTriples(n, rolls, i, tempColor);
      ClickSquare(i);
    }
  }
}
