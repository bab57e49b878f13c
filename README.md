# Colour-matching game: session model

This project models the session logic of the colour-matching game in
`Projects/ColorGame/app.js`. The game shows a palette of random
`"rgb(R, G, B)"` colours on a grid of nine squares and names a target colour.
The player clicks squares until one matches the target. Three mode buttons
set the palette size: easy has 3 colours, hard 6, extra hard 9. A New-Colors
button deals a fresh round.

The model has three modules, one per layer of the script:

- `RgbText` (`rgb_text.dfy`) is the string form `randomColor` builds. `Decimal`
  is the decimal text of a number. For the channel values 0..255 it is applied
  to, that is JavaScript's number-to-text conversion (the two agree for every
  integer up to 2^53). `RgbString` is the concatenation
  `"rgb(" + r + ", " + g + ", " + b + ")"`.
  The main result is that this serialisation is injective. So the exact
  string test a square click makes agrees with comparing channel triples.
- `Draws` (`draws.dfy`) models the random draws: `randomColor`,
  `generatecolors` (a method with the source's push loop) and `pickColor`.
  Each `Math.random()` result is an input: an exact fraction `num/den` in
  [0, 1), taken in call order from a sequence `rolls`. A palette of `n`
  colours uses `rolls[0..3n)` (red, green, blue per colour) and the
  `pickColor` that follows uses `rolls[3n]`. `Math.floor(u * n)` is computed
  exactly on the fraction (`Scale`). That is how the bounds are proved: every
  channel is in [0, 255] and every picked index is below the palette length.
- `ColorGame` (`color_game.dfy`) holds a class `Game` with the script's
  globals as fields: `mode`, `colors`, `pickedColor`, `tempColor`. It also has
  what the handlers write to the page: the message text, the header's
  background, the New-Colors button's label, and an `array` of the nine
  squares' inline `background` and `display` styles, stored as the literal
  strings the script writes. Each handler is a method with a `modifies`
  clause. Its postcondition gives the whole new state in terms of the old
  state and the draws. `Valid()` is the session invariant every handler
  keeps:
  - the palette size matches the mode;
  - `pickedColor` is `colors[target]` for an index `target` inside the palette;
  - every square that has a palette colour has display `"block"`;
  - in easy mode, squares 3..8 have display `"None"`.

The page's HTML is not part of this model. The squares' styles before the
script runs and the initial message, header and button texts are
constructor inputs. The number of squares is fixed at nine. The extra-hard
branch paints every square from `colors[i]` of a nine-colour palette, so there
are at most nine. `reset_all(9)` writes `squares[i]` for every palette entry,
so there are at least nine.

Four behaviours of the script that are easy to assume otherwise:
- A mode switch does not reset the message text.
- A click returns no result. The outcome is visible only in the message
  ("Correct" or "Try Again").
- The easy handler repaints squares 0..2 but does not set their display.
  They keep the `"block"` every earlier state gave them.
- At start-up nothing hides squares 6..8. Their display is whatever the page
  had.

## Model

| member | source | states |
|---|---|---|
| RgbText.Decimal | Projects/ColorGame/app.js:161 | a channel's text is a non-empty run of decimal digits with no leading zero |
| RgbText.DecimalRoundTrip | Projects/ColorGame/app.js:161 | reading a channel's decimal text back as a number gives the channel value |
| RgbText.DecimalInjective | Projects/ColorGame/app.js:161 | two numbers have the same decimal text exactly when they are equal |
| RgbText.RgbString | Projects/ColorGame/app.js:161 | the concatenation "rgb(" + r + ", " + g + ", " + b + ")" with each channel written in decimal; its injectivity and shape are stated by RgbStringInjective and RgbStringShape |
| RgbText.RgbStringInjective | Projects/ColorGame/app.js:161 | two colours serialise to the same "rgb(R, G, B)" string if and only if their channel triples are equal |
| RgbText.RgbStringShape | Projects/ColorGame/app.js:161 | a serialised colour starts with "rgb(", ends with ")" and is at least 12 characters long, so it is truthy |
| Draws.Scale | Projects/ColorGame/app.js:141 | Math.floor(u * n) for u in [0, 1): the result k satisfies k <= u * n < k + 1, and k < n when n > 0 |
| Draws.Channel | Projects/ColorGame/app.js:158-160 | one channel draw, Math.floor(Math.random() * 256): Scale at 256, a value in [0, 255] by its result type |
| Draws.RandomColor | Projects/ColorGame/app.js:156-162 | randomColor given its three draws: the "rgb(R, G, B)" string of the three floored channels |
| Draws.RandomColorInjective | Projects/ColorGame/app.js:156-162 | randomColor gives equal strings for two sets of draws if and only if the floored red, green and blue channels are equal |
| Draws.Palette | Projects/ColorGame/app.js:144-154 | reference definition of generatecolors(num): num randomColor results appended in draw order; its result has exactly num entries |
| Draws.PaletteAt | Projects/ColorGame/app.js:144-162 | the k-th entry generatecolors returns is the "rgb(R, G, B)" string of the k-th drawn channel triple, each channel in [0, 255] |
| Draws.PaletteMatchIffTriples | Projects/ColorGame/app.js:113 | two palette entries are equal strings if and only if their channel triples are equal, so the `===` guess test compares triples |
| Draws.GenerateColors | Projects/ColorGame/app.js:144-154 | the push loop returns exactly num entries, equal to the palette the draws determine |
| Draws.PickColor | Projects/ColorGame/app.js:139-142 | the picked index is below the palette length whenever the palette is non-empty |
| ColorGame.PaletteSize | Projects/ColorGame/app.js:88-99 | the palette size each mode deals: easy 3, hard 6, extra hard 9 (also the sizes at lines 25, 50 and 75) |
| ColorGame.Present | Projects/ColorGame/app.js:30 | JavaScript truthiness of colors[i] (also at lines 55 and 105): the index is inside the array and the entry is not the empty string |
| ColorGame.PresentIffInPalette | Projects/ColorGame/app.js:105 | the truthiness test colors[i] holds exactly for the indices inside a generated palette |
| ColorGame.Game.Valid | Projects/ColorGame/app.js:1-16 | the session invariant every handler keeps: nine squares, palette size matching the mode, pickedColor the palette entry at an index inside the palette, squares with a palette colour shown, and in easy mode squares 3..8 hidden |
| ColorGame.Game.Init | Projects/ColorGame/app.js:1-16 | start-up (globals at lines 1-16 and the first-paint loop at lines 102-109): mode hard, a 6-colour palette, pickedColor a palette entry, temp_color 0, squares 0..5 painted and shown, squares 6..8 and the texts as the page had them |
| ColorGame.Game.Deal | Projects/ColorGame/app.js:25-26 | a mode switch's palette has the mode's size and pickedColor is the entry at the picked index (the same two statements at lines 50-51 and 75-76, for ClickHard and ClickExtraHard) |
| ColorGame.Game.ClickEasy | Projects/ColorGame/app.js:18-41 | nothing changes if already easy; otherwise mode easy, 3 fresh colours, target in palette, squares 0..2 repainted with display kept, squares 3..8 hidden; message, header and button untouched |
| ColorGame.Game.ClickHard | Projects/ColorGame/app.js:43-66 | nothing changes if already hard; otherwise mode hard, 6 fresh colours, target in palette, squares 0..5 repainted and shown, squares 6..8 hidden; message, header and button untouched |
| ColorGame.Game.ClickExtraHard | Projects/ColorGame/app.js:68-84 | nothing changes if already extra hard; otherwise mode extra hard, 9 fresh colours, target in palette, every square repainted and shown; message, header and button untouched |
| ColorGame.Game.ResetAll | Projects/ColorGame/app.js:164-177 | mode kept; num fresh colours; only squares 0..num-1 repainted, display untouched; temp_color is the picked index and pickedColor that entry; header "steelblue", button "New Colors", message "Pick a Color"; the invariant holds again when num is the mode's size |
| ColorGame.Game.ClickNewColors | Projects/ColorGame/app.js:87-100 | reset with the mode's palette size (hard 6, easy 3, otherwise 9): invariant kept, pickedColor in the new palette, mode unchanged |
| ColorGame.Game.ChangeColors | Projects/ColorGame/app.js:130-137 | every square's background and the header become the given colour; displays and everything else untouched |
| ColorGame.Game.ClickSquare | Projects/ColorGame/app.js:111-126 | a clicked background equal to pickedColor gives "Correct", all squares and the header set to pickedColor and button "Play Again?"; otherwise "Try Again" and only that square set to "#232323"; mode, palette and target never change; after a win every later click is correct again |
| ColorGame.Game.NewRoundThenClick | Projects/ColorGame/app.js:113 | after New Colors, a click on square i of the new palette is "Correct" if and only if that square's drawn channel triple equals the target's |

## Left out

- `Math.random()` itself: each result is an input fraction in [0, 1). The
  floating-point rounding of `Math.random() * n` is not modelled. The product
  is computed exactly before flooring.
- The DOM lookups (`querySelector`, `querySelectorAll`), `addEventListener`
  registration, and the unused `exsquares` lookup (line 4).
- The `classList` "selected" toggling on the mode buttons (lines 22-24, 47-49,
  72-74), and the `rgbdisplay.textContent` updates (lines 27, 52, 77, 86, 173).
  These are display only and change none of the modelled state.
- The browser rewrites a CSS colour it reads back (for example "#232323" as
  "rgb(35, 35, 35)"). The model keeps the stored string literally.
- ColorGame.Game.ClickSquare: does not require the clicked square to be
  visible. In the browser a hidden square cannot be clicked, and the handler
  itself does not check.
- ColorGame.Game.ResetAll: requires 0 < num <= 9. The source calls it only
  with 3, 6 or 9. With num = 0 it would leave pickedColor undefined.
- The click handlers return nothing. A click's result is modelled as the
  message it writes, not as a returned value.
- The to-do list script (`Projects/TodolistProject/assets/js/app.js`) is not
  part of this model. It only binds jQuery DOM and animation events.
- The Patatap sketch (`Projects/Patatap Clone/Assets/JS/myPaper.js`) is not
  part of this model.
