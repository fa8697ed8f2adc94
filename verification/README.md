# RoflWords game engine in Dafny

This project models the game-logic engine of RoflWords, a Unity word-search
puzzle. The player drags the pointer across a grid of letter cells. Each cell
has a point price. The selection path spells a word. On release, a word from
the Russian dictionary that was not already claimed in this session adds
`10 × price` per cell to the session score.

The model has seven modules, one file each:

- `Wrappers` (`wrappers.dfy`): `Option` and `Result`.
- `FieldCells` (`field_cells.dfy`): the immutable `FieldCellModel` value and
  its text label, together with a parser that reads the label back.
- `PriceCalculation` (`price_calculation.dfy`): `StatisticCharPriceCalculator`.
  The price roll is a parameter, and the lemmas count the rolls that give
  each price.
- `CharPosibilities` (`char_posibilities.dfy`): `StatisticCharPosibilityCalculator`.
  - It holds the embedded letter-frequency table of 33 Russian letters.
  - The constructor's range-building loop is modelled as the method `Build`.
  - The letter lookup is modelled twice: as the source writes it, and corrected
    (see "## Findings").
- `GameField` (`game_field.dfy`): `RandomByStatisticCharPosibilityFieldCellsGenerator.GenerateField`
  fills a fresh `array2` with nested loops. `GameFieldModel` is a class that
  owns the matrix and its dimensions.
- `WordsChecker` (`words_checker.dfy`):
  - The dictionary is built by splitting the word list on `'\r'`/`'\n'` and
    dropping empty entries.
  - `RussianWordsChecker` is a class with the dictionary and the set of words
    claimed this session.
- `GamePlay` (`game_play.dfy`): `GamePlayModel` is a class holding the
  selection path, the current word and the session score. `Valid()` is its
  invariant:
  - the path never repeats a cell;
  - consecutive cells are 8-directionally adjacent;
  - every path cell is the grid's cell at its own position;
  - the word is the path's letters;
  - the score is never negative.

The source draws random values with `UnityEngine.Random`. In the model each
draw is an explicit parameter:
- a price roll `r`, which the source draws from 1..99;
- a letter index.

`GenerateField` and `CreateRandom` take one `CellDraw(charIndex, priceRoll)`
per cell, as a rows × columns matrix of draws.

A cell entry (the `OnMouseEntered` event in the source) is a direct call to
`GamePlayModel.TryRegister`. The source tests path membership with
`List.Contains`, which is reference equality. Each grid position holds exactly
one cell object and the cell's row and column are part of the value, so
value equality of `FieldCell` identifies the same cells within one grid.

## Model

| member | source | states |
|---|---|---|
| FieldCells.ToString | RoflWordsUnity/Assets/Game/GameFieldCell.cs:96-99 | The label starts with the letter and a space; it is exactly two characters long iff the price is 1. |
| FieldCells.IntToStringRoundTrip | RoflWordsUnity/Assets/Game/GameFieldCell.cs:98 | The decimal rendering of a price, minus sign included, parses back to the same integer. |
| FieldCells.LabelRoundTrip | RoflWordsUnity/Assets/Game/GameFieldCell.cs:96-99 | Parsing a cell's label gives back its letter and its price; an omitted price reads as 1. |
| FieldCells.LabelInjective | RoflWordsUnity/Assets/Game/GameFieldCell.cs:96-99 | Two cells with equal labels have equal letters and equal prices. |
| PriceCalculation.CalculatePrice | RoflWordsUnity/Assets/Game/GameFieldCell.cs:186-200 | Every roll maps to a price in 1..4, with thresholds 85, 90 and 95. |
| PriceCalculation.CountRollsOfPrice | RoflWordsUnity/Assets/Game/GameFieldCell.cs:188-199 | Of the rolls 1..99, price 1 comes from 84 rolls and each of prices 2..4 from 5 rolls. |
| PriceCalculation.PriceDistribution | RoflWordsUnity/Assets/Game/GameFieldCell.cs:188-199 | The full distribution over the 99 possible rolls is 84/5/5/5. |
| CharPosibilities.Ranges | RoflWordsUnity/Assets/Game/GameFieldCell.cs:254-270 | One range per table row. |
| CharPosibilities.Build | RoflWordsUnity/Assets/Game/GameFieldCell.cs:246-271 | The constructor's loop with a running total builds exactly `Ranges(table)`, and its `totalPoses` is the sum of the counts. |
| CharPosibilities.RangesLayout | RoflWordsUnity/Assets/Game/GameFieldCell.cs:262-269 | Range k starts at the sum of the counts before row k, ends `count` later, and carries row k's letter. |
| CharPosibilities.RangeEnd | RoflWordsUnity/Assets/Game/GameFieldCell.cs:262-269 | Range k has row k's letter, width `count`, and ends at the sum of rows 0..k. |
| CharPosibilities.RangesContiguous | RoflWordsUnity/Assets/Game/GameFieldCell.cs:254-270 | The ranges keep table order: the first starts at 0, each starts where the previous one ends, `end - start == count`, and the last ends at `totalPoses`. |
| CharPosibilities.OrderedRanges | RoflWordsUnity/Assets/Game/GameFieldCell.cs:262-269 | For contiguous non-empty ranges, an earlier range ends no later than any later range starts. |
| CharPosibilities.StartsIncrease | RoflWordsUnity/Assets/Game/GameFieldCell.cs:262-269 | With positive counts, the starts strictly increase. |
| CharPosibilities.BuildWellFormed | RoflWordsUnity/Assets/Game/GameFieldCell.cs:246-271 | A non-empty table with positive counts yields a well-formed calculator: a non-empty, contiguous tiling of [0, totalPoses) by non-empty ranges. |
| CharPosibilities.RussianTableShape | RoflWordsUnity/Assets/Game/GameFieldCell.cs:299-334 | The embedded table has 33 rows, all with positive counts. |
| CharPosibilities.RussianPrefixSum | RoflWordsUnity/Assets/Game/GameFieldCell.cs:301-314 | The counts of the rows 'о' to 'п' add up to 401020672. |
| CharPosibilities.GenerateRandomCharAsWritten | RoflWordsUnity/Assets/Game/GameFieldCell.cs:288-293 | The lookup as written, with inclusive range ends and `Single`: a letter it returns belongs to a range whose closed interval holds the index, and it fails with "no match" exactly when no such range exists. `AsWrittenFailsOnSharedBoundary`, `AsWrittenAgreesOffBoundaries` and `AtTotalPoses` say where it differs from the corrected lookup. |
| CharPosibilities.GenerateRandomChar | RoflWordsUnity/Assets/Game/GameFieldCell.cs:288-293 | The corrected lookup, which excludes each range's end: a letter it returns belongs to a range holding the index. `GenerateRandomCharPicks` gives the complete characterisation. |
| CharPosibilities.GenerateRandomCharPicks | RoflWordsUnity/Assets/Game/GameFieldCell.cs:288-293 | For a well-formed calculator, the half-open lookup succeeds iff 0 <= index < totalPoses, and then returns the letter of the range that holds the index. |
| CharPosibilities.AsWrittenFailsOnSharedBoundary | RoflWordsUnity/Assets/Game/GameFieldCell.cs:292 | As written, an index equal to the end of any range but the last matches two ranges, and the lookup throws. |
| CharPosibilities.AsWrittenAgreesOffBoundaries | RoflWordsUnity/Assets/Game/GameFieldCell.cs:292 | Away from every range end, the written lookup and the corrected lookup give the same result. |
| CharPosibilities.AtTotalPoses | RoflWordsUnity/Assets/Game/GameFieldCell.cs:290-292 | At `totalPoses`, the end of the last range, the written lookup returns the last range's letter; the corrected lookup finds no range. For the embedded table the source cannot draw this index, because 505266851 as a single-precision float is 505266848. |
| CharPosibilities.RussianBoundaryCounterexample | RoflWordsUnity/Assets/Game/GameFieldCell.cs:290-292 | With the embedded table, index 401020672 (end of 'п', start of 'у') makes the written lookup throw. |
| GameField.NewCell | RoflWordsUnity/Assets/Game/GameFieldCell.cs:226-230 | A generated cell records its own row and column and has a price in 1..4. |
| GameField.NewCellDraws | RoflWordsUnity/Assets/Game/GameFieldCell.cs:226-230 | A generated cell's letter is the one the letter calculator picks for its index, which is the letter of a range holding it. Its price is the price calculator's price for its roll. |
| GameField.GenerateField | RoflWordsUnity/Assets/Game/GameFieldCell.cs:220-233 | Returns a fresh rows × columns matrix whose cell [i, j] is the cell generated for row i and column j from that cell's draws. |
| GameField.GameFieldModel.constructor | RoflWordsUnity/Assets/Game/GameFieldCell.cs:170-175 | Builds the letter calculator from the embedded table; it is well formed; there is no matrix yet. |
| GameField.GameFieldModel.CreateRandom | RoflWordsUnity/Assets/Game/GameFieldCell.cs:134-144 | Records the new dimensions and replaces the whole matrix with a freshly generated one. |
| GameField.GameFieldModel.GetCellModel | RoflWordsUnity/Assets/Game/GameFieldCell.cs:146-149 | Succeeds iff (i, j) is inside the grid, then returns the cell with I = i and J = j. Outside the grid it is the out-of-range failure. |
| WordsChecker.LeadingRun | RoflWordsUnity/Assets/Game/Game.cs:284 | Measures the longest separator-free prefix: it stops at the first `'\r'` or `'\n'`. |
| WordsChecker.SplitLines | RoflWordsUnity/Assets/Game/Game.cs:284 | `Split` on `'\r'`/`'\n'` with empty entries dropped: every piece is non-empty and contains no line break. `SplitLinesConcat` shows no other character is lost or added, `SplitJoinRoundTrip` shows that joining words with line breaks splits back to the same words, and `SplitAtSeparator` shows that every separator is a break between pieces. |
| WordsChecker.SplitLinesConcat | RoflWordsUnity/Assets/Game/Game.cs:284 | The pieces, concatenated, are the text with its separators removed: no character is lost or invented. |
| WordsChecker.SplitJoinRoundTrip | RoflWordsUnity/Assets/Game/Game.cs:284 | A list of non-empty, separator-free words joined with line breaks splits back to the same list. |
| WordsChecker.SplitAtSeparator | RoflWordsUnity/Assets/Game/Game.cs:284 | Every `'\r'` or `'\n'` is a break: the pieces of `a`, a separator, then `b` are the pieces of `a` followed by those of `b`. Runs of separators such as `"\r\n"` or blank lines therefore add no piece, and with `SplitJoinRoundTrip` of one word this fixes every piece of any text. |
| WordsChecker.DictionaryWords | RoflWordsUnity/Assets/Game/Game.cs:284 | The dictionary never contains the empty word or a word with a line break. |
| WordsChecker.RussianWordsChecker.constructor | RoflWordsUnity/Assets/Game/Game.cs:282-288 | The dictionary is the split word list, and no word is claimed yet. |
| WordsChecker.RussianWordsChecker.WordExistsInLanguage | RoflWordsUnity/Assets/Game/Game.cs:313-316 | True iff the word is in the dictionary; never true for the empty word. |
| WordsChecker.RussianWordsChecker.TryRegisterNewWord | RoflWordsUnity/Assets/Game/Game.cs:295-306 | Claims the word and answers true iff it is in the dictionary and not yet claimed; otherwise the claimed set is unchanged. |
| WordsChecker.RussianWordsChecker.ResetSession | RoflWordsUnity/Assets/Game/Game.cs:308-311 | The claimed set is empty afterwards, whatever it held, so resetting twice is the same as once. |
| WordsChecker.ClaimTwice | RoflWordsUnity/Assets/Game/Game.cs:295-306 | Within one session, a second claim of the same word is always refused. |
| GamePlay.WordOf | RoflWordsUnity/Assets/Game/Game.cs:262 | The word has one letter per path cell, the k-th letter being the k-th cell's. |
| GamePlay.ExtendKeepsSelectionPath | RoflWordsUnity/Assets/Game/Game.cs:214-234 | Entering a cell appends it exactly when it is new and the path is empty or its last cell is adjacent; otherwise the path is unchanged. The result is still a path without repeats and with adjacent neighbours. |
| GamePlay.ExtendSpellsWord | RoflWordsUnity/Assets/Game/Game.cs:258-263 | After an accepted entry, the word gains the cell's letter; otherwise the word is unchanged. |
| GamePlay.PathAppend | RoflWordsUnity/Assets/Game/Game.cs:168-171 | Word and score are additive over a path split in two: the word of `a + b` is the word of `a` followed by that of `b`, and the score of `a + b` is the sum of their scores. |
| GamePlay.PathScore | RoflWordsUnity/Assets/Game/Game.cs:168-171 | The `foreach` sum of `10 × price` over the path. With prices in 1..4, an n-cell path scores between 10n and 40n. |
| GamePlay.PositionsDistinct | RoflWordsUnity/Assets/Game/Game.cs:216 | In a selection path of grid cells, no grid position occurs twice. |
| GamePlay.AdjacencyExample | RoflWordsUnity/Assets/Game/Game.cs:226-232 | From (0, 0), the cell at (2, 2) is refused and the cell at (1, 1) is appended. |
| GamePlay.TracingPaths | RoflWordsUnity/Assets/Game/Game.cs:214-234 | Tracing 'к', 'о', 'т' along row 0 appends each cell in turn. |
| GamePlay.TracingExample | RoflWordsUnity/Assets/Game/Game.cs:163-174 | Those paths spell "к", "ко" and "кот" and score 10, 20 and 30. |
| GamePlay.GamePlayModel.constructor | RoflWordsUnity/Assets/Game/Game.cs:132-142 | Holds the given checker and a new empty field; the path, the word and the score start empty or zero. |
| GamePlay.GamePlayModel.CalculateCurrentWordScore | RoflWordsUnity/Assets/Game/Game.cs:163-174 | No value iff the word is empty. Otherwise the value is the sum of `10 × price` over the path, which is at least 10 per letter and so positive. |
| GamePlay.GamePlayModel.GetCellFieldModel | RoflWordsUnity/Assets/Game/Game.cs:208-211 | The field's cell at (i, j) iff (i, j) is inside the grid. |
| GamePlay.GamePlayModel.AddToCurrentWordNewFieldCell | RoflWordsUnity/Assets/Game/Game.cs:258-263 | Appends the cell to the path and its letter to the word; keeps the invariant; the score is unchanged. |
| GamePlay.GamePlayModel.TryRegister | RoflWordsUnity/Assets/Game/Game.cs:214-234 | The new path follows the no-repeat and adjacency rules. An accepted cell extends the word by its letter. A rejected cell leaves the path and the word unchanged. The score never changes. |
| GamePlay.GamePlayModel.MouseReleased | RoflWordsUnity/Assets/Game/Game.cs:236-256 | A non-empty word that the checker accepts is claimed, and the session score grows by exactly the path's score. Otherwise the score and the claimed set are unchanged. The path and the word always end empty, and the score never decreases. |
| GamePlay.GamePlayModel.ReshuffleAndResetSession | RoflWordsUnity/Assets/Game/Game.cs:192-206 | Generates a new grid and clears the path, the word and the claimed words. The score becomes 0 iff `resetSession`; otherwise it is unchanged. |

## Left out

- The `Game` and `GameFieldCell` MonoBehaviours are not part of this model. They hold Unity UI wiring, layout maths, prefab instantiation, pointer polling and price colours.
- The reshuffle-button wiring is not modelled. It calls `ReshuffleAndResetSession(..., false)` and then `FillGameFieldCellsWithModels`, which calls it again with `true`, so the running app always resets the score. The model covers `ReshuffleAndResetSession` itself.
- Events and notifications are not modelled. This covers `OnMouseEntered`/`OnMouseLeft` forwarding, `SubcribtionOnCells`, and the `OnCurrentWordChanged`/score-change callbacks. A cell entry is a direct call to `TryRegister`.
  - `CreateRandom` overwrites `_rows`/`_columns` before unsubscribing the old cells, so that walk uses the new dimensions on the old matrix. This subscription bookkeeping is not modelled.
- GameField.GameFieldModel.CreateRandom: the contract always promises a fresh matrix. In the source, `CreateRandom` sets `_rows` and `_columns` before its unsubscribe walk (GameFieldCell.cs:136-139), and that walk indexes the old matrix with the new dimensions. When the old matrix is non-empty, both new dimensions are at least 1, and at least one of them exceeds the old one, the walk throws `IndexOutOfRangeException`. For example, `CreateRandom(2, 2)` followed by `CreateRandom(3, 3)` throws at `_allCells[0, 2]`. `CreateRandom(2, 2)` followed by `CreateRandom(3, 0)` does not throw: the inner loop (GameFieldCell.cs:157) never runs, and a 3 × 0 matrix is stored, as the model does. The source is then left with dimensions 3 × 3 and the old 2 × 2 matrix, and the model does not capture this. The game never reaches this path, because `Game` fixes its rows and columns once per instance (Game.cs:39-40) and always passes the same ones.
- GamePlay.GamePlayModel.ReshuffleAndResetSession: the contract always promises a new grid and cleared state. When `CreateRandom` throws as described above, the source leaves this method before it clears the path, the word and the claimed words (Game.cs:194-200). The model does not capture that early exit.
- `UnityEngine.Random` is not modelled. Each draw is a parameter.
  - The float draw `(long)Random.Range(0f, totalPoses)` is lossy for a total of about 5×10⁸. The model takes the letter index as an integer.
  - CharPosibilities.GenerateRandomChar: requires no particular distribution of the index, because the distribution Unity's float generator produces is outside the model.
- Loading from `TextAsset` is not modelled: the dictionary is given as the text of the word list. The constructor of `StatisticCharPosibilityCalculator` splits the embedded table on tabs and uses `long.Parse`; the model takes that table already as a sequence of (letter, count) rows. So malformed lines, which would throw in the source, are not modelled.
- GameField.NewCell: a new cell takes its letter from the corrected lookup `CharPosibilities.GenerateRandomChar`, not from the lookup as written. The same holds for `GameField.GenerateField`, `GameField.GameFieldModel.CreateRandom` and `GamePlay.GamePlayModel.ReshuffleAndResetSession`, which build on it. At a shared range end such as index 401020672, the source's `GenerateField` throws from `Single` (see "## Findings"), but the model generates a cell. The source's throw escapes `CreateRandom` after `_rows` and `_columns` are overwritten. It also escapes `ReshuffleAndResetSession` before the path, the word and the claimed words are cleared. The model does not capture this partial update.
- GamePlay.GamePlayModel.MouseReleased: the session score is an unbounded integer, so 32-bit overflow of the C# `int` is not modelled. With prices at most 4 it would need far more words than a session holds.
- GameField.GameFieldModel.CreateRandom: dimensions are `nat`. Negative dimensions make the .NET array allocation throw, and the model does not represent them.
- GameField.GameFieldModel.constructor: before the first `CreateRandom` the source's `_allCells` is `null`. The model holds a 0 × 0 matrix instead, so `GetCellModel` reports out-of-range where the source would throw a null reference.
- GamePlay.GamePlayModel.constructor: the source's `_currentWord` is `null` before the first change. The model uses `""`, which `string.IsNullOrEmpty` treats the same way.
- PriceCalculation.PriceDistribution: the roll is `Random.Range(1, 100)`, an integer in 1..99. The prices therefore occur with probabilities 84/99, 5/99, 5/99 and 5/99.
- CharPosibilities.BuildWellFormed: the range builder accepts zero and negative counts. Well-formedness is proved only for tables whose counts are all positive, as in the embedded table.
- RoflWordsUnity/Assets/DevelopeSettings/DevelopeSettingsMenu.cs is not part of this model. It persists the grid size, the fade time and the field proportions in player preferences, and it loads the game scene. The only values it passes to the core are the rows and columns.

## Findings

| source | as written | input that shows it | evidently intended | confidence | as-written member | corrected member |
|---|---|---|---|---|---|---|
| RoflWordsUnity/Assets/Game/GameFieldCell.cs:290-292 | `GenerateRandomChar` takes the single entry with `start <= index && index <= end`. Each entry's `end` equals the next entry's `start`, so an index on a shared boundary lies in two entries and `Single` throws `InvalidOperationException`. | Index 401020672, the end of 'п' and the start of 'у'. As a whole number below 2^29 that is a multiple of 32, a single-precision float holds it exactly, so `(long)Random.Range(0f, totalPoses)` can produce it. | Half-open ranges, `start <= index < end`, with the index in [0, totalPoses). Every such index then matches exactly one range. | medium; not executed | CharPosibilities.RussianBoundaryCounterexample | CharPosibilities.GenerateRandomCharPicks |
