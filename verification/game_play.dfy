/**
 * `GamePlayModel`: the selection path the player is tracing, the word it
 * spells, its pending score, and the session score that a released word
 * adds to when the words checker accepts it.
 */
module GamePlay {
  import opened Wrappers
  import opened FieldCells
  import opened GameField
  import opened WordsChecker

  /** The source's adjacency test: row and column each differ from the last cell's by at most 1. */
  predicate Adjacent(last: FieldCell, c: FieldCell) {
    -1 <= last.i - c.i <= 1 && -1 <= last.j - c.j <= 1
  }

  /** Whether `TryRegister` appends `c`: not already in the path, and next to its last cell if any. */
  predicate Accepts(path: seq<FieldCell>, c: FieldCell) {
    c !in path && (path == [] || Adjacent(path[|path| - 1], c))
  }

  /** The path after the player enters cell `c`. */
  function Extend(path: seq<FieldCell>, c: FieldCell): seq<FieldCell> {
    if Accepts(path, c) then path + [c] else path
  }

  /** A selection path: no cell twice, and each cell adjacent to the one before it. */
  predicate IsSelectionPath(path: seq<FieldCell>) {
    && (forall a, b :: 0 <= a < b < |path| ==> path[a] != path[b])
    && (forall a, b :: 0 <= a < |path| && 0 <= b < |path| && b == a + 1 ==> Adjacent(path[a], path[b]))
  }

  /** The word the path spells: its cells' letters, in path order. */
  function WordOf(path: seq<FieldCell>): (w: string)
    ensures |w| == |path|
    ensures forall k :: 0 <= k < |path| ==> w[k] == path[k].ch
  {
    if path == [] then "" else WordOf(path[..|path| - 1]) + [path[|path| - 1].ch]
  }

  /** The sum of `10 * Price` over the cells of the path: with prices in 1..4, between 10 and 40 per cell. */
  function PathScore(path: seq<FieldCell>): (s: int)
    ensures PricesInRange(path) ==> 10 * |path| <= s <= 40 * |path|
  {
    if path == [] then 0
    else
      var init := path[..|path| - 1];
      assert PricesInRange(path) ==> PricesInRange(init) by {
        if PricesInRange(path) {
          forall k | 0 <= k < |init| ensures 1 <= init[k].price <= 4 {
            assert init[k] == path[k];
          }
        }
      }
      PathScore(init) + 10 * path[|path| - 1].price
  }

  /** Every cell of the path is the cell the grid holds at its position. */
  ghost predicate OnGrid(field: GameFieldModel, path: seq<FieldCell>)
    reads field, field.allCells
  {
    forall k :: 0 <= k < |path| ==> field.HoldsCell(path[k])
  }

  lemma AppendOnGrid(field: GameFieldModel, path: seq<FieldCell>, c: FieldCell)
    requires OnGrid(field, path) && field.HoldsCell(c)
    ensures OnGrid(field, path + [c])
  {
    forall k | 0 <= k < |path| + 1 ensures field.HoldsCell((path + [c])[k]) {
      if k < |path| {
        assert (path + [c])[k] == path[k];
      }
    }
  }

  predicate PricesInRange(path: seq<FieldCell>) {
    forall k :: 0 <= k < |path| ==> 1 <= path[k].price <= 4
  }

  /**
   * Entering a cell keeps the path a selection path: it either appends the
   * cell, exactly when the cell is new and adjacent to the last one (or the
   * path is empty), or leaves the path as it was.
   */
  lemma ExtendKeepsSelectionPath(path: seq<FieldCell>, c: FieldCell)
    requires IsSelectionPath(path)
    ensures IsSelectionPath(Extend(path, c))
    ensures Accepts(path, c) ==> Extend(path, c) == path + [c]
    ensures !Accepts(path, c) ==> Extend(path, c) == path
  {
    if Accepts(path, c) {
      var p := path + [c];
      forall a, b | 0 <= a < b < |p| ensures p[a] != p[b] {
        if b == |path| {
          assert p[a] == path[a];
        } else {
          assert p[a] == path[a] && p[b] == path[b];
        }
      }
    }
  }

  /** After an accepted entry the word gains the cell's letter; otherwise it is unchanged. */
  lemma ExtendSpellsWord(path: seq<FieldCell>, c: FieldCell)
    ensures WordOf(Extend(path, c)) == if Accepts(path, c) then WordOf(path) + [c.ch] else WordOf(path)
  {
    if Accepts(path, c) {
      assert (path + [c])[..|path|] == path;
    }
  }

  /**
   * The cells of one grid are told apart by their position alone: in a
   * selection path of grid cells no position repeats.
   */
  lemma PositionsDistinct(field: GameFieldModel, path: seq<FieldCell>)
    requires IsSelectionPath(path)
    requires OnGrid(field, path)
    ensures forall a, b :: 0 <= a < b < |path| ==> path[a].i != path[b].i || path[a].j != path[b].j
  {
    forall a, b | 0 <= a < b < |path| ensures path[a].i != path[b].i || path[a].j != path[b].j {
      assert field.HoldsCell(path[a]) && field.HoldsCell(path[b]);
    }
  }

  /**
   * From a single cell at (0, 0), the cell at (2, 2) is refused and the cell
   * at (1, 1) is appended.
   */
  lemma AdjacencyExample(ch: char, price: int)
    ensures Extend([FieldCell(ch, price, 0, 0)], FieldCell(ch, price, 2, 2)) == [FieldCell(ch, price, 0, 0)]
    ensures Extend([FieldCell(ch, price, 0, 0)], FieldCell(ch, price, 1, 1))
              == [FieldCell(ch, price, 0, 0), FieldCell(ch, price, 1, 1)]
  {
  }

  /**
   * Spelling and scoring are additive over a path split in two: the word of
   * `a + b` is the word of `a` followed by that of `b`, and its score is the
   * sum of theirs.
   */
  lemma {:induction false} PathAppend(a: seq<FieldCell>, b: seq<FieldCell>)
    ensures WordOf(a + b) == WordOf(a) + WordOf(b)
    ensures PathScore(a + b) == PathScore(a) + PathScore(b)
    decreases |b|
  {
    if b == [] {
      assert a + b == a;
    } else {
      var init := b[..|b| - 1];
      assert (a + b)[..|a + b| - 1] == a + init;
      assert b[..|b| - 1] == init;
      PathAppend(a, init);
    }
  }

  /** The cells 'к', 'о', 'т' along row 0, each at price 1. */
  const CellK := FieldCell('к', 1, 0, 0)
  const CellO := FieldCell('о', 1, 0, 1)
  const CellT := FieldCell('т', 1, 0, 2)

  /** Tracing 'к', 'о', 'т' along row 0 appends each cell in turn. */
  lemma TracingPaths()
    ensures Extend([], CellK) == [CellK]
    ensures Extend([CellK], CellO) == [CellK, CellO]
    ensures Extend([CellK, CellO], CellT) == [CellK, CellO, CellT]
  {
  }

  /** The paths of `TracingPaths` spell "к", "ко", "кот" and score 10, 20, 30. */
  lemma TracingExample()
    ensures WordOf([CellK]) == "к" && PathScore([CellK]) == 10
    ensures WordOf([CellK, CellO]) == "ко" && PathScore([CellK, CellO]) == 20
    ensures WordOf([CellK, CellO, CellT]) == "кот" && PathScore([CellK, CellO, CellT]) == 30
  {
    PathAppend([CellK], [CellO]);
    assert [CellK] + [CellO] == [CellK, CellO];
    PathAppend([CellK, CellO], [CellT]);
    assert [CellK, CellO] + [CellT] == [CellK, CellO, CellT];
  }

  /** `GamePlayModel`: the selection state machine and the session score. */
  class GamePlayModel {
    const wordsChecker: RussianWordsChecker
    const gameField: GameFieldModel
    var currentWordFieldCells: seq<FieldCell>
    var currentWord: string
    var currentSessionScore: int

    /**
     * The path is a selection path of cells of the current grid, the word is
     * the path's letters, and the session score is never negative.
     */
    ghost predicate Valid()
      reads this, wordsChecker, gameField, gameField.allCells
    {
      && wordsChecker.Valid()
      && gameField.Valid()
      && IsSelectionPath(currentWordFieldCells)
      && OnGrid(gameField, currentWordFieldCells)
      && currentWord == WordOf(currentWordFieldCells)
      && currentSessionScore >= 0
    }

    constructor (wordsChecker: RussianWordsChecker)
      requires wordsChecker.Valid()
      ensures Valid() && fresh(gameField)
      ensures this.wordsChecker == wordsChecker
      ensures gameField.rows == 0 && gameField.columns == 0
      ensures currentWordFieldCells == [] && currentWord == "" && currentSessionScore == 0
    {
      this.wordsChecker := wordsChecker;
      gameField := new GameFieldModel();
      currentWordFieldCells := [];
      currentWord := "";
      currentSessionScore := 0;
    }

    /** Every cell of the path has a price in 1..4. */
    lemma PathPrices()
      requires Valid()
      ensures PricesInRange(currentWordFieldCells)
    {
      forall k | 0 <= k < |currentWordFieldCells| ensures 1 <= currentWordFieldCells[k].price <= 4 {
        var c := currentWordFieldCells[k];
        assert gameField.HoldsCell(c);
      }
    }

    /**
     * `CalculateCurrentWordScore`: no value while the word is empty; otherwise
     * the path's score, at least 10 per letter.
     */
    function CalculateCurrentWordScore(): (score: Option<int>)
      requires Valid()
      reads this, wordsChecker, gameField, gameField.allCells
      ensures score.None? <==> currentWordFieldCells == []
      ensures score.Some? ==> score.value == PathScore(currentWordFieldCells)
      ensures score.Some? ==> score.value >= 10 * |currentWord| > 0
    {
      PathPrices();
      if currentWord == "" then None else Some(PathScore(currentWordFieldCells))
    }

    /** `GetCellFieldModel`: the grid's cell at row `i`, column `j`. */
    function GetCellFieldModel(i: int, j: int): (r: Result<FieldCell, LookupError>)
      requires Valid()
      reads this, wordsChecker, gameField, gameField.allCells
      ensures r.Ok? <==> 0 <= i < gameField.rows && 0 <= j < gameField.columns
      ensures r.Ok? ==> r.value.i == i && r.value.j == j && gameField.HoldsCell(r.value)
    {
      gameField.GetCellModel(i, j)
    }

    /** `AddToCurrentWordNewFieldCell`: appends the cell and respells the word. */
    method AddToCurrentWordNewFieldCell(mc: FieldCell)
      requires Valid() && gameField.HoldsCell(mc) && Accepts(currentWordFieldCells, mc)
      modifies this
      ensures Valid()
      ensures currentWordFieldCells == old(currentWordFieldCells) + [mc]
      ensures currentWord == old(currentWord) + [mc.ch]
      ensures currentSessionScore == old(currentSessionScore)
    {
      var path := currentWordFieldCells + [mc];
      ExtendKeepsSelectionPath(currentWordFieldCells, mc);
      ExtendSpellsWord(currentWordFieldCells, mc);
      AppendOnGrid(gameField, currentWordFieldCells, mc);
      currentWordFieldCells := path;
      currentWord := WordOf(path);
    }

    /**
     * `TryRegister`, run when the pointer enters a cell: a cell already in
     * the path is ignored; otherwise it is appended if the path is empty or
     * the cell is adjacent to the last one. The session score never changes.
     */
    method TryRegister(mc: FieldCell)
      requires Valid() && gameField.HoldsCell(mc)
      modifies this
      ensures Valid()
      ensures currentWordFieldCells == Extend(old(currentWordFieldCells), mc)
      ensures Accepts(old(currentWordFieldCells), mc) ==> currentWord == old(currentWord) + [mc.ch]
      ensures !Accepts(old(currentWordFieldCells), mc) ==> currentWordFieldCells == old(currentWordFieldCells) && currentWord == old(currentWord)
      ensures currentSessionScore == old(currentSessionScore)
    {
      if mc !in currentWordFieldCells {
        if currentWordFieldCells == [] {
          AddToCurrentWordNewFieldCell(mc);
        } else {
          var lastFc := currentWordFieldCells[|currentWordFieldCells| - 1];
          var difI := lastFc.i - mc.i;
          var difJ := lastFc.j - mc.j;
          if -1 <= difI <= 1 && -1 <= difJ <= 1 {
            AddToCurrentWordNewFieldCell(mc);
          }
        }
      }
    }

    /**
     * `MouseReleased` (through `TryRegisterCurrentWord`): a non-empty word the
     * checker accepts adds its score to the session score; in every case the
     * path and the word end empty.
     */
    method MouseReleased()
      requires Valid()
      modifies this, wordsChecker
      ensures Valid()
      ensures currentWordFieldCells == [] && currentWord == ""
      ensures var claimed := old(currentWord) != "" && old(currentWord) in wordsChecker.allWords
                             && old(currentWord) !in old(wordsChecker.currentSessionRegisteredWords);
              && wordsChecker.currentSessionRegisteredWords
                   == (if claimed then old(wordsChecker.currentSessionRegisteredWords) + {old(currentWord)}
                       else old(wordsChecker.currentSessionRegisteredWords))
              && currentSessionScore
                   == old(currentSessionScore) + (if claimed then PathScore(old(currentWordFieldCells)) else 0)
      ensures currentSessionScore >= old(currentSessionScore)
    {
      if currentWord != "" {
        var registered := wordsChecker.TryRegisterNewWord(currentWord);
        if registered {
          var curWordScore := CalculateCurrentWordScore();
          currentSessionScore := currentSessionScore + (if curWordScore.Some? then curWordScore.value else 0);
        }
      }
      currentWordFieldCells := [];
      currentWord := "";
    }

    /**
     * `ReshuffleAndResetSession`: a new grid, an empty path and word, no
     * claimed words; the session score is zeroed only when asked.
     */
    method ReshuffleAndResetSession(rows: nat, columns: nat, resetSession: bool, draws: seq<seq<CellDraw>>)
      requires Valid() && DrawsFit(gameField.charPosibilityCalculator, draws, rows, columns)
      modifies this, gameField, wordsChecker
      ensures Valid() && fresh(gameField.allCells)
      ensures gameField.rows == rows && gameField.columns == columns
      ensures forall i, j :: 0 <= i < rows && 0 <= j < columns ==>
                gameField.allCells[i, j] == NewCell(gameField.charPosibilityCalculator, draws[i][j], i, j)
      ensures currentWordFieldCells == [] && currentWord == ""
      ensures wordsChecker.currentSessionRegisteredWords == {}
      ensures currentSessionScore == if resetSession then 0 else old(currentSessionScore)
    {
      gameField.CreateRandom(rows, columns, draws);
      currentWordFieldCells := [];
      currentWord := "";
      wordsChecker.ResetSession();
      if resetSession {
        currentSessionScore := 0;
      }
    }
  }
}
