/**
 * The game field: `RandomByStatisticCharPosibilityFieldCellsGenerator`,
 * which fills a rows x columns matrix of cells, and `GameFieldModel`,
 * which owns the current matrix, replaces it wholesale and looks cells up.
 */
module GameField {
  import opened Wrappers
  import opened FieldCells
  import opened PriceCalculation
  import opened CharPosibilities

  /** The two random values one cell consumes: the letter index and the price roll. */
  datatype CellDraw = CellDraw(charIndex: int, priceRoll: int)

  /** What an out-of-bounds `_allCells[i, j]` throws. */
  datatype LookupError = OutOfRange

  /**
   * `draws` holds one draw per cell, `draws[i][j]` for row `i` and column
   * `j`, and every letter index is one the calculator can serve.
   */
  predicate DrawsFit(picker: CharPosibilityCalculator, draws: seq<seq<CellDraw>>, rows: int, columns: int) {
    && |draws| == rows
    && forall i :: 0 <= i < rows ==>
         && |draws[i]| == columns
         && forall j :: 0 <= j < columns ==> 0 <= draws[i][j].charIndex < picker.totalPoses
  }

  /**
   * The cell the generator creates at row `i`, column `j`: its letter from
   * the letter calculator, its price from the price calculator.
   */
  function NewCell(picker: CharPosibilityCalculator, d: CellDraw, i: int, j: int): (c: FieldCell)
    requires WellFormed(picker) && 0 <= d.charIndex < picker.totalPoses
    ensures c.i == i && c.j == j && 1 <= c.price <= 4
  {
    GenerateRandomCharPicks(picker, d.charIndex);
    FieldCell(GenerateRandomChar(picker, d.charIndex).value, CalculatePrice(d.priceRoll), i, j)
  }

  /**
   * A new cell's letter is that of the one range holding its letter index,
   * and its price is the price of its roll.
   */
  lemma NewCellDraws(picker: CharPosibilityCalculator, d: CellDraw, i: int, j: int)
    requires WellFormed(picker) && 0 <= d.charIndex < picker.totalPoses
    ensures GenerateRandomChar(picker, d.charIndex) == Ok(NewCell(picker, d, i, j).ch)
    ensures exists k :: 0 <= k < |picker.charPosibilities| &&
              InHalfOpen(picker.charPosibilities[k], d.charIndex) && NewCell(picker, d, i, j).ch == picker.charPosibilities[k].ch
    ensures NewCell(picker, d, i, j).price == CalculatePrice(d.priceRoll)
  {
    GenerateRandomCharPicks(picker, d.charIndex);
  }

  /** `GenerateField`: a fresh rows x columns matrix, cell `[i, j]` created for row `i` and column `j`. */
  method GenerateField(picker: CharPosibilityCalculator, rows: nat, columns: nat, draws: seq<seq<CellDraw>>)
    returns (allCells: array2<FieldCell>)
    requires WellFormed(picker) && DrawsFit(picker, draws, rows, columns)
    ensures fresh(allCells)
    ensures allCells.Length0 == rows && allCells.Length1 == columns
    ensures forall i, j :: 0 <= i < rows && 0 <= j < columns ==> allCells[i, j] == NewCell(picker, draws[i][j], i, j)
  {
    allCells := new FieldCell[rows, columns];
    for i := 0 to rows
      invariant forall i', j :: 0 <= i' < i && 0 <= j < columns ==> allCells[i', j] == NewCell(picker, draws[i'][j], i', j)
    {
      for j := 0 to columns
        invariant forall i', j' :: 0 <= i' < i && 0 <= j' < columns ==> allCells[i', j'] == NewCell(picker, draws[i'][j'], i', j')
        invariant forall j' :: 0 <= j' < j ==> allCells[i, j'] == NewCell(picker, draws[i][j'], i, j')
      {
        allCells[i, j] := NewCell(picker, draws[i][j], i, j);
      }
    }
  }

  /** `GameFieldModel`: the current cell matrix and its dimensions. */
  class GameFieldModel {
    const charPosibilityCalculator: CharPosibilityCalculator
    var rows: nat
    var columns: nat
    var allCells: array2<FieldCell>

    /** The dimensions are the matrix's, and every cell sits at its own row and column. */
    ghost predicate Valid()
      reads this, allCells
    {
      && WellFormed(charPosibilityCalculator)
      && allCells.Length0 == rows
      && allCells.Length1 == columns
      && forall i, j :: 0 <= i < rows && 0 <= j < columns ==>
           allCells[i, j].i == i && allCells[i, j].j == j && 1 <= allCells[i, j].price <= 4
    }

    /** The grid cell at `c`'s own position is `c`. */
    predicate HoldsCell(c: FieldCell)
      reads this, allCells
    {
      0 <= c.i < allCells.Length0 && 0 <= c.j < allCells.Length1 && allCells[c.i, c.j] == c
    }

    /** Builds the letter calculator from the embedded table; no matrix yet. */
    constructor ()
      ensures Valid() && fresh(allCells)
      ensures rows == 0 && columns == 0
      ensures charPosibilityCalculator == CharPosibilityCalculator(Ranges(RussianTable), Sum(RussianTable))
    {
      var picker := Build(RussianTable);
      RussianTableShape();
      BuildWellFormed(RussianTable);
      charPosibilityCalculator := picker;
      rows, columns := 0, 0;
      allCells := new FieldCell[0, 0];
    }

    /** `CreateRandom`: records the new dimensions and replaces the whole matrix in one step. */
    method CreateRandom(rows: nat, columns: nat, draws: seq<seq<CellDraw>>)
      requires Valid() && DrawsFit(charPosibilityCalculator, draws, rows, columns)
      modifies this
      ensures Valid() && fresh(allCells)
      ensures this.rows == rows && this.columns == columns
      ensures forall i, j :: 0 <= i < rows && 0 <= j < columns ==>
                allCells[i, j] == NewCell(charPosibilityCalculator, draws[i][j], i, j)
    {
      this.rows := rows;
      this.columns := columns;
      allCells := GenerateField(charPosibilityCalculator, rows, columns, draws);
    }

    /** `GetCellModel`: the cell at row `i`, column `j`, or the out-of-range failure. */
    function GetCellModel(i: int, j: int): (r: Result<FieldCell, LookupError>)
      requires Valid()
      reads this, allCells
      ensures r.Ok? <==> 0 <= i < rows && 0 <= j < columns
      ensures r.Ok? ==> r.value.i == i && r.value.j == j && 1 <= r.value.price <= 4 && HoldsCell(r.value)
    {
      if 0 <= i < allCells.Length0 && 0 <= j < allCells.Length1 then Ok(allCells[i, j]) else Err(OutOfRange)
    }
  }
}
