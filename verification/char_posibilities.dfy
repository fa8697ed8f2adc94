/**
 * `StatisticCharPosibilityCalculator`: cumulative letter ranges built from a
 * letter-frequency table, and the letter whose range holds a drawn index.
 */
module CharPosibilities {
  import opened Wrappers

  /** One row of the frequency table: a letter and how often it occurs. */
  datatype FreqEntry = FreqEntry(ch: char, count: int)

  /** The range of draw indices that selects letter `ch`. */
  datatype CharPosibility = CharPosibility(start: int, end: int, ch: char)

  /** The built calculator: the ranges in table order and the running total. */
  datatype CharPosibilityCalculator = CharPosibilityCalculator(charPosibilities: seq<CharPosibility>, totalPoses: int)

  /** What `Enumerable.Single` throws on: no match, or more than one. */
  datatype PickError = NoMatch | SeveralMatches

  /** The embedded Russian letter-frequency table, in its own order. */
  const RussianTable: seq<FreqEntry> := [
    FreqEntry('о', 55414481),
    FreqEntry('е', 42691213),
    FreqEntry('а', 40487008),
    FreqEntry('и', 37153142),
    FreqEntry('н', 33838881),
    FreqEntry('т', 31620970),
    FreqEntry('с', 27627040),
    FreqEntry('р', 23916825),
    FreqEntry('в', 22930719),
    FreqEntry('л', 22230174),
    FreqEntry('к', 17653469),
    FreqEntry('м', 16203060),
    FreqEntry('д', 15052118),
    FreqEntry('п', 14201572),
    FreqEntry('у', 13245712),
    FreqEntry('я', 10139085),
    FreqEntry('ы', 9595941),
    FreqEntry('ь', 8784613),
    FreqEntry('г', 8564640),
    FreqEntry('з', 8329904),
    FreqEntry('б', 8051767),
    FreqEntry('ч', 7300193),
    FreqEntry('й', 6106262),
    FreqEntry('х', 4904176),
    FreqEntry('ж', 4746916),
    FreqEntry('ш', 3678738),
    FreqEntry('ю', 3220715),
    FreqEntry('ц', 2438807),
    FreqEntry('щ', 1822476),
    FreqEntry('э', 1610107),
    FreqEntry('ф', 1335747),
    FreqEntry('ъ', 185452),
    FreqEntry('ё', 184928)
  ]

  /** The sum of the counts of `t`. */
  function Sum(t: seq<FreqEntry>): int {
    if t == [] then 0 else Sum(t[..|t| - 1]) + t[|t| - 1].count
  }

  /** The ranges the constructor builds from `t`: each starts where the previous one ends. */
  function Ranges(t: seq<FreqEntry>): (rs: seq<CharPosibility>)
    ensures |rs| == |t|
  {
    if t == [] then []
    else
      var init := t[..|t| - 1];
      Ranges(init) + [CharPosibility(Sum(init), Sum(init) + t[|t| - 1].count, t[|t| - 1].ch)]
  }

  predicate Positive(t: seq<FreqEntry>) {
    forall k :: 0 <= k < |t| ==> t[k].count > 0
  }

  predicate Contiguous(rs: seq<CharPosibility>) {
    forall a, b :: 0 <= a < |rs| && 0 <= b < |rs| && b == a + 1 ==> rs[a].end == rs[b].start
  }

  predicate NonEmptyRanges(rs: seq<CharPosibility>) {
    forall k :: 0 <= k < |rs| ==> rs[k].start < rs[k].end
  }

  /** A calculator whose non-empty ranges tile [0, totalPoses) without gaps, in order. */
  predicate WellFormed(picker: CharPosibilityCalculator) {
    && |picker.charPosibilities| > 0
    && picker.charPosibilities[0].start == 0
    && picker.charPosibilities[|picker.charPosibilities| - 1].end == picker.totalPoses
    && Contiguous(picker.charPosibilities)
    && NonEmptyRanges(picker.charPosibilities)
  }

  // ---------------------------------------------------------------------
  // Building the ranges.

  /** The constructor's loop: one range per table row, with a running total. */
  method Build(table: seq<FreqEntry>) returns (picker: CharPosibilityCalculator)
    ensures picker.charPosibilities == Ranges(table)
    ensures picker.totalPoses == Sum(table)
  {
    var posibilities: seq<CharPosibility> := [];
    var totalPoses := 0;
    var n := 0;
    while n < |table|
      invariant 0 <= n <= |table|
      invariant posibilities == Ranges(table[..n])
      invariant totalPoses == Sum(table[..n])
    {
      var entry := table[n];
      posibilities := posibilities + [CharPosibility(totalPoses, totalPoses + entry.count, entry.ch)];
      totalPoses := totalPoses + entry.count;
      n := n + 1;
      assert table[..n][..n - 1] == table[..n - 1];
    }
    assert table[..n] == table;
    picker := CharPosibilityCalculator(posibilities, totalPoses);
  }

  lemma SumStep(t: seq<FreqEntry>, k: int)
    requires 0 <= k < |t|
    ensures Sum(t[..k + 1]) == Sum(t[..k]) + t[k].count
  {
    assert t[..k + 1][..k] == t[..k];
  }

  /** Range `k` starts at the sum of the counts before row `k` and spans row `k`'s count. */
  lemma {:induction false} RangesLayout(t: seq<FreqEntry>, k: int)
    requires 0 <= k < |t|
    ensures Ranges(t)[k] == CharPosibility(Sum(t[..k]), Sum(t[..k]) + t[k].count, t[k].ch)
  {
    var init := t[..|t| - 1];
    if k < |t| - 1 {
      RangesLayout(init, k);
      assert init[..k] == t[..k];
    } else {
      assert init == t[..k];
    }
  }

  /** Range `k` carries row `k`'s letter, is as wide as its count, and ends at the sum of rows 0..k. */
  lemma RangeEnd(t: seq<FreqEntry>, k: int)
    requires 0 <= k < |t|
    ensures Ranges(t)[k].ch == t[k].ch
    ensures Ranges(t)[k].end - Ranges(t)[k].start == t[k].count
    ensures Ranges(t)[k].end == Sum(t[..k + 1])
  {
    RangesLayout(t, k);
    SumStep(t, k);
  }

  /**
   * The ranges keep table order: the first starts at 0, each starts where
   * the previous one ends, each is as wide as its row's count, and the last
   * ends at the total.
   */
  lemma RangesContiguous(t: seq<FreqEntry>)
    ensures |t| > 0 ==> Ranges(t)[0].start == 0
    ensures forall k :: 0 <= k < |t| ==> Ranges(t)[k].ch == t[k].ch && Ranges(t)[k].end - Ranges(t)[k].start == t[k].count
    ensures Contiguous(Ranges(t))
    ensures |t| > 0 ==> Ranges(t)[|t| - 1].end == Sum(t)
  {
    var rs := Ranges(t);
    forall k | 0 <= k < |t| ensures rs[k].ch == t[k].ch && rs[k].end - rs[k].start == t[k].count {
      RangeEnd(t, k);
    }
    forall a, b | 0 <= a < |rs| && 0 <= b < |rs| && b == a + 1 ensures rs[a].end == rs[b].start {
      RangeEnd(t, a);
      RangesLayout(t, b);
    }
    if |t| > 0 {
      RangesLayout(t, 0);
      RangeEnd(t, |t| - 1);
      assert t[..|t|] == t;
    }
  }

  /** Later ranges lie wholly after earlier ones. */
  lemma {:induction false} OrderedRanges(rs: seq<CharPosibility>)
    requires Contiguous(rs) && NonEmptyRanges(rs)
    ensures forall a, b :: 0 <= a < b < |rs| ==> rs[a].end <= rs[b].start
  {
    if |rs| > 1 {
      var n := |rs| - 1;
      var init := rs[..n];
      assert Contiguous(init) by {
        forall a, b | 0 <= a < |init| && 0 <= b < |init| && b == a + 1 ensures init[a].end == init[b].start {
          assert rs[a].end == rs[b].start;
        }
      }
      OrderedRanges(init);
      forall a, b | 0 <= a < b < |rs| ensures rs[a].end <= rs[b].start {
        if b < n {
          assert init[a].end <= init[b].start;
        } else {
          assert rs[n - 1].end == rs[n].start;
          if a < n - 1 {
            assert init[a].end <= init[n - 1].start;
          }
        }
      }
    }
  }

  /** With positive counts, the ranges are non-empty and their starts strictly increase. */
  lemma StartsIncrease(t: seq<FreqEntry>)
    requires Positive(t)
    ensures NonEmptyRanges(Ranges(t))
    ensures forall a, b :: 0 <= a < b < |t| ==> Ranges(t)[a].start < Ranges(t)[b].start
  {
    RangesContiguous(t);
    OrderedRanges(Ranges(t));
  }

  /** A table of positive counts builds a well-formed calculator. */
  lemma BuildWellFormed(t: seq<FreqEntry>)
    requires |t| > 0 && Positive(t)
    ensures WellFormed(CharPosibilityCalculator(Ranges(t), Sum(t)))
  {
    RangesContiguous(t);
    StartsIncrease(t);
    var rs := Ranges(t);
    assert |rs| > 0;
    assert rs[0].start == 0;
    assert rs[|rs| - 1].end == Sum(t);
    assert Contiguous(rs);
    assert NonEmptyRanges(rs);
  }

  /** The embedded table has 33 rows, all with positive counts. */
  lemma RussianTableShape()
    ensures |RussianTable| == 33 && Positive(RussianTable)
  {
  }

  // ---------------------------------------------------------------------
  // Picking a letter.

  predicate InClosed(r: CharPosibility, index: int) {
    r.start <= index <= r.end
  }

  predicate InHalfOpen(r: CharPosibility, index: int) {
    r.start <= index < r.end
  }

  /** The ranges that hold `index` with both ends included, in order. */
  function ClosedMatches(rs: seq<CharPosibility>, index: int): (ms: seq<CharPosibility>)
    ensures forall r :: r in ms ==> r in rs && InClosed(r, index)
    ensures forall k :: 0 <= k < |rs| && InClosed(rs[k], index) ==> rs[k] in ms
  {
    if rs == [] then []
    else (if InClosed(rs[0], index) then [rs[0]] else []) + ClosedMatches(rs[1..], index)
  }

  /** The ranges that hold `index` with the end excluded, in order. */
  function HalfOpenMatches(rs: seq<CharPosibility>, index: int): (ms: seq<CharPosibility>)
    ensures forall r :: r in ms ==> r in rs && InHalfOpen(r, index)
    ensures forall k :: 0 <= k < |rs| && InHalfOpen(rs[k], index) ==> rs[k] in ms
  {
    if rs == [] then []
    else (if InHalfOpen(rs[0], index) then [rs[0]] else []) + HalfOpenMatches(rs[1..], index)
  }

  /** `Enumerable.Single`: the letter of the only match, or the reason it throws. */
  function Single(ms: seq<CharPosibility>): (r: Result<char, PickError>)
    ensures r.Ok? <==> |ms| == 1
    ensures r.Ok? ==> r.value == ms[0].ch
    ensures r == Err(NoMatch) <==> ms == []
  {
    if |ms| == 1 then Ok(ms[0].ch)
    else if ms == [] then Err(NoMatch)
    else Err(SeveralMatches)
  }

  /**
   * `GenerateRandomChar` as the source writes it: ends are inclusive. A
   * letter comes from a range holding the index, and there is no letter at
   * all exactly when no range holds it.
   */
  function GenerateRandomCharAsWritten(picker: CharPosibilityCalculator, index: int): (r: Result<char, PickError>)
    ensures r.Ok? ==>
              exists k :: 0 <= k < |picker.charPosibilities| && InClosed(picker.charPosibilities[k], index) && r.value == picker.charPosibilities[k].ch
    ensures r == Err(NoMatch) <==> forall k :: 0 <= k < |picker.charPosibilities| ==> !InClosed(picker.charPosibilities[k], index)
  {
    var ms := ClosedMatches(picker.charPosibilities, index);
    assert ms != [] ==> ms[0] in ms;
    Single(ms)
  }

  /**
   * `GenerateRandomChar` with each range's end excluded, as the running sum
   * intends. A letter comes from a range holding the index.
   */
  function GenerateRandomChar(picker: CharPosibilityCalculator, index: int): (r: Result<char, PickError>)
    ensures r.Ok? ==>
              exists k :: 0 <= k < |picker.charPosibilities| && InHalfOpen(picker.charPosibilities[k], index) && r.value == picker.charPosibilities[k].ch
  {
    var ms := HalfOpenMatches(picker.charPosibilities, index);
    assert ms != [] ==> ms[0] in ms;
    Single(ms)
  }

  lemma {:induction false} AtLeastTwoClosedMatches(rs: seq<CharPosibility>, index: int, a: int, b: int)
    requires 0 <= a < b < |rs| && InClosed(rs[a], index) && InClosed(rs[b], index)
    ensures |ClosedMatches(rs, index)| >= 2
    decreases a
  {
    if a == 0 {
      assert rs[1..][b - 1] == rs[b];
      assert rs[b] in ClosedMatches(rs[1..], index);
    } else {
      AtLeastTwoClosedMatches(rs[1..], index, a - 1, b - 1);
    }
  }

  lemma {:induction false} OnlyHalfOpenMatch(rs: seq<CharPosibility>, index: int, k: int)
    requires 0 <= k < |rs| && InHalfOpen(rs[k], index)
    requires forall m :: 0 <= m < |rs| && m != k ==> !InHalfOpen(rs[m], index)
    ensures HalfOpenMatches(rs, index) == [rs[k]]
    decreases k
  {
    if k == 0 {
      NoHalfOpenMatch(rs[1..], index);
    } else {
      forall m | 0 <= m < |rs[1..]| && m != k - 1 ensures !InHalfOpen(rs[1..][m], index) {
        assert rs[1..][m] == rs[m + 1];
      }
      OnlyHalfOpenMatch(rs[1..], index, k - 1);
    }
  }

  lemma {:induction false} Locate(rs: seq<CharPosibility>, index: int) returns (k: int)
    requires |rs| > 0 && Contiguous(rs) && rs[0].start <= index < rs[|rs| - 1].end
    ensures 0 <= k < |rs| && InHalfOpen(rs[k], index)
  {
    var n := |rs| - 1;
    if rs[n].start <= index {
      k := n;
    } else {
      var init := rs[..n];
      assert rs[n - 1].end == rs[n].start;
      assert Contiguous(init) by {
        forall a, b | 0 <= a < |init| && 0 <= b < |init| && b == a + 1 ensures init[a].end == init[b].start {
          assert rs[a].end == rs[b].start;
        }
      }
      k := Locate(init, index);
    }
  }

  lemma {:induction false} NoHalfOpenMatch(rs: seq<CharPosibility>, index: int)
    requires forall m :: 0 <= m < |rs| ==> !InHalfOpen(rs[m], index)
    ensures HalfOpenMatches(rs, index) == []
  {
    if rs != [] {
      assert forall m :: 0 <= m < |rs[1..]| ==> rs[1..][m] == rs[m + 1];
      NoHalfOpenMatch(rs[1..], index);
    }
  }

  /**
   * On a well-formed calculator, every index in [0, totalPoses) lies in
   * exactly one range and yields that range's letter; every other index
   * yields no letter.
   */
  lemma GenerateRandomCharPicks(picker: CharPosibilityCalculator, index: int)
    requires WellFormed(picker)
    ensures GenerateRandomChar(picker, index).Ok? <==> 0 <= index < picker.totalPoses
    ensures forall k :: 0 <= k < |picker.charPosibilities| && InHalfOpen(picker.charPosibilities[k], index) ==>
              GenerateRandomChar(picker, index) == Ok(picker.charPosibilities[k].ch)
    ensures GenerateRandomChar(picker, index).Ok? ==>
              exists k :: 0 <= k < |picker.charPosibilities| && InHalfOpen(picker.charPosibilities[k], index)
                && GenerateRandomChar(picker, index).value == picker.charPosibilities[k].ch
  {
    var rs := picker.charPosibilities;
    var n := |rs| - 1;
    OrderedRanges(rs);
    if 0 <= index < picker.totalPoses {
      var k := Locate(rs, index);
      forall m | 0 <= m < |rs| && m != k ensures !InHalfOpen(rs[m], index) {
        if m < k { assert rs[m].end <= rs[k].start; } else { assert rs[k].end <= rs[m].start; }
      }
      OnlyHalfOpenMatch(rs, index, k);
    } else {
      forall m | 0 <= m < |rs| ensures !InHalfOpen(rs[m], index) {
        if 0 < m { assert rs[0].end <= rs[m].start; }
        if m < n { assert rs[m].end <= rs[n].start; }
      }
      NoHalfOpenMatch(rs, index);
    }
  }

  /**
   * As written, an index on the boundary shared by range `k` and range
   * `k + 1` lies in both ranges, so `Single` throws.
   */
  lemma AsWrittenFailsOnSharedBoundary(picker: CharPosibilityCalculator, k: int)
    requires WellFormed(picker) && 0 <= k < |picker.charPosibilities| - 1
    ensures GenerateRandomCharAsWritten(picker, picker.charPosibilities[k].end) == Err(SeveralMatches)
  {
    var rs := picker.charPosibilities;
    assert rs[k].end == rs[k + 1].start;
    AtLeastTwoClosedMatches(rs, rs[k].end, k, k + 1);
  }

  lemma {:induction false} ClosedIsHalfOpenOffEnds(rs: seq<CharPosibility>, index: int)
    requires forall k :: 0 <= k < |rs| ==> index != rs[k].end
    ensures ClosedMatches(rs, index) == HalfOpenMatches(rs, index)
  {
    if rs != [] {
      assert forall k :: 0 <= k < |rs[1..]| ==> rs[1..][k] == rs[k + 1];
      ClosedIsHalfOpenOffEnds(rs[1..], index);
    }
  }

  /** Away from every range end, the source's lookup and the half-open lookup agree. */
  lemma AsWrittenAgreesOffBoundaries(picker: CharPosibilityCalculator, index: int)
    requires forall k :: 0 <= k < |picker.charPosibilities| ==> index != picker.charPosibilities[k].end
    ensures GenerateRandomCharAsWritten(picker, index) == GenerateRandomChar(picker, index)
  {
    ClosedIsHalfOpenOffEnds(picker.charPosibilities, index);
  }

  lemma {:induction false} OnlyClosedMatch(rs: seq<CharPosibility>, index: int, k: int)
    requires 0 <= k < |rs| && InClosed(rs[k], index)
    requires forall m :: 0 <= m < |rs| && m != k ==> !InClosed(rs[m], index)
    ensures ClosedMatches(rs, index) == [rs[k]]
    decreases k
  {
    if k == 0 {
      NoClosedMatch(rs[1..], index);
    } else {
      forall m | 0 <= m < |rs[1..]| && m != k - 1 ensures !InClosed(rs[1..][m], index) {
        assert rs[1..][m] == rs[m + 1];
      }
      OnlyClosedMatch(rs[1..], index, k - 1);
    }
  }

  lemma {:induction false} NoClosedMatch(rs: seq<CharPosibility>, index: int)
    requires forall m :: 0 <= m < |rs| ==> !InClosed(rs[m], index)
    ensures ClosedMatches(rs, index) == []
  {
    if rs != [] {
      assert forall m :: 0 <= m < |rs[1..]| ==> rs[1..][m] == rs[m + 1];
      NoClosedMatch(rs[1..], index);
    }
  }

  /**
   * At `totalPoses`, the end of the last range, the lookup as written still
   * returns the last range's letter, while the corrected lookup finds no
   * range.
   */
  lemma AtTotalPoses(picker: CharPosibilityCalculator)
    requires WellFormed(picker)
    ensures GenerateRandomCharAsWritten(picker, picker.totalPoses)
      == Ok(picker.charPosibilities[|picker.charPosibilities| - 1].ch)
    ensures GenerateRandomChar(picker, picker.totalPoses) == Err(NoMatch)
  {
    var rs := picker.charPosibilities;
    var n := |rs| - 1;
    OrderedRanges(rs);
    forall m | 0 <= m < |rs| && m != n ensures !InClosed(rs[m], picker.totalPoses) {
      assert rs[m].end <= rs[n].start;
    }
    OnlyClosedMatch(rs, picker.totalPoses, n);
    forall m | 0 <= m < |rs| ensures !InHalfOpen(rs[m], picker.totalPoses) {
      if m < n { assert rs[m].end <= rs[n].start; }
    }
    NoHalfOpenMatch(rs, picker.totalPoses);
  }

  /** The counts of the table's first fourteen rows, 'о' to 'п', add up to 401020672. */
  lemma RussianPrefixSum()
    ensures Sum(RussianTable[..14]) == 401020672
  {
    assert RussianTable[..0] == [];
    SumStep(RussianTable, 0); SumStep(RussianTable, 1); SumStep(RussianTable, 2); SumStep(RussianTable, 3);
    SumStep(RussianTable, 4); SumStep(RussianTable, 5); SumStep(RussianTable, 6); SumStep(RussianTable, 7);
    SumStep(RussianTable, 8); SumStep(RussianTable, 9); SumStep(RussianTable, 10); SumStep(RussianTable, 11);
    SumStep(RussianTable, 12); SumStep(RussianTable, 13);
  }

  /**
   * With the embedded table, index 401020672 (the end of the range of 'п'
   * and the start of the range of 'у') makes the source's lookup throw.
   * It is a whole number a single-precision float holds exactly, so the
   * source's float draw can land on it.
   */
  lemma RussianBoundaryCounterexample()
    ensures GenerateRandomCharAsWritten(CharPosibilityCalculator(Ranges(RussianTable), Sum(RussianTable)), 401020672)
      == Err(SeveralMatches)
  {
    RussianTableShape();
    BuildWellFormed(RussianTable);
    RangeEnd(RussianTable, 13);
    RussianPrefixSum();
    AsWrittenFailsOnSharedBoundary(CharPosibilityCalculator(Ranges(RussianTable), Sum(RussianTable)), 13);
  }
}
