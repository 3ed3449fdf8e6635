/** Where the placement puts each step, and the shape of the sheets it
    produces, derived from the plan that `CalculatePositions` returns. */
module Landing {
  import opened Wrappers
  import opened Signature

  /** The grid position of step `k`: sheet `k / cap`, row `(k % cap) / x`,
      pair column `k % x`, where `cap` is the number of steps per sheet. */
  datatype Position = Position(sheet: nat, row: nat, column: nat)

  function PositionOf(x: nat, y: int, k: nat): (p: Position)
    requires x >= 1
    ensures p.row < RowsPerSheet(y) && p.column < x
    ensures RowStart(x, y, 2 * p.sheet, p.row) + p.column == k
  {
    var cap := Capacity(x, y);
    MulMono(1, RowsPerSheet(y), x);
    var p := Position(k / cap, (k % cap) / x, k % x);
    PositionArithmetic(x, y, k, p);
    p
  }

  lemma PositionArithmetic(x: nat, y: int, k: nat, p: Position)
    requires x >= 1 && Capacity(x, y) >= 1
    requires p == Position(k / Capacity(x, y), (k % Capacity(x, y)) / x, k % x)
    ensures p.row < RowsPerSheet(y) && p.column < x
    ensures RowStart(x, y, 2 * p.sheet, p.row) + p.column == k
  {
    var rows, cap := RowsPerSheet(y), Capacity(x, y);
    var s, m := k / cap, k % cap;
    var r, c := m / x, m % x;
    assert m == r * x + c;
    assert s * cap == (s * rows) * x;
    assert k == (s * rows + r) * x + c;
    DivOf(k, x, s * rows + r, c);
    DivOf(2 * s, 2, s, 0);
    if r >= rows {
      MulMono(rows, r, x);
      assert false;
    }
  }

  lemma DivMono(a: int, b: int, d: int)
    requires 0 <= a <= b && d > 0
    ensures a / d <= b / d
  {
    DivOf(a, d, a / d, a % d);
    DivOf(b, d, b / d, b % d);
    if a / d > b / d {
      MulMono(b / d + 1, a / d, d);
      assert false;
    }
  }

  /** A step that runs sits on a sheet, row and slot the plan has. */
  lemma StepInPlan(n: nat, x: nat, y: int, k: nat)
    requires x >= 1 && k < Iterations(n)
    ensures var p := PositionOf(x, y, k);
            && p.sheet < SheetCount(n, x, y)
            && p.row < RowCount(n, x, y, 2 * p.sheet)
            && RowCount(n, x, y, 2 * p.sheet + 1) == RowCount(n, x, y, 2 * p.sheet)
            && 2 * p.column + 2 <= RowLength(n, x, y, 2 * p.sheet, p.row)
            && RowLength(n, x, y, 2 * p.sheet + 1, p.row) == 2 * x
  {
    var p := PositionOf(x, y, k);
    var cap := Capacity(x, y);
    var steps := Iterations(n);
    MulMono(1, RowsPerSheet(y), x);
    DivMono(k, steps - 1, cap);
    BackFacesFront(x, y, 2 * p.sheet, 0);
    BackFacesFront(x, y, 2 * p.sheet, p.row);
    RowReached(n, x, y, 2 * p.sheet, p.row, p.column);
    RowReached(n, x, y, 2 * p.sheet + 1, p.row, p.column);
  }

  /** Row `r` of side `q` holds step `RowStart + c` when that step runs. */
  lemma RowReached(n: nat, x: nat, y: int, q: nat, r: nat, c: nat)
    requires x >= 1 && r < RowsPerSheet(y) && c < x
    requires RowStart(x, y, q, r) + c < Iterations(n)
    ensures r < RowCount(n, x, y, q)
    ensures 2 * c + 2 <= RowLength(n, x, y, q, r)
    ensures q % 2 == 1 ==> RowLength(n, x, y, q, r) == 2 * x
  {
    var m := Iterations(n) - RowStart(x, y, q, 0);
    assert m > r * x + c;
    if m < Capacity(x, y) {
      DivOf(r * x, x, r, 0);
      DivMono(r * x, m - 1, x);
    }
  }

  /** Step `k` of the loop writes page `n - 1 - 2k` and page `2k` into the
      pair of slots at its position on the front of its sheet, and pages
      `n - 2 - 2k` and `2k + 1` into the mirrored pair on the back. */
  lemma {:induction false} IterationLanding<T>(out: seq<Side<T>>, pages: seq<T>, x: nat, y: int, k: nat)
    requires x >= 1 && IsPlan(out, pages, x, y) && k < Iterations(|pages|)
    ensures var n, p := |pages|, PositionOf(x, y, k);
            var front, back := 2 * p.sheet, 2 * p.sheet + 1;
            && back < |out| && p.row < |out[front]| && p.row < |out[back]|
            && 2 * p.column + 1 < |out[front][p.row]|
            && |out[back][p.row]| == 2 * x
            && 2 * k + 1 <= n - 1 - 2 * k
            && out[front][p.row][2 * p.column] == Some(pages[n - 1 - 2 * k])
            && out[front][p.row][2 * p.column + 1] == Some(pages[2 * k])
            && out[back][p.row][BackRightSlot(x, p.column)] == Some(pages[n - 2 - 2 * k])
            && out[back][p.row][BackLeftSlot(x, p.column)] == Some(pages[2 * k + 1])
  {
    var n, p := |pages|, PositionOf(x, y, k);
    var front, back := 2 * p.sheet, 2 * p.sheet + 1;
    StepInPlan(n, x, y, k);
    BackFacesFront(x, y, front, p.row);
    var c := p.column;
    assert PairColumn(x, front, 2 * c) == c && SlotRole(front, 2 * c) == FrontLeft;
    assert PairColumn(x, front, 2 * c + 1) == c && SlotRole(front, 2 * c + 1) == FrontRight;
    assert PairColumn(x, back, BackRightSlot(x, c)) == c && SlotRole(back, BackRightSlot(x, c)) == BackRight;
    assert PairColumn(x, back, BackLeftSlot(x, c)) == c && SlotRole(back, BackLeftSlot(x, c)) == BackLeft;
  }

  /** The steps on sheet `s`: its first step runs, and every step of it
      runs when a later sheet follows. */
  lemma SheetSteps(n: nat, x: nat, y: int, s: nat)
    requires x >= 1 && Iterations(n) > 0 && s < SheetCount(n, x, y)
    ensures s * Capacity(x, y) < Iterations(n)
    ensures s + 1 < SheetCount(n, x, y) ==> s * Capacity(x, y) + Capacity(x, y) < Iterations(n)
  {
    var cap, steps := Capacity(x, y), Iterations(n);
    MulMono(1, RowsPerSheet(y), x);
    var last := (steps - 1) / cap;
    assert last * cap <= steps - 1;
    MulMono(s, last, cap);
    if s + 1 < SheetCount(n, x, y) {
      MulMono(s + 1, last, cap);
    }
  }

  /** Without a second page nothing is placed: the plan is one sheet whose
      front and back are one empty row each. */
  lemma NoSteps<T>(out: seq<Side<T>>, pages: seq<T>, x: nat, y: int)
    requires x >= 1 && IsPlan(out, pages, x, y) && |pages| <= 1
    ensures out == [[[]], [[]]]
  {
    var n := |pages|;
    assert Iterations(n) == 0;
    assert SheetCount(n, x, y) == 1;
    assert RowStart(x, y, 0, 0) == 0 && RowStart(x, y, 1, 0) == 0;
    assert RowCount(n, x, y, 0) == 1 && RowCount(n, x, y, 1) == 1;
    assert RowLength(n, x, y, 0, 0) == 0 && RowLength(n, x, y, 1, 0) == 0;
    assert |out| == 2 && |out[0]| == 1 && |out[1]| == 1;
    assert |out[0][0]| == 0 && |out[1][0]| == 0;
    assert out[0] == [[]] && out[1] == [[]];
    assert out == [out[0], out[1]];
  }

  /** There is no trailing empty sheet: the sides come in front and back
      pairs, at least one pair, and once two pages exist every sheet starts
      with a step, whose front-right and back-left pages sit in the first
      row. */
  lemma {:induction false} SheetsStartWithStep<T>(out: seq<Side<T>>, pages: seq<T>, x: nat, y: int, q: nat)
    requires x >= 1 && IsPlan(out, pages, x, y)
    ensures |out| >= 2 && |out| % 2 == 0
    ensures |pages| >= 2 && q < |out| ==>
              var k := (q / 2) * Capacity(x, y);
              && 2 * k + 1 < |pages|
              && |out[q]| >= 1
              && (q % 2 == 0 ==> |out[q][0]| >= 2 && out[q][0][1] == Some(pages[2 * k]))
              && (q % 2 == 1 ==> |out[q][0]| == 2 * x && out[q][0][2 * x - 2] == Some(pages[2 * k + 1]))
  {
    if |pages| >= 2 && q < |out| {
      var k := (q / 2) * Capacity(x, y);
      FirstStepOf(|pages|, x, y, q / 2);
      IterationLanding(out, pages, x, y, k);
    }
  }

  /** The first step of sheet `s` runs and sits in the sheet's top-left
      position. */
  lemma FirstStepOf(n: nat, x: nat, y: int, s: nat)
    requires x >= 1 && Iterations(n) > 0 && s < SheetCount(n, x, y)
    ensures s * Capacity(x, y) < Iterations(n)
    ensures PositionOf(x, y, s * Capacity(x, y)) == Position(s, 0, 0)
  {
    var cap := Capacity(x, y);
    var k := s * cap;
    SheetSteps(n, x, y, s);
    MulMono(1, RowsPerSheet(y), x);
    DivOf(k, cap, s, 0);
    assert k == (s * RowsPerSheet(y)) * x;
    DivOf(k, x, s * RowsPerSheet(y), 0);
  }

  /** Every sheet but the last is full: every row of the grid, every slot
      of every row holds a page. */
  lemma {:induction false} EarlierSheetsFull<T>(out: seq<Side<T>>, pages: seq<T>, x: nat, y: int, q: nat, r: nat, t: nat)
    requires x >= 1 && IsPlan(out, pages, x, y) && q + 2 < |out|
    ensures |out[q]| == RowsPerSheet(y)
    ensures r < |out[q]| ==> |out[q][r]| == 2 * x
    ensures r < |out[q]| && t < 2 * x ==> out[q][r][t].Some?
  {
    var n, cap, s := |pages|, Capacity(x, y), q / 2;
    assert s + 1 < SheetCount(n, x, y);
    SheetSteps(n, x, y, s);
    assert RowStart(x, y, q, 0) + cap < Iterations(n);
    if r < |out[q]| {
      RowFits(x, y, r);
      if t < 2 * x {
        assert 0 <= PairColumn(x, q, t) < x;
      }
    }
  }

  /** The back slots of a pair column mirror the front ones: the front's
      left slot `2c` faces the back's right slot, its right slot `2c + 1`
      the back's left slot, both stay inside the row, and no two pair
      columns share a back slot. */
  lemma MirrorSlots(x: nat, c: nat, d: nat)
    requires c < x && d < x
    ensures BackRightSlot(x, c) == 2 * x - 1 - 2 * c
    ensures BackLeftSlot(x, c) == 2 * x - 1 - (2 * c + 1)
    ensures 0 <= BackLeftSlot(x, c) && BackRightSlot(x, c) < 2 * x
    ensures c != d ==> BackRightSlot(x, c) != BackRightSlot(x, d) && BackRightSlot(x, c) != BackLeftSlot(x, d)
                       && BackLeftSlot(x, c) != BackLeftSlot(x, d)
  {
  }

  /** A row count below 1 gives exactly the plan of one row per sheet. */
  lemma NonPositiveRows<T>(out: seq<Side<T>>, pages: seq<T>, x: nat, y: int)
    requires x >= 1 && y < 1
    ensures IsPlan(out, pages, x, y) <==> IsPlan(out, pages, x, 1)
  {
    var n := |pages|;
    assert Capacity(x, y) == Capacity(x, 1);
    assert SheetCount(n, x, y) == SheetCount(n, x, 1);
    assert forall q: nat, r: nat :: RowStart(x, y, q, r) == RowStart(x, 1, q, r);
    assert forall q: nat :: RowCount(n, x, y, q) == RowCount(n, x, 1, q);
    assert forall q: nat, r: nat :: RowLength(n, x, y, q, r) == RowLength(n, x, 1, q, r);
    assert forall q: nat, r: nat, t: nat :: Placed(pages, x, y, q, r, t) == Placed(pages, x, 1, q, r, t);
  }
}
