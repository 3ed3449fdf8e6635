/** Signature placement.  Pages are taken in pairs from both ends of the page
    list towards its middle; each step fills two slots on the front of the
    current grid position and the two horizontally mirrored slots on the back.
    Grid positions advance column by column, then row by row; a full sheet is
    sealed into the output, front then back, only when another step follows. */
module Signature {
  import opened Wrappers

  /** A row of slots; a slot is a hole (`None`) or a page.  Rows are sparse
      arrays in the source: writing past the end leaves holes. */
  type Row<T> = seq<Option<T>>

  /** One printed side: its rows, top to bottom. */
  type Side<T> = seq<Row<T>>

  /** Number of steps for `n` pages: the loop runs while `2k < n - 1 - 2k`,
      so exactly the steps `k` with `4k < n - 1`. */
  function Iterations(n: nat): (count: nat)
    ensures 4 * count >= n - 1
    ensures count == 0 || 4 * (count - 1) < n - 1
  {
    if n <= 1 then 0 else (n + 2) / 4
  }

  /** Rows per sheet: a row count below 1 seals a sheet after every row. */
  function RowsPerSheet(y: int): (rows: nat)
    ensures rows >= 1 && rows >= y
    ensures y >= 1 ==> rows == y
    ensures y < 1 ==> rows == 1
  {
    if y < 1 then 1 else y
  }

  /** Steps per sheet. */
  function Capacity(x: nat, y: int): nat
  {
    x * RowsPerSheet(y)
  }

  /** The four slots one step fills. */
  datatype Role = FrontLeft | FrontRight | BackRight | BackLeft

  /** The page index step `k` reads for a role: `j`, `i`, `j - 1`, `i + 1`
      with `i = 2k` and `j = n - 1 - 2k`. */
  function Source(n: int, k: int, role: Role): int
  {
    match role
    case FrontLeft => n - 1 - 2 * k
    case FrontRight => 2 * k
    case BackRight => n - 2 - 2 * k
    case BackLeft => 2 * k + 1
  }

  /** Back slots of pair column `c`: the front's pair mirrored left to right. */
  function BackRightSlot(x: int, c: int): int
  {
    2 * (x - c) - 1
  }

  function BackLeftSlot(x: int, c: int): int
  {
    2 * (x - c - 1)
  }

  /** The first step placed in row `r` of output side `q`; sides `2s` and
      `2s + 1` are the front and back of sheet `s`. */
  function RowStart(x: nat, y: int, q: nat, r: nat): nat
  {
    (q / 2) * Capacity(x, y) + r * x
  }

  /** The pair column that slot `t` of side `q` belongs to: in reading order
      on a front (even `q`), mirrored on a back (odd `q`). */
  function PairColumn(x: int, q: nat, t: nat): int
  {
    if q % 2 == 0 then t / 2 else x - 1 - t / 2
  }

  function SlotRole(q: nat, t: nat): Role
  {
    if q % 2 == 0 then (if t % 2 == 0 then FrontLeft else FrontRight)
    else (if t % 2 == 1 then BackRight else BackLeft)
  }

  /** What slot `t` of row `r` of output side `q` holds: the page its step
      reads for the slot's role, or a hole when no such step runs. */
  function Placed<T>(pages: seq<T>, x: nat, y: int, q: nat, r: nat, t: nat): Option<T>
    requires x >= 1
  {
    var k := RowStart(x, y, q, r) + PairColumn(x, q, t);
    if t < 2 * x && k < Iterations(|pages|) then Some(pages[Source(|pages|, k, SlotRole(q, t))]) else None
  }

  /** Number of sheets: one even without any step, and no sheet without a step. */
  function SheetCount(n: nat, x: nat, y: int): nat
    requires x >= 1
  {
    var steps := Iterations(n);
    if steps == 0 then 1 else (steps - 1) / Capacity(x, y) + 1
  }

  /** Number of rows on output side `q`. */
  function RowCount(n: nat, x: nat, y: int, q: nat): nat
    requires x >= 1
  {
    var m := Iterations(n) - RowStart(x, y, q, 0);
    if m <= 0 then 1 else if m >= Capacity(x, y) then RowsPerSheet(y) else (m - 1) / x + 1
  }

  /** Length of row `r` of output side `q`: a front row ends after its last
      filled pair, a back row spans the whole grid width once written. */
  function RowLength(n: nat, x: nat, y: int, q: nat, r: nat): nat
    requires x >= 1
  {
    var m := Iterations(n) - RowStart(x, y, q, r);
    if m <= 0 then 0 else if q % 2 == 1 || m >= x then 2 * x else 2 * m
  }

  /** `out` is the imposition of `pages` on an `x` by `y` grid: sides
      alternate front and back, and every row and slot is as placed. */
  ghost predicate IsPlan<T>(out: seq<Side<T>>, pages: seq<T>, x: nat, y: int)
    requires x >= 1
  {
    var n := |pages|;
    && |out| == 2 * SheetCount(n, x, y)
    && (forall q :: 0 <= q < |out| ==> |out[q]| == RowCount(n, x, y, q))
    && (forall q, r :: 0 <= q < |out| && 0 <= r < |out[q]| ==> |out[q][r]| == RowLength(n, x, y, q, r))
    && (forall q, r, t :: 0 <= q < |out| && 0 <= r < |out[q]| && 0 <= t < |out[q][r]| ==>
          out[q][r][t] == Placed(pages, x, y, q, r, t))
  }

  /** `row[idx] = v` on a sparse array: the row grows to `idx + 1` when
      needed, the gap becomes holes, and every other slot keeps its value. */
  function Assign<T>(row: Row<T>, idx: nat, v: T): (r: Row<T>)
    ensures |r| == if idx < |row| then |row| else idx + 1
    ensures r[idx] == Some(v)
    ensures forall t :: 0 <= t < |r| && t != idx ==> r[t] == if t < |row| then row[t] else None
  {
    if idx < |row| then row[idx := Some(v)] else row + seq(idx - |row|, _ => None) + [Some(v)]
  }

  /** Row `r` of side `q` while the first `filled` pairs of that row are
      written: a front row holds exactly those pairs; a back row spans the
      grid width once written and holds those pairs in mirrored columns,
      holes elsewhere. */
  ghost predicate RowOk<T>(pages: seq<T>, x: nat, y: int, q: nat, r: nat, row: Row<T>, filled: nat)
    requires x >= 1
  {
    && |row| == (if q % 2 == 0 then 2 * filled else if filled == 0 then 0 else 2 * x)
    && forall t :: 0 <= t < |row| ==>
         row[t] == if PairColumn(x, q, t) >= filled then None else Placed(pages, x, y, q, r, t)
  }

  /** The sides sealed so far: whole sheets, every row of full width. */
  ghost predicate SealedOk<T>(pages: seq<T>, x: nat, y: int, out: seq<Side<T>>)
    requires x >= 1
  {
    && |out| % 2 == 0
    && (forall q :: 0 <= q < |out| ==> |out[q]| == RowsPerSheet(y))
    && (forall q, r :: 0 <= q < |out| && 0 <= r < |out[q]| ==> RowOk(pages, x, y, q, r, out[q][r], x))
  }

  /** The side `q` being filled: rows above `row` are full, row `row` has its
      first `column` pairs. */
  ghost predicate SideOk<T>(pages: seq<T>, x: nat, y: int, q: nat, side: Side<T>, row: nat, column: nat)
    requires x >= 1
  {
    && |side| == row + 1
    && (forall r :: 0 <= r < row ==> RowOk(pages, x, y, q, r, side[r], x))
    && RowOk(pages, x, y, q, row, side[row], column)
  }

  /** The state of the placement loop after `k` steps. */
  ghost predicate Progress<T>(pages: seq<T>, x: nat, y: int, k: nat,
                              out: seq<Side<T>>, front: Side<T>, back: Side<T>, row: nat, column: nat)
    requires x >= 1
  {
    && k <= Iterations(|pages|)
    && column <= x && row < RowsPerSheet(y)
    && k == RowStart(x, y, |out|, row) + column
    && SealedOk(pages, x, y, out)
    && SideOk(pages, x, y, |out|, front, row, column)
    && SideOk(pages, x, y, |out| + 1, back, row, column)
  }

  /** Places `pages` on sheets of `numColumns` pairs by `numRows` rows and
      returns the sides, front and back of each sheet in turn. */
  method CalculatePositions<T>(pages: seq<T>, numColumns: nat, numRows: int) returns (out: seq<Side<T>>)
    requires numColumns >= 1
    ensures IsPlan(out, pages, numColumns, numRows)
  {
    var n := |pages|;
    var row, column := 0, 0;
    var front: Side<T>, back: Side<T> := [[]], [[]];
    out := [];
    ghost var k := 0;
    var i, j := 0, n - 1;
    while i < j
      invariant i == 2 * k && j == n - 1 - 2 * k
      invariant Progress(pages, numColumns, numRows, k, out, front, back, row, column)
      invariant k > 0 ==> column >= 1
    {
      out, front, back, row, column := PlaceNext(pages, numColumns, numRows, k, out, front, back, row, column, i, j);
      i, j, k := i + 2, j - 2, k + 1;
    }
    FinalShape(pages, numColumns, numRows, out, front, back, row, column);
    out := out + [front, back];
  }

  /** Moves to the next pair column, to a new row when the row is full, and
      seals the sheet into `out` when it is full as well. */
  method NextSlot<T>(ghost pages: seq<T>, x: nat, y: int, ghost k: nat,
                     out: seq<Side<T>>, front: Side<T>, back: Side<T>, row: nat, column: nat)
    returns (out': seq<Side<T>>, front': Side<T>, back': Side<T>, row': nat, column': nat)
    requires x >= 1
    requires Progress(pages, x, y, k, out, front, back, row, column)
    ensures Progress(pages, x, y, k, out', front', back', row', column') && column' < x
    ensures column < x ==> out' == out && front' == front && back' == back && row' == row && column' == column
    ensures column == x && row + 1 < y ==>
              out' == out && front' == front + [[]] && back' == back + [[]] && row' == row + 1 && column' == 0
    ensures column == x && row + 1 >= y ==>
              out' == out + [front, back] && front' == [[]] && back' == [[]] && row' == 0 && column' == 0
  {
    out', front', back', row', column' := out, front, back, row, column;
    if column' == x {
      row' := row' + 1;
      column' := 0;
      if row' < y {
        AdvanceRow(pages, x, y, k, out, front, back, row);
        // `front[row] = []` with `row == front.length` appends an empty row
        front' := front' + [[]];
        back' := back' + [[]];
      } else {
        SealSheet(pages, x, y, k, out, front, back, row);
        out' := out' + [front', back'];
        front', back' := [[]], [[]];
        row' := 0;
      }
    }
  }

  /** One iteration of the placement loop: move to the next grid position,
      then write the step's four pages. */
  method PlaceNext<T>(pages: seq<T>, x: nat, y: int, ghost k: nat,
                      out: seq<Side<T>>, front: Side<T>, back: Side<T>, row: nat, column: nat, i: int, j: int)
    returns (out': seq<Side<T>>, front': Side<T>, back': Side<T>, row': nat, column': nat)
    requires x >= 1 && i == 2 * k && j == |pages| - 1 - 2 * k && i < j
    requires Progress(pages, x, y, k, out, front, back, row, column)
    ensures Progress(pages, x, y, k + 1, out', front', back', row', column') && column' >= 1
  {
    out', front', back', row', column' := NextSlot(pages, x, y, k, out, front, back, row, column);
    Step(pages, x, y, k, out', front', back', row', column', i, j);
    var frontRow, backRow := front'[row'], back'[row'];
    frontRow := Assign(frontRow, column' * 2, pages[j]);
    frontRow := Assign(frontRow, column' * 2 + 1, pages[i]);
    backRow := Assign(backRow, BackRightSlot(x, column'), pages[j - 1]);
    backRow := Assign(backRow, BackLeftSlot(x, column'), pages[i + 1]);
    front', back' := front'[row' := frontRow], back'[row' := backRow];
    column' := column' + 1;
  }

  /* Arithmetic helpers. */

  /** The back of a sheet starts at the same iteration as its front. */
  lemma BackFacesFront(x: nat, y: int, q: nat, r: nat)
    requires q % 2 == 0
    ensures (q + 1) % 2 == 1
    ensures RowStart(x, y, q + 1, r) == RowStart(x, y, q, r)
  {
    DivOf(q, 2, q / 2, 0);
    DivOf(q + 1, 2, q / 2, 1);
  }

  lemma MulMono(a: int, b: int, c: int)
    requires 0 <= a <= b && 0 <= c
    ensures a * c <= b * c
  {
    assert b * c - a * c == (b - a) * c;
  }

  lemma DivOf(a: int, b: int, quot: int, rem: int)
    requires b > 0 && 0 <= rem < b && a == quot * b + rem
    ensures a / b == quot && a % b == rem
  {
    var d := a / b;
    var e := a % b;
    assert a == d * b + e;
    assert (quot - d) * b == e - rem;
    if quot > d {
      MulMono(1, quot - d, b);
    }
    if quot < d {
      MulMono(1, d - quot, b);
    }
  }

  /** A row above row `row` of the same side ends before `row` starts. */
  lemma EarlierRow(x: nat, y: int, q: nat, r: nat, row: nat)
    requires r < row
    ensures RowStart(x, y, q, r) + x <= RowStart(x, y, q, row)
  {
    MulMono(r + 1, row, x);
    assert (r + 1) * x == r * x + x;
  }

  /** A row index below the rows per sheet leaves room for a whole row. */
  lemma RowFits(x: nat, y: int, r: nat)
    requires r < RowsPerSheet(y)
    ensures r * x + x <= Capacity(x, y)
  {
    MulMono(r + 1, RowsPerSheet(y), x);
  }

  /** A loop step reads only pages inside the list. */
  lemma StepBounds(n: nat, k: nat)
    requires 2 * k < n - 1 - 2 * k
    ensures k < Iterations(n)
    ensures forall role :: 0 <= Source(n, k, role) < n
  {
  }

  /* One lemma per change the loop makes to its state. */

  lemma NewRow<T>(pages: seq<T>, x: nat, y: int, q: nat, side: Side<T>, row: nat)
    requires x >= 1
    requires SideOk(pages, x, y, q, side, row, x)
    ensures SideOk(pages, x, y, q, side + [[]], row + 1, 0)
  {
    var s := side + [[]];
    forall r | 0 <= r < row + 1
      ensures RowOk(pages, x, y, q, r, s[r], x)
    {
      assert s[r] == side[r];
    }
  }

  lemma ReplaceRow<T>(pages: seq<T>, x: nat, y: int, q: nat, side: Side<T>, row: nat, column: nat, newRow: Row<T>)
    requires x >= 1
    requires SideOk(pages, x, y, q, side, row, column)
    requires RowOk(pages, x, y, q, row, newRow, column + 1)
    ensures SideOk(pages, x, y, q, side[row := newRow], row, column + 1)
  {
    var s := side[row := newRow];
    forall r | 0 <= r < row
      ensures RowOk(pages, x, y, q, r, s[r], x)
    {
      assert s[r] == side[r];
    }
  }

  lemma AdvanceRow<T>(pages: seq<T>, x: nat, y: int, k: nat,
                      out: seq<Side<T>>, front: Side<T>, back: Side<T>, row: nat)
    requires x >= 1 && row + 1 < y
    requires Progress(pages, x, y, k, out, front, back, row, x)
    ensures Progress(pages, x, y, k, out, front + [[]], back + [[]], row + 1, 0)
  {
    NewRow(pages, x, y, |out|, front, row);
    NewRow(pages, x, y, |out| + 1, back, row);
    assert RowStart(x, y, |out|, row) + x == RowStart(x, y, |out|, row + 1);
  }

  /** One step writes its four pages and moves to the next pair column. */
  lemma Step<T>(pages: seq<T>, x: nat, y: int, k: nat,
                out: seq<Side<T>>, front: Side<T>, back: Side<T>, row: nat, column: nat, i: int, j: int)
    requires x >= 1 && column < x
    requires i == 2 * k && j == |pages| - 1 - 2 * k && i < j
    requires Progress(pages, x, y, k, out, front, back, row, column)
    ensures 0 <= i && 0 < j < |pages| && i + 1 < |pages|
    ensures Progress(pages, x, y, k + 1, out,
                     front[row := Assign(Assign(front[row], column * 2, pages[j]), column * 2 + 1, pages[i])],
                     back[row := Assign(Assign(back[row], BackRightSlot(x, column), pages[j - 1]),
                                        BackLeftSlot(x, column), pages[i + 1])],
                     row, column + 1)
  {
    StepBounds(|pages|, k);
    BackFacesFront(x, y, |out|, row);
    WriteFront(pages, x, y, |out|, row, column, front[row], k, i, j);
    WriteBack(pages, x, y, |out| + 1, row, column, back[row], k, i, j);
    ReplaceRow(pages, x, y, |out|, front, row, column,
               Assign(Assign(front[row], column * 2, pages[j]), column * 2 + 1, pages[i]));
    ReplaceRow(pages, x, y, |out| + 1, back, row, column,
               Assign(Assign(back[row], BackRightSlot(x, column), pages[j - 1]), BackLeftSlot(x, column), pages[i + 1]));
  }

  lemma SealSheet<T>(pages: seq<T>, x: nat, y: int, k: nat,
                     out: seq<Side<T>>, front: Side<T>, back: Side<T>, row: nat)
    requires x >= 1 && row + 1 >= y
    requires Progress(pages, x, y, k, out, front, back, row, x)
    ensures Progress(pages, x, y, k, out + [front, back], [[]], [[]], 0, 0)
  {
    var o := out + [front, back];
    var sheet, cap := |out| / 2, Capacity(x, y);
    DivOf(|out| + 2, 2, sheet + 1, 0);
    assert RowsPerSheet(y) == row + 1;
    assert row * x + x == (row + 1) * x == cap;
    assert (sheet + 1) * cap == sheet * cap + cap;
    assert RowStart(x, y, |out|, row) + x == RowStart(x, y, |o|, 0);
    forall q, r | 0 <= q < |o| && 0 <= r < |o[q]|
      ensures RowOk(pages, x, y, q, r, o[q][r], x)
    {
      if q < |out| {
        assert o[q] == out[q];
      } else if q == |out| {
        assert o[q] == front;
      } else {
        assert o[q] == back;
      }
    }
  }

  /** Step `k`, at pair column `c` of row `r` of front `q`, writes page `j`
      then page `i` into the row. */
  lemma WriteFront<T>(pages: seq<T>, x: nat, y: int, q: nat, r: nat, c: nat, row: Row<T>, k: nat, i: int, j: int)
    requires x >= 1 && q % 2 == 0 && c < x
    requires k == RowStart(x, y, q, r) + c && k < Iterations(|pages|)
    requires i == 2 * k && j == |pages| - 1 - 2 * k
    requires RowOk(pages, x, y, q, r, row, c)
    ensures 0 <= i < j < |pages|
    ensures RowOk(pages, x, y, q, r, Assign(Assign(row, c * 2, pages[j]), c * 2 + 1, pages[i]), c + 1)
  {
    var row' := Assign(Assign(row, c * 2, pages[j]), c * 2 + 1, pages[i]);
    forall t | 0 <= t < |row'|
      ensures row'[t] == if PairColumn(x, q, t) >= c + 1 then None else Placed(pages, x, y, q, r, t)
    {
      if t < 2 * c {
        assert row'[t] == row[t];
      }
    }
  }

  /** Step `k`, at pair column `c` of row `r` of back `q`, writes page
      `j - 1` then page `i + 1` into the mirrored slots of the row. */
  lemma WriteBack<T>(pages: seq<T>, x: nat, y: int, q: nat, r: nat, c: nat, row: Row<T>, k: nat, i: int, j: int)
    requires x >= 1 && q % 2 == 1 && c < x
    requires k == RowStart(x, y, q, r) + c && k < Iterations(|pages|)
    requires i == 2 * k && j == |pages| - 1 - 2 * k
    requires RowOk(pages, x, y, q, r, row, c)
    ensures 0 <= i + 1 <= j < |pages| && 0 <= j - 1
    ensures RowOk(pages, x, y, q, r,
                  Assign(Assign(row, BackRightSlot(x, c), pages[j - 1]), BackLeftSlot(x, c), pages[i + 1]), c + 1)
  {
    var row' := Assign(Assign(row, BackRightSlot(x, c), pages[j - 1]), BackLeftSlot(x, c), pages[i + 1]);
    forall t | 0 <= t < |row'|
      ensures row'[t] == if PairColumn(x, q, t) >= c + 1 then None else Placed(pages, x, y, q, r, t)
    {
      BackSlot(pages, x, y, q, r, c, row, k, i, j, t);
    }
  }

  /** Slot `t` of a back row after step `k`'s two back writes. */
  lemma BackSlot<T>(pages: seq<T>, x: nat, y: int, q: nat, r: nat, c: nat, row: Row<T>, k: nat, i: int, j: int, t: nat)
    requires x >= 1 && q % 2 == 1 && c < x
    requires k == RowStart(x, y, q, r) + c && k < Iterations(|pages|)
    requires i == 2 * k && j == |pages| - 1 - 2 * k
    requires RowOk(pages, x, y, q, r, row, c)
    requires 0 <= i + 1 <= j < |pages| && 0 <= j - 1 && t < 2 * x
    ensures var row' := Assign(Assign(row, BackRightSlot(x, c), pages[j - 1]), BackLeftSlot(x, c), pages[i + 1]);
            |row'| == 2 * x &&
            row'[t] == if PairColumn(x, q, t) >= c + 1 then None else Placed(pages, x, y, q, r, t)
  {
    var row1 := Assign(row, BackRightSlot(x, c), pages[j - 1]);
    var row' := Assign(row1, BackLeftSlot(x, c), pages[i + 1]);
    if t != BackRightSlot(x, c) && t != BackLeftSlot(x, c) {
      assert PairColumn(x, q, t) != c;
      assert row'[t] == row1[t];
    }
  }

  /** Side `q` of the output has the rows, row lengths and slots of the plan. */
  ghost predicate SideFinal<T>(pages: seq<T>, x: nat, y: int, q: nat, side: Side<T>)
    requires x >= 1
  {
    var n := |pages|;
    && |side| == RowCount(n, x, y, q)
    && (forall r :: 0 <= r < |side| ==> |side[r]| == RowLength(n, x, y, q, r))
    && (forall r, t :: 0 <= r < |side| && 0 <= t < |side[r]| ==> side[r][t] == Placed(pages, x, y, q, r, t))
  }

  lemma FinalShape<T>(pages: seq<T>, x: nat, y: int,
                      out: seq<Side<T>>, front: Side<T>, back: Side<T>, row: nat, column: nat)
    requires x >= 1
    requires Progress(pages, x, y, Iterations(|pages|), out, front, back, row, column)
    requires Iterations(|pages|) > 0 ==> column >= 1
    ensures IsPlan(out + [front, back], pages, x, y)
  {
    var o := out + [front, back];
    SheetsOf(|pages|, x, y, |out|, row, column);
    forall q | 0 <= q < |o|
      ensures SideFinal(pages, x, y, q, o[q])
    {
      if q < |out| {
        assert o[q] == out[q];
        SealedSideFinal(pages, x, y, q, out[q], |out|, row, column);
      } else if q == |out| {
        assert o[q] == front;
        OpenSideFinal(pages, x, y, q, front, row, column);
      } else {
        assert o[q] == back;
        BackFacesFront(x, y, |out|, row);
        OpenSideFinal(pages, x, y, q, back, row, column);
      }
    }
  }

  /** When the last step sits at pair column `column` of row `row` of front
      `q`, the plan has `q / 2 + 1` sheets. */
  lemma SheetsOf(n: nat, x: nat, y: int, q: nat, row: nat, column: nat)
    requires x >= 1 && q % 2 == 0 && column <= x && row < RowsPerSheet(y)
    requires Iterations(n) == RowStart(x, y, q, row) + column
    requires Iterations(n) > 0 ==> column >= 1
    ensures SheetCount(n, x, y) == q / 2 + 1
  {
    var steps, s, cap := Iterations(n), q / 2, Capacity(x, y);
    RowFits(x, y, row);
    MulMono(0, row, x);
    MulMono(1, RowsPerSheet(y), x);
    if steps == 0 {
      DivOf(0, cap, s, 0);
    } else {
      DivOf(steps - 1, cap, s, row * x + column - 1);
    }
  }

  /** A side sealed before the last sheet: every row is full and every
      step it holds runs. */
  lemma SealedSideFinal<T>(pages: seq<T>, x: nat, y: int, q: nat, side: Side<T>, last: nat, row: nat, column: nat)
    requires x >= 1 && q < last && last % 2 == 0
    requires Iterations(|pages|) == RowStart(x, y, last, row) + column
    requires |side| == RowsPerSheet(y)
    requires forall r :: 0 <= r < |side| ==> RowOk(pages, x, y, q, r, side[r], x)
    ensures SideFinal(pages, x, y, q, side)
  {
    SheetBefore(x, y, q, last, row);
    forall r | 0 <= r < |side|
      ensures |side[r]| == RowLength(|pages|, x, y, q, r)
      ensures forall t :: 0 <= t < |side[r]| ==> side[r][t] == Placed(pages, x, y, q, r, t)
    {
      RowFits(x, y, r);
      RowFinal(pages, x, y, q, r, side[r], x);
    }
  }

  /** A sheet before sheet `last / 2` ends before any row of that sheet. */
  lemma SheetBefore(x: nat, y: int, q: nat, last: nat, row: nat)
    requires q < last && last % 2 == 0
    ensures RowStart(x, y, q, 0) + Capacity(x, y) <= RowStart(x, y, last, row)
  {
    var cap := Capacity(x, y);
    MulMono(q / 2 + 1, last / 2, cap);
    MulMono(0, row, x);
    assert (q / 2 + 1) * cap == (q / 2) * cap + cap;
  }

  /** The last sheet's side: full rows above `row`, and row `row` holding the
      steps up to the last one. */
  lemma OpenSideFinal<T>(pages: seq<T>, x: nat, y: int, q: nat, side: Side<T>, row: nat, column: nat)
    requires x >= 1 && column <= x && row < RowsPerSheet(y)
    requires Iterations(|pages|) == RowStart(x, y, q, row) + column
    requires Iterations(|pages|) > 0 ==> column >= 1
    requires SideOk(pages, x, y, q, side, row, column)
    ensures SideFinal(pages, x, y, q, side)
  {
    var n := |pages|;
    OpenRowCount(n, x, y, q, row, column);
    forall r | 0 <= r < |side|
      ensures |side[r]| == RowLength(n, x, y, q, r)
      ensures forall t :: 0 <= t < |side[r]| ==> side[r][t] == Placed(pages, x, y, q, r, t)
    {
      if r < row {
        EarlierRow(x, y, q, r, row);
        RowFinal(pages, x, y, q, r, side[r], x);
      } else {
        RowFinal(pages, x, y, q, r, side[r], column);
      }
    }
  }

  /** The side holding the last step at row `row` has `row + 1` rows. */
  lemma OpenRowCount(n: nat, x: nat, y: int, q: nat, row: nat, column: nat)
    requires x >= 1 && column <= x && row < RowsPerSheet(y)
    requires Iterations(n) == RowStart(x, y, q, row) + column
    requires Iterations(n) > 0 ==> column >= 1
    ensures RowCount(n, x, y, q) == row + 1
  {
    var cap := Capacity(x, y);
    var m := row * x + column;
    assert Iterations(n) - RowStart(x, y, q, 0) == m;
    RowFits(x, y, row);
    if column == 0 {
      if row >= 1 {
        MulMono(1, row, x);
      }
      assert row == 0;
    } else if m >= cap {
      assert m == row * x + x == (row + 1) * x;
      DivOf(m, x, row + 1, 0);
      DivOf(cap, x, RowsPerSheet(y), 0);
    } else {
      DivOf(m - 1, x, row, column - 1);
    }
  }

  /** A row whose written pairs are exactly the steps that run in it. */
  lemma RowFinal<T>(pages: seq<T>, x: nat, y: int, q: nat, r: nat, row: Row<T>, filled: nat)
    requires x >= 1 && filled <= x
    requires RowStart(x, y, q, r) + filled <= Iterations(|pages|)
    requires filled == x || RowStart(x, y, q, r) + filled == Iterations(|pages|)
    requires RowOk(pages, x, y, q, r, row, filled)
    ensures |row| == RowLength(|pages|, x, y, q, r)
    ensures forall t :: 0 <= t < |row| ==> row[t] == Placed(pages, x, y, q, r, t)
  {
    forall t | 0 <= t < |row|
      ensures row[t] == Placed(pages, x, y, q, r, t)
    {
      assert 0 <= PairColumn(x, q, t) < x;
    }
  }
}
