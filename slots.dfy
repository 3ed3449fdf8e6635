/** Which slots of the plan hold each page.  A slot of the result receives
    the write of one step and role: the step of its row and pair column,
    the role of its side and position in the pair.  Different slots of a
    plan receive different writes, so the page counts of `Coverage` are
    counts of slots of the result. */
module Slots {
  import opened Wrappers
  import opened Signature
  import opened Landing
  import opened Coverage

  /** Slot `index` of row `row` of output side `side`. */
  datatype Slot = Slot(side: nat, row: nat, index: nat)

  /** The slot exists in `out`. */
  ghost predicate InOut<T>(out: seq<Side<T>>, s: Slot)
  {
    s.side < |out| && s.row < |out[s.side]| && s.index < |out[s.side][s.row]|
  }

  /** The step and role whose write lands in slot `s`. */
  function ReadOf(x: nat, y: int, s: Slot): (int, Role)
  {
    (RowStart(x, y, s.side, s.row) + PairColumn(x, s.side, s.index), SlotRole(s.side, s.index))
  }

  /** Slot `s` of `out` holds page `p`: the slot exists, and the step whose
      write lands in it runs and reads page `p` for the slot's role. */
  ghost predicate Holds<T>(out: seq<Side<T>>, pages: seq<T>, x: nat, y: int, p: int, s: Slot)
  {
    && InOut(out, s)
    && ReadOf(x, y, s).0 >= 0
    && Places(|pages|, p, ReadOf(x, y, s).0, ReadOf(x, y, s).1)
  }

  /** The slot that step `k` writes for `role`: the front pair of its
      position, or the mirrored pair on the back of the same sheet.  It is
      an inverse of `ReadOf`. */
  function SlotOf(x: nat, y: int, k: nat, role: Role): (s: Slot)
    requires x >= 1
    ensures var p := PositionOf(x, y, k);
            && s.side == (if role == FrontLeft || role == FrontRight then 2 * p.sheet else 2 * p.sheet + 1)
            && s.row == p.row && s.index < 2 * x
    ensures ReadOf(x, y, s) == (k, role)
  {
    var p := PositionOf(x, y, k);
    var c := p.column;
    BackFacesFront(x, y, 2 * p.sheet, p.row);
    match role
    case FrontLeft => Slot(2 * p.sheet, p.row, 2 * c)
    case FrontRight => Slot(2 * p.sheet, p.row, 2 * c + 1)
    case BackRight => Slot(2 * p.sheet + 1, p.row, BackRightSlot(x, c))
    case BackLeft => Slot(2 * p.sheet + 1, p.row, BackLeftSlot(x, c))
  }

  /** A slot of a plan lies inside the grid. */
  lemma SlotInGrid<T>(out: seq<Side<T>>, pages: seq<T>, x: nat, y: int, s: Slot)
    requires x >= 1 && IsPlan(out, pages, x, y) && InOut(out, s)
    ensures s.row < RowsPerSheet(y) && s.index < 2 * x
  {
    RowCountBound(|pages|, x, y, s.side);
  }

  /** No side has more rows than a sheet. */
  lemma RowCountBound(n: nat, x: nat, y: int, q: nat)
    requires x >= 1
    ensures RowCount(n, x, y, q) <= RowsPerSheet(y)
  {
    var rows, cap := RowsPerSheet(y), Capacity(x, y);
    var m := Iterations(n) - RowStart(x, y, q, 0);
    if 0 < m < cap {
      DivMono(m - 1, cap - 1, x);
      DivOf(cap - 1, x, rows - 1, x - 1);
    }
  }

  /** Different slots of the grid receive different writes. */
  lemma ReadsDistinct(x: nat, y: int, s1: Slot, s2: Slot)
    requires x >= 1
    requires s1.row < RowsPerSheet(y) && s2.row < RowsPerSheet(y)
    requires s1.index < 2 * x && s2.index < 2 * x
    requires ReadOf(x, y, s1) == ReadOf(x, y, s2)
    ensures s1 == s2
  {
    var rows := RowsPerSheet(y);
    var c1, c2 := PairColumn(x, s1.side, s1.index), PairColumn(x, s2.side, s2.index);
    var m1, m2 := (s1.side / 2) * rows + s1.row, (s2.side / 2) * rows + s2.row;
    RowIndex(x, y, s1.side, s1.row);
    RowIndex(x, y, s2.side, s2.row);
    DivOf(m1 * x + c1, x, m1, c1);
    DivOf(m2 * x + c2, x, m2, c2);
    DivOf(m1, rows, s1.side / 2, s1.row);
    DivOf(m2, rows, s2.side / 2, s2.row);
    assert s1.side % 2 == s2.side % 2 && s1.index % 2 == s2.index % 2;
  }

  /** The first step of a row, counted in rows from the start. */
  lemma RowIndex(x: nat, y: int, q: nat, r: nat)
    ensures RowStart(x, y, q, r) == ((q / 2) * RowsPerSheet(y) + r) * x
  {
    var rows := RowsPerSheet(y);
    assert (q / 2) * (x * rows) == ((q / 2) * rows) * x;
  }

  /** In a plan, two slots that receive the same write are the same slot. */
  lemma SlotUnique<T>(out: seq<Side<T>>, pages: seq<T>, x: nat, y: int, s1: Slot, s2: Slot)
    requires x >= 1 && IsPlan(out, pages, x, y)
    requires InOut(out, s1) && InOut(out, s2)
    requires ReadOf(x, y, s1) == ReadOf(x, y, s2)
    ensures s1 == s2
  {
    SlotInGrid(out, pages, x, y, s1);
    SlotInGrid(out, pages, x, y, s2);
    ReadsDistinct(x, y, s1, s2);
  }

  /** Every write of a step that runs lands in a slot of the plan. */
  lemma SlotForRead<T>(out: seq<Side<T>>, pages: seq<T>, x: nat, y: int, k: nat, role: Role)
    requires x >= 1 && IsPlan(out, pages, x, y) && k < Iterations(|pages|)
    ensures InOut(out, SlotOf(x, y, k, role))
    ensures Holds(out, pages, x, y, Source(|pages|, k, role), SlotOf(x, y, k, role))
  {
    IterationLanding(out, pages, x, y, k);
  }

  /** A slot holds a page exactly when it is not a hole, and then it holds
      that page. */
  lemma SlotContents<T>(out: seq<Side<T>>, pages: seq<T>, x: nat, y: int, s: Slot)
    requires x >= 1 && IsPlan(out, pages, x, y) && InOut(out, s)
    ensures forall p :: Holds(out, pages, x, y, p, s) ==>
              0 <= p < |pages| && out[s.side][s.row][s.index] == Some(pages[p])
    ensures out[s.side][s.row][s.index] == None <==> forall p :: !Holds(out, pages, x, y, p, s)
  {
    var n := |pages|;
    SlotInGrid(out, pages, x, y, s);
    var (k, role) := ReadOf(x, y, s);
    if 0 <= k < Iterations(n) {
      assert 4 * k < n - 1;
      StepBounds(n, k);
      assert Holds(out, pages, x, y, Source(n, k, role), s);
    }
  }

  /** Page `p` is held by exactly one slot of `out`. */
  ghost predicate HeldOnce<T>(out: seq<Side<T>>, pages: seq<T>, x: nat, y: int, p: int)
  {
    exists s :: Holds(out, pages, x, y, p, s) && forall s' :: Holds(out, pages, x, y, p, s') ==> s' == s
  }

  /** Page `p` is held by exactly the two slots `s1` and `s2` of `out`. */
  ghost predicate HeldTwice<T>(out: seq<Side<T>>, pages: seq<T>, x: nat, y: int, p: int, s1: Slot, s2: Slot)
  {
    && s1 != s2 && Holds(out, pages, x, y, p, s1) && Holds(out, pages, x, y, p, s2)
    && forall s :: Holds(out, pages, x, y, p, s) ==> s == s1 || s == s2
  }

  /** A page used once is held by one slot. */
  lemma OnceInPlan<T>(out: seq<Side<T>>, pages: seq<T>, x: nat, y: int, p: nat)
    requires x >= 1 && IsPlan(out, pages, x, y) && PlacedOnce(|pages|, p)
    ensures HeldOnce(out, pages, x, y, p)
  {
    var n := |pages|;
    var k: nat, role :| Places(n, p, k, role) &&
      forall k': nat, role' :: Places(n, p, k', role') ==> k' == k && role' == role;
    var s := SlotOf(x, y, k, role);
    SlotForRead(out, pages, x, y, k, role);
    forall s' | Holds(out, pages, x, y, p, s')
      ensures s' == s
    {
      SlotUnique(out, pages, x, y, s, s');
    }
  }

  /** A page used twice by one step is held by the two slots that step
      writes for its two roles. */
  lemma TwiceInPlan<T>(out: seq<Side<T>>, pages: seq<T>, x: nat, y: int, p: nat, k: nat, r1: Role, r2: Role)
    requires x >= 1 && IsPlan(out, pages, x, y) && PlacedTwice(|pages|, p, k, r1, r2)
    ensures HeldTwice(out, pages, x, y, p, SlotOf(x, y, k, r1), SlotOf(x, y, k, r2))
  {
    var s1, s2 := SlotOf(x, y, k, r1), SlotOf(x, y, k, r2);
    SlotForRead(out, pages, x, y, k, r1);
    SlotForRead(out, pages, x, y, k, r2);
    forall s | Holds(out, pages, x, y, p, s)
      ensures s == s1 || s == s2
    {
      if ReadOf(x, y, s).1 == r1 {
        SlotUnique(out, pages, x, y, s, s1);
      } else {
        SlotUnique(out, pages, x, y, s, s2);
      }
    }
  }

  /** With a multiple of 4 pages every page is held by exactly one slot of
      the result. */
  lemma EveryPageHeldOnce<T>(out: seq<Side<T>>, pages: seq<T>, x: nat, y: int, p: nat)
    requires x >= 1 && IsPlan(out, pages, x, y)
    requires |pages| % 4 == 0 && p < |pages|
    ensures HeldOnce(out, pages, x, y, p)
  {
    EveryPageOnce(|pages|, p);
    OnceInPlan(out, pages, x, y, p);
  }

  /** With 4m + 1 pages no slot of the result holds the middle page, and
      every other page is held by exactly one slot. */
  lemma MiddlePageNotHeld<T>(out: seq<Side<T>>, pages: seq<T>, x: nat, y: int, p: nat)
    requires x >= 1 && IsPlan(out, pages, x, y)
    requires |pages| % 4 == 1 && p < |pages|
    ensures (forall s :: !Holds(out, pages, x, y, p, s)) <==> p == |pages| / 2
    ensures p != |pages| / 2 ==> HeldOnce(out, pages, x, y, p)
  {
    MiddlePageDropped(|pages|, p);
    if p != |pages| / 2 {
      OnceInPlan(out, pages, x, y, p);
    }
  }

  /** With 4m + 2 pages the middle pair is held twice, each page once on
      the front and once on the back of the last step's sheet; every other
      page is held by exactly one slot. */
  lemma MiddlePairHeldTwice<T>(out: seq<Side<T>>, pages: seq<T>, x: nat, y: int, p: nat)
    requires x >= 1 && IsPlan(out, pages, x, y)
    requires |pages| % 4 == 2 && p < |pages|
    ensures var n, last := |pages|, Iterations(|pages|) - 1;
            var front, back := SlotOf(x, y, last, FrontRight).side, SlotOf(x, y, last, BackRight).side;
            && front % 2 == 0 && back == front + 1
            && SlotOf(x, y, last, FrontLeft).side == front && SlotOf(x, y, last, BackLeft).side == back
            && (p == n / 2 - 1 ==> HeldTwice(out, pages, x, y, p, SlotOf(x, y, last, FrontRight), SlotOf(x, y, last, BackRight)))
            && (p == n / 2 ==> HeldTwice(out, pages, x, y, p, SlotOf(x, y, last, BackLeft), SlotOf(x, y, last, FrontLeft)))
            && (p != n / 2 - 1 && p != n / 2 ==> HeldOnce(out, pages, x, y, p))
  {
    var n, last := |pages|, Iterations(|pages|) - 1;
    MiddlePairTwice(n, p);
    if p == n / 2 - 1 {
      TwiceInPlan(out, pages, x, y, p, last, FrontRight, BackRight);
    } else if p == n / 2 {
      TwiceInPlan(out, pages, x, y, p, last, BackLeft, FrontLeft);
    } else {
      OnceInPlan(out, pages, x, y, p);
    }
  }

  /** With 4m + 3 pages the middle page is held by two slots, both on the
      back of the last step's sheet; every other page is held by exactly
      one slot. */
  lemma MiddlePageHeldTwiceOnBack<T>(out: seq<Side<T>>, pages: seq<T>, x: nat, y: int, p: nat)
    requires x >= 1 && IsPlan(out, pages, x, y)
    requires |pages| % 4 == 3 && p < |pages|
    ensures var n, last := |pages|, Iterations(|pages|) - 1;
            var back := SlotOf(x, y, last, BackLeft).side;
            && back % 2 == 1 && SlotOf(x, y, last, BackRight).side == back
            && (p == (n - 1) / 2 ==> HeldTwice(out, pages, x, y, p, SlotOf(x, y, last, BackLeft), SlotOf(x, y, last, BackRight)))
            && (p != (n - 1) / 2 ==> HeldOnce(out, pages, x, y, p))
  {
    var n, last := |pages|, Iterations(|pages|) - 1;
    MiddlePageTwiceOnBack(n, p);
    if p == (n - 1) / 2 {
      TwiceInPlan(out, pages, x, y, p, last, BackLeft, BackRight);
    } else {
      OnceInPlan(out, pages, x, y, p);
    }
  }
}
