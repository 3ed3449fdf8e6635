/** Sheet assembly: for every printed side, the padding around its grid and
    the argument list that stacks its slots into rows, the rows into the
    side, pads it and names the output file.  The invocation of the raster
    tool itself is not modelled. */
module Assembly {
  import opened Wrappers
  import opened Commands
  import opened Signature
  import Layouts
  import Decimal
  import Pages

  /** The sign of the gutter term: it is added to the `left` amount and
      taken from the `right` amount on fronts (even sides), and the other
      way round on backs (odd sides). */
  function GutterSign(i: nat): real
  {
    if i % 2 == 0 then 1.0 else -1.0
  }

  /** The four splice amounts computed for a side.  `Finish` splices
      `right` by `bottom` at the top-left corner and `left` by `top` at the
      bottom-right corner, so each amount is named after its margin, not
      after the edge it ends up on. */
  datatype Padding = Padding(left: real, right: real, top: real, bottom: real)

  /** The splice amounts of side `i`: the horizontal offset is added to
      `left` and taken from `right`, the vertical one is added to `top` and
      taken from `bottom`, and the signed gutter term moves between `left`
      and `right`; neither total changes. */
  function SidePadding(l: Layouts.Layout, i: nat): (p: Padding)
    ensures p.left + p.right == l.margins.left + l.margins.right
    ensures p.top + p.bottom == l.margins.top + l.margins.bottom
    ensures p.left - l.margins.left == l.margins.right - p.right
  {
    var s := GutterSign(i);
    Padding(l.margins.left + l.offsets.x + s * l.gutter,
            l.margins.right - l.offsets.x - s * l.gutter,
            l.margins.top + l.offsets.y,
            l.margins.bottom - l.offsets.y)
  }

  /** A front and the back that follows it get the same amounts except for
      the gutter term, which the front adds to `left` and takes from
      `right` and the back does the reverse; rows are pushed to the west on
      the front and to the east on the back; amounts and gravity depend
      only on the side's parity. */
  lemma GutterAlternates(l: Layouts.Layout, i: nat)
    requires i % 2 == 0
    ensures var front, back := SidePadding(l, i), SidePadding(l, i + 1);
            && front.left - back.left == 2.0 * l.gutter
            && back.right - front.right == 2.0 * l.gutter
            && front.top == back.top && front.bottom == back.bottom
            && SidePadding(l, i + 2) == front
    ensures Gravity(i) == "west" && Gravity(i + 1) == "east" && Gravity(i + 2) == Gravity(i)
  {
  }

  /** Read against the paper configuration, every padding is an inch
      length at the layout's scale: margin, horizontal offset and gutter on
      the sides; margin and the horizontal offset again on top and bottom. */
  lemma PaddingInInches(columns: int, paper: Layouts.PaperSize, spread: Pages.Dimensions, i: nat)
    requires Layouts.AvailableWidth(paper) != 0.0 && spread.height != 0.0
    ensures var ppi := Layouts.PixelsPerInch(columns, paper, spread);
            var p := SidePadding(Layouts.CalculateLayout(columns, paper, spread), i);
            var ox, g := Layouts.OrElse(paper.offsetX, 0.0), Layouts.OrElse(paper.gutter, 0.0);
            && p.left == (Layouts.MarginLeft(paper) + ox + GutterSign(i) * g) * ppi
            && p.right == (Layouts.MarginRight(paper) - ox - GutterSign(i) * g) * ppi
            && p.top == (Layouts.MarginTop(paper) + ox) * ppi
            && p.bottom == (Layouts.MarginBottom(paper) - ox) * ppi
  {
    Layouts.LayoutScalesInches(columns, paper, spread);
  }

  /** Rows are aligned to the binding edge: west on fronts, east on backs. */
  function Gravity(i: nat): (g: string)
    ensures g == "west" || g == "east"
    ensures g == "west" <==> i % 2 == 0
  {
    if i % 2 == 0 then "west" else "east"
  }

  /** The output file of side `i`: `tmp/page-`, the decimal digits of `i`,
      then `.png`. */
  function Filename(i: nat): (f: string)
    ensures |f| == 13 + |Decimal.NatToString(i)|
    ensures f[..9] == "tmp/page-" && f[|f| - 4..] == ".png"
    ensures f[9..|f| - 4] == Decimal.NatToString(i)
  {
    "tmp/page-" + Decimal.NatToString(i) + ".png"
  }

  /** Every side is written to a file of its own. */
  lemma FilenamesDistinct(i: nat, j: nat)
    requires i != j
    ensures Filename(i) != Filename(j)
  {
    if Filename(i) == Filename(j) {
      var a, b := Decimal.NatToString(i), Decimal.NatToString(j);
      assert |a| == |b|;
      assert Filename(i)[9..9 + |a|] == a;
      assert Filename(j)[9..9 + |b|] == b;
      Decimal.FormatInjective(i, j);
    }
  }

  /** A slot: its crop command in parentheses, or nothing for a hole, which
      a `flatMap` over a sparse array never visits. */
  function SlotArgs(slot: Option<Command>): (r: seq<Arg>)
    ensures slot.None? ==> r == []
    ensures slot.Some? ==> |r| == |slot.value| + 2 && r[0] == Word("(") && r[|r| - 1] == Word(")")
                           && r[1..|r| - 1] == slot.value
  {
    match slot
    case None => []
    case Some(cmd) => [Word("(")] + cmd + [Word(")")]
  }

  /** Every slot of the row is a hole. */
  ghost predicate AllHoles(row: Row<Command>)
  {
    forall t :: 0 <= t < |row| ==> row[t] == None
  }

  /** The slots of a row, left to right: when there is any, it opens with
      the first command's parenthesis and closes with the last one's. */
  function RowArgs(row: Row<Command>): (r: seq<Arg>)
    ensures r != [] ==> r[0] == Word("(") && r[|r| - 1] == Word(")")
  {
    if |row| == 0 then [] else SlotArgs(row[0]) + RowArgs(row[1..])
  }

  /** One row, appended left to right inside its own parentheses. */
  function RowGroup(row: Row<Command>): (r: seq<Arg>)
    ensures |r| == |RowArgs(row)| + 3
    ensures r[0] == Word("(") && r[1..|r| - 2] == RowArgs(row) && r[|r| - 2..] == [Word("+append"), Word(")")]
  {
    [Word("(")] + RowArgs(row) + [Word("+append"), Word(")")]
  }

  /** The rows of a side, top to bottom: at least one group of three
      arguments per row, so nothing exactly when there is no row. */
  function GridArgs(side: Side<Command>): (r: seq<Arg>)
    ensures |r| >= 3 * |side|
    ensures r == [] <==> |side| == 0
  {
    if |side| == 0 then [] else RowGroup(side[0]) + GridArgs(side[1..])
  }

  /** The arguments after the grid: the rows stacked with the side's
      gravity, then the `right` by `bottom` amounts spliced at the top left
      (north-west gravity) and the `left` by `top` amounts at the bottom
      right (south-east gravity), then the output file.  None of them is a
      parenthesis. */
  function Finish(l: Layouts.Layout, i: nat): (tail: Command)
    ensures |tail| == 12
    ensures tail[0] == Word("-gravity") && tail[1] == Word(Gravity(i)) && tail[2] == Word("-append")
    ensures tail[3] == Word("-gravity") && tail[4] == Word("northwest")
    ensures tail[5] == Word("-splice") && tail[6] == Size(SidePadding(l, i).right, SidePadding(l, i).bottom)
    ensures tail[7] == Word("-gravity") && tail[8] == Word("southeast")
    ensures tail[9] == Word("-splice") && tail[10] == Size(SidePadding(l, i).left, SidePadding(l, i).top)
    ensures tail[11] == Word(Filename(i))
    ensures forall t :: 0 <= t < |tail| ==> tail[t] != Word("(") && tail[t] != Word(")")
  {
    var p := SidePadding(l, i);
    var f := Filename(i);
    assert |f| > 1;
    [Word("-gravity"), Word(Gravity(i)),
     Word("-append"),
     Word("-gravity"), Word("northwest"),
     Word("-splice"), Size(p.right, p.bottom),
     Word("-gravity"), Word("southeast"),
     Word("-splice"), Size(p.left, p.top),
     Word(f)]
  }

  /** The whole argument list of side `i`: the grid with a transparent
      background, then the fixed arguments of `Finish`. */
  function SideArgs(side: Side<Command>, l: Layouts.Layout, i: nat): (args: Command)
    ensures |args| == 14 + |GridArgs(side)|
    ensures args[..2] == [Word("-background"), Word("none")]
    ensures args[2..2 + |GridArgs(side)|] == GridArgs(side)
    ensures args[|args| - 12..] == Finish(l, i)
    ensures args[|args| - 12] == Word("-gravity") && args[|args| - 11] == Word(Gravity(i))
    ensures args[|args| - 6] == Size(SidePadding(l, i).right, SidePadding(l, i).bottom)
    ensures args[|args| - 2] == Size(SidePadding(l, i).left, SidePadding(l, i).top)
    ensures args[|args| - 1] == Word(Filename(i))
  {
    var head, grid, tail := [Word("-background"), Word("none")], GridArgs(side), Finish(l, i);
    var args := head + grid + tail;
    assert args[..2] == head && args[2..2 + |grid|] == grid;
    assert args[|args| - 12..] == tail;
    args
  }

  /** The raster tool invocation for one side and the file it writes. */
  datatype Job = Job(args: Command, filename: string)

  /** One job per side, in order: side `i`'s argument list, whose last
      argument is the side's own file. */
  function CombinePages(sides: seq<Side<Command>>, l: Layouts.Layout): (jobs: seq<Job>)
    ensures |jobs| == |sides|
    ensures forall i :: 0 <= i < |jobs| ==>
              && jobs[i].filename == Filename(i)
              && |jobs[i].args| > 2 && jobs[i].args[..2] == [Word("-background"), Word("none")]
              && jobs[i].args[|jobs[i].args| - 1] == Word(jobs[i].filename)
              && jobs[i].args == SideArgs(sides[i], l, i)
    ensures forall i, j :: 0 <= i < j < |jobs| ==> jobs[i].filename != jobs[j].filename
  {
    var jobs := seq(|sides|, i requires 0 <= i < |sides| => Job(SideArgs(sides[i], l, i), Filename(i)));
    forall i, j | 0 <= i < j < |jobs|
      ensures jobs[i].filename != jobs[j].filename
    {
      FilenamesDistinct(i, j);
    }
    jobs
  }

  /* Argument lists of rows and sides. */

  lemma {:induction false} RowArgsAppend(a: Row<Command>, b: Row<Command>)
    ensures RowArgs(a + b) == RowArgs(a) + RowArgs(b)
  {
    if |a| == 0 {
      assert a + b == b;
    } else {
      assert (a + b)[1..] == a[1..] + b;
      RowArgsAppend(a[1..], b);
    }
  }

  /** A hole contributes nothing: taking it out of the row leaves the row's
      arguments unchanged. */
  lemma {:induction false} HolesContributeNothing(row: Row<Command>, t: nat)
    requires t < |row| && row[t] == None
    ensures RowArgs(row) == RowArgs(row[..t] + row[t + 1..])
  {
    if t == 0 {
      assert row[..t] + row[t + 1..] == row[1..];
    } else {
      HolesContributeNothing(row[1..], t - 1);
      DropShift(row, t);
    }
  }

  /** Removing element `t > 0` keeps the head and removes element `t - 1`
      of the tail. */
  lemma DropShift<A>(s: seq<A>, t: nat)
    requires 0 < t < |s|
    ensures var rest := s[..t] + s[t + 1..];
            |rest| > 0 && rest[0] == s[0] && rest[1..] == s[1..][..t - 1] + s[1..][t..]
  {
    var rest, tail := s[..t] + s[t + 1..], s[1..];
    assert s[..t] == [s[0]] + tail[..t - 1];
    assert s[t + 1..] == tail[t..];
    assert rest == [s[0]] + (tail[..t - 1] + tail[t..]);
  }

  /** A row gives no arguments exactly when all its slots are holes. */
  lemma {:induction false} RowArgsEmpty(row: Row<Command>)
    ensures RowArgs(row) == [] <==> AllHoles(row)
  {
    if |row| > 0 {
      RowArgsEmpty(row[1..]);
      if AllHoles(row) {
        assert AllHoles(row[1..]) by {
          forall t | 0 <= t < |row| - 1
            ensures row[1..][t] == None
          {
            assert row[1..][t] == row[t + 1];
          }
        }
      }
      if RowArgs(row) == [] {
        forall t | 0 <= t < |row|
          ensures row[t] == None
        {
          if t > 0 {
            assert row[t] == row[1..][t - 1];
          }
        }
      }
    }
  }

  /* Parentheses. */

  /** Opening minus closing parentheses in `args`. */
  function Depth(args: seq<Arg>): int
  {
    if |args| == 0 then 0
    else Depth(args[..|args| - 1]) + (if args[|args| - 1] == Word("(") then 1 else if args[|args| - 1] == Word(")") then -1 else 0)
  }

  /** Every opening parenthesis is closed later and no closing one comes
      before its opening one. */
  ghost predicate Balanced(args: seq<Arg>)
  {
    Depth(args) == 0 && forall m :: 0 <= m <= |args| ==> Depth(args[..m]) >= 0
  }

  lemma {:induction false} DepthAppend(a: seq<Arg>, b: seq<Arg>)
    ensures Depth(a + b) == Depth(a) + Depth(b)
  {
    if |b| > 0 {
      var c := a + b;
      assert c[..|c| - 1] == a + b[..|b| - 1];
      DepthAppend(a, b[..|b| - 1]);
    } else {
      assert a + b == a;
    }
  }

  lemma BalancedAppend(a: seq<Arg>, b: seq<Arg>)
    requires Balanced(a) && Balanced(b)
    ensures Balanced(a + b)
  {
    DepthAppend(a, b);
    forall m | 0 <= m <= |a + b|
      ensures Depth((a + b)[..m]) >= 0
    {
      if m <= |a| {
        assert (a + b)[..m] == a[..m];
      } else {
        assert (a + b)[..m] == a + b[..m - |a|];
        DepthAppend(a, b[..m - |a|]);
      }
    }
  }

  /** Wrapping balanced arguments between an opening and a closing
      parenthesis, with words in between that are not parentheses,
      keeps them balanced. */
  lemma BalancedWrap(inner: seq<Arg>, tail: seq<Arg>)
    requires Balanced(inner)
    requires forall t :: 0 <= t < |tail| ==> tail[t] != Word("(") && tail[t] != Word(")")
    ensures Balanced([Word("(")] + inner + tail + [Word(")")])
  {
    var open := [Word("(")] + inner + tail;
    var w := open + [Word(")")];
    OpenPrefixes(inner, tail);
    DepthAppend(open, [Word(")")]);
    assert Depth([Word(")")]) == -1 by { assert [Word(")")][..0] == []; }
    forall m | 0 <= m <= |w|
      ensures Depth(w[..m]) >= 0
    {
      if m < |w| {
        assert w[..m] == open[..m];
      } else {
        assert w[..m] == w;
      }
    }
  }

  /** After an opening parenthesis, balanced arguments and plain words, the
      depth is 1 and never drops below it but at the start. */
  lemma OpenPrefixes(inner: seq<Arg>, tail: seq<Arg>)
    requires Balanced(inner)
    requires forall t :: 0 <= t < |tail| ==> tail[t] != Word("(") && tail[t] != Word(")")
    ensures var open := [Word("(")] + inner + tail;
            Depth(open) == 1 && forall m :: 0 <= m <= |open| ==> Depth(open[..m]) >= 0
  {
    var head := [Word("(")];
    var open := head + inner + tail;
    assert Depth(head) == 1 by { assert head[..0] == []; }
    PlainDepth(tail);
    DepthAppend(head, inner);
    DepthAppend(head + inner, tail);
    forall m | 0 <= m <= |open|
      ensures Depth(open[..m]) >= 0
    {
      if m == 0 {
        assert open[..m] == [];
      } else if m <= 1 + |inner| {
        assert open[..m] == head + inner[..m - 1];
        DepthAppend(head, inner[..m - 1]);
      } else {
        assert open[..m] == head + inner + tail[..m - 1 - |inner|];
        DepthAppend(head + inner, tail[..m - 1 - |inner|]);
        PlainDepth(tail[..m - 1 - |inner|]);
      }
    }
  }

  /** Words that are not parentheses do not change the depth. */
  lemma {:induction false} PlainDepth(s: seq<Arg>)
    requires forall t :: 0 <= t < |s| ==> s[t] != Word("(") && s[t] != Word(")")
    ensures Depth(s) == 0
  {
    if |s| > 0 {
      PlainDepth(s[..|s| - 1]);
    }
  }

  /** When every crop command is balanced, so is the grid part of a side's
      arguments, the part that nests slots in rows. */
  lemma {:induction false} GridBalanced(side: Side<Command>)
    requires forall r, t :: 0 <= r < |side| && 0 <= t < |side[r]| && side[r][t].Some? ==> Balanced(side[r][t].value)
    ensures Balanced(GridArgs(side))
  {
    if |side| == 0 {
      assert Depth([]) == 0;
    } else {
      var first := side[0];
      GridBalanced(side[1..]);
      RowBalanced(first);
      var tail := [Word("+append")];
      BalancedWrap(RowArgs(first), tail);
      assert RowGroup(first) == [Word("(")] + RowArgs(first) + tail + [Word(")")];
      BalancedAppend(RowGroup(first), GridArgs(side[1..]));
    }
  }

  lemma {:induction false} RowBalanced(row: Row<Command>)
    requires forall t :: 0 <= t < |row| && row[t].Some? ==> Balanced(row[t].value)
    ensures Balanced(RowArgs(row))
  {
    if |row| == 0 {
      assert Depth([]) == 0;
    } else {
      var slot := row[0];
      RowBalanced(row[1..]);
      if slot.Some? {
        BalancedWrap(slot.value, []);
        assert SlotArgs(slot) == [Word("(")] + slot.value + [] + [Word(")")];
        BalancedAppend(SlotArgs(slot), RowArgs(row[1..]));
      } else {
        assert RowArgs(row) == RowArgs(row[1..]);
      }
    }
  }

  /** Arguments without a parenthesis word are balanced. */
  lemma PlainBalanced(s: seq<Arg>)
    requires forall t :: 0 <= t < |s| ==> s[t] != Word("(") && s[t] != Word(")")
    ensures Balanced(s)
  {
    PlainDepth(s);
    forall m | 0 <= m <= |s|
      ensures Depth(s[..m]) >= 0
    {
      PlainDepth(s[..m]);
    }
  }

  /** A crop command is balanced unless its file name is a parenthesis. */
  lemma CropBalanced(path: string, dims: Pages.Dimensions, pane: Pages.Pane)
    requires path != "(" && path != ")"
    ensures Balanced(Pages.ProcessImage(path, dims, pane))
  {
    PlainBalanced(Pages.ProcessImage(path, dims, pane));
  }

  /** When every crop command is balanced, so is a side's whole argument
      list. */
  lemma SideArgsBalanced(side: Side<Command>, l: Layouts.Layout, i: nat)
    requires forall r, t :: 0 <= r < |side| && 0 <= t < |side[r]| && side[r][t].Some? ==> Balanced(side[r][t].value)
    ensures Balanced(SideArgs(side, l, i))
  {
    var head, tail := [Word("-background"), Word("none")], Finish(l, i);
    assert SideArgs(side, l, i) == head + GridArgs(side) + tail;
    PlainBalanced(head);
    PlainBalanced(tail);
    GridBalanced(side);
    BalancedAppend(head, GridArgs(side));
    BalancedAppend(head + GridArgs(side), tail);
  }
}
