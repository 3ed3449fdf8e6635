/** Layout arithmetic: from the paper configuration and the pixel size of one
    spread, the grid shape and every margin, offset and the gutter in pixels.
    Numbers are modelled as exact reals, an idealisation of the source's
    double-precision numbers. */
module Layouts {
  import opened Wrappers
  import Pages

  /** The paper section of the configuration; every entry is optional.  The
      configuration key of the bottom margin is spelled `marginBotton`. */
  datatype PaperSize = PaperSize(
    width: Option<real>, height: Option<real>,
    margin: Option<real>, marginX: Option<real>, marginY: Option<real>,
    marginLeft: Option<real>, marginRight: Option<real>,
    marginTop: Option<real>, marginBottom: Option<real>,
    offsetX: Option<real>, offsetY: Option<real>,
    gutter: Option<real>)

  datatype Grid = Grid(x: int, y: int)
  datatype Margins = Margins(left: real, right: real, top: real, bottom: real)
  datatype Offsets = Offsets(x: real, y: real)

  /** The computed layout, every length in pixels. */
  datatype Layout = Layout(grid: Grid, margins: Margins, offsets: Offsets, gutter: real)

  /** JavaScript truthiness of an optional number: absent and 0 are falsy. */
  predicate Truthy(o: Option<real>)
  {
    o.Some? && o.value != 0.0
  }

  /** `o || fallback` */
  function OrElse(o: Option<real>, fallback: real): real
  {
    if Truthy(o) then o.value else fallback
  }

  /** `r` is the first truthy option's value, or 0 when none is truthy. */
  ghost predicate IsFirstTruthy(options: seq<Option<real>>, r: real)
  {
    || (r == 0.0 && forall h :: 0 <= h < |options| ==> !Truthy(options[h]))
    || (exists h :: 0 <= h < |options| && Truthy(options[h]) && options[h].value == r &&
                    forall e :: 0 <= e < h ==> !Truthy(options[e]))
  }

  /* Each margin falls back from its own side to its axis (`marginX` for
     left and right, `marginY` for top and bottom), then to `margin`, then
     to 0, skipping every entry that is absent or 0. */

  function MarginLeft(p: PaperSize): (m: real)
    ensures IsFirstTruthy([p.marginLeft, p.marginX, p.margin], m)
  {
    FallbackChain(p.marginLeft, p.marginX, p.margin);
    OrElse(p.marginLeft, OrElse(p.marginX, OrElse(p.margin, 0.0)))
  }

  function MarginRight(p: PaperSize): (m: real)
    ensures IsFirstTruthy([p.marginRight, p.marginX, p.margin], m)
  {
    FallbackChain(p.marginRight, p.marginX, p.margin);
    OrElse(p.marginRight, OrElse(p.marginX, OrElse(p.margin, 0.0)))
  }

  function MarginTop(p: PaperSize): (m: real)
    ensures IsFirstTruthy([p.marginTop, p.marginY, p.margin], m)
  {
    FallbackChain(p.marginTop, p.marginY, p.margin);
    OrElse(p.marginTop, OrElse(p.marginY, OrElse(p.margin, 0.0)))
  }

  function MarginBottom(p: PaperSize): (m: real)
    ensures IsFirstTruthy([p.marginBottom, p.marginY, p.margin], m)
  {
    FallbackChain(p.marginBottom, p.marginY, p.margin);
    OrElse(p.marginBottom, OrElse(p.marginY, OrElse(p.margin, 0.0)))
  }

  /** Paper size in inches: the entry when it is truthy, US Letter
      otherwise; never 0. */
  function PaperWidth(p: PaperSize): (w: real)
    ensures w != 0.0
    ensures Truthy(p.width) ==> w == p.width.value
    ensures !Truthy(p.width) ==> w == 8.5
  {
    OrElse(p.width, 8.5)
  }

  function PaperHeight(p: PaperSize): (h: real)
    ensures h != 0.0
    ensures Truthy(p.height) ==> h == p.height.value
    ensures !Truthy(p.height) ==> h == 11.0
  {
    OrElse(p.height, 11.0)
  }

  function AvailableWidth(p: PaperSize): real { PaperWidth(p) - MarginLeft(p) - MarginRight(p) }
  function AvailableHeight(p: PaperSize): real { PaperHeight(p) - MarginTop(p) - MarginBottom(p) }

  lemma FallbackChain(a: Option<real>, b: Option<real>, c: Option<real>)
    ensures IsFirstTruthy([a, b, c], OrElse(a, OrElse(b, OrElse(c, 0.0))))
  {
    var s := [a, b, c];
    if Truthy(a) {
      assert Truthy(s[0]);
    } else if Truthy(b) {
      assert Truthy(s[1]) && !Truthy(s[0]);
    } else if Truthy(c) {
      assert Truthy(s[2]) && !Truthy(s[0]) && !Truthy(s[1]);
    }
  }

  /** Every entry given as 0 is treated exactly as an absent entry. */
  lemma ZeroIsAbsent(p: PaperSize)
    ensures var z := Some(0.0);
      && MarginLeft(p.(marginLeft := z)) == MarginLeft(p.(marginLeft := None))
      && MarginRight(p.(marginRight := z)) == MarginRight(p.(marginRight := None))
      && MarginTop(p.(marginTop := z)) == MarginTop(p.(marginTop := None))
      && MarginBottom(p.(marginBottom := z)) == MarginBottom(p.(marginBottom := None))
      && MarginLeft(p.(marginX := z)) == MarginLeft(p.(marginX := None))
      && MarginRight(p.(marginX := z)) == MarginRight(p.(marginX := None))
      && MarginTop(p.(marginY := z)) == MarginTop(p.(marginY := None))
      && MarginBottom(p.(marginY := z)) == MarginBottom(p.(marginY := None))
      && MarginLeft(p.(margin := z)) == MarginLeft(p.(margin := None))
      && MarginRight(p.(margin := z)) == MarginRight(p.(margin := None))
      && MarginTop(p.(margin := z)) == MarginTop(p.(margin := None))
      && MarginBottom(p.(margin := z)) == MarginBottom(p.(margin := None))
      && OrElse(p.(offsetX := z).offsetX, 0.0) == OrElse(p.(offsetX := None).offsetX, 0.0) == 0.0
      && OrElse(p.(gutter := z).gutter, 0.0) == OrElse(p.(gutter := None).gutter, 0.0) == 0.0
      && PaperWidth(p.(width := z)) == 8.5 && PaperHeight(p.(height := z)) == 11.0
      && PaperWidth(p.(width := None)) == 8.5 && PaperHeight(p.(height := None)) == 11.0
  {
  }

  /** The scale at which `columns` spreads of `spread.width` pixels span the
      printable width. */
  function PixelsPerInch(columns: int, p: PaperSize, spread: Pages.Dimensions): (ppi: real)
    requires AvailableWidth(p) != 0.0
    ensures AvailableWidth(p) * ppi == columns as real * spread.width
  {
    (columns as real * spread.width) / AvailableWidth(p)
  }

  /** The number of whole `height`s in `length`: its floor. */
  function WholeFits(length: real, height: real): (n: int)
    requires height != 0.0
    ensures n as real <= length / height < n as real + 1.0
  {
    (length / height).Floor
  }

  /** A length in inches converted to pixels. */
  function Pixels(inches: real, ppi: real): real
  {
    inches * ppi
  }

  /** The layout for `columns` spreads per row: `columns` pairs across, and
      as many rows as whole spread heights fit the printable height at the
      same scale. */
  function CalculateLayout(columns: int, p: PaperSize, spread: Pages.Dimensions): (l: Layout)
    requires AvailableWidth(p) != 0.0 && spread.height != 0.0
    ensures l.grid.x == columns
    ensures l.offsets.y == l.offsets.x
  {
    var ppi := PixelsPerInch(columns, p, spread);
    var rows := WholeFits(Pixels(AvailableHeight(p), ppi), spread.height);
    Layout(
      Grid(columns, rows),
      Margins(Pixels(MarginLeft(p), ppi), Pixels(MarginRight(p), ppi),
              Pixels(MarginTop(p), ppi), Pixels(MarginBottom(p), ppi)),
      Offsets(Pixels(OrElse(p.offsetX, 0.0), ppi), Pixels(OrElse(p.offsetX, 0.0), ppi)),
      Pixels(OrElse(p.gutter, 0.0), ppi))
  }

  /** Every margin, both offsets and the gutter are their inch values scaled
      by the pixels-per-inch factor; the vertical offset is scaled from the
      horizontal offset entry, and the `offsetY` entry is never read. */
  lemma LayoutScalesInches(columns: int, p: PaperSize, spread: Pages.Dimensions)
    requires AvailableWidth(p) != 0.0 && spread.height != 0.0
    ensures var l := CalculateLayout(columns, p, spread);
            var ppi := PixelsPerInch(columns, p, spread);
            && l.margins == Margins(MarginLeft(p) * ppi, MarginRight(p) * ppi,
                                    MarginTop(p) * ppi, MarginBottom(p) * ppi)
            && l.offsets == Offsets(OrElse(p.offsetX, 0.0) * ppi, OrElse(p.offsetX, 0.0) * ppi)
            && l.gutter == OrElse(p.gutter, 0.0) * ppi
            && CalculateLayout(columns, p.(offsetY := None), spread) == l
  {
  }

  /** In pixels, the two side margins and `columns` spreads fill the paper
      width exactly, and for a positive page height the rows are the most
      that fit the printable height: `y` rows fit, `y + 1` do not, and the
      top and bottom margins with `y` rows fit the paper height. */
  lemma {:induction false} LayoutFitsPaper(columns: int, p: PaperSize, spread: Pages.Dimensions)
    requires AvailableWidth(p) != 0.0 && spread.height > 0.0
    ensures var l := CalculateLayout(columns, p, spread);
            var ppi := PixelsPerInch(columns, p, spread);
            && l.margins.left + l.margins.right + columns as real * spread.width == PaperWidth(p) * ppi
            && l.grid.y as real * spread.height <= AvailableHeight(p) * ppi
            && AvailableHeight(p) * ppi < (l.grid.y as real + 1.0) * spread.height
            && l.margins.top + l.margins.bottom + l.grid.y as real * spread.height <= PaperHeight(p) * ppi
  {
    var l := CalculateLayout(columns, p, spread);
    var ppi := PixelsPerInch(columns, p, spread);
    var h := spread.height;
    var a := Pixels(AvailableHeight(p), ppi);
    var y := l.grid.y as real;
    assert y <= a / h < y + 1.0;
    QuotientBounds(a, h, y);
    var ml, mr, mt, mb := MarginLeft(p), MarginRight(p), MarginTop(p), MarginBottom(p);
    Distributes(PaperWidth(p) - ml - mr, ml, mr, ppi);
    Distributes(PaperHeight(p) - mt - mb, mt, mb, ppi);
  }

  /** Scaling a sum of three lengths scales each. */
  lemma Distributes(u: real, v: real, w: real, ppi: real)
    ensures (u + v + w) * ppi == u * ppi + v * ppi + w * ppi
  {
  }

  /** For a positive divisor, bounds on a quotient carry over to products. */
  lemma QuotientBounds(a: real, h: real, y: real)
    requires h > 0.0 && y <= a / h < y + 1.0
    ensures y * h <= a < (y + 1.0) * h
  {
    var q := a / h;
    var z := y + 1.0;
    assert q * h == a;
    ScaleMonotone(h, y, q);
    ScaleMonotone(h, q, z);
    assert a < z * h;
  }

  /** Multiplying by a positive factor keeps the order of two reals. */
  lemma ScaleMonotone(h: real, u: real, v: real)
    requires h > 0.0 && u <= v
    ensures u * h <= v * h
    ensures u < v ==> u * h < v * h
  {
    assert v * h - u * h == (v - u) * h;
    if u < v {
      assert (v - u) * h > 0.0;
    }
  }
}
