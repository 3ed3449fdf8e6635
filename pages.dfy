/** Page splitting: every scanned spread is cut into its left and right page.
    The first spread's left page and the last spread's right page are the
    covers' outsides and are not emitted. */
module Pages {
  import opened Commands

  datatype Pane = Left | Right

  /** Pixel dimensions of an image. */
  datatype Dimensions = Dimensions(width: real, height: real)

  /** A pane of one input image, by the image's position in the input list. */
  datatype PaneRef = PaneRef(image: nat, pane: Pane)

  /** The crop command for one pane; `dims` is the size of one pane. The
      crop is one pane in size, level with the top, and starts one pane
      width in for the right pane. */
  function ProcessImage(path: string, dims: Dimensions, pane: Pane): (cmd: Command)
    ensures |cmd| == 4 && cmd[0] == Word(path) && cmd[1] == Word("-crop") && cmd[3] == Word("+repage")
    ensures cmd[2].Geometry? && cmd[2].region.width == dims.width && cmd[2].region.height == dims.height
    ensures cmd[2].region.y == 0.0
    ensures cmd[2].region.x == if pane == Left then 0.0 else dims.width
  {
    var offset := if pane == Left then 0.0 else dims.width;
    [Word(path), Word("-crop"), Geometry(Region(dims.width, dims.height, offset, 0.0)), Word("+repage")]
  }

  /** The dimensions of one page of a spread: half its width, all its height. */
  function Half(spread: Dimensions): Dimensions
  {
    Dimensions(spread.width / 2.0, spread.height)
  }

  /** The two panes of a spread, cut at half its width, tile the spread
      exactly: same height, no overlap, no gap, nothing outside it. */
  lemma PanesTileSpread(path: string, spread: Dimensions)
    ensures var l := ProcessImage(path, Half(spread), Left);
            var r := ProcessImage(path, Half(spread), Right);
            && |l| == 4 && |r| == 4
            && l[0] == r[0] == Word(path)
            && l[1] == r[1] == Word("-crop")
            && l[3] == r[3] == Word("+repage")
            && l[2].Geometry? && r[2].Geometry?
            && l[2].region.x == 0.0 && l[2].region.y == 0.0 && r[2].region.y == 0.0
            && l[2].region.x + l[2].region.width == r[2].region.x
            && r[2].region.x + r[2].region.width == spread.width
            && l[2].region.height == r[2].region.height == spread.height
  {
  }

  /** Number of pages emitted for `n` spreads: `max(0, 2n - 2)`. */
  function PageCount(n: nat): nat
  {
    if n == 0 then 0 else 2 * n - 2
  }

  /** Where page `k` of the emitted list comes from: pages alternate right
      pane, left pane, starting with the right pane of the first spread. */
  function Origin(k: nat): (o: PaneRef)
    ensures o.image == (k + 1) / 2
    ensures o.pane == if k % 2 == 0 then Right else Left
  {
    if k % 2 == 0 then PaneRef(k / 2, Right) else PaneRef((k + 1) / 2, Left)
  }

  /** Cuts every spread into its pages, in reading order. */
  method ProcessInputImages(images: seq<string>, spread: Dimensions) returns (pages: seq<Command>)
    ensures |pages| == PageCount(|images|)
    ensures forall k :: 0 <= k < |pages| ==>
              Origin(k).image < |images| &&
              pages[k] == ProcessImage(images[Origin(k).image], Half(spread), Origin(k).pane)
  {
    pages := [];
    var half := Half(spread);
    for i := 0 to |images|
      invariant |pages| == if i == 0 then 0 else if i == |images| then 2 * i - 2 else 2 * i - 1
      invariant forall k :: 0 <= k < |pages| ==>
                  Origin(k).image < |images| &&
                  pages[k] == ProcessImage(images[Origin(k).image], half, Origin(k).pane)
    {
      if i != 0 {
        pages := pages + [ProcessImage(images[i], half, Left)];
      }
      if i != |images| - 1 {
        pages := pages + [ProcessImage(images[i], half, Right)];
      }
    }
  }

  /** A pane is emitted exactly when it is not the first spread's left pane
      nor the last spread's right pane. */
  lemma {:induction false} PaneEmitted(n: nat, i: nat, pane: Pane)
    ensures (exists k :: 0 <= k < PageCount(n) && Origin(k) == PaneRef(i, pane))
        <==> i < n && !(i == 0 && pane == Left) && !(i == n - 1 && pane == Right)
  {
    if i < n && !(i == 0 && pane == Left) && !(i == n - 1 && pane == Right) {
      var k := if pane == Right then 2 * i else 2 * i - 1;
      assert Origin(k) == PaneRef(i, pane);
    }
  }

  /** No pane is emitted twice. */
  lemma OriginInjective(k1: nat, k2: nat)
    requires Origin(k1) == Origin(k2)
    ensures k1 == k2
  {
  }
}
