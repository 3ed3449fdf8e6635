# zeen-fren imposition model

zeen-fren (`zf`) turns a list of scanned two-page spreads into printable
sheets for a saddle-stitched booklet ("signature"). Its core, in
`src/index.ts`, has four stages:

1. **Page splitting** (`processImage`, `processInputImages`): every spread
   is cut into a left and a right page by a crop command. The first
   spread's left page and the last spread's right page are dropped. The
   emitted list runs right, left, right, … starting with the first
   spread's right page.
2. **Layout** (`calculateLayout`): from the optional paper configuration
   and the pixel size of one spread, the grid (`columns` spreads across,
   as many rows as fit) and every margin, offset and the gutter in pixels.
   Every `a || b || …` fallback treats an entry of 0 as absent.
3. **Signature placement** (`calculatePositions`): pages are taken in
   pairs from both ends of the list. Each step writes page `j` and page `i`
   into a pair of slots on the front. It writes page `j - 1` and page
   `i + 1` into the horizontally mirrored pair on the back. Positions
   advance column by column, then row by row. A full sheet is sealed only
   when another step follows.
4. **Assembly** (the pure part of `combinePages`): for each printed side,
   the padding that places the grid on the paper and the raster tool
   argument list. The list nests every slot's crop command in
   parentheses, stacks the rows and splices the padding. It also gives the
   output file name `tmp/page-<i>.png`.

Modules:

- `Wrappers`: `Option`.
- `Commands`: argument lists. The two arguments formatted from numbers,
  `WxH+X+Y` and `WxH`, are kept as structured values.
- `Pages`: stage 1.
- `Layouts`: stage 2.
- `Signature`: stage 3. This is an imperative method over the loop's own
  state: cursors, `row`, `column`, the sparse `front` and `back` rows, and
  `out`. It is proved against the plan predicate `IsPlan`, which fixes
  every side, row length and slot of the result.
- `Landing`, `Coverage` and `Slots`: what the plan implies. `Coverage`
  counts the steps and roles that read each page. `Slots` turns these
  counts into counts of slots of the result.
- `Decimal`: the decimal text of a side index.
- `Assembly`: stage 4.

Sparse JavaScript rows are sequences of `Option` slots. `Signature.Assign`
models `row[idx] = v`: the row grows, and any gap becomes holes (`None`).
The loop body of `calculatePositions` is split into two helper methods:

- `NextSlot`: the rollover at lines 229-241.
- `PlaceNext`: the rollover followed by the four writes.

Both are proved against the loop invariant `Progress`.

## Model

| member | source | states |
|---|---|---|
| `Pages.ProcessImage` | src/index.ts:120-130 | The crop command is the file, `-crop`, a geometry and `+repage`. The geometry has the pane's width and height and a y offset of 0. Its x offset is 0 for the left pane and one pane width for the right pane. |
| `Pages.Origin` | src/index.ts:139-151 | Page `k` of the emitted list comes from spread `(k + 1) / 2`. It is that spread's right pane for even `k` and its left pane for odd `k`. |
| `Pages.PanesTileSpread` | src/index.ts:120-130 | The crop of the left page starts at x = 0 and ends where the right page's crop starts. The right crop ends at the spread's width. Both have the spread's full height and a y offset of 0. Each command is file, `-crop`, geometry, `+repage`. |
| `Pages.ProcessInputImages` | src/index.ts:132-154 | `n` spreads give `max(0, 2n - 2)` pages. Page `k` is the crop of spread `(k + 1) / 2`: the right pane for even `k` and the left pane for odd `k`. |
| `Pages.PaneEmitted` | src/index.ts:139-151 | A pane is emitted exactly when it is neither the first spread's left pane nor the last spread's right pane. |
| `Pages.OriginInjective` | src/index.ts:139-151 | No pane is emitted twice. |
| `Layouts.MarginLeft` | src/index.ts:160 | The left margin is the first truthy entry of `marginLeft`, `marginX` and `margin`, or 0 when none is truthy. |
| `Layouts.MarginRight` | src/index.ts:161 | The right margin is the first truthy entry of `marginRight`, `marginX` and `margin`, or 0 when none is truthy. |
| `Layouts.MarginTop` | src/index.ts:162 | The top margin is the first truthy entry of `marginTop`, `marginY` and `margin`, or 0 when none is truthy. |
| `Layouts.MarginBottom` | src/index.ts:163 | The bottom margin is the first truthy entry of `marginBotton`, `marginY` and `margin`, or 0 when none is truthy. |
| `Layouts.PaperWidth` | src/index.ts:165 | The paper width is the configured width when it is truthy and 8.5 inches otherwise. It is never 0. |
| `Layouts.PaperHeight` | src/index.ts:166 | The paper height is the configured height when it is truthy and 11 inches otherwise. It is never 0. |
| `Layouts.ZeroIsAbsent` | src/index.ts:160-198 | An entry of 0 acts exactly like a missing entry. This holds for every margin entry, `offsetX`, `gutter`, `width` and `height`. Paper size defaults to 8.5 × 11 inches. |
| `Layouts.PixelsPerInch` | src/index.ts:171-177 | At the scale, `columns` spread widths span exactly the printable width. |
| `Layouts.WholeFits` | src/index.ts:179 | The row count is the floor of the quotient. |
| `Layouts.CalculateLayout` | src/index.ts:183-198 | The grid is `columns` wide. The vertical offset equals the horizontal one. |
| `Layouts.LayoutScalesInches` | src/index.ts:183-198 | Every margin, both offsets and the gutter are the inch values times the pixels-per-inch scale. Both offsets are scaled from `offsetX`, and `offsetY` is never read. |
| `Layouts.LayoutFitsPaper` | src/index.ts:171-179 | The side margins plus `columns` spreads fill the paper width exactly. For a positive spread height, `rows` spreads fit the printable height and `rows + 1` do not. Top margin, bottom margin and the rows fit the paper height. |
| `Signature.Iterations` | src/index.ts:228 | The loop runs exactly the steps `k` with `4k < n - 1`. |
| `Signature.RowsPerSheet` | src/index.ts:229-241 | A sheet has `numRows` rows when `numRows` is at least 1, and exactly one row otherwise. |
| `Signature.Assign` | src/index.ts:243-246 | A sparse write sets one slot, grows the row to cover it, leaves holes in the gap and keeps every other slot. |
| `Signature.StepBounds` | src/index.ts:243-246 | Every step reads only indices inside the page list. |
| `Signature.CalculatePositions` | src/index.ts:203-253 | The result is the plan `IsPlan` of the pages on the grid. It has `2 × SheetCount` sides, alternating front and back. Every side has its row count, every row its length, and every slot holds the page of the step that writes it, or a hole. |
| `Signature.NextSlot` | src/index.ts:229-241 | If the row is not full, nothing changes. If the row is full and rows remain, empty front and back rows are appended. If the sheet is full, front and back are pushed onto `out` and a fresh sheet starts. The loop invariant is kept in all three cases. |
| `Signature.PlaceNext` | src/index.ts:228-249 | One iteration keeps the loop invariant with one more step done. |
| `Signature.AdvanceRow` | src/index.ts:230-234 | Starting a new row keeps the invariant. |
| `Signature.SealSheet` | src/index.ts:235-239 | Sealing a full sheet keeps the invariant, with `out` two sides longer. |
| `Signature.Step` | src/index.ts:243-248 | The four writes and `column++` advance the invariant by one step. |
| `Signature.WriteFront` | src/index.ts:243-244 | Page `j` goes to slot `2c` and page `i` to slot `2c + 1` of the front row. |
| `Signature.WriteBack` | src/index.ts:245-246 | Page `j - 1` goes to slot `2(x - c) - 1` and page `i + 1` to slot `2(x - c - 1)` of the back row. |
| `Signature.FinalShape` | src/index.ts:251-252 | Pushing the open sheet after the loop completes the plan. |
| `Landing.PositionOf` | src/index.ts:229-241 | Step `k` sits on sheet `k / cap`, row `(k % cap) / x`, pair column `k % x`, inside the grid. |
| `Landing.IterationLanding` | src/index.ts:228-249 | In the result, step `k` holds pages `n - 1 - 2k` and `2k` in the front pair of its position. It holds pages `n - 2 - 2k` and `2k + 1` in the mirrored back pair. |
| `Landing.NoSteps` | src/index.ts:224-251 | With fewer than two pages the result is `[[[]], [[]]]`. |
| `Landing.SheetsStartWithStep` | src/index.ts:229-251 | The result has an even number of sides, at least two. With two pages or more, every sheet's first row holds its first step: there is no trailing empty sheet. |
| `Landing.EarlierSheetsFull` | src/index.ts:229-241 | Every sheet but the last has all its rows, every row full width and every slot filled. |
| `Landing.NonPositiveRows` | src/index.ts:222-241 | For a row count below 1, the plan is exactly the plan for one row per sheet. |
| `Landing.MirrorSlots` | src/index.ts:243-246 | The back slots mirror the front pair of the same column, stay inside the row, and differ between columns. |
| `Coverage.PlacementsOf` | src/index.ts:228-246 | Page `p` is read from the start of the list exactly when `p < 2K`, and from the end exactly when `p >= n - 2K`. `K` is the number of steps. |
| `Coverage.EveryPageOnce` | src/index.ts:228-246 | With `n ≡ 0 (mod 4)` every page is used exactly once. |
| `Coverage.MiddlePageDropped` | src/index.ts:228-246 | With `n ≡ 1 (mod 4)` page `n / 2` is never used, and it is the only such page. Every other page is used once. |
| `Coverage.MiddlePairTwice` | src/index.ts:228-246 | With `n ≡ 2 (mod 4)` the last step uses page `n/2 - 1` front right and back right, and page `n/2` back left and front left. Every other page is used once. |
| `Coverage.MiddlePageTwiceOnBack` | src/index.ts:228-246 | With `n ≡ 3 (mod 4)` the last step uses page `(n - 1)/2` twice, both on the back. Every other page is used once. |
| `Slots.SlotOf` | src/index.ts:243-246 | The slot that a step writes for a role lies on the front (`FrontLeft`, `FrontRight`) or back of the step's sheet, in the step's row. Reading it back with `ReadOf` gives the same step and role. |
| `Slots.SlotInGrid` | src/index.ts:229-241 | Every slot of the result lies inside the grid: its row is below the rows per sheet and its index below `2 × numColumns`. |
| `Slots.ReadsDistinct` | src/index.ts:243-246 | Two different slots of the grid receive different writes, where a write is a step and a role. |
| `Slots.SlotUnique` | src/index.ts:228-252 | In the result, two slots that receive the same write are the same slot. |
| `Slots.SlotForRead` | src/index.ts:228-249 | Every write of every step lands in a slot of the result, and that slot holds the page read. |
| `Slots.SlotContents` | src/index.ts:243-252 | A slot of the result holding page `p` contains `pages[p]`, with `p` inside the list. A slot is a hole exactly when it holds no page. |
| `Slots.OnceInPlan` | src/index.ts:228-252 | A page read once is held by exactly one slot of the result. |
| `Slots.TwiceInPlan` | src/index.ts:228-252 | A page read twice by one step is held by exactly the two slots that step writes for those roles. |
| `Slots.EveryPageHeldOnce` | src/index.ts:228-252 | With `n ≡ 0 (mod 4)` every page is held by exactly one slot of the result. |
| `Slots.MiddlePageNotHeld` | src/index.ts:228-252 | With `n ≡ 1 (mod 4)` no slot of the result holds page `n / 2`, and it is the only such page. Every other page is held by exactly one slot. |
| `Slots.MiddlePairHeldTwice` | src/index.ts:228-252 | With `n ≡ 2 (mod 4)` pages `n/2 - 1` and `n/2` are each held by exactly two slots. One is on the front and one on the back of the last step's sheet. Every other page is held by exactly one slot. |
| `Slots.MiddlePageHeldTwiceOnBack` | src/index.ts:228-252 | With `n ≡ 3 (mod 4)` page `(n - 1)/2` is held by exactly two slots, both on the back of the last step's sheet. Every other page is held by exactly one slot. |
| `Decimal.NatToString` | src/index.ts:284 | The text of `${i}` has at least one digit, only digits, and no leading zero. |
| `Decimal.ParseOfFormat` | src/index.ts:284 | Reading the digits back gives the index. |
| `Decimal.FormatInjective` | src/index.ts:284 | Different indices have different texts. |
| `Assembly.SidePadding` | src/index.ts:276-279 | `left + right` equals the sum of the left and right margins. `top + bottom` equals the sum of the top and bottom margins. The `left` amount gains what the `right` amount loses. |
| `Assembly.GutterAlternates` | src/index.ts:276-293 | The front's `left` amount exceeds the next back's by twice the gutter, and the back's `right` amount exceeds the front's by as much. Top and bottom agree. Gravity is west on fronts and east on backs. Everything repeats with period 2. |
| `Assembly.PaddingInInches` | src/index.ts:276-279 | Each padding is margin ± offset ± gutter in inches, times the layout scale. Top and bottom use the horizontal offset. |
| `Assembly.Gravity` | src/index.ts:293 | The gravity is `west` exactly for even sides and `east` otherwise. |
| `Assembly.Filename` | src/index.ts:284 | The file name is `tmp/page-`, then the decimal text of the side index, then `.png`. |
| `Assembly.FilenamesDistinct` | src/index.ts:284 | Different sides write different files. |
| `Assembly.SlotArgs` | src/index.ts:289 | A hole gives no arguments. A command gives `(`, the command itself and `)`. |
| `Assembly.RowArgs` | src/index.ts:289 | A row's arguments, when there are any, open with `(` and close with `)`. |
| `Assembly.RowArgsEmpty` | src/index.ts:289 | A row gives no arguments exactly when every slot is a hole. |
| `Assembly.RowGroup` | src/index.ts:287-292 | A row group is `(`, the row's arguments, `+append` and `)`. |
| `Assembly.GridArgs` | src/index.ts:287-292 | The grid part has at least three arguments per row, and is empty exactly when the side has no row. |
| `Assembly.Finish` | src/index.ts:293-299 | After the grid come `-gravity` with the side's gravity and `-append`. Then `-gravity northwest` and `-splice` with the `right`/`bottom` amounts, then `-gravity southeast` and `-splice` with the `left`/`top` amounts, then the file name. None of these arguments is a parenthesis. |
| `Assembly.SideArgs` | src/index.ts:285-300 | The list is `-background none`, then the grid part, then exactly the 12 arguments of `Finish`: the side's gravity and `-append`, the north-west splice of the `right`/`bottom` amounts, the south-east splice of the `left`/`top` amounts, and last the side's file name. |
| `Assembly.CombinePages` | src/index.ts:275-304 | There is one job per side, in order. Job `i` carries side `i`'s argument list and writes `tmp/page-<i>.png`, which is the last argument of its command. No two jobs write the same file. |
| `Assembly.RowArgsAppend` | src/index.ts:289 | The arguments of two rows joined are the arguments of the first row followed by those of the second. |
| `Assembly.HolesContributeNothing` | src/index.ts:287-289 | Removing a hole from a row leaves the row's arguments unchanged. |
| `Assembly.RowBalanced` | src/index.ts:289 | If every command in a row has balanced parentheses, so does the row's argument list. |
| `Assembly.GridBalanced` | src/index.ts:287-292 | If every command has balanced parentheses, so does the grid part of a side's arguments. |
| `Assembly.PlainBalanced` | src/index.ts:285-300 | Arguments that contain no parenthesis are balanced. |
| `Assembly.CropBalanced` | src/index.ts:128 | A crop command has balanced parentheses unless its file name is a parenthesis. |
| `Assembly.SideArgsBalanced` | src/index.ts:285-300 | If every crop command has balanced parentheses, so does a side's whole argument list. |

## Left out

- `src/magick.ts` is not part of this model: process spawning, output
  streaming and exit codes.
- Not modelled: `getConfig`, which reads a file and parses JSON, and
  `getDimensions`, which calls the external `identify`. The spread's
  pixel dimensions are a parameter instead.
- Not modelled: the command line setup, the top-level promise chain and
  every `console.log`.
- In `combinePages`, the `magick` call and `Promise.all` are left out.
  `CombinePages` returns each side's argument list with the file name it
  would resolve to.
- Numbers are exact reals, with no IEEE-754 rounding. `calculateLayout`
  requires a non-zero printable width and a non-zero spread height. With a
  zero printable width or a zero spread height, JavaScript would produce
  `Infinity` or `NaN`.
- The text of non-integer pixel values in the crop and splice arguments
  is not modelled. `Geometry` and `Size` carry the numbers. The side index
  in the file name is an integer, and its text is modelled by
  `Decimal.NatToString`.
- Not modelled: the unused configuration entries `unit` and `format`, and
  the `backIsFirst` behaviour, which exists only in comments.
- `Signature.CalculatePositions` requires `numColumns >= 1`. With fewer
  columns the source writes to negative indices.
- Pages in `calculatePositions` are a generic type; they are crop commands
  in the source. The method takes the grid width and height rather than
  the whole layout object.
- `Layouts.CalculateLayout` states only the grid width and the offset
  rule in its own contract. The floor bound on rows and the scaling of
  every length are stated by `LayoutFitsPaper` (for a positive spread
  height) and `LayoutScalesInches`.

## Behaviour of the code

- No errors are raised for an empty page list or a row count below 1. An
  empty list gives one blank sheet. A row count below 1 acts as one row
  per sheet.
- Which pages are placed, and how often, depends on the page count modulo
  4. With 4m + 1 pages the middle page is dropped. With 4m + 2 pages the
  middle two pages are each placed twice. With 4m + 3 pages the middle
  page is placed twice, on the back.
- The vertical offset is computed from `offsetX`. `offsetY` is never read.
- The splice amounts are named after the margins they come from, but the
  `right`/`bottom` amounts are spliced under north-west gravity and the
  `left`/`top` amounts under south-east gravity. Under the raster tool's
  usual reading of gravity for `-splice`, the amount called `right` then
  pads the left edge and the one called `left` pads the right edge, and
  likewise for `top` and `bottom`. The model keeps the arguments exactly
  as the code builds them.
