/**
 * The module-grid restyling pass (src/utils/qrPatternUtils.ts, `applyPatternStyles`).
 * It reads back the rendered QR image as an RGBA byte buffer and walks it in square
 * cells of side `floor(width / 25)`. It samples each cell at its (clamped) centre and
 * calls the cell dark when that pixel's red byte is below 128. It then redraws the
 * image on a fresh background-filled canvas, painting only the dark cells in the
 * selected shape.
 *
 * The source buffer is `data` (read only). The redrawn canvas is `out`, a
 * `height` by `width` grid of colours indexed `out[row, column]`, which replaces the
 * original image.
 */
module QRPatternUtils {
  import opened Wrappers
  import opened JsStrings
  import opened QRTypes

  /** The module shapes; `Classic` is the `default` branch of the shape `switch`. */
  datatype ShapeStyle =
    | Classic | SoftRounded | RoundedSquare | Dots | Diamond
    | HorizontalLines | VerticalLines | Fluid | Leaf

  /** The shape a style id selects; an id the `switch` does not name falls to `Classic`. */
  function ShapeStyleNamed(id: string): ShapeStyle {
    match id
    case "soft-rounded" => SoftRounded
    case "rounded-square" => RoundedSquare
    case "dots" => Dots
    case "diamond" => Diamond
    case "horizontal-lines" => HorizontalLines
    case "vertical-lines" => VerticalLines
    case "fluid" => Fluid
    case "leaf" => Leaf
    case _ => Classic
  }

  /** `qrOptions.patterns?.shapeStyle || 'classic'`, read as a shape. */
  function StyleOf(o: QROptions): ShapeStyle {
    ShapeStyleNamed(OptOrElse(if o.patterns.Some? then o.patterns.value.shapeStyle else None, "classic"))
  }

  /** A missing or empty style id means the classic square modules. */
  lemma StyleOfDefault(o: QROptions)
    ensures o.patterns.None? || !Truthy(o.patterns.value.shapeStyle) ==> StyleOf(o) == Classic
    ensures o.patterns.Some? && Truthy(o.patterns.value.shapeStyle) ==>
      StyleOf(o) == ShapeStyleNamed(o.patterns.value.shapeStyle.value)
  {
  }

  /** Each of the nine ids offered by the pattern picker selects its own shape. */
  lemma ShapeStyleIds()
    ensures ShapeStyleNamed("classic") == Classic
    ensures ShapeStyleNamed("soft-rounded") == SoftRounded && ShapeStyleNamed("rounded-square") == RoundedSquare
    ensures ShapeStyleNamed("dots") == Dots && ShapeStyleNamed("diamond") == Diamond
    ensures ShapeStyleNamed("horizontal-lines") == HorizontalLines
    ensures ShapeStyleNamed("vertical-lines") == VerticalLines
    ensures ShapeStyleNamed("fluid") == Fluid && ShapeStyleNamed("leaf") == Leaf
  {
  }

  /** The cell side: `Math.floor(canvas.width / 25)`. */
  function ModuleSize(width: nat): nat {
    width / 25
  }

  /**
   * The cell side is positive exactly when the canvas is at least 25 pixels wide, which
   * is what lets the loops advance; over the size slider's range 128..512 it is 5..20.
   */
  lemma ModuleSizeRange(width: nat)
    ensures ModuleSize(width) >= 1 <==> width >= 25
    ensures 128 <= width <= 512 ==> 5 <= ModuleSize(width) <= 20
  {
  }

  function Min(a: int, b: int): int {
    if a <= b then a else b
  }

  /** The byte offset of the red channel of the sample pixel of the cell at `(x, y)`. */
  function SampleIndex(width: nat, height: nat, x: int, y: int, m: nat): int {
    (Min(y + m / 2, height - 1) * width + Min(x + m / 2, width - 1)) * 4
  }

  /** The sample pixel of a cell inside the canvas is inside the canvas, all four channels. */
  lemma SampleInBounds(width: nat, height: nat, x: int, y: int, m: nat)
    requires 0 <= x < width && 0 <= y < height
    ensures 0 <= SampleIndex(width, height, x, y, m)
    ensures SampleIndex(width, height, x, y, m) + 3 < width * height * 4
  {
    var sx := Min(x + m / 2, width - 1);
    var sy := Min(y + m / 2, height - 1);
    assert 0 <= sx < width && 0 <= sy < height;
    assert sy * width <= (height - 1) * width by {
      MulMono(sy, height - 1, width);
    }
    assert (height - 1) * width == height * width - width;
    assert 0 <= sy * width;
  }

  lemma MulMono(a: int, b: int, c: nat)
    requires a <= b
    ensures a * c <= b * c
  {
  }

  /**
   * `data[pixelIndex] < 128`: the cell is dark when its sample pixel's red byte is below
   * 128. An index past the end reads `undefined` in the source, which compares false;
   * by `SampleInBounds` that never happens for a cell inside the canvas.
   */
  predicate IsDarkCell(data: seq<int>, width: nat, height: nat, x: int, y: int, m: nat) {
    var i := SampleIndex(width, height, x, y, m);
    0 <= i < |data| && data[i] < 128
  }

  /** The sample offset is a pixel's first byte, the red channel. */
  lemma SampleIsRed(width: nat, height: nat, x: int, y: int, m: nat)
    ensures SampleIndex(width, height, x, y, m) % 4 == 0
  {
    var k := Min(y + m / 2, height - 1) * width + Min(x + m / 2, width - 1);
    DivUnique(k * 4, k, 4);
  }

  /**
   * Which pixels the drawing of a non-classic shape for the cell at `(x, y)` of side `m`
   * covers: a stand-in for the canvas's arcs, ellipses and paths.
   */
  type Covers = (ShapeStyle, nat, int, int, int, int) -> bool

  /** Whether the shape drawn for a dark cell paints the pixel; a classic module paints all of it. */
  predicate ShapePaints(style: ShapeStyle, covers: Covers, m: nat, x: int, y: int, px: int, py: int) {
    style == Classic || covers(style, m, x, y, px, py)
  }

  /** The origin of the cell holding a pixel coordinate. */
  function CellOrigin(p: nat, m: nat): nat
    requires m >= 1
  {
    p - p % m
  }

  /** Division by a positive `m` is unique: the quotient of `p` is the `i` with `i * m <= p < i * m + m`. */
  lemma DivUnique(p: int, i: int, m: int)
    requires m >= 1 && i * m <= p < i * m + m
    ensures p / m == i && p % m == p - i * m
  {
    var q := p / m;
    assert q * m <= p < q * m + m;
    assert q <= i by {
      if q > i {
        MulMono(i + 1, q, m);
      }
    }
    assert q >= i by {
      if q < i {
        MulMono(q + 1, i, m);
      }
    }
  }

  /** A coordinate in `[x, x + m)`, with `x` a multiple of `m`, lies in the cell starting at `x`. */
  lemma CellOriginOf(p: nat, x: nat, m: nat)
    requires m >= 1 && x % m == 0 && x <= p < x + m
    ensures CellOrigin(p, m) == x
  {
    var i := x / m;
    assert x == i * m;
    DivUnique(p, i, m);
  }

  /** The next grid line after a multiple of `m` is again a multiple of `m`. */
  lemma MultipleStep(x: int, m: int)
    requires m >= 1 && x % m == 0
    ensures (x + m) % m == 0
  {
    var i := x / m;
    assert x == i * m;
    assert (i + 1) * m == i * m + m;
    DivUnique(x + m, i + 1, m);
  }

  /** Two multiples of `m` are at least `m` apart. */
  lemma NextMultiple(a: int, b: int, m: int)
    requires m >= 1 && a % m == 0 && b % m == 0 && a < b
    ensures a + m <= b
  {
    var i := a / m;
    var j := b / m;
    assert a == i * m && b == j * m;
    assert j >= i + 1 by {
      if j < i + 1 {
        MulMono(j, i, m);
      }
    }
    MulMono(i + 1, j, m);
  }

  /** The colour the restyled canvas shows at pixel `(px, py)`. */
  function PatternPixel(data: seq<int>, width: nat, height: nat, o: QROptions, covers: Covers, px: nat, py: nat): string
    requires width >= 25
  {
    var m := ModuleSize(width);
    var x := CellOrigin(px, m);
    var y := CellOrigin(py, m);
    if IsDarkCell(data, width, height, x, y, m) && ShapePaints(StyleOf(o), covers, m, x, y, px, py)
    then o.color else o.backgroundColor
  }

  /**
   * Every pixel is the foreground or the background colour; a pixel of a light cell is
   * always background, and a foreground pixel always lies in a dark cell.
   */
  lemma PatternPixelColours(data: seq<int>, width: nat, height: nat, o: QROptions, covers: Covers, px: nat, py: nat)
    requires width >= 25
    ensures var c := PatternPixel(data, width, height, o, covers, px, py);
      var m := ModuleSize(width);
      (c == o.color || c == o.backgroundColor) &&
      (!IsDarkCell(data, width, height, CellOrigin(px, m), CellOrigin(py, m), m) ==> c == o.backgroundColor) &&
      (o.color != o.backgroundColor && c == o.color ==>
        IsDarkCell(data, width, height, CellOrigin(px, m), CellOrigin(py, m), m))
  {
  }

  /**
   * Only red bytes decide: two buffers that agree on every red byte (green, blue and
   * alpha may differ) restyle to the same pixel everywhere.
   */
  lemma RedChannelOnly(data: seq<int>, data2: seq<int>, width: nat, height: nat, o: QROptions, covers: Covers,
                       px: nat, py: nat)
    requires width >= 25 && |data| == |data2|
    requires forall i | 0 <= i < |data| && i % 4 == 0 :: data[i] == data2[i]
    ensures PatternPixel(data, width, height, o, covers, px, py) == PatternPixel(data2, width, height, o, covers, px, py)
  {
    var m := ModuleSize(width);
    SampleIsRed(width, height, CellOrigin(px, m), CellOrigin(py, m), m);
  }

  /**
   * The classic branch fills its whole module, clipped to the canvas: every pixel of
   * `[x, x + m) x [y, y + m)` inside the canvas takes the foreground colour when the cell
   * at the grid point `(x, y)` is dark.
   */
  lemma ClassicFillsCell(data: seq<int>, width: nat, height: nat, o: QROptions, covers: Covers,
                         x: nat, y: nat, px: nat, py: nat)
    requires width >= 25 && StyleOf(o) == Classic
    requires var m := ModuleSize(width); x % m == 0 && y % m == 0
    requires IsDarkCell(data, width, height, x, y, ModuleSize(width))
    requires x <= px < x + ModuleSize(width) && y <= py < y + ModuleSize(width)
    ensures PatternPixel(data, width, height, o, covers, px, py) == o.color
  {
    CellOriginOf(px, x, ModuleSize(width));
    CellOriginOf(py, y, ModuleSize(width));
  }

  /** An image whose every red byte is below 128, restyled classically, is all foreground. */
  lemma AllDarkClassic(data: seq<int>, width: nat, height: nat, o: QROptions, covers: Covers, px: nat, py: nat)
    requires width >= 25 && StyleOf(o) == Classic && |data| == width * height * 4
    requires forall i | 0 <= i < |data| :: data[i] < 128
    requires px < width && py < height
    ensures PatternPixel(data, width, height, o, covers, px, py) == o.color
  {
    var m := ModuleSize(width);
    SampleInBounds(width, height, CellOrigin(px, m), CellOrigin(py, m), m);
  }

  // ---------------------------------------------------------------------------
  // The grid traversal
  // ---------------------------------------------------------------------------

  /** The cell origins `x, x + m, …` below `width` on the row at `y`, left to right. */
  function RowCells(y: int, x: nat, width: nat, m: nat): seq<(int, int)>
    requires m >= 1
    decreases width - x
  {
    if x >= width then [] else [(x, y)] + RowCells(y, x + m, width, m)
  }

  /** The cell origins of the rows `y, y + m, …` below `height`, in row-major order. */
  function Cells(y: nat, width: nat, height: nat, m: nat): seq<(int, int)>
    requires m >= 1
    decreases height - y
  {
    if y >= height then [] else RowCells(y, 0, width, m) + Cells(y + m, width, height, m)
  }

  /** Every cell the traversal visits, in the order it visits them. */
  function CellOrigins(width: nat, height: nat, m: nat): seq<(int, int)>
    requires m >= 1
  {
    Cells(0, width, height, m)
  }

  /** `ceil(n / m)` for a natural `n`. */
  function CeilDiv(n: nat, m: nat): nat
    requires m >= 1
  {
    (n + m - 1) / m
  }

  lemma CeilDivStep(n: nat, m: nat)
    requires m >= 1 && n > 0
    ensures CeilDiv(n, m) == 1 + (if n <= m then 0 else CeilDiv(n - m, m))
  {
    if n <= m {
      DivUnique(n + m - 1, 1, m);
    } else {
      var q := (n - 1) / m;
      assert q * m <= n - 1 < q * m + m;
      assert (q + 1) * m == q * m + m;
      DivUnique(n + m - 1, q + 1, m);
    }
  }

  /** A row from `x` holds `ceil((width - x) / m)` cells. */
  lemma {:induction false} RowCellsCount(y: int, x: nat, width: nat, m: nat)
    requires m >= 1
    ensures |RowCells(y, x, width, m)| == if x >= width then 0 else CeilDiv(width - x, m)
    decreases width - x
  {
    if x < width {
      RowCellsCount(y, x + m, width, m);
      CeilDivStep(width - x, m);
    }
  }

  /** The cells of a row from a grid line `x` are the grid points of that row from `x` on. */
  lemma {:induction false} RowCellsMembers(y: int, x: nat, width: nat, m: nat)
    requires m >= 1 && x % m == 0
    ensures forall c: (int, int) :: c in RowCells(y, x, width, m) <==>
      c.1 == y && x <= c.0 < width && c.0 % m == 0
    decreases width - x
  {
    if x < width {
      MultipleStep(x, m);
      RowCellsMembers(y, x + m, width, m);
      forall c: (int, int) | c.1 == y && x <= c.0 < width && c.0 % m == 0
        ensures c in RowCells(y, x, width, m)
      {
        if c.0 != x {
          NextMultiple(x, c.0, m);
        }
      }
    }
  }

  /** The traversal from row `y` visits `ceil((height - y) / m) * ceil(width / m)` cells. */
  lemma {:induction false} CellsCount(y: nat, width: nat, height: nat, m: nat)
    requires m >= 1
    ensures |Cells(y, width, height, m)| == (if y >= height then 0 else CeilDiv(height - y, m)) * CeilDiv(width, m)
    decreases height - y
  {
    if y < height {
      CellsCount(y + m, width, height, m);
      RowCellsCount(y, 0, width, m);
      CeilDivStep(height - y, m);
      var r := if y + m >= height then 0 else CeilDiv(height - y - m, m);
      assert CeilDiv(height - y, m) == 1 + r;
      assert (1 + r) * CeilDiv(width, m) == CeilDiv(width, m) + r * CeilDiv(width, m);
      if width == 0 {
        DivUnique(m - 1, 0, m);
      }
    }
  }

  /** The traversal from a grid line `y` visits exactly the grid points inside the canvas from row `y` on. */
  lemma {:induction false} CellsMembers(y: nat, width: nat, height: nat, m: nat)
    requires m >= 1 && y % m == 0
    ensures forall c: (int, int) :: c in Cells(y, width, height, m) <==>
      0 <= c.0 < width && y <= c.1 < height && c.0 % m == 0 && c.1 % m == 0
    decreases height - y
  {
    if y < height {
      MultipleStep(y, m);
      CellsMembers(y + m, width, height, m);
      RowCellsMembers(y, 0, width, m);
      forall c: (int, int) | 0 <= c.0 < width && y <= c.1 < height && c.0 % m == 0 && c.1 % m == 0
        ensures c in Cells(y, width, height, m)
      {
        if c.1 != y {
          NextMultiple(y, c.1, m);
        }
      }
    }
  }

  /**
   * The traversal visits `ceil(width / m) * ceil(height / m)` cells, and a point is
   * visited exactly when both coordinates are multiples of `m` inside the canvas.
   */
  lemma CellOriginsShape(width: nat, height: nat, m: nat)
    requires m >= 1
    ensures |CellOrigins(width, height, m)| == CeilDiv(width, m) * CeilDiv(height, m)
    ensures forall c: (int, int) :: c in CellOrigins(width, height, m) <==>
      0 <= c.0 < width && 0 <= c.1 < height && c.0 % m == 0 && c.1 % m == 0
  {
    CellsCount(0, width, height, m);
    CellsMembers(0, width, height, m);
    var a := CeilDiv(width, m);
    var b := CeilDiv(height, m);
    if height == 0 {
      DivUnique(m - 1, 0, m);
      assert b == 0;
    }
    assert (if 0 >= height then 0 else b) == b;
    assert b * a == a * b;
  }

  /** A cell painted by `PaintCell`: its pixels the shape covers, clipped to the canvas. */
  predicate InPaintedCell(style: ShapeStyle, covers: Covers, m: nat, x: int, y: int, px: int, py: int) {
    x <= px < x + m && y <= py < y + m && ShapePaints(style, covers, m, x, y, px, py)
  }

  /**
   * The body of `if (isDark)`: paint the shape of the dark cell at `(x, y)` in the
   * foreground colour. The classic branch is `fillRect(x, y, m, m)`; the canvas clips
   * it to its own extent.
   */
  method PaintCell(out: array2<string>, x: nat, y: nat, m: nat, style: ShapeStyle, color: string, covers: Covers)
    modifies out
    ensures forall py, px | 0 <= py < out.Length0 && 0 <= px < out.Length1 ::
      out[py, px] == if InPaintedCell(style, covers, m, x, y, px, py) then color else old(out[py, px])
  {
    var yEnd := Min(y + m, out.Length0);
    var xEnd := Min(x + m, out.Length1);
    var py := y;
    while py < yEnd
      invariant y <= py || yEnd <= y
      invariant forall qy, qx | 0 <= qy < out.Length0 && 0 <= qx < out.Length1 ::
        out[qy, qx] == if qy < py && InPaintedCell(style, covers, m, x, y, qx, qy) then color else old(out[qy, qx])
      decreases yEnd - py
    {
      var px := x;
      while px < xEnd
        invariant x <= px || xEnd <= x
        invariant forall qy, qx | 0 <= qy < out.Length0 && 0 <= qx < out.Length1 ::
          out[qy, qx] ==
            if (qy < py || (qy == py && qx < px)) && InPaintedCell(style, covers, m, x, y, qx, qy)
            then color else old(out[qy, qx])
        decreases xEnd - px
      {
        if style == Classic || covers(style, m, x, y, px, py) {
          out[py, px] := color;
        }
        px := px + 1;
      }
      py := py + 1;
    }
  }

  /**
   * `applyPatternStyles`: a fresh canvas filled with the background colour, onto which
   * every dark cell of the grid is painted in the foreground colour; the result is the
   * new image. `visited` records the cell origins in the order the loops reach them.
   */
  method ApplyPatternStyles(data: array<int>, width: nat, height: nat, o: QROptions, covers: Covers)
    returns (out: array2<string>, ghost visited: seq<(int, int)>)
    requires width >= 25
    requires data.Length == width * height * 4
    ensures fresh(out) && out.Length0 == height && out.Length1 == width
    ensures forall py, px | 0 <= py < height && 0 <= px < width ::
      out[py, px] == PatternPixel(data[..], width, height, o, covers, px, py)
    ensures visited == CellOrigins(width, height, ModuleSize(width))
  {
    var m := width / 25;
    ghost var pixels := data[..];
    out := new string[height, width]((_, _) => o.backgroundColor);
    visited := [];
    var y := 0;
    while y < height
      invariant y % m == 0
      invariant forall py, px | 0 <= py < height && 0 <= px < width ::
        out[py, px] == if py < y then PatternPixel(pixels, width, height, o, covers, px, py) else o.backgroundColor
      invariant visited + Cells(y, width, height, m) == CellOrigins(width, height, m)
      decreases height - y
    {
      label BeforeRow:
      ghost var row := VisitRow(data, out, width, height, o, covers, y);
      assert data[..] == pixels;
      forall py, px | 0 <= py < height && 0 <= px < width
        ensures out[py, px] ==
          if py < y + m then PatternPixel(pixels, width, height, o, covers, px, py) else o.backgroundColor
      {
        assert old@BeforeRow(out[py, px]) ==
          if py < y then PatternPixel(pixels, width, height, o, covers, px, py) else o.backgroundColor;
      }
      assert Cells(y, width, height, m) == row + Cells(y + m, width, height, m);
      assert (visited + row) + Cells(y + m, width, height, m) == visited + (row + Cells(y + m, width, height, m));
      visited := visited + row;
      y := y + m;
      MultipleStep(y - m, m);
    }
  }

  /**
   * One pass of the outer loop: the inner loop over the cells of the row of cells at
   * `y`, which repaints that band of the (still background) canvas and nothing else.
   */
  method VisitRow(data: array<int>, out: array2<string>, width: nat, height: nat, o: QROptions, covers: Covers, y: nat)
    returns (ghost row: seq<(int, int)>)
    requires width >= 25
    requires data.Length == width * height * 4
    requires out.Length0 == height && out.Length1 == width
    requires y < height && y % ModuleSize(width) == 0
    requires forall py, px | y <= py < height && 0 <= px < width :: out[py, px] == o.backgroundColor
    modifies out
    ensures forall py, px | 0 <= py < height && 0 <= px < width ::
      out[py, px] ==
        if y <= py < y + ModuleSize(width) then PatternPixel(data[..], width, height, o, covers, px, py)
        else old(out[py, px])
    ensures row == RowCells(y, 0, width, ModuleSize(width))
  {
    var m := width / 25;
    ghost var pixels := data[..];
    row := [];
    var x := 0;
    while x < width
      invariant x % m == 0
      invariant forall py, px | 0 <= py < height && 0 <= px < width ::
        out[py, px] ==
          if y <= py < y + m && px < x then PatternPixel(pixels, width, height, o, covers, px, py)
          else old(out[py, px])
      invariant row + RowCells(y, x, width, m) == RowCells(y, 0, width, m)
      decreases width - x
    {
      forall py, px | y <= py < height && x <= px < width
        ensures out[py, px] == o.backgroundColor
      {
        assert out[py, px] == old(out[py, px]);
      }
      label BeforeCell:
      VisitCell(data, out, width, height, o, covers, x, y);
      assert data[..] == pixels;
      forall py, px | 0 <= py < height && 0 <= px < width
        ensures out[py, px] ==
          if y <= py < y + m && px < x + m then PatternPixel(pixels, width, height, o, covers, px, py)
          else old(out[py, px])
      {
        assert old@BeforeCell(out[py, px]) ==
          if y <= py < y + m && px < x then PatternPixel(pixels, width, height, o, covers, px, py)
          else old(out[py, px]);
      }
      assert RowCells(y, x, width, m) == [(x, y)] + RowCells(y, x + m, width, m);
      row := row + [(x, y)];
      x := x + m;
      MultipleStep(x - m, m);
    }
  }

  /**
   * One pass of the inner loop: sample the centre pixel of the cell at `(x, y)` and,
   * when it is dark, paint the cell's shape over the still-background cell.
   */
  method VisitCell(data: array<int>, out: array2<string>, width: nat, height: nat, o: QROptions, covers: Covers,
                   x: nat, y: nat)
    requires width >= 25
    requires data.Length == width * height * 4
    requires out.Length0 == height && out.Length1 == width
    requires x < width && y < height && x % ModuleSize(width) == 0 && y % ModuleSize(width) == 0
    requires forall py, px | y <= py < height && x <= px < width :: out[py, px] == o.backgroundColor
    modifies out
    ensures forall py, px | 0 <= py < height && 0 <= px < width ::
      out[py, px] ==
        if y <= py < y + ModuleSize(width) && x <= px < x + ModuleSize(width)
        then PatternPixel(data[..], width, height, o, covers, px, py)
        else old(out[py, px])
  {
    var m := width / 25;
    var sampleX := Min(x + m / 2, width - 1);
    var sampleY := Min(y + m / 2, height - 1);
    var pixelIndex := (sampleY * width + sampleX) * 4;
    SampleInBounds(width, height, x, y, m);
    var isDark := data[pixelIndex] < 128;
    assert isDark == IsDarkCell(data[..], width, height, x, y, m);
    if isDark {
      PaintCell(out, x, y, m, StyleOf(o), o.color, covers);
    }
    CellStep(data[..], width, height, o, covers, x, y, isDark);
  }

  /** The colour of a pixel of the cell at `(x, y)`, as the traversal paints it there. */
  lemma CellStep(data: seq<int>, width: nat, height: nat, o: QROptions, covers: Covers,
                 x: nat, y: nat, dark: bool)
    requires width >= 25
    requires var m := ModuleSize(width); x % m == 0 && y % m == 0
    requires dark == IsDarkCell(data, width, height, x, y, ModuleSize(width))
    ensures forall px: nat, py: nat | x <= px < x + ModuleSize(width) && y <= py < y + ModuleSize(width) ::
      PatternPixel(data, width, height, o, covers, px, py) ==
        if dark && InPaintedCell(StyleOf(o), covers, ModuleSize(width), x, y, px, py) then o.color
        else o.backgroundColor
  {
    var m := ModuleSize(width);
    forall px: nat, py: nat | x <= px < x + m && y <= py < y + m
      ensures PatternPixel(data, width, height, o, covers, px, py) ==
        if dark && InPaintedCell(StyleOf(o), covers, m, x, y, px, py) then o.color else o.backgroundColor
    {
      CellOriginOf(px, x, m);
      CellOriginOf(py, y, m);
    }
  }
}
