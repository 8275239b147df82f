/** The two painters of the frame-ID bar: `paint` in bar.py fills a grey image, and
    `paint_frame_bar` in frame-bar.h writes into a flat pixel buffer. */
module FramePainters {
  import opened Options
  import opened FrameCode
  import opened FrameRows
  import opened FrameReader
  import opened Arithmetic

  const C_LIGHT: bv32 := 0xFFFF_FFFF
  const C_DARK: bv32 := 0xFF00_0000

  // ----- geometry -----

  function CellSize(width: int): int {
    width / (BITS + 4)
  }

  function BarX(width: int): int {
    (width - BITS * CellSize(width)) / 2
  }

  function BarY(height: int): int {
    height / 4
  }

  /** The guard both painters share. */
  predicate Paintable(width: int, height: int, id: Id) {
    CellSize(width) >= 2 && height >= CellSize(width) * 6 && id != ZERO_ID
  }

  /** Which of the two bar rows a line of the image belongs to. */
  function BandOf(width: int, height: int, y: int): Option<nat> {
    var from, cell := BarY(height), CellSize(width);
    if from <= y < from + 2 * cell then Some(0)
    else if from + 3 * cell <= y < from + 5 * cell then Some(1)
    else None
  }

  /** Which cell of the bar a column of the image belongs to. */
  function ColumnOf(width: int, x: int): Option<nat>
    requires CellSize(width) >= 2
  {
    var from, cell := BarX(width), CellSize(width);
    if from <= x < from + BITS * cell then
      InRange(x - from, cell, BITS);
      Some((x - from) / cell)
    else None
  }

  /** The cell of the bar that a pixel shows. */
  function CellOf(width: int, height: int, y: int, x: int): Option<(nat, nat)>
    requires CellSize(width) >= 2
  {
    match (BandOf(width, height, y), ColumnOf(width, x))
    case (Some(row), Some(bit)) => Some((row, bit))
    case _ => None
  }

  lemma InRange(d: int, cell: int, n: int)
    requires cell > 0 && 0 <= d < n * cell
    ensures 0 <= d / cell < n
  {
  }

  lemma Quotient(d: int, cell: int, k: int)
    requires cell > 0 && k * cell <= d < (k + 1) * cell
    ensures d / cell == k
  {
    var q := d / cell;
    assert d == q * cell + d % cell;
    if q < k {
      TimesMonotone(q + 1, k, cell);
    } else if k < q {
      TimesMonotone(k + 1, q, cell);
    }
  }

  lemma ColumnBounds(width: int, x: int)
    requires CellSize(width) >= 2 && ColumnOf(width, x).Some?
    ensures var k := ColumnOf(width, x).value;
            k < BITS && BarX(width) + k * CellSize(width) <= x < BarX(width) + (k + 1) * CellSize(width)
  {
    InRange(x - BarX(width), CellSize(width), BITS);
  }

  lemma ColumnIs(width: int, x: int, k: int)
    requires CellSize(width) >= 2 && 0 <= k < BITS
    requires BarX(width) + k * CellSize(width) <= x < BarX(width) + (k + 1) * CellSize(width)
    ensures ColumnOf(width, x) == Some(k)
  {
    var cell := CellSize(width);
    TimesMonotone(0, k, cell);
    TimesMonotone(k + 1, BITS, cell);
    Quotient(x - BarX(width), cell, k);
  }

  /** The bar stays inside the width, with at least two cells of margin on each side. */
  lemma BarFitsWidth(width: int)
    requires CellSize(width) >= 2
    ensures 2 * CellSize(width) <= BarX(width)
    ensures BarX(width) + BITS * CellSize(width) + 2 * CellSize(width) <= width
  {
  }

  /** The shared guard does not keep the second row inside the image: exactly this does. */
  predicate RowsFit(width: int, height: int) {
    BarY(height) + 5 * CellSize(width) <= height
  }

  lemma GuardTooWeak(id: Id)
    requires id != ZERO_ID
    ensures Paintable(80, 12, id) && !RowsFit(80, 12)
  {
  }

  lemma RowsFitExactly(width: int, height: int, id: Id)
    requires Paintable(width, height, id)
    ensures RowsFit(width, height) <==> forall y :: BandOf(width, height, y).Some? ==> 0 <= y < height
  {
    var last := BarY(height) + 5 * CellSize(width) - 1;
    assert BandOf(width, height, last) == Some(1);
  }

  // ----- paint -----

  predicate Before(row: nat, bit: nat, cell: (nat, nat)) {
    cell.0 < row || (cell.0 == row && cell.1 < bit)
  }

  /** The grey value of every pixel of a painted image. */
  function Shade(width: int, height: int, id: Id, y: int, x: int): int
    requires CellSize(width) >= 2
  {
    match CellOf(width, height, y, x)
    case None => BACKGROUND
    case Some((row, bit)) =>
      if row < 2 && bit < BITS then CellValue(id, row, bit) else BACKGROUND
  }

  /** The pixels after the cells before (row, bit) were painted. */
  function Partial(width: int, height: int, id: Id, row: nat, bit: nat, y: int, x: int): int
    requires CellSize(width) >= 2
  {
    var cell := CellOf(width, height, y, x);
    if cell.Some? && Before(row, bit, cell.value) then Shade(width, height, id, y, x) else BACKGROUND
  }

  function Min(a: int, b: int): int {
    if a < b then a else b
  }

  /** A numpy slice assignment: lines past the image are dropped. */
  method FillRect(image: array2<int>, top: nat, bottom: nat, left: nat, right: nat, value: int)
    requires left <= right <= image.Length1
    modifies image
    ensures forall y, x | 0 <= y < image.Length0 && 0 <= x < image.Length1 ::
              image[y, x] == if top <= y < bottom && left <= x < right then value else old(image[y, x])
  {
    var y := top;
    while y < Min(bottom, image.Length0)
      invariant y >= top
      invariant forall v, u | 0 <= v < image.Length0 && 0 <= u < image.Length1 ::
                  image[v, u] == if top <= v < bottom && v < y && left <= u < right then value else old(image[v, u])
    {
      for x := left to right
        invariant forall v, u | 0 <= v < image.Length0 && 0 <= u < image.Length1 ::
                    image[v, u] == if top <= v < bottom && (v < y || (v == y && u < x)) && left <= u < right
                                   then value else old(image[v, u])
      {
        image[y, x] := value;
      }
      y := y + 1;
    }
  }

  lemma CellRect(width: int, height: int, row: nat, bit: nat, y: int, x: int)
    requires CellSize(width) >= 2 && row < 2 && bit < BITS
    ensures var cell := CellSize(width);
            var top, left := BarY(height) + row * 3 * cell, BarX(width) + bit * cell;
            (top <= y < top + 2 * cell && left <= x < left + cell) <==> CellOf(width, height, y, x) == Some((row, bit))
  {
    var cell := CellSize(width);
    var left := BarX(width) + bit * cell;
    assert row * 3 * cell == if row == 0 then 0 else 3 * cell;
    if left <= x < left + cell {
      assert left + cell == BarX(width) + (bit + 1) * cell;
      ColumnIs(width, x, bit);
    } else if ColumnOf(width, x) == Some(bit) {
      ColumnBounds(width, x);
    }
  }

  lemma CellRange(width: int, height: int, y: int, x: int)
    requires CellSize(width) >= 2 && CellOf(width, height, y, x).Some?
    ensures var cell := CellOf(width, height, y, x).value; cell.0 < 2 && cell.1 < BITS
  {
    ColumnBounds(width, x);
  }

  /** Painting one cell is the step from one partial image to the next. */
  lemma PaintsPixel(width: int, height: int, id: Id, row: nat, bit: nat, top: int, left: int, y: int, x: int)
    requires CellSize(width) >= 2 && row < 2 && bit < BITS
    requires top == BarY(height) + row * 3 * CellSize(width) && left == BarX(width) + bit * CellSize(width)
    ensures Partial(width, height, id, row, bit + 1, y, x)
         == if top <= y < top + 2 * CellSize(width) && left <= x < left + CellSize(width) then CellValue(id, row, bit)
            else Partial(width, height, id, row, bit, y, x)
  {
    CellRect(width, height, row, bit, y, x);
    var cell := CellOf(width, height, y, x);
    if cell.Some? && cell != Some((row, bit)) {
      assert cell.value != (row, bit);
      assert cell.value.0 != row || cell.value.1 != bit;
    }
  }

  /** A finished row of cells is where the next one starts, and two rows are the whole bar. */
  lemma PaintsRow(width: int, height: int, id: Id, row: nat)
    requires CellSize(width) >= 2
    ensures forall y, x :: Partial(width, height, id, row + 1, 0, y, x) == Partial(width, height, id, row, BITS, y, x)
    ensures forall y, x :: Partial(width, height, id, 2, 0, y, x) == Shade(width, height, id, y, x)
  {
    forall y, x
      ensures Partial(width, height, id, row + 1, 0, y, x) == Partial(width, height, id, row, BITS, y, x)
      ensures Partial(width, height, id, 2, 0, y, x) == Shade(width, height, id, y, x)
    {
      if CellOf(width, height, y, x).Some? {
        CellRange(width, height, y, x);
      }
    }
  }

  /** The image holds the first cells of the bar on grey. */
  ghost predicate Shows(image: array2<int>, id: Id, row: nat, bit: nat)
    requires CellSize(image.Length1) >= 2
    reads image
  {
    forall y, x | 0 <= y < image.Length0 && 0 <= x < image.Length1 ::
      image[y, x] == Partial(image.Length1, image.Length0, id, row, bit, y, x)
  }

  /** The whole image is the painted one. */
  ghost predicate Painted(image: array2<int>, id: Id)
    requires CellSize(image.Length1) >= 2
    reads image
  {
    forall y, x | 0 <= y < image.Length0 && 0 <= x < image.Length1 ::
      image[y, x] == Shade(image.Length1, image.Length0, id, y, x)
  }

  method PaintCell(image: array2<int>, id: Id, row: nat, bit: nat)
    requires CellSize(image.Length1) >= 2 && row < 2 && bit < BITS
    requires Shows(image, id, row, bit)
    modifies image
    ensures Shows(image, id, row, bit + 1)
  {
    var width, height := image.Length1, image.Length0;
    var cell := CellSize(width);
    CellsInWidth(width, bit);
    var top, left := BarY(height) + row * 3 * cell, BarX(width) + bit * cell;
    label before:
    FillRect(image, top, top + 2 * cell, left, left + cell, CellValue(id, row, bit));
    forall y, x | 0 <= y < height && 0 <= x < width
      ensures image[y, x] == Partial(width, height, id, row, bit + 1, y, x)
    {
      PaintsPixel(width, height, id, row, bit, top, left, y, x);
      assert old@before(image[y, x]) == Partial(width, height, id, row, bit, y, x);
    }
  }

  /** `paint` in bar.py; null where it raises. */
  method Paint(width: nat, height: nat, id: Id) returns (image: array2?<int>)
    ensures image != null <==> Paintable(width, height, id)
    ensures image != null ==> fresh(image) && image.Length0 == height && image.Length1 == width
    ensures image != null ==> Painted(image, id)
  {
    if !Paintable(width, height, id) {
      return null;
    }
    var grey := new int[height, width]((_, _) => BACKGROUND);
    for row := 0 to 2
      invariant Shows(grey, id, row, 0)
    {
      for bit := 0 to BITS
        invariant Shows(grey, id, row, bit)
      {
        PaintCell(grey, id, row, bit);
      }
      PaintsRow(width, height, id, row);
    }
    PaintsRow(width, height, id, 2);
    return grey;
  }

  lemma CellsInWidth(width: int, bit: nat)
    requires CellSize(width) >= 2 && bit < BITS
    ensures 0 <= BarX(width) + bit * CellSize(width)
    ensures BarX(width) + bit * CellSize(width) + CellSize(width) <= width
  {
  }

  // ----- paint_frame_bar -----

  /** The pixels of one line segment of a flat buffer. */
  lemma LineSegment(width: int, line: int, left: int, right: int, k: int)
    requires width > 0 && 0 <= left <= right <= width
    ensures line * width + left <= k < line * width + right <==> k / width == line && left <= k % width < right
  {
    assert k == k / width * width + k % width;
    if line * width + left <= k < line * width + right {
      assert (line + 1) * width == line * width + width;
      Quotient(k, width, line);
    }
  }

  method FillLine(pixels: array<bv32>, from: nat, cell: nat, value: bv32)
    requires from + cell <= pixels.Length
    modifies pixels
    ensures forall k | 0 <= k < pixels.Length ::
              pixels[k] == if from <= k < from + cell then value else old(pixels[k])
  {
    for x := 0 to cell
      invariant forall k | 0 <= k < pixels.Length ::
                  pixels[k] == if from <= k < from + x then value else old(pixels[k])
    {
      pixels[from + x] := value;
    }
  }

  /** A pixel of a flat buffer that lies in a rectangle. */
  predicate InRect(width: int, top: int, bottom: int, left: int, right: int, k: int)
    requires width > 0
  {
    top <= k / width < bottom && left <= k % width < right
  }

  method FillBlock(pixels: array<bv32>, width: nat, height: nat, top: nat, left: nat, cell: nat, value: bv32)
    requires width > 0 && pixels.Length == width * height
    requires top + 2 * cell <= height && left + cell <= width
    modifies pixels
    ensures forall k | 0 <= k < pixels.Length ::
              pixels[k] == if InRect(width, top, top + 2 * cell, left, left + cell, k) then value else old(pixels[k])
  {
    for y := 0 to 2 * cell
      invariant forall k | 0 <= k < pixels.Length ::
                  pixels[k] == if InRect(width, top, top + y, left, left + cell, k) then value else old(pixels[k])
    {
      TimesMonotone(top + y + 1, height, width);
      assert (top + y + 1) * width == (top + y) * width + width;
      TimesMonotone(0, top + y, width);
      label before:
      FillLine(pixels, (top + y) * width + left, cell, value);
      forall k | 0 <= k < pixels.Length
        ensures pixels[k] == if InRect(width, top, top + y + 1, left, left + cell, k) then value else old(pixels[k])
      {
        LineSegment(width, top + y, left, left + cell, k);
        assert old@before(pixels[k])
            == if InRect(width, top, top + y, left, left + cell, k) then value else old(pixels[k]);
      }
    }
  }

  function CValue(id: Id, row: nat, bit: nat): bv32
    requires row < 2 && bit < BITS
  {
    if Row(id)[bit] != (row == 1) then C_LIGHT else C_DARK
  }

  /** The value of a pixel after the cells before (row, bit): bar cells replaced, the rest kept. */
  function CPartial(width: int, height: int, id: Id, row: nat, bit: nat, k: int, was: bv32): bv32
    requires CellSize(width) >= 2
  {
    match CellOf(width, height, k / width, k % width)
    case None => was
    case Some((r, b)) => if r < 2 && b < BITS && Before(row, bit, (r, b)) then CValue(id, r, b) else was
  }

  lemma CPaintsPixel(width: int, height: int, id: Id, row: nat, bit: nat, top: int, left: int, k: int, was: bv32)
    requires CellSize(width) >= 2 && row < 2 && bit < BITS
    requires top == BarY(height) + row * 3 * CellSize(width) && left == BarX(width) + bit * CellSize(width)
    ensures CPartial(width, height, id, row, bit + 1, k, was)
         == if InRect(width, top, top + 2 * CellSize(width), left, left + CellSize(width), k)
            then CValue(id, row, bit) else CPartial(width, height, id, row, bit, k, was)
  {
    CellRect(width, height, row, bit, k / width, k % width);
    var cell := CellOf(width, height, k / width, k % width);
    if cell.Some? && cell != Some((row, bit)) {
      assert cell.value.0 != row || cell.value.1 != bit;
    }
  }

  method CPaintCell(pixels: array<bv32>, width: nat, height: nat, id: Id, row: nat, bit: nat, ghost was: seq<bv32>)
    requires CellSize(width) >= 2 && RowsFit(width, height) && row < 2 && bit < BITS
    requires pixels.Length == width * height == |was|
    requires forall k | 0 <= k < |was| :: pixels[k] == CPartial(width, height, id, row, bit, k, was[k])
    modifies pixels
    ensures forall k | 0 <= k < |was| :: pixels[k] == CPartial(width, height, id, row, bit + 1, k, was[k])
  {
    var cell := CellSize(width);
    CellsInWidth(width, bit);
    var top, left := BarY(height) + row * 3 * cell, BarX(width) + bit * cell;
    assert row * 3 * cell == if row == 0 then 0 else 3 * cell;
    label before:
    FillBlock(pixels, width, height, top, left, cell, CValue(id, row, bit));
    forall k | 0 <= k < |was| ensures pixels[k] == CPartial(width, height, id, row, bit + 1, k, was[k]) {
      CPaintsPixel(width, height, id, row, bit, top, left, k, was[k]);
      assert old@before(pixels[k]) == CPartial(width, height, id, row, bit, k, was[k]);
    }
  }

  /** `paint_frame_bar`: refuses like `paint`, and otherwise replaces exactly the bar's
      pixels. Staying inside the buffer needs the rows to fit, which its own guard does not say. */
  method PaintFrameBar(pixels: array<bv32>, width: nat, height: nat, id: Id) returns (status: int)
    requires pixels.Length == width * height
    requires Paintable(width, height, id) ==> RowsFit(width, height)
    modifies pixels
    ensures status == if Paintable(width, height, id) then 0 else -1
    ensures status != 0 ==> pixels[..] == old(pixels[..])
    ensures status == 0 ==> forall k | 0 <= k < pixels.Length ::
              match CellOf(width, height, k / width, k % width)
              case None => pixels[k] == old(pixels[k])
              case Some((row, bit)) => row < 2 && bit < BITS && pixels[k] == CValue(id, row, bit)
  {
    if !Paintable(width, height, id) {
      return -1;
    }
    ghost var was := pixels[..];
    for row := 0 to 2
      invariant forall k | 0 <= k < |was| :: pixels[k] == CPartial(width, height, id, row, 0, k, was[k])
    {
      for bit := 0 to BITS
        invariant forall k | 0 <= k < |was| :: pixels[k] == CPartial(width, height, id, row, bit, k, was[k])
      {
        CPaintCell(pixels, width, height, id, row, bit, was);
      }
      forall k | 0 <= k < |was|
        ensures CPartial(width, height, id, row + 1, 0, k, was[k]) == CPartial(width, height, id, row, BITS, k, was[k])
      {
        CRowEnds(width, height, id, row, k, was[k]);
      }
    }
    forall k | 0 <= k < |was|
      ensures match CellOf(width, height, k / width, k % width)
              case None => pixels[k] == was[k]
              case Some((row, bit)) => row < 2 && bit < BITS && pixels[k] == CValue(id, row, bit)
    {
      CRowEnds(width, height, id, 1, k, was[k]);
    }
    return 0;
  }

  lemma CRowEnds(width: int, height: int, id: Id, row: nat, k: int, was: bv32)
    requires CellSize(width) >= 2
    ensures CPartial(width, height, id, row + 1, 0, k, was) == CPartial(width, height, id, row, BITS, k, was)
    ensures match CellOf(width, height, k / width, k % width)
            case None => CPartial(width, height, id, 2, 0, k, was) == was
            case Some((r, b)) => r < 2 && b < BITS && CPartial(width, height, id, 2, 0, k, was) == CValue(id, r, b)
  {
    if CellOf(width, height, k / width, k % width).Some? {
      CellRange(width, height, k / width, k % width);
    }
  }

  /** Both painters light the same pixels: the C value is white where the grey is light,
      black where it is dark, and untouched where it is background. */
  lemma PaintersAgree(width: nat, height: nat, id: Id, k: nat, was: bv32)
    requires Paintable(width, height, id) && k < width * height
    ensures var painted := CPartial(width, height, id, 2, 0, k, was);
            var shade := Shade(width, height, id, k / width, k % width);
            && (shade == LIGHT ==> painted == C_LIGHT)
            && (shade == BLACK ==> painted == C_DARK)
            && (shade == BACKGROUND ==> painted == was)
            && shade in {LIGHT, BLACK, BACKGROUND}
  {
    CRowEnds(width, height, id, 1, k, was);
    if CellOf(width, height, k / width, k % width).Some? {
      CellRange(width, height, k / width, k % width);
    }
  }
}
