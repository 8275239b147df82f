/** Painting, searching and reading back: what `search` finds in a painted image. */
module FrameRoundTrip {
  import opened Options
  import opened FrameCode
  import opened FrameRows
  import opened FrameReader
  import opened Arithmetic
  import opened FramePainters
  import opened FrameSearch

  // ----- sampled positions -----

  /** Where cell `bit` is sampled when the sync runs are `m` pixels each. */
  lemma SampledColumn(y: int, a: int, c: int, m: nat, bit: nat)
    requires c == a + 2 * m
    ensures var v := 2 * (a - m + bit * m) + m;
            var at := At(y, a, c);
            (v >= 0 ==> SampleX(at, bit) == v / 2) && (v < 0 ==> SampleX(at, bit) <= 0)
  {
  }

  lemma SampledLine(y: nat, a: int, c: int, m: nat, row: nat)
    requires row < 2 && c == a + 2 * m
    ensures SampleY(At(y, a, c), row) == y + 3 * row * m
  {
  }

  // ----- edges of a painted image -----

  /** Neighbouring columns differ only at cell boundaries. */
  lemma ColumnChange(width: int, x: int) returns (j: nat)
    requires CellSize(width) >= 2 && ColumnOf(width, x) != ColumnOf(width, x - 1)
    ensures j <= BITS && x == BarX(width) + j * CellSize(width)
  {
    var cell, here, left := CellSize(width), ColumnOf(width, x), ColumnOf(width, x - 1);
    if here.None? {
      j := BITS;
    } else {
      ColumnBounds(width, x);
      j := here.value;
      TimesMonotone(0, j, cell);
      if left.Some? {
        ColumnBounds(width, x - 1);
        if here.value < left.value {
          TimesMonotone(here.value + 1, left.value, cell);
        } else {
          TimesMonotone(left.value + 1, here.value, cell);
        }
      }
    }
  }

  /** The image changes only at cell boundaries of the two bar rows. */
  lemma EdgeAligned(image: array2<int>, id: Id, y: int, x: int) returns (j: nat)
    requires CellSize(image.Length1) >= 2 && Painted(image, id) && Edge(image, y, x)
    ensures BandOf(image.Length1, image.Length0, y).Some?
    ensures j <= BITS && x == BarX(image.Length1) + j * CellSize(image.Length1)
  {
    var width, height := image.Length1, image.Length0;
    assert Shade(width, height, id, y, x) != Shade(width, height, id, y, x - 1);
    assert CellOf(width, height, y, x) != CellOf(width, height, y, x - 1);
    j := ColumnChange(width, x);
  }

  // ----- readable locations -----

  lemma ReadableSamples(image: array2<int>, at: Location)
    requires !ReadAt(image, at).Unreadable?
    ensures Inside(image, at)
    ensures forall row, bit | 0 <= row < 2 && 0 <= bit < BITS :: !Faint(image[SampleY(at, row), SampleX(at, bit)])
  {
    forall row, bit | 0 <= row < 2 && 0 <= bit < BITS
      ensures !Faint(image[SampleY(at, row), SampleX(at, bit)])
    {
      NotFaint(Samples(image, at, 0), Samples(image, at, 1), row, bit);
    }
  }

  lemma NotFaint(upper: seq<int>, lower: seq<int>, row: nat, bit: nat)
    requires |upper| == |lower| == BITS && row < 2 && bit < BITS
    requires !ReadRows(upper, lower).Unreadable?
    ensures !Faint((if row == 0 then upper else lower)[bit])
  {
  }

  /** A location that reads samples only bar cells: the grey background is too faint. */
  lemma ReadableInBar(image: array2<int>, id: Id, at: Location, row: nat, bit: nat)
    requires CellSize(image.Length1) >= 2 && Painted(image, id)
    requires !ReadAt(image, at).Unreadable? && row < 2 && bit < BITS
    ensures BandOf(image.Length1, image.Length0, SampleY(at, row)).Some?
    ensures ColumnOf(image.Length1, SampleX(at, bit)).Some?
  {
    ReadableSamples(image, at);
    assert Faint(BACKGROUND);
    assert CellOf(image.Length1, image.Length0, SampleY(at, row), SampleX(at, bit)).Some?;
  }

  /** The sync's own three edges on a line. */
  predicate IsSync(width: int, a: int, b: int, c: int) {
    var from, cell := BarX(width), CellSize(width);
    a == from + cell && b == from + 2 * cell && c == from + 3 * cell
  }

  /** Scanned lines that cross the upper bar row with their partner line inside the image. */
  predicate ScansBar(width: int, height: nat, y: int) {
    && 0 <= y && y % Step(height) == 0
    && BandOf(width, height, y) == Some(0)
    && y + 3 * CellSize(width) < height
  }

  lemma RunsAreEqual(cell: int, ja: int, jb: int, jc: int)
    requires cell >= 2 && -1 <= (jb - ja) * cell - (jc - jb) * cell <= 1
    ensures jb - ja == jc - jb
  {
  }

  /** A candidate of a painted line spans two equal runs of whole cells. */
  lemma CandidateRuns(image: array2<int>, id: Id, y: int, a: int, b: int, c: int) returns (ja: nat, n: nat, m: nat)
    requires CellSize(image.Length1) >= 2 && Painted(image, id) && Candidate(image, y, a, b, c)
    ensures BandOf(image.Length1, image.Length0, y).Some?
    ensures n >= 1 && m == n * CellSize(image.Length1)
    ensures a == BarX(image.Length1) + ja * CellSize(image.Length1) && b == a + m && c == a + 2 * m
  {
    var cell := CellSize(image.Length1);
    ja := EdgeAligned(image, id, y, a);
    var jb := EdgeAligned(image, id, y, b);
    var jc := EdgeAligned(image, id, y, c);
    assert b - a == (jb - ja) * cell && c - b == (jc - jb) * cell;
    RunsAreEqual(cell, ja, jb, jc);
    if jb - ja <= 0 {
      TimesMonotone(jb - ja, 0, cell);
    }
    n := jb - ja;
    TimesMonotone(0, n, cell);
    m := n * cell;
  }

  /** What a readable location says about its first and last samples and its lower line. */
  lemma ReadableBounds(image: array2<int>, id: Id, y: nat, a: int, c: int, m: nat)
    requires CellSize(image.Length1) >= 2 && Painted(image, id) && c == a + 2 * m
    requires !ReadAt(image, At(y, a, c)).Unreadable?
    ensures var width, height := image.Length1, image.Length0;
            var cell, from := CellSize(width), BarX(width);
            && 2 * a - m >= 2 * from
            && 2 * a + 69 * m < 2 * (from + BITS * cell)
            && y + 3 * m < height && BandOf(width, height, y + 3 * m).Some?
  {
    var at := At(y, a, c);
    ReadableInBar(image, id, at, 0, 0);
    ReadableInBar(image, id, at, 1, BITS - 1);
    InsideLine(image, at);
    BarFitsWidth(image.Length1);
    SampledColumn(y, a, c, m, 0);
    SampledColumn(y, a, c, m, BITS - 1);
    SampledLine(y, a, c, m, 1);
  }

  lemma InsideLine(image: array2<int>, at: Location)
    requires !ReadAt(image, at).Unreadable?
    ensures 0 <= SampleY(at, 1) < image.Length0
  {
  }

  /** The numbers above leave only the sync, seen from the upper row. */
  lemma BoundsGiveSync(width: int, height: nat, y: int, ja: nat, n: nat, a: int, b: int, c: int, m: nat)
    requires CellSize(width) >= 2 && 0 <= y && y % Step(height) == 0
    requires BandOf(width, height, y).Some?
    requires n >= 1 && m == n * CellSize(width)
    requires a == BarX(width) + ja * CellSize(width) && b == a + m && c == a + 2 * m
    requires 2 * a - m >= 2 * BarX(width) && 2 * a + 69 * m < 2 * (BarX(width) + BITS * CellSize(width))
    requires y + 3 * m < height && BandOf(width, height, y + 3 * m).Some?
    ensures IsSync(width, a, b, c) && ScansBar(width, height, y)
  {
    SyncOnly(CellSize(width), BarX(width), ja, n, a, m);
  }

  /** Only the sync reads: other runs sample past the bar. */
  lemma OnlySyncReads(image: array2<int>, id: Id, y: int, a: int, b: int, c: int)
    requires CellSize(image.Length1) >= 2 && Painted(image, id)
    requires Candidate(image, y, a, b, c) && !ReadAt(image, At(y, a, c)).Unreadable?
    ensures IsSync(image.Length1, a, b, c) && ScansBar(image.Length1, image.Length0, y)
  {
    var ja, n, m := CandidateRuns(image, id, y, a, b, c);
    ReadableBounds(image, id, y, a, c, m);
    BoundsGiveSync(image.Length1, image.Length0, y, ja, n, a, b, c, m);
  }

  lemma SyncOnly(cell: int, from: int, ja: int, n: int, a: int, m: int)
    requires cell >= 2 && a == from + ja * cell && m == n * cell && n >= 1
    requires 2 * a - m >= 2 * from && 2 * a + 69 * m < 2 * (from + BITS * cell)
    ensures ja == 1 && n == 1
  {
  }

  // ----- the round trip -----

  /** The location of the sync reads exactly the painted cells. */
  lemma SyncReadsClean(image: array2<int>, id: Id, y: int, a: int, b: int, c: int)
    requires Paintable(image.Length1, image.Length0, id) && Painted(image, id)
    requires IsSync(image.Length1, a, b, c) && ScansBar(image.Length1, image.Length0, y)
    ensures ReadAt(image, At(y, a, c)) == Clean(id)
  {
    var at, cell := At(y, a, c), CellSize(image.Length1);
    forall bit | 0 <= bit < BITS
      ensures SampleX(at, bit) == BarX(image.Length1) + bit * cell + cell / 2
      ensures ColumnOf(image.Length1, SampleX(at, bit)) == Some(bit)
      ensures 0 <= SampleX(at, bit) < image.Length1
    {
      SyncColumn(image.Length1, y, a, c, bit);
    }
    SampledLine(y, a, c, cell, 0);
    SampledLine(y, a, c, cell, 1);
    assert Inside(image, at);
    SyncRow(image, id, at, 0);
    SyncRow(image, id, at, 1);
    NoiseMargin(Samples(image, at, 0), Samples(image, at, 1), id, 0);
  }

  lemma SyncColumn(width: int, y: int, a: int, c: int, bit: nat)
    requires CellSize(width) >= 2 && bit < BITS && IsSync(width, a, BarX(width) + 2 * CellSize(width), c)
    ensures var at := At(y, a, c);
            && SampleX(at, bit) == BarX(width) + bit * CellSize(width) + CellSize(width) / 2
            && ColumnOf(width, SampleX(at, bit)) == Some(bit)
            && 0 <= SampleX(at, bit) < width
  {
    var cell := CellSize(width);
    BarFitsWidth(width);
    CellsInWidth(width, bit);
    TimesMonotone(0, bit, cell);
    SampledColumn(y, a, c, cell, bit);
    ColumnIs(width, BarX(width) + bit * cell + cell / 2, bit);
  }

  lemma SyncRow(image: array2<int>, id: Id, at: Location, row: nat)
    requires CellSize(image.Length1) >= 2 && Painted(image, id) && row < 2 && Inside(image, at)
    requires BandOf(image.Length1, image.Length0, SampleY(at, row)) == Some(row)
    requires forall bit | 0 <= bit < BITS :: ColumnOf(image.Length1, SampleX(at, bit)) == Some(bit)
    ensures Near(Samples(image, at, row), id, row, 0)
  {
    forall bit | 0 <= bit < BITS ensures Samples(image, at, row)[bit] == CellValue(id, row, bit) {
      assert CellOf(image.Length1, image.Length0, SampleY(at, row), SampleX(at, bit)) == Some((row, bit));
    }
  }

  /** A scanned line of the upper row has the sync as a candidate. */
  lemma SyncIsCandidate(image: array2<int>, id: Id, y: int, a: int, b: int, c: int)
    requires Paintable(image.Length1, image.Length0, id) && Painted(image, id)
    requires ScansBar(image.Length1, image.Length0, y)
    requires IsSync(image.Length1, a, b, c)
    ensures Candidate(image, y, a, b, c)
  {
    var from, cell := BarX(image.Length1), CellSize(image.Length1);
    SyncEdge(image, id, y, 1);
    SyncEdge(image, id, y, 2);
    SyncEdge(image, id, y, 3);
    forall x | from + cell < x < from + 3 * cell && x != from + 2 * cell ensures !Edge(image, y, x) {
      NoEdgeInside(image, id, y, x);
    }
  }

  lemma NoEdgeInside(image: array2<int>, id: Id, y: int, x: int)
    requires CellSize(image.Length1) >= 2 && Painted(image, id)
    requires var from, cell := BarX(image.Length1), CellSize(image.Length1);
             from + cell < x < from + 3 * cell && x != from + 2 * cell
    ensures !Edge(image, y, x)
  {
    var cell := CellSize(image.Length1);
    if Edge(image, y, x) {
      var j := EdgeAligned(image, id, y, x);
      if j <= 1 {
        TimesMonotone(j, 1, cell);
      } else if j >= 3 {
        TimesMonotone(3, j, cell);
      }
    }
  }

  lemma SyncEdge(image: array2<int>, id: Id, y: int, j: nat)
    requires Paintable(image.Length1, image.Length0, id) && Painted(image, id)
    requires ScansBar(image.Length1, image.Length0, y) && 1 <= j <= 3
    ensures var x := BarX(image.Length1) + j * CellSize(image.Length1);
            Edge(image, y, x) && Bright(image, y, x) == (j == 2)
  {
    var width, height, cell := image.Length1, image.Length0, CellSize(image.Length1);
    var x := BarX(width) + j * cell;
    BarFitsWidth(width);
    assert (j + 1) * cell == j * cell + cell && (j - 1) * cell == j * cell - cell;
    ColumnIs(width, x, j);
    ColumnIs(width, x - 1, j - 1);
    TimesMonotone(j, 3, cell);
    TimesMonotone(1, j, cell);
    assert CellOf(width, height, y, x) == Some((0, j as nat));
    assert CellOf(width, height, y, x - 1) == Some((0, (j - 1) as nat));
    assert Row(id)[j] == SYNC[j] && Row(id)[j - 1] == SYNC[j - 1];
  }

  /** Whatever `search` may return on a painted image reads clean. */
  lemma FoundIsClean(image: array2<int>, id: Id, at: Location)
    requires Paintable(image.Length1, image.Length0, id) && Painted(image, id) && Found(image, at)
    ensures ReadAt(image, at) == Clean(id)
    ensures exists y :: ScansBar(image.Length1, image.Length0, y)
  {
    var y, a, b, c :| Candidate(image, y, a, b, c) && at == At(y, a, c);
    OnlySyncReads(image, id, y, a, b, c);
    SyncReadsClean(image, id, y, a, b, c);
  }

  lemma ScannedLineReads(image: array2<int>, id: Id, y: int, a: int, b: int, c: int)
    requires Paintable(image.Length1, image.Length0, id) && Painted(image, id)
    requires ScansBar(image.Length1, image.Length0, y) && IsSync(image.Length1, a, b, c)
    ensures !LineFails(image, y)
  {
    SyncIsCandidate(image, id, y, a, b, c);
    SyncReadsClean(image, id, y, a, b, c);
    CleanLine(image, id, y, a, b, c);
  }

  lemma CleanLine(image: array2<int>, id: Id, y: int, a: int, b: int, c: int)
    requires Candidate(image, y, a, b, c) && ReadAt(image, At(y, a, c)) == Clean(id)
    ensures !LineFails(image, y)
  {
  }

  /** Painting, searching and reading gives back the ID exactly when some scanned line
      crosses the upper row with its partner line inside the image, and so whenever the
      scanning step is at most two cells. */
  method PaintSearchRead(width: nat, height: nat, id: Id) returns (frame: Option<Frame>)
    requires Paintable(width, height, id)
    ensures frame.Some? <==> exists y :: ScansBar(width, height, y)
    ensures frame.Some? ==> frame.value == Clean(id)
    ensures Step(height) <= 2 * CellSize(width) ==> frame == Some(Clean(id))
  {
    if Step(height) <= 2 * CellSize(width) {
      SmallStepScans(width, height, id);
    }
    var image := Paint(width, height, id);
    var found := Search(image);
    if found == None {
      forall y | ScansBar(width, height, y) ensures false {
        var from, cell := BarX(width), CellSize(width);
        ScannedLineReads(image, id, y, from + cell, from + 2 * cell, from + 3 * cell);
      }
      return None;
    }
    FoundIsClean(image, id, found.value);
    var read := Read(image, found.value);
    return Some(read);
  }

  /** A scanning step of at most two cells always suffices, even where the second row is cut. */
  lemma SmallStepScans(width: nat, height: nat, id: Id)
    requires Paintable(width, height, id)
    requires Step(height) <= 2 * CellSize(width)
    ensures exists y :: ScansBar(width, height, y)
  {
    var step, from := Step(height), BarY(height);
    var q := (from + step - 1) / step;
    var y := q * step;
    assert from + step - 1 == q * step + (from + step - 1) % step;
    assert y % step == 0 by {
      assert y == q * step + 0;
      Quotient(y, step, q);
    }
    assert from <= y < from + step;
    assert ScansBar(width, height, y);
  }
}
