/** `read` and `search` on an image, and what they make of a painted one. Locations are
    reals: the halves and quarters that the source computes are exact in its floats. */
module FrameSearch {
  import opened Options
  import opened FrameCode
  import opened FrameRows
  import opened FrameReader
  import opened FramePainters

  datatype Location = Location(x: real, y: real, cell: real)

  /** Python's `int` on a float: truncation towards zero. */
  function Truncate(r: real): int {
    if r >= 0.0 then r.Floor else -((-r).Floor)
  }

  function SampleX(at: Location, bit: nat): int {
    Truncate(at.x + (bit as real + 0.5) * at.cell)
  }

  function SampleY(at: Location, row: nat): int {
    Truncate(if row == 0 then at.y else at.y + 3.0 * at.cell)
  }

  /** Every sampled position lies inside the image. */
  predicate Inside(image: array2<int>, at: Location) {
    && (forall bit | 0 <= bit < BITS :: 0 <= SampleX(at, bit) < image.Length1)
    && (forall row | 0 <= row < 2 :: 0 <= SampleY(at, row) < image.Length0)
  }

  function Samples(image: array2<int>, at: Location, row: nat): (values: seq<int>)
    requires Inside(image, at) && row < 2
    reads image
    ensures |values| == BITS
  {
    seq(BITS, bit requires 0 <= bit < BITS reads image => image[SampleY(at, row), SampleX(at, bit)])
  }

  function ReadAt(image: array2<int>, at: Location): Frame
    reads image
  {
    if Inside(image, at) then ReadRows(Samples(image, at, 0), Samples(image, at, 1)) else Unreadable(Outside)
  }

  /** `read` in bar.py. */
  method Read(image: array2<int>, at: Location) returns (frame: Frame)
    ensures frame == ReadAt(image, at)
  {
    if !Inside(image, at) {
      return Unreadable(Outside);
    }
    frame := ReadValues([Samples(image, at, 0), Samples(image, at, 1)]);
  }

  // ----- search -----

  predicate Bright(image: array2<int>, y: int, x: int)
    requires 0 <= y < image.Length0 && 0 <= x < image.Length1
    reads image
  {
    image[y, x] >= MIDDLE
  }

  /** A column where the line changes between bright and dark. */
  predicate Edge(image: array2<int>, y: int, x: int)
    reads image
  {
    0 <= y < image.Length0 && 1 <= x < image.Length1 && Bright(image, y, x) != Bright(image, y, x - 1)
  }

  method Edges(image: array2<int>, y: nat) returns (edges: seq<int>)
    requires y < image.Length0
    ensures LineEdges(image, y, edges)
  {
    edges := [];
    var x := 1;
    while x < image.Length1
      invariant 1 <= x
      invariant forall i, j | 0 <= i < j < |edges| :: edges[i] < edges[j]
      invariant forall i | 0 <= i < |edges| :: edges[i] < x
      invariant forall e | e < x :: e in edges <==> Edge(image, y, e)
    {
      if Bright(image, y, x) != Bright(image, y, x - 1) {
        edges := edges + [x];
      }
      x := x + 1;
    }
  }

  function Step(height: nat): nat {
    if height / 200 > 1 then height / 200 else 1
  }

  predicate Consecutive(image: array2<int>, y: int, a: int, b: int)
    reads image
  {
    Edge(image, y, a) && Edge(image, y, b) && a < b && forall x | a < x < b :: !Edge(image, y, x)
  }

  predicate EvenRuns(a: int, b: int, c: int) {
    c - a >= 4 && -1 <= (b - a) - (c - b) <= 1
  }

  /** Three neighbouring edges of a scanned line that look like the sync. */
  predicate Candidate(image: array2<int>, y: int, a: int, b: int, c: int)
    reads image
  {
    && 0 <= y < image.Length0 && y % Step(image.Length0) == 0
    && Consecutive(image, y, a, b) && Consecutive(image, y, b, c)
    && EvenRuns(a, b, c)
    && !Bright(image, y, a)
  }

  function At(y: int, a: int, c: int): Location {
    var cell := (c - a) as real / 2.0;
    Location(a as real - cell, y as real, cell)
  }

  /** No candidate of the line reads. */
  ghost predicate LineFails(image: array2<int>, y: int)
    reads image
  {
    forall a, b, c :: Candidate(image, y, a, b, c) ==> ReadAt(image, At(y, a, c)).Unreadable?
  }

  ghost predicate Found(image: array2<int>, at: Location)
    reads image
  {
    && !ReadAt(image, at).Unreadable?
    && exists y, a, b, c :: Candidate(image, y, a, b, c) && at == At(y, a, c)
  }

  /** What the edges of one line are: all of them, in order. */
  ghost predicate LineEdges(image: array2<int>, y: int, edges: seq<int>)
    reads image
  {
    && (forall i, j | 0 <= i < j < |edges| :: edges[i] < edges[j])
    && (forall i | 0 <= i < |edges| :: Edge(image, y, edges[i]))
    && forall x :: Edge(image, y, x) ==> x in edges
  }

  predicate TripleFails(image: array2<int>, y: int, edges: seq<int>, k: int)
    requires 0 <= k < |edges| - 2
    reads image
  {
    Candidate(image, y, edges[k], edges[k + 1], edges[k + 2]) ==>
      ReadAt(image, At(y, edges[k], edges[k + 2])).Unreadable?
  }

  /** The source's test of one triple: even runs, dark after the first edge, and readable. */
  predicate Hit(image: array2<int>, y: int, edges: seq<int>, k: int)
    requires 0 <= y < image.Length0 && 0 <= k < |edges| - 2 && 0 <= edges[k] < image.Length1
    reads image
  {
    && EvenRuns(edges[k], edges[k + 1], edges[k + 2])
    && !Bright(image, y, edges[k])
    && !ReadAt(image, At(y, edges[k], edges[k + 2])).Unreadable?
  }

  method TryTriple(image: array2<int>, y: nat, edges: seq<int>, k: nat) returns (hit: bool)
    requires y < image.Length0 && k < |edges| - 2 && 0 <= edges[k] < image.Length1
    ensures hit == Hit(image, y, edges, k)
  {
    var a, b, c := edges[k], edges[k + 1], edges[k + 2];
    if !EvenRuns(a, b, c) || Bright(image, y, a) {
      return false;
    }
    var frame := Read(image, At(y, a, c));
    hit := !frame.Unreadable?;
  }

  lemma TripleDecides(image: array2<int>, y: nat, edges: seq<int>, k: nat)
    requires y < image.Length0 && y % Step(image.Length0) == 0
    requires LineEdges(image, y, edges) && k < |edges| - 2 && 0 <= edges[k] < image.Length1
    ensures if Hit(image, y, edges, k) then Found(image, At(y, edges[k], edges[k + 2]))
            else TripleFails(image, y, edges, k)
  {
    if Hit(image, y, edges, k) {
      HitIsCandidate(image, y, edges, k);
    }
  }

  lemma HitIsCandidate(image: array2<int>, y: nat, edges: seq<int>, k: nat)
    requires y < image.Length0 && y % Step(image.Length0) == 0
    requires LineEdges(image, y, edges) && k < |edges| - 2 && 0 <= edges[k] < image.Length1
    requires Hit(image, y, edges, k)
    ensures Candidate(image, y, edges[k], edges[k + 1], edges[k + 2])
  {
    Neighbours(image, y, edges, k);
    Neighbours(image, y, edges, k + 1);
  }

  /** The inner loop: triples of neighbouring edges of one scanned line. */
  method ScanLine(image: array2<int>, y: nat) returns (found: Option<Location>)
    requires y < image.Length0 && y % Step(image.Length0) == 0
    ensures found.Some? ==> Found(image, found.value)
    ensures found.None? ==> LineFails(image, y)
  {
    var edges := Edges(image, y);
    var triples := if |edges| < 2 then 0 else |edges| - 2;
    for k := 0 to triples
      invariant forall i | 0 <= i < k :: TripleFails(image, y, edges, i)
    {
      assert Edge(image, y, edges[k]);
      var hit := TryTriple(image, y, edges, k);
      TripleDecides(image, y, edges, k);
      if hit {
        return Some(At(y, edges[k], edges[k + 2]));
      }
    }
    TriplesFail(image, y, edges);
    return None;
  }

  /** `search` in bar.py: a location that reads, or None when no candidate of any line does. */
  method Search(image: array2<int>) returns (found: Option<Location>)
    ensures found.Some? ==> Found(image, found.value)
    ensures found.None? ==> forall y | 0 <= y < image.Length0 :: LineFails(image, y)
  {
    var height := image.Length0;
    var y := 0;
    while y < height
      invariant 0 <= y && y % Step(height) == 0
      invariant forall v | 0 <= v < height && v < y :: LineFails(image, v)
    {
      found := ScanLine(image, y);
      if found.Some? {
        return;
      }
      SkippedLinesFail(image, y);
      y := y + Step(height);
    }
    return None;
  }

  lemma TriplesFail(image: array2<int>, y: int, edges: seq<int>)
    requires LineEdges(image, y, edges)
    requires forall i | 0 <= i < |edges| - 2 :: TripleFails(image, y, edges, i)
    ensures LineFails(image, y)
  {
    forall a, b, c | Candidate(image, y, a, b, c) ensures ReadAt(image, At(y, a, c)).Unreadable? {
      var i := IndexOf(image, y, edges, a, b);
      var j := IndexOf(image, y, edges, b, c);
      assert j == i + 1;
      assert TripleFails(image, y, edges, i);
    }
  }

  lemma NextMultiple(y: int, step: nat)
    requires step >= 1 && y % step == 0
    ensures (y + step) % step == 0
    ensures forall v | y < v < y + step :: v % step != 0
  {
    Quotient(y + step, step, y / step + 1);
    forall v | y < v < y + step ensures v % step != 0 {
      Quotient(v, step, y / step);
    }
  }

  lemma SkippedLinesFail(image: array2<int>, y: int)
    requires y % Step(image.Length0) == 0
    ensures (y + Step(image.Length0)) % Step(image.Length0) == 0
    ensures forall v | y < v < y + Step(image.Length0) :: LineFails(image, v)
  {
    NextMultiple(y, Step(image.Length0));
  }

  lemma Neighbours(image: array2<int>, y: int, edges: seq<int>, k: nat)
    requires k + 1 < |edges| && LineEdges(image, y, edges)
    ensures Consecutive(image, y, edges[k], edges[k + 1])
  {
  }

  lemma IndexOf(image: array2<int>, y: int, edges: seq<int>, a: int, b: int) returns (i: nat)
    requires Consecutive(image, y, a, b) && LineEdges(image, y, edges)
    ensures i + 1 < |edges| && edges[i] == a && edges[i + 1] == b
  {
    assert a in edges && b in edges;
    i :| 0 <= i < |edges| && edges[i] == a;
    var j :| 0 <= j < |edges| && edges[j] == b;
    assert i < j && Edge(image, y, edges[i + 1]);
  }
}
