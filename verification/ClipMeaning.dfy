/** What clipping means: the hull of the output is the part of the input polygon on
    the kept side, and every new vertex lies on an input edge. */
module ClipMeaning {
  import opened Clip

  // ----- the output's points -----

  lemma InAppend(a: seq<Point>, b: seq<Point>, p: Point)
    ensures p in a + b <==> p in a || p in b
  {
  }

  lemma {:induction false} PieceOf(poly: seq<Point>, s: Side, n: nat, p: Point) returns (i: nat)
    requires n <= |poly| && p in Pieces(poly, s, n)
    ensures i < n && p in Piece(poly, s, i)
  {
    InAppend(Pieces(poly, s, n - 1), Piece(poly, s, n - 1), p);
    if p in Piece(poly, s, n - 1) {
      i := n - 1;
    } else {
      i := PieceOf(poly, s, n - 1, p);
    }
  }

  lemma {:induction false} PieceIn(poly: seq<Point>, s: Side, n: nat, i: nat, p: Point)
    requires i < n <= |poly| && p in Piece(poly, s, i)
    ensures p in Pieces(poly, s, n)
  {
    InAppend(Pieces(poly, s, n - 1), Piece(poly, s, n - 1), p);
    if i < n - 1 {
      PieceIn(poly, s, n - 1, i, p);
    }
  }

  lemma MemberInCone(points: seq<Point>, p: Point)
    requires p in points
    ensures InCone(points, Lift(p))
  {
    var i :| 0 <= i < |points| && points[i] == p;
    ConeMember(points, i);
  }

  /** Every output point is a kept vertex or the crossing of an edge, on the kept side. */
  lemma OutputPoint(poly: seq<Point>, s: Side, p: Point)
    requires p in Clipped(poly, s)
    ensures SideOf(s, p) >= 0.0
    ensures p in poly || exists i | 0 <= i < |poly| ::
              && (SideOf(s, poly[i]) >= 0.0) != (SideOf(s, Next(poly, i)) >= 0.0)
              && p == Crossing(s, poly[i], Next(poly, i)) && SideOf(s, p) == 0.0
  {
    var i := PieceOf(poly, s, |poly|, p);
    var u, v := poly[i], Next(poly, i);
    if (SideOf(s, u) >= 0.0) != (SideOf(s, v) >= 0.0) {
      CrossingOnEdge(s, u, v);
    }
  }

  lemma EdgePoint(poly: seq<Point>, s: Side, i: nat)
    requires i < |poly|
    requires (SideOf(s, poly[i]) >= 0.0) != (SideOf(s, Next(poly, i)) >= 0.0)
    ensures InCone(poly, Lift(Crossing(s, poly[i], Next(poly, i))))
  {
    var p, q := poly[i], Next(poly, i);
    var sp, sq := SideOf(s, p), SideOf(s, q);
    var d := if sp >= 0.0 then sp - sq else sq - sp;
    MemberInCone(poly, p);
    MemberInCone(poly, q);
    CrossingIsCross(s, p, q);
    if sp >= 0.0 {
      ConeTimes(poly, -sq, Lift(p));
      ConeTimes(poly, sp, Lift(q));
      ConePlus(poly, Times(-sq, Lift(p)), Times(sp, Lift(q)));
    } else {
      ConeTimes(poly, -sp, Lift(q));
      ConeTimes(poly, sq, Lift(p));
      ConePlus(poly, Times(-sp, Lift(q)), Times(sq, Lift(p)));
    }
    Unscale(poly, d, Lift(Crossing(s, p, q)));
  }

  lemma Unscale(points: seq<Point>, d: real, v: Vec)
    requires d > 0.0 && InCone(points, Times(d, v))
    ensures InCone(points, v)
  {
    ConeTimes(points, 1.0 / d, Times(d, v));
    TimesTimes(1.0 / d, d, v);
    assert 1.0 / d * d == 1.0;
  }

  lemma OutputInPolygon(poly: seq<Point>, s: Side, p: Point)
    requires p in Clipped(poly, s)
    ensures InCone(poly, Lift(p))
  {
    OutputPoint(poly, s, p);
    if p in poly {
      MemberInCone(poly, p);
    } else {
      var i :| 0 <= i < |poly| && (SideOf(s, poly[i]) >= 0.0) != (SideOf(s, Next(poly, i)) >= 0.0)
        && p == Crossing(s, poly[i], Next(poly, i));
      EdgePoint(poly, s, i);
    }
  }

  /** For any polygon at all: the output's hull lies in the input's, on the kept side. */
  lemma ClippedInside(poly: seq<Point>, s: Side, z: Point)
    requires InHull(Clipped(poly, s), z)
    ensures InHull(poly, z) && SideOf(s, z) >= 0.0
  {
    var out := Clipped(poly, s);
    var weights :| Weights(out, weights) && Sum(out, weights) == Lift(z);
    forall k | 0 <= k < |out| ensures InCone(poly, Lift(out[k])) && SideOf(s, out[k]) >= 0.0 {
      OutputInPolygon(poly, s, out[k]);
      OutputPoint(poly, s, out[k]);
    }
    ConeInside(out, weights, poly);
    SumKept(s, out, weights);
    EvalLift(s, z);
  }

  // ----- convexity -----

  /** Twice the signed area of the triangle p, q, r. */
  function Orient(p: Point, q: Point, r: Point): real {
    (q.x - p.x) * (r.y - p.y) - (q.y - p.y) * (r.x - p.x)
  }

  /** Vertices in convex position, listed in one direction around (`turn` is 1 or -1). */
  predicate Turns(poly: seq<Point>, turn: real) {
    forall i, j, k | 0 <= i < j < k < |poly| :: TurnOf(turn, poly[i], poly[j], poly[k]) >= 0.0
  }

  function TurnOf(turn: real, p: Point, q: Point, r: Point): real {
    turn * Orient(p, q, r)
  }

  function TurnVec(turn: real, p: Point, q: Point, z: Vec): real {
    turn * OrientVec(p, q, z)
  }

  predicate Convex(poly: seq<Point>) {
    Turns(poly, 1.0) || Turns(poly, -1.0)
  }

  /** The signed area of p, q and a weighted point: linear in the point. */
  function OrientVec(p: Point, q: Point, z: Vec): real {
    (q.x - p.x) * (z.y - z.m * p.y) - (q.y - p.y) * (z.x - z.m * p.x)
  }

  lemma OrientLift(p: Point, q: Point, r: Point)
    ensures OrientVec(p, q, Lift(r)) == Orient(p, q, r)
  {
  }

  lemma OrientTimes(p: Point, q: Point, k: real, z: Vec)
    ensures OrientVec(p, q, Times(k, z)) == k * OrientVec(p, q, z)
  {
  }

  lemma OrientPlus(p: Point, q: Point, u: Vec, v: Vec)
    ensures OrientVec(p, q, Plus(u, v)) == OrientVec(p, q, u) + OrientVec(p, q, v)
  {
  }

  /** The crossing of an edge lies on the side of p, q that its ends lie on. */
  lemma OrientCross(s: Side, p: Point, q: Point, u: Point, v: Point)
    ensures OrientVec(p, q, Cross(s, u, v)) == -SideOf(s, v) * Orient(p, q, u) + SideOf(s, u) * Orient(p, q, v)
  {
    OrientBalance(p, q, u, v, SideOf(s, u), SideOf(s, v));
  }

  lemma OrientBalance(p: Point, q: Point, u: Point, v: Point, su: real, sv: real)
    ensures OrientVec(p, q, Balance(su, sv, u, v)) == -sv * Orient(p, q, u) + su * Orient(p, q, v)
  {
    OrientPlus(p, q, Times(-sv, Lift(u)), Times(su, Lift(v)));
    OrientTimes(p, q, -sv, Lift(u));
    OrientTimes(p, q, su, Lift(v));
    OrientLift(p, q, u);
    OrientLift(p, q, v);
  }

  lemma TurnFlips(turn: real, p: Point, q: Point, r: Point)
    ensures TurnOf(turn, p, r, q) == -(TurnOf(turn, p, q, r))
    ensures TurnOf(turn, q, p, r) == -(TurnOf(turn, p, q, r))
    ensures TurnOf(turn, r, p, q) == TurnOf(turn, p, q, r)
    ensures TurnOf(turn, p, q, p) == 0.0 && TurnOf(turn, p, q, q) == 0.0
  {
  }

  /** On a convex polygon the vertices between i and j lie on one side of the
      diagonal, and the others on the other. */
  lemma DiagonalSides(poly: seq<Point>, turn: real, i: nat, j: nat, k: nat)
    requires Turns(poly, turn) && i < |poly| && j < |poly| && k < |poly| && i != j
    ensures var o := TurnOf(turn, poly[i], poly[j], poly[k]);
            if i < j then (if i <= k <= j then o <= 0.0 else o >= 0.0)
            else (if j <= k <= i then o >= 0.0 else o <= 0.0)
  {
  }

  // ----- where the boundary crosses the line -----

  /** The crossing of a boundary edge, as a weighted point of the output's cone on the line. */
  ghost predicate CrossPoint(poly: seq<Point>, s: Side, z: Vec) {
    InCone(Clipped(poly, s), z) && Eval(s, z) == 0.0 && z.m > 0.0
  }

  lemma EdgeCrosses(poly: seq<Point>, s: Side, k: nat)
    requires k < |poly|
    requires (SideOf(s, poly[k]) >= 0.0) != (SideOf(s, Next(poly, k)) >= 0.0)
    ensures SideOf(s, poly[k]) >= 0.0 ==> CrossPoint(poly, s, Cross(s, poly[k], Next(poly, k)))
    ensures SideOf(s, poly[k]) < 0.0 ==> CrossPoint(poly, s, Cross(s, Next(poly, k), poly[k]))
  {
    var p, q := poly[k], Next(poly, k);
    var x := Crossing(s, p, q);
    assert x in Piece(poly, s, k);
    PieceIn(poly, s, |poly|, k, x);
    MemberInCone(Clipped(poly, s), x);
    CrossingIsCross(s, p, q);
    if SideOf(s, p) >= 0.0 {
      ConeTimes(Clipped(poly, s), SideOf(s, p) - SideOf(s, q), Lift(x));
      CrossOnLine(s, p, q);
    } else {
      ConeTimes(Clipped(poly, s), SideOf(s, q) - SideOf(s, p), Lift(x));
      CrossOnLine(s, q, p);
    }
  }

  /** Between two indices with different signs there is a step that changes the sign. */
  lemma {:induction false} SignChange(kept: seq<bool>, i: nat, j: nat) returns (k: nat)
    requires i < j < |kept| && kept[i] != kept[j]
    ensures i <= k < j && kept[k] == kept[i] && kept[k + 1] == kept[j]
    decreases j - i
  {
    if kept[i + 1] != kept[i] {
      k := i;
    } else {
      k := SignChange(kept, i + 1, j);
    }
  }

  /** Going round from i to j, some step within that stretch changes the sign. */
  lemma StretchChanges(kept: seq<bool>, i: nat, j: nat) returns (k: nat, l: nat)
    requires i < |kept| && j < |kept| && kept[i] != kept[j]
    ensures k < |kept| && l == (if k + 1 == |kept| then 0 else k + 1)
    ensures kept[k] == kept[i] && kept[l] == kept[j]
    ensures Within(i, j, k) && Within(i, j, l)
  {
    var n := |kept|;
    if i < j {
      k := SignChange(kept, i, j);
      l := k + 1;
    } else if kept[n - 1] != kept[i] {
      k := SignChange(kept, i, n - 1);
      l := k + 1;
    } else if kept[0] != kept[i] {
      k, l := n - 1, 0;
    } else {
      k := SignChange(kept, 0, j);
      l := k + 1;
    }
  }

  /** Index k is on the way round from i to j. */
  predicate Within(i: nat, j: nat, k: nat) {
    if i < j then i <= k <= j else k >= i || k <= j
  }

  function Signs(poly: seq<Point>, s: Side): (kept: seq<bool>)
    ensures |kept| == |poly|
    ensures forall k | 0 <= k < |poly| :: kept[k] == (SideOf(s, poly[k]) >= 0.0)
  {
    seq(|poly|, k requires 0 <= k < |poly| => SideOf(s, poly[k]) >= 0.0)
  }

  lemma NextIndex(n: nat, k: nat)
    requires k < n
    ensures (k + 1) % n == if k + 1 == n then 0 else k + 1
  {
  }

  // ----- two crossings enclose a third -----

  lemma ParallelParts(s: Side, p: Point, q: Point, y: Vec)
    requires Eval(s, y) == 0.0 && OrientVec(p, q, y) == 0.0
    ensures var sp, sq := SideOf(s, p), SideOf(s, q);
            && (sp - sq) * y.x == y.m * (-sq * p.x + sp * q.x)
            && (sp - sq) * y.y == y.m * (-sq * p.y + sp * q.y)
  {
    var dx, dy := q.x - p.x, q.y - p.y;
    var u, v := y.x - y.m * p.x, y.y - y.m * p.y;
    var sp, sq := SideOf(s, p), SideOf(s, q);
    assert dx * v == dy * u;
    assert sq - sp == s.a * dx + s.b * dy;
    assert s.a * u + s.b * v == -(y.m * sp) by {
      assert s.a * u == s.a * y.x - y.m * (s.a * p.x);
      assert s.b * v == s.b * y.y - y.m * (s.b * p.y);
      assert y.m * sp == y.m * (s.a * p.x) + y.m * (s.b * p.y) + y.m * s.c;
    }
    Slide(s.a, s.b, dx, dy, u, v, sq - sp, y.m * sp);
    Unwind(p.x, q.x, sp, sq, y.m, y.x);
    Unwind(p.y, q.y, sp, sq, y.m, y.y);
  }

  /** A weighted point on the line and on the line through p and q is the crossing of p and q. */
  lemma Parallel(s: Side, p: Point, q: Point, y: Vec)
    requires Eval(s, y) == 0.0 && OrientVec(p, q, y) == 0.0
    ensures var x := Cross(s, p, q); Times(x.m, y) == Times(y.m, x)
  {
    ParallelParts(s, p, q, y);
    ParallelBalance(SideOf(s, p), SideOf(s, q), p, q, y);
  }

  lemma ParallelBalance(sp: real, sq: real, p: Point, q: Point, y: Vec)
    requires (sp - sq) * y.x == y.m * (-sq * p.x + sp * q.x)
    requires (sp - sq) * y.y == y.m * (-sq * p.y + sp * q.y)
    ensures var x := Balance(sp, sq, p, q); Times(x.m, y) == Times(y.m, x)
  {
    BalanceParts(sp, sq, p, q);
    CrossParts(sp, sq, p, q, Balance(sp, sq, p, q), y);
  }

  lemma BalanceParts(sp: real, sq: real, p: Point, q: Point)
    ensures Balance(sp, sq, p, q) == Vec(-sq * p.x + sp * q.x, -sq * p.y + sp * q.y, sp - sq)
  {
  }

  lemma CrossParts(sp: real, sq: real, p: Point, q: Point, x: Vec, y: Vec)
    requires x == Vec(-sq * p.x + sp * q.x, -sq * p.y + sp * q.y, sp - sq)
    requires (sp - sq) * y.x == y.m * (-sq * p.x + sp * q.x)
    requires (sp - sq) * y.y == y.m * (-sq * p.y + sp * q.y)
    ensures Times(x.m, y) == Times(y.m, x)
  {
    CrossPart(sp, sq, p.x, q.x, x.x, x.m, y.x, y.m);
    CrossPart(sp, sq, p.y, q.y, x.y, x.m, y.y, y.m);
  }

  lemma CrossPart(sp: real, sq: real, p: real, q: real, x: real, xm: real, y: real, ym: real)
    requires xm == sp - sq && x == -sq * p + sp * q && (sp - sq) * y == ym * (-sq * p + sp * q)
    ensures xm * y == ym * x
  {
  }

  lemma Slide(a: real, b: real, dx: real, dy: real, u: real, v: real, d: real, w: real)
    requires dx * v == dy * u && d == a * dx + b * dy && a * u + b * v == -w
    ensures d * u == -w * dx && d * v == -w * dy
  {
  }

  lemma Unwind(p: real, q: real, sp: real, sq: real, m: real, y: real)
    requires (sq - sp) * (y - m * p) == -(m * sp) * (q - p)
    ensures (sp - sq) * y == m * (-sq * p + sp * q)
  {
  }

  /** A crossing enclosed between two crossings of the boundary lies in their cone. */
  lemma Enclosed(points: seq<Point>, s: Side, turn: real, p: Point, q: Point, u: Vec, v: Vec)
    requires SideOf(s, p) > 0.0 && SideOf(s, q) < 0.0
    requires InCone(points, u) && Eval(s, u) == 0.0 && u.m > 0.0
    requires InCone(points, v) && Eval(s, v) == 0.0 && v.m > 0.0
    requires TurnVec(turn, p, q, u) <= 0.0 <= TurnVec(turn, p, q, v) && turn != 0.0
    ensures InCone(points, Cross(s, p, q))
  {
    var f, g := TurnVec(turn, p, q, u), TurnVec(turn, p, q, v);
    var x := Cross(s, p, q);
    if f == 0.0 {
      ZeroFactor(turn, OrientVec(p, q, u));
      Parallel(s, p, q, u);
      ScaleTo(points, u, x);
    } else {
      var y := Plus(Times(g, u), Times(-f, v));
      ConeTimes(points, g, u);
      ConeTimes(points, -f, v);
      ConePlus(points, Times(g, u), Times(-f, v));
      EvalMix(s, g, u, -f, v);
      MixTurn(p, q, g, u, -f, v, OrientVec(p, q, u), OrientVec(p, q, v), turn);
      Parallel(s, p, q, y);
      MixMass(g, u, -f, v);
      ScaleTo(points, y, x);
    }
  }

  /** Weighting two points by each other's turn puts the mix on the line through p and q. */
  lemma MixTurn(p: Point, q: Point, g: real, u: Vec, h: real, v: Vec, a: real, b: real, turn: real)
    requires a == OrientVec(p, q, u) && b == OrientVec(p, q, v) && g == turn * b && h == -(turn * a)
    ensures OrientVec(p, q, Plus(Times(g, u), Times(h, v))) == 0.0
  {
    OrientPlus(p, q, Times(g, u), Times(h, v));
    OrientTimes(p, q, g, u);
    OrientTimes(p, q, h, v);
    Balanced(turn, a, b);
  }

  lemma MixMass(g: real, u: Vec, h: real, v: Vec)
    requires g >= 0.0 && h > 0.0 && u.m > 0.0 && v.m > 0.0
    ensures Plus(Times(g, u), Times(h, v)).m > 0.0
  {
  }

  lemma Balanced(turn: real, a: real, b: real)
    ensures turn * b * a + -(turn * a) * b == 0.0
  {
  }

  lemma EvalMix(s: Side, k: real, u: Vec, l: real, v: Vec)
    ensures Eval(s, Plus(Times(k, u), Times(l, v))) == k * Eval(s, u) + l * Eval(s, v)
  {
  }

  /** Parallel weighted points of positive mass lie in the same cones. */
  lemma ScaleTo(points: seq<Point>, y: Vec, x: Vec)
    requires InCone(points, y) && y.m > 0.0 && x.m >= 0.0 && Times(x.m, y) == Times(y.m, x)
    ensures InCone(points, x)
  {
    ConeTimes(points, x.m, y);
    Unscale(points, y.m, x);
  }

  // ----- the kept part is in the output's hull -----

  /** A boundary edge on the way round from i to j whose ends differ in sign. */
  lemma StretchEdge(poly: seq<Point>, s: Side, i: nat, j: nat) returns (k: nat, l: nat)
    requires i < |poly| && j < |poly|
    requires (SideOf(s, poly[i]) >= 0.0) != (SideOf(s, poly[j]) >= 0.0)
    ensures k < |poly| && l < |poly| && Within(i, j, k) && Within(i, j, l)
    ensures Next(poly, k) == poly[l]
    ensures (SideOf(s, poly[k]) >= 0.0) == (SideOf(s, poly[i]) >= 0.0)
    ensures (SideOf(s, poly[l]) >= 0.0) == (SideOf(s, poly[j]) >= 0.0)
  {
    k, l := StretchChanges(Signs(poly, s), i, j);
    NextIndex(|poly|, k);
  }

  lemma StretchSides(poly: seq<Point>, turn: real, i: nat, j: nat, k: nat)
    requires Turns(poly, turn) && i < |poly| && j < |poly| && k < |poly| && i != j
    ensures Within(i, j, k) ==> TurnOf(turn, poly[i], poly[j], poly[k]) <= 0.0
    ensures Within(j, i, k) ==> TurnOf(turn, poly[i], poly[j], poly[k]) >= 0.0
  {
    DiagonalSides(poly, turn, i, j, k);
    TurnFlips(turn, poly[i], poly[j], poly[k]);
  }

  /** Going round from i to j the boundary crosses on one side of the diagonal. */
  lemma FallingEdge(poly: seq<Point>, s: Side, turn: real, i: nat, j: nat) returns (u: Vec)
    requires Turns(poly, turn) && i < |poly| && j < |poly|
    requires SideOf(s, poly[i]) >= 0.0 && SideOf(s, poly[j]) < 0.0
    ensures CrossPoint(poly, s, u) && TurnVec(turn, poly[i], poly[j], u) <= 0.0
  {
    var k, l := StretchEdge(poly, s, i, j);
    EdgeCrosses(poly, s, k);
    StretchSides(poly, turn, i, j, k);
    StretchSides(poly, turn, i, j, l);
    CrossTurn(s, turn, poly[i], poly[j], poly[k], poly[l], false);
    u := Cross(s, poly[k], poly[l]);
  }

  /** Going on from j to i it crosses on the other side. */
  lemma RisingEdge(poly: seq<Point>, s: Side, turn: real, i: nat, j: nat) returns (v: Vec)
    requires Turns(poly, turn) && i < |poly| && j < |poly|
    requires SideOf(s, poly[i]) >= 0.0 && SideOf(s, poly[j]) < 0.0
    ensures CrossPoint(poly, s, v) && TurnVec(turn, poly[i], poly[j], v) >= 0.0
  {
    var k, l := StretchEdge(poly, s, j, i);
    EdgeCrosses(poly, s, k);
    StretchSides(poly, turn, i, j, k);
    StretchSides(poly, turn, i, j, l);
    CrossTurn(s, turn, poly[i], poly[j], poly[l], poly[k], true);
    v := Cross(s, poly[l], poly[k]);
  }

  /** The crossing of a kept and a cut vertex, not only of neighbours, is in the output's cone. */
  lemma VertexPair(poly: seq<Point>, s: Side, turn: real, i: nat, j: nat)
    requires Turns(poly, turn) && turn != 0.0 && i < |poly| && j < |poly|
    requires SideOf(s, poly[i]) > 0.0 && SideOf(s, poly[j]) < 0.0
    ensures InCone(Clipped(poly, s), Cross(s, poly[i], poly[j]))
  {
    var u := FallingEdge(poly, s, turn, i, j);
    var v := RisingEdge(poly, s, turn, i, j);
    Enclosed(Clipped(poly, s), s, turn, poly[i], poly[j], u, v);
  }

  /** An edge with both ends to one side of p, q crosses the line on that side. */
  lemma CrossTurn(s: Side, turn: real, p: Point, q: Point, u: Point, v: Point, left: bool)
    requires SideOf(s, u) >= 0.0 && SideOf(s, v) < 0.0
    requires left ==> TurnOf(turn, p, q, u) >= 0.0 && TurnOf(turn, p, q, v) >= 0.0
    requires !left ==> TurnOf(turn, p, q, u) <= 0.0 && TurnOf(turn, p, q, v) <= 0.0
    ensures left ==> TurnVec(turn, p, q, Cross(s, u, v)) >= 0.0
    ensures !left ==> TurnVec(turn, p, q, Cross(s, u, v)) <= 0.0
  {
    OrientCross(s, p, q, u, v);
    Signed(turn, -SideOf(s, v), Orient(p, q, u), SideOf(s, u), Orient(p, q, v));
  }

  lemma Signed(turn: real, a: real, f: real, b: real, g: real)
    requires a >= 0.0 && b >= 0.0
    ensures turn * f <= 0.0 && turn * g <= 0.0 ==> turn * (a * f + b * g) <= 0.0
    ensures turn * f >= 0.0 && turn * g >= 0.0 ==> turn * (a * f + b * g) >= 0.0
  {
  }

  /** Points of the cone can take in the mass of one cut point as long as the total of the
      side values stays non-negative. */
  lemma {:induction false} Absorb(out: seq<Point>, points: seq<Point>, sides: seq<real>, weights: seq<real>,
                                  q: Point, sq: real, w: real)
    requires Weights(points, weights) && |sides| == |points| && w >= 0.0 && sq < 0.0
    requires forall k | 0 <= k < |points| :: InCone(out, Lift(points[k])) && sides[k] >= 0.0
    requires forall k | 0 <= k < |points| && sides[k] > 0.0 :: InCone(out, Balance(sides[k], sq, points[k], q))
    requires Total(sides, weights) + w * sq >= 0.0
    ensures InCone(out, Plus(Sum(points, weights), Times(w, Lift(q))))
    decreases |points|
  {
    if points == [] {
      NothingLeft(w, sq);
      PlusNothing(ZERO, Lift(q));
      ConeZero(out);
    } else {
      var rest := Sum(points[1..], weights[1..]);
      TotalKept(sides[1..], weights[1..]);
      var c, left := AbsorbFirst(out, points[0], sides[0], weights[0], q, sq, w, Total(sides[1..], weights[1..]));
      Absorb(out, points[1..], sides[1..], weights[1..], q, sq, left);
      AbsorbJoin(out, Times(weights[0], Lift(points[0])), rest, Lift(q), w, c);
    }
  }

  /** How much of the cut mass the first point takes. */
  lemma AbsorbFirst(out: seq<Point>, p: Point, sp: real, a: real, q: Point, sq: real, w: real, rest: real)
    returns (c: real, left: real)
    requires a >= 0.0 && w >= 0.0 && sp >= 0.0 && sq < 0.0 && rest >= 0.0
    requires InCone(out, Lift(p)) && (sp > 0.0 ==> InCone(out, Balance(sp, sq, p, q)))
    requires a * sp + rest + w * sq >= 0.0
    ensures 0.0 <= c <= w && left == w - c && rest + left * sq >= 0.0
    ensures InCone(out, Plus(Times(a, Lift(p)), Times(c, Lift(q))))
  {
    var surplus := a * sp;
    assert surplus >= 0.0;
    c, left := ShareLeaves(surplus, w, sq, rest);
    PairMass(out, p, sp, q, sq, a, c);
  }

  lemma {:induction false} TotalKept(sides: seq<real>, weights: seq<real>)
    requires |sides| == |weights|
    requires forall k | 0 <= k < |sides| :: sides[k] >= 0.0 && weights[k] >= 0.0
    ensures Total(sides, weights) >= 0.0
  {
    if sides != [] {
      TotalKept(sides[1..], weights[1..]);
      assert weights[0] * sides[0] >= 0.0;
    }
  }

  lemma AbsorbJoin(out: seq<Point>, first: Vec, rest: Vec, q: Vec, w: real, c: real)
    requires InCone(out, Plus(first, Times(c, q))) && InCone(out, Plus(rest, Times(w - c, q)))
    ensures InCone(out, Plus(Plus(first, rest), Times(w, q)))
  {
    ConePlus(out, Plus(first, Times(c, q)), Plus(rest, Times(w - c, q)));
    Regroup(first, rest, q, w, c);
  }

  lemma Regroup(first: Vec, rest: Vec, q: Vec, w: real, c: real)
    ensures Plus(Plus(first, Times(c, q)), Plus(rest, Times(w - c, q))) == Plus(Plus(first, rest), Times(w, q))
  {
  }

  lemma NothingLeft(w: real, sq: real)
    requires w >= 0.0 && sq < 0.0 && w * sq >= 0.0
    ensures w == 0.0
  {
  }

  lemma ProductKept(a: real, b: real)
    requires a >= 0.0 && b >= 0.0
    ensures a * b >= 0.0
  {
  }

  /** How much cut mass a kept surplus can take, and what that leaves. */
  lemma ShareLeaves(surplus: real, w: real, sq: real, rest: real) returns (c: real, left: real)
    requires sq < 0.0 && w >= 0.0 && surplus >= 0.0 && rest >= 0.0
    requires surplus + rest + w * sq >= 0.0
    ensures 0.0 <= c <= w && surplus + c * sq >= 0.0
    ensures left == w - c && rest + left * sq >= 0.0
  {
    var full := surplus / -sq;
    assert full * -sq == surplus;
    assert full >= 0.0;
    if full < w {
      c, left := full, w - full;
      assert left * sq == w * sq + surplus;
    } else {
      c, left := w, 0.0;
      ProductKept(full - w, -sq);
    }
  }

  /** A kept point with a tolerable mass of a cut point is a mix of the point and the crossing. */
  lemma PairMass(out: seq<Point>, p: Point, sp: real, q: Point, sq: real, a: real, c: real)
    requires sp >= 0.0 && sq < 0.0 && a >= 0.0 && c >= 0.0
    requires InCone(out, Lift(p)) && (sp > 0.0 ==> InCone(out, Balance(sp, sq, p, q)))
    requires a * sp + c * sq >= 0.0
    ensures InCone(out, Plus(Times(a, Lift(p)), Times(c, Lift(q))))
  {
    if sp == 0.0 {
      NothingLeft(c, sq);
      ConeTimes(out, a, Lift(p));
      PlusNothing(Times(a, Lift(p)), Lift(q));
    } else {
      var k := c / sp;
      assert k * sp == c && k >= 0.0;
      var b := a - k * -sq;
      KeptShare(a, sp, c, sq, k);
      ConeTimes(out, b, Lift(p));
      ConeTimes(out, k, Balance(sp, sq, p, q));
      ConePlus(out, Times(b, Lift(p)), Times(k, Balance(sp, sq, p, q)));
      MixParts(Lift(p), Lift(q), sp, sq, a, c, k);
    }
  }

  lemma KeptShare(a: real, sp: real, c: real, sq: real, k: real)
    requires sp > 0.0 && k * sp == c && a * sp + c * sq >= 0.0
    ensures a - k * -sq >= 0.0
  {
  }

  lemma MixParts(p: Vec, q: Vec, sp: real, sq: real, a: real, c: real, k: real)
    requires k * sp == c
    ensures Plus(Times(a - k * -sq, p), Times(k, Plus(Times(-sq, p), Times(sp, q)))) == Plus(Times(a, p), Times(c, q))
  {
    TimesPlus(k, Times(-sq, p), Times(sp, q));
    TimesTimes(k, -sq, p);
    TimesTimes(k, sp, q);
    TimesAdded(a - k * -sq, k * -sq, p);
  }

  // ----- the main theorem -----

  /** The weights of the kept vertices, and of the first `n` cut ones. */
  function Upto(poly: seq<Point>, s: Side, weights: seq<real>, n: nat): (w: seq<real>)
    requires |weights| == |poly|
    ensures |w| == |poly|
    ensures forall k | 0 <= k < |poly| :: w[k] == if SideOf(s, poly[k]) >= 0.0 || k < n then weights[k] else 0.0
  {
    seq(|poly|, k requires 0 <= k < |poly| => if SideOf(s, poly[k]) >= 0.0 || k < n then weights[k] else 0.0)
  }

  lemma {:induction false} SumChange(points: seq<Point>, u: seq<real>, v: seq<real>, k: nat)
    requires |u| == |v| == |points| && k < |points| && forall i | 0 <= i < |u| && i != k :: u[i] == v[i]
    ensures Sum(points, v) == Plus(Sum(points, u), Times(v[k] - u[k], Lift(points[k])))
  {
    if k == 0 {
      assert u[1..] == v[1..];
      TimesAdded(u[0], v[0] - u[0], Lift(points[0]));
    } else {
      SumChange(points[1..], u[1..], v[1..], k - 1);
    }
  }

  /** Leaving out more cut mass only raises the side of the total. */
  lemma {:induction false} LessCutMass(poly: seq<Point>, s: Side, u: seq<real>, v: seq<real>)
    requires |u| == |v| == |poly|
    requires forall k | 0 <= k < |poly| :: u[k] == v[k] || (SideOf(s, poly[k]) < 0.0 && u[k] == 0.0 && v[k] >= 0.0)
    ensures Eval(s, Sum(poly, u)) >= Eval(s, Sum(poly, v))
  {
    if poly != [] {
      LessCutMass(poly[1..], s, u[1..], v[1..]);
      EvalPlus(s, u[0], poly[0], Sum(poly[1..], u[1..]));
      EvalPlus(s, v[0], poly[0], Sum(poly[1..], v[1..]));
      if u[0] != v[0] {
        assert v[0] * SideOf(s, poly[0]) <= 0.0;
      }
    }
  }

  /** The output's cone takes in any mass of a cut vertex that leaves the total kept. */
  ghost predicate TakesCuts(poly: seq<Point>, s: Side) {
    forall j, w, v | 0 <= j < |poly| && CutKept(poly, s, j, w, v) && InCone(Clipped(poly, s), v) ::
      InCone(Clipped(poly, s), Plus(v, Times(w, Lift(poly[j]))))
  }

  predicate CutKept(poly: seq<Point>, s: Side, j: nat, w: real, v: Vec)
    requires j < |poly|
  {
    SideOf(s, poly[j]) < 0.0 && w >= 0.0 && Eval(s, Plus(v, Times(w, Lift(poly[j])))) >= 0.0
  }

  /** Letting in the n-th vertex's weight does not leave the output's cone. */
  ghost predicate StaysIn(poly: seq<Point>, s: Side, weights: seq<real>, n: nat)
    requires |weights| == |poly| && 0 < n <= |poly|
  {
    InCone(Clipped(poly, s), Sum(poly, Upto(poly, s, weights, n - 1))) ==>
      InCone(Clipped(poly, s), Sum(poly, Upto(poly, s, weights, n)))
  }

  lemma VertexStaysIn(poly: seq<Point>, s: Side, weights: seq<real>, n: nat)
    requires TakesCuts(poly, s) && Weights(poly, weights) && 0 < n <= |poly|
    requires Eval(s, Sum(poly, weights)) >= 0.0
    ensures StaysIn(poly, s, weights, n)
  {
    if SideOf(s, poly[n - 1]) >= 0.0 {
      assert Upto(poly, s, weights, n) == Upto(poly, s, weights, n - 1);
    } else {
      UptoCut(poly, s, weights, n);
    }
  }

  /** Everything on the kept side that the polygon's vertices can make, the output's can make. */
  lemma {:induction false} KeptMass(poly: seq<Point>, s: Side, weights: seq<real>, n: nat)
    requires Weights(poly, weights) && n <= |poly|
    requires forall k | 0 < k <= |poly| :: StaysIn(poly, s, weights, k)
    ensures InCone(Clipped(poly, s), Sum(poly, Upto(poly, s, weights, n)))
    decreases n
  {
    if n == 0 {
      KeptVertices(poly, s, weights);
    } else {
      KeptMass(poly, s, weights, n - 1);
      assert StaysIn(poly, s, weights, n);
    }
  }

  lemma UptoCut(poly: seq<Point>, s: Side, weights: seq<real>, n: nat)
    requires Weights(poly, weights) && 0 < n <= |poly| && SideOf(s, poly[n - 1]) < 0.0
    requires Eval(s, Sum(poly, weights)) >= 0.0
    ensures var before := Sum(poly, Upto(poly, s, weights, n - 1));
            && CutKept(poly, s, n - 1, weights[n - 1], before)
            && Sum(poly, Upto(poly, s, weights, n)) == Plus(before, Times(weights[n - 1], Lift(poly[n - 1])))
  {
    UptoKeeps(poly, s, weights, n);
    UptoChange(poly, s, weights, n);
  }

  lemma KeptVertices(poly: seq<Point>, s: Side, weights: seq<real>)
    requires Weights(poly, weights)
    ensures InCone(Clipped(poly, s), Sum(poly, Upto(poly, s, weights, 0)))
  {
    var out := Clipped(poly, s);
    forall k | 0 <= k < |poly| && SideOf(s, poly[k]) >= 0.0 ensures poly[k] in out {
      PieceIn(poly, s, |poly|, k, poly[k]);
    }
    KeptOnly(poly, s, out, Upto(poly, s, weights, 0));
  }

  lemma UptoChange(poly: seq<Point>, s: Side, weights: seq<real>, n: nat)
    requires Weights(poly, weights) && 0 < n <= |poly| && SideOf(s, poly[n - 1]) < 0.0
    ensures Sum(poly, Upto(poly, s, weights, n))
         == Plus(Sum(poly, Upto(poly, s, weights, n - 1)), Times(weights[n - 1], Lift(poly[n - 1])))
  {
    var before, now := Upto(poly, s, weights, n - 1), Upto(poly, s, weights, n);
    SumChange(poly, before, now, n - 1);
    assert now[n - 1] - before[n - 1] == weights[n - 1];
  }

  lemma UptoKeeps(poly: seq<Point>, s: Side, weights: seq<real>, n: nat)
    requires Weights(poly, weights) && Eval(s, Sum(poly, weights)) >= 0.0
    ensures Eval(s, Sum(poly, Upto(poly, s, weights, n))) >= 0.0
  {
    LessCutMass(poly, s, Upto(poly, s, weights, n), weights);
  }

  /** A kept output point and a cut vertex have their crossing in the output's cone. */
  lemma OutputPair(poly: seq<Point>, s: Side, turn: real, p: Point, j: nat)
    requires Turns(poly, turn) && turn != 0.0 && j < |poly| && SideOf(s, poly[j]) < 0.0
    requires p in Clipped(poly, s) && SideOf(s, p) > 0.0
    ensures InCone(Clipped(poly, s), Cross(s, p, poly[j]))
  {
    OutputPoint(poly, s, p);
    assert p in poly;
    var i :| 0 <= i < |poly| && poly[i] == p;
    VertexPair(poly, s, turn, i, j);
  }

  /** The output's points, with their side values, can take in any one cut vertex. */
  lemma OutputSides(poly: seq<Point>, s: Side, turn: real, j: nat) returns (sides: seq<real>)
    requires Turns(poly, turn) && turn != 0.0 && j < |poly| && SideOf(s, poly[j]) < 0.0
    ensures var out := Clipped(poly, s);
            && |sides| == |out|
            && (forall k | 0 <= k < |out| :: sides[k] == SideOf(s, out[k]))
            && (forall k | 0 <= k < |out| :: InCone(out, Lift(out[k])) && sides[k] >= 0.0)
            && (forall k | 0 <= k < |out| && sides[k] > 0.0 ::
                  InCone(out, Balance(sides[k], SideOf(s, poly[j]), out[k], poly[j])))
  {
    var out := Clipped(poly, s);
    sides := seq(|out|, k requires 0 <= k < |out| => SideOf(s, out[k]));
    forall k | 0 <= k < |out| ensures InCone(out, Lift(out[k])) && sides[k] >= 0.0 {
      ConeMember(out, k);
      OutputPoint(poly, s, out[k]);
    }
    forall k | 0 <= k < |out| && sides[k] > 0.0
      ensures InCone(out, Balance(sides[k], SideOf(s, poly[j]), out[k], poly[j]))
    {
      OutputPair(poly, s, turn, out[k], j);
    }
  }

  /** The output's cone takes in a cut vertex as long as the total stays kept. */
  lemma AddCut(poly: seq<Point>, s: Side, turn: real, j: nat, w: real, v: Vec)
    requires Turns(poly, turn) && turn != 0.0 && j < |poly| && SideOf(s, poly[j]) < 0.0
    requires w >= 0.0 && InCone(Clipped(poly, s), v)
    requires Eval(s, Plus(v, Times(w, Lift(poly[j])))) >= 0.0
    ensures InCone(Clipped(poly, s), Plus(v, Times(w, Lift(poly[j]))))
  {
    var out := Clipped(poly, s);
    var weights :| Weights(out, weights) && Sum(out, weights) == v;
    var sides := OutputSides(poly, s, turn, j);
    var sq := TotalAdded(s, out, sides, weights, poly[j], w);
    Absorb(out, out, sides, weights, poly[j], sq, w);
  }

  lemma TakesAnyCut(poly: seq<Point>, s: Side, turn: real)
    requires Turns(poly, turn) && turn != 0.0
    ensures TakesCuts(poly, s)
  {
    forall j, w, v | 0 <= j < |poly| && CutKept(poly, s, j, w, v) && InCone(Clipped(poly, s), v)
      ensures InCone(Clipped(poly, s), Plus(v, Times(w, Lift(poly[j]))))
    {
      AddCut(poly, s, turn, j, w, v);
    }
  }

  lemma TotalAdded(s: Side, points: seq<Point>, sides: seq<real>, weights: seq<real>, q: Point, w: real)
    returns (sq: real)
    requires |points| == |sides| == |weights|
    requires forall k | 0 <= k < |points| :: sides[k] == SideOf(s, points[k])
    requires Eval(s, Plus(Sum(points, weights), Times(w, Lift(q)))) >= 0.0
    ensures sq == SideOf(s, q) && Total(sides, weights) + w * sq >= 0.0
  {
    sq := SideOf(s, q);
    EvalSum(s, points, sides, weights);
    PlusSwap(Sum(points, weights), Times(w, Lift(q)));
    EvalPlus(s, w, q, Sum(points, weights));
  }

  lemma PlusSwap(u: Vec, v: Vec)
    ensures Plus(u, v) == Plus(v, u)
  {
  }

  /** The kept vertices themselves are in the output. */
  lemma {:induction false} KeptOnly(points: seq<Point>, s: Side, out: seq<Point>, weights: seq<real>)
    requires Weights(points, weights)
    requires forall k | 0 <= k < |points| :: SideOf(s, points[k]) >= 0.0 || weights[k] == 0.0
    requires forall k | 0 <= k < |points| && SideOf(s, points[k]) >= 0.0 :: points[k] in out
    ensures InCone(out, Sum(points, weights))
  {
    if points == [] {
      ConeZero(out);
    } else {
      KeptOnly(points[1..], s, out, weights[1..]);
      if weights[0] == 0.0 {
        PlusNothing(Sum(points[1..], weights[1..]), Lift(points[0]));
      } else {
        MemberInCone(out, points[0]);
        ConeTimes(out, weights[0], Lift(points[0]));
        ConePlus(out, Times(weights[0], Lift(points[0])), Sum(points[1..], weights[1..]));
      }
    }
  }

  lemma EvalLift(s: Side, p: Point)
    ensures Eval(s, Lift(p)) == SideOf(s, p)
  {
  }

  /** Clipping a convex polygon keeps its meaning: a point is in the hull of the output
      exactly when it is in the polygon and on the kept side. */
  lemma ClipIsIntersection(poly: seq<Point>, s: Side, z: Point)
    requires Convex(poly)
    ensures InHull(Clipped(poly, s), z) <==> InHull(poly, z) && SideOf(s, z) >= 0.0
  {
    if InHull(Clipped(poly, s), z) {
      ClippedInside(poly, s, z);
    }
    if InHull(poly, z) && SideOf(s, z) >= 0.0 {
      var turn := if Turns(poly, 1.0) then 1.0 else -1.0;
      var weights :| Weights(poly, weights) && Sum(poly, weights) == Lift(z);
      EvalLift(s, z);
      TakesAnyCut(poly, s, turn);
      forall n | 0 < n <= |poly| ensures StaysIn(poly, s, weights, n) {
        VertexStaysIn(poly, s, weights, n);
      }
      KeptMass(poly, s, weights, |poly|);
      assert Upto(poly, s, weights, |poly|) == weights;
    }
  }
}
