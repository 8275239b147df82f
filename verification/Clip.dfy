/** Half-plane clipping of a convex polygon (`clip` in plan.rs) over the reals, with
    an affine side function. */
module Clip {

  datatype Point = Point(x: real, y: real)

  /** The affine side function a*x + b*y + c. */
  datatype Side = Side(a: real, b: real, c: real)

  function SideOf(s: Side, p: Point): real {
    s.a * p.x + s.b * p.y + s.c
  }

  // ----- the loop -----

  /** Where the segment from p to q meets the line; the sides differ in sign, so they differ. */
  function Crossing(s: Side, p: Point, q: Point): Point
    requires (SideOf(s, p) >= 0.0) != (SideOf(s, q) >= 0.0)
  {
    Dividing(p, q, SideOf(s, p), SideOf(s, q))
  }

  /** The point that divides p to q by their side values. */
  function Dividing(p: Point, q: Point, sp: real, sq: real): Point
    requires sp != sq
  {
    Along(p, q, sp / (sp - sq))
  }

  /** The point a share `t` of the way from p to q. */
  function Along(p: Point, q: Point, t: real): Point {
    Point(p.x + (q.x - p.x) * t, p.y + (q.y - p.y) * t)
  }

  function Next(poly: seq<Point>, i: nat): Point
    requires i < |poly|
  {
    poly[(i + 1) % |poly|]
  }

  /** What one vertex and the edge after it contribute. */
  function Piece(poly: seq<Point>, s: Side, i: nat): seq<Point>
    requires i < |poly|
  {
    var p, q := poly[i], Next(poly, i);
    (if SideOf(s, p) >= 0.0 then [p] else []) +
    (if (SideOf(s, p) >= 0.0) != (SideOf(s, q) >= 0.0) then [Crossing(s, p, q)] else [])
  }

  function Pieces(poly: seq<Point>, s: Side, n: nat): seq<Point>
    requires n <= |poly|
  {
    if n == 0 then [] else Pieces(poly, s, n - 1) + Piece(poly, s, n - 1)
  }

  function Clipped(poly: seq<Point>, s: Side): seq<Point> {
    Pieces(poly, s, |poly|)
  }

  method ClipPolygon(poly: seq<Point>, s: Side) returns (out: seq<Point>)
    ensures out == Clipped(poly, s)
  {
    out := [];
    for i := 0 to |poly|
      invariant out == Pieces(poly, s, i)
    {
      var p, q := poly[i], poly[(i + 1) % |poly|];
      var sp, sq := SideOf(s, p), SideOf(s, q);
      ghost var before := out;
      if sp >= 0.0 {
        out := out + [p];
      }
      if (sp >= 0.0) != (sq >= 0.0) {
        out := out + [Crossing(s, p, q)];
      }
      assert out == before + Piece(poly, s, i);
    }
  }

  // ----- weighted points -----

  /** A point with a mass; points are the vectors of mass 1. */
  datatype Vec = Vec(x: real, y: real, m: real)

  function Lift(p: Point): Vec {
    Vec(p.x, p.y, 1.0)
  }

  function Plus(u: Vec, v: Vec): Vec {
    Vec(u.x + v.x, u.y + v.y, u.m + v.m)
  }

  function Times(k: real, v: Vec): Vec {
    Vec(k * v.x, k * v.y, k * v.m)
  }

  const ZERO := Vec(0.0, 0.0, 0.0)

  /** The side function on weighted points. */
  function Eval(s: Side, v: Vec): real {
    s.a * v.x + s.b * v.y + s.c * v.m
  }

  function Sum(points: seq<Point>, weights: seq<real>): Vec
    requires |points| == |weights|
  {
    if points == [] then ZERO else Plus(Times(weights[0], Lift(points[0])), Sum(points[1..], weights[1..]))
  }

  predicate Weights(points: seq<Point>, weights: seq<real>) {
    |weights| == |points| && forall k | 0 <= k < |weights| :: weights[k] >= 0.0
  }

  ghost predicate InCone(points: seq<Point>, v: Vec) {
    exists weights :: Weights(points, weights) && Sum(points, weights) == v
  }

  /** The convex hull: weights that add up to 1. */
  ghost predicate InHull(points: seq<Point>, p: Point) {
    InCone(points, Lift(p))
  }

  function Added(u: seq<real>, v: seq<real>): (w: seq<real>)
    requires |u| == |v|
    ensures |w| == |u| && forall k | 0 <= k < |u| :: w[k] == u[k] + v[k]
  {
    if u == [] then [] else [u[0] + v[0]] + Added(u[1..], v[1..])
  }

  function Scaled(k: real, u: seq<real>): (w: seq<real>)
    ensures |w| == |u| && forall i | 0 <= i < |u| :: w[i] == k * u[i]
  {
    if u == [] then [] else [k * u[0]] + Scaled(k, u[1..])
  }

  lemma TimesAdded(k: real, l: real, v: Vec)
    ensures Times(k + l, v) == Plus(Times(k, v), Times(l, v))
  {
  }

  lemma TimesTimes(k: real, l: real, v: Vec)
    ensures Times(k * l, v) == Times(k, Times(l, v))
  {
  }

  lemma TimesPlus(k: real, u: Vec, v: Vec)
    ensures Times(k, Plus(u, v)) == Plus(Times(k, u), Times(k, v))
  {
  }

  lemma PlusRegroup(a: Vec, b: Vec, c: Vec, d: Vec)
    ensures Plus(Plus(a, b), Plus(c, d)) == Plus(Plus(a, c), Plus(b, d))
  {
  }

  lemma PlusNothing(v: Vec, q: Vec)
    ensures Plus(v, Times(0.0, q)) == v && Plus(Times(0.0, q), v) == v
  {
  }

  lemma AddFirst(p: Vec, k: real, l: real, w: real, u: Vec, v: Vec)
    requires w == k + l
    ensures Plus(Times(w, p), Plus(u, v)) == Plus(Plus(Times(k, p), u), Plus(Times(l, p), v))
  {
    TimesAdded(k, l, p);
    PlusRegroup(Times(k, p), Times(l, p), u, v);
  }

  lemma {:induction false} SumAdded(points: seq<Point>, u: seq<real>, v: seq<real>)
    requires |points| == |u| == |v|
    ensures Sum(points, Added(u, v)) == Plus(Sum(points, u), Sum(points, v))
  {
    if points != [] {
      var w := Added(u, v);
      assert w[0] == u[0] + v[0] && w[1..] == Added(u[1..], v[1..]);
      SumAdded(points[1..], u[1..], v[1..]);
      AddFirst(Lift(points[0]), u[0], v[0], w[0], Sum(points[1..], u[1..]), Sum(points[1..], v[1..]));
    }
  }

  lemma ScaleFirst(k: real, u: real, w: real, p: Vec, rest: Vec)
    requires w == k * u
    ensures Plus(Times(w, p), Times(k, rest)) == Times(k, Plus(Times(u, p), rest))
  {
    TimesTimes(k, u, p);
    TimesPlus(k, Times(u, p), rest);
  }

  lemma {:induction false} SumScaled(points: seq<Point>, k: real, u: seq<real>)
    requires |points| == |u|
    ensures Sum(points, Scaled(k, u)) == Times(k, Sum(points, u))
  {
    if points != [] {
      var w := Scaled(k, u);
      assert w[0] == k * u[0] && w[1..] == Scaled(k, u[1..]);
      SumScaled(points[1..], k, u[1..]);
      ScaleFirst(k, u[0], w[0], Lift(points[0]), Sum(points[1..], u[1..]));
    }
  }

  lemma ConePlus(points: seq<Point>, u: Vec, v: Vec)
    requires InCone(points, u) && InCone(points, v)
    ensures InCone(points, Plus(u, v))
  {
    var a :| Weights(points, a) && Sum(points, a) == u;
    var b :| Weights(points, b) && Sum(points, b) == v;
    SumAdded(points, a, b);
    assert Weights(points, Added(a, b));
  }

  lemma WeightsScaled(points: seq<Point>, k: real, u: seq<real>)
    requires k >= 0.0 && Weights(points, u)
    ensures Weights(points, Scaled(k, u))
  {
  }

  lemma ConeTimes(points: seq<Point>, k: real, u: Vec)
    requires k >= 0.0 && InCone(points, u)
    ensures InCone(points, Times(k, u))
  {
    var a :| Weights(points, a) && Sum(points, a) == u;
    SumScaled(points, k, a);
    WeightsScaled(points, k, a);
  }

  lemma {:induction false} ConeZero(points: seq<Point>)
    ensures InCone(points, ZERO)
  {
    var none := seq(|points|, _ => 0.0);
    SumNone(points, none);
    assert Weights(points, none);
  }

  lemma {:induction false} SumNone(points: seq<Point>, none: seq<real>)
    requires |none| == |points| && forall k | 0 <= k < |none| :: none[k] == 0.0
    ensures Sum(points, none) == ZERO
  {
    if points != [] {
      SumNone(points[1..], none[1..]);
    }
  }

  lemma {:induction false} ConeMember(points: seq<Point>, i: nat)
    requires i < |points|
    ensures InCone(points, Lift(points[i]))
  {
    var unit := seq(|points|, k => if k == i then 1.0 else 0.0);
    SumUnit(points, unit, i);
    assert Weights(points, unit);
  }

  lemma {:induction false} SumUnit(points: seq<Point>, unit: seq<real>, i: nat)
    requires |unit| == |points| && i < |points|
    requires forall k | 0 <= k < |unit| :: unit[k] == if k == i then 1.0 else 0.0
    ensures Sum(points, unit) == Lift(points[i])
  {
    if i == 0 {
      SumNone(points[1..], unit[1..]);
    } else {
      SumUnit(points[1..], unit[1..], i - 1);
    }
  }

  /** A cone over points of another cone lies in that cone. */
  lemma {:induction false} ConeInside(points: seq<Point>, weights: seq<real>, others: seq<Point>)
    requires Weights(points, weights)
    requires forall k | 0 <= k < |points| :: InCone(others, Lift(points[k]))
    ensures InCone(others, Sum(points, weights))
  {
    if points == [] {
      ConeZero(others);
    } else {
      ConeTimes(others, weights[0], Lift(points[0]));
      ConeInside(points[1..], weights[1..], others);
      ConePlus(others, Times(weights[0], Lift(points[0])), Sum(points[1..], weights[1..]));
    }
  }

  /** The weighted total of given side values. */
  function Total(sides: seq<real>, weights: seq<real>): real
    requires |sides| == |weights|
  {
    if sides == [] then 0.0 else weights[0] * sides[0] + Total(sides[1..], weights[1..])
  }

  lemma {:induction false} EvalSum(s: Side, points: seq<Point>, sides: seq<real>, weights: seq<real>)
    requires |points| == |sides| == |weights|
    requires forall k | 0 <= k < |points| :: sides[k] == SideOf(s, points[k])
    ensures Eval(s, Sum(points, weights)) == Total(sides, weights)
  {
    if points != [] {
      EvalSum(s, points[1..], sides[1..], weights[1..]);
      EvalPlus(s, weights[0], points[0], Sum(points[1..], weights[1..]));
    }
  }

  /** Points on the kept side make weighted points on the kept side. */
  lemma {:induction false} SumKept(s: Side, points: seq<Point>, weights: seq<real>)
    requires Weights(points, weights)
    requires forall k | 0 <= k < |points| :: SideOf(s, points[k]) >= 0.0
    ensures Eval(s, Sum(points, weights)) >= 0.0
  {
    if points != [] {
      SumKept(s, points[1..], weights[1..]);
      EvalPlus(s, weights[0], points[0], Sum(points[1..], weights[1..]));
      assert weights[0] * SideOf(s, points[0]) >= 0.0;
    }
  }

  lemma EvalPlus(s: Side, k: real, p: Point, v: Vec)
    ensures Eval(s, Plus(Times(k, Lift(p)), v)) == k * SideOf(s, p) + Eval(s, v)
  {
  }

  // ----- crossings -----

  /** The crossing of p (kept) and q (cut), as a weighted point of positive mass. */
  function Cross(s: Side, p: Point, q: Point): Vec {
    Balance(SideOf(s, p), SideOf(s, q), p, q)
  }

  function Balance(sp: real, sq: real, p: Point, q: Point): Vec {
    Plus(Times(-sq, Lift(p)), Times(sp, Lift(q)))
  }

  lemma CrossOnLine(s: Side, p: Point, q: Point)
    ensures Eval(s, Cross(s, p, q)) == 0.0
  {
  }

  /** The new vertex is that crossing, whichever way its edge runs. */
  lemma CrossingIsCross(s: Side, p: Point, q: Point)
    requires (SideOf(s, p) >= 0.0) != (SideOf(s, q) >= 0.0)
    ensures SideOf(s, p) >= 0.0 ==>
              Cross(s, p, q) == Times(SideOf(s, p) - SideOf(s, q), Lift(Crossing(s, p, q)))
    ensures SideOf(s, p) < 0.0 ==>
              Cross(s, q, p) == Times(SideOf(s, q) - SideOf(s, p), Lift(Crossing(s, p, q)))
  {
    BalancePoint(p, q, SideOf(s, p), SideOf(s, q));
  }

  /** That point is the balance of both, from either end. */
  lemma BalancePoint(p: Point, q: Point, sp: real, sq: real)
    requires sp != sq
    ensures var c := Lift(Dividing(p, q, sp, sq));
            Balance(sp, sq, p, q) == Times(sp - sq, c) && Balance(sq, sp, q, p) == Times(sq - sp, c)
  {
    var d := sp - sq;
    var t := sp / d;
    assert t * d == sp;
    CrossingScaled(p.x, q.x, sp, sq, d, t);
    CrossingScaled(p.y, q.y, sp, sq, d, t);
  }

  lemma CrossingScaled(p: real, q: real, sp: real, sq: real, d: real, t: real)
    requires d == sp - sq && t * d == sp
    ensures d * (p + (q - p) * t) == -sq * p + sp * q
    ensures -d * (p + (q - p) * t) == sq * p + -sp * q
  {
  }

  lemma ZeroFactor(d: real, v: real)
    requires d != 0.0 && d * v == 0.0
    ensures v == 0.0
  {
  }

  /** A new vertex lies on the line, and between the ends of its edge. */
  lemma CrossingOnEdge(s: Side, p: Point, q: Point)
    requires (SideOf(s, p) >= 0.0) != (SideOf(s, q) >= 0.0)
    ensures SideOf(s, Crossing(s, p, q)) == 0.0
    ensures var t := SideOf(s, p) / (SideOf(s, p) - SideOf(s, q)); 0.0 <= t <= 1.0
  {
  }

}
