/** Clipping keeps a convex polygon convex in its vertex order, so that its output can be
    drawn as it comes and clipped again. */
module ClipOrder {
  import opened Clip
  import opened ClipMeaning

  // ----- where each output point comes from -----

  /** A vertex, or the crossing of the edge after it. */
  datatype Spot = Spot(i: nat, cross: bool)

  predicate Changes(poly: seq<Point>, s: Side, i: nat)
    requires i < |poly|
  {
    (SideOf(s, poly[i]) >= 0.0) != (SideOf(s, Next(poly, i)) >= 0.0)
  }

  predicate Valid(poly: seq<Point>, s: Side, spot: Spot) {
    spot.i < |poly| && (spot.cross ==> Changes(poly, s, spot.i))
  }

  function PointAt(poly: seq<Point>, s: Side, spot: Spot): Point
    requires Valid(poly, s, spot)
  {
    if spot.cross then Crossing(s, poly[spot.i], Next(poly, spot.i)) else poly[spot.i]
  }

  function PieceSpots(poly: seq<Point>, s: Side, i: nat): seq<Spot>
    requires i < |poly|
  {
    (if SideOf(s, poly[i]) >= 0.0 then [Spot(i, false)] else []) + (if Changes(poly, s, i) then [Spot(i, true)] else [])
  }

  function Spots(poly: seq<Point>, s: Side, n: nat): seq<Spot>
    requires n <= |poly|
  {
    if n == 0 then [] else Spots(poly, s, n - 1) + PieceSpots(poly, s, n - 1)
  }

  /** Strictly earlier around the boundary. */
  predicate Before(u: Spot, v: Spot) {
    u.i < v.i || (u.i == v.i && !u.cross && v.cross)
  }

  predicate Traces(poly: seq<Point>, s: Side, spots: seq<Spot>, points: seq<Point>) {
    && |spots| == |points|
    && forall k | 0 <= k < |spots| :: Valid(poly, s, spots[k]) && points[k] == PointAt(poly, s, spots[k])
  }

  lemma PieceTraces(poly: seq<Point>, s: Side, i: nat)
    requires i < |poly|
    ensures Traces(poly, s, PieceSpots(poly, s, i), Piece(poly, s, i))
  {
  }

  lemma TracesAppend(poly: seq<Point>, s: Side, a: seq<Spot>, p: seq<Point>, b: seq<Spot>, q: seq<Point>)
    requires Traces(poly, s, a, p) && Traces(poly, s, b, q)
    ensures Traces(poly, s, a + b, p + q)
  {
  }

  lemma {:induction false} SpotsTrace(poly: seq<Point>, s: Side, n: nat)
    requires n <= |poly|
    ensures Traces(poly, s, Spots(poly, s, n), Pieces(poly, s, n))
  {
    if n > 0 {
      SpotsTrace(poly, s, n - 1);
      PieceTraces(poly, s, n - 1);
      TracesAppend(poly, s, Spots(poly, s, n - 1), Pieces(poly, s, n - 1),
                   PieceSpots(poly, s, n - 1), Piece(poly, s, n - 1));
    }
  }

  predicate Rising(spots: seq<Spot>) {
    forall j, k | 0 <= j < k < |spots| :: Before(spots[j], spots[k])
  }

  predicate AllBelow(spots: seq<Spot>, n: nat) {
    forall k | 0 <= k < |spots| :: spots[k].i < n
  }

  lemma PieceRises(poly: seq<Point>, s: Side, i: nat)
    requires i < |poly|
    ensures Rising(PieceSpots(poly, s, i))
    ensures forall k | 0 <= k < |PieceSpots(poly, s, i)| :: PieceSpots(poly, s, i)[k].i == i
  {
  }

  lemma RisingAppend(a: seq<Spot>, b: seq<Spot>, n: nat)
    requires Rising(a) && Rising(b) && AllBelow(a, n) && forall k | 0 <= k < |b| :: b[k].i == n
    ensures Rising(a + b) && AllBelow(a + b, n + 1)
  {
  }

  /** The spots rise strictly. */
  lemma {:induction false} SpotsRise(poly: seq<Point>, s: Side, n: nat)
    requires n <= |poly|
    ensures Rising(Spots(poly, s, n)) && AllBelow(Spots(poly, s, n), n)
  {
    if n > 0 {
      SpotsRise(poly, s, n - 1);
      PieceRises(poly, s, n - 1);
      RisingAppend(Spots(poly, s, n - 1), PieceSpots(poly, s, n - 1), n - 1);
    }
  }

  // ----- turning around the boundary -----

  /** The polygon's vertices and once more the first. */
  function Ring(poly: seq<Point>, i: nat): Point
    requires i <= |poly| && poly != []
  {
    if i == |poly| then poly[0] else poly[i]
  }

  lemma RingTurns(poly: seq<Point>, turn: real, a: nat, b: nat, c: nat)
    requires Turns(poly, turn) && a <= b < |poly| && b <= c <= |poly|
    ensures TurnOf(turn, Ring(poly, a), Ring(poly, b), Ring(poly, c)) >= 0.0
  {
    if c < |poly| {
      if a == b || b == c {
        Degenerate(turn, poly[a], poly[b], poly[c]);
      } else {
        assert TurnOf(turn, poly[a], poly[b], poly[c]) >= 0.0;
      }
    } else if a == b || a == 0 {
      Degenerate(turn, poly[a], poly[b], poly[0]);
    } else {
      assert TurnOf(turn, poly[0], poly[a], poly[b]) >= 0.0;
      TurnFlips(turn, poly[a], poly[b], poly[0]);
    }
  }

  lemma Degenerate(turn: real, p: Point, q: Point, r: Point)
    requires p == q || q == r || p == r
    ensures TurnOf(turn, p, q, r) == 0.0
  {
    TurnFlips(turn, p, q, r);
    TurnFlips(turn, q, r, p);
  }

  /** A turn at two ends is a turn at every point between them. */
  lemma TurnBetween(turn: real, y: Point, z: Point, p: Point, q: Point, c: Point, t: real)
    requires 0.0 <= t <= 1.0 && Lift(c) == Plus(Times(1.0 - t, Lift(p)), Times(t, Lift(q)))
    requires TurnOf(turn, y, z, p) >= 0.0 && TurnOf(turn, y, z, q) >= 0.0
    ensures TurnOf(turn, y, z, c) >= 0.0
  {
    OrientPlus(y, z, Times(1.0 - t, Lift(p)), Times(t, Lift(q)));
    OrientTimes(y, z, 1.0 - t, Lift(p));
    OrientTimes(y, z, t, Lift(q));
    OrientLift(y, z, p);
    OrientLift(y, z, q);
    OrientLift(y, z, c);
    Weighted(turn, Orient(y, z, p), Orient(y, z, q), Orient(y, z, c), t);
  }

  lemma Weighted(turn: real, p: real, q: real, c: real, t: real)
    requires 0.0 <= t <= 1.0 && c == (1.0 - t) * p + t * q && turn * p >= 0.0 && turn * q >= 0.0
    ensures turn * c >= 0.0
  {
    var u, a, b := 1.0 - t, turn * p, turn * q;
    Moved(turn, u, p, a);
    Moved(turn, t, q, b);
    assert turn * c == turn * (u * p) + turn * (t * q);
  }

  lemma Moved(turn: real, u: real, p: real, a: real)
    requires a == turn * p && a >= 0.0 && u >= 0.0
    ensures turn * (u * p) >= 0.0
  {
    assert turn * (u * p) == u * a;
  }

  /** The crossing of an edge, as a mix of its ends. */
  lemma CrossingMix(s: Side, p: Point, q: Point) returns (t: real)
    requires (SideOf(s, p) >= 0.0) != (SideOf(s, q) >= 0.0)
    ensures 0.0 <= t <= 1.0
    ensures Lift(Crossing(s, p, q)) == Plus(Times(1.0 - t, Lift(p)), Times(t, Lift(q)))
  {
    CrossingOnEdge(s, p, q);
    t := DividingMix(p, q, SideOf(s, p), SideOf(s, q));
  }

  lemma DividingMix(p: Point, q: Point, sp: real, sq: real) returns (t: real)
    requires sp != sq
    ensures t == sp / (sp - sq)
    ensures Lift(Dividing(p, q, sp, sq)) == Plus(Times(1.0 - t, Lift(p)), Times(t, Lift(q)))
  {
    MixPoint(p, q, sp / (sp - sq));
    t := sp / (sp - sq);
  }

  lemma MixPoint(p: Point, q: Point, t: real)
    ensures Lift(Along(p, q, t)) == Plus(Times(1.0 - t, Lift(p)), Times(t, Lift(q)))
  {
  }

  /** Turning towards a spot follows from turning towards its vertex and, for a crossing,
      towards the next one. */
  lemma TurnToSpot(poly: seq<Point>, s: Side, turn: real, y: Point, z: Point, u: Spot)
    requires Valid(poly, s, u)
    requires TurnOf(turn, y, z, Ring(poly, u.i)) >= 0.0
    requires u.cross ==> TurnOf(turn, y, z, Ring(poly, u.i + 1)) >= 0.0
    ensures TurnOf(turn, y, z, PointAt(poly, s, u)) >= 0.0
  {
    if u.cross {
      var p, q := poly[u.i], Next(poly, u.i);
      var t := CrossingMix(s, p, q);
      NextIsRing(poly, u.i);
      TurnBetween(turn, y, z, p, q, Crossing(s, p, q), t);
    }
  }

  lemma NextIsRing(poly: seq<Point>, i: nat)
    requires i < |poly|
    ensures Next(poly, i) == Ring(poly, i + 1)
  {
  }

  function High(u: Spot): nat {
    if u.cross then u.i + 1 else u.i
  }

  /** One spot, then two vertices. */
  lemma OneSpot(poly: seq<Point>, s: Side, turn: real, u: Spot, b: nat, c: nat)
    requires Turns(poly, turn) && Valid(poly, s, u) && High(u) <= b < |poly| && b <= c <= |poly|
    ensures TurnOf(turn, Ring(poly, b), Ring(poly, c), PointAt(poly, s, u)) >= 0.0
  {
    forall a | u.i <= a <= High(u) ensures TurnOf(turn, Ring(poly, b), Ring(poly, c), Ring(poly, a)) >= 0.0 {
      RingTurns(poly, turn, a, b, c);
      TurnFlips(turn, Ring(poly, b), Ring(poly, c), Ring(poly, a));
    }
    TurnToSpot(poly, s, turn, Ring(poly, b), Ring(poly, c), u);
  }

  /** Two spots, then a vertex. */
  lemma TwoSpots(poly: seq<Point>, s: Side, turn: real, u: Spot, v: Spot, c: nat)
    requires Turns(poly, turn) && Valid(poly, s, u) && Valid(poly, s, v) && Before(u, v)
    requires High(v) <= c <= |poly| && High(v) < |poly|
    ensures TurnOf(turn, Ring(poly, c), PointAt(poly, s, u), PointAt(poly, s, v)) >= 0.0
  {
    var p := PointAt(poly, s, u);
    forall b | v.i <= b <= High(v) ensures TurnOf(turn, Ring(poly, c), p, Ring(poly, b)) >= 0.0 {
      OneSpot(poly, s, turn, u, b, c);
      TurnFlips(turn, Ring(poly, c), p, Ring(poly, b));
    }
    TurnToSpot(poly, s, turn, Ring(poly, c), p, v);
  }

  lemma ThreeSpots(poly: seq<Point>, s: Side, turn: real, u: Spot, v: Spot, w: Spot)
    requires Turns(poly, turn) && Valid(poly, s, u) && Valid(poly, s, v) && Valid(poly, s, w)
    requires Before(u, v) && Before(v, w)
    ensures TurnOf(turn, PointAt(poly, s, u), PointAt(poly, s, v), PointAt(poly, s, w)) >= 0.0
  {
    var p, q := PointAt(poly, s, u), PointAt(poly, s, v);
    forall c | w.i <= c <= High(w) ensures TurnOf(turn, p, q, Ring(poly, c)) >= 0.0 {
      TwoSpots(poly, s, turn, u, v, c);
      TurnFlips(turn, p, q, Ring(poly, c));
    }
    TurnToSpot(poly, s, turn, p, q, w);
  }

  /** The output turns the way the input does. */
  lemma ClipKeepsTurns(poly: seq<Point>, s: Side, turn: real)
    requires Turns(poly, turn)
    ensures Turns(Clipped(poly, s), turn)
  {
    SpotsTrace(poly, s, |poly|);
    SpotsRise(poly, s, |poly|);
    TracedTurns(poly, s, turn, Spots(poly, s, |poly|), Clipped(poly, s));
  }

  lemma TracedTurns(poly: seq<Point>, s: Side, turn: real, spots: seq<Spot>, points: seq<Point>)
    requires Turns(poly, turn) && Traces(poly, s, spots, points) && Rising(spots)
    ensures Turns(points, turn)
  {
    forall i, j, k | 0 <= i < j < k < |points| ensures TurnOf(turn, points[i], points[j], points[k]) >= 0.0 {
      ThreeSpots(poly, s, turn, spots[i], spots[j], spots[k]);
    }
  }

  /** Clipping a convex polygon by several sides in turn. */
  function ClippedAll(poly: seq<Point>, sides: seq<Side>): seq<Point> {
    if sides == [] then poly else Clipped(ClippedAll(poly, sides[..|sides| - 1]), sides[|sides| - 1])
  }

  predicate OnAll(sides: seq<Side>, z: Point) {
    forall k | 0 <= k < |sides| :: SideOf(sides[k], z) >= 0.0
  }

  lemma OnAllSnoc(sides: seq<Side>, z: Point)
    requires sides != []
    ensures OnAll(sides, z) <==> OnAll(sides[..|sides| - 1], z) && SideOf(sides[|sides| - 1], z) >= 0.0
  {
    assert sides == sides[..|sides| - 1] + [sides[|sides| - 1]];
  }

  /** The result is convex in its vertex order. */
  lemma {:induction false} RepeatedStaysConvex(poly: seq<Point>, sides: seq<Side>)
    requires Convex(poly)
    ensures Convex(ClippedAll(poly, sides))
  {
    if sides != [] {
      RepeatedStaysConvex(poly, sides[..|sides| - 1]);
      StillConvex(ClippedAll(poly, sides[..|sides| - 1]), sides[|sides| - 1]);
    }
  }

  /** A point is in its hull exactly when it is in the polygon and on the kept side of all. */
  lemma {:induction false} RepeatedClips(poly: seq<Point>, sides: seq<Side>, z: Point)
    requires Convex(poly)
    ensures InHull(ClippedAll(poly, sides), z) <==> InHull(poly, z) && OnAll(sides, z)
  {
    if sides != [] {
      var last := |sides| - 1;
      RepeatedClips(poly, sides[..last], z);
      RepeatedStaysConvex(poly, sides[..last]);
      ClipIsIntersection(ClippedAll(poly, sides[..last]), sides[last], z);
      OnAllSnoc(sides, z);
    }
  }

  lemma StillConvex(poly: seq<Point>, s: Side)
    requires Convex(poly)
    ensures Convex(Clipped(poly, s))
  {
    ClipKeepsTurns(poly, s, if Turns(poly, 1.0) then 1.0 else -1.0);
  }
}
