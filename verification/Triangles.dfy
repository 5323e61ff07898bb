/** The point test on triangles: off the outline it is what being inside means. */
module Triangles {
  import opened Polygons

  predicate SameSign(x: real, y: real) {
    (x > 0.0 && y > 0.0) || (x < 0.0 && y < 0.0)
  }

  /** `p` lies on the side of the line through `a` and `b` on which `c` lies. */
  predicate InnerSide(a: Point, b: Point, c: Point, p: Point) {
    SameSign(Turn(a, b, p), Turn(a, b, c))
  }

  predicate IsAt(a: Point, b: Point, t: real, p: Point) {
    0.0 <= t <= 1.0 && p.x == a.x + t * (b.x - a.x) && p.y == a.y + t * (b.y - a.y)
  }

  ghost predicate OnEdge(a: Point, b: Point, p: Point) {
    exists t :: IsAt(a, b, t, p)
  }

  ghost predicate OnOutline(a: Point, b: Point, c: Point, p: Point) {
    OnEdge(a, b, p) || OnEdge(b, c, p) || OnEdge(c, a, p)
  }

  // ---- turns ------------------------------------------------------------------

  lemma TurnSeenFrom(a: Point, b: Point, p: Point)
    ensures Turn(a, b, p) == (a.x - p.x) * (b.y - p.y) - (b.x - p.x) * (a.y - p.y)
  {
    var x, y, u, v := a.x - p.x, a.y - p.y, b.x - p.x, b.y - p.y;
    assert Turn(a, b, p) == (u - x) * (-y) - (v - y) * (-x);
    assert (u - x) * (-y) == -(u * y) + x * y && (v - y) * (-x) == -(v * x) + y * x;
  }

  /** The three triangles that `p` makes with the edges add up to the whole one. */
  lemma TurnsAddUp(a: Point, b: Point, c: Point, p: Point)
    ensures Turn(a, b, p) + Turn(b, c, p) + Turn(c, a, p) == Turn(a, b, c)
  {
    var x, y, u, v, w, z := a.x - p.x, a.y - p.y, b.x - p.x, b.y - p.y, c.x - p.x, c.y - p.y;
    TurnSeenFrom(a, b, p);
    TurnSeenFrom(b, c, p);
    TurnSeenFrom(c, a, p);
    assert Turn(a, b, c) == (u - x) * (z - y) - (v - y) * (w - x);
    assert (u - x) * (z - y) == u * z - u * y - x * z + x * y;
    assert (v - y) * (w - x) == v * w - v * x - y * w + y * x;
  }

  lemma Balance(x: real, y: real, u: real, v: real, w: real, z: real)
    ensures (u * z - w * v) * y + (w * y - x * z) * v + (x * v - u * y) * z == 0.0
    ensures (u * z - w * v) * x + (w * y - x * z) * u + (x * v - u * y) * w == 0.0
  {
    assert (u * z - w * v) * y == u * z * y - w * v * y;
    assert (w * y - x * z) * v == w * y * v - x * z * v;
    assert (x * v - u * y) * z == x * v * z - u * y * z;
    assert (u * z - w * v) * x == u * z * x - w * v * x;
    assert (w * y - x * z) * u == w * y * u - x * z * u;
    assert (x * v - u * y) * w == x * v * w - u * y * w;
  }

  /** Weighed with the triangle on the opposite edge, the corners balance in `p`. */
  lemma CornersBalance(a: Point, b: Point, c: Point, p: Point)
    ensures Turn(b, c, p) * (a.x - p.x) + Turn(c, a, p) * (b.x - p.x) + Turn(a, b, p) * (c.x - p.x) == 0.0
    ensures Turn(b, c, p) * (a.y - p.y) + Turn(c, a, p) * (b.y - p.y) + Turn(a, b, p) * (c.y - p.y) == 0.0
  {
    TurnSeenFrom(a, b, p);
    TurnSeenFrom(b, c, p);
    TurnSeenFrom(c, a, p);
    Balance(a.x - p.x, a.y - p.y, b.x - p.x, b.y - p.y, c.x - p.x, c.y - p.y);
  }

  lemma TurnIsCyclic(a: Point, b: Point, c: Point)
    ensures Turn(b, c, a) == Turn(a, b, c)
  {
    TurnsAddUp(a, b, c, a);
    assert Turn(a, b, a) == 0.0 && Turn(c, a, a) == 0.0;
  }

  // ---- on the outline or strictly inside --------------------------------------

  lemma BetweenIsOnEdge(s: real, r: real, x: real, u: real)
    requires s >= 0.0 && r >= 0.0 && s + r > 0.0 && s * x + r * u == 0.0
    ensures 0.0 <= r / (s + r) <= 1.0 && x + r / (s + r) * (u - x) == 0.0
  {
    var t := r / (s + r);
    assert t * (s + r) == r;
    assert (x + t * (u - x)) * (s + r) == x * (s + r) + t * (s + r) * (u - x);
    assert x * (s + r) + r * (u - x) == s * x + r * u;
  }

  /** A point that no edge has on its wrong side, on the line of one, is on that edge. */
  lemma ZeroIsOnEdge(a: Point, b: Point, c: Point, p: Point)
    requires Turn(a, b, p) == 0.0 && Turn(b, c, p) >= 0.0 && Turn(c, a, p) >= 0.0 && Turn(a, b, c) > 0.0
    ensures OnEdge(a, b, p)
  {
    var s, r := Turn(b, c, p), Turn(c, a, p);
    TurnsAddUp(a, b, c, p);
    CornersBalance(a, b, c, p);
    BetweenIsOnEdge(s, r, a.x - p.x, b.x - p.x);
    BetweenIsOnEdge(s, r, a.y - p.y, b.y - p.y);
    assert IsAt(a, b, r / (s + r), p);
  }

  // ---- one corner apart from the other two in height --------------------------

  lemma SignOfSum(z: real, beta: real, x: real, gamma: real)
    requires beta >= 0.0 && gamma >= 0.0
    ensures z >= 0.0 && x >= 0.0 ==> z * beta + x * gamma >= 0.0
    ensures z <= 0.0 && x <= 0.0 ==> z * beta + x * gamma <= 0.0
    ensures beta > 0.0 && gamma > 0.0 && z >= 0.0 && x > 0.0 ==> z * beta + x * gamma > 0.0
    ensures beta > 0.0 && gamma > 0.0 && z < 0.0 && x <= 0.0 ==> z * beta + x * gamma < 0.0
  {
  }

  lemma SignOfFactor(y: real, alpha: real)
    ensures alpha > 0.0 && y * alpha >= 0.0 ==> y >= 0.0
    ensures alpha > 0.0 && y * alpha <= 0.0 ==> y <= 0.0
    ensures alpha >= 0.0 && y * alpha > 0.0 ==> y > 0.0
    ensures alpha >= 0.0 && y * alpha < 0.0 ==> y < 0.0
  {
  }

  lemma SignsAbove(x: real, y: real, z: real, alpha: real, beta: real, gamma: real)
    requires y * alpha == z * beta + x * gamma && alpha > 0.0 && beta >= 0.0 && gamma >= 0.0
    requires x + y + z >= 0.0
    ensures (x < 0.0) != (z > 0.0) ==> x >= 0.0 && y >= 0.0 && z >= 0.0 && x + y + z > 0.0
  {
    SignOfSum(z, beta, x, gamma);
    SignOfFactor(y, alpha);
  }

  lemma SignsBelow(x: real, y: real, z: real, alpha: real, beta: real, gamma: real)
    requires y * alpha == z * beta + x * gamma && alpha >= 0.0 && beta > 0.0 && gamma > 0.0
    requires x + y + z >= 0.0
    ensures (x > 0.0) != (z < 0.0) ==> x >= 0.0 && y >= 0.0 && z >= 0.0 && x + y + z > 0.0
  {
    SignOfSum(z, beta, x, gamma);
    SignOfFactor(y, alpha);
  }

  predicate NoneNegative(a: Point, b: Point, c: Point, p: Point) {
    Turn(a, b, p) >= 0.0 && Turn(b, c, p) >= 0.0 && Turn(c, a, p) >= 0.0 && Turn(a, b, c) > 0.0
  }

  predicate AllPositive(a: Point, b: Point, c: Point, p: Point) {
    Turn(a, b, p) > 0.0 && Turn(b, c, p) > 0.0 && Turn(c, a, p) > 0.0
  }

  predicate Apart(a: Point, b: Point, c: Point, p: Point) {
    (a.y > p.y) != (b.y > p.y) && (a.y > p.y) != (c.y > p.y)
  }

  /** `x`, `y` and `z` are the turns at the edges, `ha`, `hb` and `hc` the heights of the corners
      over `p`; `ab` and `ca` tell which of the edges at `a` are crossed. */
  lemma CrossedAlone(x: real, y: real, z: real, d: real, ha: real, hb: real, hc: real, ab: bool, ca: bool)
    requires y * ha + z * hb + x * hc == 0.0 && x + y + z == d && d >= 0.0
    requires (ha > 0.0) != (hb > 0.0) && (ha > 0.0) != (hc > 0.0)
    requires ab <==> if ha > 0.0 then x < 0.0 else x > 0.0
    requires ca <==> if ha > 0.0 then z > 0.0 else z < 0.0
    ensures ab != ca ==> x >= 0.0 && y >= 0.0 && z >= 0.0 && d > 0.0
    ensures x > 0.0 && z > 0.0 ==> ab != ca
  {
    if ha > 0.0 {
      assert y * ha == z * (-hb) + x * (-hc);
      SignsAbove(x, y, z, ha, -hb, -hc);
    } else {
      assert y * (-ha) == z * hb + x * hc;
      SignsBelow(x, y, z, -ha, hb, hc);
    }
  }

  /** Only the two edges at the corner `a` can be crossed. */
  lemma EdgesAtCorner(a: Point, b: Point, c: Point, p: Point)
    requires Apart(a, b, c, p)
    ensures !Crosses(b, c, p)
    ensures Crosses(a, b, p) <==> if a.y > p.y then Turn(a, b, p) < 0.0 else Turn(a, b, p) > 0.0
    ensures Crosses(c, a, p) <==> if a.y > p.y then Turn(c, a, p) > 0.0 else Turn(c, a, p) < 0.0
  {
    CrossesExactly(a, b, p);
    CrossesExactly(b, c, p);
    CrossesExactly(c, a, p);
  }

  /** And if one of them alone is, then no edge has `p` on its wrong side. */
  lemma CornerApart(a: Point, b: Point, c: Point, p: Point)
    requires Turn(a, b, c) >= 0.0 && Apart(a, b, c, p)
    ensures Crosses(a, b, p) != Crosses(c, a, p) ==> NoneNegative(a, b, c, p)
    ensures AllPositive(a, b, c, p) ==> Crosses(a, b, p) != Crosses(c, a, p)
  {
    EdgesAtCorner(a, b, c, p);
    TurnsAddUp(a, b, c, p);
    CornersBalance(a, b, c, p);
    CrossedAlone(Turn(a, b, p), Turn(b, c, p), Turn(c, a, p), Turn(a, b, c), a.y - p.y, b.y - p.y, c.y - p.y,
                 Crosses(a, b, p), Crosses(c, a, p));
  }

  lemma TriangleParity(a: Point, b: Point, c: Point, p: Point)
    ensures Inside([a, b, c], p) <==> ((Crosses(a, b, p) != Crosses(b, c, p)) != Crosses(c, a, p))
  {
    assert Odd([b, c], p) == Crosses(b, c, p) by {
      OddFront(b, [c], p);
      CrossesIsSymmetric(b, c, p);
    }
    assert Odd([a, b, c], p) == (Crosses(a, b, p) != Odd([b, c], p)) by {
      OddFront(a, [b, c], p);
      CrossesIsSymmetric(a, b, p);
      assert [a] + [b, c] == [a, b, c];
    }
    OddFront(c, [a, b, c], p);
    CrossesIsSymmetric(c, a, p);
  }

  lemma NoneNegativeIsCyclic(a: Point, b: Point, c: Point, p: Point)
    ensures NoneNegative(b, c, a, p) <==> NoneNegative(a, b, c, p)
    ensures Turn(b, c, a) == Turn(a, b, c)
  {
    TurnIsCyclic(a, b, c);
  }

  lemma TurnOnLevel(a: Point, b: Point, p: Point)
    ensures a.y == p.y && b.y == p.y ==> Turn(a, b, p) == 0.0
  {
  }

  lemma PositiveWeights(x: real, y: real, z: real, alpha: real, beta: real, gamma: real)
    requires x > 0.0 && y > 0.0 && z > 0.0 && y * alpha + z * beta + x * gamma == 0.0
    ensures !(alpha > 0.0 && beta > 0.0 && gamma > 0.0)
    ensures alpha <= 0.0 && beta <= 0.0 && gamma <= 0.0 ==> alpha == 0.0 && beta == 0.0 && gamma == 0.0
  {
    SignOfFactor(alpha, y);
    SignOfFactor(beta, z);
    SignOfFactor(gamma, x);
  }

  predicate OneSide(a: Point, b: Point, c: Point, p: Point) {
    (a.y > p.y) == (b.y > p.y) == (c.y > p.y)
  }

  /** All corners on one side of the height of `p`: `p` is not strictly within. */
  lemma OneSideIsOutside(a: Point, b: Point, c: Point, p: Point)
    requires OneSide(a, b, c, p)
    ensures !AllPositive(a, b, c, p)
  {
    var x, y, z := Turn(a, b, p), Turn(b, c, p), Turn(c, a, p);
    CornersBalance(a, b, c, p);
    TurnOnLevel(a, b, p);
    if x > 0.0 && y > 0.0 && z > 0.0 {
      PositiveWeights(x, y, z, a.y - p.y, b.y - p.y, c.y - p.y);
    }
  }

  lemma OneSideIsNotCrossed(a: Point, b: Point, c: Point, p: Point)
    requires OneSide(a, b, c, p)
    ensures !Crosses(a, b, p) && !Crosses(b, c, p) && !Crosses(c, a, p)
  {
    CrossesExactly(a, b, p);
    CrossesExactly(b, c, p);
    CrossesExactly(c, a, p);
  }

  /** Listed counter-clockwise: inside is at least weakly within, and strictly within is inside. */
  lemma WithinTriangle(a: Point, b: Point, c: Point, p: Point)
    requires Turn(a, b, c) >= 0.0
    ensures Inside([a, b, c], p) ==> NoneNegative(a, b, c, p)
    ensures AllPositive(a, b, c, p) ==> Inside([a, b, c], p)
  {
    TriangleParity(a, b, c, p);
    NoneNegativeIsCyclic(a, b, c, p);
    NoneNegativeIsCyclic(c, a, b, p);
    if Apart(a, b, c, p) {
      EdgesAtCorner(a, b, c, p);
      CornerApart(a, b, c, p);
    } else if Apart(b, c, a, p) {
      EdgesAtCorner(b, c, a, p);
      CornerApart(b, c, a, p);
    } else if Apart(c, a, b, p) {
      EdgesAtCorner(c, a, b, p);
      CornerApart(c, a, b, p);
    } else {
      OneSideIsOutside(a, b, c, p);
      OneSideIsNotCrossed(a, b, c, p);
    }
  }

  lemma OffOutline(a: Point, b: Point, c: Point, p: Point)
    requires NoneNegative(a, b, c, p) && !OnOutline(a, b, c, p)
    ensures AllPositive(a, b, c, p)
  {
    NoneNegativeIsCyclic(a, b, c, p);
    NoneNegativeIsCyclic(c, a, b, p);
    if Turn(a, b, p) == 0.0 {
      ZeroIsOnEdge(a, b, c, p);
    } else if Turn(b, c, p) == 0.0 {
      ZeroIsOnEdge(b, c, a, p);
    } else if Turn(c, a, p) == 0.0 {
      ZeroIsOnEdge(c, a, b, p);
    }
  }

  lemma EdgeBothWays(a: Point, b: Point, p: Point)
    ensures OnEdge(b, a, p) ==> OnEdge(a, b, p)
  {
    if t :| IsAt(b, a, t, p) {
      assert (1.0 - t) * (b.x - a.x) == (b.x - a.x) + t * (a.x - b.x);
      assert (1.0 - t) * (b.y - a.y) == (b.y - a.y) + t * (a.y - b.y);
      assert IsAt(a, b, 1.0 - t, p);
    }
  }

  lemma CounterClockwise(a: Point, b: Point, c: Point, p: Point)
    requires Turn(a, b, c) >= 0.0 && !OnOutline(a, b, c, p)
    ensures Inside([a, b, c], p) <==> Turn(a, b, c) > 0.0 && AllPositive(a, b, c, p)
  {
    WithinTriangle(a, b, c, p);
    TurnsAddUp(a, b, c, p);
    if NoneNegative(a, b, c, p) {
      OffOutline(a, b, c, p);
    }
  }

  /** For every triangle, however its corners are listed and be it flat: a point off the outline
      is inside exactly if it is on the inner side of all three edges. */
  lemma TriangleIsItsInterior(a: Point, b: Point, c: Point, p: Point)
    requires !OnOutline(a, b, c, p)
    ensures Inside([a, b, c], p) <==> InnerSide(a, b, c, p) && InnerSide(b, c, a, p) && InnerSide(c, a, b, p)
  {
    TurnIsCyclic(a, b, c);
    TurnIsCyclic(b, c, a);
    if Turn(a, b, c) >= 0.0 {
      CounterClockwise(a, b, c, p);
    } else {
      OtherWayRound(a, b, c, p);
    }
  }

  lemma ReversedTriangle(a: Point, b: Point, c: Point, p: Point)
    ensures Inside([c, b, a], p) <==> Inside([a, b, c], p)
  {
    TriangleParity(a, b, c, p);
    TriangleParity(c, b, a, p);
    CrossesIsSymmetric(a, b, p);
    CrossesIsSymmetric(b, c, p);
    CrossesIsSymmetric(c, a, p);
  }

  lemma OtherWayRound(a: Point, b: Point, c: Point, p: Point)
    requires Turn(a, b, c) < 0.0 && !OnOutline(a, b, c, p)
    ensures Inside([a, b, c], p) <==> Turn(a, b, p) < 0.0 && Turn(b, c, p) < 0.0 && Turn(c, a, p) < 0.0
  {
    ReversedTriangle(a, b, c, p);
    TurnIsCyclic(b, a, c);
    TurnIsCyclic(a, c, b);
    TurnIsAntisymmetric(a, b, p);
    TurnIsAntisymmetric(b, c, p);
    TurnIsAntisymmetric(c, a, p);
    TurnIsAntisymmetric(a, b, c);
    EdgeBothWays(a, b, p);
    EdgeBothWays(b, c, p);
    EdgeBothWays(c, a, p);
    CounterClockwise(c, b, a, p);
  }

  // ---- every polygon ----------------------------------------------------------

  /** Of the triangles that the first corner makes with the edges not at it, an odd number
      holds `p`. */
  predicate FanOdd(poly: seq<Point>, p: Point)
    decreases |poly|
  {
    |poly| >= 3 && (Inside(poly[..3], p) != FanOdd([poly[0]] + poly[2..], p))
  }

  /** A point is inside any polygon exactly if it is inside an odd number of the triangles of
      its fan, so the answer for triangles decides it for all. */
  lemma {:induction false} PolygonIsItsFan(poly: seq<Point>, p: Point)
    ensures Inside(poly, p) <==> FanOdd(poly, p)
    decreases |poly|
  {
    if |poly| >= 4 {
      CutPolygon(poly, 0, 2, p);
      assert poly[0..3] == poly[..3] && poly[..0 + 1] == [poly[0]];
      RotatedPolygon([poly[0]], poly[2..], p);
      PolygonIsItsFan([poly[0]] + poly[2..], p);
    } else if |poly| == 3 {
      assert poly[..3] == poly;
      NoFan([poly[0]] + poly[2..], p);
    } else {
      NoFan(poly, p);
    }
  }

  lemma NoFan(poly: seq<Point>, p: Point)
    requires |poly| < 3
    ensures !Inside(poly, p) && !FanOdd(poly, p)
  {
    if |poly| == 2 {
      var a, b := poly[0], poly[1];
      OddFront(b, poly, p);
      assert poly[1..] == [b];
      CrossesIsSymmetric(a, b, p);
    } else if |poly| == 1 {
      OddFront(poly[0], poly, p);
      CrossesExactly(poly[0], poly[0], p);
    }
  }
}
