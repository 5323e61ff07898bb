/** The ray-casting point test behind the detection zones, over exact coordinates. */
module Polygons {

  datatype Point = Point(x: real, y: real)

  /** The rightward ray from `p` crosses the edge between `a` and `b`. */
  predicate Crosses(a: Point, b: Point, p: Point) {
    var rise := if b.y - a.y == 0.0 then 0.000000001 else b.y - a.y;
    (a.y > p.y) != (b.y > p.y) && p.x < (b.x - a.x) * (p.y - a.y) / rise + a.x
  }

  /** Parity of the crossings along an open path. */
  predicate Odd(path: seq<Point>, p: Point) {
    |path| >= 2 && (Crosses(path[1], path[0], p) != Odd(path[1..], p))
  }

  /** Parity of the crossings along the closed outline. */
  predicate Inside(poly: seq<Point>, p: Point) {
    poly != [] && Odd([poly[|poly| - 1]] + poly, p)
  }

  method PointInPoly(p: Point, poly: seq<Point>) returns (inside: bool)
    ensures inside <==> Inside(poly, p)
  {
    inside := false;
    var n := |poly|;
    var j := n - 1;
    assert n > 0 ==> [poly[n - 1]] + poly[..0] == [poly[n - 1]];
    for i := 0 to n
      invariant j == if i == 0 then n - 1 else i - 1
      invariant n == 0 ==> !inside
      invariant n > 0 ==> (inside <==> Odd([poly[n - 1]] + poly[..i], p))
    {
      OddPrefix(poly, i, p);
      if Crosses(poly[i], poly[j], p) {
        inside := !inside;
      }
      j := i;
    }
    assert poly[..n] == poly;
  }

  lemma OddPrefix(poly: seq<Point>, i: nat, p: Point)
    requires i < |poly|
    ensures Odd([poly[|poly| - 1]] + poly[..i + 1], p)
       <==> (Odd([poly[|poly| - 1]] + poly[..i], p) != Crosses(poly[i], poly[if i == 0 then |poly| - 1 else i - 1], p))
  {
    var path := [poly[|poly| - 1]] + poly[..i];
    OddSnoc(path, poly[i], p);
    assert [poly[|poly| - 1]] + poly[..i + 1] == path + [poly[i]];
  }

  lemma {:induction false} OddSnoc(path: seq<Point>, b: Point, p: Point)
    requires path != []
    ensures Odd(path + [b], p) <==> (Odd(path, p) != Crosses(b, path[|path| - 1], p))
    decreases |path|
  {
    if |path| == 1 {
      assert (path + [b])[1..] == [b];
    } else {
      OddSnoc(path[1..], b, p);
      assert (path + [b])[1..] == path[1..] + [b];
    }
  }

  /** Joining two paths at a shared point adds their crossings. */
  lemma {:induction false} OddJoin(s: seq<Point>, x: Point, t: seq<Point>, p: Point)
    ensures Odd(s + [x] + t, p) <==> (Odd(s + [x], p) != Odd([x] + t, p))
    decreases |t|
  {
    if t == [] {
      assert s + [x] + t == s + [x] && [x] + t == [x];
    } else {
      var front, b := t[..|t| - 1], t[|t| - 1];
      OddJoin(s, x, front, p);
      OddSnoc(s + [x] + front, b, p);
      OddSnoc([x] + front, b, p);
      assert s + [x] + t == s + [x] + front + [b] && [x] + t == [x] + front + [b];
      assert front != [] ==> ([x] + front)[|front|] == (s + [x] + front)[|s + [x] + front| - 1];
    }
  }

  /** Where the line through two corners is at a height, computed from either end. */
  lemma SameLine(w: real, u: real, d: real)
    requires d != 0.0
    ensures (-w) * (u - d) / (-d) == w * u / d - w
  {
    var q := w * u / d;
    assert q * d == w * u;
    assert (-w) * (u - d) == -(w * u) + w * d;
    assert (q - w) * (-d) == -(q * d) + w * d;
    DivideExact(q - w, -d);
  }

  /** The crossing test does not depend on the direction of the edge. */
  lemma CrossesIsSymmetric(a: Point, b: Point, p: Point)
    ensures Crosses(a, b, p) <==> Crosses(b, a, p)
  {
    if a.y != b.y {
      var w, u, d := b.x - a.x, p.y - a.y, b.y - a.y;
      SameLine(w, u, d);
      assert a.x - b.x == -w && p.y - b.y == u - d && a.y - b.y == -d;
    }
  }

  /** Twice the signed area of the triangle `a`, `b`, `p`: positive if `p` lies to the left of
      the line from `a` to `b`, negative to its right, zero on it. */
  function Turn(a: Point, b: Point, p: Point): real {
    (b.x - a.x) * (p.y - a.y) - (b.y - a.y) * (p.x - a.x)
  }

  lemma CompareQuotient(x: real, n: real, d: real)
    requires d > 0.0
    ensures x < n / d <==> x * d < n
  {
    var q := n / d;
    assert q * d == n;
    assert (x - q) * d == x * d - n;
  }

  /** A rising edge is crossed exactly by the points to its left from its lower end on, the
      upper end excluded; a falling one likewise by those to its right; another edge never. */
  lemma CrossesExactly(a: Point, b: Point, p: Point)
    ensures a.y <= p.y < b.y ==> (Crosses(a, b, p) <==> Turn(a, b, p) > 0.0)
    ensures b.y <= p.y < a.y ==> (Crosses(a, b, p) <==> Turn(a, b, p) < 0.0)
    ensures !(a.y <= p.y < b.y) && !(b.y <= p.y < a.y) ==> !Crosses(a, b, p)
  {
    if a.y <= p.y < b.y {
      CompareQuotient(p.x - a.x, (b.x - a.x) * (p.y - a.y), b.y - a.y);
    } else if b.y <= p.y < a.y {
      CrossesIsSymmetric(a, b, p);
      CompareQuotient(p.x - b.x, (a.x - b.x) * (p.y - b.y), a.y - b.y);
      TurnIsAntisymmetric(a, b, p);
    }
  }

  lemma TurnIsAntisymmetric(a: Point, b: Point, p: Point)
    ensures Turn(b, a, p) == -Turn(a, b, p)
  {
    var w, h, x, y := b.x - a.x, b.y - a.y, p.x - a.x, p.y - a.y;
    assert Turn(b, a, p) == (-w) * (y - h) - (-h) * (x - w);
    assert (-w) * (y - h) == -(w * y) + w * h && (-h) * (x - w) == -(h * x) + h * w;
  }

  lemma DivideExact(q: real, d: real)
    requires d != 0.0
    ensures q * d / d == q
  {
  }

  function Reverse(s: seq<Point>): seq<Point> {
    if s == [] then [] else Reverse(s[1..]) + [s[0]]
  }

  lemma {:induction false} ReverseEnds(s: seq<Point>)
    requires s != []
    ensures |Reverse(s)| == |s| && Reverse(s)[0] == s[|s| - 1] && Reverse(s)[|s| - 1] == s[0]
    decreases |s|
  {
    if |s| > 1 {
      ReverseEnds(s[1..]);
    }
  }

  lemma {:induction false} OddReversed(path: seq<Point>, p: Point)
    ensures Odd(Reverse(path), p) <==> Odd(path, p)
    decreases |path|
  {
    if |path| >= 2 {
      OddReversed(path[1..], p);
      ReverseEnds(path[1..]);
      OddSnoc(Reverse(path[1..]), path[0], p);
      CrossesIsSymmetric(path[0], path[1], p);
    } else if |path| == 1 {
      assert Reverse(path[1..]) == [];
    }
  }

  /** Listing the corners the other way round changes nothing. */
  lemma ReversedPolygon(poly: seq<Point>, p: Point)
    ensures Inside(Reverse(poly), p) <==> Inside(poly, p)
  {
    if poly != [] {
      var first, last := poly[0], poly[|poly| - 1];
      var r := Reverse(poly);
      ReverseEnds(poly);
      OddReversed(poly, p);
      OddFront(last, poly, p);
      OddFront(first, r, p);
      CrossesIsSymmetric(first, last, p);
    }
  }

  lemma OddFront(a: Point, path: seq<Point>, p: Point)
    requires path != []
    ensures Odd([a] + path, p) <==> (Crosses(path[0], a, p) != Odd(path, p))
  {
    assert ([a] + path)[1..] == path;
  }

  /** Starting the list at another corner changes nothing. */
  lemma RotatedPolygon(u: seq<Point>, v: seq<Point>, p: Point)
    ensures Inside(v + u, p) <==> Inside(u + v, p)
  {
    if u == [] || v == [] {
      assert u + v == v + u;
    } else {
      var lu, lv := u[|u| - 1], v[|v| - 1];
      ClosedJoin(u, v, p);
      ClosedJoin(v, u, p);
    }
  }

  lemma ClosedJoin(u: seq<Point>, v: seq<Point>, p: Point)
    requires u != [] && v != []
    ensures Inside(u + v, p) <==> (Odd([v[|v| - 1]] + u, p) != Odd([u[|u| - 1]] + v, p))
  {
    var lu, lv := u[|u| - 1], v[|v| - 1];
    var front := [lv] + u[..|u| - 1];
    OddJoin(front, lu, v, p);
    assert front + [lu] == [lv] + u && [lv] + (u + v) == front + [lu] + v;
  }

  /** A closed outline of four parts, turned to start at the second corner of the diagonal. */
  lemma OutlineFromCorners(front: seq<Point>, a: Point, middle: seq<Point>, b: Point, back: seq<Point>, p: Point)
    ensures Inside(front + [a] + middle + [b] + back, p) <==>
            (Odd([b] + back + front + [a], p) != Odd([a] + middle + [b], p))
  {
    var u := front + [a] + middle + [b];
    RotatedPolygon(u, back, p);
    var turned := back + u;
    assert turned[|turned| - 1] == b;
    OddJoin([b] + back + front, a, middle + [b], p);
    assert [b] + turned == [b] + back + front + [a] + (middle + [b]);
    assert [a] + (middle + [b]) == [a] + middle + [b];
  }

  lemma WholeInParts<T>(s: seq<T>, i: nat, j: nat)
    requires i < j < |s|
    ensures s == s[..i] + [s[i]] + s[i + 1..j] + [s[j]] + s[j + 1..]
  {
  }

  lemma FarInParts<T>(s: seq<T>, i: nat, j: nat)
    requires i < j < |s|
    ensures s[j..] + s[..i + 1] == [s[j]] + s[j + 1..] + s[..i] + [s[i]]
  {
    assert s[j..] == [s[j]] + s[j + 1..] && s[..i + 1] == s[..i] + [s[i]];
  }

  lemma NearInParts<T>(s: seq<T>, i: nat, j: nat)
    requires i < j < |s|
    ensures s[i..j + 1] == [s[i]] + s[i + 1..j] + [s[j]]
  {
  }

  /** The outline read from corner `j` is the far side followed by the near side. */
  lemma OutlineFromCorner(poly: seq<Point>, i: nat, j: nat, p: Point)
    requires i < j < |poly|
    ensures Inside(poly, p) <==> (Odd(poly[j..] + poly[..i + 1], p) != Odd(poly[i..j + 1], p))
  {
    var front, middle, back := poly[..i], poly[i + 1..j], poly[j + 1..];
    var a, b := poly[i], poly[j];
    OutlineFromCorners(front, a, middle, b, back, p);
    WholeInParts(poly, i, j);
    FarInParts(poly, i, j);
    NearInParts(poly, i, j);
  }

  /** Cutting along the diagonal between corners `i` and `j`: a point is inside the whole
      exactly when it is inside one of the two pieces and not the other. */
  lemma CutPolygon(poly: seq<Point>, i: nat, j: nat, p: Point)
    requires i < j < |poly|
    ensures Inside(poly, p) <==> (Inside(poly[i..j + 1], p) != Inside(poly[j..] + poly[..i + 1], p))
  {
    var a, b := poly[i], poly[j];
    var near, far := poly[i..j + 1], poly[j..] + poly[..i + 1];
    OutlineFromCorner(poly, i, j, p);
    assert Inside(near, p) <==> (Crosses(a, b, p) != Odd(near, p)) by {
      OddFront(b, near, p);
    }
    assert Inside(far, p) <==> (Crosses(b, a, p) != Odd(far, p)) by {
      OddFront(a, far, p);
    }
    CrossesIsSymmetric(a, b, p);
  }

  /** The test is exact on an upright rectangle: left and bottom edges belong to it, right
      and top edges do not, so rectangles that tile an area never share a point. */
  lemma RectangleIsHalfOpen(x0: real, y0: real, x1: real, y1: real, p: Point)
    requires x0 < x1 && y0 < y1
    ensures Inside([Point(x0, y0), Point(x1, y0), Point(x1, y1), Point(x0, y1)], p)
       <==> x0 <= p.x < x1 && y0 <= p.y < y1
  {
    var a, b, c, d := Point(x0, y0), Point(x1, y0), Point(x1, y1), Point(x0, y1);
    assert Odd([c, d], p) == Crosses(d, c, p) by { OddFront(c, [d], p); }
    assert Odd([b, c, d], p) == (Crosses(c, b, p) != Odd([c, d], p)) by {
      OddFront(b, [c, d], p);
      assert [b] + [c, d] == [b, c, d];
    }
    assert Odd([a, b, c, d], p) == (Crosses(b, a, p) != Odd([b, c, d], p)) by {
      OddFront(a, [b, c, d], p);
      assert [a] + [b, c, d] == [a, b, c, d];
    }
    OddFront(d, [a, b, c, d], p);
    Upright(x0, y0, y1, p);
    Upright(x1, y0, y1, p);
    CrossesIsSymmetric(a, d, p);
  }

  lemma Upright(x: real, y0: real, y1: real, p: Point)
    requires y0 < y1
    ensures Crosses(Point(x, y1), Point(x, y0), p) <==> p.x < x && y0 <= p.y < y1
  {
    assert (x - x) * (p.y - y1) == 0.0;
  }

  // ---- zones ------------------------------------------------------------------

  datatype Zones = Unrestricted | Zones(includes: seq<seq<Point>>, excludes: seq<seq<Point>>)

  ghost predicate InAny(polys: seq<seq<Point>>, p: Point) {
    exists k :: 0 <= k < |polys| && Inside(polys[k], p)
  }

  /** Inside an include zone, if there is any, and inside no exclude zone. */
  ghost predicate Allowed(zones: Zones, p: Point) {
    zones.Zones? ==> (zones.includes == [] || InAny(zones.includes, p)) && !InAny(zones.excludes, p)
  }

  /** Zone by zone: without zones everything is allowed, a first include zone allows its inside
      alone, a further one its inside besides, and an exclude zone takes its inside away. */
  lemma AllowedByZone(includes: seq<seq<Point>>, excludes: seq<seq<Point>>, zone: seq<Point>, p: Point)
    ensures Allowed(Unrestricted, p) && Allowed(Zones([], []), p)
    ensures Allowed(Zones([zone], []), p) <==> Inside(zone, p)
    ensures includes != [] ==>
      (Allowed(Zones(includes + [zone], []), p) <==> Allowed(Zones(includes, []), p) || Inside(zone, p))
    ensures Allowed(Zones(includes, excludes + [zone]), p) <==> Allowed(Zones(includes, excludes), p) && !Inside(zone, p)
  {
    InOneMore(includes, zone, p);
    InOneMore(excludes, zone, p);
    assert [zone][0] == zone;
  }

  lemma InOneMore(polys: seq<seq<Point>>, zone: seq<Point>, p: Point)
    ensures InAny(polys + [zone], p) <==> InAny(polys, p) || Inside(zone, p)
  {
    var more := polys + [zone];
    assert more[|polys|] == zone && forall k :: 0 <= k < |polys| ==> more[k] == polys[k];
  }

  method AnyContains(polys: seq<seq<Point>>, p: Point) returns (found: bool)
    ensures found <==> InAny(polys, p)
  {
    for k := 0 to |polys|
      invariant forall i :: 0 <= i < k ==> !Inside(polys[i], p)
    {
      var hit := PointInPoly(p, polys[k]);
      if hit {
        return true;
      }
    }
    return false;
  }

  method InZones(p: Point, zones: Zones) returns (ok: bool)
    ensures ok <==> Allowed(zones, p)
  {
    if zones.Unrestricted? {
      return true;
    }
    if zones.includes != [] {
      var inc := AnyContains(zones.includes, p);
      if !inc {
        return false;
      }
    }
    var exc := AnyContains(zones.excludes, p);
    return !exc;
  }
}
