/** `pointinpoly`: the loop that skips runs of vertices on one side of the point's horizontal,
    against the per-edge crossing count, over exact reals. */
module Polygon {

  const MAXVERTS := 100
  const X := 0
  const Y := 1
  const SENTINEL := -1.0

  datatype Point = Point(x: real, y: real)

  // -------------------------------------------------------------- per-edge definition

  predicate Above(t: Point, v: Point) { v.y >= t.y }

  /** The edge passes from one side of the horizontal through `t` to the other. */
  predicate Straddles(t: Point, a: Point, b: Point) { Above(t, a) != Above(t, b) }

  /** Where the line through the edge meets that horizontal. */
  function CrossingX(t: Point, a: Point, b: Point): real
    requires a.y != b.y
  {
    a.x - (a.y - t.y) * (b.x - a.x) / (b.y - a.y)
  }

  /** The edge crosses the ray from `t` towards larger x. */
  predicate Crosses(t: Point, a: Point, b: Point) { Straddles(t, a, b) && CrossingX(t, a, b) >= t.x }

  function EdgeCount(t: Point, a: Point, b: Point): nat { if Crosses(t, a, b) then 1 else 0 }

  /** Crossings along an open path. */
  function PathCount(t: Point, path: seq<Point>): nat {
    if |path| < 2 then 0 else PathCount(t, path[..|path| - 1]) + EdgeCount(t, path[|path| - 2], path[|path| - 1])
  }

  /** Crossings of the closed polygon, each edge once. */
  function Crossings(t: Point, vs: seq<Point>): nat
    requires vs != []
  {
    PathCount(t, [vs[|vs| - 1]] + vs)
  }

  predicate Inside(t: Point, vs: seq<Point>)
    requires vs != []
  {
    Crossings(t, vs) % 2 == 1
  }

  // ------------------------------------------------------------------ the x shortcut

  lemma MulSign(a: real, b: real)
    ensures a >= 0.0 && b >= 0.0 ==> a * b >= 0.0
    ensures a > 0.0 && b > 0.0 ==> a * b > 0.0
  {
  }

  /** A straddled point on the edge is a mean of the end points: `(b.y - a.y)` times the crossing
      is the end points' x weighted by distances that do not have opposite signs. */
  lemma CrossingIsMean(t: Point, a: Point, b: Point)
    requires a.y != b.y
    ensures CrossingX(t, a, b) * (b.y - a.y) == a.x * (b.y - t.y) + b.x * (t.y - a.y)
  {
    var d := b.y - a.y;
    var q := (a.y - t.y) * (b.x - a.x) / d;
    assert q * d == (a.y - t.y) * (b.x - a.x);
    assert (a.x - q) * d == a.x * d - q * d;
    assert (a.y - t.y) * (b.x - a.x) == (a.y - t.y) * b.x - (a.y - t.y) * a.x;
  }

  /** When both ends lie on one side in x, so does the crossing: the shortcut needs no division. */
  lemma SameSideShortcut(t: Point, a: Point, b: Point)
    requires Straddles(t, a, b) && ((a.x >= t.x) == (b.x >= t.x))
    ensures Crosses(t, a, b) <==> a.x >= t.x
  {
    CrossingIsMean(t, a, b);
    var c, d := CrossingX(t, a, b), b.y - a.y;
    var wa, wb := b.y - t.y, t.y - a.y;
    assert wa + wb == d;
    assert (c - t.x) * d == (a.x - t.x) * wa + (b.x - t.x) * wb by {
      assert (c - t.x) * d == c * d - t.x * d;
      assert t.x * d == t.x * wa + t.x * wb;
      assert (a.x - t.x) * wa == a.x * wa - t.x * wa;
      assert (b.x - t.x) * wb == b.x * wb - t.x * wb;
    }
    MeanSign(c - t.x, a.x - t.x, b.x - t.x, wa, wb);
  }

  /** `c` is a mean of `p` and `q` with weights of one sign, not both zero. */
  lemma MeanSign(c: real, p: real, q: real, wa: real, wb: real)
    requires c * (wa + wb) == p * wa + q * wb
    requires (wa >= 0.0 && wb > 0.0) || (wa < 0.0 && wb <= 0.0) || (wa > 0.0 && wb >= 0.0) || (wa <= 0.0 && wb < 0.0)
    ensures p >= 0.0 && q >= 0.0 ==> c >= 0.0
    ensures p < 0.0 && q < 0.0 ==> c < 0.0
  {
    if wa + wb > 0.0 {
      PositiveMean(c, p, q, wa, wb);
    } else {
      assert c * (-wa + -wb) == -(c * (wa + wb));
      assert p * -wa == -(p * wa) && q * -wb == -(q * wb);
      PositiveMean(c, p, q, -wa, -wb);
    }
  }

  lemma PositiveMean(c: real, p: real, q: real, wa: real, wb: real)
    requires wa >= 0.0 && wb >= 0.0 && wa + wb > 0.0
    requires c * (wa + wb) == p * wa + q * wb
    ensures p >= 0.0 && q >= 0.0 ==> c >= 0.0
    ensures p < 0.0 && q < 0.0 ==> c < 0.0
  {
    var w := wa + wb;
    if p >= 0.0 && q >= 0.0 && c < 0.0 {
      MulSign(p, wa);
      MulSign(q, wb);
      MulSign(-c, w);
    }
    if p < 0.0 && q < 0.0 && c >= 0.0 {
      MulSign(-p, wa);
      MulSign(-q, wb);
      MulSign(c, w);
      MulSign(-p, w);
    }
  }

  // ------------------------------------------------------------------ the running code

  /** The vertices in front of the sentinel. */
  ghost function Shape(pgon: array2<real>, i: nat): seq<Point>
    reads pgon
    requires pgon.Length1 == 2
    decreases pgon.Length0 - i
  {
    if i >= pgon.Length0 || pgon[i, X] == SENTINEL then []
    else [Point(pgon[i, X], pgon[i, Y])] + Shape(pgon, i + 1)
  }

  ghost predicate Terminated(pgon: array2<real>)
    reads pgon
  {
    && pgon.Length0 == MAXVERTS && pgon.Length1 == 2
    && exists i :: 0 <= i < MAXVERTS && pgon[i, X] == SENTINEL
  }

  lemma {:induction false} ShapeIs(pgon: array2<real>, i: nat, n: nat)
    requires pgon.Length1 == 2 && i <= n < pgon.Length0 && pgon[n, X] == SENTINEL
    requires forall k :: i <= k < n ==> pgon[k, X] != SENTINEL
    ensures var vs := Shape(pgon, i);
            |vs| == n - i && forall k :: i <= k < n ==> vs[k - i] == Point(pgon[k, X], pgon[k, Y])
    decreases n - i
  {
    if i < n {
      ShapeIs(pgon, i + 1, n);
    }
  }

  method CountVertices(pgon: array2<real>) returns (numverts: nat)
    requires Terminated(pgon)
    ensures numverts < MAXVERTS && |Shape(pgon, 0)| == numverts
    ensures forall k :: 0 <= k < numverts ==> Shape(pgon, 0)[k] == Point(pgon[k, X], pgon[k, Y])
  {
    var i := 0;
    while pgon[i, X] != SENTINEL && i < MAXVERTS
      invariant i < MAXVERTS
      decreases MAXVERTS - i
      invariant forall k :: 0 <= k < i ==> pgon[k, X] != SENTINEL
    {
      i := i + 1;
    }
    numverts := i;
    ShapeIs(pgon, 0, numverts);
  }

  /** Counts one straddling edge, dividing only when its ends lie on different sides in x. */
  method CountEdge(t: Point, a: Point, b: Point) returns (c: nat)
    requires Straddles(t, a, b)
    ensures c == EdgeCount(t, a, b)
  {
    var xflag0 := a.x >= t.x;
    if xflag0 == (b.x >= t.x) {
      SameSideShortcut(t, a, b);
      c := if xflag0 then 1 else 0;
    } else {
      c := if a.x - (a.y - t.y) * (b.x - a.x) / (b.y - a.y) >= t.x then 1 else 0;
    }
  }

  lemma PathStep(t: Point, path: seq<Point>, v: Point)
    requires path != []
    ensures PathCount(t, path + [v]) == PathCount(t, path) + EdgeCount(t, path[|path| - 1], v)
  {
    assert (path + [v])[..|path|] == path;
  }

  lemma WalkStep(t: Point, vs: seq<Point>, p: nat)
    requires 1 <= p < |vs|
    ensures var last := vs[|vs| - 1];
            PathCount(t, [last] + vs[..p + 1]) == PathCount(t, [last] + vs[..p]) + EdgeCount(t, vs[p - 1], vs[p])
    ensures !Straddles(t, vs[p - 1], vs[p]) ==> EdgeCount(t, vs[p - 1], vs[p]) == 0
  {
    var path := [vs[|vs| - 1]] + vs[..p];
    assert [vs[|vs| - 1]] + vs[..p + 1] == path + [vs[p]];
    PathStep(t, path, vs[p]);
  }

  lemma FirstEdge(t: Point, vs: seq<Point>)
    requires vs != []
    ensures var last := vs[|vs| - 1];
            PathCount(t, [last] + vs[..1]) == EdgeCount(t, last, vs[0])
    ensures !Straddles(t, vs[|vs| - 1], vs[0]) ==> EdgeCount(t, vs[|vs| - 1], vs[0]) == 0
  {
    var last := vs[|vs| - 1];
    PathStep(t, [last], vs[0]);
    assert [last] + vs[..1] == [last] + [vs[0]];
    assert PathCount(t, [last]) == 0;
  }

  /** `p` stands for the address of vertex `p`'s y; the inner loops skip runs on one side. */
  method PointInPoly(point: array<real>, pgon: array2<real>) returns (inside: bool)
    requires point.Length == 2 && Terminated(pgon) && Shape(pgon, 0) != []
    ensures inside <==> Inside(Point(point[X], point[Y]), Shape(pgon, 0))
  {
    hide Shape, PathCount, EdgeCount;
    var numverts := CountVertices(pgon);
    ghost var vs := Shape(pgon, 0);
    var t := Point(point[X], point[Y]);
    ghost var last := vs[numverts - 1];
    var y := pgon[numverts - 1, Y];
    var p := 0;
    var crossings := 0;
    FirstEdge(t, vs);
    if (y >= t.y) != (pgon[p, Y] >= t.y) {
      crossings := CountEdge(t, Point(pgon[numverts - 1, X], y), Point(pgon[p, X], pgon[p, Y]));
    }
    y, p := pgon[p, Y], p + 1;
    while p < numverts
      invariant 1 <= p <= numverts && y == vs[p - 1].y
      invariant crossings == PathCount(t, [last] + vs[..p])
      decreases numverts - p
    {
      if y >= t.y {
        while p < numverts && pgon[p, Y] >= t.y
          invariant 1 <= p <= numverts && vs[p - 1].y >= t.y
          invariant crossings == PathCount(t, [last] + vs[..p])
        {
          WalkStep(t, vs, p);
          p := p + 1;
        }
      } else {
        while p < numverts && pgon[p, Y] < t.y
          invariant 1 <= p <= numverts && vs[p - 1].y < t.y
          invariant crossings == PathCount(t, [last] + vs[..p])
        {
          WalkStep(t, vs, p);
          p := p + 1;
        }
      }
      if p >= numverts {
        break;
      }
      WalkStep(t, vs, p);
      var c := CountEdge(t, Point(pgon[p - 1, X], pgon[p - 1, Y]), Point(pgon[p, X], pgon[p, Y]));
      crossings := crossings + c;
      y, p := pgon[p, Y], p + 1;
    }
    assert vs[..numverts] == vs;
    inside := crossings % 2 == 1;
  }

  // ---------------------------------------------------------------------- symmetries

  lemma {:induction false} PathSplit(t: Point, a: seq<Point>, x: Point, b: seq<Point>)
    ensures PathCount(t, a + [x] + b) == PathCount(t, a + [x]) + PathCount(t, [x] + b)
    decreases |b|
  {
    if b == [] {
      assert a + [x] + b == a + [x];
      assert [x] + b == [x];
    } else {
      var init, v := b[..|b| - 1], b[|b| - 1];
      PathSplit(t, a, x, init);
      assert a + [x] + b == a + [x] + init + [v];
      assert [x] + b == [x] + init + [v];
      PathStep(t, a + [x] + init, v);
      PathStep(t, [x] + init, v);
      assert (a + [x] + init)[|a + [x] + init| - 1] == ([x] + init)[|[x] + init| - 1];
    }
  }

  /** Starting the vertex list at another vertex changes nothing. */
  lemma RotationInvariant(t: Point, u: seq<Point>, w: seq<Point>)
    requires u != [] && w != []
    ensures Crossings(t, u + w) == Crossings(t, w + u)
  {
    OpenTwo(t, u, w);
    OpenTwo(t, w, u);
  }

  lemma OpenTwo(t: Point, u: seq<Point>, w: seq<Point>)
    requires u != [] && w != []
    ensures Crossings(t, u + w) == PathCount(t, [w[|w| - 1]] + u) + PathCount(t, [u[|u| - 1]] + w)
  {
    var n := |u| - 1;
    var a := [w[|w| - 1]] + u[..n];
    assert u == u[..n] + [u[n]];
    assert [(u + w)[|u + w| - 1]] + (u + w) == a + [u[n]] + w;
    assert [w[|w| - 1]] + u == a + [u[n]];
    PathSplit(t, a, u[n], w);
  }

  /** The edge taken the other way crosses at the same place. */
  lemma EdgeSymmetric(t: Point, a: Point, b: Point)
    ensures EdgeCount(t, a, b) == EdgeCount(t, b, a)
  {
    if Straddles(t, a, b) {
      CrossingIsMean(t, a, b);
      CrossingIsMean(t, b, a);
      var c, c' := CrossingX(t, a, b), CrossingX(t, b, a);
      Opposite(c', b.y - a.y, a.y - b.y);
      Opposite(b.x, t.y - a.y, a.y - t.y);
      Opposite(a.x, b.y - t.y, t.y - b.y);
      CancelFactor(c, c', b.y - a.y);
    }
  }

  lemma Opposite(c: real, d: real, d': real)
    requires d' == -d
    ensures c * d' == -(c * d)
  {
  }

  lemma CancelFactor(c: real, c': real, d: real)
    requires d != 0.0 && c * d == c' * d
    ensures c == c'
  {
    assert (c - c') * d == c * d - c' * d;
  }

  function Reverse(vs: seq<Point>): seq<Point> {
    if vs == [] then [] else Reverse(vs[1..]) + [vs[0]]
  }

  lemma {:induction false} ReverseEnds(vs: seq<Point>)
    requires vs != []
    ensures var r := Reverse(vs); |r| == |vs| && r[0] == vs[|vs| - 1] && r[|r| - 1] == vs[0]
  {
    if |vs| > 1 {
      ReverseEnds(vs[1..]);
    } else {
      assert Reverse(vs[1..]) == [];
    }
  }

  lemma {:induction false} PathReverse(t: Point, vs: seq<Point>)
    ensures PathCount(t, Reverse(vs)) == PathCount(t, vs)
    decreases |vs|
  {
    if |vs| >= 2 {
      var rest := vs[1..];
      PathReverse(t, rest);
      ReverseEnds(rest);
      PathStep(t, Reverse(rest), vs[0]);
      EdgeSymmetric(t, vs[0], vs[1]);
      PathSplit(t, [vs[0]], vs[1], vs[2..]);
      assert [vs[0]] + [vs[1]] + vs[2..] == vs;
      assert [vs[1]] + vs[2..] == rest;
      PathStep(t, [vs[0]], vs[1]);
      assert PathCount(t, [vs[0]]) == 0;
    } else if |vs| == 1 {
      ReverseEnds(vs);
    }
  }

  /** Walking the polygon the other way round changes nothing. */
  lemma ReversalInvariant(t: Point, vs: seq<Point>)
    requires vs != []
    ensures Reverse(vs) != [] && Crossings(t, Reverse(vs)) == Crossings(t, vs)
  {
    ReverseEnds(vs);
    PathReverse(t, vs);
    ClosingEdge(t, vs);
    ClosingEdge(t, Reverse(vs));
    EdgeSymmetric(t, vs[|vs| - 1], vs[0]);
  }

  lemma ClosingEdge(t: Point, vs: seq<Point>)
    requires vs != []
    ensures Crossings(t, vs) == EdgeCount(t, vs[|vs| - 1], vs[0]) + PathCount(t, vs)
  {
    var last := vs[|vs| - 1];
    PathSplit(t, [last], vs[0], vs[1..]);
    assert [last] + [vs[0]] + vs[1..] == [last] + vs;
    assert [vs[0]] + vs[1..] == vs;
    PathStep(t, [last], vs[0]);
    assert PathCount(t, [last]) == 0;
  }

  // --------------------------------------------------------------------- subdivision

  function Between(a: Point, b: Point, k: real): Point {
    Point(a.x + k * (b.x - a.x), a.y + k * (b.y - a.y))
  }

  lemma BetweenSide(t: Point, a: Point, b: Point, k: real)
    requires 0.0 <= k <= 1.0 && Above(t, a) == Above(t, b)
    ensures Above(t, Between(a, b, k)) == Above(t, a)
  {
    var p, q := a.y - t.y, b.y - t.y;
    var c := Between(a, b, k).y - t.y;
    assert k * (b.y - a.y) == k * q - k * p;
    assert c * ((1.0 - k) + k) == p * (1.0 - k) + q * k;
    PositiveMean(c, p, q, 1.0 - k, k);
  }

  /** Two points of a line give the same crossing. */
  lemma SameLine(t: Point, a: Point, b: Point, k: real)
    requires a.y != b.y && k != 0.0 && Between(a, b, k).y != a.y
    ensures CrossingX(t, a, Between(a, b, k)) == CrossingX(t, a, b)
  {
    var c := Between(a, b, k);
    var dx, dy, h := b.x - a.x, b.y - a.y, a.y - t.y;
    assert c.x - a.x == k * dx && c.y - a.y == k * dy;
    var q, q' := h * dx / dy, h * (k * dx) / (k * dy);
    assert q * dy == h * dx;
    assert q' * (k * dy) == h * (k * dx);
    assert h * (k * dx) == k * (h * dx);
    assert q * (k * dy) == k * (q * dy);
    CancelFactor(q, q', k * dy);
  }

  /** A vertex added anywhere on an edge is not noticed. */
  lemma EdgeSubdivision(t: Point, a: Point, b: Point, k: real)
    requires 0.0 <= k <= 1.0
    ensures var c := Between(a, b, k);
            EdgeCount(t, a, c) + EdgeCount(t, c, b) == EdgeCount(t, a, b)
  {
    var c := Between(a, b, k);
    if Above(t, a) == Above(t, b) {
      BetweenSide(t, a, b, k);
    } else if Straddles(t, a, c) {
      SameLine(t, a, b, k);
    } else {
      BetweenBack(a, b, k);
      SameLine(t, b, a, 1.0 - k);
      EdgeSymmetric(t, b, c);
      EdgeSymmetric(t, a, b);
    }
  }

  lemma BetweenBack(a: Point, b: Point, k: real)
    ensures Between(b, a, 1.0 - k) == Between(a, b, k)
  {
    assert (1.0 - k) * (a.x - b.x) == (a.x - b.x) + k * (b.x - a.x);
    assert (1.0 - k) * (a.y - b.y) == (a.y - b.y) + k * (b.y - a.y);
  }

  lemma SubdivisionInvariant(t: Point, u: seq<Point>, a: Point, b: Point, w: seq<Point>, k: real)
    requires 0.0 <= k <= 1.0
    ensures Crossings(t, u + [a, Between(a, b, k), b] + w) == Crossings(t, u + [a, b] + w)
  {
    hide PathCount, EdgeCount, Between;
    var c := Between(a, b, k);
    EdgeSubdivision(t, a, b, k);
    SmallPaths(t, a, c, b);
    var last := (u + [a, b] + w)[|u + [a, b] + w| - 1];
    ThreePart(t, [last] + u, [a, c, b], w, [last] + (u + [a, c, b] + w));
    ThreePart(t, [last] + u, [a, b], w, [last] + (u + [a, b] + w));
  }

  /** A path through a middle piece, counted in three parts that share their end points. */
  lemma ThreePart(t: Point, p: seq<Point>, m: seq<Point>, w: seq<Point>, path: seq<Point>)
    requires |m| >= 2 && path == p + m + w
    ensures PathCount(t, path) == PathCount(t, p + [m[0]]) + PathCount(t, m) + PathCount(t, [m[|m| - 1]] + w)
  {
    hide PathCount;
    var z := |m| - 1;
    PathSplit(t, p, m[0], m[1..] + w);
    assert path == p + [m[0]] + (m[1..] + w);
    PathSplit(t, m[..z], m[z], w);
    assert [m[0]] + (m[1..] + w) == m[..z] + [m[z]] + w;
    assert m[..z] + [m[z]] == m;
  }

  lemma SmallPaths(t: Point, a: Point, c: Point, b: Point)
    ensures PathCount(t, [a, b]) == EdgeCount(t, a, b)
    ensures PathCount(t, [a, c, b]) == EdgeCount(t, a, c) + EdgeCount(t, c, b)
  {
    PathStep(t, [a], b);
    PathStep(t, [a], c);
    PathStep(t, [a, c], b);
    assert [a] + [b] == [a, b] && [a] + [c] == [a, c] && [a, c] + [b] == [a, c, b];
  }

  // ------------------------------------------------------------------- ray direction

  function LeftCount(t: Point, a: Point, b: Point): nat {
    if Straddles(t, a, b) && !Crosses(t, a, b) then 1 else 0
  }

  function LeftPath(t: Point, path: seq<Point>): nat {
    if |path| < 2 then 0 else LeftPath(t, path[..|path| - 1]) + LeftCount(t, path[|path| - 2], path[|path| - 1])
  }

  /** A path changes sides an odd number of times exactly when its ends lie on different sides. */
  lemma {:induction false} SidesParity(t: Point, path: seq<Point>)
    requires path != []
    ensures (PathCount(t, path) + LeftPath(t, path)) % 2 ==
            if Straddles(t, path[0], path[|path| - 1]) then 1 else 0
  {
    if |path| > 1 {
      var init := path[..|path| - 1];
      SidesParity(t, init);
      assert init[|init| - 1] == path[|path| - 2];
    }
  }

  /** The verdict does not depend on which way the ray is drawn. */
  lemma RayDirectionIrrelevant(t: Point, vs: seq<Point>)
    requires vs != []
    ensures Inside(t, vs) <==> LeftPath(t, [vs[|vs| - 1]] + vs) % 2 == 1
  {
    SidesParity(t, [vs[|vs| - 1]] + vs);
  }

  // ------------------------------------------------------------------- a shape to try it on

  /** An edge along the horizontal is never counted, one across it where it stands. */
  lemma StraightEdges(t: Point, a: Point, b: Point)
    ensures a.y == b.y ==> EdgeCount(t, a, b) == 0
    ensures a.x == b.x ==> EdgeCount(t, a, b) == if Above(t, a) != Above(t, b) && a.x >= t.x then 1 else 0
  {
    if a.x == b.x && a.y != b.y {
      assert b.x - a.x == 0.0;
      assert (a.y - t.y) * 0.0 == 0.0;
    }
  }

  /** A rectangle holds its inside, with its right and upper sides and without its left and lower ones. */
  lemma RectangleIs(t: Point, x0: real, x1: real, y0: real, y1: real)
    requires x0 <= x1 && y0 <= y1
    ensures Inside(t, [Point(x0, y0), Point(x1, y0), Point(x1, y1), Point(x0, y1)]) <==>
            x0 < t.x <= x1 && y0 < t.y <= y1
  {
    var a, b, c, d := Point(x0, y0), Point(x1, y0), Point(x1, y1), Point(x0, y1);
    hide EdgeCount;
    StraightEdges(t, d, a);
    StraightEdges(t, a, b);
    StraightEdges(t, b, c);
    StraightEdges(t, c, d);
    FourEdges(t, a, b, c, d);
  }

  lemma FourEdges(t: Point, a: Point, b: Point, c: Point, d: Point)
    ensures Crossings(t, [a, b, c, d]) ==
            EdgeCount(t, d, a) + EdgeCount(t, a, b) + EdgeCount(t, b, c) + EdgeCount(t, c, d)
  {
    hide EdgeCount;
    assert [[a, b, c, d][3]] + [a, b, c, d] == [d, a, b, c, d];
    PathStep(t, [d], a);
    PathStep(t, [d, a], b);
    PathStep(t, [d, a, b], c);
    PathStep(t, [d, a, b, c], d);
    assert [d] + [a] == [d, a] && [d, a] + [b] == [d, a, b];
    assert [d, a, b] + [c] == [d, a, b, c] && [d, a, b, c] + [d] == [d, a, b, c, d];
  }
}
