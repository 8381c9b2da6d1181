/**
 * Snap resolution: the candidates near the pointer, gathered from points,
 * line midpoints, the grid and the axes through points, and the nearest one
 * in screen space, ties going to the earliest gathered.
 *
 * Distances are compared squared: the square root is monotone, so
 * `sqrt(d2) < 15` is `d2 < 225` and the order of two distances is the order
 * of their squares.
 */
module Snap {
  import opened Wrappers
  import opened Geometry

  /** Snap tolerance in screen pixels. */
  const SnapTolerance: real := 15.0

  /** Grid pitch in document units. */
  const GridSize: real := 20.0

  /** The pan/zoom transform from document space to screen space. */
  datatype View = View(zoom: real, panX: real, panY: real)

  /** A resolved pointer position and the snap point it came from, if any. */
  datatype Position = Position(x: real, y: real, snapPoint: Option<SnapPoint>)

  function Abs(v: real): real { if v < 0.0 then -v else v }

  /** `v * zoom + pan`. */
  function ToScreen(v: real, zoom: real, pan: real): real
  {
    v * zoom + pan
  }

  /** Squared screen distance from the pointer (x, y) to the document position (cx, cy). */
  function ScreenDist2(x: real, y: real, cx: real, cy: real, view: View): (d2: real)
    ensures d2 >= 0.0
  {
    var dx := ToScreen(x, view.zoom, view.panX) - ToScreen(cx, view.zoom, view.panX);
    var dy := ToScreen(y, view.zoom, view.panY) - ToScreen(cy, view.zoom, view.panY);
    dx * dx + dy * dy
  }

  /** A squared distance whose root is below the tolerance. */
  predicate Near(d2: real)
  {
    d2 < SnapTolerance * SnapTolerance
  }

  /** Squared screen distance from the pointer to a candidate: the sort key. */
  function Dist2(s: SnapPoint, x: real, y: real, view: View): real
  {
    ScreenDist2(x, y, s.x, s.y, view)
  }

  /** `Math.round`: the nearest integer, halves rounded up. */
  function Round(v: real): (n: int)
    ensures v - 0.5 < n as real <= v + 0.5
  {
    (v + 0.5).Floor
  }

  /** A difference below the tolerance in absolute value is one whose square is. */
  lemma AbsNearIffSquareNear(d: real)
    ensures Abs(d) < SnapTolerance <==> Near(d * d)
  {
    var a := Abs(d);
    assert d * d == a * a;
    if a < 15.0 {
      assert a * a <= a * 15.0;
      assert a * 15.0 < 15.0 * 15.0;
    } else {
      assert a * a >= a * 15.0;
      assert a * 15.0 >= 15.0 * 15.0;
    }
  }

  function PointSnapOf(p: Point): SnapPoint
  {
    SnapPoint(p.x, p.y, PointKind, Some(FromPoint(p)))
  }

  function MidpointSnapOf(l: Line): SnapPoint
  {
    SnapPoint((l.startPoint.x + l.endPoint.x) / 2.0, (l.startPoint.y + l.endPoint.y) / 2.0,
              MidpointKind, Some(FromLine(l)))
  }

  /** The axis snap on the horizontal line through `p`: the pointer's x, the point's y. */
  function HorizontalSnapOf(p: Point, x: real): SnapPoint
  {
    SnapPoint(x, p.y, AxisKind, Some(FromPoint(p)))
  }

  /** The axis snap on the vertical line through `p`: the point's x, the pointer's y. */
  function VerticalSnapOf(p: Point, y: real): SnapPoint
  {
    SnapPoint(p.x, y, AxisKind, Some(FromPoint(p)))
  }

  /** The grid intersection nearest to the pointer, per axis. */
  function GridSnapOf(x: real, y: real): (s: SnapPoint)
    ensures Abs(s.x - x) <= GridSize / 2.0 && Abs(s.y - y) <= GridSize / 2.0
    ensures s.kind == GridKind && s.source == None
  {
    var gx := Round(x / GridSize) as real * GridSize;
    var gy := Round(y / GridSize) as real * GridSize;
    assert x / GridSize - 0.5 <= Round(x / GridSize) as real <= x / GridSize + 0.5;
    assert y / GridSize - 0.5 <= Round(y / GridSize) as real <= y / GridSize + 0.5;
    SnapPoint(gx, gy, GridKind, None)
  }

  /** The point snaps, in the order of `points`: those of the points within tolerance. */
  function PointCandidates(points: seq<Point>, x: real, y: real, view: View): seq<SnapPoint>
  {
    if points == [] then []
    else
      var p := points[|points| - 1];
      PointCandidates(points[..|points| - 1], x, y, view)
      + if Near(ScreenDist2(x, y, p.x, p.y, view)) then [PointSnapOf(p)] else []
  }

  /** The point snaps are exactly the snaps of the points within tolerance. */
  lemma {:induction false} PointCandidatesExact(points: seq<Point>, x: real, y: real, view: View)
    ensures var r := PointCandidates(points, x, y, view);
            && (forall s :: s in r ==> s.kind == PointKind && Near(Dist2(s, x, y, view)))
            && (forall s :: s in r ==> exists p :: p in points && s == PointSnapOf(p))
            && (forall p :: p in points && Near(Dist2(PointSnapOf(p), x, y, view)) ==> PointSnapOf(p) in r)
            && ((forall p :: p in points ==> !Near(Dist2(PointSnapOf(p), x, y, view))) ==> r == [])
  {
    if points != [] {
      PointCandidatesExact(points[..|points| - 1], x, y, view);
      assert forall p :: p in points ==> p in points[..|points| - 1] || p == points[|points| - 1];
    }
  }

  /** The midpoint snaps, in the order of `lines`: those of the lines whose midpoint is within tolerance. */
  function MidpointCandidates(lines: seq<Line>, x: real, y: real, view: View): seq<SnapPoint>
  {
    if lines == [] then []
    else
      var m := MidpointSnapOf(lines[|lines| - 1]);
      MidpointCandidates(lines[..|lines| - 1], x, y, view)
      + if Near(ScreenDist2(x, y, m.x, m.y, view)) then [m] else []
  }

  /** The midpoint snaps are exactly the midpoints within tolerance. */
  lemma {:induction false} MidpointCandidatesExact(lines: seq<Line>, x: real, y: real, view: View)
    ensures var r := MidpointCandidates(lines, x, y, view);
            && (forall s :: s in r ==> s.kind == MidpointKind && Near(Dist2(s, x, y, view)))
            && (forall s :: s in r ==> exists l :: l in lines && s == MidpointSnapOf(l))
            && (forall l :: l in lines && Near(Dist2(MidpointSnapOf(l), x, y, view)) ==> MidpointSnapOf(l) in r)
            && ((forall l :: l in lines ==> !Near(Dist2(MidpointSnapOf(l), x, y, view))) ==> r == [])
  {
    if lines != [] {
      MidpointCandidatesExact(lines[..|lines| - 1], x, y, view);
      assert forall l :: l in lines ==> l in lines[..|lines| - 1] || l == lines[|lines| - 1];
    }
  }

  /** The grid snap, when the nearest grid intersection is within tolerance. */
  function GridCandidates(x: real, y: real, view: View): (r: seq<SnapPoint>)
    ensures |r| <= 1
    ensures forall s :: s in r ==> s.kind == GridKind && Near(Dist2(s, x, y, view))
    ensures r == [] <==> !Near(Dist2(GridSnapOf(x, y), x, y, view))
  {
    var g := GridSnapOf(x, y);
    if Near(ScreenDist2(x, y, g.x, g.y, view)) then [g] else []
  }

  /** The vertical screen offset of the pointer from the horizontal axis through `p`. */
  function HorizontalOffset(p: Point, y: real, view: View): real
  {
    Abs(ToScreen(y, view.zoom, view.panY) - ToScreen(p.y, view.zoom, view.panY))
  }

  /** The horizontal screen offset of the pointer from the vertical axis through `p`. */
  function VerticalOffset(p: Point, x: real, view: View): real
  {
    Abs(ToScreen(x, view.zoom, view.panX) - ToScreen(p.x, view.zoom, view.panX))
  }

  /** The axis snaps of one point: horizontal first, then vertical, each when within tolerance. */
  function AxisCandidatesOf(p: Point, x: real, y: real, view: View): seq<SnapPoint>
  {
    (if HorizontalOffset(p, y, view) < SnapTolerance then [HorizontalSnapOf(p, x)] else [])
    + (if VerticalOffset(p, x, view) < SnapTolerance then [VerticalSnapOf(p, y)] else [])
  }

  /** The screen distance of an axis snap is the pointer's offset from that axis. */
  lemma AxisDistances(p: Point, x: real, y: real, view: View)
    ensures Near(Dist2(HorizontalSnapOf(p, x), x, y, view)) <==> HorizontalOffset(p, y, view) < SnapTolerance
    ensures Near(Dist2(VerticalSnapOf(p, y), x, y, view)) <==> VerticalOffset(p, x, view) < SnapTolerance
  {
    var dx := ToScreen(x, view.zoom, view.panX) - ToScreen(p.x, view.zoom, view.panX);
    var dy := ToScreen(y, view.zoom, view.panY) - ToScreen(p.y, view.zoom, view.panY);
    assert Dist2(HorizontalSnapOf(p, x), x, y, view) == dy * dy;
    assert Dist2(VerticalSnapOf(p, y), x, y, view) == dx * dx;
    AbsNearIffSquareNear(dx);
    AbsNearIffSquareNear(dy);
  }

  /** The axis snaps, point by point in the order of `points`. */
  function AxisCandidates(points: seq<Point>, x: real, y: real, view: View): seq<SnapPoint>
  {
    if points == [] then []
    else AxisCandidates(points[..|points| - 1], x, y, view) + AxisCandidatesOf(points[|points| - 1], x, y, view)
  }

  /**
   * The axis snaps are exactly those of the axes through points that the
   * pointer is within tolerance of, and each lies within tolerance.
   */
  lemma {:induction false} AxisCandidatesExact(points: seq<Point>, x: real, y: real, view: View)
    ensures var r := AxisCandidates(points, x, y, view);
            && (forall s :: s in r ==> s.kind == AxisKind && Near(Dist2(s, x, y, view)))
            && (forall s :: s in r ==> exists p :: p in points && (s == HorizontalSnapOf(p, x) || s == VerticalSnapOf(p, y)))
            && (forall p :: p in points && HorizontalOffset(p, y, view) < SnapTolerance ==> HorizontalSnapOf(p, x) in r)
            && (forall p :: p in points && VerticalOffset(p, x, view) < SnapTolerance ==> VerticalSnapOf(p, y) in r)
            && ((forall p :: p in points ==>
                   HorizontalOffset(p, y, view) >= SnapTolerance && VerticalOffset(p, x, view) >= SnapTolerance)
                ==> r == [])
  {
    if points != [] {
      var p := points[|points| - 1];
      AxisCandidatesExact(points[..|points| - 1], x, y, view);
      AxisDistances(p, x, y, view);
      assert forall q :: q in points ==> q in points[..|points| - 1] || q == p;
    }
  }

  /** Every candidate, in generation order: points, midpoints, grid, axes. */
  function Candidates(x: real, y: real, points: seq<Point>, lines: seq<Line>, view: View): seq<SnapPoint>
  {
    PointCandidates(points, x, y, view) + MidpointCandidates(lines, x, y, view)
    + GridCandidates(x, y, view) + AxisCandidates(points, x, y, view)
  }

  /** Every candidate lies within tolerance of the pointer, and none is an intersection snap. */
  lemma CandidatesNear(x: real, y: real, points: seq<Point>, lines: seq<Line>, view: View)
    ensures forall s :: s in Candidates(x, y, points, lines, view) ==>
              Near(Dist2(s, x, y, view)) && s.kind != IntersectionKind
  {
    PointCandidatesExact(points, x, y, view);
    MidpointCandidatesExact(lines, x, y, view);
    AxisCandidatesExact(points, x, y, view);
  }

  /** `k` is the first index of `cs` whose key is minimal. */
  predicate IsFirstNearest<T>(cs: seq<T>, k: int, key: T -> real)
  {
    && 0 <= k < |cs|
    && (forall j :: 0 <= j < |cs| ==> key(cs[k]) <= key(cs[j]))
    && (forall j :: 0 <= j < k ==> key(cs[k]) < key(cs[j]))
  }

  /** Insert `s` before the first element of `sorted` whose key is at least its own: a stable insertion. */
  function Insert<T>(s: T, sorted: seq<T>, key: T -> real): (r: seq<T>)
    ensures |r| == |sorted| + 1
    ensures r[0] == s || (sorted != [] && r[0] == sorted[0])
    ensures sorted == [] || key(s) <= key(sorted[0]) ==> r[0] == s
    ensures sorted != [] && key(s) > key(sorted[0]) ==> r[0] == sorted[0]
  {
    if sorted == [] || key(s) <= key(sorted[0]) then [s] + sorted
    else [sorted[0]] + Insert(s, sorted[1..], key)
  }

  /**
   * Ascending order of `key`, equal keys keeping their original order: the
   * stable sort of `Array.prototype.sort`.
   */
  function SortByKey<T>(cs: seq<T>, key: T -> real): (r: seq<T>)
    ensures |r| == |cs|
  {
    if cs == [] then [] else Insert(cs[0], SortByKey(cs[1..], key), key)
  }

  /** The head of the stable sort is the first element with the least key. */
  lemma {:induction false} SortHeadIsFirstNearest<T>(cs: seq<T>, key: T -> real)
    requires cs != []
    ensures exists k :: IsFirstNearest(cs, k, key) && SortByKey(cs, key)[0] == cs[k]
  {
    if |cs| == 1 {
      assert IsFirstNearest(cs, 0, key);
    } else {
      var rest := cs[1..];
      SortHeadIsFirstNearest(rest, key);
      var k' :| IsFirstNearest(rest, k', key) && SortByKey(rest, key)[0] == rest[k'];
      if key(cs[0]) <= key(rest[k']) {
        assert IsFirstNearest(cs, 0, key);
      } else {
        assert forall j :: 1 <= j < |cs| ==> cs[j] == rest[j - 1];
        assert IsFirstNearest(cs, k' + 1, key);
      }
    }
  }

  /** The sort key of the snap engine: squared screen distance from the pointer. */
  function DistanceKey(x: real, y: real, view: View): SnapPoint -> real
  {
    s => Dist2(s, x, y, view)
  }

  /**
   * `findSnapPoints` as a value: the first element of the stable sort of the
   * candidates, or nothing when there is no candidate.
   */
  function SnapResult(x: real, y: real, points: seq<Point>, lines: seq<Line>, view: View): (r: seq<SnapPoint>)
    ensures |r| <= 1
  {
    var cs := Candidates(x, y, points, lines, view);
    if cs == [] then [] else
      SortByKey(cs, DistanceKey(x, y, view))[..1]
  }

  /**
   * The snap result is one of the candidates, nearest to the pointer, strictly
   * nearer than every candidate generated before it, and within tolerance;
   * there is a result exactly when there is a candidate.
   */
  lemma SnapResultIsFirstNearest(x: real, y: real, points: seq<Point>, lines: seq<Line>, view: View)
    ensures var cs := Candidates(x, y, points, lines, view);
            var r := SnapResult(x, y, points, lines, view);
            && (r == [] <==> cs == [])
            && (r != [] ==> exists k :: IsFirstNearest(cs, k, DistanceKey(x, y, view)) && r[0] == cs[k])
            && (r != [] ==> Near(Dist2(r[0], x, y, view)) && r[0].kind != IntersectionKind)
  {
    var cs := Candidates(x, y, points, lines, view);
    CandidatesNear(x, y, points, lines, view);
    if cs != [] {
      SortHeadIsFirstNearest(cs, DistanceKey(x, y, view));
      var k :| IsFirstNearest(cs, k, DistanceKey(x, y, view)) && SortByKey(cs, DistanceKey(x, y, view))[0] == cs[k];
      assert cs[k] in cs;
    }
  }

  /**
   * Far from everything, nothing snaps: when every point, every midpoint, the
   * nearest grid intersection and every axis through a point are at least the
   * tolerance away on screen, the result is empty.
   */
  lemma FarFromEverythingNoSnap(x: real, y: real, points: seq<Point>, lines: seq<Line>, view: View)
    requires forall p :: p in points ==> !Near(Dist2(PointSnapOf(p), x, y, view))
    requires forall p :: p in points ==>
               HorizontalOffset(p, y, view) >= SnapTolerance && VerticalOffset(p, x, view) >= SnapTolerance
    requires forall l :: l in lines ==> !Near(Dist2(MidpointSnapOf(l), x, y, view))
    requires !Near(Dist2(GridSnapOf(x, y), x, y, view))
    ensures SnapResult(x, y, points, lines, view) == []
  {
    PointCandidatesExact(points, x, y, view);
    MidpointCandidatesExact(lines, x, y, view);
    AxisCandidatesExact(points, x, y, view);
  }

  /**
   * For a point within tolerance, both its axis snaps are candidates and
   * neither is farther than the point snap itself.
   */
  lemma AxisNoFartherThanPoint(p: Point, x: real, y: real, points: seq<Point>, lines: seq<Line>, view: View)
    requires p in points && Near(Dist2(PointSnapOf(p), x, y, view))
    ensures HorizontalSnapOf(p, x) in Candidates(x, y, points, lines, view)
    ensures VerticalSnapOf(p, y) in Candidates(x, y, points, lines, view)
    ensures Dist2(HorizontalSnapOf(p, x), x, y, view) <= Dist2(PointSnapOf(p), x, y, view)
    ensures Dist2(VerticalSnapOf(p, y), x, y, view) <= Dist2(PointSnapOf(p), x, y, view)
  {
    AxisSnapsNoFarther(p, x, y, view);
    AxisDistances(p, x, y, view);
    AxisCandidatesExact(points, x, y, view);
  }

  /** Each axis snap of a point is no farther from the pointer than the point itself. */
  lemma AxisSnapsNoFarther(p: Point, x: real, y: real, view: View)
    ensures Dist2(HorizontalSnapOf(p, x), x, y, view) <= Dist2(PointSnapOf(p), x, y, view)
    ensures Dist2(VerticalSnapOf(p, y), x, y, view) <= Dist2(PointSnapOf(p), x, y, view)
  {
    var dx := ToScreen(x, view.zoom, view.panX) - ToScreen(p.x, view.zoom, view.panX);
    var dy := ToScreen(y, view.zoom, view.panY) - ToScreen(p.y, view.zoom, view.panY);
    SquareNonNegative(dx, Dist2(VerticalSnapOf(p, y), x, y, view));
    SquareNonNegative(dy, Dist2(HorizontalSnapOf(p, x), x, y, view));
  }

  /** A winning point snap is the snap of one of the points. */
  lemma WinningPointSnapIsOfAPoint(x: real, y: real, points: seq<Point>, lines: seq<Line>, view: View)
    requires SnapResult(x, y, points, lines, view) != []
    requires SnapResult(x, y, points, lines, view)[0].kind == PointKind
    ensures exists p :: p in points && SnapResult(x, y, points, lines, view)[0] == PointSnapOf(p)
  {
    var s := SnapResult(x, y, points, lines, view)[0];
    SnapResultIsFirstNearest(x, y, points, lines, view);
    var k :| IsFirstNearest(Candidates(x, y, points, lines, view), k, DistanceKey(x, y, view))
             && s == Candidates(x, y, points, lines, view)[k];
    assert s in Candidates(x, y, points, lines, view);
    PointCandidatesExact(points, x, y, view);
    MidpointCandidatesExact(lines, x, y, view);
    AxisCandidatesExact(points, x, y, view);
    assert s in PointCandidates(points, x, y, view);
  }

  /** The winner is no farther than any candidate. */
  lemma WinnerNoFartherThanCandidates(x: real, y: real, points: seq<Point>, lines: seq<Line>, view: View)
    requires SnapResult(x, y, points, lines, view) != []
    ensures forall c :: c in Candidates(x, y, points, lines, view) ==>
              Dist2(SnapResult(x, y, points, lines, view)[0], x, y, view) <= Dist2(c, x, y, view)
  {
    var cs := Candidates(x, y, points, lines, view);
    var key := DistanceKey(x, y, view);
    SnapResultIsFirstNearest(x, y, points, lines, view);
    var k :| IsFirstNearest(cs, k, key) && SnapResult(x, y, points, lines, view)[0] == cs[k];
    forall c | c in cs
      ensures key(cs[k]) <= key(c)
    {
      var j :| 0 <= j < |cs| && cs[j] == c;
    }
  }

  /**
   * A point snap wins only when the pointer lies exactly on the point: anywhere
   * else one of the point's axis snaps is strictly nearer.
   */
  lemma PointSnapWinsOnlyOnThePoint(x: real, y: real, points: seq<Point>, lines: seq<Line>, view: View)
    requires view.zoom > 0.0
    requires SnapResult(x, y, points, lines, view) != []
    requires SnapResult(x, y, points, lines, view)[0].kind == PointKind
    ensures SnapResult(x, y, points, lines, view)[0].x == x
    ensures SnapResult(x, y, points, lines, view)[0].y == y
  {
    var s := SnapResult(x, y, points, lines, view)[0];
    WinningPointSnapIsOfAPoint(x, y, points, lines, view);
    var p :| p in points && s == PointSnapOf(p);
    SnapResultIsFirstNearest(x, y, points, lines, view);
    AxisNoFartherThanPoint(p, x, y, points, lines, view);
    WinnerNoFartherThanCandidates(x, y, points, lines, view);
    NoNearerAxisMeansOnPoint(p, x, y, view);
  }

  /** With a positive zoom, a point snap no farther than both axis snaps is under the pointer. */
  lemma NoNearerAxisMeansOnPoint(p: Point, x: real, y: real, view: View)
    requires view.zoom > 0.0
    requires Dist2(PointSnapOf(p), x, y, view) <= Dist2(HorizontalSnapOf(p, x), x, y, view)
    requires Dist2(PointSnapOf(p), x, y, view) <= Dist2(VerticalSnapOf(p, y), x, y, view)
    ensures p.x == x && p.y == y
  {
    var dx := ToScreen(x, view.zoom, view.panX) - ToScreen(p.x, view.zoom, view.panX);
    var dy := ToScreen(y, view.zoom, view.panY) - ToScreen(p.y, view.zoom, view.panY);
    assert Dist2(PointSnapOf(p), x, y, view) == dx * dx + dy * dy;
    assert Dist2(HorizontalSnapOf(p, x), x, y, view) == dy * dy;
    assert Dist2(VerticalSnapOf(p, y), x, y, view) == dx * dx;
    SumOfSquaresBelowEach(dx, dy, Dist2(VerticalSnapOf(p, y), x, y, view),
                          Dist2(HorizontalSnapOf(p, x), x, y, view), Dist2(PointSnapOf(p), x, y, view));
    ScreenInjective(x, p.x, view.zoom, view.panX);
    ScreenInjective(y, p.y, view.zoom, view.panY);
  }

  /** With a positive zoom, distinct document coordinates land on distinct screen coordinates. */
  lemma ScreenInjective(a: real, b: real, zoom: real, pan: real)
    requires zoom > 0.0
    ensures ToScreen(a, zoom, pan) == ToScreen(b, zoom, pan) ==> a == b
  {
    var d := a - b;
    assert ToScreen(a, zoom, pan) - ToScreen(b, zoom, pan) == d * zoom;
    if d > 0.0 {
      assert d * zoom > 0.0;
    } else if d < 0.0 {
      var e := -d;
      assert e * zoom > 0.0;
      assert d * zoom == -(e * zoom);
    }
  }

  /** A sum of two squares no larger than either square has both terms zero. */
  lemma SumOfSquaresBelowEach(a: real, b: real, sa: real, sb: real, total: real)
    requires sa == a * a && sb == b * b && total == sa + sb
    requires total <= sa && total <= sb
    ensures a == 0.0 && b == 0.0
  {
    SquareAtMostZero(a, sa);
    SquareAtMostZero(b, sb);
  }

  /** A square is never negative. */
  lemma SquareNonNegative(d: real, s: real)
    requires s == d * d
    ensures s >= 0.0
  {
    if d < 0.0 {
      var e := -d;
      calc {
        s;
        d * d;
        e * e;
      >
        0.0;
      }
    }
  }

  /** Only zero has a square that is not positive. */
  lemma SquareAtMostZero(d: real, s: real)
    requires s == d * d && s <= 0.0
    ensures d == 0.0
  {
    if d > 0.0 {
      calc {
        s;
        d * d;
      >
        0.0;
      }
    } else if d < 0.0 {
      var e := -d;
      calc {
        s;
        d * d;
        e * e;
      >
        0.0;
      }
    }
  }

  /**
   * Ties go to generation order: a grid snap wins only when every point and
   * midpoint candidate is strictly farther, so a point exactly as near as the
   * grid intersection wins over it.
   */
  lemma GridWinsOnlyStrictly(x: real, y: real, points: seq<Point>, lines: seq<Line>, view: View)
    requires SnapResult(x, y, points, lines, view) != []
    requires SnapResult(x, y, points, lines, view)[0].kind == GridKind
    ensures forall c :: c in PointCandidates(points, x, y, view) + MidpointCandidates(lines, x, y, view) ==>
              Dist2(SnapResult(x, y, points, lines, view)[0], x, y, view) < Dist2(c, x, y, view)
  {
    var before := PointCandidates(points, x, y, view) + MidpointCandidates(lines, x, y, view);
    var cs := Candidates(x, y, points, lines, view);
    var key := DistanceKey(x, y, view);
    SnapResultIsFirstNearest(x, y, points, lines, view);
    var k :| IsFirstNearest(cs, k, key) && SnapResult(x, y, points, lines, view)[0] == cs[k];
    assert cs == before + GridCandidates(x, y, view) + AxisCandidates(points, x, y, view);
    assert forall j :: 0 <= j < |before| ==> cs[j] == before[j];
    PointCandidatesExact(points, x, y, view);
    MidpointCandidatesExact(lines, x, y, view);
    assert |before| <= k;
    forall c | c in before
      ensures key(cs[k]) < key(c)
    {
      var j :| 0 <= j < |before| && before[j] == c;
      assert cs[j] == c;
    }
  }

  /** The first `forEach` of `findSnapPoints`: push a point snap for every point within tolerance. */
  method PushPointSnaps(snapPoints: seq<SnapPoint>, points: seq<Point>, x: real, y: real, view: View)
    returns (out: seq<SnapPoint>)
    ensures out == snapPoints + PointCandidates(points, x, y, view)
  {
    out := snapPoints;
    var i := 0;
    while i < |points|
      invariant 0 <= i <= |points|
      invariant out == snapPoints + PointCandidates(points[..i], x, y, view)
    {
      var point := points[i];
      if Near(ScreenDist2(x, y, point.x, point.y, view)) {
        out := out + [SnapPoint(point.x, point.y, PointKind, Some(FromPoint(point)))];
      }
      assert points[..i + 1][..i] == points[..i];
      i := i + 1;
    }
    assert points[..i] == points;
  }

  /** The second `forEach`: push a midpoint snap for every line whose midpoint is within tolerance. */
  method PushMidpointSnaps(snapPoints: seq<SnapPoint>, lines: seq<Line>, x: real, y: real, view: View)
    returns (out: seq<SnapPoint>)
    ensures out == snapPoints + MidpointCandidates(lines, x, y, view)
  {
    out := snapPoints;
    var i := 0;
    while i < |lines|
      invariant 0 <= i <= |lines|
      invariant out == snapPoints + MidpointCandidates(lines[..i], x, y, view)
    {
      var line := lines[i];
      var midX := (line.startPoint.x + line.endPoint.x) / 2.0;
      var midY := (line.startPoint.y + line.endPoint.y) / 2.0;
      if Near(ScreenDist2(x, y, midX, midY, view)) {
        out := out + [SnapPoint(midX, midY, MidpointKind, Some(FromLine(line)))];
      }
      assert lines[..i + 1][..i] == lines[..i];
      i := i + 1;
    }
    assert lines[..i] == lines;
  }

  /** The last `forEach`: for every point, push its horizontal and then its vertical axis snap when within tolerance. */
  method PushAxisSnaps(snapPoints: seq<SnapPoint>, points: seq<Point>, x: real, y: real, view: View)
    returns (out: seq<SnapPoint>)
    ensures out == snapPoints + AxisCandidates(points, x, y, view)
  {
    out := snapPoints;
    var i := 0;
    while i < |points|
      invariant 0 <= i <= |points|
      invariant out == snapPoints + AxisCandidates(points[..i], x, y, view)
    {
      var point := points[i];
      if HorizontalOffset(point, y, view) < SnapTolerance {
        out := out + [SnapPoint(x, point.y, AxisKind, Some(FromPoint(point)))];
      }
      if VerticalOffset(point, x, view) < SnapTolerance {
        out := out + [SnapPoint(point.x, y, AxisKind, Some(FromPoint(point)))];
      }
      assert points[..i + 1][..i] == points[..i];
      i := i + 1;
    }
    assert points[..i] == points;
  }

  /**
   * `findSnapPoints`: gather the candidates from the four sources in order, then
   * keep the first element of their stable sort by distance. `arcs` is accepted
   * and never read.
   */
  method FindSnapPoints(x: real, y: real, points: seq<Point>, lines: seq<Line>, arcs: seq<Arc>, view: View)
    returns (r: seq<SnapPoint>)
    ensures r == SnapResult(x, y, points, lines, view)
  {
    var snapPoints: seq<SnapPoint> := [];
    snapPoints := PushPointSnaps(snapPoints, points, x, y, view);
    snapPoints := PushMidpointSnaps(snapPoints, lines, x, y, view);
    var gridX := Round(x / GridSize) as real * GridSize;
    var gridY := Round(y / GridSize) as real * GridSize;
    if Near(ScreenDist2(x, y, gridX, gridY, view)) {
      snapPoints := snapPoints + [SnapPoint(gridX, gridY, GridKind, None)];
    }
    assert SnapPoint(gridX, gridY, GridKind, None) == GridSnapOf(x, y);
    snapPoints := PushAxisSnaps(snapPoints, points, x, y, view);
    assert snapPoints == Candidates(x, y, points, lines, view);
    if |snapPoints| > 0 {
      r := SortByKey(snapPoints, DistanceKey(x, y, view))[..1];
    } else {
      r := [];
    }
  }

  /**
   * `getSnapPosition`: the raw pointer when snapping is off or nothing snaps,
   * otherwise the winning snap point's position together with that snap point.
   */
  method GetSnapPosition(x: real, y: real, points: seq<Point>, lines: seq<Line>, arcs: seq<Arc>,
                         view: View, enableSnapping: bool)
    returns (pos: Position)
    ensures !enableSnapping ==> pos == Position(x, y, None)
    ensures enableSnapping && SnapResult(x, y, points, lines, view) == [] ==> pos == Position(x, y, None)
    ensures enableSnapping && SnapResult(x, y, points, lines, view) != [] ==>
              && pos.snapPoint == Some(SnapResult(x, y, points, lines, view)[0])
              && pos.x == pos.snapPoint.value.x && pos.y == pos.snapPoint.value.y
    ensures pos.snapPoint.Some? ==>
              Near(Dist2(pos.snapPoint.value, x, y, view)) && pos.snapPoint.value.kind != IntersectionKind
  {
    if !enableSnapping {
      return Position(x, y, None);
    }
    var snapPoints := FindSnapPoints(x, y, points, lines, arcs, view);
    SnapResultIsFirstNearest(x, y, points, lines, view);
    if |snapPoints| > 0 {
      var snap := snapPoints[0];
      return Position(snap.x, snap.y, Some(snap));
    }
    return Position(x, y, None);
  }
}
