/** Orientation and segment-intersection tests on straight lines. */
module Intersect {
  import opened Wrappers
  import opened Geometry

  // ----------------------------------------------------------- test2points

  /** Twice the signed area of the triangle (a, b, q): the quantity whose sign
      `test2points` reports. */
  function Cross(q: Point, a: Point, b: Point): real {
    (q.x - a.x) * (b.y - a.y) - (q.y - a.y) * (b.x - a.x)
  }

  /** `test2points(p1, p2, (a, b))`: the side of the line through a and b on
      which each point lies; different signs mean opposite sides. */
  function Test2Points(p1: Point, p2: Point, a: Point, b: Point): (r: (int, int))
    ensures -1 <= r.0 <= 1 && -1 <= r.1 <= 1
  {
    (Sign(Cross(p1, a, b)), Sign(Cross(p2, a, b)))
  }

  /** Either end point of the line, and any point of the line through them,
      lies on the line. */
  lemma Test2PointsOnLine(p2: Point, a: Point, b: Point, t: real)
    ensures Test2Points(a, p2, a, b).0 == 0
    ensures Test2Points(b, p2, a, b).0 == 0
    ensures Test2Points(Point(a.x + t * (b.x - a.x), a.y + t * (b.y - a.y)), p2, a, b).0 == 0
  {
    var q := Point(a.x + t * (b.x - a.x), a.y + t * (b.y - a.y));
    assert Cross(q, a, b) == t * (b.x - a.x) * (b.y - a.y) - t * (b.y - a.y) * (b.x - a.x);
  }

  /** Swapping the two points swaps the pair. */
  lemma Test2PointsSwap(p1: Point, p2: Point, a: Point, b: Point)
    ensures Test2Points(p2, p1, a, b) == (Test2Points(p1, p2, a, b).1, Test2Points(p1, p2, a, b).0)
  {
  }

  /** Walking the line the other way negates both signs. */
  lemma Test2PointsReverseLine(p1: Point, p2: Point, a: Point, b: Point)
    ensures Test2Points(p1, p2, b, a) == (-Test2Points(p1, p2, a, b).0, -Test2Points(p1, p2, a, b).1)
  {
    assert Cross(p1, b, a) == -Cross(p1, a, b);
    assert Cross(p2, b, a) == -Cross(p2, a, b);
  }

  /** Cross is affine along the segment p1 -> p2. */
  lemma CrossAlongSegment(p1: Point, p2: Point, a: Point, b: Point, t: real)
    ensures Cross(Point(p1.x + t * (p2.x - p1.x), p1.y + t * (p2.y - p1.y)), a, b)
            == (1.0 - t) * Cross(p1, a, b) + t * Cross(p2, a, b)
  {
  }

  /** Strictly opposite signs mean the segment p1 -> p2 crosses the line
      through a and b at an interior point. */
  lemma OppositeSignsCross(p1: Point, p2: Point, a: Point, b: Point)
    requires Test2Points(p1, p2, a, b).0 * Test2Points(p1, p2, a, b).1 == -1
    ensures var d1 := Cross(p1, a, b);
            var d2 := Cross(p2, a, b);
            var t := d1 / (d1 - d2);
            0.0 < t < 1.0
            && Cross(Point(p1.x + t * (p2.x - p1.x), p1.y + t * (p2.y - p1.y)), a, b) == 0.0
  {
    var d1 := Cross(p1, a, b);
    var d2 := Cross(p2, a, b);
    var t := d1 / (d1 - d2);
    assert d1 != d2;
    CrossAlongSegment(p1, p2, a, b, t);
    assert (1.0 - t) * d1 + t * d2 == d1 - t * (d1 - d2);
    assert t * (d1 - d2) == d1;
    if d1 > 0.0 {
      assert d2 < 0.0;
      assert d1 - d2 > d1;
    } else {
      assert d2 > 0.0;
      assert d1 - d2 < d1;
    }
  }

  // ---------------------------------------------------- segment_intersect

  /** A 2x2 matrix [[m00, m01], [m10, m11]]. */
  datatype Mat2 = Mat2(m00: real, m01: real, m10: real, m11: real)

  function Det(m: Mat2): real {
    m.m00 * m.m11 - m.m01 * m.m10
  }

  ghost predicate Solves(m: Mat2, v: (real, real), rhs: (real, real)) {
    m.m00 * v.0 + m.m01 * v.1 == rhs.0 && m.m10 * v.0 + m.m11 * v.1 == rhs.1
  }

  /** `np.linalg.solve` on a 2x2 system, by Cramer's rule; a singular matrix
      raises LinAlgError. */
  function Solve(m: Mat2, rhs: (real, real)): (r: Result<(real, real), Exception>)
    ensures r.Ok? <==> Det(m) != 0.0
    ensures r.Err? ==> r.error == LinAlgError
  {
    if Det(m) == 0.0 then Err(LinAlgError) else Ok(Cramer(m, rhs))
  }

  /** Cramer's rule for a non-singular 2x2 system. */
  function Cramer(m: Mat2, rhs: (real, real)): (real, real)
    requires Det(m) != 0.0
  {
    ((rhs.0 * m.m11 - m.m01 * rhs.1) / Det(m), (m.m00 * rhs.1 - m.m10 * rhs.0) / Det(m))
  }

  /** The solver's answer solves the system, and is its only solution. */
  lemma SolveContract(m: Mat2, rhs: (real, real))
    ensures Solve(m, rhs).Ok? ==> Solves(m, Solve(m, rhs).value, rhs)
    ensures Solve(m, rhs).Ok? ==> forall v :: Solves(m, v, rhs) ==> v == Solve(m, rhs).value
  {
    if Det(m) != 0.0 {
      SolveCorrect(m, rhs);
    }
  }

  lemma SolveCorrect(m: Mat2, rhs: (real, real))
    requires Det(m) != 0.0
    ensures Solves(m, Cramer(m, rhs), rhs)
    ensures forall w :: Solves(m, w, rhs) ==> w == Cramer(m, rhs)
  {
    var d := Det(m);
    var v := Cramer(m, rhs);
    assert v.0 * d == rhs.0 * m.m11 - m.m01 * rhs.1;
    assert v.1 * d == m.m00 * rhs.1 - m.m10 * rhs.0;
    assert (m.m00 * v.0 + m.m01 * v.1) * d == rhs.0 * d;
    assert (m.m10 * v.0 + m.m11 * v.1) * d == rhs.1 * d;
    CancelDet(m.m00 * v.0 + m.m01 * v.1, rhs.0, d);
    CancelDet(m.m10 * v.0 + m.m11 * v.1, rhs.1, d);
    forall w | Solves(m, w, rhs)
      ensures w == v
    {
      SolutionUnique(m, rhs, w);
      CancelDet(w.0, v.0, d);
      CancelDet(w.1, v.1, d);
    }
  }

  lemma CancelDet(a: real, b: real, d: real)
    requires d != 0.0 && a * d == b * d
    ensures a == b
  {
    assert (a - b) * d == 0.0;
  }

  /** Any solution satisfies the two Cramer identities. */
  lemma SolutionUnique(m: Mat2, rhs: (real, real), w: (real, real))
    requires Solves(m, w, rhs)
    ensures w.0 * Det(m) == rhs.0 * m.m11 - m.m01 * rhs.1
    ensures w.1 * Det(m) == m.m00 * rhs.1 - m.m10 * rhs.0
  {
    calc {
      w.0 * Det(m);
      w.0 * m.m00 * m.m11 - w.0 * m.m01 * m.m10;
      (m.m00 * w.0 + m.m01 * w.1) * m.m11 - (m.m10 * w.0 + m.m11 * w.1) * m.m01;
      rhs.0 * m.m11 - m.m01 * rhs.1;
    }
    calc {
      w.1 * Det(m);
      w.1 * m.m00 * m.m11 - w.1 * m.m01 * m.m10;
      (m.m10 * w.0 + m.m11 * w.1) * m.m00 - (m.m00 * w.0 + m.m01 * w.1) * m.m10;
      m.m00 * rhs.1 - m.m10 * rhs.0;
    }
  }

  predicate InUnitSquare(v: (real, real)) {
    0.0 <= v.0 <= 1.0 && 0.0 <= v.1 <= 1.0
  }

  /** The system exactly as `segment_intersect` assembles it: with P and Q
      the first two samples of line 1 and R and S those of line 2, the
      unpacking names xa = P.x, xb = R.x, xc = Q.x, xd = S.x (same for y);
      the matrix is [[xb - xa, xc - xd], [yb - ya, yc - yd]] and the right-hand
      side is (xc - xa, yc - ya). That is the intended system of the segments
      P -> R and Q -> S: the one joining the two lines' first samples and the
      one joining their second samples. */
  function AsWrittenSystem(p: Point, q: Point, r: Point, s: Point): (sys: (Mat2, (real, real)))
    ensures sys == IntendedSystem(p, r, q, s)
  {
    (Mat2(r.x - p.x, q.x - s.x, r.y - p.y, q.y - s.y), (q.x - p.x, q.y - p.y))
  }

  /** Whether both lines carry at least the two samples that are read. */
  predicate HasTwoSamples(l: Line) {
    |l.xval| >= 2 && |l.yval| >= 2
  }

  /** `segment_intersect(line1, line2)` as written: `Some(sol)` is the
      returned `(True, sol)`; `None` is the Python `None` the function falls
      through to, since the else branch has no `return`. */
  function SegmentIntersect(l1: Line, l2: Line): (res: Result<Option<(real, real)>, Exception>)
    ensures res.Err? ==> res.error in {IndexError, LinAlgError}
    ensures res.Ok? && res.value.Some? ==> InUnitSquare(res.value.value)
  {
    if !(HasTwoSamples(l1) && HasTwoSamples(l2)) then Err(IndexError)
    else
      var P, Q := Point(l1.xval[0], l1.yval[0]), Point(l1.xval[1], l1.yval[1]);
      var R, S := Point(l2.xval[0], l2.yval[0]), Point(l2.xval[1], l2.yval[1]);
      var sys := AsWrittenSystem(P, Q, R, S);
      match Solve(sys.0, sys.1)
      case Err(e) => Err(e)
      case Ok(sol) => if InUnitSquare(sol) then Ok(Some(sol)) else Ok(None)
  }

  /** What `segment_intersect` computes: an IndexError when a line has fewer
      than two samples; LinAlgError exactly when its matrix is singular;
      otherwise `(True, sol)` with M sol = r when the solution lies in the
      unit square, and `None` when it does not. */
  lemma SegmentIntersectContract(l1: Line, l2: Line)
    ensures var r := SegmentIntersect(l1, l2);
            && (!(HasTwoSamples(l1) && HasTwoSamples(l2)) <==> r == Err(IndexError))
            && (HasTwoSamples(l1) && HasTwoSamples(l2) ==>
                  var P, Q := Point(l1.xval[0], l1.yval[0]), Point(l1.xval[1], l1.yval[1]);
                  var R, S := Point(l2.xval[0], l2.yval[0]), Point(l2.xval[1], l2.yval[1]);
                  var sys := AsWrittenSystem(P, Q, R, S);
                  && (r == Err(LinAlgError) <==> Det(sys.0) == 0.0)
                  && (r.Ok? ==> forall v :: Solves(sys.0, v, sys.1) ==> (r.value.Some? <==> InUnitSquare(v)))
                  && (r.Ok? && r.value.Some? ==> Solves(sys.0, r.value.value, sys.1) && InUnitSquare(r.value.value)))
  {
    if HasTwoSamples(l1) && HasTwoSamples(l2) {
      var P, Q := Point(l1.xval[0], l1.yval[0]), Point(l1.xval[1], l1.yval[1]);
      var R, S := Point(l2.xval[0], l2.yval[0]), Point(l2.xval[1], l2.yval[1]);
      var sys := AsWrittenSystem(P, Q, R, S);
      SolveContract(sys.0, sys.1);
    }
  }

  /** Only the first two samples of each line are read. */
  lemma SegmentIntersectReadsTwoSamples(l1: Line, l2: Line, m1: Line, m2: Line)
    requires HasTwoSamples(l1) && HasTwoSamples(l2) && HasTwoSamples(m1) && HasTwoSamples(m2)
    requires l1.xval[..2] == m1.xval[..2] && l1.yval[..2] == m1.yval[..2]
    requires l2.xval[..2] == m2.xval[..2] && l2.yval[..2] == m2.yval[..2]
    ensures SegmentIntersect(l1, l2) == SegmentIntersect(m1, m2)
  {
    assert l1.xval[0] == l1.xval[..2][0] && l1.xval[1] == l1.xval[..2][1];
    assert l1.yval[0] == l1.yval[..2][0] && l1.yval[1] == l1.yval[..2][1];
    assert l2.xval[0] == l2.xval[..2][0] && l2.xval[1] == l2.xval[..2][1];
    assert l2.yval[0] == l2.yval[..2][0] && l2.yval[1] == l2.yval[..2][1];
  }

  /** Two-sample segment P -> Q. Its points and `xval`/`yval` agree; the
      `length` field is unused by `segment_intersect` and left at 0. */
  function Segment(p: Point, q: Point): Line {
    Line([p, q], [p.x, q.x], [p.y, q.y], 0.0)
  }

  /** On two fresh segments the call reduces to solving their system. */
  lemma SegmentIntersectOnSegments(p: Point, q: Point, r: Point, s: Point)
    ensures var sys := AsWrittenSystem(p, q, r, s);
            SegmentIntersect(Segment(p, q), Segment(r, s))
            == match Solve(sys.0, sys.1)
               case Err(e) => Err(e)
               case Ok(sol) => if InUnitSquare(sol) then Ok(Some(sol)) else Ok(None)
  {
  }

  lemma SingularSegments(p: Point, q: Point, r: Point, s: Point)
    requires Det(AsWrittenSystem(p, q, r, s).0) == 0.0
    ensures SegmentIntersect(Segment(p, q), Segment(r, s)) == Err(LinAlgError)
  {
  }

  /** As written, the crossing diagonals of the unit square make a singular
      system, so the call raises instead of reporting the crossing at (1/2, 1/2). */
  lemma XShapedPairIsSingular()
    ensures SegmentIntersect(Segment(Point(0.0, 0.0), Point(1.0, 1.0)),
                             Segment(Point(0.0, 1.0), Point(1.0, 0.0))) == Err(LinAlgError)
  {
    var sys := AsWrittenSystem(Point(0.0, 0.0), Point(1.0, 1.0), Point(0.0, 1.0), Point(1.0, 0.0));
    assert sys.0 == Mat2(0.0, 0.0, 1.0, 1.0);
    SingularSegments(Point(0.0, 0.0), Point(1.0, 1.0), Point(0.0, 1.0), Point(1.0, 0.0));
  }

  /** As written, a non-singular system whose solution leaves the unit square
      returns Python `None`, not a `(False, ...)` pair. */
  lemma MissReturnsNone()
    ensures SegmentIntersect(Segment(Point(0.0, 0.0), Point(1.0, 0.0)),
                             Segment(Point(0.0, 1.0), Point(0.0, 2.0))) == Ok(None)
  {
    var sys := AsWrittenSystem(Point(0.0, 0.0), Point(1.0, 0.0), Point(0.0, 1.0), Point(0.0, 2.0));
    assert sys == (Mat2(0.0, 1.0, 1.0, -2.0), (1.0, 0.0));
    assert Det(sys.0) == -1.0;
    assert Solve(sys.0, sys.1) == Ok((2.0, 1.0));
    SegmentIntersectOnSegments(Point(0.0, 0.0), Point(1.0, 0.0), Point(0.0, 1.0), Point(0.0, 2.0));
  }

  // ------------------------------------------------ the intended behaviour

  /** The answer the docstring describes: the segments meet, at parameters
      (s, t), or they do not. */
  datatype Meeting = Meet(s: real, t: real) | Apart

  function Along(p: Point, q: Point, s: real): Point {
    Point(p.x + s * (q.x - p.x), p.y + s * (q.y - p.y))
  }

  /** The system of the textbook construction: P + s (Q - P) == R + t (S - R). */
  function IntendedSystem(p: Point, q: Point, r: Point, s: Point): (Mat2, (real, real)) {
    (Mat2(q.x - p.x, r.x - s.x, q.y - p.y, r.y - s.y), (r.x - p.x, r.y - p.y))
  }

  lemma IntendedSystemMeaning(p: Point, q: Point, r: Point, s: Point, v: (real, real))
    ensures Solves(IntendedSystem(p, q, r, s).0, v, IntendedSystem(p, q, r, s).1)
            <==> Along(p, q, v.0) == Along(r, s, v.1)
  {
    var a, b := v.0, v.1;
    var u, w := Along(p, q, a), Along(r, s, b);
    assert u.x - w.x == (q.x - p.x) * a + (r.x - s.x) * b - (r.x - p.x);
    assert u.y - w.y == (q.y - p.y) * a + (r.y - s.y) * b - (r.y - p.y);
    assert u == w <==> u.x - w.x == 0.0 && u.y - w.y == 0.0;
  }

  /** `segment_intersect` with line 1 read as (P, Q) and line 2 as (R, S),
      and with the `return` of the miss branch in place. */
  function SegmentIntersectIntended(l1: Line, l2: Line): (res: Result<Meeting, Exception>)
    ensures res.Err? ==> res.error in {IndexError, LinAlgError}
    ensures res.Ok? && res.value.Meet? ==> 0.0 <= res.value.s <= 1.0 && 0.0 <= res.value.t <= 1.0
  {
    if !(HasTwoSamples(l1) && HasTwoSamples(l2)) then Err(IndexError)
    else
      var P, Q := Point(l1.xval[0], l1.yval[0]), Point(l1.xval[1], l1.yval[1]);
      var R, S := Point(l2.xval[0], l2.yval[0]), Point(l2.xval[1], l2.yval[1]);
      var sys := IntendedSystem(P, Q, R, S);
      match Solve(sys.0, sys.1)
      case Err(e) => Err(e)
      case Ok(sol) => if InUnitSquare(sol) then Ok(Meet(sol.0, sol.1)) else Ok(Apart)
  }

  /** The intended version reports a meeting exactly when the two segments
      share a point, with the parameters of that point on each segment. */
  lemma SegmentIntersectIntendedContract(l1: Line, l2: Line)
    ensures var r := SegmentIntersectIntended(l1, l2);
            && (!(HasTwoSamples(l1) && HasTwoSamples(l2)) <==> r == Err(IndexError))
            && (HasTwoSamples(l1) && HasTwoSamples(l2) ==>
                  var P, Q := Point(l1.xval[0], l1.yval[0]), Point(l1.xval[1], l1.yval[1]);
                  var R, S := Point(l2.xval[0], l2.yval[0]), Point(l2.xval[1], l2.yval[1]);
                  && (r == Err(LinAlgError) <==> Det(IntendedSystem(P, Q, R, S).0) == 0.0)
                  && (r.Ok? && r.value.Meet? ==>
                        InUnitSquare((r.value.s, r.value.t)) && Along(P, Q, r.value.s) == Along(R, S, r.value.t))
                  && (r.Ok? ==> (r.value.Apart? <==>
                        forall a, b :: InUnitSquare((a, b)) ==> Along(P, Q, a) != Along(R, S, b))))
  {
    if HasTwoSamples(l1) && HasTwoSamples(l2) {
      var P, Q := Point(l1.xval[0], l1.yval[0]), Point(l1.xval[1], l1.yval[1]);
      var R, S := Point(l2.xval[0], l2.yval[0]), Point(l2.xval[1], l2.yval[1]);
      var sys := IntendedSystem(P, Q, R, S);
      if Det(sys.0) != 0.0 {
        SolveContract(sys.0, sys.1);
        var sol := Solve(sys.0, sys.1).value;
        IntendedSystemMeaning(P, Q, R, S, sol);
        AllMeetingsSolve(P, Q, R, S, sol);
      }
    }
  }

  lemma AllMeetingsSolve(p: Point, q: Point, r: Point, s: Point, sol: (real, real))
    requires Solves(IntendedSystem(p, q, r, s).0, sol, IntendedSystem(p, q, r, s).1)
    requires Det(IntendedSystem(p, q, r, s).0) != 0.0
    ensures forall a, b :: Along(p, q, a) == Along(r, s, b) ==> (a, b) == sol
  {
    var sys := IntendedSystem(p, q, r, s);
    forall a, b | Along(p, q, a) == Along(r, s, b)
      ensures (a, b) == sol
    {
      IntendedSystemMeaning(p, q, r, s, (a, b));
      SolutionUnique(sys.0, sys.1, (a, b));
      SolutionUnique(sys.0, sys.1, sol);
      CancelDet(a, sol.0, Det(sys.0));
      CancelDet(b, sol.1, Det(sys.0));
    }
  }

  lemma SegmentIntersectIntendedOnSegments(p: Point, q: Point, r: Point, s: Point)
    ensures var sys := IntendedSystem(p, q, r, s);
            SegmentIntersectIntended(Segment(p, q), Segment(r, s))
            == match Solve(sys.0, sys.1)
               case Err(e) => Err(e)
               case Ok(sol) => if InUnitSquare(sol) then Ok(Meet(sol.0, sol.1)) else Ok(Apart)
  {
  }

  /** With the intended reading, the crossing diagonals of the unit square
      meet at their midpoints. */
  lemma IntendedCrossing()
    ensures SegmentIntersectIntended(Segment(Point(0.0, 0.0), Point(1.0, 1.0)),
                                     Segment(Point(0.0, 1.0), Point(1.0, 0.0))) == Ok(Meet(0.5, 0.5))
  {
    var sys := IntendedSystem(Point(0.0, 0.0), Point(1.0, 1.0), Point(0.0, 1.0), Point(1.0, 0.0));
    assert sys == (Mat2(1.0, -1.0, 1.0, 1.0), (0.0, 1.0));
    assert Det(sys.0) == 2.0;
    assert Solve(sys.0, sys.1) == Ok((0.5, 0.5));
    SegmentIntersectIntendedOnSegments(Point(0.0, 0.0), Point(1.0, 1.0), Point(0.0, 1.0), Point(1.0, 0.0));
  }

  /** With the intended reading, a miss is reported as `Apart`. */
  lemma IntendedMiss()
    ensures SegmentIntersectIntended(Segment(Point(0.0, 0.0), Point(1.0, 0.0)),
                                     Segment(Point(0.0, 1.0), Point(0.0, 2.0))) == Ok(Apart)
  {
    var sys := IntendedSystem(Point(0.0, 0.0), Point(1.0, 0.0), Point(0.0, 1.0), Point(0.0, 2.0));
    assert sys == (Mat2(1.0, 0.0, 0.0, -1.0), (0.0, 1.0));
    assert Det(sys.0) == -1.0;
    assert Solve(sys.0, sys.1) == Ok((0.0, -1.0));
    SegmentIntersectIntendedOnSegments(Point(0.0, 0.0), Point(1.0, 0.0), Point(0.0, 1.0), Point(0.0, 2.0));
  }

  lemma IntendedSingularSegments(p: Point, q: Point, r: Point, s: Point)
    requires Det(IntendedSystem(p, q, r, s).0) == 0.0
    ensures SegmentIntersectIntended(Segment(p, q), Segment(r, s)) == Err(LinAlgError)
  {
  }

  /** Parallel segments still make a singular system. */
  lemma IntendedParallel()
    ensures SegmentIntersectIntended(Segment(Point(0.0, 0.0), Point(1.0, 0.0)),
                                     Segment(Point(0.0, 1.0), Point(1.0, 1.0))) == Err(LinAlgError)
  {
    var sys := IntendedSystem(Point(0.0, 0.0), Point(1.0, 0.0), Point(0.0, 1.0), Point(1.0, 1.0));
    assert sys.0 == Mat2(1.0, -1.0, 0.0, 0.0);
    IntendedSingularSegments(Point(0.0, 0.0), Point(1.0, 0.0), Point(0.0, 1.0), Point(1.0, 1.0));
  }
}
