/** Geometric primitives of the mesh generator: points, vectors, polylines
    (`Line`), and the quadrilateral `Cell` and `Patch` containers.

    Coordinates are exact reals. The Euclidean distance (a square root in the
    source) is an abstract parameter `dist` that is only assumed symmetric and
    non-negative. */
module Geometry {
  import opened Wrappers

  datatype Point = Point(x: real, y: real)

  /** `int(np.sign(v))`. */
  function Sign(v: real): (s: int)
    ensures -1 <= s <= 1
    ensures (s as real) * v >= 0.0
    ensures s == 0 <==> v == 0.0
  {
    if v > 0.0 then 1 else if v < 0.0 then -1 else 0
  }

  function Abs(v: real): (a: real)
    ensures a >= 0.0 && (a == v || a == -v)
  {
    if v < 0.0 then -v else v
  }

  /** `s[::-1]`. */
  function Rev<T>(s: seq<T>): (r: seq<T>)
    ensures |r| == |s|
    ensures forall i :: 0 <= i < |s| ==> r[i] == s[|s| - 1 - i]
  {
    seq(|s|, i requires 0 <= i < |s| => s[|s| - 1 - i])
  }

  lemma RevRev<T>(s: seq<T>)
    ensures Rev(Rev(s)) == s
  {
  }

  // ---------------------------------------------------------------- Vector

  /** A point seen from a non-trivial origin, with the sign pair of its offset. */
  datatype Vector = Vector(x: real, y: real, xorigin: real, yorigin: real,
                           xnorm: real, ynorm: real, quadrant: (int, int))

  /** `Vector(xy, origin)`: the offset from the origin and its sign quadrant. */
  function NewVector(xy: Point, origin: Point): (v: Vector)
    ensures v.x == xy.x && v.y == xy.y && v.xorigin == origin.x && v.yorigin == origin.y
    ensures v.xorigin + v.xnorm == v.x && v.yorigin + v.ynorm == v.y
    ensures -1 <= v.quadrant.0 <= 1 && -1 <= v.quadrant.1 <= 1
    ensures (v.quadrant.0 as real) * v.xnorm == Abs(v.xnorm)
    ensures (v.quadrant.1 as real) * v.ynorm == Abs(v.ynorm)
    ensures v.quadrant.0 == 0 <==> xy.x == origin.x
    ensures v.quadrant.1 == 0 <==> xy.y == origin.y
  {
    var xn := xy.x - origin.x;
    var yn := xy.y - origin.y;
    Vector(xy.x, xy.y, origin.x, origin.y, xn, yn, (Sign(xn), Sign(yn)))
  }

  /** Moving the point and the origin by the same amount changes neither the
      offset nor the quadrant. */
  lemma VectorTranslationInvariant(xy: Point, origin: Point, dx: real, dy: real)
    ensures var v := NewVector(xy, origin);
            var w := NewVector(Point(xy.x + dx, xy.y + dy), Point(origin.x + dx, origin.y + dy));
            w.xnorm == v.xnorm && w.ynorm == v.ynorm && w.quadrant == v.quadrant
  {
  }

  // ------------------------------------------------------------------ Line

  /** The abstract Euclidean distance between two samples. */
  type Distance = (Point, Point) -> real

  ghost predicate IsDistance(dist: Distance) {
    forall a, b :: dist(a, b) >= 0.0 && dist(a, b) == dist(b, a)
  }

  /** A polyline. `xval`, `yval` and `length` are taken once, when the line
      is built, and are never refreshed afterwards. */
  datatype Line = Line(p: seq<Point>, xval: seq<real>, yval: seq<real>, length: real)

  function Xs(ps: seq<Point>): (xs: seq<real>)
    ensures |xs| == |ps| && forall i :: 0 <= i < |ps| ==> xs[i] == ps[i].x
  {
    seq(|ps|, i requires 0 <= i < |ps| => ps[i].x)
  }

  function Ys(ps: seq<Point>): (ys: seq<real>)
    ensures |ys| == |ps| && forall i :: 0 <= i < |ps| ==> ys[i] == ps[i].y
  {
    seq(|ps|, i requires 0 <= i < |ps| => ps[i].y)
  }

  /** `calc_length`: the sum of the distances between consecutive samples. */
  function PathLength(ps: seq<Point>, dist: Distance): (l: real)
    requires IsDistance(dist)
    ensures |ps| < 2 ==> l == 0.0
    ensures l >= 0.0
    ensures |ps| >= 2 ==> l >= dist(ps[0], ps[1])
    decreases |ps|
  {
    if |ps| < 2 then 0.0 else dist(ps[0], ps[1]) + PathLength(ps[1..], dist)
  }

  /** The snapshot fields agree with the point list, as right after construction. */
  ghost predicate Fresh(l: Line, dist: Distance)
    requires IsDistance(dist)
  {
    l.xval == Xs(l.p) && l.yval == Ys(l.p) && l.length == PathLength(l.p, dist)
  }

  /** `Line(points)`. */
  function NewLine(ps: seq<Point>, dist: Distance): (l: Line)
    requires IsDistance(dist)
    ensures l.p == ps && Fresh(l, dist)
  {
    Line(ps, Xs(ps), Ys(ps), PathLength(ps, dist))
  }

  /** `reverse`: reverses the point list in place; the snapshot stays. */
  function Reverse(l: Line): (r: Line)
    ensures r.p == Rev(l.p)
    ensures r.xval == l.xval && r.yval == l.yval && r.length == l.length
  {
    l.(p := Rev(l.p))
  }

  /** `reverse_copy`: a new line over the reversed point list. */
  function ReverseCopy(l: Line, dist: Distance): (r: Line)
    requires IsDistance(dist)
    ensures r.p == Rev(l.p)
    ensures r.length == PathLength(l.p, dist)
  {
    PathLengthReverse(l.p, dist);
    NewLine(Rev(l.p), dist)
  }

  /** Appending one sample adds exactly the last gap to the length. */
  lemma {:induction false} PathLengthSnoc(ps: seq<Point>, q: Point, dist: Distance)
    requires IsDistance(dist)
    requires |ps| >= 1
    ensures PathLength(ps + [q], dist) == PathLength(ps, dist) + dist(ps[|ps| - 1], q)
    decreases |ps|
  {
    if |ps| == 1 {
      assert (ps + [q])[1..] == [q];
    } else {
      assert (ps + [q])[1..] == ps[1..] + [q];
      PathLengthSnoc(ps[1..], q, dist);
    }
  }

  /** The length does not depend on the direction of travel. */
  lemma {:induction false} PathLengthReverse(ps: seq<Point>, dist: Distance)
    requires IsDistance(dist)
    ensures PathLength(Rev(ps), dist) == PathLength(ps, dist)
    decreases |ps|
  {
    if |ps| >= 2 {
      var tail := ps[1..];
      assert Rev(ps) == Rev(tail) + [ps[0]];
      PathLengthReverse(tail, dist);
      PathLengthSnoc(Rev(tail), ps[0], dist);
      assert Rev(tail)[|tail| - 1] == ps[1];
    }
  }

  /** `reverse_copy` reverses the samples, builds a freshly measured line of the
      same length, and undoes itself. */
  lemma ReverseCopyLaws(l: Line, dist: Distance)
    requires IsDistance(dist)
    ensures ReverseCopy(l, dist).p == Rev(l.p)
    ensures Fresh(ReverseCopy(l, dist), dist)
    ensures Fresh(l, dist) ==> ReverseCopy(l, dist).length == l.length
    ensures ReverseCopy(ReverseCopy(l, dist), dist).p == l.p
    ensures Fresh(l, dist) ==> ReverseCopy(ReverseCopy(l, dist), dist) == l
  {
    PathLengthReverse(l.p, dist);
    RevRev(l.p);
  }

  /** In-place `reverse` flips the samples and is its own inverse, but keeps
      the coordinate arrays and the length taken at construction: after it,
      `xval` lists the x coordinates in the ORIGINAL order. */
  lemma ReverseKeepsSnapshot(l: Line, dist: Distance)
    requires IsDistance(dist)
    requires Fresh(l, dist)
    ensures Reverse(l).p == Rev(l.p)
    ensures Reverse(l).xval == Xs(l.p) && Reverse(l).yval == Ys(l.p)
    ensures Reverse(l).length == PathLength(Reverse(l).p, dist)
    ensures Reverse(Reverse(l)) == l
  {
    PathLengthReverse(l.p, dist);
    RevRev(l.p);
  }

  /** A concrete line whose snapshot is stale after `reverse`. */
  lemma ReverseLeavesStaleSnapshot(dist: Distance)
    requires IsDistance(dist)
    ensures var l := NewLine([Point(0.0, 0.0), Point(1.0, 0.0)], dist);
            Reverse(l).xval == [0.0, 1.0] && Xs(Reverse(l).p) == [1.0, 0.0]
            && !Fresh(Reverse(l), dist)
  {
    var l := NewLine([Point(0.0, 0.0), Point(1.0, 0.0)], dist);
    assert Xs(Reverse(l).p)[0] == 1.0;
  }

  /** `((p[0].x, p[0].y), (p[-1].x, p[-1].y))`; an empty line raises. */
  function Endpoints(l: Line): (r: Result<(Point, Point), Exception>)
    ensures r.Ok? <==> |l.p| > 0
    ensures r.Err? ==> r.error == IndexError
    ensures r.Ok? ==> r.value.0 == l.p[0] && r.value.1 == Rev(l.p)[0]
  {
    if |l.p| == 0 then Err(IndexError) else Ok((l.p[0], l.p[|l.p| - 1]))
  }

  /** `straighten`: the chord from the first to the last sample. */
  function Straighten(l: Line, dist: Distance): (r: Result<Line, Exception>)
    requires IsDistance(dist)
    ensures r.Err? <==> |l.p| == 0
    ensures r.Err? ==> r.error == IndexError
    ensures r.Ok? ==> |r.value.p| == 2 && Fresh(r.value, dist) && Endpoints(r.value) == Endpoints(l)
  {
    if |l.p| == 0 then Err(IndexError) else Ok(NewLine([l.p[0], l.p[|l.p| - 1]], dist))
  }

  /** The chord is a two-sample line with the same end points, measured as
      one gap; an empty line raises. */
  lemma ChordLaws(l: Line, dist: Distance)
    requires IsDistance(dist)
    ensures Straighten(l, dist).Ok? <==> |l.p| > 0
    ensures Straighten(l, dist).Ok? ==>
              var c := Straighten(l, dist).value;
              |c.p| == 2 && Endpoints(c) == Endpoints(l)
              && c.length == dist(l.p[0], l.p[|l.p| - 1])
  {
    if |l.p| > 0 {
      var c := NewLine([l.p[0], l.p[|l.p| - 1]], dist);
      assert c.p[1..] == [l.p[|l.p| - 1]];
    }
  }

  /** `points()` fails exactly on an empty line; a line reversed by copy
      reports its end points swapped. */
  lemma EndpointsLaws(l: Line, dist: Distance)
    requires IsDistance(dist)
    ensures Endpoints(l).Ok? <==> |l.p| > 0
    ensures Endpoints(l).Ok? ==>
              var e := Endpoints(l).value;
              Endpoints(ReverseCopy(l, dist)) == Ok((e.1, e.0))
  {
  }

  // ----------------------------------------------------------------- fluff

  /** The k-th of `num` equally spaced values from `a` towards `b`. */
  function Lerp(a: real, b: real, k: nat, num: nat): real
    requires k < num
  {
    a + (k as real) * (b - a) / (num as real)
  }

  /** `np.linspace(a, b, num, endpoint=False)`. */
  function Linspace(a: real, b: real, num: nat): (r: seq<real>)
    ensures |r| == num
    ensures forall k :: 0 <= k < num ==> r[k] == Lerp(a, b, k, num)
  {
    seq(num, k requires 0 <= k < num => Lerp(a, b, k, num))
  }

  /** The appended linspace blocks of `fluff`, one per pair of neighbours. */
  function FluffSegments(xs: seq<real>, num: nat): (r: seq<real>)
    requires |xs| >= 1
    ensures |r| == (|xs| - 1) * num
    decreases |xs|
  {
    if |xs| == 1 then []
    else FluffSegments(xs[..|xs| - 1], num) + Linspace(xs[|xs| - 2], xs[|xs| - 1], num)
  }

  /** `fluff` on one coordinate array: the blocks, then the last sample. An
      empty array raises IndexError; a negative `num` makes numpy raise
      ValueError as soon as one block is built. */
  function FluffAxis(xs: seq<real>, num: int): (r: Result<seq<real>, Exception>)
    ensures r.Ok? <==> |xs| >= 1 && (num >= 0 || |xs| == 1)
    ensures |xs| == 0 ==> r == Err(IndexError)
    ensures r.Ok? ==> |r.value| == (|xs| - 1) * (if num < 0 then 0 else num) + 1
    ensures r.Ok? ==> r.value[|r.value| - 1] == xs[|xs| - 1]
  {
    if |xs| == 0 then Err(IndexError)
    else if |xs| == 1 then Ok([xs[0]])
    else if num < 0 then Err(ValueError)
    else Ok(FluffSegments(xs, num) + [xs[|xs| - 1]])
  }

  /** `fluff(num)`: both resampled coordinate arrays, built from the snapshot
      `xval` / `yval`. The source's default is `num = 1000`; here `num` is
      always passed. */
  function Fluff(l: Line, num: int): (r: Result<(seq<real>, seq<real>), Exception>)
    requires |l.xval| == |l.yval|
    ensures r.Ok? <==> FluffAxis(l.xval, num).Ok?
    ensures r.Ok? ==> |r.value.0| == |r.value.1| && r.value.0 == FluffAxis(l.xval, num).value
    ensures r.Ok? ==> r.value.1 == FluffAxis(l.yval, num).value
  {
    match FluffAxis(l.xval, num)
    case Err(e) => Err(e)
    case Ok(xf) => Ok((xf, FluffAxis(l.yval, num).value))
  }

  lemma MulStep(i: nat, num: nat)
    ensures (i + 1) * num == i * num + num
  {
  }

  lemma MulMono(a: nat, b: nat, c: nat)
    requires a <= b
    ensures a * c <= b * c
  {
  }

  /** Entry `i*num + k` of the blocks interpolates between samples i and i+1. */
  lemma {:induction false} FluffSegmentsEntry(xs: seq<real>, num: nat, i: nat, k: nat)
    requires i + 1 < |xs| && k < num
    ensures i * num + k < |FluffSegments(xs, num)|
    ensures FluffSegments(xs, num)[i * num + k] == Lerp(xs[i], xs[i + 1], k, num)
    decreases |xs|
  {
    var init := xs[..|xs| - 1];
    var front := FluffSegments(init, num);
    var last := Linspace(xs[|xs| - 2], xs[|xs| - 1], num);
    assert FluffSegments(xs, num) == front + last;
    assert |front| == (|xs| - 2) * num;
    MulStep(i, num);
    if i + 2 < |xs| {
      MulMono(i + 1, |xs| - 2, num);
      assert i * num + k < |front|;
      FluffSegmentsEntry(init, num, i, k);
      assert init[i] == xs[i] && init[i + 1] == xs[i + 1];
    } else {
      assert i == |xs| - 2;
      assert i * num == |front|;
      assert (front + last)[i * num + k] == last[k];
    }
  }

  /** What `fluff` promises on a line with n >= 1 samples and num >= 1:
      (n-1)*num+1 entries; entry i*num+k is sample i moved k/num of the way to
      sample i+1; every original sample reappears at index i*num; the last
      entry is the last sample. */
  lemma FluffInterpolates(xs: seq<real>, num: nat, i: nat, k: nat)
    requires |xs| >= 1 && num >= 1
    ensures FluffAxis(xs, num).Ok?
    ensures |FluffAxis(xs, num).value| == (|xs| - 1) * num + 1
    ensures i + 1 < |xs| && k < num ==>
              FluffAxis(xs, num).value[i * num + k] == Lerp(xs[i], xs[i + 1], k, num)
    ensures i < |xs| ==> i * num < |FluffAxis(xs, num).value|
                         && FluffAxis(xs, num).value[i * num] == xs[i]
  {
    var f := FluffAxis(xs, num).value;
    assert |f| == (|xs| - 1) * num + 1;
    if i + 1 < |xs| && k < num {
      FluffSegmentsEntry(xs, num, i, k);
    }
    if i + 1 < |xs| {
      FluffSegmentsEntry(xs, num, i, 0);
    } else if i + 1 == |xs| {
      assert i * num == |f| - 1;
    }
  }

  /** `fluff` reads the snapshot, so an in-place `reverse` does not change it. */
  lemma FluffIgnoresReverse(l: Line, num: int)
    requires |l.xval| == |l.yval|
    ensures Fluff(Reverse(l), num) == Fluff(l, num)
  {
  }

  // ------------------------------------------------------- Cell and Patch

  /** A mesh cell: its lines are given in the order N, S, E, W. */
  datatype Cell = Cell(lines: seq<Line>, n: Line, s: Line, e: Line, w: Line)

  /** A patch: its lines are given clockwise, N, E, S, W; `p` is the border
      used for shading, the North samples followed by the South samples. */
  datatype Patch = Patch(lines: seq<Line>, n: Line, e: Line, s: Line, w: Line, p: seq<Point>)

  function NewCell(lines: seq<Line>): (r: Result<Cell, Exception>)
    ensures r.Ok? <==> |lines| >= 4
    ensures r.Err? ==> r.error == IndexError
    ensures r.Ok? ==> r.value.lines == lines && r.value.n == lines[0] && r.value.w == lines[3]
    ensures r.Ok? ==> r.value.s == lines[1] && r.value.e == lines[2]
  {
    if |lines| < 4 then Err(IndexError)
    else Ok(Cell(lines, lines[0], lines[1], lines[2], lines[3]))
  }

  function NewPatch(lines: seq<Line>): (r: Result<Patch, Exception>)
    ensures r.Ok? <==> |lines| >= 4
    ensures r.Err? ==> r.error == IndexError
    ensures r.Ok? ==> r.value.lines == lines && r.value.n == lines[0] && r.value.w == lines[3]
    ensures r.Ok? ==> r.value.e == lines[1] && r.value.s == lines[2] && r.value.p == lines[0].p + lines[2].p
  {
    if |lines| < 4 then Err(IndexError)
    else Ok(Patch(lines, lines[0], lines[1], lines[2], lines[3], lines[0].p + lines[2].p))
  }

  /** The same four lines give a Cell and a Patch whose East and South sides
      are swapped, and the patch border runs along North then South. */
  lemma CellPatchFieldOrder(lines: seq<Line>)
    ensures NewCell(lines).Ok? <==> |lines| >= 4
    ensures NewPatch(lines).Ok? <==> |lines| >= 4
    ensures |lines| >= 4 ==>
              var c := NewCell(lines).value;
              var q := NewPatch(lines).value;
              c.n == q.n && c.w == q.w && c.s == q.e && c.e == q.s
              && |q.p| == |q.n.p| + |q.s.p|
              && q.p[..|q.n.p|] == q.n.p && q.p[|q.n.p|..] == c.e.p
  {
  }
}
