/** The patch-construction recipe of the two-X-point "SF45" topology: which
    traced or split line becomes which side of which of the 27 patches, the
    target-plate segments cut out of the four plates (with the limiter
    rotation as the fallback), and the plate flags that decide which
    patches are checked. The flux tracer and the line splitter are opaque:
    every traced line is an input, and splitting is a function parameter. */
module SF45Patches {
  import opened Wrappers
  import opened Geometry

  // ------------------------------------------------------------ Names

  /** The 27 patches: families A to I, rows 1 to 3. */
  datatype PatchName =
    | A1 | A2 | A3 | B1 | B2 | B3 | C1 | C2 | C3
    | D1 | D2 | D3 | E1 | E2 | E3 | F1 | F2 | F3
    | G1 | G2 | G3 | H1 | H2 | H3 | I1 | I2 | I3

  /** The sides of a patch, in the order a patch lists its lines. */
  datatype Side = N | E | S | W

  /** The patch's name as the recipe spells it (the dictionary key). */
  function Name(pn: PatchName): (s: string)
    ensures |s| == 2 && 'A' <= s[0] <= 'I' && '1' <= s[1] <= '3'
  {
    match pn
    case A1 => "A1" case A2 => "A2" case A3 => "A3"
    case B1 => "B1" case B2 => "B2" case B3 => "B3"
    case C1 => "C1" case C2 => "C2" case C3 => "C3"
    case D1 => "D1" case D2 => "D2" case D3 => "D3"
    case E1 => "E1" case E2 => "E2" case E3 => "E3"
    case F1 => "F1" case F2 => "F2" case F3 => "F3"
    case G1 => "G1" case G2 => "G2" case G3 => "G3"
    case H1 => "H1" case H2 => "H2" case H3 => "H3"
    case I1 => "I1" case I2 => "I2" case I3 => "I3"
  }

  /** Distinct patches have distinct names. */
  lemma NameInjective(p: PatchName, q: PatchName)
    ensures Name(p) == Name(q) <==> p == q
  {
  }

  /** The order in which the recipe lists the patches, which is also the
      insertion order of the patch dictionary. */
  const Order: seq<PatchName> :=
    [A3, A2, A1, B3, B2, B1, C3, C2, C1, D3, D2, D1, E3, E2, E1,
     F3, F2, F1, G3, G2, G1, H3, H2, H1, I3, I2, I1]

  /** The position of each patch in `Order`. */
  function Position(pn: PatchName): (i: nat)
    ensures i < |Order| && Order[i] == pn
  {
    match pn
    case A3 => 0 case A2 => 1 case A1 => 2 case B3 => 3 case B2 => 4 case B1 => 5
    case C3 => 6 case C2 => 7 case C1 => 8 case D3 => 9 case D2 => 10 case D1 => 11
    case E3 => 12 case E2 => 13 case E1 => 14 case F3 => 15 case F2 => 16 case F1 => 17
    case G3 => 18 case G2 => 19 case G1 => 20 case H3 => 21 case H2 => 22 case H1 => 23
    case I3 => 24 case I2 => 25 case I1 => 26
  }

  /** Every patch is listed exactly once. */
  lemma OrderIsComplete()
    ensures |Order| == 27
    ensures forall pn: PatchName :: pn in Order
    ensures forall i, j :: 0 <= i < j < |Order| ==> Order[i] != Order[j]
  {
    forall pn: PatchName
      ensures pn in Order
    {
      assert Order[Position(pn)] == pn;
    }
  }

  /** The sides that lie on a target plate: the West side of the A and H
      patches, the East side of the I and G patches. */
  predicate OnPlate(pn: PatchName, side: Side) {
    || (side == W && (pn.A1? || pn.A2? || pn.A3? || pn.H1? || pn.H2? || pn.H3?))
    || (side == E && (pn.I1? || pn.I2? || pn.I3? || pn.G1? || pn.G2? || pn.G3?))
  }

  // ------------------------------------------------------------ Inputs

  /** The 50 calls of the flux tracer, named after the variable that
      receives the traced line. An id ending in `Raw` is a traced line the
      recipe only uses through its reverse copy. */
  datatype TraceId =
    | Xpt1NCore | Xpt1NWWestMid | Xpt1NEEastMid | WestMidTop | EastMidTop
    | CoreWestMid | CoreEastMid | CoreWestMidTop | CoreEastMidTop
    | Xpt1PF1 | PF1WestPlate1 | PF1EastPlate1 | Xpt1WestPlate1 | Xpt1EastPlate1
    | F2E | F1E | I2N | Xpt2NEEastMid | F2W | Xpt2EastMidTop | Xpt2TopWestMid
    | Xpt2WestMidWestPlate1 | B2W | Xpt2PF2
    | G1SRaw | H1S | G1N | H1NRaw | G2N | H2NRaw | H3ERaw | H3NRaw | I3N
    | G3W | G3N | G3WEastMid | F3W | D3NRaw | C3NRaw | WestMidWestPlate1 | B3W
    | B1E | B2E | B3E | C1E | C2E | C3E | E1WRaw | E2WRaw | E3WRaw

  /** The flux tracer's line for each call. */
  type Tracer = TraceId -> Line

  /** The four target plates (copies of the limiter, or the plate data). */
  datatype Plates = Plates(west1: Line, west2: Line, east1: Line, east2: Line)

  /** `line.split(point, add_split_point)`: the two halves, or the
      exception the splitter raises. */
  type Splitter = (Line, Point, bool) -> Result<(Line, Line), Exception>

  /** `find_split_index(point, line)`, first component only. */
  type SplitIndex = (Point, Line) -> int

  /** `line.p[0]`. */
  function First(l: Line): (r: Result<Point, Exception>)
    ensures r.Ok? <==> |l.p| > 0
    ensures r.Ok? ==> r.value == l.p[0]
  {
    if |l.p| == 0 then Err(IndexError) else Ok(l.p[0])
  }

  /** `line.p[-1]`. */
  function Last(l: Line): (r: Result<Point, Exception>)
    ensures r.Ok? <==> |l.p| > 0
    ensures r.Ok? ==> r.value == l.p[|l.p| - 1]
  {
    if |l.p| == 0 then Err(IndexError) else Ok(l.p[|l.p| - 1])
  }

  /** The first point of a reverse copy is the last point of the original. */
  lemma FirstOfReverse(l: Line, dist: Distance)
    requires IsDistance(dist)
    ensures First(ReverseCopy(l, dist)) == Last(l)
  {
  }

  // ------------------------------------------------------------ Splits

  /** The halves of the seven splits inside the recipe. */
  datatype SplitLines = SplitLines(
    f1N: Line, i1N: Line,   // xpt1__EastPlate1 split where I2_W starts
    i1S: Line, f1S: Line,   // reversed psiMinPF1__EastPlate1 split where I1_W starts
    e2N: Line, f2N: Line,   // reversed xpt2NE__east_midLine split where F2_W ends
    a2N: Line, b2N: Line,   // reversed xpt2__west_midLine__WestPlate1 split where B2_W ends
    g1W: Line, g2W: Line,   // reversed xpt2__psiMinPF2 split at its middle sample
    e3N: Line, f3N: Line,   // reversed G3_W__east_midLine split where F3_W ends
    a3N: Line, b3N: Line)   // reversed west_midLine__WestPlate1 split where B3_W ends

  /** One split with the split point added to both halves; an IndexError
      from reading the split point comes first. */
  function SplitAt(l: Line, at: Result<Point, Exception>, split: Splitter): (r: Result<(Line, Line), Exception>)
    ensures at.Err? ==> r == Err(IndexError)
    ensures at.Ok? ==> r == split(l, at.value, true)
  {
    match at
    case Err(_) => Err(IndexError)
    case Ok(q) => split(l, q, true)
  }

  /** `xpt2__psiMinPF2.p[len(xpt2__psiMinPF2.p) // 2]`: the middle sample,
      the later of the two middle ones when the count is even. */
  function Middle(l: Line): (r: Result<Point, Exception>)
    ensures r.Ok? <==> |l.p| > 0
    ensures r.Ok? ==> exists i :: 0 <= i < |l.p| && r.value == l.p[i] && |l.p| - 1 <= 2 * i <= |l.p|
  {
    if |l.p| == 0 then Err(IndexError) else Ok(l.p[|l.p| / 2])
  }

  /** The seven splits, in the recipe's order; the first failure is the
      exception raised. */
  function Splits(tr: Tracer, split: Splitter, dist: Distance): (r: Result<SplitLines, Exception>)
    requires IsDistance(dist)
    ensures |tr(F2E).p| == 0 ==> r == Err(IndexError)
  {
    match SplitAt(tr(Xpt1EastPlate1), First(ReverseCopy(tr(F2E), dist)), split)
    case Err(e) => Err(e)
    case Ok(s1) =>
    match SplitAt(ReverseCopy(tr(PF1EastPlate1), dist), First(ReverseCopy(tr(F1E), dist)), split)
    case Err(e) => Err(e)
    case Ok(s2) =>
    match SplitAt(ReverseCopy(tr(Xpt2NEEastMid), dist), Last(tr(F2W)), split)
    case Err(e) => Err(e)
    case Ok(s3) =>
    match SplitAt(ReverseCopy(tr(Xpt2WestMidWestPlate1), dist), Last(tr(B2W)), split)
    case Err(e) => Err(e)
    case Ok(s4) =>
    match SplitAt(ReverseCopy(tr(Xpt2PF2), dist), Middle(tr(Xpt2PF2)), split)
    case Err(e) => Err(e)
    case Ok(s5) =>
    match SplitAt(ReverseCopy(tr(G3WEastMid), dist), Last(tr(F3W)), split)
    case Err(e) => Err(e)
    case Ok(s6) =>
    match SplitAt(ReverseCopy(tr(WestMidWestPlate1), dist), Last(tr(B3W)), split)
    case Err(e) => Err(e)
    case Ok(s7) =>
    Ok(SplitLines(s1.0, s1.1, s2.0, s2.1, s3.0, s3.1, s4.0, s4.1, s5.0, s5.1, s6.0, s6.1, s7.0, s7.1))
  }

  /** Each pair of halves is one split of the line the recipe names, at the
      point it names: F1_N and I1_N split xpt1__EastPlate1 where I2_W
      starts (its traced line's last point), I1_S and F1_S split the
      reversed psiMinPF1__EastPlate1 where I1_W starts, and so on. */
  lemma SplitsSources(tr: Tracer, split: Splitter, dist: Distance)
    requires IsDistance(dist)
    ensures Splits(tr, split, dist).Ok? ==>
      var sp := Splits(tr, split, dist).value;
      && |tr(F2E).p| > 0 && |tr(F1E).p| > 0 && |tr(F2W).p| > 0 && |tr(B2W).p| > 0
      && |tr(Xpt2PF2).p| > 0 && |tr(F3W).p| > 0 && |tr(B3W).p| > 0
      && split(tr(Xpt1EastPlate1), tr(F2E).p[|tr(F2E).p| - 1], true) == Ok((sp.f1N, sp.i1N))
      && split(ReverseCopy(tr(PF1EastPlate1), dist), tr(F1E).p[|tr(F1E).p| - 1], true) == Ok((sp.i1S, sp.f1S))
      && split(ReverseCopy(tr(Xpt2NEEastMid), dist), tr(F2W).p[|tr(F2W).p| - 1], true) == Ok((sp.e2N, sp.f2N))
      && split(ReverseCopy(tr(Xpt2WestMidWestPlate1), dist), tr(B2W).p[|tr(B2W).p| - 1], true) == Ok((sp.a2N, sp.b2N))
      && split(ReverseCopy(tr(Xpt2PF2), dist), tr(Xpt2PF2).p[|tr(Xpt2PF2).p| / 2], true) == Ok((sp.g1W, sp.g2W))
      && split(ReverseCopy(tr(G3WEastMid), dist), tr(F3W).p[|tr(F3W).p| - 1], true) == Ok((sp.e3N, sp.f3N))
      && split(ReverseCopy(tr(WestMidWestPlate1), dist), tr(B3W).p[|tr(B3W).p| - 1], true) == Ok((sp.a3N, sp.b3N))
    ensures |tr(F2E).p| == 0 ==> Splits(tr, split, dist) == Err(IndexError)
  {
    FirstOfReverse(tr(F2E), dist);
    FirstOfReverse(tr(F1E), dist);
  }

  // ------------------------------------------------------------ Sides

  /** The halves of the seven splits, by the side variable they become. */
  datatype HalfId =
    | F1N | I1N | I1S | F1S | E2N | F2N | A2N | B2N | G1W | G2W | E3N | F3N | A3N | B3N

  function HalfLine(sp: SplitLines, h: HalfId): Line {
    match h
    case F1N => sp.f1N case I1N => sp.i1N case I1S => sp.i1S case F1S => sp.f1S
    case E2N => sp.e2N case F2N => sp.f2N case A2N => sp.a2N case B2N => sp.b2N
    case G1W => sp.g1W case G2W => sp.g2W case E3N => sp.e3N case F3N => sp.f3N
    case A3N => sp.a3N case B3N => sp.b3N
  }

  /** Where a side's line comes from: a traced line, a split half, or the
      reverse copy of another side's source. */
  datatype Source = Traced(id: TraceId) | Half(h: HalfId) | Reversed(of: Source)

  /** The line a source denotes. */
  function Eval(tr: Tracer, sp: SplitLines, dist: Distance, src: Source): Line
    requires IsDistance(dist)
    decreases src
  {
    match src
    case Traced(id) => tr(id)
    case Half(h) => HalfLine(sp, h)
    case Reversed(s) => ReverseCopy(Eval(tr, sp, dist, s), dist)
  }

  /** A reversed source denotes the reversed points of its original, and
      reversing twice gives the original points back. */
  lemma EvalReversed(tr: Tracer, sp: SplitLines, dist: Distance, src: Source)
    requires IsDistance(dist)
    ensures Eval(tr, sp, dist, Reversed(src)).p == Rev(Eval(tr, sp, dist, src).p)
    ensures Eval(tr, sp, dist, Reversed(Reversed(src))).p == Eval(tr, sp, dist, src).p
  {
    RevRev(Eval(tr, sp, dist, src).p);
  }

  /** The source of each side that does not lie on a plate, as the recipe
      assigns it. */
  function Origin(pn: PatchName, side: Side): Source
    requires !OnPlate(pn, side)
  {
    match pn
    case A1 => (
      match side
      case N => Reversed(Traced(Xpt1WestPlate1))
      case E => Traced(Xpt1PF1)
      case S => Traced(PF1WestPlate1)
      case _ => assert false; Traced(Xpt1NCore))
    case A2 => (
      match side
      case N => Half(A2N)
      case E => Reversed(Traced(B2W))
      case S => Traced(Xpt1WestPlate1)
      case _ => assert false; Traced(Xpt1NCore))
    case A3 => (
      match side
      case N => Half(A3N)
      case E => Reversed(Traced(B3W))
      case S => Reversed(Half(A2N))
      case _ => assert false; Traced(Xpt1NCore))
    case B1 => (
      match side
      case N => Traced(Xpt1NWWestMid)
      case E => Traced(B1E)
      case S => Reversed(Traced(CoreWestMid))
      case W => Reversed(Traced(Xpt1NCore)))
    case B2 => (
      match side
      case N => Half(B2N)
      case E => Traced(B2E)
      case S => Reversed(Traced(Xpt1NWWestMid))
      case W => Traced(B2W))
    case B3 => (
      match side
      case N => Half(B3N)
      case E => Traced(B3E)
      case S => Reversed(Half(B2N))
      case W => Traced(B3W))
    case C1 => (
      match side
      case N => Traced(WestMidTop)
      case E => Traced(C1E)
      case S => Reversed(Traced(CoreWestMidTop))
      case W => Reversed(Traced(B1E)))
    case C2 => (
      match side
      case N => Reversed(Traced(Xpt2TopWestMid))
      case E => Traced(C2E)
      case S => Reversed(Traced(WestMidTop))
      case W => Reversed(Traced(B2E)))
    case C3 => (
      match side
      case N => Reversed(Traced(C3NRaw))
      case E => Traced(C3E)
      case S => Traced(Xpt2TopWestMid)
      case W => Reversed(Traced(B3E)))
    case D1 => (
      match side
      case N => Reversed(Traced(EastMidTop))
      case E => Reversed(Reversed(Traced(E1WRaw)))
      case S => Traced(CoreEastMidTop)
      case W => Reversed(Traced(C1E)))
    case D2 => (
      match side
      case N => Reversed(Traced(Xpt2EastMidTop))
      case E => Reversed(Reversed(Traced(E2WRaw)))
      case S => Reversed(Reversed(Traced(EastMidTop)))
      case W => Reversed(Traced(C2E)))
    case D3 => (
      match side
      case N => Reversed(Traced(D3NRaw))
      case E => Reversed(Reversed(Traced(E3WRaw)))
      case S => Traced(Xpt2EastMidTop)
      case W => Reversed(Traced(C3E)))
    case E1 => (
      match side
      case N => Reversed(Traced(Xpt1NEEastMid))
      case E => Traced(Xpt1NCore)
      case S => Traced(CoreEastMid)
      case W => Reversed(Traced(E1WRaw)))
    case E2 => (
      match side
      case N => Half(E2N)
      case E => Reversed(Traced(F2W))
      case S => Reversed(Reversed(Traced(Xpt1NEEastMid)))
      case W => Reversed(Traced(E2WRaw)))
    case E3 => (
      match side
      case N => Half(E3N)
      case E => Reversed(Traced(F3W))
      case S => Reversed(Half(E2N))
      case W => Reversed(Traced(E3WRaw)))
    case F1 => (
      match side
      case N => Half(F1N)
      case E => Traced(F1E)
      case S => Half(F1S)
      case W => Reversed(Traced(Xpt1PF1)))
    case F2 => (
      match side
      case N => Half(F2N)
      case E => Traced(F2E)
      case S => Reversed(Half(F1N))
      case W => Traced(F2W))
    case F3 => (
      match side
      case N => Half(F3N)
      case E => Reversed(Traced(G3W))
      case S => Reversed(Half(F2N))
      case W => Traced(F3W))
    case G1 => (
      match side
      case N => Traced(G1N)
      case S => Reversed(Traced(G1SRaw))
      case W => Half(G1W)
      case _ => assert false; Traced(Xpt1NCore))
    case G2 => (
      match side
      case N => Traced(G2N)
      case S => Reversed(Traced(G1N))
      case W => Half(G2W)
      case _ => assert false; Traced(Xpt1NCore))
    case G3 => (
      match side
      case N => Traced(G3N)
      case S => Reversed(Traced(G2N))
      case W => Traced(G3W)
      case _ => assert false; Traced(Xpt1NCore))
    case H1 => (
      match side
      case N => Reversed(Traced(H1NRaw))
      case E => Reversed(Half(G1W))
      case S => Traced(H1S)
      case _ => assert false; Traced(Xpt1NCore))
    case H2 => (
      match side
      case N => Reversed(Traced(H2NRaw))
      case E => Reversed(Half(G2W))
      case S => Reversed(Reversed(Traced(H1NRaw)))
      case _ => assert false; Traced(Xpt1NCore))
    case H3 => (
      match side
      case N => Reversed(Traced(H3NRaw))
      case E => Reversed(Traced(H3ERaw))
      case S => Reversed(Reversed(Traced(H2NRaw)))
      case _ => assert false; Traced(Xpt1NCore))
    case I1 => (
      match side
      case N => Half(I1N)
      case S => Half(I1S)
      case W => Reversed(Traced(F1E))
      case _ => assert false; Traced(Xpt1NCore))
    case I2 => (
      match side
      case N => Traced(I2N)
      case S => Reversed(Half(I1N))
      case W => Reversed(Traced(F2E))
      case _ => assert false; Traced(Xpt1NCore))
    case I3 => (
      match side
      case N => Traced(I3N)
      case S => Reversed(Traced(I2N))
      case W => Reversed(Reversed(Traced(H3ERaw)))
      case _ => assert false; Traced(Xpt1NCore))
  }

  /** The line on a side that does not lie on a plate. */
  function SideLine(tr: Tracer, sp: SplitLines, dist: Distance, pn: PatchName, side: Side): Line
    requires IsDistance(dist) && !OnPlate(pn, side)
  {
    Eval(tr, sp, dist, Origin(pn, side))
  }

  /** The shared boundaries: each side on the left is built as the reverse
      copy of the side on the right. */
  const SharedPairs: seq<(PatchName, Side, PatchName, Side)> := [
    (B1, W, E1, E), (B2, S, B1, N), (E2, S, E1, N), (C2, S, C1, N), (D2, S, D1, N),
    (F1, W, A1, E), (A1, N, A2, S), (I1, W, F1, E), (I2, W, F2, E), (I2, S, I1, N),
    (F2, S, F1, N), (I3, S, I2, N), (E2, E, F2, W), (F3, S, F2, N), (E3, S, E2, N),
    (D2, N, D3, S), (C2, N, C3, S), (A2, E, B2, W), (A3, S, A2, N), (B3, S, B2, N),
    (H1, E, G1, W), (H2, E, G2, W), (G2, S, G1, N), (H2, S, H1, N), (G3, S, G2, N),
    (H3, S, H2, N), (I3, W, H3, E), (F3, E, G3, W), (E3, E, F3, W), (A3, E, B3, W),
    (C1, W, B1, E), (C2, W, B2, E), (C3, W, B3, E), (D1, W, C1, E), (D2, W, C2, E),
    (D3, W, C3, E), (D1, E, E1, W), (D2, E, E2, W), (D3, E, E3, W)]

  /** A genuine pair of non-plate sides whose left source is the reverse of
      the right one. */
  predicate PairReversed(pair: (PatchName, Side, PatchName, Side)) {
    var (a, sa, b, sb) := pair;
    !OnPlate(a, sa) && !OnPlate(b, sb) && Origin(a, sa) == Reversed(Origin(b, sb))
  }

  /** In every shared pair neither side lies on a plate, and the left
      side's source is the reverse of the right side's. */
  lemma SharedPairsReversed(i: nat)
    requires i < |SharedPairs|
    ensures PairReversed(SharedPairs[i])
  {
    if i < 4 { PairsFrom0(i); }
    else if i < 8 { PairsFrom4(i); }
    else if i < 12 { PairsFrom8(i); }
    else if i < 16 { PairsFrom12(i); }
    else if i < 20 { PairsFrom16(i); }
    else if i < 24 { PairsFrom20(i); }
    else if i < 28 { PairsFrom24(i); }
    else if i < 32 { PairsFrom28(i); }
    else if i < 36 { PairsFrom32(i); }
    else { PairsFrom36(i); }
  }

  /** The shared pairs checked four at a time. */
  lemma PairsFrom0(i: nat)
    requires 0 <= i < 4
    ensures PairReversed(SharedPairs[i])
  {
    if i == 0 { assert PairReversed(SharedPairs[0]); }
    else if i == 1 { assert PairReversed(SharedPairs[1]); }
    else if i == 2 { assert PairReversed(SharedPairs[2]); }
    else if i == 3 { assert PairReversed(SharedPairs[3]); }
  }

  lemma PairsFrom4(i: nat)
    requires 4 <= i < 8
    ensures PairReversed(SharedPairs[i])
  {
    if i == 4 { assert PairReversed(SharedPairs[4]); }
    else if i == 5 { assert PairReversed(SharedPairs[5]); }
    else if i == 6 { assert PairReversed(SharedPairs[6]); }
    else if i == 7 { assert PairReversed(SharedPairs[7]); }
  }

  lemma PairsFrom8(i: nat)
    requires 8 <= i < 12
    ensures PairReversed(SharedPairs[i])
  {
    if i == 8 { assert PairReversed(SharedPairs[8]); }
    else if i == 9 { assert PairReversed(SharedPairs[9]); }
    else if i == 10 { assert PairReversed(SharedPairs[10]); }
    else if i == 11 { assert PairReversed(SharedPairs[11]); }
  }

  lemma PairsFrom12(i: nat)
    requires 12 <= i < 16
    ensures PairReversed(SharedPairs[i])
  {
    if i == 12 { assert PairReversed(SharedPairs[12]); }
    else if i == 13 { assert PairReversed(SharedPairs[13]); }
    else if i == 14 { assert PairReversed(SharedPairs[14]); }
    else if i == 15 { assert PairReversed(SharedPairs[15]); }
  }

  lemma PairsFrom16(i: nat)
    requires 16 <= i < 20
    ensures PairReversed(SharedPairs[i])
  {
    if i == 16 { assert PairReversed(SharedPairs[16]); }
    else if i == 17 { assert PairReversed(SharedPairs[17]); }
    else if i == 18 { assert PairReversed(SharedPairs[18]); }
    else if i == 19 { assert PairReversed(SharedPairs[19]); }
  }

  lemma PairsFrom20(i: nat)
    requires 20 <= i < 24
    ensures PairReversed(SharedPairs[i])
  {
    if i == 20 { assert PairReversed(SharedPairs[20]); }
    else if i == 21 { assert PairReversed(SharedPairs[21]); }
    else if i == 22 { assert PairReversed(SharedPairs[22]); }
    else if i == 23 { assert PairReversed(SharedPairs[23]); }
  }

  lemma PairsFrom24(i: nat)
    requires 24 <= i < 28
    ensures PairReversed(SharedPairs[i])
  {
    if i == 24 { assert PairReversed(SharedPairs[24]); }
    else if i == 25 { assert PairReversed(SharedPairs[25]); }
    else if i == 26 { assert PairReversed(SharedPairs[26]); }
    else if i == 27 { assert PairReversed(SharedPairs[27]); }
  }

  lemma PairsFrom28(i: nat)
    requires 28 <= i < 32
    ensures PairReversed(SharedPairs[i])
  {
    if i == 28 { assert PairReversed(SharedPairs[28]); }
    else if i == 29 { assert PairReversed(SharedPairs[29]); }
    else if i == 30 { assert PairReversed(SharedPairs[30]); }
    else if i == 31 { assert PairReversed(SharedPairs[31]); }
  }

  lemma PairsFrom32(i: nat)
    requires 32 <= i < 36
    ensures PairReversed(SharedPairs[i])
  {
    if i == 32 { assert PairReversed(SharedPairs[32]); }
    else if i == 33 { assert PairReversed(SharedPairs[33]); }
    else if i == 34 { assert PairReversed(SharedPairs[34]); }
    else if i == 35 { assert PairReversed(SharedPairs[35]); }
  }

  lemma PairsFrom36(i: nat)
    requires 36 <= i < 39
    ensures PairReversed(SharedPairs[i])
  {
    if i == 36 { assert PairReversed(SharedPairs[36]); }
    else if i == 37 { assert PairReversed(SharedPairs[37]); }
    else if i == 38 { assert PairReversed(SharedPairs[38]); }
  }

  /** Every shared boundary is a mutual reverse: each of the two sides'
      points is the other's, in reverse order. */
  lemma SharedBoundariesReverse(tr: Tracer, sp: SplitLines, dist: Distance, k: nat)
    requires IsDistance(dist) && k < |SharedPairs|
    ensures var (a, sa, b, sb) := SharedPairs[k];
            && !OnPlate(a, sa) && !OnPlate(b, sb)
            && SideLine(tr, sp, dist, a, sa).p == Rev(SideLine(tr, sp, dist, b, sb).p)
            && SideLine(tr, sp, dist, b, sb).p == Rev(SideLine(tr, sp, dist, a, sa).p)
  {
    var (a, sa, b, sb) := SharedPairs[k];
    SharedPairsReversed(k);
    assert Origin(a, sa) == Reversed(Origin(b, sb));
    EvalReversed(tr, sp, dist, Origin(b, sb));
    RevRev(SideLine(tr, sp, dist, b, sb).p);
  }

  /** The sides the recipe reverses twice carry the traced line's own
      points: E2_S, D2_S, H2_S, H3_S, I3_W and the East sides of the D
      patches. */
  lemma DoubleReverseRestores(tr: Tracer, sp: SplitLines, dist: Distance, pn: PatchName, side: Side)
    requires IsDistance(dist) && !OnPlate(pn, side)
    requires Origin(pn, side).Reversed? && Origin(pn, side).of.Reversed?
    ensures SideLine(tr, sp, dist, pn, side).p == Eval(tr, sp, dist, Origin(pn, side).of.of).p
    ensures (pn, side) in {(E2, S), (D2, S), (H2, S), (H3, S), (I3, W), (D1, E), (D2, E), (D3, E)}
  {
    EvalReversed(tr, sp, dist, Origin(pn, side).of.of);
  }

  // ------------------------------------------------------------ Plates

  /** Python's `p[i:]` and `p[:i]` cut at this position. */
  function PyCut(i: int, n: nat): (c: nat)
    ensures c <= n
    ensures 0 <= i <= n ==> c == i
    ensures i < 0 && n + i >= 0 ==> c == n + i
    ensures i > n ==> c == n
    ensures n + i < 0 ==> c == 0
  {
    if i < 0 then (if n + i < 0 then 0 else n + i) else if i > n then n else i
  }

  /** `limiter_split(start, end, limiter)`: when the end's split index is not
      past the start's, the point list is rotated to begin at the start's
      index (in place; the snapshot fields are not refreshed); otherwise the
      limiter is unchanged. Either way the limiter itself is returned. */
  function LimiterSplit(start: Point, end: Point, limiter: Line, findIndex: SplitIndex): (l: Line)
    ensures l.xval == limiter.xval && l.yval == limiter.yval && l.length == limiter.length
    ensures |l.p| == |limiter.p| && multiset(l.p) == multiset(limiter.p)
    ensures findIndex(end, limiter) > findIndex(start, limiter) ==> l == limiter
    ensures findIndex(end, limiter) <= findIndex(start, limiter) ==>
              var c := PyCut(findIndex(start, limiter), |limiter.p|);
              forall k :: 0 <= k < |l.p| ==> l.p[k] == limiter.p[Wrap(c + k, |limiter.p|)]
  {
    var si := findIndex(start, limiter);
    var ei := findIndex(end, limiter);
    if ei <= si then
      var c := PyCut(si, |limiter.p|);
      var q := limiter.p[c..] + limiter.p[..c];
      assert limiter.p == limiter.p[..c] + limiter.p[c..];
      RotationEntries(limiter.p, c);
      limiter.(p := q)
    else limiter
  }

  /** An index at most one lap past the end of a list of length n, brought
      back into it: (a mod n) for a < 2n. */
  function Wrap(a: nat, n: nat): nat {
    if a < n then a else a - n
  }

  /** Entry k of `p[c:] + p[:c]` is entry c + k of `p`, wrapped around. */
  lemma RotationEntries<T>(p: seq<T>, c: nat)
    requires c <= |p|
    ensures forall k :: 0 <= k < |p| ==> (p[c..] + p[..c])[k] == p[Wrap(c + k, |p|)]
  {
  }

  /** With the start's index inside the list and the end's not past it, the
      old point at the start's index comes first. */
  lemma LimiterSplitStartsAtStart(start: Point, end: Point, limiter: Line, findIndex: SplitIndex)
    requires 0 <= findIndex(start, limiter) < |limiter.p|
    requires findIndex(end, limiter) <= findIndex(start, limiter)
    ensures LimiterSplit(start, end, limiter, findIndex).p[0] == limiter.p[findIndex(start, limiter)]
  {
    var l := LimiterSplit(start, end, limiter, findIndex);
    assert l.p[0] == limiter.p[Wrap(findIndex(start, limiter) + 0, |limiter.p|)];
  }

  /** `plate.split(a)[1].split(b, add_split_point = True)[0]`: the plate from
      `a` onwards, cut at `b`. */
  function Cut(plate: Line, a: Point, b: Point, split: Splitter): (r: Result<Line, Exception>)
    ensures r.Ok? <==> split(plate, a, false).Ok? && split(split(plate, a, false).value.1, b, true).Ok?
    ensures r.Ok? ==> r.value == split(split(plate, a, false).value.1, b, true).value.0
  {
    match split(plate, a, false)
    case Err(e) => Err(e)
    case Ok(halves) =>
      match split(halves.1, b, true)
      case Err(e) => Err(e)
      case Ok(parts) => Ok(parts.0)
  }

  /** One plate segment: the cut is tried on the plate as it is; when it
      raises, the plate is rotated by `limiter_split` and the cut is tried
      once more, whose failure propagates. The result is the segment and
      the plate as it is afterwards. Reading either end point of an empty
      side raises IndexError. */
  function Segment(plate: Line, a: Result<Point, Exception>, b: Result<Point, Exception>,
                   split: Splitter, findIndex: SplitIndex): (r: Result<(Line, Line), Exception>)
    ensures (a.Err? || b.Err?) ==> r == Err(IndexError)
    ensures r.Ok? ==> a.Ok? && b.Ok?
  {
    if a.Err? || b.Err? then Err(IndexError)
    else
      match Cut(plate, a.value, b.value, split)
      case Ok(seg) => Ok((seg, plate))
      case Err(_) =>
        var rotated := LimiterSplit(a.value, b.value, plate, findIndex);
        match Cut(rotated, a.value, b.value, split)
        case Ok(seg) => Ok((seg, rotated))
        case Err(e) => Err(e)
  }

  /** A successful segment is the cut of the plate it returns, and that
      plate holds the original points. */
  lemma SegmentCut(plate: Line, a: Result<Point, Exception>, b: Result<Point, Exception>,
                   split: Splitter, findIndex: SplitIndex)
    requires Segment(plate, a, b, split, findIndex).Ok?
    ensures var r := Segment(plate, a, b, split, findIndex).value;
            && a.Ok? && b.Ok? && Cut(r.1, a.value, b.value, split) == Ok(r.0)
            && |r.1.p| == |plate.p| && multiset(r.1.p) == multiset(plate.p)
  {
  }

  /** The try/except of a segment: a cut that succeeds on the plate as it
      is wins and leaves the plate alone; otherwise the outcome is that of
      the cut on the rotated plate, which is the plate returned. */
  lemma SegmentFallback(plate: Line, a: Point, b: Point, split: Splitter, findIndex: SplitIndex)
    ensures var r := Segment(plate, Ok(a), Ok(b), split, findIndex);
            && (Cut(plate, a, b, split).Ok? ==> r == Ok((Cut(plate, a, b, split).value, plate)))
            && (Cut(plate, a, b, split).Err? ==>
                  var rotated := LimiterSplit(a, b, plate, findIndex);
                  && (r.Ok? <==> Cut(rotated, a, b, split).Ok?)
                  && (r.Ok? ==> r.value.1 == rotated)
                  && (r.Err? ==> r.error == Cut(rotated, a, b, split).error))
  {
  }

  /** A segment cut from some arrangement of the plate's points: the plate
      as given, or rotated. */
  ghost predicate CutFromPlate(plate: Line, a: Point, b: Point, seg: Line, split: Splitter) {
    exists q: Line :: && |q.p| == |plate.p| && multiset(q.p) == multiset(plate.p)
                      && Cut(q, a, b, split) == Ok(seg)
  }

  /** The segments of one plate, cut in order, each from the plate as the
      previous cuts left it. Returns the segments and the final plate. */
  function PlateRun(plate: Line, ends: seq<(Result<Point, Exception>, Result<Point, Exception>)>,
                    split: Splitter, findIndex: SplitIndex): (r: Result<(seq<Line>, Line), Exception>)
    ensures r.Ok? ==> |r.value.0| == |ends|
    ensures |ends| > 0 && Segment(plate, ends[0].0, ends[0].1, split, findIndex).Err? ==>
              r == Err(Segment(plate, ends[0].0, ends[0].1, split, findIndex).error)
    decreases |ends|
  {
    if |ends| == 0 then Ok(([], plate))
    else
      var first := Segment(plate, ends[0].0, ends[0].1, split, findIndex);
      if first.Err? then Err(first.error)
      else
        var rest := PlateRun(first.value.1, ends[1..], split, findIndex);
        if rest.Err? then Err(rest.error)
        else Ok(([first.value.0] + rest.value.0, rest.value.1))
  }

  /** A run leaves its plate with the same points, possibly rotated. */
  lemma {:induction false} PlateRunKeepsPoints(plate: Line, ends: seq<(Result<Point, Exception>, Result<Point, Exception>)>,
                                               split: Splitter, findIndex: SplitIndex)
    requires PlateRun(plate, ends, split, findIndex).Ok?
    ensures var last := PlateRun(plate, ends, split, findIndex).value.1;
            |last.p| == |plate.p| && multiset(last.p) == multiset(plate.p)
    decreases |ends|
  {
    if |ends| > 0 {
      var first := Segment(plate, ends[0].0, ends[0].1, split, findIndex).value;
      SegmentCut(plate, ends[0].0, ends[0].1, split, findIndex);
      PlateRunKeepsPoints(first.1, ends[1..], split, findIndex);
    }
  }

  /** Every segment of a successful run is cut from an arrangement of the
      original plate's points. */
  lemma {:induction false} PlateRunCuts(plate: Line, ends: seq<(Result<Point, Exception>, Result<Point, Exception>)>,
                                        split: Splitter, findIndex: SplitIndex)
    requires PlateRun(plate, ends, split, findIndex).Ok?
    ensures var segs := PlateRun(plate, ends, split, findIndex).value.0;
            forall i :: 0 <= i < |ends| ==>
              && ends[i].0.Ok? && ends[i].1.Ok?
              && CutFromPlate(plate, ends[i].0.value, ends[i].1.value, segs[i], split)
    decreases |ends|
  {
    if |ends| > 0 {
      var first := Segment(plate, ends[0].0, ends[0].1, split, findIndex).value;
      var segs := PlateRun(plate, ends, split, findIndex).value.0;
      SegmentCut(plate, ends[0].0, ends[0].1, split, findIndex);
      PlateRunCuts(first.1, ends[1..], split, findIndex);
      var rest := PlateRun(first.1, ends[1..], split, findIndex).value.0;
      assert segs == [first.0] + rest;
      forall i | 0 <= i < |ends|
        ensures ends[i].0.Ok? && ends[i].1.Ok? && CutFromPlate(plate, ends[i].0.value, ends[i].1.value, segs[i], split)
      {
        if i == 0 {
          assert Cut(first.1, ends[0].0.value, ends[0].1.value, split) == Ok(segs[0]);
        } else {
          assert segs[i] == rest[i - 1] && ends[i] == ends[1..][i - 1];
          CutFromSamePoints(first.1, plate, ends[i].0.value, ends[i].1.value, segs[i], split);
        }
      }
    }
  }

  /** A cut from an arrangement of one plate's points is a cut from any
      plate with the same points. */
  lemma CutFromSamePoints(from: Line, plate: Line, a: Point, b: Point, seg: Line, split: Splitter)
    requires |from.p| == |plate.p| && multiset(from.p) == multiset(plate.p)
    requires CutFromPlate(from, a, b, seg, split)
    ensures CutFromPlate(plate, a, b, seg, split)
  {
    var q: Line :| && |q.p| == |from.p| && multiset(q.p) == multiset(from.p)
                   && Cut(q, a, b, split) == Ok(seg);
  }

  /** Which plate a patch's plate side is cut from, and in which turn. */
  datatype PlateName = WestPlate1 | WestPlate2 | EastPlate1 | EastPlate2

  function PlateOf(pn: PatchName): Option<PlateName> {
    match pn
    case A1 => Some(WestPlate1) case A2 => Some(WestPlate1) case A3 => Some(WestPlate1)
    case H1 => Some(WestPlate2) case H2 => Some(WestPlate2) case H3 => Some(WestPlate2)
    case I1 => Some(EastPlate1) case I2 => Some(EastPlate1) case I3 => Some(EastPlate1)
    case G1 => Some(EastPlate2) case G2 => Some(EastPlate2) case G3 => Some(EastPlate2)
    case _ => None
  }

  /** The row of a patch: 1, 2 or 3, less one. */
  function Row(pn: PatchName): (r: nat)
    ensures r < 3
  {
    match pn
    case A1 => 0 case B1 => 0 case C1 => 0 case D1 => 0 case E1 => 0
    case F1 => 0 case G1 => 0 case H1 => 0 case I1 => 0
    case A2 => 1 case B2 => 1 case C2 => 1 case D2 => 1 case E2 => 1
    case F2 => 1 case G2 => 1 case H2 => 1 case I2 => 1
    case _ => 2
  }

  /** The side of a plate patch that lies on its plate, and the side whose
      end point starts the cut and the side whose first point ends it. */
  function PlateSide(pn: PatchName): Side {
    if PlateOf(pn) == Some(WestPlate1) || PlateOf(pn) == Some(WestPlate2) then W else E
  }

  /** A patch has a plate side exactly when it is cut from a plate. */
  lemma PlateSidesMatch(pn: PatchName, side: Side)
    ensures OnPlate(pn, side) <==> PlateOf(pn).Some? && side == PlateSide(pn)
  {
  }

  /** The (start, end) points of the cut for a plate patch: for the West
      plates the last point of South and the first of North, for the East
      plates the last point of North and the first of South. */
  function PlateEnds(tr: Tracer, sp: SplitLines, dist: Distance, pn: PatchName)
    : (Result<Point, Exception>, Result<Point, Exception>)
    requires IsDistance(dist) && PlateOf(pn).Some?
  {
    if PlateSide(pn) == W then (Last(SideLine(tr, sp, dist, pn, S)), First(SideLine(tr, sp, dist, pn, N)))
    else (Last(SideLine(tr, sp, dist, pn, N)), First(SideLine(tr, sp, dist, pn, S)))
  }

  /** The patches cut from a plate, in the order they are cut. */
  function PlatePatches(pl: PlateName): (pns: seq<PatchName>)
    ensures |pns| == 3 && forall i :: 0 <= i < 3 ==> PlateOf(pns[i]) == Some(pl) && Row(pns[i]) == i
  {
    match pl
    case WestPlate1 => [A1, A2, A3]
    case WestPlate2 => [H1, H2, H3]
    case EastPlate1 => [I1, I2, I3]
    case EastPlate2 => [G1, G2, G3]
  }

  /** The cut ends of a plate's patches, in order. */
  function RunEnds(tr: Tracer, sp: SplitLines, dist: Distance, pl: PlateName)
    : (r: seq<(Result<Point, Exception>, Result<Point, Exception>)>)
    requires IsDistance(dist)
    ensures |r| == 3 && forall i :: 0 <= i < 3 ==> r[i] == PlateEnds(tr, sp, dist, PlatePatches(pl)[i])
  {
    var pns := PlatePatches(pl);
    [PlateEnds(tr, sp, dist, pns[0]), PlateEnds(tr, sp, dist, pns[1]), PlateEnds(tr, sp, dist, pns[2])]
  }

  /** The segments cut from the four plates, in row order. */
  datatype PlateLines = PlateLines(west1: seq<Line>, west2: seq<Line>, east1: seq<Line>, east2: seq<Line>)

  function PlateInput(plates: Plates, plate: PlateName): Line {
    match plate
    case WestPlate1 => plates.west1
    case WestPlate2 => plates.west2
    case EastPlate1 => plates.east1
    case EastPlate2 => plates.east2
  }

  function PlateSegments(pl: PlateLines, plate: PlateName): seq<Line> {
    match plate
    case WestPlate1 => pl.west1
    case WestPlate2 => pl.west2
    case EastPlate1 => pl.east1
    case EastPlate2 => pl.east2
  }

  /** The three cuts of one plate. */
  function Run(tr: Tracer, sp: SplitLines, plates: Plates, split: Splitter, findIndex: SplitIndex,
               dist: Distance, plate: PlateName): Result<(seq<Line>, Line), Exception>
    requires IsDistance(dist)
  {
    PlateRun(PlateInput(plates, plate), RunEnds(tr, sp, dist, plate), split, findIndex)
  }

  /** The twelve plate segments, plate by plate in the recipe's order
      (WestPlate1 for A1-A3, WestPlate2 for H1-H3, EastPlate1 for I1-I3,
      EastPlate2 for G1-G3); the first failure is the exception raised. */
  function PlateCuts(tr: Tracer, sp: SplitLines, plates: Plates, split: Splitter, findIndex: SplitIndex,
                     dist: Distance): (r: Result<PlateLines, Exception>)
    requires IsDistance(dist)
    ensures r.Ok? ==> |r.value.west1| == 3 && |r.value.west2| == 3 && |r.value.east1| == 3 && |r.value.east2| == 3
  {
    Gather(Run(tr, sp, plates, split, findIndex, dist, WestPlate1), Run(tr, sp, plates, split, findIndex, dist, WestPlate2),
           Run(tr, sp, plates, split, findIndex, dist, EastPlate1), Run(tr, sp, plates, split, findIndex, dist, EastPlate2))
  }

  /** The four runs' segments, in turn; the first failing run's exception. */
  function Gather(a: RunResult, h: RunResult, i: RunResult, g: RunResult): (r: Result<PlateLines, Exception>)
  {
    match a
    case Err(e) => Err(e)
    case Ok(a) =>
    match h
    case Err(e) => Err(e)
    case Ok(h) =>
    match i
    case Err(e) => Err(e)
    case Ok(i) =>
    match g
    case Err(e) => Err(e)
    case Ok(g) =>
    Ok(PlateLines(a.0, h.0, i.0, g.0))
  }

  type RunResult = Result<(seq<Line>, Line), Exception>

  /** The run of the given plate among the four. */
  function RunOf(a: RunResult, h: RunResult, i: RunResult, g: RunResult, plate: PlateName): RunResult {
    match plate
    case WestPlate1 => a
    case WestPlate2 => h
    case EastPlate1 => i
    case EastPlate2 => g
  }

  /** Gathering succeeds exactly when all four runs do, and then holds each
      run's segments under its plate; otherwise the first failure is raised. */
  lemma GatherRuns(a: RunResult, h: RunResult, i: RunResult, g: RunResult, plate: PlateName)
    ensures Gather(a, h, i, g).Ok? <==> a.Ok? && h.Ok? && i.Ok? && g.Ok?
    ensures Gather(a, h, i, g).Ok? ==>
              PlateSegments(Gather(a, h, i, g).value, plate) == RunOf(a, h, i, g, plate).value.0
    ensures a.Err? ==> Gather(a, h, i, g) == Err(a.error)
    ensures a.Ok? && h.Err? ==> Gather(a, h, i, g) == Err(h.error)
    ensures a.Ok? && h.Ok? && i.Err? ==> Gather(a, h, i, g) == Err(i.error)
    ensures a.Ok? && h.Ok? && i.Ok? && g.Err? ==> Gather(a, h, i, g) == Err(g.error)
  {
  }

  /** When the plate cuts succeed, every run did, and each plate's
      segments are its run's. */
  lemma PlateCutsRuns(tr: Tracer, sp: SplitLines, plates: Plates, split: Splitter, findIndex: SplitIndex,
                      dist: Distance, plate: PlateName)
    requires IsDistance(dist) && PlateCuts(tr, sp, plates, split, findIndex, dist).Ok?
    ensures Run(tr, sp, plates, split, findIndex, dist, plate).Ok?
    ensures PlateSegments(PlateCuts(tr, sp, plates, split, findIndex, dist).value, plate)
              == Run(tr, sp, plates, split, findIndex, dist, plate).value.0
  {
    var a, h := Run(tr, sp, plates, split, findIndex, dist, WestPlate1), Run(tr, sp, plates, split, findIndex, dist, WestPlate2);
    var i, g := Run(tr, sp, plates, split, findIndex, dist, EastPlate1), Run(tr, sp, plates, split, findIndex, dist, EastPlate2);
    GatherRuns(a, h, i, g, plate);
    assert RunOf(a, h, i, g, plate) == Run(tr, sp, plates, split, findIndex, dist, plate);
  }

  /** The plate cuts fail only when some run fails; a failing WestPlate1
      run's exception is the one raised. */
  lemma PlateCutsFail(tr: Tracer, sp: SplitLines, plates: Plates, split: Splitter, findIndex: SplitIndex,
                      dist: Distance)
    requires IsDistance(dist)
    ensures PlateCuts(tr, sp, plates, split, findIndex, dist).Err? ==>
              exists q :: Run(tr, sp, plates, split, findIndex, dist, q).Err?
    ensures Run(tr, sp, plates, split, findIndex, dist, WestPlate1).Err? ==>
              PlateCuts(tr, sp, plates, split, findIndex, dist) == Err(Run(tr, sp, plates, split, findIndex, dist, WestPlate1).error)
  {
    var a, h := Run(tr, sp, plates, split, findIndex, dist, WestPlate1), Run(tr, sp, plates, split, findIndex, dist, WestPlate2);
    var i, g := Run(tr, sp, plates, split, findIndex, dist, EastPlate1), Run(tr, sp, plates, split, findIndex, dist, EastPlate2);
    GatherRuns(a, h, i, g, WestPlate1);
    if !a.Ok? { assert Run(tr, sp, plates, split, findIndex, dist, WestPlate1).Err?; }
    else if !h.Ok? { assert Run(tr, sp, plates, split, findIndex, dist, WestPlate2).Err?; }
    else if !i.Ok? { assert Run(tr, sp, plates, split, findIndex, dist, EastPlate1).Err?; }
    else if !g.Ok? { assert Run(tr, sp, plates, split, findIndex, dist, EastPlate2).Err?; }
  }

  // ------------------------------------------------------------ Patches

  /** A patch as the recipe builds it: its name, its sides N, E, S, W, and
      whether it is a target-plate patch, with the side its plate is on. */
  datatype NamedPatch = NamedPatch(name: PatchName, n: Line, e: Line, s: Line, w: Line,
                                   platePatch: bool, plateLocation: Option<Side>)

  function Boundary(q: NamedPatch, side: Side): Line {
    match side
    case N => q.n
    case E => q.e
    case S => q.s
    case W => q.w
  }

  ghost predicate AllCut(pl: PlateLines) {
    |pl.west1| == 3 && |pl.west2| == 3 && |pl.east1| == 3 && |pl.east2| == 3
  }

  /** The line on any side: a plate segment on a plate side, the assigned
      source otherwise. */
  function SideOf(tr: Tracer, sp: SplitLines, pl: PlateLines, dist: Distance, pn: PatchName, side: Side): Line
    requires IsDistance(dist) && AllCut(pl)
  {
    if OnPlate(pn, side) then PlateSegments(pl, PlateOf(pn).value)[Row(pn)]
    else SideLine(tr, sp, dist, pn, side)
  }

  /** Only the A patches are flagged as plate patches, all on their West side. */
  predicate IsPlatePatch(pn: PatchName) {
    pn == A1 || pn == A2 || pn == A3
  }

  function MakePatch(tr: Tracer, sp: SplitLines, pl: PlateLines, dist: Distance, pn: PatchName): NamedPatch
    requires IsDistance(dist) && AllCut(pl)
  {
    NamedPatch(pn, SideOf(tr, sp, pl, dist, pn, N), SideOf(tr, sp, pl, dist, pn, E),
               SideOf(tr, sp, pl, dist, pn, S), SideOf(tr, sp, pl, dist, pn, W),
               IsPlatePatch(pn), if IsPlatePatch(pn) then Some(W) else None)
  }

  /** The patch dictionary, as its entries in insertion order. */
  function Table(tr: Tracer, sp: SplitLines, pl: PlateLines, dist: Distance): (t: seq<NamedPatch>)
    requires IsDistance(dist) && AllCut(pl)
    ensures |t| == |Order| && forall i :: 0 <= i < |t| ==> t[i] == MakePatch(tr, sp, pl, dist, Order[i])
  {
    seq(|Order|, i requires 0 <= i < |Order| => MakePatch(tr, sp, pl, dist, Order[i]))
  }

  /** `construct_patches`, from the traced lines and the plates: the seven
      splits, then the twelve plate segments, then the 27 patches. */
  function ConstructPatches(tr: Tracer, plates: Plates, split: Splitter, findIndex: SplitIndex,
                            dist: Distance): (r: Result<seq<NamedPatch>, Exception>)
    requires IsDistance(dist)
    ensures Splits(tr, split, dist).Err? ==> r == Err(Splits(tr, split, dist).error)
    ensures Splits(tr, split, dist).Ok? ==>
              var cuts := PlateCuts(tr, Splits(tr, split, dist).value, plates, split, findIndex, dist);
              && (cuts.Err? ==> r == Err(cuts.error))
              && (cuts.Ok? ==> r.Ok? && |r.value| == 27)
  {
    match Splits(tr, split, dist)
    case Err(e) => Err(e)
    case Ok(sp) =>
      match PlateCuts(tr, sp, plates, split, findIndex, dist)
      case Err(e) => Err(e)
      case Ok(pl) => Ok(Table(tr, sp, pl, dist))
  }

  /** On success every patch name is a key exactly once, in the recipe's
      order, and each patch is found at its position. */
  lemma PatchDictionary(tr: Tracer, plates: Plates, split: Splitter, findIndex: SplitIndex, dist: Distance)
    requires IsDistance(dist) && ConstructPatches(tr, plates, split, findIndex, dist).Ok?
    ensures var tbl := ConstructPatches(tr, plates, split, findIndex, dist).value;
            && |tbl| == 27
            && (forall i :: 0 <= i < 27 ==> tbl[i].name == Order[i])
            && (forall pn: PatchName :: tbl[Position(pn)].name == pn)
            && (forall i, j :: 0 <= i < j < 27 ==> Name(tbl[i].name) != Name(tbl[j].name))
  {
    OrderIsComplete();
    var tbl := ConstructPatches(tr, plates, split, findIndex, dist).value;
    forall i, j | 0 <= i < j < 27
      ensures Name(tbl[i].name) != Name(tbl[j].name)
    {
      NameInjective(tbl[i].name, tbl[j].name);
    }
  }

  /** Exactly A1, A2 and A3 are plate patches, with their plate on the
      West side; the H, I and G patches touch plates but are not flagged. */
  lemma PlateFlags(tr: Tracer, plates: Plates, split: Splitter, findIndex: SplitIndex, dist: Distance)
    requires IsDistance(dist) && ConstructPatches(tr, plates, split, findIndex, dist).Ok?
    ensures var tbl := ConstructPatches(tr, plates, split, findIndex, dist).value;
            forall i :: 0 <= i < |tbl| ==>
              && (tbl[i].platePatch <==> IsPlatePatch(tbl[i].name))
              && (tbl[i].platePatch ==> tbl[i].plateLocation == Some(W))
              && (!tbl[i].platePatch ==> tbl[i].plateLocation.None?)
  {
    var sp := Splits(tr, split, dist).value;
    var pl := PlateCuts(tr, sp, plates, split, findIndex, dist).value;
    var tbl := Table(tr, sp, pl, dist);
    assert ConstructPatches(tr, plates, split, findIndex, dist).value == tbl;
    TableColumns(tr, sp, pl, dist);
    forall i | 0 <= i < |tbl|
      ensures && (tbl[i].platePatch <==> IsPlatePatch(tbl[i].name))
              && (tbl[i].platePatch ==> tbl[i].plateLocation == Some(W))
              && (!tbl[i].platePatch ==> tbl[i].plateLocation.None?)
    {
      assert tbl[i].name == Order[i];
    }
  }

  /** `CheckPatches`: the names of the plate patches, in dictionary order
      (each of them is then checked by an opaque routine). */
  function CheckPatches(tbl: seq<NamedPatch>): (visited: seq<PatchName>)
    ensures |visited| <= |tbl|
    ensures forall pn :: pn in visited <==> exists i :: 0 <= i < |tbl| && tbl[i].platePatch && tbl[i].name == pn
  {
    if |tbl| == 0 then []
    else (if tbl[0].platePatch then [tbl[0].name] else []) + CheckPatches(tbl[1..])
  }

  /** The plate-patch names of a list of patch names, in order. */
  function PlateNames(ns: seq<PatchName>): seq<PatchName> {
    if |ns| == 0 then [] else (if IsPlatePatch(ns[0]) then [ns[0]] else []) + PlateNames(ns[1..])
  }

  /** On a table whose flags follow `IsPlatePatch`, the patches checked are
      the plate names of its name column. */
  lemma {:induction false} CheckPatchesByName(tbl: seq<NamedPatch>, ns: seq<PatchName>)
    requires |tbl| == |ns| && forall i :: 0 <= i < |tbl| ==> tbl[i].name == ns[i] && tbl[i].platePatch == IsPlatePatch(ns[i])
    ensures CheckPatches(tbl) == PlateNames(ns)
    decreases |tbl|
  {
    if |tbl| > 0 {
      CheckPatchesByName(tbl[1..], ns[1..]);
    }
  }

  /** After a successful construction, `CheckPatches` visits A3, A2 and A1,
      in that order, and nothing else. */
  lemma CheckPatchesVisitsA(tr: Tracer, plates: Plates, split: Splitter, findIndex: SplitIndex, dist: Distance)
    requires IsDistance(dist) && ConstructPatches(tr, plates, split, findIndex, dist).Ok?
    ensures CheckPatches(ConstructPatches(tr, plates, split, findIndex, dist).value) == [A3, A2, A1]
  {
    var sp := Splits(tr, split, dist).value;
    var pl := PlateCuts(tr, sp, plates, split, findIndex, dist).value;
    var tbl := ConstructPatches(tr, plates, split, findIndex, dist).value;
    assert tbl == Table(tr, sp, pl, dist);
    TableColumns(tr, sp, pl, dist);
    CheckPatchesByName(tbl, Order);
    PlateNamesOfOrder();
  }

  /** The name and flag columns of the table follow the recipe's order. */
  lemma TableColumns(tr: Tracer, sp: SplitLines, pl: PlateLines, dist: Distance)
    requires IsDistance(dist) && AllCut(pl)
    ensures var tbl := Table(tr, sp, pl, dist);
            && |tbl| == |Order|
            && forall i :: 0 <= i < |tbl| ==>
                 && tbl[i].name == Order[i] && tbl[i].platePatch == IsPlatePatch(Order[i])
                 && tbl[i].plateLocation == if IsPlatePatch(Order[i]) then Some(W) else None
  {
  }

  /** Of the recipe's patch order, only the first three are plate patches. */
  lemma PlateNamesOfOrder()
    ensures PlateNames(Order) == [A3, A2, A1]
  {
    var head, rest := Order[..3], Order[3..];
    assert Order == head + rest;
    PlateNamesAppend(head, rest);
    OtherRowsNoPlates(rest);
    PlateRowNames(head);
  }

  lemma OtherRowsNoPlates(rest: seq<PatchName>)
    requires rest == Order[3..]
    ensures PlateNames(rest) == []
  {
    PlateNamesNone(rest);
  }

  lemma PlateRowNames(head: seq<PatchName>)
    requires head == Order[..3]
    ensures PlateNames(head) == [A3, A2, A1]
  {
    assert head == [A3, A2, A1];
    assert head[1..] == [A2, A1] && head[1..][1..] == [A1] && head[1..][1..][1..] == [];
    assert PlateNames(head[1..][1..]) == [A1];
    assert PlateNames(head[1..]) == [A2, A1];
  }

  lemma {:induction false} PlateNamesNone(ns: seq<PatchName>)
    requires forall i :: 0 <= i < |ns| ==> !IsPlatePatch(ns[i])
    ensures PlateNames(ns) == []
    decreases |ns|
  {
    if |ns| > 0 {
      PlateNamesNone(ns[1..]);
    }
  }

  lemma {:induction false} PlateNamesAppend(a: seq<PatchName>, b: seq<PatchName>)
    ensures PlateNames(a + b) == PlateNames(a) + PlateNames(b)
    decreases |a|
  {
    if |a| > 0 {
      assert (a + b)[1..] == a[1..] + b;
      PlateNamesAppend(a[1..], b);
    } else {
      assert a + b == b;
    }
  }

  /** In the constructed patches every shared boundary is a mutual reverse. */
  lemma TableSharedBoundaries(tr: Tracer, plates: Plates, split: Splitter, findIndex: SplitIndex,
                              dist: Distance, k: nat)
    requires IsDistance(dist) && ConstructPatches(tr, plates, split, findIndex, dist).Ok?
    requires k < |SharedPairs|
    ensures var tbl := ConstructPatches(tr, plates, split, findIndex, dist).value;
            var (a, sa, b, sb) := SharedPairs[k];
            && |tbl| == 27
            && Boundary(tbl[Position(a)], sa).p == Rev(Boundary(tbl[Position(b)], sb).p)
            && Boundary(tbl[Position(b)], sb).p == Rev(Boundary(tbl[Position(a)], sa).p)
  {
    var sp := Splits(tr, split, dist).value;
    var pl := PlateCuts(tr, sp, plates, split, findIndex, dist).value;
    var tbl := ConstructPatches(tr, plates, split, findIndex, dist).value;
    var (a, sa, b, sb) := SharedPairs[k];
    SharedBoundariesReverse(tr, sp, dist, k);
    assert tbl == Table(tr, sp, pl, dist);
    assert Boundary(tbl[Position(a)], sa) == SideLine(tr, sp, dist, a, sa) by {
      BoundaryOfMade(tr, sp, pl, dist, a, sa);
    }
    assert Boundary(tbl[Position(b)], sb) == SideLine(tr, sp, dist, b, sb) by {
      BoundaryOfMade(tr, sp, pl, dist, b, sb);
    }
  }

  lemma BoundaryOfMade(tr: Tracer, sp: SplitLines, pl: PlateLines, dist: Distance, pn: PatchName, side: Side)
    requires IsDistance(dist) && AllCut(pl)
    ensures Boundary(MakePatch(tr, sp, pl, dist, pn), side) == SideOf(tr, sp, pl, dist, pn, side)
  {
  }

  /** Each plate side of the constructed patches is cut, between the two
      end points the recipe names, from an arrangement of its plate's
      points: the plate as given, or rotated by `limiter_split`. */
  lemma PlateSideCut(tr: Tracer, plates: Plates, split: Splitter, findIndex: SplitIndex,
                     dist: Distance, pn: PatchName)
    requires IsDistance(dist) && ConstructPatches(tr, plates, split, findIndex, dist).Ok?
    requires PlateOf(pn).Some?
    ensures var tbl := ConstructPatches(tr, plates, split, findIndex, dist).value;
            var sp := Splits(tr, split, dist).value;
            var (a, b) := PlateEnds(tr, sp, dist, pn);
            && |tbl| == 27 && a.Ok? && b.Ok?
            && CutFromPlate(PlateInput(plates, PlateOf(pn).value), a.value, b.value,
                            Boundary(tbl[Position(pn)], PlateSide(pn)), split)
  {
    var sp := Splits(tr, split, dist).value;
    var pl := PlateCuts(tr, sp, plates, split, findIndex, dist).value;
    var tbl := ConstructPatches(tr, plates, split, findIndex, dist).value;
    var plate := PlateOf(pn).value;
    var ends := RunEnds(tr, sp, dist, plate);
    PlateCutsRuns(tr, sp, plates, split, findIndex, dist, plate);
    PlateRunCuts(PlateInput(plates, plate), ends, split, findIndex);
    PlatePatchAtRow(pn);
    assert tbl == Table(tr, sp, pl, dist);
    BoundaryOfMade(tr, sp, pl, dist, pn, PlateSide(pn));
    PlateSidesMatch(pn, PlateSide(pn));
  }

  /** A plate patch is the one its plate cuts in its row's turn. */
  lemma PlatePatchAtRow(pn: PatchName)
    requires PlateOf(pn).Some?
    ensures PlatePatches(PlateOf(pn).value)[Row(pn)] == pn
  {
  }
}
