/** `SF45.concat_grid`: the refined grids of the patches are copied into two
    global mesh arrays, one per disconnected region of the two-X-point
    topology (columns 1-4 and 7-10 of the patch matrix), with a free border
    row and column on each side for guard cells; the radial axis is then
    flipped and the two regions are joined along the poloidal axis.

    The arrays `rm` and `zm` (R and Z coordinates) are written with the same
    indices, so the model fills one mesh of points and projects it. */
module ConcatGrid {
  import opened Wrappers
  import opened Geometry

  // ------------------------------------------------------------ the data

  /** A cell of a patch's refined grid: its centre and four corners. */
  datatype GridCell = GridCell(center: Point, sw: Point, se: Point, nw: Point, ne: Point)

  /** The five vertex slots of a mesh entry, in the order CENTER, SW, SE, NW, NE. */
  function Slots(c: GridCell): (s: seq<Point>)
    ensures |s| == 5
    ensures s[0] == c.center && s[1] == c.sw && s[2] == c.se && s[3] == c.nw && s[4] == c.ne
  {
    [c.center, c.sw, c.se, c.nw, c.ne]
  }

  /** A patch with its refined grid, indexed `cells[jyl][ixl]` (radial, then
      poloidal). */
  datatype GridPatch = GridPatch(name: string, cells: seq<seq<GridCell>>)

  /** An entry of the patch matrix: a patch, or the `[None]` placeholder. */
  datatype Entry = NoPatch | Has(patch: GridPatch)

  /** `patch_matrix[row][column]`. */
  type PatchMatrix = seq<seq<Entry>>

  /** A mesh array `[poloidal][radial][slot]`. */
  type Mesh = seq<seq<seq<Point>>>

  /** Entry (r, c), or the placeholder when the matrix has no such entry. */
  function At(pm: PatchMatrix, r: int, c: int): Entry {
    if 0 <= r < |pm| && 0 <= c < |pm[r]| then pm[r][c] else NoPatch
  }

  /** `npol - 1`: the poloidal cell count `len(cell_grid[0])`. */
  function Width(e: Entry): nat {
    if e.Has? && |e.patch.cells| > 0 then |e.patch.cells[0]| else 0
  }

  /** `nrad - 1`: the radial cell count `len(cell_grid)`; 0 for a placeholder. */
  function Height(e: Entry): nat {
    if e.Has? then |e.patch.cells| else 0
  }

  /** Poloidal cells of the row-1 patches in columns lo .. hi - 1. */
  function ColSum(pm: PatchMatrix, lo: int, hi: int): nat
    decreases hi - lo
  {
    if hi <= lo then 0 else ColSum(pm, lo, hi - 1) + Width(At(pm, 1, hi - 1))
  }

  /** Radial cells of the patches present in rows 1 .. k - 1 of column c:
      the running `nr_sum` of the fill loop. */
  function RowSum(pm: PatchMatrix, c: int, k: int): nat
    decreases k
  {
    if k <= 1 then 0 else RowSum(pm, c, k - 1) + Height(At(pm, k - 1, c))
  }

  // ------------------------------------------------------------ the totals

  /** `npol`/`nrad` are read from `cell_grid[0]`, which fails on an empty grid. */
  predicate GridsNonEmpty(pm: PatchMatrix) {
    forall r, c :: 0 <= r < |pm| && 0 <= c < |pm[r]| && pm[r][c].Has? ==> |pm[r][c].patch.cells| > 0
  }

  /** `[patch.npol - 1 for patch in patch_matrix[1][c:hi]]`, where reading
      `npol` off a `[None]` placeholder raises AttributeError. */
  function PolCheck(pm: PatchMatrix, c: int, hi: int): (r: Result<(), Exception>)
    requires 2 <= |pm| && 0 <= c
    decreases hi - c
  {
    if c >= hi || c >= |pm[1]| then Ok(())
    else if pm[1][c].NoPatch? then Err(AttributeError)
    else PolCheck(pm, c + 1, hi)
  }

  /** `[patch[lo].nrad - 1 for patch in patch_matrix[r:4]]`: a row too short
      for column lo raises IndexError, a placeholder there AttributeError. */
  function RadCheck(pm: PatchMatrix, lo: nat, r: nat): (res: Result<(), Exception>)
    decreases 4 - r
  {
    if r >= 4 || r >= |pm| then Ok(())
    else if |pm[r]| <= lo then Err(IndexError)
    else if pm[r][lo].NoPatch? then Err(AttributeError)
    else RadCheck(pm, lo, r + 1)
  }

  /** `(np_total, nr_total)` of the region whose first column is lo. */
  function Totals(pm: PatchMatrix, lo: nat): (r: Result<(nat, nat), Exception>)
    ensures r.Err? ==> r.error in {IndexError, AttributeError}
    ensures r.Ok? ==> r.value.0 >= 2 && r.value.1 >= 2
  {
    if |pm| < 2 then Err(IndexError)
    else
      PolCheckSpec(pm, lo, lo + 4);
      RadCheckSpec(pm, lo, 1);
      match PolCheck(pm, lo, lo + 4)
      case Err(e) => Err(e)
      case Ok(_) =>
        match RadCheck(pm, lo, 1)
        case Err(e) => Err(e)
        case Ok(_) =>
          var hi := if |pm[1]| < lo + 4 then |pm[1]| else lo + 4;
          var rows := if |pm| < 4 then |pm| else 4;
          Ok((ColSum(pm, lo, hi) + 2, RowSum(pm, lo, rows) + 2))
  }

  // ------------------------------------------------------------ the writes

  /** The loop variables of one assignment: patch column c and row r, and the
      cell (ixl, jyl) inside the patch. */
  datatype Tag = Tag(c: int, r: int, ixl: int, jyl: int)

  /** One assignment `rm[ix][jy][:] = ...` of the cell's five vertices. */
  datatype Write = Write(tag: Tag, ix: int, jy: int, cell: GridCell)

  /** The fill loop indexes `patch_matrix[jyp][ixp]` for rows 1-3 and
      columns lo .. lo + 3. */
  predicate Shaped(pm: PatchMatrix, lo: nat) {
    |pm| >= 4 && forall r :: 1 <= r < 4 ==> |pm[r]| >= lo + 4
  }

  /** Some row of the grid is shorter than `cell_grid[0]`, so that reading
      `cell_grid[jyl][ixl]` fails. */
  predicate Ragged(p: GridPatch) {
    exists j :: 0 <= j < |p.cells| && |p.cells[j]| < |p.cells[0]|
  }

  /** No patch the fill loop visits has a ragged grid. */
  predicate Readable(pm: PatchMatrix, lo: nat)
    requires Shaped(pm, lo) && GridsNonEmpty(pm)
  {
    forall r, c :: 1 <= r < 4 && lo <= c < lo + 4 && pm[r][c].Has? ==> !Ragged(pm[r][c].patch)
  }

  /** A tag the fill loop visits: a present patch and a cell inside it. */
  predicate ValidTag(pm: PatchMatrix, lo: nat, t: Tag)
    requires Shaped(pm, lo)
  {
    && lo <= t.c < lo + 4 && 1 <= t.r < 4 && pm[t.r][t.c].Has?
    && 0 <= t.ixl < Width(pm[t.r][t.c]) && 0 <= t.jyl < Height(pm[t.r][t.c])
  }

  /** `cell_grid[jyl][ixl]` of a visited tag's patch. */
  function CellOf(pm: PatchMatrix, lo: nat, t: Tag): GridCell
    requires Shaped(pm, lo) && GridsNonEmpty(pm) && Readable(pm, lo) && ValidTag(pm, lo, t)
  {
    var e := pm[t.r][t.c];
    assert !Ragged(e.patch);
    assert |e.patch.cells[t.jyl]| >= |e.patch.cells[0]|;
    e.patch.cells[t.jyl][t.ixl]
  }

  /** The assignment the loop makes for a tag: `ixcell` is the running
      poloidal sum up to and including column c, minus the patch's own width,
      plus ixl + 1; `jycell` is `nr_sum` minus the patch's own height, plus
      jyl + 1. */
  function MkWrite(pm: PatchMatrix, lo: nat, t: Tag): Write
    requires Shaped(pm, lo) && GridsNonEmpty(pm) && Readable(pm, lo) && ValidTag(pm, lo, t)
  {
    var e := pm[t.r][t.c];
    Write(t,
          ColSum(pm, lo, t.c + 1) - Width(e) + t.ixl + 1,
          RowSum(pm, t.c, t.r + 1) - Height(e) + t.jyl + 1,
          CellOf(pm, lo, t))
  }

  /** `for jyl in range(len(cell_grid))` from jyl onwards. */
  function CellWrites(pm: PatchMatrix, lo: nat, c: int, r: int, ixl: int, jyl: nat): seq<Write>
    requires Shaped(pm, lo) && GridsNonEmpty(pm) && Readable(pm, lo)
    requires lo <= c < lo + 4 && 1 <= r < 4 && pm[r][c].Has? && 0 <= ixl < Width(pm[r][c])
    decreases Height(pm[r][c]) - jyl
  {
    if jyl >= Height(pm[r][c]) then []
    else [MkWrite(pm, lo, Tag(c, r, ixl, jyl))] + CellWrites(pm, lo, c, r, ixl, jyl + 1)
  }

  /** `for ixl in range(len(cell_grid[0]))` from ixl onwards. */
  function PatchWrites(pm: PatchMatrix, lo: nat, c: int, r: int, ixl: nat): seq<Write>
    requires Shaped(pm, lo) && GridsNonEmpty(pm) && Readable(pm, lo)
    requires lo <= c < lo + 4 && 1 <= r < 4 && pm[r][c].Has?
    decreases Width(pm[r][c]) - ixl
  {
    if ixl >= Width(pm[r][c]) then []
    else CellWrites(pm, lo, c, r, ixl, 0) + PatchWrites(pm, lo, c, r, ixl + 1)
  }

  /** `for jyp in range(1, 4)` from row r onwards, skipping placeholders. */
  function ColumnWrites(pm: PatchMatrix, lo: nat, c: int, r: nat): seq<Write>
    requires Shaped(pm, lo) && GridsNonEmpty(pm) && Readable(pm, lo)
    requires lo <= c < lo + 4 && 1 <= r
    decreases 4 - r
  {
    if r >= 4 then []
    else if pm[r][c].NoPatch? then ColumnWrites(pm, lo, c, r + 1)
    else PatchWrites(pm, lo, c, r, 0) + ColumnWrites(pm, lo, c, r + 1)
  }

  /** `for ixp in range(lo, lo + 4)` from column c onwards. */
  function RegionWrites(pm: PatchMatrix, lo: nat, c: nat): seq<Write>
    requires Shaped(pm, lo) && GridsNonEmpty(pm) && Readable(pm, lo)
    requires lo <= c
    decreases lo + 4 - c
  {
    if c >= lo + 4 then []
    else ColumnWrites(pm, lo, c, 1) + RegionWrites(pm, lo, c + 1)
  }

  // ---------------------------------------------------- applying the writes

  /** Python's index rule: -n <= i < 0 counts from the end, anything outside
      [-n, n) raises IndexError. */
  function PyIndex(i: int, n: nat): (r: Option<nat>)
    ensures r.Some? <==> -(n as int) <= i < n
    ensures r.Some? ==> r.value < n && (r.value == i || r.value == i + n)
  {
    if 0 <= i < n then Some(i as nat)
    else if -(n as int) <= i < 0 then Some((i + n) as nat)
    else None
  }

  /** One write of the fill loop into the mesh. */
  function Put(m: Mesh, w: Write): (r: Result<Mesh, Exception>)
    ensures r.Err? ==> r.error == IndexError
    ensures r.Ok? ==> |r.value| == |m| && forall i :: 0 <= i < |m| ==> |r.value[i]| == |m[i]|
  {
    match PyIndex(w.ix, |m|)
    case None => Err(IndexError)
    case Some(i) =>
      match PyIndex(w.jy, |m[i]|)
      case None => Err(IndexError)
      case Some(j) => Ok(m[i := m[i][j := Slots(w.cell)]])
  }

  /** The writes in loop order; the first failing one raises. */
  function Apply(m: Mesh, ws: seq<Write>): (r: Result<Mesh, Exception>)
    ensures r.Err? ==> r.error == IndexError
    ensures r.Ok? ==> |r.value| == |m| && forall i :: 0 <= i < |m| ==> |r.value[i]| == |m[i]|
    decreases |ws|
  {
    if |ws| == 0 then Ok(m)
    else
      match Put(m, ws[0])
      case Err(e) => Err(e)
      case Ok(m') => Apply(m', ws[1..])
  }

  /** The five slots of an entry that was never written. */
  function ZeroSlots(): (z: seq<Point>)
    ensures |z| == 5
  {
    seq(5, _ => Point(0.0, 0.0))
  }

  /** `np.zeros((np_total, nr_total, 5))`. */
  function Zeros(np: nat, nr: nat): (m: Mesh)
    ensures Dims(m, np, nr)
    ensures forall i, j :: 0 <= i < np && 0 <= j < nr ==> m[i][j] == ZeroSlots()
  {
    seq(np, _ => seq(nr, _ => ZeroSlots()))
  }

  ghost predicate Dims(m: Mesh, np: nat, nr: nat) {
    |m| == np && forall i :: 0 <= i < np ==> |m[i]| == nr && forall j :: 0 <= j < nr ==> |m[i][j]| == 5
  }

  /** The fill loop of one region, on arrays of the given totals. Every way it
      can fail raises IndexError: a matrix row too short for the loop, a
      ragged patch grid, or an index outside the arrays. */
  function Fill(pm: PatchMatrix, lo: nat, np: nat, nr: nat): (r: Result<Mesh, Exception>)
    requires GridsNonEmpty(pm)
    ensures r.Err? ==> r.error == IndexError
    ensures r.Ok? ==> |r.value| == np && forall i :: 0 <= i < np ==> |r.value[i]| == nr
  {
    if !Shaped(pm, lo) || !Readable(pm, lo) then Err(IndexError)
    else Apply(Zeros(np, nr), RegionWrites(pm, lo, lo))
  }

  // ------------------------------------------------- what the totals check

  /** The row-1 check fails exactly when a placeholder sits among the
      row-1 entries of the region. */
  lemma {:induction false} PolCheckSpec(pm: PatchMatrix, c: int, hi: int)
    requires 2 <= |pm| && 0 <= c
    ensures PolCheck(pm, c, hi).Ok? <==> forall k :: c <= k < hi && k < |pm[1]| ==> pm[1][k].Has?
    ensures PolCheck(pm, c, hi).Err? ==> PolCheck(pm, c, hi).error == AttributeError
    decreases hi - c
  {
    if c < hi && c < |pm[1]| && pm[1][c].Has? {
      PolCheckSpec(pm, c + 1, hi);
    }
  }

  /** The column check passes exactly when every existing row among 1-3 has
      a patch in column lo; a short row raises IndexError, a placeholder
      AttributeError. */
  lemma {:induction false} RadCheckSpec(pm: PatchMatrix, lo: nat, r: nat)
    ensures RadCheck(pm, lo, r).Ok? <==>
            forall k :: r <= k < 4 && k < |pm| ==> |pm[k]| > lo && pm[k][lo].Has?
    ensures RadCheck(pm, lo, r).Err? ==> RadCheck(pm, lo, r).error in {IndexError, AttributeError}
    decreases 4 - r
  {
    if r < 4 && r < |pm| && |pm[r]| > lo && pm[r][lo].Has? {
      RadCheckSpec(pm, lo, r + 1);
    }
  }

  // ------------------------------------------------------ consistent input

  /** The shape the fill loop's index arithmetic presumes: rows 1-3 of
      column lo and columns lo .. lo + 3 of row 1 hold patches; every patch
      of the region has a rectangular grid as wide as the row-1 patch of its
      column and as high as the column-lo patch of its row. */
  predicate Consistent(pm: PatchMatrix, lo: nat) {
    && Shaped(pm, lo) && GridsNonEmpty(pm) && Readable(pm, lo)
    && (forall r :: 1 <= r < 4 ==> pm[r][lo].Has?)
    && (forall c :: lo <= c < lo + 4 ==> pm[1][c].Has?)
    && (forall r, c :: 1 <= r < 4 && lo <= c < lo + 4 && pm[r][c].Has? ==>
          Width(pm[r][c]) == Width(pm[1][c]) && Height(pm[r][c]) == Height(pm[r][lo]))
  }

  /** On consistent input the totals are the region's poloidal cell count
      and the radial cell count of its first column, each plus the two
      guard-cell borders. */
  lemma TotalsConsistent(pm: PatchMatrix, lo: nat)
    requires Consistent(pm, lo)
    ensures Totals(pm, lo) == Ok((ColSum(pm, lo, lo + 4) + 2, RowSum(pm, lo, 4) + 2))
  {
    PolCheckSpec(pm, lo, lo + 4);
    RadCheckSpec(pm, lo, 1);
  }

  /** The position of a cell, as the loop computes it, is the offset of its
      column plus ixl + 1 and the offset of its row plus jyl + 1. */
  lemma PositionFormula(pm: PatchMatrix, lo: nat, t: Tag)
    requires Consistent(pm, lo) && ValidTag(pm, lo, t)
    ensures MkWrite(pm, lo, t).ix == ColSum(pm, lo, t.c) + t.ixl + 1
    ensures MkWrite(pm, lo, t).jy == RowSum(pm, t.c, t.r) + t.jyl + 1
  {
    assert At(pm, 1, t.c) == pm[1][t.c];
    assert At(pm, t.r, t.c) == pm[t.r][t.c];
  }

  lemma {:induction false} ColSumMono(pm: PatchMatrix, lo: int, a: int, b: int)
    requires a <= b
    ensures ColSum(pm, lo, a) <= ColSum(pm, lo, b)
    decreases b - a
  {
    if a < b {
      ColSumMono(pm, lo, a, b - 1);
    }
  }

  lemma {:induction false} RowSumMono(pm: PatchMatrix, c: int, a: int, b: int)
    requires a <= b
    ensures RowSum(pm, c, a) <= RowSum(pm, c, b)
    decreases b - a
  {
    if a < b {
      RowSumMono(pm, c, a, b - 1);
    }
  }

  /** No column of a consistent region is higher than its first column. */
  lemma {:induction false} RowSumBelowFirstColumn(pm: PatchMatrix, lo: nat, c: int, k: int)
    requires Consistent(pm, lo) && lo <= c < lo + 4 && k <= 4
    ensures RowSum(pm, c, k) <= RowSum(pm, lo, k)
    decreases k
  {
    if k > 1 {
      RowSumBelowFirstColumn(pm, lo, c, k - 1);
      assert At(pm, k - 1, c) == pm[k - 1][c] && At(pm, k - 1, lo) == pm[k - 1][lo];
    }
  }

  /** Every write of a consistent region lands strictly inside the arrays:
      the first and last poloidal and radial indices are never written. */
  lemma WriteInRange(pm: PatchMatrix, lo: nat, t: Tag)
    requires Consistent(pm, lo) && ValidTag(pm, lo, t)
    ensures 1 <= MkWrite(pm, lo, t).ix <= ColSum(pm, lo, lo + 4)
    ensures 1 <= MkWrite(pm, lo, t).jy <= RowSum(pm, lo, 4)
  {
    PositionFormula(pm, lo, t);
    ColumnInRange(pm, lo, t);
    RowInRange(pm, lo, t);
  }

  /** A cell's poloidal index stays within the region's columns. */
  lemma ColumnInRange(pm: PatchMatrix, lo: nat, t: Tag)
    requires Consistent(pm, lo) && ValidTag(pm, lo, t)
    ensures ColSum(pm, lo, t.c) + t.ixl + 1 <= ColSum(pm, lo, lo + 4)
  {
    assert At(pm, 1, t.c) == pm[1][t.c];
    assert ColSum(pm, lo, t.c + 1) == ColSum(pm, lo, t.c) + Width(pm[1][t.c]);
    ColSumMono(pm, lo, t.c + 1, lo + 4);
  }

  /** A cell's radial index stays within the region's first column. */
  lemma RowInRange(pm: PatchMatrix, lo: nat, t: Tag)
    requires Consistent(pm, lo) && ValidTag(pm, lo, t)
    ensures RowSum(pm, t.c, t.r) + t.jyl + 1 <= RowSum(pm, lo, 4)
  {
    assert At(pm, t.r, t.c) == pm[t.r][t.c];
    assert RowSum(pm, t.c, t.r + 1) == RowSum(pm, t.c, t.r) + Height(pm[t.r][t.c]);
    RowSumMono(pm, t.c, t.r + 1, 4);
    RowSumBelowFirstColumn(pm, lo, t.c, 4);
  }

  /** Distinct cells of a consistent region go to distinct mesh entries. */
  lemma WriteInjective(pm: PatchMatrix, lo: nat, t1: Tag, t2: Tag)
    requires Consistent(pm, lo) && ValidTag(pm, lo, t1) && ValidTag(pm, lo, t2)
    requires MkWrite(pm, lo, t1).ix == MkWrite(pm, lo, t2).ix
    requires MkWrite(pm, lo, t1).jy == MkWrite(pm, lo, t2).jy
    ensures t1 == t2
  {
    PositionFormula(pm, lo, t1);
    PositionFormula(pm, lo, t2);
    if t1.c < t2.c {
      ColumnsApart(pm, lo, t1, t2);
    } else if t2.c < t1.c {
      ColumnsApart(pm, lo, t2, t1);
    } else if t1.r < t2.r {
      RowsApart(pm, lo, t1, t2);
    } else if t2.r < t1.r {
      RowsApart(pm, lo, t2, t1);
    }
  }

  lemma ColumnsApart(pm: PatchMatrix, lo: nat, t1: Tag, t2: Tag)
    requires Consistent(pm, lo) && ValidTag(pm, lo, t1) && ValidTag(pm, lo, t2) && t1.c < t2.c
    ensures ColSum(pm, lo, t1.c) + t1.ixl < ColSum(pm, lo, t2.c) + t2.ixl
  {
    assert At(pm, 1, t1.c) == pm[1][t1.c];
    assert ColSum(pm, lo, t1.c + 1) == ColSum(pm, lo, t1.c) + Width(pm[1][t1.c]);
    ColSumMono(pm, lo, t1.c + 1, t2.c);
  }

  lemma RowsApart(pm: PatchMatrix, lo: nat, t1: Tag, t2: Tag)
    requires Consistent(pm, lo) && ValidTag(pm, lo, t1) && ValidTag(pm, lo, t2)
    requires t1.c == t2.c && t1.r < t2.r
    ensures RowSum(pm, t1.c, t1.r) + t1.jyl < RowSum(pm, t2.c, t2.r) + t2.jyl
  {
    assert At(pm, t1.r, t1.c) == pm[t1.r][t1.c];
    assert RowSum(pm, t1.c, t1.r + 1) == RowSum(pm, t1.c, t1.r) + Height(pm[t1.r][t1.c]);
    RowSumMono(pm, t1.c, t1.r + 1, t2.r);
  }

  // ------------------------------------------------- which writes are made

  /** A write the fill loop makes: a visited cell at its computed position. */
  predicate Produced(pm: PatchMatrix, lo: nat, w: Write)
    requires Shaped(pm, lo) && GridsNonEmpty(pm) && Readable(pm, lo)
  {
    ValidTag(pm, lo, w.tag) && w == MkWrite(pm, lo, w.tag)
  }

  lemma {:induction false} CellWritesMembers(pm: PatchMatrix, lo: nat, c: int, r: int, ixl: int, jyl: nat)
    requires Shaped(pm, lo) && GridsNonEmpty(pm) && Readable(pm, lo)
    requires lo <= c < lo + 4 && 1 <= r < 4 && pm[r][c].Has? && 0 <= ixl < Width(pm[r][c])
    ensures forall w :: w in CellWrites(pm, lo, c, r, ixl, jyl) <==>
              Produced(pm, lo, w) && w.tag.c == c && w.tag.r == r && w.tag.ixl == ixl && w.tag.jyl >= jyl
    decreases Height(pm[r][c]) - jyl
  {
    if jyl < Height(pm[r][c]) {
      CellWritesMembers(pm, lo, c, r, ixl, jyl + 1);
    }
  }

  lemma {:induction false} PatchWritesMembers(pm: PatchMatrix, lo: nat, c: int, r: int, ixl: nat)
    requires Shaped(pm, lo) && GridsNonEmpty(pm) && Readable(pm, lo)
    requires lo <= c < lo + 4 && 1 <= r < 4 && pm[r][c].Has?
    ensures forall w :: w in PatchWrites(pm, lo, c, r, ixl) <==>
              Produced(pm, lo, w) && w.tag.c == c && w.tag.r == r && w.tag.ixl >= ixl
    decreases Width(pm[r][c]) - ixl
  {
    if ixl < Width(pm[r][c]) {
      CellWritesMembers(pm, lo, c, r, ixl, 0);
      PatchWritesMembers(pm, lo, c, r, ixl + 1);
    }
  }

  lemma {:induction false} ColumnWritesMembers(pm: PatchMatrix, lo: nat, c: int, r: nat)
    requires Shaped(pm, lo) && GridsNonEmpty(pm) && Readable(pm, lo)
    requires lo <= c < lo + 4 && 1 <= r
    ensures forall w :: w in ColumnWrites(pm, lo, c, r) <==>
              Produced(pm, lo, w) && w.tag.c == c && w.tag.r >= r
    decreases 4 - r
  {
    if r < 4 {
      ColumnWritesMembers(pm, lo, c, r + 1);
      if pm[r][c].Has? {
        PatchWritesMembers(pm, lo, c, r, 0);
      }
    }
  }

  /** The fill loop writes every visited cell of every present patch, and
      nothing else. */
  lemma {:induction false} RegionWritesMembers(pm: PatchMatrix, lo: nat, c: nat)
    requires Shaped(pm, lo) && GridsNonEmpty(pm) && Readable(pm, lo)
    requires lo <= c
    ensures forall w :: w in RegionWrites(pm, lo, c) <==> Produced(pm, lo, w) && w.tag.c >= c
    decreases lo + 4 - c
  {
    if c < lo + 4 {
      ColumnWritesMembers(pm, lo, c, 1);
      RegionWritesMembers(pm, lo, c + 1);
    }
  }

  // ------------------------------------------------- the effect of the writes

  /** Writes that hit the same entry agree on what they put there. */
  predicate Coherent(ws: seq<Write>) {
    forall w1, w2 :: w1 in ws && w2 in ws && w1.ix == w2.ix && w1.jy == w2.jy ==> w1.cell == w2.cell
  }

  /** In-range, coherent writes succeed; each written entry holds its cell's
      five vertices, and every other entry is unchanged. */
  lemma {:induction false} ApplyCoherent(m: Mesh, ws: seq<Write>, np: nat, nr: nat)
    requires Dims(m, np, nr)
    requires forall w :: w in ws ==> 0 <= w.ix < np && 0 <= w.jy < nr
    requires Coherent(ws)
    ensures Apply(m, ws).Ok? && Dims(Apply(m, ws).value, np, nr)
    ensures forall w :: w in ws ==> Apply(m, ws).value[w.ix][w.jy] == Slots(w.cell)
    ensures forall i, j :: 0 <= i < np && 0 <= j < nr && (forall w :: w in ws ==> w.ix != i || w.jy != j) ==>
              Apply(m, ws).value[i][j] == m[i][j]
    decreases |ws|
  {
    if |ws| > 0 {
      var w0 := ws[0];
      assert Put(m, w0) == Ok(m[w0.ix := m[w0.ix][w0.jy := Slots(w0.cell)]]);
      var m' := Put(m, w0).value;
      var rest := ws[1..];
      assert forall w :: w in rest ==> w in ws;
      ApplyCoherent(m', rest, np, nr);
      assert Apply(m, ws) == Apply(m', rest);
      var res := Apply(m', rest).value;
      forall w | w in ws
        ensures res[w.ix][w.jy] == Slots(w.cell)
      {
        if w !in rest {
          assert w == w0;
          if exists w' :: w' in rest && w'.ix == w.ix && w'.jy == w.jy {
            var w' :| w' in rest && w'.ix == w.ix && w'.jy == w.jy;
            assert w'.cell == w.cell;
          }
        }
      }
    }
  }

  // ------------------------------------------------------- the filled region

  /** Entry (i, j) is the computed position of some visited cell. */
  ghost predicate Covered(pm: PatchMatrix, lo: nat, i: int, j: int)
    requires Consistent(pm, lo)
  {
    exists t :: ValidTag(pm, lo, t) && i == ColSum(pm, lo, t.c) + t.ixl + 1 && j == RowSum(pm, t.c, t.r) + t.jyl + 1
  }

  /** The writes of a consistent region fit the arrays and never collide. */
  lemma RegionWritesFit(pm: PatchMatrix, lo: nat)
    requires Consistent(pm, lo)
    ensures var ws := RegionWrites(pm, lo, lo);
            && (forall w :: w in ws ==>
                  1 <= w.ix <= ColSum(pm, lo, lo + 4) && 1 <= w.jy <= RowSum(pm, lo, 4))
            && Coherent(ws)
  {
    var ws := RegionWrites(pm, lo, lo);
    RegionWritesMembers(pm, lo, lo);
    forall w | w in ws
      ensures 1 <= w.ix <= ColSum(pm, lo, lo + 4) && 1 <= w.jy <= RowSum(pm, lo, 4)
    {
      WriteInRange(pm, lo, w.tag);
    }
    forall w1, w2 | w1 in ws && w2 in ws && w1.ix == w2.ix && w1.jy == w2.jy
      ensures w1.cell == w2.cell
    {
      WriteInjective(pm, lo, w1.tag, w2.tag);
    }
  }

  lemma FillIsApply(pm: PatchMatrix, lo: nat, np: nat, nr: nat)
    requires Consistent(pm, lo)
    ensures Fill(pm, lo, np, nr) == Apply(Zeros(np, nr), RegionWrites(pm, lo, lo))
  {
  }

  /** The fill of a consistent region, as the effect of its writes. */
  lemma FillFromWrites(pm: PatchMatrix, lo: nat, np: nat, nr: nat, ws: seq<Write>)
    requires Consistent(pm, lo)
    requires ws == RegionWrites(pm, lo, lo)
    requires forall w :: w in ws ==> 0 <= w.ix < np && 0 <= w.jy < nr
    requires Coherent(ws)
    ensures var r := Fill(pm, lo, np, nr);
            && r.Ok? && Dims(r.value, np, nr)
            && (forall w :: w in ws ==> r.value[w.ix][w.jy] == Slots(w.cell))
            && (forall i, j :: 0 <= i < np && 0 <= j < nr && (forall w :: w in ws ==> w.ix != i || w.jy != j) ==>
                  r.value[i][j] == ZeroSlots())
  {
    FillIsApply(pm, lo, np, nr);
    ApplyCoherent(Zeros(np, nr), ws, np, nr);
  }

  /** The mesh entry at a visited cell's position, strictly inside an
      np x nr array, holds the cell's five vertices in slot order. */
  predicate HoldsCell(pm: PatchMatrix, lo: nat, np: nat, nr: nat, m: Mesh, t: Tag)
    requires Shaped(pm, lo) && GridsNonEmpty(pm) && Readable(pm, lo) && ValidTag(pm, lo, t)
  {
    var i, j := ColSum(pm, lo, t.c) + t.ixl + 1, RowSum(pm, t.c, t.r) + t.jyl + 1;
    && 1 <= i < np - 1 && 1 <= j < nr - 1 && i < |m| && j < |m[i]|
    && m[i][j] == Slots(CellOf(pm, lo, t))
  }

  /** A visited cell's entry holds the cell, when the writes include it. */
  lemma TagEntry(pm: PatchMatrix, lo: nat, np: nat, nr: nat, ws: seq<Write>, m: Mesh, t: Tag)
    requires Consistent(pm, lo) && ValidTag(pm, lo, t)
    requires np == ColSum(pm, lo, lo + 4) + 2 && nr == RowSum(pm, lo, 4) + 2
    requires MkWrite(pm, lo, t) in ws
    requires forall w :: w in ws ==> 0 <= w.ix < |m| && 0 <= w.jy < |m[w.ix]| && m[w.ix][w.jy] == Slots(w.cell)
    ensures HoldsCell(pm, lo, np, nr, m, t)
  {
    PositionFormula(pm, lo, t);
    WriteInRange(pm, lo, t);
    var w := MkWrite(pm, lo, t);
    assert m[w.ix][w.jy] == Slots(w.cell);
  }

  /** An entry that is no visited cell's position is left as it was. */
  lemma UncoveredEntry(pm: PatchMatrix, lo: nat, ws: seq<Write>, m: Mesh, i: int, j: int)
    requires Consistent(pm, lo)
    requires forall w :: w in ws ==> Produced(pm, lo, w)
    requires !Covered(pm, lo, i, j)
    ensures forall w :: w in ws ==> w.ix != i || w.jy != j
  {
    forall w | w in ws
      ensures w.ix != i || w.jy != j
    {
      PositionFormula(pm, lo, w.tag);
    }
  }

  /** On consistent input, one region's fill succeeds on arrays of the
      computed totals. Cell (ixl, jyl) of the patch in row r and column c sits
      at poloidal index (cells of the columns before c) + ixl + 1 and radial
      index (cells of the patches above it in its column) + jyl + 1, strictly
      inside the arrays, with its five vertices in slot order; every other
      entry keeps its initial zeros. */
  lemma FillContents(pm: PatchMatrix, lo: nat, np: nat, nr: nat)
    requires Consistent(pm, lo) && Totals(pm, lo) == Ok((np, nr))
    ensures var r := Fill(pm, lo, np, nr);
            && r.Ok? && Dims(r.value, np, nr)
            && (forall t :: ValidTag(pm, lo, t) ==> HoldsCell(pm, lo, np, nr, r.value, t))
            && (forall i, j :: 0 <= i < np && 0 <= j < nr && !Covered(pm, lo, i, j) ==>
                  r.value[i][j] == ZeroSlots())
  {
    TotalsConsistent(pm, lo);
    var ws := RegionWrites(pm, lo, lo);
    RegionWritesFit(pm, lo);
    FillFromWrites(pm, lo, np, nr, ws);
    RegionWritesMembers(pm, lo, lo);
    var m := Fill(pm, lo, np, nr).value;
    FillHolds(pm, lo, np, nr, ws, m);
    FillZeros(pm, lo, np, nr, ws, m);
  }

  /** Every visited cell is held by a mesh that carries all the writes. */
  lemma FillHolds(pm: PatchMatrix, lo: nat, np: nat, nr: nat, ws: seq<Write>, m: Mesh)
    requires Consistent(pm, lo)
    requires np == ColSum(pm, lo, lo + 4) + 2 && nr == RowSum(pm, lo, 4) + 2
    requires forall w :: w in ws <==> Produced(pm, lo, w) && w.tag.c >= lo
    requires Dims(m, np, nr)
    requires forall w :: w in ws ==> 0 <= w.ix < np && 0 <= w.jy < nr && m[w.ix][w.jy] == Slots(w.cell)
    ensures forall t :: ValidTag(pm, lo, t) ==> HoldsCell(pm, lo, np, nr, m, t)
  {
    forall t | ValidTag(pm, lo, t)
      ensures HoldsCell(pm, lo, np, nr, m, t)
    {
      TagEntry(pm, lo, np, nr, ws, m, t);
    }
  }

  /** An entry no write reaches keeps its zeros. */
  lemma FillZeros(pm: PatchMatrix, lo: nat, np: nat, nr: nat, ws: seq<Write>, m: Mesh)
    requires Consistent(pm, lo)
    requires forall w :: w in ws ==> Produced(pm, lo, w)
    requires Dims(m, np, nr)
    requires forall i, j :: 0 <= i < np && 0 <= j < nr && (forall w :: w in ws ==> w.ix != i || w.jy != j) ==>
               m[i][j] == ZeroSlots()
    ensures forall i, j :: 0 <= i < np && 0 <= j < nr && !Covered(pm, lo, i, j) ==> m[i][j] == ZeroSlots()
  {
    forall i, j | 0 <= i < np && 0 <= j < nr && !Covered(pm, lo, i, j)
      ensures m[i][j] == ZeroSlots()
    {
      UncoveredEntry(pm, lo, ws, m, i, j);
    }
  }

  /** Every border entry of a filled consistent region is zero. */
  lemma FillBordersZero(pm: PatchMatrix, lo: nat, np: nat, nr: nat, i: int, j: int)
    requires Consistent(pm, lo) && Totals(pm, lo) == Ok((np, nr))
    requires 0 <= i < np && 0 <= j < nr && (i == 0 || i == np - 1 || j == 0 || j == nr - 1)
    ensures Fill(pm, lo, np, nr).Ok? && Dims(Fill(pm, lo, np, nr).value, np, nr)
    ensures Fill(pm, lo, np, nr).value[i][j] == ZeroSlots()
  {
    FillContents(pm, lo, np, nr);
  }

  // ------------------------------------------------ flip and concatenation

  /** A coordinate array `[poloidal][radial][slot]`, as numpy holds rm and zm. */
  type Coords = seq<seq<seq<real>>>

  /** `add_guardc(array, ixlb, ixrb)`; its body is not part of this model. */
  type Guard = (Coords, int, int) -> Coords

  /** The R (`r` true) or Z coordinates of a mesh of points. */
  function Project(m: Mesh, r: bool): (a: Coords)
    ensures |a| == |m|
    ensures forall i :: 0 <= i < |m| ==> |a[i]| == |m[i]|
    ensures forall i, j :: 0 <= i < |m| && 0 <= j < |m[i]| ==> |a[i][j]| == |m[i][j]|
    ensures forall i, j, k :: 0 <= i < |m| && 0 <= j < |m[i]| && 0 <= k < |m[i][j]| ==>
              a[i][j][k] == if r then m[i][j][k].x else m[i][j][k].y
  {
    seq(|m|, i requires 0 <= i < |m| =>
      seq(|m[i]|, j requires 0 <= j < |m[i]| =>
        seq(|m[i][j]|, k requires 0 <= k < |m[i][j]| => if r then m[i][j][k].x else m[i][j][k].y)))
  }

  /** `a[i] = a[i][::-1]` for every poloidal index i: the radial axis reversed. */
  function Flip<T>(a: seq<seq<T>>): (f: seq<seq<T>>)
    ensures |f| == |a|
    ensures forall i :: 0 <= i < |a| ==> f[i] == Rev(a[i])
  {
    seq(|a|, i requires 0 <= i < |a| => Rev(a[i]))
  }

  /** Flipping twice restores the array. */
  lemma FlipFlip<T>(a: seq<seq<T>>)
    ensures Flip(Flip(a)) == a
  {
    forall i | 0 <= i < |a|
      ensures Flip(Flip(a))[i] == a[i]
    {
      RevRev(a[i]);
    }
  }

  /** After the flip, entry (i, j) is the pre-flip entry (i, n - 1 - j) of an
      array with n radial entries; the poloidal order is unchanged. */
  lemma FlipEntry<T>(a: seq<seq<T>>, n: nat, i: int, j: int)
    requires forall i :: 0 <= i < |a| ==> |a[i]| == n
    requires 0 <= i < |a| && 0 <= j < n
    ensures |Flip(a)| == |a| && |Flip(a)[i]| == n
    ensures Flip(a)[i][j] == a[i][n - 1 - j]
  {
  }

  /** `np.concatenate((a, b))` along the poloidal axis: numpy refuses arrays
      whose radial extents differ. */
  function Concatenate(a: Coords, b: Coords): (r: Result<Coords, Exception>)
    ensures r.Err? <==> |a| > 0 && |b| > 0 && |a[0]| != |b[0]|
    ensures r.Err? ==> r.error == ValueError
    ensures r.Ok? ==>
              && |r.value| == |a| + |b|
              && (forall i :: 0 <= i < |a| ==> r.value[i] == a[i])
              && (forall i :: 0 <= i < |b| ==> r.value[|a| + i] == b[i])
  {
    if |a| > 0 && |b| > 0 && |a[0]| != |b[0]| then Err(ValueError) else Ok(a + b)
  }

  /** `concat_grid`: both regions filled, their coordinate arrays flipped,
      given guard cells and joined; the result is `(rm, zm)`. */
  function Concat(pm: PatchMatrix, guard: Guard): (r: Result<(Coords, Coords), Exception>)
    ensures r.Err? ==> r.error in {IndexError, AttributeError, ValueError}
  {
    if !GridsNonEmpty(pm) then Err(IndexError)
    else
      match Totals(pm, 1)
      case Err(e) => Err(e)
      case Ok(t1) =>
        match Totals(pm, 7)
        case Err(e) => Err(e)
        case Ok(t2) =>
          match Fill(pm, 1, t1.0, t1.1)
          case Err(e) => Err(e)
          case Ok(m1) =>
            match Fill(pm, 7, t2.0, t2.1)
            case Err(e) => Err(e)
            case Ok(m2) =>
              var rm1 := guard(Flip(Project(m1, true)), 0, |m1| - 2);
              var zm1 := guard(Flip(Project(m1, false)), 0, |m1| - 2);
              var rm2 := guard(Flip(Project(m2, true)), 0, |m2| - 2);
              var zm2 := guard(Flip(Project(m2, false)), 0, |m2| - 2);
              match Concatenate(rm1, rm2)
              case Err(e) => Err(e)
              case Ok(rm) =>
                match Concatenate(zm1, zm2)
                case Err(e) => Err(e)
                case Ok(zm) => Ok((rm, zm))
  }

  /** The guard step left out: the array unchanged. */
  function NoGuard(a: Coords, ixlb: int, ixrb: int): Coords {
    a
  }

  /** A mesh point's coordinates after projection and flip. */
  lemma FlippedPoint(m: Mesh, np: nat, nr: nat, i: int, j: int, k: int)
    requires Dims(m, np, nr) && 0 <= i < np && 0 <= j < nr && 0 <= k < 5
    ensures var rf, zf := Flip(Project(m, true)), Flip(Project(m, false));
            && |rf| == np && |rf[i]| == nr && |rf[i][nr - 1 - j]| == 5
            && |zf| == np && |zf[i]| == nr && |zf[i][nr - 1 - j]| == 5
            && rf[i][nr - 1 - j][k] == m[i][j][k].x
            && zf[i][nr - 1 - j][k] == m[i][j][k].y
  {
    var rp, zp := Project(m, true), Project(m, false);
    assert Flip(rp)[i] == Rev(rp[i]);
    assert Flip(zp)[i] == Rev(zp[i]);
  }

  /** With both regions consistent, `concat_grid` (guard step left out)
      succeeds exactly when the two regions have the same radial total, and
      then returns region 1's flipped arrays followed by region 2's;
      otherwise numpy's concatenation raises ValueError. */
  lemma ConcatLayout(pm: PatchMatrix, np1: nat, nr1: nat, np2: nat, nr2: nat)
    requires Consistent(pm, 1) && Totals(pm, 1) == Ok((np1, nr1))
    requires Consistent(pm, 7) && Totals(pm, 7) == Ok((np2, nr2))
    ensures Fill(pm, 1, np1, nr1).Ok? && Fill(pm, 7, np2, nr2).Ok?
    ensures nr1 != nr2 ==> Concat(pm, NoGuard) == Err(ValueError)
    ensures nr1 == nr2 ==>
              var m1, m2 := Fill(pm, 1, np1, nr1).value, Fill(pm, 7, np2, nr2).value;
              Concat(pm, NoGuard) == Ok((Flip(Project(m1, true)) + Flip(Project(m2, true)),
                                         Flip(Project(m1, false)) + Flip(Project(m2, false))))
  {
    FillContents(pm, 1, np1, nr1);
    FillContents(pm, 7, np2, nr2);
    TotalsConsistent(pm, 1);
    TotalsConsistent(pm, 7);
    var m1, m2 := Fill(pm, 1, np1, nr1).value, Fill(pm, 7, np2, nr2).value;
    var rf1, rf2 := Flip(Project(m1, true)), Flip(Project(m2, true));
    assert |rf1| == np1 && |rf1[0]| == nr1 && |rf2| == np2 && |rf2[0]| == nr2;
    var zf1, zf2 := Flip(Project(m1, false)), Flip(Project(m2, false));
    assert |zf1| == np1 && |zf1[0]| == nr1 && |zf2| == np2 && |zf2[0]| == nr2;
  }

  /** Slot k of entry (i, j) of the arrays `rm`, `zm` holds the R and Z
      coordinates of p. */
  predicate EntryIs(rm: Coords, zm: Coords, i: int, j: int, k: int, p: Point) {
    && 0 <= i < |rm| && 0 <= j < |rm[i]| && 0 <= k < |rm[i][j]| && rm[i][j][k] == p.x
    && 0 <= i < |zm| && 0 <= j < |zm[i]| && 0 <= k < |zm[i][j]| && zm[i][j][k] == p.y
  }

  /** Point (i, j, k) of region 1's mesh is entry (i, nr - 1 - j, k) of its
      flipped arrays joined to any others. */
  lemma JoinedFirst(m1: Mesh, np1: nat, nr: nat, rf2: Coords, zf2: Coords, rm: Coords, zm: Coords,
                    i: int, j: int, k: int, p: Point)
    requires Dims(m1, np1, nr)
    requires rm == Flip(Project(m1, true)) + rf2 && zm == Flip(Project(m1, false)) + zf2
    requires 0 <= i < np1 && 0 <= j < nr && 0 <= k < 5 && m1[i][j][k] == p
    ensures EntryIs(rm, zm, i, nr - 1 - j, k, p)
  {
    var rf1, zf1 := Flip(Project(m1, true)), Flip(Project(m1, false));
    FlippedPoint(m1, np1, nr, i, j, k);
    assert rm[i] == rf1[i] && zm[i] == zf1[i];
  }

  /** Point (i, j, k) of region 2's mesh is entry (np1 + i, nr - 1 - j, k)
      of its flipped arrays joined after np1 others. */
  lemma JoinedSecond(m2: Mesh, np1: nat, np2: nat, nr: nat, rf1: Coords, zf1: Coords, rm: Coords, zm: Coords,
                     i: int, j: int, k: int, p: Point)
    requires Dims(m2, np2, nr) && |rf1| == np1 && |zf1| == np1
    requires rm == rf1 + Flip(Project(m2, true)) && zm == zf1 + Flip(Project(m2, false))
    requires 0 <= i < np2 && 0 <= j < nr && 0 <= k < 5 && m2[i][j][k] == p
    ensures EntryIs(rm, zm, np1 + i, nr - 1 - j, k, p)
  {
    var rf2, zf2 := Flip(Project(m2, true)), Flip(Project(m2, false));
    FlippedPoint(m2, np2, nr, i, j, k);
    AppendIndex(rf1, rf2, i);
    AppendIndex(zf1, zf2, i);
  }

  /** Indexing past the first part of a concatenation. */
  lemma AppendIndex<T>(a: seq<T>, b: seq<T>, i: int)
    requires 0 <= i < |b|
    ensures (a + b)[|a| + i] == b[i]
  {
  }

  /** An entry of the joined arrays, renamed by the cell it holds. */
  lemma EntryAtCell(pm: PatchMatrix, lo: nat, off: nat, nr: nat, t: Tag, k: int, rm: Coords, zm: Coords,
                    i: int, jj: int, p: Point)
    requires Shaped(pm, lo) && GridsNonEmpty(pm) && Readable(pm, lo) && ValidTag(pm, lo, t) && 0 <= k < 5
    requires i == off + ColSum(pm, lo, t.c) + t.ixl + 1 && jj == RowSum(pm, t.c, t.r) + t.jyl + 1
    requires p == Slots(CellOf(pm, lo, t))[k]
    requires EntryIs(rm, zm, i, nr - 1 - jj, k, p)
    ensures EntryIs(rm, zm, off + ColSum(pm, lo, t.c) + t.ixl + 1, nr - 2 - RowSum(pm, t.c, t.r) - t.jyl, k,
                    Slots(CellOf(pm, lo, t))[k])
  {
  }

  /** The vertex slots a visited cell's entry holds. */
  lemma CellSlots(pm: PatchMatrix, lo: nat, np: nat, nr: nat, m: Mesh, t: Tag, k: int)
    requires Shaped(pm, lo) && GridsNonEmpty(pm) && Readable(pm, lo) && ValidTag(pm, lo, t)
    requires HoldsCell(pm, lo, np, nr, m, t) && Dims(m, np, nr) && 0 <= k < 5
    ensures var i, jj := ColSum(pm, lo, t.c) + t.ixl + 1, RowSum(pm, t.c, t.r) + t.jyl + 1;
            && 0 <= i < np && 0 <= jj < nr && m[i][jj][k] == Slots(CellOf(pm, lo, t))[k]
  {
  }

  /** The two filled region meshes behind a successful `concat_grid` with
      the guard step taken as the identity. */
  ghost predicate Joined(pm: PatchMatrix, np1: nat, nr1: nat, np2: nat, nr2: nat,
                         m1: Mesh, m2: Mesh, rm: Coords, zm: Coords)
    requires Consistent(pm, 1) && Consistent(pm, 7)
  {
    && nr1 == nr2 && Placed(m1, 0, np1, nr1, rm, zm) && Placed(m2, np1, np2, nr2, rm, zm)
    && (forall t :: ValidTag(pm, 1, t) ==> HoldsCell(pm, 1, np1, nr1, m1, t))
    && (forall t :: ValidTag(pm, 7, t) ==> HoldsCell(pm, 7, np2, nr2, m2, t))
  }

  lemma MeshesOf(pm: PatchMatrix, np1: nat, nr1: nat, np2: nat, nr2: nat, rm: Coords, zm: Coords)
    requires Consistent(pm, 1) && Totals(pm, 1) == Ok((np1, nr1))
    requires Consistent(pm, 7) && Totals(pm, 7) == Ok((np2, nr2))
    requires Concat(pm, NoGuard) == Ok((rm, zm))
    ensures exists m1, m2 :: Joined(pm, np1, nr1, np2, nr2, m1, m2, rm, zm)
  {
    ConcatLayout(pm, np1, nr1, np2, nr2);
    FillContents(pm, 1, np1, nr1);
    FillContents(pm, 7, np2, nr2);
    var m1, m2 := Fill(pm, 1, np1, nr1).value, Fill(pm, 7, np2, nr2).value;
    PlacedFirst(m1, np1, nr1, Flip(Project(m2, true)), Flip(Project(m2, false)), rm, zm);
    PlacedSecond(m2, np1, np2, nr2, Flip(Project(m1, true)), Flip(Project(m1, false)), rm, zm);
    assert Joined(pm, np1, nr1, np2, nr2, m1, m2, rm, zm);
  }

  /** Every point of mesh `m`, radially flipped, sits `off` entries along
      the poloidal axis of `rm` and `zm`. */
  ghost predicate Placed(m: Mesh, off: nat, np: nat, nr: nat, rm: Coords, zm: Coords) {
    && Dims(m, np, nr)
    && forall i, j, k :: 0 <= i < np && 0 <= j < nr && 0 <= k < 5 ==>
         EntryIs(rm, zm, off + i, nr - 1 - j, k, m[i][j][k])
  }

  /** Region 1's mesh is placed at the start of the joined arrays. */
  lemma PlacedFirst(m1: Mesh, np1: nat, nr: nat, rf2: Coords, zf2: Coords, rm: Coords, zm: Coords)
    requires Dims(m1, np1, nr)
    requires rm == Flip(Project(m1, true)) + rf2 && zm == Flip(Project(m1, false)) + zf2
    ensures Placed(m1, 0, np1, nr, rm, zm)
  {
    forall i, j, k | 0 <= i < np1 && 0 <= j < nr && 0 <= k < 5
      ensures EntryIs(rm, zm, 0 + i, nr - 1 - j, k, m1[i][j][k])
    {
      JoinedFirst(m1, np1, nr, rf2, zf2, rm, zm, i, j, k, m1[i][j][k]);
    }
  }

  /** Region 2's mesh is placed right after region 1's arrays. */
  lemma PlacedSecond(m2: Mesh, np1: nat, np2: nat, nr: nat, rf1: Coords, zf1: Coords, rm: Coords, zm: Coords)
    requires Dims(m2, np2, nr) && |rf1| == np1 && |zf1| == np1
    requires rm == rf1 + Flip(Project(m2, true)) && zm == zf1 + Flip(Project(m2, false))
    ensures Placed(m2, np1, np2, nr, rm, zm)
  {
    forall i, j, k | 0 <= i < np2 && 0 <= j < nr && 0 <= k < 5
      ensures EntryIs(rm, zm, np1 + i, nr - 1 - j, k, m2[i][j][k])
    {
      JoinedSecond(m2, np1, np2, nr, rf1, zf1, rm, zm, i, j, k, m2[i][j][k]);
    }
  }

  /** A cell held by a placed mesh lands at its column and row offsets. */
  lemma CellEntry(pm: PatchMatrix, lo: nat, off: nat, np: nat, nr: nat, m: Mesh, rm: Coords, zm: Coords, t: Tag, k: int,
                  col: int, row: int)
    requires Shaped(pm, lo) && GridsNonEmpty(pm) && Readable(pm, lo) && ValidTag(pm, lo, t) && 0 <= k < 5
    requires Placed(m, off, np, nr, rm, zm) && HoldsCell(pm, lo, np, nr, m, t)
    requires col == off + ColSum(pm, lo, t.c) + t.ixl + 1 && row == nr - 2 - RowSum(pm, t.c, t.r) - t.jyl
    ensures EntryIs(rm, zm, col, row, k, Slots(CellOf(pm, lo, t))[k])
  {
    var i, jj := ColSum(pm, lo, t.c) + t.ixl + 1, RowSum(pm, t.c, t.r) + t.jyl + 1;
    CellSlots(pm, lo, np, nr, m, t, k);
    var p := Slots(CellOf(pm, lo, t))[k];
    assert EntryIs(rm, zm, off + i, nr - 1 - jj, k, m[i][jj][k]);
    EntryAtCell(pm, lo, off, nr, t, k, rm, zm, off + i, jj, p);
  }

  /** Region 1's cell placement, from the two filled meshes. */
  lemma JoinedCellFirst(pm: PatchMatrix, np1: nat, nr1: nat, np2: nat, nr2: nat,
                        m1: Mesh, m2: Mesh, rm: Coords, zm: Coords, t: Tag, k: int)
    requires Consistent(pm, 1) && Consistent(pm, 7) && Joined(pm, np1, nr1, np2, nr2, m1, m2, rm, zm)
    requires ValidTag(pm, 1, t) && 0 <= k < 5
    ensures EntryIs(rm, zm, ColSum(pm, 1, t.c) + t.ixl + 1, nr1 - 2 - RowSum(pm, t.c, t.r) - t.jyl, k,
                    Slots(CellOf(pm, 1, t))[k])
  {
    CellEntry(pm, 1, 0, np1, nr1, m1, rm, zm, t, k,
              ColSum(pm, 1, t.c) + t.ixl + 1, nr1 - 2 - RowSum(pm, t.c, t.r) - t.jyl);
  }

  /** Region 2's cell placement, from the two filled meshes. */
  lemma JoinedCellSecond(pm: PatchMatrix, np1: nat, nr1: nat, np2: nat, nr2: nat,
                         m1: Mesh, m2: Mesh, rm: Coords, zm: Coords, t: Tag, k: int)
    requires Consistent(pm, 1) && Consistent(pm, 7) && Joined(pm, np1, nr1, np2, nr2, m1, m2, rm, zm)
    requires ValidTag(pm, 7, t) && 0 <= k < 5
    ensures EntryIs(rm, zm, np1 + ColSum(pm, 7, t.c) + t.ixl + 1, nr2 - 2 - RowSum(pm, t.c, t.r) - t.jyl, k,
                    Slots(CellOf(pm, 7, t))[k])
  {
    CellEntry(pm, 7, np1, np2, nr2, m2, rm, zm, t, k,
              np1 + ColSum(pm, 7, t.c) + t.ixl + 1, nr2 - 2 - RowSum(pm, t.c, t.r) - t.jyl);
  }

  /** Region 1, with the guard step taken as the identity: cell (ixl, jyl)
      of the patch in row r and column c lands at poloidal index (cells of the columns before c) +
      ixl + 1 and, the radial axis flipped, at radial index nr - 2 - (cells
      of the patches above it) - jyl of `rm` and `zm`; slot k holds the R and
      Z coordinates of the cell's k-th vertex. */
  lemma CellPlacementFirst(pm: PatchMatrix, np1: nat, nr1: nat, np2: nat, nr2: nat, rm: Coords, zm: Coords, t: Tag, k: int)
    requires Consistent(pm, 1) && Totals(pm, 1) == Ok((np1, nr1))
    requires Consistent(pm, 7) && Totals(pm, 7) == Ok((np2, nr2))
    requires Concat(pm, NoGuard) == Ok((rm, zm))
    requires ValidTag(pm, 1, t) && 0 <= k < 5
    ensures EntryIs(rm, zm, ColSum(pm, 1, t.c) + t.ixl + 1, nr1 - 2 - RowSum(pm, t.c, t.r) - t.jyl, k,
                    Slots(CellOf(pm, 1, t))[k])
  {
    MeshesOf(pm, np1, nr1, np2, nr2, rm, zm);
    var m1, m2 :| Joined(pm, np1, nr1, np2, nr2, m1, m2, rm, zm);
    JoinedCellFirst(pm, np1, nr1, np2, nr2, m1, m2, rm, zm, t, k);
  }

  /** Region 2, with the guard step taken as the identity: as for region 1,
      with columns 7-10 and the poloidal index shifted by region 1's total. */
  lemma CellPlacementSecond(pm: PatchMatrix, np1: nat, nr1: nat, np2: nat, nr2: nat, rm: Coords, zm: Coords, t: Tag, k: int)
    requires Consistent(pm, 1) && Totals(pm, 1) == Ok((np1, nr1))
    requires Consistent(pm, 7) && Totals(pm, 7) == Ok((np2, nr2))
    requires Concat(pm, NoGuard) == Ok((rm, zm))
    requires ValidTag(pm, 7, t) && 0 <= k < 5
    ensures EntryIs(rm, zm, np1 + ColSum(pm, 7, t.c) + t.ixl + 1, nr2 - 2 - RowSum(pm, t.c, t.r) - t.jyl, k,
                    Slots(CellOf(pm, 7, t))[k])
  {
    MeshesOf(pm, np1, nr1, np2, nr2, rm, zm);
    var m1, m2 :| Joined(pm, np1, nr1, np2, nr2, m1, m2, rm, zm);
    JoinedCellSecond(pm, np1, nr1, np2, nr2, m1, m2, rm, zm, t, k);
  }
}
