/** The settings-driven steps of the SF45 grid: the resolution and check of
    the cell counts (`GetNpoints`), the X-point corner snapping
    (`AdjustPatch`), the neighbour-boundary lookups
    (`GetBoundaryPoints`, `SetPatchBoundaryPoints`), and the patch loop of
    `construct_grid` with its `CorrectDistortion` precedence.

    Settings sections are maps from keys to values; a missing section is
    `None`. Reading a missing key raises KeyError. */
module SF45Settings {
  import opened Wrappers
  import opened Geometry
  import opened SF45Patches

  // ------------------------------------------------------------ GetNpoints

  /** `settings['grid_params']['grid_generation']`, or None when absent. */
  type Section = Option<map<string, int>>

  /** `gg[key]`: KeyError when the key, or the section, is missing. */
  function Get(gg: Section, key: string): (r: Result<int, Exception>)
    ensures r.Ok? <==> gg.Some? && key in gg.value
    ensures r.Ok? ==> r.value == gg.value[key]
    ensures r.Err? ==> r.error == KeyError
  {
    if gg.Some? && key in gg.value then Ok(gg.value[key]) else Err(KeyError)
  }

  /** `try: v = gg[key]` / `except: v = gg[global]`: the region's own key
      wins, the global key stands in for it, and KeyError escapes the
      `except` when neither is there (or the section is missing). */
  function Lookup(gg: Section, key: string, global: string): (r: Result<int, Exception>)
    ensures r.Ok? <==> gg.Some? && (key in gg.value || global in gg.value)
    ensures r.Ok? && key in gg.value ==> r.value == gg.value[key]
    ensures r.Ok? && key !in gg.value ==> r.value == gg.value[global]
    ensures r.Err? ==> r.error == KeyError
  {
    if Get(gg, key).Ok? then Get(gg, key) else Get(gg, global)
  }

  /** The six resolved cell counts. */
  datatype Counts = Counts(npSol: int, npCore: int, npPf: int, nrSol: int, nrCore: int, nrPf: int)

  function Min(a: int, b: int): int {
    if a <= b then a else b
  }

  /** One consistency check: equal values pass; unequal ones raise
      ValueError under `Enforce`, or are both set to their minimum. */
  function Reconcile(a: int, b: int, enforce: bool): Result<(int, int), Exception> {
    if a == b then Ok((a, b))
    else if enforce then Err(ValueError)
    else Ok((Min(a, b), Min(a, b)))
  }

  /** The resolution and check of `GetNpoints`, in the source's order: the
      three poloidal lookups, the SOL/core poloidal check, the three radial
      lookups, then the PF/core radial check. */
  function Resolve(gg: Section, enforce: bool): (r: Result<Counts, Exception>)
    ensures r.Err? ==> r.error in {KeyError, ValueError}
    ensures r.Ok? ==> AllPresent(gg)
  {
    var npSol :- Lookup(gg, "np_sol", "np_global");
    var npCore :- Lookup(gg, "np_core", "np_global");
    var npPf :- Lookup(gg, "np_pf", "np_global");
    var np :- Reconcile(npSol, npCore, enforce);
    var nrSol :- Lookup(gg, "nr_sol", "nr_global");
    var nrCore :- Lookup(gg, "nr_core", "nr_global");
    var nrPf :- Lookup(gg, "nr_pf", "nr_global");
    var nr :- Reconcile(nrPf, nrCore, enforce);
    Ok(Counts(np.0, np.1, npPf, nrSol, nr.1, nr.0))
  }

  /** All six lookups succeed. */
  predicate AllPresent(gg: Section) {
    && Lookup(gg, "np_sol", "np_global").Ok? && Lookup(gg, "np_core", "np_global").Ok?
    && Lookup(gg, "np_pf", "np_global").Ok?
    && Lookup(gg, "nr_sol", "nr_global").Ok? && Lookup(gg, "nr_core", "nr_global").Ok?
    && Lookup(gg, "nr_pf", "nr_global").Ok?
  }

  /** After the checks, the checked pairs agree: SOL and core poloidal
      counts, PF and core radial counts. The PF poloidal and SOL radial
      counts are never checked and keep their looked-up values. */
  lemma ResolveAgrees(gg: Section, enforce: bool)
    requires Resolve(gg, enforce).Ok?
    ensures var c := Resolve(gg, enforce).value;
            && AllPresent(gg)
            && c.npSol == c.npCore && c.nrPf == c.nrCore
            && c.npPf == Lookup(gg, "np_pf", "np_global").value
            && c.nrSol == Lookup(gg, "nr_sol", "nr_global").value
  {
  }

  /** Under `Enforce`, a successful resolution is exactly the looked-up
      values, and any mismatch of a checked pair raises ValueError. */
  lemma ResolveEnforced(gg: Section)
    requires AllPresent(gg)
    ensures var npSol, npCore := Lookup(gg, "np_sol", "np_global").value, Lookup(gg, "np_core", "np_global").value;
            var nrCore, nrPf := Lookup(gg, "nr_core", "nr_global").value, Lookup(gg, "nr_pf", "nr_global").value;
            && (Resolve(gg, true).Err? <==> npSol != npCore || nrPf != nrCore)
            && (Resolve(gg, true).Err? ==> Resolve(gg, true).error == ValueError)
            && (Resolve(gg, true).Ok? ==>
                  Resolve(gg, true).value.npSol == npSol && Resolve(gg, true).value.nrCore == nrCore)
  {
  }

  /** Without `Enforce`, resolution fails only on a missing key, and each
      checked pair becomes the minimum of its two looked-up values. */
  lemma ResolveClamped(gg: Section)
    ensures Resolve(gg, false).Ok? <==> AllPresent(gg)
    ensures Resolve(gg, false).Err? ==> Resolve(gg, false).error == KeyError
    ensures Resolve(gg, false).Ok? ==>
              var c := Resolve(gg, false).value;
              && c.npSol == Min(Lookup(gg, "np_sol", "np_global").value, Lookup(gg, "np_core", "np_global").value)
              && c.nrCore == Min(Lookup(gg, "nr_pf", "nr_global").value, Lookup(gg, "nr_core", "nr_global").value)
  {
  }

  /** The poloidal check comes before the radial lookups: a poloidal
      mismatch under `Enforce` raises ValueError even when no radial key is
      present. */
  lemma PoloidalCheckFirst(gg: map<string, int>)
    requires "np_global" in gg && "np_sol" in gg && "np_core" in gg && gg["np_sol"] != gg["np_core"]
    ensures Resolve(Some(gg), true) == Err(ValueError)
  {
  }

  /** `settings['target_plates']`: plate name to its settings. */
  type PlateSection = Option<map<string, map<string, int>>>

  /** The plate lookup of a plate patch: `np_local` of `plate_W1` for a
      West plate, of `plate_E1` for an East one; nothing otherwise. */
  function PlateCells(tp: PlateSection, platePatch: bool, location: Option<Side>): (r: Result<Option<int>, Exception>)
    ensures !platePatch || location.None? || location.value in {N, S} ==> r == Ok(None)
    ensures platePatch && location == Some(W) ==>
              && (r.Ok? <==> tp.Some? && "plate_W1" in tp.value && "np_local" in tp.value["plate_W1"])
              && (r.Ok? ==> r.value == Some(tp.value["plate_W1"]["np_local"]))
              && (r.Err? ==> r.error == KeyError)
    ensures platePatch && location == Some(E) ==>
              && (r.Ok? <==> tp.Some? && "plate_E1" in tp.value && "np_local" in tp.value["plate_E1"])
              && (r.Ok? ==> r.value == Some(tp.value["plate_E1"]["np_local"]))
              && (r.Err? ==> r.error == KeyError)
  {
    if !platePatch || location.None? then Ok(None)
    else
      var plate := if location.value == W then "plate_W1" else "plate_E1";
      if location.value != W && location.value != E then Ok(None)
      else if tp.None? || plate !in tp.value || "np_local" !in tp.value[plate] then Err(KeyError)
      else Ok(Some(tp.value[plate]["np_local"]))
  }

  /** `GetNpoints`: after the resolution and the plate lookup it returns
      `(nr_cells, np_cells)`, and `nr_cells` is never assigned, so the call
      always raises; NameError when nothing failed before. */
  function GetNpoints(gg: Section, tp: PlateSection, platePatch: bool, location: Option<Side>,
                      enforce: bool): (r: Result<(int, int), Exception>)
    ensures r.Err?
    ensures Resolve(gg, enforce).Err? ==> r.error == Resolve(gg, enforce).error
    ensures r.error == NameError <==> Resolve(gg, enforce).Ok? && PlateCells(tp, platePatch, location).Ok?
    ensures Resolve(gg, enforce).Ok? && PlateCells(tp, platePatch, location).Err? ==>
              r.error == PlateCells(tp, platePatch, location).error
  {
    var counts :- Resolve(gg, enforce);
    var cells :- PlateCells(tp, platePatch, location);
    Err(NameError)
  }

  // ------------------------------------------------------------ AdjustPatch

  datatype XPoint = Xpt1 | Xpt2
  datatype Corner = NE | NW | SE | SW

  /** The corner snaps of a patch tag, in the order they are applied. */
  function Snaps(tag: string): seq<(XPoint, Corner)> {
    if tag == "A2" then [(Xpt1, SE)]
    else if tag == "A1" then [(Xpt1, NE)]
    else if tag == "B2" then [(Xpt1, SW)]
    else if tag == "B1" then [(Xpt1, NW)]
    else if tag == "E2" then [(Xpt1, SE)]
    else if tag == "E1" then [(Xpt1, NE)]
    else if tag == "F3" then [(Xpt2, SE)]
    else if tag == "F2" then [(Xpt1, SW), (Xpt2, NE)]
    else if tag == "F1" then [(Xpt1, NW)]
    else if tag == "G3" then [(Xpt2, SW)]
    else if tag == "G2" then [(Xpt2, NW)]
    else if tag == "H3" then [(Xpt2, SE)]
    else if tag == "H2" then [(Xpt2, NE)]
    else []
  }

  /** The corner snaps, patch by patch, as a table. */
  function SnapTable(pn: PatchName): seq<(XPoint, Corner)> {
    match pn
    case A1 => [(Xpt1, NE)] case A2 => [(Xpt1, SE)]
    case B1 => [(Xpt1, NW)] case B2 => [(Xpt1, SW)]
    case E1 => [(Xpt1, NE)] case E2 => [(Xpt1, SE)]
    case F1 => [(Xpt1, NW)] case F2 => [(Xpt1, SW), (Xpt2, NE)] case F3 => [(Xpt2, SE)]
    case G2 => [(Xpt2, NW)] case G3 => [(Xpt2, SW)]
    case H2 => [(Xpt2, NE)] case H3 => [(Xpt2, SE)]
    case _ => []
  }

  /** The snaps of every SF45 patch are those of the table; the patches it
      leaves out get none. */
  lemma SnapsOfPatch(pn: PatchName)
    ensures Snaps(Name(pn)) == SnapTable(pn)
  {
    if pn in {A1, A2, A3, B1, B2, B3, C1, C2, C3} {
      SnapsOfLegsABC(pn);
    } else if pn in {D1, D2, D3, E1, E2, E3, F1, F2, F3} {
      SnapsOfLegsDEF(pn);
    } else if pn in {G1, G2, G3, H1, H2, H3} {
      SnapsOfLegsGH(pn);
    } else {
      SnapsOfLegsI(pn);
    }
  }

  lemma SnapsOfLegsABC(pn: PatchName)
    requires pn in {A1, A2, A3, B1, B2, B3, C1, C2, C3}
    ensures Snaps(Name(pn)) == SnapTable(pn)
  {
    match pn
    case A1 => case A2 => case A3 => case B1 => case B2 => case B3 =>
    case C1 => case C2 => case C3 =>
  }

  lemma SnapsOfLegsDEF(pn: PatchName)
    requires pn in {D1, D2, D3, E1, E2, E3, F1, F2, F3}
    ensures Snaps(Name(pn)) == SnapTable(pn)
  {
    match pn
    case D1 => case D2 => case D3 => case E1 => case E2 => case E3 =>
    case F1 => case F2 => case F3 =>
  }

  lemma SnapsOfLegsGH(pn: PatchName)
    requires pn in {G1, G2, G3, H1, H2, H3}
    ensures Snaps(Name(pn)) == SnapTable(pn)
  {
    match pn
    case G1 => case G2 => case G3 => case H1 => case H2 => case H3 =>
  }

  lemma SnapsOfLegsI(pn: PatchName)
    requires pn in {I1, I2, I3}
    ensures Snaps(Name(pn)) == SnapTable(pn)
  {
    match pn
    case I1 => case I2 => case I3 =>
  }

  /** Fourteen patches, all of C and D, I, and A3, B3, E3, G1, H1, are never
      snapped; F2 alone is snapped twice, every other patch once. */
  lemma SnapCounts(pn: PatchName)
    ensures Snaps(Name(pn)) == [] <==>
              pn in {A3, B3, C1, C2, C3, D1, D2, D3, E3, G1, H1, I1, I2, I3}
    ensures |Snaps(Name(pn))| <= 2 && (|Snaps(Name(pn))| == 2 <==> pn == F2)
  {
    SnapsOfPatch(pn);
  }

  /** The corner snapping of one patch. Both X-point centres are read
      first (the lookup can raise whatever the tag); then the snaps are
      applied in order by the opaque `adjust_corner`. */
  function AdjustPatch<P>(patch: P, tag: string, xpts: Result<(Point, Point), Exception>,
                          adjust: (P, Point, Corner) -> P): (r: Result<P, Exception>)
    ensures r.Ok? <==> xpts.Ok?
    ensures r.Err? ==> r.error == xpts.error
  {
    var (x1, x2) :- xpts;
    Ok(ApplySnaps(patch, Snaps(tag), x1, x2, adjust))
  }

  function ApplySnaps<P>(patch: P, snaps: seq<(XPoint, Corner)>, x1: Point, x2: Point,
                         adjust: (P, Point, Corner) -> P): P
    decreases |snaps|
  {
    if |snaps| == 0 then patch
    else
      var (x, corner) := snaps[0];
      ApplySnaps(adjust(patch, if x == Xpt1 then x1 else x2, corner), snaps[1..], x1, x2, adjust)
  }

  /** F2 is snapped twice, first at its SW corner to the first X-point and
      then at its NE corner to the second; a patch without snaps is left
      as it is; a failed X-point lookup fails every patch. */
  lemma AdjustPatchCases<P>(patch: P, xpts: Result<(Point, Point), Exception>, adjust: (P, Point, Corner) -> P,
                            tag: string)
    ensures xpts.Ok? ==>
              AdjustPatch(patch, "F2", xpts, adjust)
                == Ok(adjust(adjust(patch, xpts.value.0, SW), xpts.value.1, NE))
    ensures xpts.Ok? && Snaps(tag) == [] ==> AdjustPatch(patch, tag, xpts, adjust) == Ok(patch)
    ensures xpts.Err? ==> AdjustPatch(patch, tag, xpts, adjust) == Err(xpts.error)
  {
    if xpts.Ok? {
      var (x1, x2) := xpts.value;
      var s := Snaps("F2");
      assert s[1..] == [(Xpt2, NE)] && s[1..][1..] == [];
    }
  }

  // ------------------------------------------------------- boundary lookups

  /** The vertex arrays of a patch; an attribute the patch lacks is None. */
  datatype Vertices<V> = Vertices(n: Option<V>, s: Option<V>, e: Option<V>, w: Option<V>)

  /** The array read for a boundary letter: 'E' reads the West vertices. */
  function ReadBoundary<V>(v: Vertices<V>, boundary: string): (r: Result<Option<V>, Exception>)
    requires boundary in {"S", "N", "E", "W"}
    ensures r.Err? ==> r.error == AttributeError
    ensures r.Ok? ==> r.value.Some?
    ensures boundary in {"E", "W"} ==> (r.Ok? <==> v.w.Some?) && (r.Ok? ==> r.value == v.w)
    ensures boundary == "S" ==> (r.Ok? <==> v.s.Some?) && (r.Ok? ==> r.value == v.s)
    ensures boundary == "N" ==> (r.Ok? <==> v.n.Some?) && (r.Ok? ==> r.value == v.n)
  {
    var field := if boundary == "S" then v.s else if boundary == "N" then v.n else v.w;
    if field.None? then Err(AttributeError) else Ok(Some(field.value))
  }

  /** `GetBoundaryPoints`: the patches in dictionary order are scanned for
      the adjacent patch's name; the first match with a known boundary
      letter answers; otherwise the result is None. */
  function GetBoundaryPoints<V>(patches: seq<(string, Vertices<V>)>, adjacent: Option<(string, string)>)
    : (r: Result<Option<V>, Exception>)
    ensures adjacent.None? ==> r == Ok(None)
    ensures r.Err? ==> r.error == AttributeError
  {
    if adjacent.None? then Ok(None) else Scan(patches, adjacent.value.0, adjacent.value.1)
  }

  function Scan<V>(patches: seq<(string, Vertices<V>)>, name: string, boundary: string)
    : (r: Result<Option<V>, Exception>)
    ensures r.Err? ==> r.error == AttributeError
    decreases |patches|
  {
    if |patches| == 0 then Ok(None)
    else if patches[0].0 == name && boundary in {"S", "N", "E", "W"} then ReadBoundary(patches[0].1, boundary)
    else Scan(patches[1..], name, boundary)
  }

  /** Dictionary keys are distinct. */
  predicate DistinctNames<V>(patches: seq<(string, Vertices<V>)>) {
    forall i, j :: 0 <= i < j < |patches| ==> patches[i].0 != patches[j].0
  }

  /** With distinct names, the lookup of boundary `b` of the patch at index
      `i` reads that patch's S, N or W array (W for 'E' as well); an unknown
      letter or an absent name gives None. */
  lemma {:induction false} ScanAt<V>(patches: seq<(string, Vertices<V>)>, name: string, boundary: string)
    requires DistinctNames(patches)
    ensures (forall i :: 0 <= i < |patches| ==> patches[i].0 != name) ==> Scan(patches, name, boundary) == Ok(None)
    ensures boundary !in {"S", "N", "E", "W"} ==> Scan(patches, name, boundary) == Ok(None)
    ensures forall i :: 0 <= i < |patches| && patches[i].0 == name && boundary in {"S", "N", "E", "W"} ==>
              Scan(patches, name, boundary) == ReadBoundary(patches[i].1, boundary)
    decreases |patches|
  {
    if |patches| > 0 {
      var rest := patches[1..];
      assert DistinctNames(rest) by {
        forall i, j | 0 <= i < j < |rest|
          ensures rest[i].0 != rest[j].0
        {
          assert rest[i] == patches[i + 1] && rest[j] == patches[j + 1];
        }
      }
      ScanAt(rest, name, boundary);
      forall i | 0 <= i < |patches| && patches[i].0 == name && boundary in {"S", "N", "E", "W"}
        ensures Scan(patches, name, boundary) == ReadBoundary(patches[i].1, boundary)
      {
        if i > 0 {
          assert patches[0].0 != name;
          assert rest[i - 1] == patches[i];
        }
      }
      if forall i :: 0 <= i < |patches| ==> patches[i].0 != name {
        forall i | 0 <= i < |rest|
          ensures rest[i].0 != name
        {
          assert rest[i] == patches[i + 1];
        }
      }
    }
  }

  /** Asking for the East boundary of a patch gives its West vertices. */
  lemma EastReadsWest<V>(patches: seq<(string, Vertices<V>)>, name: string)
    ensures GetBoundaryPoints(patches, Some((name, "E"))) == GetBoundaryPoints(patches, Some((name, "W")))
  {
    EastScansWest(patches, name);
  }

  lemma {:induction false} EastScansWest<V>(patches: seq<(string, Vertices<V>)>, name: string)
    ensures Scan(patches, name, "E") == Scan(patches, name, "W")
    decreases |patches|
  {
    if |patches| > 0 {
      EastScansWest(patches[1..], name);
    }
  }

  /** `SetPatchBoundaryPoints` for a patch whose tag has the connexion-map
      entry `entries` (boundary letter, adjacent patch): each listed
      boundary gets the lookup of its adjacent patch, in order; a failing
      lookup raises. */
  function SetBoundaries<V>(entries: seq<(string, Option<(string, string)>)>, bp: map<string, Option<V>>,
                            patches: seq<(string, Vertices<V>)>): (r: Result<map<string, Option<V>>, Exception>)
    ensures r.Err? ==> r.error == AttributeError
    ensures r.Ok? ==> forall k :: k in bp ==> k in r.value
    ensures r.Ok? ==> forall i :: 0 <= i < |entries| ==> entries[i].0 in r.value
    decreases |entries|
  {
    if |entries| == 0 then Ok(bp)
    else
      var v :- GetBoundaryPoints(patches, entries[0].1);
      SetBoundaries(entries[1..], bp[entries[0].0 := v], patches)
  }

  /** A tag with no connexion-map entry (or a None one) changes nothing. */
  function SetPatchBoundaryPoints<V>(conn: map<string, Option<seq<(string, Option<(string, string)>)>>>, tag: string,
                                     bp: map<string, Option<V>>, patches: seq<(string, Vertices<V>)>)
    : (r: Result<map<string, Option<V>>, Exception>)
    ensures !(tag in conn && conn[tag].Some?) ==> r == Ok(bp)
  {
    if tag in conn && conn[tag].Some? then SetBoundaries(conn[tag].value, bp, patches) else Ok(bp)
  }

  /** The entry's boundary letters are distinct (they are dictionary keys). */
  predicate DistinctBoundaries(entries: seq<(string, Option<(string, string)>)>) {
    forall i, j :: 0 <= i < j < |entries| ==> entries[i].0 != entries[j].0
  }

  /** Only the listed boundaries change: each gets its adjacent patch's
      vertices, every other entry of the map is kept; the update fails
      exactly when one of the lookups does. */
  lemma {:induction false} SetBoundariesFrame<V>(entries: seq<(string, Option<(string, string)>)>,
                                                 bp: map<string, Option<V>>, patches: seq<(string, Vertices<V>)>)
    requires DistinctBoundaries(entries)
    ensures var r := SetBoundaries(entries, bp, patches);
            && (r.Ok? <==> forall i :: 0 <= i < |entries| ==> GetBoundaryPoints(patches, entries[i].1).Ok?)
            && (r.Ok? ==>
                  && (forall k :: k in r.value <==> k in bp || exists i :: 0 <= i < |entries| && entries[i].0 == k)
                  && (forall k :: k in bp && (forall i :: 0 <= i < |entries| ==> entries[i].0 != k) ==>
                        r.value[k] == bp[k])
                  && (forall i :: 0 <= i < |entries| ==>
                        r.value[entries[i].0] == GetBoundaryPoints(patches, entries[i].1).value))
    decreases |entries|
  {
    if |entries| > 0 {
      var rest := entries[1..];
      assert DistinctBoundaries(rest) by {
        forall i, j | 0 <= i < j < |rest|
          ensures rest[i].0 != rest[j].0
        {
          assert rest[i] == entries[i + 1] && rest[j] == entries[j + 1];
        }
      }
      var head := GetBoundaryPoints(patches, entries[0].1);
      if head.Ok? {
        var bp' := bp[entries[0].0 := head.value];
        SetBoundariesFrame(rest, bp', patches);
        var r := SetBoundaries(entries, bp, patches);
        assert r == SetBoundaries(rest, bp', patches);
        assert forall i :: 1 <= i < |entries| ==> entries[i] == rest[i - 1];
        if r.Ok? {
          forall i | 0 <= i < |entries|
            ensures r.value[entries[i].0] == GetBoundaryPoints(patches, entries[i].1).value
          {
            if i == 0 {
              assert forall j :: 0 <= j < |rest| ==> rest[j].0 != entries[0].0;
            } else {
              assert rest[i - 1] == entries[i];
            }
          }
        } else {
          var j :| 0 <= j < |rest| && GetBoundaryPoints(patches, rest[j].1).Err?;
          assert entries[j + 1] == rest[j];
        }
      }
    }
  }

  // ------------------------------------------------------- construct_grid

  /** `self.CorrectDistortion.get(name)`, then `.get('all')`, then the
      inactive setting; a key mapped to None counts as absent. */
  function DistortionFor<S>(cd: map<string, Option<S>>, name: string, inactive: S): (d: S)
    ensures (name in cd && cd[name] == Some(d)) || ("all" in cd && cd["all"] == Some(d)) || d == inactive
  {
    if name in cd && cd[name].Some? then cd[name].value
    else if "all" in cd && cd["all"].Some? then cd["all"].value
    else inactive
  }

  /** A patch's own setting overrides the one for all patches; the one for
      all patches applies to every patch without its own; with neither the
      correction is inactive. */
  lemma DistortionPrecedence<S>(cd: map<string, Option<S>>, name: string, inactive: S, own: S, all: S)
    ensures DistortionFor(cd[name := Some(own)], name, inactive) == own
    ensures name != "all" ==> DistortionFor(map["all" := Some(all)], name, inactive) == all
    ensures (name !in cd || cd[name].None?) && "all" in cd && cd["all"].Some? ==>
              DistortionFor(cd, name, inactive) == cd["all"].value
    ensures DistortionFor(map[], name, inactive) == inactive
    ensures (name !in cd || cd[name].None?) && ("all" !in cd || cd["all"].None?) ==>
              DistortionFor(cd, name, inactive) == inactive
  {
  }

  /** `ListPatches`: the string 'all', or a list of patch names. */
  datatype ListPatches = All | Listed(names: seq<string>)

  /** A dictionary key, as Python compares keys: the name strings under
      which patches are stored, or a patch object, which equals no string. */
  datatype Key = Str(s: string) | Object(name: string)

  function KeysOf<P>(current: map<string, P>): set<Key> {
    set k | k in current :: Str(k)
  }

  /** The selection test as written: with 'all', it asks whether the patch
      OBJECT is among the name keys of `CurrentListPatch`. */
  predicate SelectedAsWritten<P>(lp: ListPatches, name: string, current: map<string, P>) {
    match lp
    case All => Object(name) !in KeysOf(current)
    case Listed(names) => name in names
  }

  /** With 'all', the test as written selects every patch, also one already
      built: the object is never among the keys. */
  lemma SelectsEverything<P>(name: string, current: map<string, P>)
    ensures SelectedAsWritten(All, name, current)
  {
  }

  /** A patch already in `CurrentListPatch` is selected, and so rebuilt. */
  lemma RebuildsBuiltPatch()
    ensures var current := map["A1" := 0];
            "A1" in current && SelectedAsWritten(All, "A1", current)
  {
    SelectsEverything("A1", map["A1" := 0]);
  }

  /** The selection test as intended: with 'all', the patches not yet built;
      otherwise the listed ones. */
  predicate Selected<P>(lp: ListPatches, name: string, current: map<string, P>) {
    match lp
    case All => name !in current
    case Listed(names) => name in names
  }

  /** The steps for one selected patch, in the source's order: its boundary
      points are set (`prepare`, the `SetPatchBoundaryPoints` step, which can
      raise), then the global counts are read (KeyError when missing), then
      the subgrid is made and its corners snapped (`build`). */
  function BuildPatch<P>(name: string, gg: Section, prepare: string -> Result<(), Exception>,
                         build: (string, int, int) -> Result<P, Exception>): (r: Result<P, Exception>)
    ensures prepare(name).Err? ==> r == Err(prepare(name).error)
    ensures prepare(name).Ok? && (Get(gg, "nr_global").Err? || Get(gg, "np_global").Err?) ==>
              r == Err(KeyError)
    ensures prepare(name).Ok? && Get(gg, "nr_global").Ok? && Get(gg, "np_global").Ok? ==>
              r == build(name, gg.value["np_global"], gg.value["nr_global"])
  {
    match prepare(name)
    case Err(e) => Err(e)
    case Ok(_) =>
      var nr :- Get(gg, "nr_global");
      var np :- Get(gg, "np_global");
      build(name, np, nr)
  }

  /** The patch loop of `construct_grid` with the intended test: each
      selected patch is built (`BuildPatch`) and stored under its name.
      Returns the patches built, in order, and the new `CurrentListPatch`,
      which keeps every patch stored before and holds every patch built. */
  function GridLoop<P>(names: seq<string>, lp: ListPatches, current: map<string, P>, gg: Section,
                       prepare: string -> Result<(), Exception>,
                       build: (string, int, int) -> Result<P, Exception>)
    : (r: Result<(seq<string>, map<string, P>), Exception>)
    ensures r.Ok? ==> |r.value.0| <= |names| && forall k :: k in current ==> k in r.value.1
    ensures r.Ok? ==> forall i :: 0 <= i < |r.value.0| ==> r.value.0[i] in names && r.value.0[i] in r.value.1
    decreases |names|
  {
    if |names| == 0 then Ok(([], current))
    else if !Selected(lp, names[0], current) then GridLoop(names[1..], lp, current, gg, prepare, build)
    else
      var patch :- BuildPatch(names[0], gg, prepare, build);
      var rest :- GridLoop(names[1..], lp, current[names[0] := patch], gg, prepare, build);
      Ok(([names[0]] + rest.0, rest.1))
  }

  /** `construct_grid`'s patch loop with the intended selection test, after
      `RestartScratch` empties the store. */
  function ConstructGridIntended<P>(names: seq<string>, lp: ListPatches, current: map<string, P>, restart: bool,
                                    gg: Section, prepare: string -> Result<(), Exception>,
                                    build: (string, int, int) -> Result<P, Exception>)
    : (r: Result<(seq<string>, map<string, P>), Exception>)
    ensures r.Ok? && !restart ==> forall k :: k in current ==> k in r.value.1
    ensures r.Ok? ==> forall i :: 0 <= i < |r.value.0| ==> r.value.0[i] in names && r.value.0[i] in r.value.1
  {
    GridLoop(names, lp, if restart then map[] else current, gg, prepare, build)
  }

  /** The patches of a dictionary are distinct names. */
  predicate DistinctSeq(names: seq<string>) {
    forall i, j :: 0 <= i < j < |names| ==> names[i] != names[j]
  }

  /** The names of `names` not in `current`, in order. */
  function Missing<P>(names: seq<string>, current: map<string, P>): seq<string>
    decreases |names|
  {
    if |names| == 0 then []
    else (if names[0] in current then [] else [names[0]]) + Missing(names[1..], current)
  }

  /** With 'all', the intended loop builds exactly the patches not built
      yet, in dictionary order; every patch is then stored, and the ones
      built before are kept as they were. */
  lemma {:induction false} GridLoopAll<P>(names: seq<string>, current: map<string, P>, gg: Section,
                                          prepare: string -> Result<(), Exception>,
                                          build: (string, int, int) -> Result<P, Exception>)
    requires DistinctSeq(names)
    ensures var r := GridLoop(names, All, current, gg, prepare, build);
            r.Ok? ==>
              && r.value.0 == Missing(names, current)
              && (forall k :: k in r.value.1 <==> k in current || k in names)
              && forall k :: k in current ==> r.value.1[k] == current[k]
    decreases |names|
  {
    if |names| > 0 {
      var rest := names[1..];
      assert DistinctSeq(rest) by {
        forall i, j | 0 <= i < j < |rest|
          ensures rest[i] != rest[j]
        {
          assert rest[i] == names[i + 1] && rest[j] == names[j + 1];
        }
      }
      var r := GridLoop(names, All, current, gg, prepare, build);
      if names[0] in current {
        GridLoopAll(rest, current, gg, prepare, build);
      } else if r.Ok? {
        var patch := BuildPatch(names[0], gg, prepare, build).value;
        var current' := current[names[0] := patch];
        GridLoopAll(rest, current', gg, prepare, build);
        assert Missing(rest, current') == Missing(rest, current) by {
          MissingWithout(rest, current, names[0], patch);
        }
      }
    }
  }

  /** Adding a key that the names do not contain changes nothing missing. */
  lemma {:induction false} MissingWithout<P>(names: seq<string>, current: map<string, P>, k: string, v: P)
    requires forall i :: 0 <= i < |names| ==> names[i] != k
    ensures Missing(names, current[k := v]) == Missing(names, current)
    decreases |names|
  {
    if |names| > 0 {
      MissingWithout(names[1..], current, k, v);
    }
  }

  /** Nothing is missing from an empty store. */
  lemma {:induction false} MissingFromEmpty<P>(names: seq<string>, empty: map<string, P>)
    requires empty == map[]
    ensures Missing(names, empty) == names
    decreases |names|
  {
    if |names| > 0 {
      MissingFromEmpty(names[1..], empty);
    }
  }

  /** The names of `names` that are listed, in order. */
  function ListedAmong(names: seq<string>, listed: seq<string>): seq<string>
    decreases |names|
  {
    if |names| == 0 then []
    else (if names[0] in listed then [names[0]] else []) + ListedAmong(names[1..], listed)
  }

  /** With a list of patches, exactly the listed patches are built, in
      dictionary order, whether or not they were built before; the others
      stay as stored. */
  lemma {:induction false} GridLoopListed<P>(names: seq<string>, listed: seq<string>, current: map<string, P>,
                                             gg: Section, prepare: string -> Result<(), Exception>,
                                             build: (string, int, int) -> Result<P, Exception>)
    ensures var r := GridLoop(names, Listed(listed), current, gg, prepare, build);
            r.Ok? ==>
              && r.value.0 == ListedAmong(names, listed)
              && forall k :: k in current && k !in listed ==> k in r.value.1 && r.value.1[k] == current[k]
    decreases |names|
  {
    if |names| > 0 {
      var r := GridLoop(names, Listed(listed), current, gg, prepare, build);
      if names[0] !in listed {
        GridLoopListed(names[1..], listed, current, gg, prepare, build);
      } else if r.Ok? {
        var patch := BuildPatch(names[0], gg, prepare, build).value;
        GridLoopListed(names[1..], listed, current[names[0] := patch], gg, prepare, build);
      }
    }
  }

  /** The loop as written, with its selection test: with 'all' every patch
      is selected, so the patches built are all the names, in dictionary
      order, and every name is then stored. */
  function GridLoopAsWritten<P>(names: seq<string>, lp: ListPatches, current: map<string, P>, gg: Section,
                                prepare: string -> Result<(), Exception>,
                                build: (string, int, int) -> Result<P, Exception>)
    : (r: Result<(seq<string>, map<string, P>), Exception>)
    ensures r.Ok? ==> forall k :: k in current ==> k in r.value.1
    ensures r.Ok? ==> forall i :: 0 <= i < |r.value.0| ==> r.value.0[i] in names && r.value.0[i] in r.value.1
    ensures r.Ok? && lp.All? ==> r.value.0 == names
    decreases |names|
  {
    if |names| == 0 then Ok(([], current))
    else if !SelectedAsWritten(lp, names[0], current) then
      GridLoopAsWritten(names[1..], lp, current, gg, prepare, build)
    else
      var patch :- BuildPatch(names[0], gg, prepare, build);
      var rest :- GridLoopAsWritten(names[1..], lp, current[names[0] := patch], gg, prepare, build);
      Ok(([names[0]] + rest.0, rest.1))
  }

  /** `construct_grid`'s patch loop as written, after `RestartScratch`
      empties the store: with 'all' it rebuilds every patch, whether or not
      it was built before. */
  function ConstructGrid<P>(names: seq<string>, lp: ListPatches, current: map<string, P>, restart: bool,
                            gg: Section, prepare: string -> Result<(), Exception>,
                            build: (string, int, int) -> Result<P, Exception>)
    : (r: Result<(seq<string>, map<string, P>), Exception>)
    ensures r.Ok? && lp.All? ==> r.value.0 == names && forall i :: 0 <= i < |names| ==> names[i] in r.value.1
    ensures r.Ok? && !restart ==> forall k :: k in current ==> k in r.value.1
  {
    GridLoopAsWritten(names, lp, if restart then map[] else current, gg, prepare, build)
  }

  /** With `RestartScratch` and 'all', every patch is built again, in
      dictionary order, and exactly the patches are stored; the loop as
      written and the intended one agree on this. */
  lemma RestartBuildsAll<P>(names: seq<string>, current: map<string, P>, gg: Section,
                            prepare: string -> Result<(), Exception>,
                            build: (string, int, int) -> Result<P, Exception>)
    requires DistinctSeq(names)
    ensures var r := ConstructGridIntended(names, All, current, true, gg, prepare, build);
            r.Ok? ==> r.value.0 == names && forall k :: k in r.value.1 <==> k in names
    ensures var r := ConstructGrid(names, All, current, true, gg, prepare, build);
            r.Ok? ==> r.value.0 == names
  {
    var empty: map<string, P> := map[];
    GridLoopAll(names, empty, gg, prepare, build);
    MissingFromEmpty(names, empty);
  }

  /** A selected patch whose boundary step raises makes the loop raise that
      exception, before the global counts are read: a missing `nr_global`
      does not mask it. */
  lemma BoundaryStepFirst<P>(names: seq<string>, lp: ListPatches, current: map<string, P>, gg: Section,
                             prepare: string -> Result<(), Exception>,
                             build: (string, int, int) -> Result<P, Exception>)
    requires |names| > 0 && prepare(names[0]).Err?
    ensures Selected(lp, names[0], current) ==>
              GridLoop(names, lp, current, gg, prepare, build) == Err(prepare(names[0]).error)
    ensures SelectedAsWritten(lp, names[0], current) ==>
              GridLoopAsWritten(names, lp, current, gg, prepare, build) == Err(prepare(names[0]).error)
  {
  }

  /** A stand-in for the boundary step that never raises. */
  function NoBoundaryError(name: string): Result<(), Exception> {
    Ok(())
  }

  /** A stand-in for the patch builder: the number of cells. */
  function CellCount(name: string, np: int, nr: int): Result<int, Exception> {
    Ok(np * nr)
  }

  /** As written, a second `construct_grid` over an already built patch
      rebuilds it and replaces the stored one; the intended loop keeps it. */
  lemma AsWrittenRebuilds()
    ensures var gg: Section := Some(map["nr_global" := 2, "np_global" := 3]);
            var current := map["A1" := 0];
            && ConstructGrid(["A1"], All, current, false, gg, NoBoundaryError, CellCount)
               == Ok((["A1"], map["A1" := 6]))
            && ConstructGridIntended(["A1"], All, current, false, gg, NoBoundaryError, CellCount)
               == Ok(([], current))
  {
    var gg: Section := Some(map["nr_global" := 2, "np_global" := 3]);
    var prepare := NoBoundaryError;
    var build := CellCount;
    var current := map["A1" := 0];
    SelectsEverything("A1", current);
    assert Get(gg, "nr_global") == Ok(2);
    assert Get(gg, "np_global") == Ok(3);
    assert BuildPatch("A1", gg, prepare, build) == Ok(6);
    assert current["A1" := 6] == map["A1" := 6];
    assert GridLoopAsWritten([], All, map["A1" := 6], gg, prepare, build) == Ok(([], map["A1" := 6]));
    var names: seq<string> := ["A1"];
    assert names[1..] == [];
    assert names[0] == "A1";
    assert SelectedAsWritten(All, names[0], current);
    assert GridLoopAsWritten(names[1..], All, current[names[0] := 6], gg, prepare, build)
           == Ok(([], map["A1" := 6]));
    assert GridLoopAsWritten(names, All, current, gg, prepare, build) == Ok(([names[0]] + [], map["A1" := 6]));
    assert [names[0]] + [] == names;
  }
}
