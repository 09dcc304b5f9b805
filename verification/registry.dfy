/** Cell/node registry of one rank: slices the flattened constructor arrays of
    `Draco_Mesh` into per-cell, per-side and per-ghost-cell node lists and
    rejects inconsistent input before any adjacency is computed. */
module Registry {
  import opened Wrappers
  import opened Seqs

  /** Geometry tag; it is metadata only and never affects adjacency. */
  datatype Geometry = Cartesian | AxiRZ | Spherical

  /** The arrays one rank hands to the mesh constructor (node coordinates and
      3-D face types are not part of this model). Node counts and local node
      indices are unsigned in the source; ghost numbers and ranks are signed. */
  datatype RankInput = RankInput(
    dim: nat,
    geometry: Geometry,
    cellType: seq<nat>,
    cellToNode: seq<nat>,
    sideSetFlag: seq<nat>,
    sideNodeCount: seq<nat>,
    sideToNode: seq<nat>,
    globalNodeNumber: seq<nat>,
    ghostCellType: seq<nat>,
    ghostCellToNode: seq<nat>,
    ghostCellNumber: seq<int>,
    ghostCellRank: seq<int>)

  datatype Entity = Cells | Sides | Ghosts

  /** Fatal configuration errors; construction never returns a partial mesh. */
  datatype MeshError =
    | UnsupportedDimension(dim: nat)
    | LinkageMismatch(entity: Entity)
    | BadCell(cell: nat)
    | BadSide(side: nat)
    | BadGhost(ghostCell: nat)
    | NonManifoldFace(cell: nat, face: nat)
    | UnclassifiedFace(cell: nat, face: nat)
    | DanglingSide(side: nat)
    | DanglingGhost(ghostCell: nat)

  /** Per-rank cell, side and ghost-cell node lists in local node numbering,
      plus the local-to-global node map. */
  datatype Registry = Registry(
    dim: nat,
    geometry: Geometry,
    cells: seq<seq<nat>>,
    sides: seq<seq<nat>>,
    sideFlags: seq<nat>,
    globalNode: seq<nat>,
    ghosts: seq<seq<nat>>,
    ghostNumbers: seq<int>,
    ghostRanks: seq<int>)

  /** A 2-D cell: a polygon of at least three distinct, existing nodes. */
  predicate ProperCell(cell: seq<nat>, numNodes: nat)
  {
    |cell| >= 3 && Distinct(cell) && InRange(cell, numNodes)
  }

  predicate WellFormed(reg: Registry)
  {
    && reg.dim == 2
    && (forall c :: 0 <= c < |reg.cells| ==> ProperCell(reg.cells[c], |reg.globalNode|))
    && (forall s :: 0 <= s < |reg.sides| ==> InRange(reg.sides[s], |reg.globalNode|))
    && (forall g :: 0 <= g < |reg.ghosts| ==> InRange(reg.ghosts[g], |reg.globalNode|))
    && |reg.sideFlags| == |reg.sides|
    && |reg.ghostNumbers| == |reg.ghosts|
    && |reg.ghostRanks| == |reg.ghosts|
  }

  /** The count arrays of one entity agree with its flat linkage and its
      parallel arrays. */
  predicate LengthsAgree(inp: RankInput, e: Entity)
  {
    match e
    case Cells => Sum(inp.cellType) == |inp.cellToNode|
    case Sides =>
      Sum(inp.sideNodeCount) == |inp.sideToNode| && |inp.sideSetFlag| == |inp.sideNodeCount|
    case Ghosts =>
      && Sum(inp.ghostCellType) == |inp.ghostCellToNode|
      && |inp.ghostCellNumber| == |inp.ghostCellType|
      && |inp.ghostCellRank| == |inp.ghostCellType|
  }

  /** What a registry-level error says about the input it rejected. */
  predicate Explains(inp: RankInput, e: MeshError)
  {
    match e
    case UnsupportedDimension(d) => d == inp.dim && d != 2
    case LinkageMismatch(en) => !LengthsAgree(inp, en)
    case BadCell(c) =>
      && LengthsAgree(inp, Cells) && c < |inp.cellType|
      && !ProperCell(Slices(inp.cellType, inp.cellToNode)[c], |inp.globalNodeNumber|)
    case BadSide(s) =>
      && LengthsAgree(inp, Sides) && s < |inp.sideNodeCount|
      && !InRange(Slices(inp.sideNodeCount, inp.sideToNode)[s], |inp.globalNodeNumber|)
    case BadGhost(g) =>
      && LengthsAgree(inp, Ghosts) && g < |inp.ghostCellType|
      && !InRange(Slices(inp.ghostCellType, inp.ghostCellToNode)[g], |inp.globalNodeNumber|)
    case _ => false
  }

  /** Slice and validate one rank's constructor arrays. */
  function Build(inp: RankInput): (r: Result<Registry, MeshError>)
    ensures r.Failure? ==> Explains(inp, r.error)
    ensures r.Success? ==> WellFormed(r.value)
    ensures r.Success? ==>
              && r.value.dim == inp.dim && r.value.geometry == inp.geometry
              && Lengths(r.value.cells) == inp.cellType && Concat(r.value.cells) == inp.cellToNode
              && Lengths(r.value.sides) == inp.sideNodeCount && Concat(r.value.sides) == inp.sideToNode
              && Lengths(r.value.ghosts) == inp.ghostCellType
              && Concat(r.value.ghosts) == inp.ghostCellToNode
              && r.value.sideFlags == inp.sideSetFlag
              && r.value.globalNode == inp.globalNodeNumber
              && r.value.ghostNumbers == inp.ghostCellNumber
              && r.value.ghostRanks == inp.ghostCellRank
  {
    if inp.dim != 2 then Failure(UnsupportedDimension(inp.dim))
    else if !LengthsAgree(inp, Cells) then Failure(LinkageMismatch(Cells))
    else if !LengthsAgree(inp, Sides) then Failure(LinkageMismatch(Sides))
    else if !LengthsAgree(inp, Ghosts) then Failure(LinkageMismatch(Ghosts))
    else
      var n := |inp.globalNodeNumber|;
      var cells := Slices(inp.cellType, inp.cellToNode);
      var sides := Slices(inp.sideNodeCount, inp.sideToNode);
      var ghosts := Slices(inp.ghostCellType, inp.ghostCellToNode);
      match FirstFailing(cells, cell => ProperCell(cell, n), 0)
      case Some(c) => Failure(BadCell(c))
      case None =>
        match FirstFailing(sides, side => InRange(side, n), 0)
        case Some(s) => Failure(BadSide(s))
        case None =>
          match FirstFailing(ghosts, gc => InRange(gc, n), 0)
          case Some(g) => Failure(BadGhost(g))
          case None =>
            LengthsOfSlices(inp.cellType, inp.cellToNode);
            LengthsOfSlices(inp.sideNodeCount, inp.sideToNode);
            LengthsOfSlices(inp.ghostCellType, inp.ghostCellToNode);
            Success(Registry(inp.dim, inp.geometry, cells, sides, inp.sideSetFlag,
                             inp.globalNodeNumber, ghosts, inp.ghostCellNumber, inp.ghostCellRank))
  }

  lemma LengthsOfSlices<T>(counts: seq<nat>, flat: seq<T>)
    requires Sum(counts) == |flat|
    ensures Lengths(Slices(counts, flat)) == counts
  {
  }

  /** The constructor arrays that build to this registry. */
  function Flatten(reg: Registry): RankInput
  {
    RankInput(reg.dim, reg.geometry,
              Lengths(reg.cells), Concat(reg.cells),
              reg.sideFlags, Lengths(reg.sides), Concat(reg.sides),
              reg.globalNode,
              Lengths(reg.ghosts), Concat(reg.ghosts), reg.ghostNumbers, reg.ghostRanks)
  }

  /** Round trip: every well-formed registry is accepted back from its own
      flattened arrays, unchanged. */
  lemma BuildFlattenRoundTrip(reg: Registry)
    requires WellFormed(reg)
    ensures Build(Flatten(reg)) == Success(reg)
  {
    var inp := Flatten(reg);
    SlicesOfConcat(reg.cells);
    SlicesOfConcat(reg.sides);
    SlicesOfConcat(reg.ghosts);
    assert LengthsAgree(inp, Cells) && LengthsAgree(inp, Sides) && LengthsAgree(inp, Ghosts);
    assert Slices(inp.cellType, inp.cellToNode) == reg.cells;
    assert Slices(inp.sideNodeCount, inp.sideToNode) == reg.sides;
    assert Slices(inp.ghostCellType, inp.ghostCellToNode) == reg.ghosts;
    var n := |inp.globalNodeNumber|;
    assert forall c :: 0 <= c < |reg.cells| ==> (cell => ProperCell(cell, n))(reg.cells[c]);
    assert forall s :: 0 <= s < |reg.sides| ==> (side => InRange(side, n))(reg.sides[s]);
    assert forall g :: 0 <= g < |reg.ghosts| ==> (gc => InRange(gc, n))(reg.ghosts[g]);
  }
}
