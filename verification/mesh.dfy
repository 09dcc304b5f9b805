/** The mesh aggregate of every rank of a domain-decomposed 2-D mesh. Each
    rank's constructor call is modelled as validation (registry), local and
    ghost adjacency (layouts) and the dual ghost layout, which is computed
    from the registries of all ranks at once; any rank's configuration error
    aborts construction. */
module Mesh {
  import opened Wrappers
  import opened Seqs
  import opened Registry
  import opened Layouts
  import opened LayoutProps
  import opened DualLayout

  /** What a constructed mesh exposes, read-only, to the solver. */
  datatype Mesh = Mesh(
    dim: nat,
    geometry: Geometry,
    numCells: nat,
    numNodes: nat,
    cc: Layout,
    cs: Layout,
    cg: Layout,
    ngc: DualGhostLayout,
    ghostNumbers: seq<int>,
    ghostRanks: seq<int>)

  /** The rank whose construction failed, and why. */
  datatype RankError = RankError(rank: nat, error: MeshError)

  /** The configuration error, if any, of one rank's input. */
  function RankFailure(inp: RankInput): (r: Option<MeshError>)
    ensures r.None? <==> Build(inp).Success? && Consistent(Build(inp).value)
    ensures r.Some? && Build(inp).Failure? ==> Explains(inp, r.value)
    ensures r.Some? && Build(inp).Success? ==> BuildLocal(Build(inp).value) == Failure(r.value)
  {
    match Build(inp)
    case Failure(e) => Some(e)
    case Success(reg) =>
      match BuildLocal(reg)
      case Failure(e) => Some(e)
      case Success(_) => None
  }

  predicate AllBuilt(inputs: seq<RankInput>)
  {
    forall q :: 0 <= q < |inputs| ==> Build(inputs[q]).Success?
  }

  /** The validated registries of all ranks. */
  function Registries(inputs: seq<RankInput>): (regs: seq<Registry>)
    requires AllBuilt(inputs)
    ensures |regs| == |inputs| && AllWellFormed(regs)
    ensures forall q :: 0 <= q < |inputs| ==> Build(inputs[q]) == Success(regs[q])
  {
    seq(|inputs|, q requires 0 <= q < |inputs| => Build(inputs[q]).value)
  }

  /** The mesh of rank q, given every rank's registry. */
  function MeshOf(regs: seq<Registry>, q: nat): Mesh
    requires AllWellFormed(regs) && q < |regs| && BuildLocal(regs[q]).Success?
  {
    var reg := regs[q];
    var ll := BuildLocal(reg).value;
    Mesh(reg.dim, reg.geometry, |reg.cells|, |reg.globalNode|, ll.cc, ll.cs, ll.cg,
         BuildDual(regs, q), reg.ghostNumbers, reg.ghostRanks)
  }

  /** The scalar data and the ghost arrays of a mesh are those of its input. */
  predicate Echoes(inp: RankInput, m: Mesh)
  {
    && m.dim == inp.dim && m.geometry == inp.geometry
    && m.numCells == |inp.cellType| && m.numNodes == |inp.globalNodeNumber|
    && m.ghostNumbers == inp.ghostCellNumber && m.ghostRanks == inp.ghostCellRank
  }

  /** Construct the meshes of all ranks, or report the first rank whose
      configuration is inconsistent. */
  function ConstructAll(inputs: seq<RankInput>): (r: Result<seq<Mesh>, RankError>)
    ensures r.Success? <==> forall q :: 0 <= q < |inputs| ==> RankFailure(inputs[q]).None?
    ensures r.Failure? ==>
              && r.error.rank < |inputs| && RankFailure(inputs[r.error.rank]) == Some(r.error.error)
              && forall q :: 0 <= q < r.error.rank ==> RankFailure(inputs[q]).None?
    ensures r.Success? ==>
              && |r.value| == |inputs| && AllBuilt(inputs)
              && forall q :: 0 <= q < |inputs| ==>
                   && Echoes(inputs[q], r.value[q])
                   && BuildLocal(Registries(inputs)[q])
                      == Success(LocalLayouts(r.value[q].cc, r.value[q].cs, r.value[q].cg))
                   && r.value[q].ngc == BuildDual(Registries(inputs), q)
  {
    match FirstFailing(inputs, inp => RankFailure(inp).None?, 0)
    case Some(q) => Failure(RankError(q, RankFailure(inputs[q]).value))
    case None =>
      ErrorFreeBuilds(inputs);
      var regs := Registries(inputs);
      MeshesEcho(inputs, regs);
      Success(Meshes(regs))
  }

  /** Ranks free of errors build, and so do their layouts. */
  lemma ErrorFreeBuilds(inputs: seq<RankInput>)
    requires forall q :: 0 <= q < |inputs| ==> (inp => RankFailure(inp).None?)(inputs[q])
    ensures AllBuilt(inputs) && forall q :: 0 <= q < |inputs| ==> BuildLocal(Registries(inputs)[q]).Success?
  {
    forall q | 0 <= q < |inputs|
      ensures Build(inputs[q]).Success? && BuildLocal(Build(inputs[q]).value).Success?
    {
      assert RankFailure(inputs[q]).None?;
    }
  }

  /** The mesh of every rank, once every rank's layouts are consistent. */
  function Meshes(regs: seq<Registry>): (ms: seq<Mesh>)
    requires AllWellFormed(regs) && forall q :: 0 <= q < |regs| ==> BuildLocal(regs[q]).Success?
    ensures |ms| == |regs| && forall q :: 0 <= q < |regs| ==> ms[q] == MeshOf(regs, q)
  {
    seq(|regs|, q requires 0 <= q < |regs| => MeshOf(regs, q))
  }

  /** Each rank's mesh echoes its input and carries its rank's layouts and
      the dual layout computed from all ranks. */
  lemma MeshesEcho(inputs: seq<RankInput>, regs: seq<Registry>)
    requires AllBuilt(inputs) && regs == Registries(inputs)
    requires forall q :: 0 <= q < |regs| ==> BuildLocal(regs[q]).Success?
    ensures forall q :: 0 <= q < |inputs| ==>
              && Echoes(inputs[q], Meshes(regs)[q])
              && BuildLocal(regs[q]) == Success(LocalLayouts(Meshes(regs)[q].cc, Meshes(regs)[q].cs, Meshes(regs)[q].cg))
              && Meshes(regs)[q].ngc == BuildDual(regs, q)
  {
    var ms := Meshes(regs);
    forall q | 0 <= q < |inputs|
      ensures Echoes(inputs[q], ms[q])
      ensures BuildLocal(regs[q]) == Success(LocalLayouts(ms[q].cc, ms[q].cs, ms[q].cg))
      ensures ms[q].ngc == BuildDual(regs, q)
    {
      assert ms[q] == MeshOf(regs, q);
      assert Build(inputs[q]) == Success(regs[q]);
    }
  }

  /** A rank's mesh is the one that echoes the rank's input, carries the
      rank's local layouts and the dual layout computed from all ranks. */
  lemma MeshOfEchoes(inp: RankInput, regs: seq<Registry>, q: nat)
    requires AllWellFormed(regs) && q < |regs|
    requires Build(inp) == Success(regs[q]) && BuildLocal(regs[q]).Success?
    ensures Echoes(inp, MeshOf(regs, q))
    ensures BuildLocal(regs[q]) == Success(LocalLayouts(MeshOf(regs, q).cc, MeshOf(regs, q).cs, MeshOf(regs, q).cg))
    ensures MeshOf(regs, q).ngc == BuildDual(regs, q)
  {
  }

  /** Construction returns exactly the given meshes when every rank's arrays
      build to its registry and each mesh echoes its rank's input and carries
      that rank's local layouts and its dual layout over all ranks. */
  lemma ConstructAllSucceeds(inputs: seq<RankInput>, regs: seq<Registry>, ms: seq<Mesh>)
    requires AllWellFormed(regs) && |inputs| == |regs| == |ms|
    requires forall q :: 0 <= q < |inputs| ==>
               && Build(inputs[q]) == Success(regs[q])
               && BuildLocal(regs[q]) == Success(LocalLayouts(ms[q].cc, ms[q].cs, ms[q].cg))
               && Echoes(inputs[q], ms[q])
               && ms[q].ngc == BuildDual(regs, q)
    ensures ConstructAll(inputs) == Success(ms)
  {
    forall q | 0 <= q < |inputs|
      ensures MeshOf(regs, q) == ms[q]
    {
      var reg := regs[q];
      assert |reg.cells| == |Lengths(reg.cells)| == |inputs[q].cellType|;
      assert reg.globalNode == inputs[q].globalNodeNumber;
    }
    assert AllBuilt(inputs);
    assert Registries(inputs) == regs;
    assert forall q :: 0 <= q < |inputs| ==> (inp => RankFailure(inp).None?)(inputs[q]);
    var r := ConstructAll(inputs);
    assert r.Success?;
    assert r.value == ms;
  }

  /** The cells of a built rank are the slices of its flat cell linkage. */
  lemma CellsAreSlices(inp: RankInput, reg: Registry)
    requires Build(inp) == Success(reg)
    ensures Sum(inp.cellType) == |inp.cellToNode| && reg.cells == Slices(inp.cellType, inp.cellToNode)
    ensures Sum(inp.ghostCellType) == |inp.ghostCellToNode| && reg.ghosts == Slices(inp.ghostCellType, inp.ghostCellToNode)
  {
    SlicesOfConcat(reg.cells);
    SlicesOfConcat(reg.ghosts);
  }

  /** Nodes are only permuted at the cell level: for every cell, the nodes
      gathered from the three layouts are a permutation of the cell's slice
      of the input linkage. */
  lemma MeshCellNodesPermuted(inputs: seq<RankInput>, ms: seq<Mesh>, q: nat, c: nat)
    requires ConstructAll(inputs) == Success(ms)
    requires q < |inputs| && c < |inputs[q].cellType|
    ensures q < |ms| && Sum(inputs[q].cellType) == |inputs[q].cellToNode|
    ensures multiset(FlattenCell(LocalLayouts(ms[q].cc, ms[q].cs, ms[q].cg), c))
            == multiset(Slices(inputs[q].cellType, inputs[q].cellToNode)[c])
  {
    var regs := Registries(inputs);
    CellsAreSlices(inputs[q], regs[q]);
    CellNodesPermuted(regs[q], LocalLayouts(ms[q].cc, ms[q].cs, ms[q].cg), c);
  }

  /** Every ghost cell's nodes, gathered from the cell-ghost layout, are a
      permutation of its slice of the input ghost linkage. */
  lemma MeshGhostNodesPermuted(inputs: seq<RankInput>, ms: seq<Mesh>, q: nat, g: nat)
    requires ConstructAll(inputs) == Success(ms)
    requires q < |inputs| && g < |inputs[q].ghostCellType|
    ensures q < |ms| && Sum(inputs[q].ghostCellType) == |inputs[q].ghostCellToNode|
    ensures multiset(FlattenGhost(ms[q].cg, ms[q].numCells, g, 0))
            == multiset(Slices(inputs[q].ghostCellType, inputs[q].ghostCellToNode)[g])
  {
    var regs := Registries(inputs);
    CellsAreSlices(inputs[q], regs[q]);
    GhostNodesPermuted(regs[q], LocalLayouts(ms[q].cc, ms[q].cs, ms[q].cg), g);
  }

  /** A rank that holds a single cell has no on-rank cell neighbours. */
  lemma MeshSingleCell(inputs: seq<RankInput>, ms: seq<Mesh>, q: nat)
    requires ConstructAll(inputs) == Success(ms)
    requires q < |inputs| && |inputs[q].cellType| == 1
    ensures q < |ms| && ms[q].cc == map[]
  {
    SingleCellNoNeighbors(Registries(inputs)[q]);
  }
}
