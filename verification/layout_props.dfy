/** Properties of the three per-cell layouts that the domain-decomposed mesh
    test checks: nodes are only permuted at the cell level, every ghost cell
    is recorded once with its own nodes, on-rank adjacency is symmetric, and
    a rank holding a single cell has no on-rank neighbours. */
module LayoutProps {
  import opened Wrappers
  import opened Registry
  import opened Layouts

  /** The first node of each record. Every node of a polygon starts exactly
      one of its faces, so these first nodes rebuild the cell's node list. */
  function Firsts(links: seq<Link>): seq<nat>
  {
    if links == [] then []
    else (if links[0].nodes == [] then [] else [links[0].nodes[0]]) + Firsts(links[1..])
  }

  lemma {:induction false} FirstsAppend(a: seq<Link>, b: seq<Link>)
    ensures Firsts(a + b) == Firsts(a) + Firsts(b)
  {
    if a == [] {
      assert a + b == b;
    } else {
      var ab := a + b;
      assert ab[0] == a[0] && ab[1..] == a[1..] + b;
      FirstsAppend(a[1..], b);
      var head := if a[0].nodes == [] then [] else [a[0].nodes[0]];
      assert Firsts(ab) == head + Firsts(a[1..] + b);
      assert Firsts(a) == head + Firsts(a[1..]);
    }
  }

  /** One cell's node list gathered back from its cell-cell, cell-side and
      cell-ghost records, in that order. */
  function FlattenCell(ll: LocalLayouts, c: nat): seq<nat>
  {
    Firsts(Get(ll.cc, c)) + Firsts(Get(ll.cs, c)) + Firsts(Get(ll.cg, c))
  }

  /** The nodes of every record that names ghost cell g. */
  function NodesNaming(links: seq<Link>, g: nat): seq<nat>
  {
    if links == [] then []
    else (if links[0].neighbor == g then links[0].nodes else []) + NodesNaming(links[1..], g)
  }

  lemma {:induction false} NodesNamingAppend(a: seq<Link>, b: seq<Link>, g: nat)
    ensures NodesNaming(a + b, g) == NodesNaming(a, g) + NodesNaming(b, g)
  {
    if a == [] {
      assert a + b == b;
    } else {
      var ab := a + b;
      assert ab[0] == a[0] && ab[1..] == a[1..] + b;
      NodesNamingAppend(a[1..], b, g);
      var head := if a[0].neighbor == g then a[0].nodes else [];
      assert NodesNaming(ab, g) == head + NodesNaming(a[1..] + b, g);
      assert NodesNaming(a, g) == head + NodesNaming(a[1..], g);
    }
  }

  /** Ghost cell g's node list gathered back from the cell-ghost layout, over
      cells c.. of the rank. */
  function FlattenGhost(cg: Layout, numCells: nat, g: nat, c: nat): seq<nat>
    decreases numCells - c
  {
    if c >= numCells then [] else NodesNaming(Get(cg, c), g) + FlattenGhost(cg, numCells, g, c + 1)
  }

  /** A built layout holds, for a cell of the rank, exactly its records. */
  lemma GetBuildLayout(reg: Registry, kind: Kind, c: nat)
    requires c < |reg.cells|
    ensures Get(BuildLayout(reg, kind), c) == CellLinks(reg, c, kind)
  {
  }

  /** One step of the record list: face k contributes its first node to the
      layout of its own kind and nothing to the others. */
  lemma FirstsStep(cell: seq<nat>, fcs: seq<FaceClass>, kind: Kind, k: nat)
    requires |fcs| == |cell| && k < |cell|
    ensures Firsts(LinksFrom(cell, fcs, kind, k))
            == (if Target(fcs[k], kind).Some? then [cell[k]] else []) + Firsts(LinksFrom(cell, fcs, kind, k + 1))
  {
    match Target(fcs[k], kind)
    case Some(x) =>
      FirstsAppend([Link(x, Face(cell, k))], LinksFrom(cell, fcs, kind, k + 1));
    case None =>
  }

  /** Records from face k on each contribute their face's first node, and
      each classified face is recorded in exactly one layout. */
  lemma {:induction false} FirstsFrom(cell: seq<nat>, fcs: seq<FaceClass>, k: nat)
    requires |fcs| == |cell| && k <= |cell|
    requires forall j :: k <= j < |cell| ==> Classified(fcs[j])
    decreases |cell| - k
    ensures multiset(Firsts(LinksFrom(cell, fcs, CellKind, k)))
            + multiset(Firsts(LinksFrom(cell, fcs, SideKind, k)))
            + multiset(Firsts(LinksFrom(cell, fcs, GhostKind, k)))
            == multiset(cell[k..])
  {
    if k < |cell| {
      assert cell[k..] == [cell[k]] + cell[k + 1..];
      FirstsFrom(cell, fcs, k + 1);
      FirstsHead(cell, fcs, k);
    }
  }

  /** A classified face k adds its first node to exactly one of the three
      record lists. */
  lemma FirstsHead(cell: seq<nat>, fcs: seq<FaceClass>, k: nat)
    requires |fcs| == |cell| && k < |cell| && Classified(fcs[k])
    ensures multiset(Firsts(LinksFrom(cell, fcs, CellKind, k)))
            + multiset(Firsts(LinksFrom(cell, fcs, SideKind, k)))
            + multiset(Firsts(LinksFrom(cell, fcs, GhostKind, k)))
            == multiset{cell[k]}
               + multiset(Firsts(LinksFrom(cell, fcs, CellKind, k + 1)))
               + multiset(Firsts(LinksFrom(cell, fcs, SideKind, k + 1)))
               + multiset(Firsts(LinksFrom(cell, fcs, GhostKind, k + 1)))
  {
    FirstsStep(cell, fcs, CellKind, k);
    FirstsStep(cell, fcs, SideKind, k);
    FirstsStep(cell, fcs, GhostKind, k);
    Regroup(Firsts(LinksFrom(cell, fcs, CellKind, k)),
            Firsts(LinksFrom(cell, fcs, SideKind, k)),
            Firsts(LinksFrom(cell, fcs, GhostKind, k)),
            [cell[k]],
            Firsts(LinksFrom(cell, fcs, CellKind, k + 1)),
            Firsts(LinksFrom(cell, fcs, SideKind, k + 1)),
            Firsts(LinksFrom(cell, fcs, GhostKind, k + 1)));
  }

  /** One node added to one of three lists adds it to their union. */
  lemma Regroup(x: seq<nat>, y: seq<nat>, z: seq<nat>, h: seq<nat>, a: seq<nat>, b: seq<nat>, d: seq<nat>)
    requires || (x == h + a && y == b && z == d)
             || (x == a && y == h + b && z == d)
             || (x == a && y == b && z == h + d)
    ensures multiset(x) + multiset(y) + multiset(z) == multiset(h) + multiset(a) + multiset(b) + multiset(d)
  {
  }

  /** Nodes are only permuted at the cell level: gathering a cell's nodes
      back from the three layouts gives a permutation of its input node
      list. */
  lemma CellNodesPermuted(reg: Registry, ll: LocalLayouts, c: nat)
    requires BuildLocal(reg) == Success(ll)
    requires c < |reg.cells|
    ensures multiset(FlattenCell(ll, c)) == multiset(reg.cells[c])
  {
    assert AllFacesClassified(reg);
    GetBuildLayout(reg, CellKind, c);
    GetBuildLayout(reg, SideKind, c);
    GetBuildLayout(reg, GhostKind, c);
    FirstsFrom(reg.cells[c], FaceClasses(reg, c), 0);
    assert reg.cells[c][0..] == reg.cells[c];
  }

  /** Two faces of one proper polygon cell never share a node pair. */
  lemma DistinctFaces(cell: seq<nat>, numNodes: nat, k1: nat, k2: nat)
    requires ProperCell(cell, numNodes)
    requires k1 < |cell| && k2 < |cell|
    requires KeyOf(cell, k1) == KeyOf(cell, k2)
    ensures k1 == k2
  {
  }

  /** A ghost cell lies against at most one face of the rank. */
  lemma GhostFaceUnique(reg: Registry, g: nat, c1: nat, k1: nat, c2: nat, k2: nat)
    requires WellFormed(reg)
    requires c1 < |reg.cells| && k1 < |reg.cells[c1]| && c2 < |reg.cells| && k2 < |reg.cells[c2]|
    requires Classify(reg, c1, k1) == OnGhost(g) && Classify(reg, c2, k2) == OnGhost(g)
    ensures c1 == c2 && k1 == k2
  {
    ClassifyCells(reg, c1, k1);
    ClassifyBoundary(reg, c1, k1);
    ClassifyBoundary(reg, c2, k2);
    var key := KeyOf(reg.cells[c1], k1);
    assert KeyOf(reg.cells[c2], k2) == key;
    HasFaceSpec(reg.cells[c2], key);
    var sh := Sharers(reg, c1, k1);
    assert c2 != c1 ==> c2 in sh;
    DistinctFaces(reg.cells[c1], |reg.globalNode|, k1, k2);
  }

  lemma {:induction false} NoGhostFaceFrom(cell: seq<nat>, fcs: seq<FaceClass>, g: nat, k: nat)
    requires |fcs| == |cell| && k <= |cell|
    requires forall j :: k <= j < |cell| ==> fcs[j] != OnGhost(g)
    decreases |cell| - k
    ensures NodesNaming(LinksFrom(cell, fcs, GhostKind, k), g) == []
  {
    if k < |cell| {
      NoGhostFaceFrom(cell, fcs, g, k + 1);
      match Target(fcs[k], GhostKind)
      case Some(x) =>
        NodesNamingAppend([Link(x, Face(cell, k))], LinksFrom(cell, fcs, GhostKind, k + 1), g);
      case None =>
    }
  }

  lemma {:induction false} OneGhostFaceFrom(cell: seq<nat>, fcs: seq<FaceClass>, g: nat, k: nat, k0: nat)
    requires |fcs| == |cell| && k <= k0 < |cell|
    requires fcs[k0] == OnGhost(g)
    requires forall j :: k <= j < |cell| && j != k0 ==> fcs[j] != OnGhost(g)
    decreases |cell| - k
    ensures NodesNaming(LinksFrom(cell, fcs, GhostKind, k), g) == Face(cell, k0)
  {
    var rest := LinksFrom(cell, fcs, GhostKind, k + 1);
    if k == k0 {
      NoGhostFaceFrom(cell, fcs, g, k + 1);
      NodesNamingAppend([Link(g, Face(cell, k))], rest, g);
    } else {
      OneGhostFaceFrom(cell, fcs, g, k + 1, k0);
      match Target(fcs[k], GhostKind)
      case Some(x) =>
        NodesNamingAppend([Link(x, Face(cell, k))], rest, g);
      case None =>
    }
  }

  /** Within one cell, only the face against ghost cell g names it. */
  lemma GhostNamingIn(reg: Registry, g: nat, c: nat, c0: nat, k0: nat)
    requires WellFormed(reg)
    requires c0 < |reg.cells| && k0 < |reg.cells[c0]| && Classify(reg, c0, k0) == OnGhost(g)
    requires c < |reg.cells|
    ensures NodesNaming(CellLinks(reg, c, GhostKind), g) == if c == c0 then Face(reg.cells[c0], k0) else []
  {
    var fcs := FaceClasses(reg, c);
    forall j | 0 <= j < |reg.cells[c]| && fcs[j] == OnGhost(g)
      ensures c == c0 && j == k0
    {
      GhostFaceUnique(reg, g, c, j, c0, k0);
    }
    if c == c0 {
      OneGhostFaceFrom(reg.cells[c], fcs, g, 0, k0);
    } else {
      NoGhostFaceFrom(reg.cells[c], fcs, g, 0);
    }
  }

  /** Over cells c.., a layout in which only cell c0 names ghost cell g,
      with the nodes `face`, gathers exactly `face` for g. */
  lemma {:induction false} FlattenGhostOf(cg: Layout, n: nat, g: nat, c: nat, c0: nat, face: seq<nat>)
    requires c0 < n && c <= n
    requires forall x :: c <= x < n ==> NodesNaming(Get(cg, x), g) == if x == c0 then face else []
    decreases n - c
    ensures FlattenGhost(cg, n, g, c) == if c <= c0 then face else []
  {
    if c < n {
      FlattenGhostOf(cg, n, g, c + 1, c0, face);
      var here := NodesNaming(Get(cg, c), g);
      var rest := FlattenGhost(cg, n, g, c + 1);
      assert FlattenGhost(cg, n, g, c) == here + rest;
      if c < c0 {
        assert here == [] && rest == face;
        assert here + rest == rest;
      } else if c == c0 {
        assert here == face && rest == [];
        assert here + rest == here;
      } else {
        assert here == [] && rest == [];
      }
    }
  }

  /** In the built cell-ghost layout only the face against ghost cell g
      names it, so gathering g from cells c.. gives that face's nodes. */
  lemma FlattenGhostFrom(reg: Registry, g: nat, c: nat, c0: nat, k0: nat)
    requires WellFormed(reg)
    requires c0 < |reg.cells| && k0 < |reg.cells[c0]| && Classify(reg, c0, k0) == OnGhost(g)
    requires c <= |reg.cells|
    ensures FlattenGhost(BuildLayout(reg, GhostKind), |reg.cells|, g, c)
            == if c <= c0 then Face(reg.cells[c0], k0) else []
  {
    var cg := BuildLayout(reg, GhostKind);
    var face := Face(reg.cells[c0], k0);
    forall x | c <= x < |reg.cells|
      ensures NodesNaming(Get(cg, x), g) == if x == c0 then face else []
    {
      GetBuildLayout(reg, GhostKind, x);
      GhostNamingIn(reg, g, x, c0, k0);
    }
    FlattenGhostOf(cg, |reg.cells|, g, c, c0, face);
  }

  /** Equal unordered keys name the same node multiset. */
  lemma EdgeNodes(a: seq<nat>, b: seq<nat>)
    requires |a| == 2 && |b| == 2 && EdgeOf(a[0], a[1]) == EdgeOf(b[0], b[1])
    ensures multiset(a) == multiset(b)
  {
    assert a == [a[0], a[1]] && b == [b[0], b[1]];
    if a[0] == b[0] {
      assert a[1] == b[1];
    } else {
      assert a[0] == b[1] && a[1] == b[0];
      assert multiset([a[0], a[1]]) == multiset([a[1], a[0]]);
    }
  }

  /** Every ghost cell is recorded in the cell-ghost layout exactly once, so
      gathering its nodes back from the layout gives a permutation of its
      input node list. */
  lemma GhostNodesPermuted(reg: Registry, ll: LocalLayouts, g: nat)
    requires WellFormed(reg)
    requires BuildLocal(reg) == Success(ll)
    requires g < |reg.ghosts|
    ensures multiset(FlattenGhost(ll.cg, |reg.cells|, g, 0)) == multiset(reg.ghosts[g])
  {
    assert GhostUsed(reg, g);
    var c0, k0 :| 0 <= c0 < |reg.cells| && 0 <= k0 < |reg.cells[c0]| && Classify(reg, c0, k0) == OnGhost(g);
    FlattenGhostFrom(reg, g, 0, c0, k0);
    ClassifyBoundary(reg, c0, k0);
    EdgeNodes(Face(reg.cells[c0], k0), reg.ghosts[g]);
  }

  /** On-rank adjacency is symmetric: when cell c records cell d across a
      face, d records c across the same node pair. */
  lemma CellCellSymmetric(reg: Registry, c: nat, l: Link)
    requires c < |reg.cells|
    requires l in Get(BuildLayout(reg, CellKind), c)
    ensures exists l2 :: l2 in Get(BuildLayout(reg, CellKind), l.neighbor)
                         && l2.neighbor == c && ListKey(l2.nodes) == ListKey(l.nodes)
  {
    LayoutRecords(reg, CellKind, c, l);
    var j :| RecordsFace(reg, c, CellKind, j, l);
    var d := l.neighbor;
    var key := KeyOf(reg.cells[c], j);
    ClassifyCells(reg, c, j);
    assert d in Sharers(reg, c, j);
    HasFaceSpec(reg.cells[d], key);
    var j2 :| 0 <= j2 < |reg.cells[d]| && KeyOf(reg.cells[d], j2) == key;
    HasFaceSpec(reg.cells[c], key);
    assert c in Sharers(reg, d, j2);
    assert Sharers(reg, d, j2) == {c} by {
      var sh := Sharers(reg, c, j);
      forall y | y in Sharers(reg, d, j2) ensures y == c {
        assert y != c ==> y in sh;
      }
    }
    ClassifyCells(reg, d, j2);
    assert Classify(reg, d, j2) == Interior(c);
    var l2 := Link(c, Face(reg.cells[d], j2));
    assert RecordsFace(reg, d, CellKind, j2, l2);
    LayoutRecords(reg, CellKind, d, l2);
  }

  /** A cell none of whose faces from k on is of the given kind has no
      records of that kind. */
  lemma {:induction false} NoTargetFrom(cell: seq<nat>, fcs: seq<FaceClass>, kind: Kind, k: nat)
    requires |fcs| == |cell|
    requires forall j :: k <= j < |cell| ==> Target(fcs[j], kind).None?
    decreases |cell| - k
    ensures LinksFrom(cell, fcs, kind, k) == []
  {
    if k < |cell| {
      NoTargetFrom(cell, fcs, kind, k + 1);
    }
  }

  /** With a single cell on the rank there are no on-rank neighbours: the
      cell-cell layout is empty. */
  lemma SingleCellNoNeighbors(reg: Registry)
    requires |reg.cells| == 1
    ensures BuildLayout(reg, CellKind) == map[]
  {
    NoTargetFrom(reg.cells[0], FaceClasses(reg, 0), CellKind, 0);
    assert forall c :: c !in BuildLayout(reg, CellKind);
  }
}
