/** Local and ghost adjacency of one rank: every face of every 2-D cell is
    classified as shared with another on-rank cell, lying on a declared side,
    or lying against a ghost cell owned by another rank, and the three
    per-cell layouts (cell-cell, cell-side, cell-ghost) are read off that
    classification. */
module Layouts {
  import opened Wrappers
  import opened Seqs
  import opened Registry

  /** The face of a polygon cell that starts at its k-th node; the nodes are
      listed in the cell's own order. */
  function Face(cell: seq<nat>, k: nat): seq<nat>
    requires k < |cell|
  {
    [cell[k], cell[Succ(|cell|, k)]]
  }

  /** The position after k in a cyclic list of n entries. */
  function Succ(n: nat, k: nat): nat
    requires k < n
  {
    if k + 1 < n then k + 1 else 0
  }

  /** The position before k in a cyclic list of n entries. */
  function Pred(n: nat, k: nat): nat
    requires k < n
  {
    if k == 0 then n - 1 else k - 1
  }

  /** Faces are matched as unordered node pairs: the same edge is listed in
      opposite orders by the two cells that share it. */
  datatype Edge = Edge(lo: nat, hi: nat)

  function EdgeOf(a: nat, b: nat): Edge
  {
    if a <= b then Edge(a, b) else Edge(b, a)
  }

  /** The unordered key of face k of a cell. */
  function KeyOf(cell: seq<nat>, k: nat): Edge
    requires k < |cell|
  {
    EdgeOf(cell[k], cell[Succ(|cell|, k)])
  }

  /** The key of a side or ghost-cell node list; only two-node lists name a
      2-D face. */
  function ListKey(xs: seq<nat>): Option<Edge>
  {
    if |xs| == 2 then Some(EdgeOf(xs[0], xs[1])) else None
  }

  /** Position of the first face at or after k with the given key. */
  function FaceIndex(cell: seq<nat>, key: Edge, k: nat): Option<nat>
    decreases |cell| - k
  {
    if k >= |cell| then None
    else if KeyOf(cell, k) == key then Some(k)
    else FaceIndex(cell, key, k + 1)
  }

  /** The cell has a face with the given key. */
  predicate HasFace(cell: seq<nat>, key: Edge)
  {
    FaceIndex(cell, key, 0).Some?
  }

  lemma FaceIndexSpec(cell: seq<nat>, key: Edge, k: nat)
    decreases |cell| - k
    ensures FaceIndex(cell, key, k).Some? <==> exists j :: k <= j < |cell| && KeyOf(cell, j) == key
    ensures FaceIndex(cell, key, k).Some? ==>
              k <= FaceIndex(cell, key, k).value < |cell| && KeyOf(cell, FaceIndex(cell, key, k).value) == key
  {
    if k < |cell| {
      FaceIndexSpec(cell, key, k + 1);
    }
  }

  /** A cell has a face with key `key` exactly when one of its faces has it. */
  lemma HasFaceSpec(cell: seq<nat>, key: Edge)
    ensures HasFace(cell, key) <==> exists j :: 0 <= j < |cell| && KeyOf(cell, j) == key
  {
    FaceIndexSpec(cell, key, 0);
  }

  /** The cells at or after `from`, other than `c`, that have a face with the
      given key, in ascending order. */
  function Neighbors(cells: seq<seq<nat>>, c: nat, key: Edge, from: nat): seq<nat>
    decreases |cells| - from
  {
    if from >= |cells| then []
    else if from != c && HasFace(cells[from], key) then [from] + Neighbors(cells, c, key, from + 1)
    else Neighbors(cells, c, key, from + 1)
  }

  lemma {:induction false} NeighborsSpec(cells: seq<seq<nat>>, c: nat, key: Edge, from: nat)
    decreases |cells| - from
    ensures forall i :: 0 <= i < |Neighbors(cells, c, key, from)| ==>
              var x := Neighbors(cells, c, key, from)[i];
              from <= x < |cells| && x != c && HasFace(cells[x], key)
    ensures forall x :: from <= x < |cells| && x != c && HasFace(cells[x], key) ==> x in Neighbors(cells, c, key, from)
    ensures forall i, j :: 0 <= i < j < |Neighbors(cells, c, key, from)| ==>
              Neighbors(cells, c, key, from)[i] < Neighbors(cells, c, key, from)[j]
  {
    if from < |cells| {
      NeighborsSpec(cells, c, key, from + 1);
    }
  }

  /** The first node list at or after `from` whose key is `key`. */
  function FirstMatch(lists: seq<seq<nat>>, key: Edge, from: nat): Option<nat>
    decreases |lists| - from
  {
    if from >= |lists| then None
    else if ListKey(lists[from]) == Some(key) then Some(from)
    else FirstMatch(lists, key, from + 1)
  }

  lemma {:induction false} FirstMatchSpec(lists: seq<seq<nat>>, key: Edge, from: nat)
    decreases |lists| - from
    ensures FirstMatch(lists, key, from).Some? ==>
              var m := FirstMatch(lists, key, from).value;
              && from <= m < |lists| && ListKey(lists[m]) == Some(key)
              && forall j :: from <= j < m ==> ListKey(lists[j]) != Some(key)
    ensures FirstMatch(lists, key, from).None? ==> forall j :: from <= j < |lists| ==> ListKey(lists[j]) != Some(key)
  {
    if from < |lists| {
      FirstMatchSpec(lists, key, from + 1);
    }
  }

  /** How one face of a cell is classified. */
  datatype FaceClass =
    | Interior(cell: nat)
    | OnSide(side: nat)
    | OnGhost(ghostCell: nat)
    | NonManifold
    | Unmatched

  /** Classify face k of cell c: an on-rank neighbour takes precedence, then
      a declared side, then a ghost cell. */
  function Classify(reg: Registry, c: nat, k: nat): (fc: FaceClass)
    requires c < |reg.cells| && k < |reg.cells[c]|
    ensures fc.Interior? ==> fc.cell < |reg.cells| && fc.cell != c
    ensures fc.OnSide? ==> fc.side < |reg.sides|
    ensures fc.OnGhost? ==> fc.ghostCell < |reg.ghosts|
  {
    var key := KeyOf(reg.cells[c], k);
    var nb := Neighbors(reg.cells, c, key, 0);
    NeighborsSpec(reg.cells, c, key, 0);
    FirstMatchSpec(reg.sides, key, 0);
    FirstMatchSpec(reg.ghosts, key, 0);
    if |nb| == 1 then
      Interior(nb[0])
    else if |nb| > 1 then
      NonManifold
    else
      match FirstMatch(reg.sides, key, 0)
      case Some(s) => OnSide(s)
      case None =>
        match FirstMatch(reg.ghosts, key, 0)
        case Some(g) => OnGhost(g)
        case None => Unmatched
  }

  /** The other on-rank cells that have face k of cell c. */
  ghost function Sharers(reg: Registry, c: nat, k: nat): set<nat>
    requires c < |reg.cells| && k < |reg.cells[c]|
  {
    set x | 0 <= x < |reg.cells| && x != c && HasFace(reg.cells[x], KeyOf(reg.cells[c], k))
  }

  /** The on-rank part of the classification: an interior face is shared
      with exactly one other cell, a non-manifold face with at least two, and
      every other face with none. */
  lemma ClassifyCells(reg: Registry, c: nat, k: nat)
    requires c < |reg.cells| && k < |reg.cells[c]|
    ensures Classify(reg, c, k).Interior? ==> Sharers(reg, c, k) == {Classify(reg, c, k).cell}
    ensures Classify(reg, c, k).NonManifold? ==>
              exists x, y :: x in Sharers(reg, c, k) && y in Sharers(reg, c, k) && x != y
    ensures !Classify(reg, c, k).Interior? && !Classify(reg, c, k).NonManifold? ==> Sharers(reg, c, k) == {}
  {
    var key := KeyOf(reg.cells[c], k);
    var nb := Neighbors(reg.cells, c, key, 0);
    NeighborsSpec(reg.cells, c, key, 0);
    var sh := Sharers(reg, c, k);
    assert forall x :: x in sh ==> x in nb;
    assert forall i :: 0 <= i < |nb| ==> nb[i] in sh;
    if |nb| == 1 {
      assert nb[0] in sh;
      assert sh == {nb[0]};
    } else if |nb| > 1 {
      assert nb[0] in sh && nb[1] in sh && nb[0] != nb[1];
    } else {
      assert sh == {};
    }
  }

  /** The boundary part of the classification: a side face matches its
      first side; a ghost face matches no side and its first ghost cell; an
      unmatched face matches neither. */
  lemma ClassifyBoundary(reg: Registry, c: nat, k: nat)
    requires c < |reg.cells| && k < |reg.cells[c]|
    ensures Classify(reg, c, k).OnSide? ==>
              && ListKey(reg.sides[Classify(reg, c, k).side]) == Some(KeyOf(reg.cells[c], k))
              && forall s :: 0 <= s < Classify(reg, c, k).side ==> ListKey(reg.sides[s]) != Some(KeyOf(reg.cells[c], k))
    ensures Classify(reg, c, k).OnGhost? || Classify(reg, c, k).Unmatched? ==>
              forall s :: 0 <= s < |reg.sides| ==> ListKey(reg.sides[s]) != Some(KeyOf(reg.cells[c], k))
    ensures Classify(reg, c, k).OnGhost? ==>
              && ListKey(reg.ghosts[Classify(reg, c, k).ghostCell]) == Some(KeyOf(reg.cells[c], k))
              && forall g :: 0 <= g < Classify(reg, c, k).ghostCell ==> ListKey(reg.ghosts[g]) != Some(KeyOf(reg.cells[c], k))
    ensures Classify(reg, c, k).Unmatched? ==>
              forall g :: 0 <= g < |reg.ghosts| ==> ListKey(reg.ghosts[g]) != Some(KeyOf(reg.cells[c], k))
  {
    FirstMatchSpec(reg.sides, KeyOf(reg.cells[c], k), 0);
    FirstMatchSpec(reg.ghosts, KeyOf(reg.cells[c], k), 0);
  }

  /** The three layouts a face can be recorded in. */
  datatype Kind = CellKind | SideKind | GhostKind

  /** The neighbour a face class records in the layout of the given kind. */
  function Target(fc: FaceClass, kind: Kind): Option<nat>
  {
    match fc
    case Interior(x) => if kind == CellKind then Some(x) else None
    case OnSide(s) => if kind == SideKind then Some(s) else None
    case OnGhost(g) => if kind == GhostKind then Some(g) else None
    case _ => None
  }

  /** One layout record: the neighbouring entity and the face's nodes. */
  datatype Link = Link(neighbor: nat, nodes: seq<nat>)

  /** The classes of the faces of cell c, in face order. */
  function FaceClasses(reg: Registry, c: nat): (fcs: seq<FaceClass>)
    requires c < |reg.cells|
    ensures |fcs| == |reg.cells[c]|
    ensures forall k :: 0 <= k < |fcs| ==> fcs[k] == Classify(reg, c, k)
  {
    seq(|reg.cells[c]|, k requires 0 <= k < |reg.cells[c]| => Classify(reg, c, k))
  }

  /** Records of one kind for faces k.. of a cell whose faces have classes
      `fcs`, in face order. */
  function LinksFrom(cell: seq<nat>, fcs: seq<FaceClass>, kind: Kind, k: nat): seq<Link>
    requires |fcs| == |cell|
    decreases |cell| - k
  {
    if k >= |cell| then []
    else
      match Target(fcs[k], kind)
      case Some(x) => [Link(x, Face(cell, k))] + LinksFrom(cell, fcs, kind, k + 1)
      case None => LinksFrom(cell, fcs, kind, k + 1)
  }

  /** Face j, of class fcs[j], yields record l in the layout of a kind. */
  predicate RecordsAt(cell: seq<nat>, fcs: seq<FaceClass>, kind: Kind, j: nat, l: Link)
    requires |fcs| == |cell|
  {
    j < |cell| && Target(fcs[j], kind) == Some(l.neighbor) && l.nodes == Face(cell, j)
  }

  lemma {:induction false} LinksFromSpec(cell: seq<nat>, fcs: seq<FaceClass>, kind: Kind, k: nat, l: Link)
    requires |fcs| == |cell|
    decreases |cell| - k
    ensures l in LinksFrom(cell, fcs, kind, k) <==> exists j :: k <= j && RecordsAt(cell, fcs, kind, j, l)
  {
    if k < |cell| {
      LinksFromSpec(cell, fcs, kind, k + 1, l);
      var rest := LinksFrom(cell, fcs, kind, k + 1);
      match Target(fcs[k], kind)
      case Some(x) =>
        var head := Link(x, Face(cell, k));
        assert LinksFrom(cell, fcs, kind, k) == [head] + rest;
        assert l == head ==> RecordsAt(cell, fcs, kind, k, l);
        assert forall j :: k <= j && RecordsAt(cell, fcs, kind, j, l) ==> j == k || k + 1 <= j;
        assert RecordsAt(cell, fcs, kind, k, l) ==> l == head;
      case None =>
        assert LinksFrom(cell, fcs, kind, k) == rest;
        assert !RecordsAt(cell, fcs, kind, k, l);
        assert forall j :: k <= j && RecordsAt(cell, fcs, kind, j, l) ==> k + 1 <= j;
    }
  }

  /** All records of one kind of cell c. */
  function CellLinks(reg: Registry, c: nat, kind: Kind): seq<Link>
    requires c < |reg.cells|
  {
    LinksFrom(reg.cells[c], FaceClasses(reg, c), kind, 0)
  }

  /** A face contributes a record of a kind exactly when its class is of
      that kind; the record names the face's neighbour and its nodes. */
  ghost predicate RecordsFace(reg: Registry, c: nat, kind: Kind, j: nat, l: Link)
    requires c < |reg.cells|
  {
    j < |reg.cells[c]| && Target(Classify(reg, c, j), kind) == Some(l.neighbor) && l.nodes == Face(reg.cells[c], j)
  }

  /** A layout: local cell index -> its records; cells without records of
      this kind are absent. */
  type Layout = map<nat, seq<Link>>

  function BuildLayout(reg: Registry, kind: Kind): Layout
  {
    map c | 0 <= c < |reg.cells| && CellLinks(reg, c, kind) != [] :: CellLinks(reg, c, kind)
  }

  /** Records of a cell, empty when the cell is not a key. */
  function Get(m: Layout, c: nat): seq<Link>
  {
    if c in m then m[c] else []
  }

  /** A link is in a cell's entry exactly when some face of the matching
      class records it. */
  lemma LayoutRecords(reg: Registry, kind: Kind, c: nat, l: Link)
    requires c < |reg.cells|
    ensures l in Get(BuildLayout(reg, kind), c) <==> exists j :: RecordsFace(reg, c, kind, j, l)
  {
    var fcs := FaceClasses(reg, c);
    LinksFromSpec(reg.cells[c], fcs, kind, 0, l);
    assert forall j :: RecordsAt(reg.cells[c], fcs, kind, j, l) <==> RecordsFace(reg, c, kind, j, l);
  }

  /** The positions k.. whose class yields a record of `kind`, in order. */
  function KindPositions(fcs: seq<FaceClass>, kind: Kind, k: nat): seq<nat>
    decreases |fcs| - k
  {
    if k >= |fcs| then []
    else (if Target(fcs[k], kind).Some? then [k] else []) + KindPositions(fcs, kind, k + 1)
  }

  /** KindPositions lists only positions of that kind from k on. */
  lemma {:induction false} KindPositionsSound(fcs: seq<FaceClass>, kind: Kind, k: nat)
    decreases |fcs| - k
    ensures forall i :: 0 <= i < |KindPositions(fcs, kind, k)| ==>
              k <= KindPositions(fcs, kind, k)[i] < |fcs| && Target(fcs[KindPositions(fcs, kind, k)[i]], kind).Some?
  {
    if k < |fcs| {
      KindPositionsSound(fcs, kind, k + 1);
      var rest := KindPositions(fcs, kind, k + 1);
      var js := KindPositions(fcs, kind, k);
      if Target(fcs[k], kind).Some? {
        assert js == [k] + rest;
        forall i | 0 < i < |js|
          ensures k < js[i] < |fcs| && Target(fcs[js[i]], kind).Some?
        {
          assert js[i] == rest[i - 1];
        }
      } else {
        assert js == rest;
      }
    }
  }

  /** KindPositions is strictly ascending. */
  lemma {:induction false} KindPositionsAscending(fcs: seq<FaceClass>, kind: Kind, k: nat)
    decreases |fcs| - k
    ensures Ascending(KindPositions(fcs, kind, k))
  {
    if k < |fcs| {
      KindPositionsAscending(fcs, kind, k + 1);
      var rest := KindPositions(fcs, kind, k + 1);
      if Target(fcs[k], kind).Some? {
        KindPositionsSound(fcs, kind, k + 1);
        AscendingCons(k, rest);
        assert KindPositions(fcs, kind, k) == [k] + rest;
      } else {
        assert KindPositions(fcs, kind, k) == rest;
      }
    }
  }

  /** KindPositions misses no position of that kind from k on. */
  lemma {:induction false} KindPositionsComplete(fcs: seq<FaceClass>, kind: Kind, k: nat)
    decreases |fcs| - k
    ensures forall j :: k <= j < |fcs| && Target(fcs[j], kind).Some? ==> j in KindPositions(fcs, kind, k)
  {
    if k < |fcs| {
      KindPositionsComplete(fcs, kind, k + 1);
      var rest := KindPositions(fcs, kind, k + 1);
      var js := KindPositions(fcs, kind, k);
      if Target(fcs[k], kind).Some? {
        assert js == [k] + rest;
      } else {
        assert js == rest;
      }
    }
  }

  lemma {:induction false} LinksFromPositions(cell: seq<nat>, fcs: seq<FaceClass>, kind: Kind, k: nat)
    requires |fcs| == |cell|
    decreases |cell| - k
    ensures var ls := LinksFrom(cell, fcs, kind, k);
            var js := KindPositions(fcs, kind, k);
            |ls| == |js| && forall i :: 0 <= i < |js| ==> RecordsAt(cell, fcs, kind, js[i], ls[i])
  {
    if k < |cell| {
      LinksFromPositions(cell, fcs, kind, k + 1);
      var rest := LinksFrom(cell, fcs, kind, k + 1);
      var js := KindPositions(fcs, kind, k + 1);
      var ls := LinksFrom(cell, fcs, kind, k);
      var ks := KindPositions(fcs, kind, k);
      if Target(fcs[k], kind).Some? {
        var head := Link(Target(fcs[k], kind).value, Face(cell, k));
        assert ls == [head] + rest;
        assert ks == [k] + js;
        assert RecordsAt(cell, fcs, kind, k, head);
        forall i | 0 <= i < |ks|
          ensures RecordsAt(cell, fcs, kind, ks[i], ls[i])
        {
          if i > 0 {
            assert RecordsAt(cell, fcs, kind, js[i - 1], rest[i - 1]);
            assert ks[i] == js[i - 1] && ls[i] == rest[i - 1];
          }
        }
      } else {
        assert ls == rest;
        assert ks == js;
      }
    }
  }

  /** The faces of cell c whose class yields a record of `kind`, ascending:
      every such face and nothing else. */
  ghost function KindFaces(reg: Registry, c: nat, kind: Kind): (js: seq<nat>)
    requires c < |reg.cells|
    ensures forall i :: 0 <= i < |js| ==> js[i] < |reg.cells[c]| && Target(Classify(reg, c, js[i]), kind).Some?
    ensures Ascending(js)
    ensures forall j :: 0 <= j < |reg.cells[c]| && Target(Classify(reg, c, j), kind).Some? ==> j in js
  {
    var fcs := FaceClasses(reg, c);
    KindPositionsSound(fcs, kind, 0);
    KindPositionsAscending(fcs, kind, 0);
    KindPositionsComplete(fcs, kind, 0);
    var js := KindPositions(fcs, kind, 0);
    assert forall i :: 0 <= i < |js| ==> fcs[js[i]] == Classify(reg, c, js[i]);
    js
  }

  /** A cell's entry holds exactly one link per face of the matching class,
      in face order: the i-th link is the record of the i-th such face. */
  lemma LayoutFaceOrder(reg: Registry, kind: Kind, c: nat)
    requires c < |reg.cells|
    ensures var ls := Get(BuildLayout(reg, kind), c);
            var js := KindFaces(reg, c, kind);
            |ls| == |js| && forall i :: 0 <= i < |js| ==> RecordsFace(reg, c, kind, js[i], ls[i])
  {
    var fcs := FaceClasses(reg, c);
    LinksFromPositions(reg.cells[c], fcs, kind, 0);
    var ls := Get(BuildLayout(reg, kind), c);
    assert ls == CellLinks(reg, c, kind);
    var js := KindFaces(reg, c, kind);
    forall i | 0 <= i < |js|
      ensures RecordsFace(reg, c, kind, js[i], ls[i])
    {
      assert RecordsAt(reg.cells[c], fcs, kind, js[i], ls[i]);
    }
  }

  /** The keys of a built layout are exactly the cells of the rank with at
      least one face of that kind, and no key holds an empty entry. */
  lemma LayoutKeys(reg: Registry, kind: Kind, c: nat)
    ensures c in BuildLayout(reg, kind) <==> c < |reg.cells| && |KindFaces(reg, c, kind)| > 0
    ensures c in BuildLayout(reg, kind) ==> BuildLayout(reg, kind)[c] != []
  {
    if c < |reg.cells| {
      LinksFromPositions(reg.cells[c], FaceClasses(reg, c), kind, 0);
      assert |CellLinks(reg, c, kind)| == |KindFaces(reg, c, kind)|;
    }
  }

  /** Search for the first face of cell c at or after k that is neither
      interior, a side nor a ghost face. */
  function BadFaceIn(reg: Registry, c: nat, k: nat): (r: Option<nat>)
    requires c < |reg.cells|
    decreases |reg.cells[c]| - k
    ensures r.Some? ==> k <= r.value < |reg.cells[c]| && !Classified(Classify(reg, c, r.value))
    ensures r.None? ==> forall j :: k <= j < |reg.cells[c]| ==> Classified(Classify(reg, c, j))
  {
    if k >= |reg.cells[c]| then None
    else if !Classified(Classify(reg, c, k)) then Some(k)
    else BadFaceIn(reg, c, k + 1)
  }

  predicate Classified(fc: FaceClass)
  {
    fc.Interior? || fc.OnSide? || fc.OnGhost?
  }

  /** Every face of every cell is interior, a side or a ghost face. */
  predicate AllFacesClassified(reg: Registry)
  {
    forall c, k :: 0 <= c < |reg.cells| && 0 <= k < |reg.cells[c]| ==> Classified(Classify(reg, c, k))
  }

  function BadFaceFrom(reg: Registry, c: nat): (r: Option<(nat, nat)>)
    decreases |reg.cells| - c
    ensures r.Some? ==> c <= r.value.0 < |reg.cells| && r.value.1 < |reg.cells[r.value.0]|
                        && !Classified(Classify(reg, r.value.0, r.value.1))
    ensures r.None? ==> forall x, k :: c <= x < |reg.cells| && 0 <= k < |reg.cells[x]| ==> Classified(Classify(reg, x, k))
  {
    if c >= |reg.cells| then None
    else match BadFaceIn(reg, c, 0)
      case Some(k) => Some((c, k))
      case None => BadFaceFrom(reg, c + 1)
  }

  /** Side s is the face of some cell. */
  predicate SideUsed(reg: Registry, s: nat)
  {
    exists c, k :: 0 <= c < |reg.cells| && 0 <= k < |reg.cells[c]| && Classify(reg, c, k) == OnSide(s)
  }

  /** Ghost cell g lies against a face of some cell. */
  predicate GhostUsed(reg: Registry, g: nat)
  {
    exists c, k :: 0 <= c < |reg.cells| && 0 <= k < |reg.cells[c]| && Classify(reg, c, k) == OnGhost(g)
  }

  function DanglingSideFrom(reg: Registry, s: nat): (r: Option<nat>)
    decreases |reg.sides| - s
    ensures r.Some? ==> s <= r.value < |reg.sides| && !SideUsed(reg, r.value)
    ensures r.None? ==> forall x :: s <= x < |reg.sides| ==> SideUsed(reg, x)
  {
    if s >= |reg.sides| then None
    else if !SideUsed(reg, s) then Some(s)
    else DanglingSideFrom(reg, s + 1)
  }

  function DanglingGhostFrom(reg: Registry, g: nat): (r: Option<nat>)
    decreases |reg.ghosts| - g
    ensures r.Some? ==> g <= r.value < |reg.ghosts| && !GhostUsed(reg, r.value)
    ensures r.None? ==> forall x :: g <= x < |reg.ghosts| ==> GhostUsed(reg, x)
  {
    if g >= |reg.ghosts| then None
    else if !GhostUsed(reg, g) then Some(g)
    else DanglingGhostFrom(reg, g + 1)
  }

  /** The three layouts of one rank. */
  datatype LocalLayouts = LocalLayouts(cc: Layout, cs: Layout, cg: Layout)

  /** The topology is consistent: every face classified, no dangling side
      and no dangling ghost cell. */
  predicate Consistent(reg: Registry)
  {
    && AllFacesClassified(reg)
    && (forall s :: 0 <= s < |reg.sides| ==> SideUsed(reg, s))
    && (forall g :: 0 <= g < |reg.ghosts| ==> GhostUsed(reg, g))
  }

  /** Build the cell-cell, cell-side and cell-ghost layouts, or report the
      first topology inconsistency. */
  function BuildLocal(reg: Registry): (r: Result<LocalLayouts, MeshError>)
    ensures r.Success? <==> Consistent(reg)
    ensures r.Success? ==>
              r.value == LocalLayouts(BuildLayout(reg, CellKind), BuildLayout(reg, SideKind), BuildLayout(reg, GhostKind))
    ensures r.Failure? && r.error.NonManifoldFace? ==>
              r.error.cell < |reg.cells| && r.error.face < |reg.cells[r.error.cell]|
              && Classify(reg, r.error.cell, r.error.face).NonManifold?
    ensures r.Failure? && r.error.UnclassifiedFace? ==>
              r.error.cell < |reg.cells| && r.error.face < |reg.cells[r.error.cell]|
              && Classify(reg, r.error.cell, r.error.face).Unmatched?
    ensures r.Failure? && r.error.DanglingSide? ==> r.error.side < |reg.sides| && !SideUsed(reg, r.error.side)
    ensures r.Failure? && r.error.DanglingGhost? ==>
              r.error.ghostCell < |reg.ghosts| && !GhostUsed(reg, r.error.ghostCell)
    ensures r.Failure? ==>
              r.error.NonManifoldFace? || r.error.UnclassifiedFace? || r.error.DanglingSide? || r.error.DanglingGhost?
  {
    match BadFaceFrom(reg, 0)
    case Some((c, k)) =>
      if Classify(reg, c, k).NonManifold? then Failure(NonManifoldFace(c, k)) else Failure(UnclassifiedFace(c, k))
    case None =>
      match DanglingSideFrom(reg, 0)
      case Some(s) => Failure(DanglingSide(s))
      case None =>
        match DanglingGhostFrom(reg, 0)
        case Some(g) => Failure(DanglingGhost(g))
        case None =>
          Success(LocalLayouts(BuildLayout(reg, CellKind), BuildLayout(reg, SideKind), BuildLayout(reg, GhostKind)))
  }

  /** Faces are checked before sides, and sides before ghost cells: a
      dangling side or ghost cell is reported only when every face is
      classified, and a dangling ghost cell only when every side is used. */
  lemma BuildLocalOrder(reg: Registry)
    ensures BuildLocal(reg).Failure? && (BuildLocal(reg).error.DanglingSide? || BuildLocal(reg).error.DanglingGhost?) ==>
              AllFacesClassified(reg)
    ensures BuildLocal(reg).Failure? && BuildLocal(reg).error.DanglingGhost? ==>
              forall s :: 0 <= s < |reg.sides| ==> SideUsed(reg, s)
  {
  }
}
