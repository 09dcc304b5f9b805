/** The node-to-ghost-cell ("dual ghost") layout of a domain-decomposed 2-D
    mesh. All ranks are modelled at once: a local node of rank r is keyed in
    r's layout exactly when its global node number lies in a cell of some
    other rank, and each such remote cell contributes one record naming the
    remote cell, the two nodes around the shared node in that cell (in the
    remote rank's local numbering), and the remote rank. */
module DualLayout {
  import opened Wrappers
  import opened Registry
  import opened Layouts

  /** One record: remote cell, remote-local node pair, remote rank. */
  datatype DualRecord = DualRecord(cell: nat, nodes: seq<nat>, rank: nat)

  /** Local node index -> records; nodes without records are absent. */
  type DualGhostLayout = map<nat, seq<DualRecord>>

  /** Every rank's registry passed validation. */
  predicate AllWellFormed(ranks: seq<Registry>)
  {
    forall q :: 0 <= q < |ranks| ==> WellFormed(ranks[q])
  }

  /** Cell c of a rank has a node whose global number is g. */
  ghost predicate Touches(reg: Registry, c: nat, g: nat)
    requires WellFormed(reg) && c < |reg.cells|
  {
    exists k :: 0 <= k < |reg.cells[c]| && reg.globalNode[reg.cells[c][k]] == g
  }

  /** Position k is the first position of cell c whose node has global number g. */
  ghost predicate FirstAt(reg: Registry, c: nat, g: nat, k: nat)
    requires WellFormed(reg) && c < |reg.cells|
  {
    && k < |reg.cells[c]|
    && reg.globalNode[reg.cells[c][k]] == g
    && forall j :: 0 <= j < k ==> reg.globalNode[reg.cells[c][j]] != g
  }

  /** Search for the first position at or after k of a node with global number g. */
  function Position(reg: Registry, c: nat, g: nat, k: nat): (r: Option<nat>)
    requires WellFormed(reg) && c < |reg.cells|
    decreases |reg.cells[c]| - k
    ensures r.Some? ==> k <= r.value < |reg.cells[c]|
  {
    if k >= |reg.cells[c]| then None
    else if reg.globalNode[reg.cells[c][k]] == g then Some(k)
    else Position(reg, c, g, k + 1)
  }

  lemma {:induction false} PositionFrom(reg: Registry, c: nat, g: nat, k: nat)
    requires WellFormed(reg) && c < |reg.cells|
    requires forall j :: 0 <= j < k && j < |reg.cells[c]| ==> reg.globalNode[reg.cells[c][j]] != g
    decreases |reg.cells[c]| - k
    ensures Position(reg, c, g, k).Some? ==> FirstAt(reg, c, g, Position(reg, c, g, k).value)
    ensures Position(reg, c, g, k).None? ==> !Touches(reg, c, g)
  {
    if k < |reg.cells[c]| && reg.globalNode[reg.cells[c][k]] != g {
      PositionFrom(reg, c, g, k + 1);
    }
  }

  /** The first position of g in a cell is found, and only when g is there. */
  lemma PositionSpec(reg: Registry, c: nat, g: nat)
    requires WellFormed(reg) && c < |reg.cells|
    ensures Position(reg, c, g, 0).Some? <==> Touches(reg, c, g)
    ensures Position(reg, c, g, 0).Some? ==> FirstAt(reg, c, g, Position(reg, c, g, 0).value)
  {
    PositionFrom(reg, c, g, 0);
  }

  /** The successor and the predecessor of position k in a cell's cyclic node list. */
  function Around(cell: seq<nat>, k: nat): seq<nat>
    requires k < |cell|
  {
    [cell[Succ(|cell|, k)], cell[Pred(|cell|, k)]]
  }

  /** The record data a remote cell contributes for global node g, if it has g. */
  function RemoteNodes(reg: Registry, c: nat, g: nat): Option<seq<nat>>
    requires WellFormed(reg) && c < |reg.cells|
  {
    match Position(reg, c, g, 0)
    case Some(k) => Some(Around(reg.cells[c], k))
    case None => None
  }

  /** Records for global node g contributed by cells c.. of rank q. */
  function CellRecords(reg: Registry, q: nat, g: nat, c: nat): seq<DualRecord>
    requires WellFormed(reg)
    decreases |reg.cells| - c
  {
    if c >= |reg.cells| then []
    else
      match RemoteNodes(reg, c, g)
      case Some(nodes) => [DualRecord(c, nodes, q)] + CellRecords(reg, q, g, c + 1)
      case None => CellRecords(reg, q, g, c + 1)
  }

  /** Records for global node g contributed by ranks q.., other than rank r. */
  function RanksRecords(ranks: seq<Registry>, r: nat, g: nat, q: nat): seq<DualRecord>
    requires AllWellFormed(ranks)
    decreases |ranks| - q
  {
    if q >= |ranks| then []
    else (if q == r then [] else CellRecords(ranks[q], q, g, 0)) + RanksRecords(ranks, r, g, q + 1)
  }

  /** All records of local node n of rank r. */
  function NodeRecords(ranks: seq<Registry>, r: nat, n: nat): seq<DualRecord>
    requires AllWellFormed(ranks) && r < |ranks| && n < |ranks[r].globalNode|
  {
    RanksRecords(ranks, r, ranks[r].globalNode[n], 0)
  }

  /** The dual ghost layout of rank r. */
  function BuildDual(ranks: seq<Registry>, r: nat): DualGhostLayout
    requires AllWellFormed(ranks) && r < |ranks|
  {
    map n | 0 <= n < |ranks[r].globalNode| && NodeRecords(ranks, r, n) != [] :: NodeRecords(ranks, r, n)
  }

  function GetDual(m: DualGhostLayout, n: nat): seq<DualRecord>
  {
    if n in m then m[n] else []
  }

  /** The dual ghost layout is the one map that holds, for each local node
      with records, exactly those records. */
  lemma DualDetermined(ranks: seq<Registry>, r: nat, e: DualGhostLayout)
    requires AllWellFormed(ranks) && r < |ranks|
    requires forall n :: n in e ==> n < |ranks[r].globalNode| && e[n] != []
    requires forall n :: 0 <= n < |ranks[r].globalNode| ==> NodeRecords(ranks, r, n) == GetDual(e, n)
    ensures BuildDual(ranks, r) == e
  {
    var m := BuildDual(ranks, r);
    forall n | n in m ensures n in e && m[n] == e[n] {
      assert NodeRecords(ranks, r, n) == GetDual(e, n);
    }
    forall n | n in e ensures n in m {
      assert NodeRecords(ranks, r, n) == GetDual(e, n);
    }
  }

  /** d is the record that cell d.cell of rank d.rank contributes for global node g. */
  ghost predicate IsRecord(ranks: seq<Registry>, r: nat, g: nat, d: DualRecord)
    requires AllWellFormed(ranks)
  {
    && d.rank < |ranks| && d.rank != r
    && d.cell < |ranks[d.rank].cells|
    && exists k :: FirstAt(ranks[d.rank], d.cell, g, k) && d.nodes == Around(ranks[d.rank].cells[d.cell], k)
  }

  lemma RemoteNodesSpec(reg: Registry, c: nat, g: nat, nodes: seq<nat>)
    requires WellFormed(reg) && c < |reg.cells|
    ensures RemoteNodes(reg, c, g) == Some(nodes) <==>
              exists k :: FirstAt(reg, c, g, k) && nodes == Around(reg.cells[c], k)
  {
    PositionSpec(reg, c, g);
    forall k1, k2 | FirstAt(reg, c, g, k1) && FirstAt(reg, c, g, k2) ensures k1 == k2 {
    }
  }

  lemma {:induction false} CellRecordsSpec(reg: Registry, q: nat, g: nat, c: nat, d: DualRecord)
    requires WellFormed(reg)
    decreases |reg.cells| - c
    ensures d in CellRecords(reg, q, g, c) <==>
              d.rank == q && c <= d.cell < |reg.cells| && RemoteNodes(reg, d.cell, g) == Some(d.nodes)
  {
    if c < |reg.cells| {
      CellRecordsSpec(reg, q, g, c + 1, d);
    }
  }

  lemma {:induction false} RanksRecordsSpec(ranks: seq<Registry>, r: nat, g: nat, q: nat, d: DualRecord)
    requires AllWellFormed(ranks)
    decreases |ranks| - q
    ensures d in RanksRecords(ranks, r, g, q) <==>
              && q <= d.rank < |ranks| && d.rank != r && d.cell < |ranks[d.rank].cells|
              && RemoteNodes(ranks[d.rank], d.cell, g) == Some(d.nodes)
  {
    if q < |ranks| {
      RanksRecordsSpec(ranks, r, g, q + 1, d);
      if q != r {
        CellRecordsSpec(ranks[q], q, g, 0, d);
      }
    }
  }

  /** A node's records are exactly the records of the other ranks' cells
      that hold its global node. */
  lemma DualRecords(ranks: seq<Registry>, r: nat, n: nat, d: DualRecord)
    requires AllWellFormed(ranks) && r < |ranks| && n < |ranks[r].globalNode|
    ensures d in GetDual(BuildDual(ranks, r), n) <==> IsRecord(ranks, r, ranks[r].globalNode[n], d)
  {
    var g := ranks[r].globalNode[n];
    RanksRecordsSpec(ranks, r, g, 0, d);
    if d.rank < |ranks| && d.cell < |ranks[d.rank].cells| {
      RemoteNodesSpec(ranks[d.rank], d.cell, g, d.nodes);
    }
  }

  /** Keys are exactly the processor-boundary nodes: the local nodes whose
      global node lies in a cell of another rank. */
  lemma DualKeys(ranks: seq<Registry>, r: nat, n: nat)
    requires AllWellFormed(ranks) && r < |ranks|
    ensures n in BuildDual(ranks, r) <==>
              && n < |ranks[r].globalNode|
              && exists q, c :: 0 <= q < |ranks| && q != r && 0 <= c < |ranks[q].cells|
                                && Touches(ranks[q], c, ranks[r].globalNode[n])
  {
    if n < |ranks[r].globalNode| {
      var g := ranks[r].globalNode[n];
      var recs := NodeRecords(ranks, r, n);
      if recs != [] {
        var d := recs[0];
        RanksRecordsSpec(ranks, r, g, 0, d);
        PositionSpec(ranks[d.rank], d.cell, g);
      }
      forall q, c | 0 <= q < |ranks| && q != r && 0 <= c < |ranks[q].cells| && Touches(ranks[q], c, g)
        ensures recs != []
      {
        PositionSpec(ranks[q], c, g);
        var nodes := RemoteNodes(ranks[q], c, g).value;
        RanksRecordsSpec(ranks, r, g, 0, DualRecord(c, nodes, q));
      }
    }
  }

  /** Records are listed by ascending remote rank, then ascending remote cell. */
  predicate Before(a: DualRecord, b: DualRecord)
  {
    a.rank < b.rank || (a.rank == b.rank && a.cell < b.cell)
  }

  predicate Ordered(recs: seq<DualRecord>)
  {
    forall i, j :: 0 <= i < j < |recs| ==> Before(recs[i], recs[j])
  }

  lemma {:induction false} CellRecordsOrdered(reg: Registry, q: nat, g: nat, c: nat)
    requires WellFormed(reg)
    decreases |reg.cells| - c
    ensures Ordered(CellRecords(reg, q, g, c))
    ensures forall i :: 0 <= i < |CellRecords(reg, q, g, c)| ==>
              CellRecords(reg, q, g, c)[i].rank == q && c <= CellRecords(reg, q, g, c)[i].cell
  {
    if c < |reg.cells| {
      CellRecordsOrdered(reg, q, g, c + 1);
    }
  }

  lemma {:induction false} RanksRecordsOrdered(ranks: seq<Registry>, r: nat, g: nat, q: nat)
    requires AllWellFormed(ranks)
    decreases |ranks| - q
    ensures Ordered(RanksRecords(ranks, r, g, q))
    ensures forall i :: 0 <= i < |RanksRecords(ranks, r, g, q)| ==> q <= RanksRecords(ranks, r, g, q)[i].rank
  {
    if q < |ranks| {
      RanksRecordsOrdered(ranks, r, g, q + 1);
      var head := if q == r then [] else CellRecords(ranks[q], q, g, 0);
      if q != r {
        CellRecordsOrdered(ranks[q], q, g, 0);
      }
      var rest := RanksRecords(ranks, r, g, q + 1);
      assert RanksRecords(ranks, r, g, q) == head + rest;
      forall i, j | 0 <= i < j < |head + rest| ensures Before((head + rest)[i], (head + rest)[j]) {
        if j < |head| {
        } else if i >= |head| {
          assert (head + rest)[i] == rest[i - |head|] && (head + rest)[j] == rest[j - |head|];
        } else {
          assert (head + rest)[i] == head[i] && (head + rest)[j] == rest[j - |head|];
        }
      }
    }
  }

  /** Every node's records are in ascending (rank, cell) order, so each
      touching remote cell appears exactly once. */
  lemma DualOrdered(ranks: seq<Registry>, r: nat, n: nat)
    requires AllWellFormed(ranks) && r < |ranks| && n < |ranks[r].globalNode|
    ensures Ordered(GetDual(BuildDual(ranks, r), n))
  {
    RanksRecordsOrdered(ranks, r, ranks[r].globalNode[n], 0);
  }

  /** The two record nodes are the far ends of the two faces of the remote
      cell that meet at the shared node: the face leaving it and the face
      entering it. */
  lemma DualNodesFlank(ranks: seq<Registry>, r: nat, n: nat, d: DualRecord)
    requires AllWellFormed(ranks) && r < |ranks| && n < |ranks[r].globalNode|
    requires d in GetDual(BuildDual(ranks, r), n)
    ensures d.rank < |ranks| && d.rank != r && d.cell < |ranks[d.rank].cells| && |d.nodes| == 2
    ensures exists k :: && 0 <= k < |ranks[d.rank].cells[d.cell]|
                        && ranks[d.rank].globalNode[ranks[d.rank].cells[d.cell][k]] == ranks[r].globalNode[n]
                        && Face(ranks[d.rank].cells[d.cell], k) == [ranks[d.rank].cells[d.cell][k], d.nodes[0]]
                        && Face(ranks[d.rank].cells[d.cell], Pred(|ranks[d.rank].cells[d.cell]|, k))
                           == [d.nodes[1], ranks[d.rank].cells[d.cell][k]]
  {
    DualRecords(ranks, r, n, d);
    var q := d.rank;
    var cell := ranks[q].cells[d.cell];
    var k: nat :| FirstAt(ranks[q], d.cell, ranks[r].globalNode[n], k) && d.nodes == Around(cell, k);
    var p := Pred(|cell|, k);
    assert WellFormed(ranks[q]);
    assert |cell| >= 3;
    assert Succ(|cell|, p) == k;
  }

  /** Symmetry: when a node of rank a records rank b, the same global node,
      seen from rank b, records rank a, provided the node lies in a cell of
      rank a. */
  lemma DualSymmetric(ranks: seq<Registry>, a: nat, n: nat, c: nat, d: DualRecord)
    requires AllWellFormed(ranks) && a < |ranks| && n < |ranks[a].globalNode|
    requires c < |ranks[a].cells| && Touches(ranks[a], c, ranks[a].globalNode[n])
    requires d in GetDual(BuildDual(ranks, a), n)
    ensures d.rank < |ranks|
    ensures exists m, d2 :: && 0 <= m < |ranks[d.rank].globalNode|
                            && ranks[d.rank].globalNode[m] == ranks[a].globalNode[n]
                            && d2 in GetDual(BuildDual(ranks, d.rank), m) && d2.rank == a && d2.cell == c
  {
    var g := ranks[a].globalNode[n];
    DualRecords(ranks, a, n, d);
    var b := d.rank;
    var k: nat :| FirstAt(ranks[b], d.cell, g, k) && d.nodes == Around(ranks[b].cells[d.cell], k);
    assert WellFormed(ranks[b]);
    var m := ranks[b].cells[d.cell][k];
    assert m < |ranks[b].globalNode|;
    PositionSpec(ranks[a], c, g);
    var d2 := DualRecord(c, RemoteNodes(ranks[a], c, g).value, a);
    RemoteNodesSpec(ranks[a], c, g, d2.nodes);
    assert IsRecord(ranks, b, g, d2);
    DualRecords(ranks, b, m, d2);
  }
}
