module Scenarios {
  import opened Wrappers
  import opened Seqs
  import opened Registry
  import opened Layouts
  import opened DualLayout
  import opened Mesh

  function TwoRankInput0(): RankInput
  {
    RankInput(2, Cartesian, [4], [0, 1, 3, 2], [0, 0, 0], [2, 2, 2], [0, 1, 3, 2, 2, 0],
              [0, 1, 3, 4], [2], [1, 3], [0], [1])
  }

  function TwoRankRegistry0(): Registry
  {
    Registry(2, Cartesian, [[0, 1, 3, 2]], [[0, 1], [3, 2], [2, 0]], [0, 0, 0], [0, 1, 3, 4],
             [[1, 3]], [0], [1])
  }

  function TwoRankMesh0(): Mesh
  {
    Mesh(2, Cartesian, 1, 4, map[],
         map[0 := [Link(0, [0, 1]), Link(1, [3, 2]), Link(2, [2, 0])]],
         map[0 := [Link(0, [1, 3])]],
         map[1 := [DualRecord(0, [1, 2], 1)], 3 := [DualRecord(0, [0, 3], 1)]],
         [0], [1])
  }

  lemma TwoRankFlatten0()
    ensures WellFormed(TwoRankRegistry0()) && Flatten(TwoRankRegistry0()) == TwoRankInput0()
  {
    var reg := TwoRankRegistry0();
    assert reg.sides[2..] == [[2, 0]];
    assert reg.sides[1..] == [[3, 2], [2, 0]];
    assert Concat(reg.sides[2..]) == [2, 0] + [];
    assert Concat(reg.ghosts[0..]) == [1, 3] + [];
  }

  lemma TwoRankBuild0()
    ensures Build(TwoRankInput0()) == Success(TwoRankRegistry0())
  {
    TwoRankFlatten0();
    BuildFlattenRoundTrip(TwoRankRegistry0());
  }

  lemma TwoRankLocal0()
    ensures BuildLocal(TwoRankRegistry0()) == Success(LocalLayouts(map[], map[0 := [Link(0, [0, 1]), Link(1, [3, 2]), Link(2, [2, 0])]], map[0 := [Link(0, [1, 3])]]))
  {
    var reg := TwoRankRegistry0();
    var fcs := FaceClasses(reg, 0);
    assert fcs == [OnSide(0), OnGhost(0), OnSide(1), OnSide(2)];
    assert Classify(reg, 0, 0) == OnSide(0);
    assert Classify(reg, 0, 1) == OnGhost(0);
    assert Classify(reg, 0, 2) == OnSide(1);
    assert Classify(reg, 0, 3) == OnSide(2);
    assert Consistent(reg);
    var cell := reg.cells[0];
    assert LinksFrom(cell, fcs, CellKind, 0) == [];
    assert LinksFrom(cell, fcs, SideKind, 0) == [Link(0, [0, 1]), Link(1, [3, 2]), Link(2, [2, 0])];
    assert LinksFrom(cell, fcs, GhostKind, 0) == [Link(0, [1, 3])];
    assert BuildLayout(reg, CellKind) == map[];
    assert BuildLayout(reg, SideKind) == map[0 := [Link(0, [0, 1]), Link(1, [3, 2]), Link(2, [2, 0])]];
    assert BuildLayout(reg, GhostKind) == map[0 := [Link(0, [1, 3])]];
  }

  function TwoRankInput1(): RankInput
  {
    RankInput(2, Cartesian, [4], [0, 1, 3, 2], [0, 0, 0], [2, 2, 2], [0, 1, 1, 3, 3, 2],
              [1, 2, 4, 5], [2], [2, 0], [0], [0])
  }

  function TwoRankRegistry1(): Registry
  {
    Registry(2, Cartesian, [[0, 1, 3, 2]], [[0, 1], [1, 3], [3, 2]], [0, 0, 0], [1, 2, 4, 5],
             [[2, 0]], [0], [0])
  }

  function TwoRankMesh1(): Mesh
  {
    Mesh(2, Cartesian, 1, 4, map[],
         map[0 := [Link(0, [0, 1]), Link(1, [1, 3]), Link(2, [3, 2])]],
         map[0 := [Link(0, [2, 0])]],
         map[0 := [DualRecord(0, [3, 0], 0)], 2 := [DualRecord(0, [2, 1], 0)]],
         [0], [0])
  }

  lemma TwoRankFlatten1()
    ensures WellFormed(TwoRankRegistry1()) && Flatten(TwoRankRegistry1()) == TwoRankInput1()
  {
    var reg := TwoRankRegistry1();
    assert reg.sides[2..] == [[3, 2]];
    assert reg.sides[1..] == [[1, 3], [3, 2]];
    assert Concat(reg.sides[2..]) == [3, 2] + [];
    assert Concat(reg.ghosts[0..]) == [2, 0] + [];
  }

  lemma TwoRankBuild1()
    ensures Build(TwoRankInput1()) == Success(TwoRankRegistry1())
  {
    TwoRankFlatten1();
    BuildFlattenRoundTrip(TwoRankRegistry1());
  }

  lemma TwoRankLocal1()
    ensures BuildLocal(TwoRankRegistry1()) == Success(LocalLayouts(map[], map[0 := [Link(0, [0, 1]), Link(1, [1, 3]), Link(2, [3, 2])]], map[0 := [Link(0, [2, 0])]]))
  {
    var reg := TwoRankRegistry1();
    var fcs := FaceClasses(reg, 0);
    assert fcs == [OnSide(0), OnSide(1), OnSide(2), OnGhost(0)];
    assert Classify(reg, 0, 0) == OnSide(0);
    assert Classify(reg, 0, 1) == OnSide(1);
    assert Classify(reg, 0, 2) == OnSide(2);
    assert Classify(reg, 0, 3) == OnGhost(0);
    assert Consistent(reg);
    var cell := reg.cells[0];
    assert LinksFrom(cell, fcs, CellKind, 0) == [];
    assert LinksFrom(cell, fcs, SideKind, 0) == [Link(0, [0, 1]), Link(1, [1, 3]), Link(2, [3, 2])];
    assert LinksFrom(cell, fcs, GhostKind, 0) == [Link(0, [2, 0])];
    assert BuildLayout(reg, CellKind) == map[];
    assert BuildLayout(reg, SideKind) == map[0 := [Link(0, [0, 1]), Link(1, [1, 3]), Link(2, [3, 2])]];
    assert BuildLayout(reg, GhostKind) == map[0 := [Link(0, [2, 0])]];
  }

  lemma TwoRankWellFormed()
    ensures AllWellFormed(TwoRankRegistries())
  {
    TwoRankFlatten0();
    TwoRankFlatten1();
  }

  lemma TwoRankCellRecords0(g: nat)
    ensures WellFormed(TwoRankRegistry0())
    ensures CellRecords(TwoRankRegistry0(), 0, g, 0)
            == if g == 0 then [DualRecord(0, [1, 2], 0)]
            else if g == 1 then [DualRecord(0, [3, 0], 0)]
            else if g == 4 then [DualRecord(0, [2, 1], 0)]
            else if g == 3 then [DualRecord(0, [0, 3], 0)]
            else []
  {
    TwoRankFlatten0();
  }

  lemma TwoRankCellRecords1(g: nat)
    ensures WellFormed(TwoRankRegistry1())
    ensures CellRecords(TwoRankRegistry1(), 1, g, 0)
            == if g == 1 then [DualRecord(0, [1, 2], 1)]
            else if g == 2 then [DualRecord(0, [3, 0], 1)]
            else if g == 5 then [DualRecord(0, [2, 1], 1)]
            else if g == 4 then [DualRecord(0, [0, 3], 1)]
            else []
  {
    TwoRankFlatten1();
  }

  lemma TwoRankNode0_0()
    ensures AllWellFormed(TwoRankRegistries()) && NodeRecords(TwoRankRegistries(), 0, 0) == []
  {
    var regs := TwoRankRegistries();
    TwoRankWellFormed();
    assert RanksRecords(regs, 0, 0, 2) == [];
    TwoRankCellRecords1(0);
    assert RanksRecords(regs, 0, 0, 1) == [];
    assert RanksRecords(regs, 0, 0, 0) == [];
  }

  lemma TwoRankNode0_1()
    ensures AllWellFormed(TwoRankRegistries()) && NodeRecords(TwoRankRegistries(), 0, 1) == [DualRecord(0, [1, 2], 1)]
  {
    var regs := TwoRankRegistries();
    TwoRankWellFormed();
    assert RanksRecords(regs, 0, 1, 2) == [];
    TwoRankCellRecords1(1);
    assert RanksRecords(regs, 0, 1, 1) == [DualRecord(0, [1, 2], 1)];
    assert RanksRecords(regs, 0, 1, 0) == [DualRecord(0, [1, 2], 1)];
  }

  lemma TwoRankNode0_2()
    ensures AllWellFormed(TwoRankRegistries()) && NodeRecords(TwoRankRegistries(), 0, 2) == []
  {
    var regs := TwoRankRegistries();
    TwoRankWellFormed();
    assert RanksRecords(regs, 0, 3, 2) == [];
    TwoRankCellRecords1(3);
    assert RanksRecords(regs, 0, 3, 1) == [];
    assert RanksRecords(regs, 0, 3, 0) == [];
  }

  lemma TwoRankNode0_3()
    ensures AllWellFormed(TwoRankRegistries()) && NodeRecords(TwoRankRegistries(), 0, 3) == [DualRecord(0, [0, 3], 1)]
  {
    var regs := TwoRankRegistries();
    TwoRankWellFormed();
    assert RanksRecords(regs, 0, 4, 2) == [];
    TwoRankCellRecords1(4);
    assert RanksRecords(regs, 0, 4, 1) == [DualRecord(0, [0, 3], 1)];
    assert RanksRecords(regs, 0, 4, 0) == [DualRecord(0, [0, 3], 1)];
  }

  lemma TwoRankDual0()
    ensures AllWellFormed(TwoRankRegistries()) && BuildDual(TwoRankRegistries(), 0) == TwoRankMesh0().ngc
  {
    TwoRankWellFormed();
    var regs := TwoRankRegistries();
    var e := TwoRankMesh0().ngc;
    assert |regs[0].globalNode| == 4;
    forall n | 0 <= n < 4 ensures NodeRecords(regs, 0, n) == GetDual(e, n) {
      if n == 0 {
        assert GetDual(e, 0) == [];
        TwoRankNode0_0();
      } else if n == 1 {
        assert GetDual(e, 1) == [DualRecord(0, [1, 2], 1)];
        TwoRankNode0_1();
      } else if n == 2 {
        assert GetDual(e, 2) == [];
        TwoRankNode0_2();
      } else {
        assert GetDual(e, 3) == [DualRecord(0, [0, 3], 1)];
        TwoRankNode0_3();
      }
    }
    DualDetermined(regs, 0, e);
  }

  lemma TwoRankNode1_0()
    ensures AllWellFormed(TwoRankRegistries()) && NodeRecords(TwoRankRegistries(), 1, 0) == [DualRecord(0, [3, 0], 0)]
  {
    var regs := TwoRankRegistries();
    TwoRankWellFormed();
    assert RanksRecords(regs, 1, 1, 2) == [];
    assert RanksRecords(regs, 1, 1, 1) == [];
    TwoRankCellRecords0(1);
    assert RanksRecords(regs, 1, 1, 0) == [DualRecord(0, [3, 0], 0)];
  }

  lemma TwoRankNode1_1()
    ensures AllWellFormed(TwoRankRegistries()) && NodeRecords(TwoRankRegistries(), 1, 1) == []
  {
    var regs := TwoRankRegistries();
    TwoRankWellFormed();
    assert RanksRecords(regs, 1, 2, 2) == [];
    assert RanksRecords(regs, 1, 2, 1) == [];
    TwoRankCellRecords0(2);
    assert RanksRecords(regs, 1, 2, 0) == [];
  }

  lemma TwoRankNode1_2()
    ensures AllWellFormed(TwoRankRegistries()) && NodeRecords(TwoRankRegistries(), 1, 2) == [DualRecord(0, [2, 1], 0)]
  {
    var regs := TwoRankRegistries();
    TwoRankWellFormed();
    assert RanksRecords(regs, 1, 4, 2) == [];
    assert RanksRecords(regs, 1, 4, 1) == [];
    TwoRankCellRecords0(4);
    assert RanksRecords(regs, 1, 4, 0) == [DualRecord(0, [2, 1], 0)];
  }

  lemma TwoRankNode1_3()
    ensures AllWellFormed(TwoRankRegistries()) && NodeRecords(TwoRankRegistries(), 1, 3) == []
  {
    var regs := TwoRankRegistries();
    TwoRankWellFormed();
    assert RanksRecords(regs, 1, 5, 2) == [];
    assert RanksRecords(regs, 1, 5, 1) == [];
    TwoRankCellRecords0(5);
    assert RanksRecords(regs, 1, 5, 0) == [];
  }

  lemma TwoRankDual1()
    ensures AllWellFormed(TwoRankRegistries()) && BuildDual(TwoRankRegistries(), 1) == TwoRankMesh1().ngc
  {
    TwoRankWellFormed();
    var regs := TwoRankRegistries();
    var e := TwoRankMesh1().ngc;
    assert |regs[1].globalNode| == 4;
    forall n | 0 <= n < 4 ensures NodeRecords(regs, 1, n) == GetDual(e, n) {
      if n == 0 {
        assert GetDual(e, 0) == [DualRecord(0, [3, 0], 0)];
        TwoRankNode1_0();
      } else if n == 1 {
        assert GetDual(e, 1) == [];
        TwoRankNode1_1();
      } else if n == 2 {
        assert GetDual(e, 2) == [DualRecord(0, [2, 1], 0)];
        TwoRankNode1_2();
      } else {
        assert GetDual(e, 3) == [];
        TwoRankNode1_3();
      }
    }
    DualDetermined(regs, 1, e);
  }

  function TwoRankInputs(): seq<RankInput>
  {
    [TwoRankInput0(), TwoRankInput1()]
  }

  function TwoRankRegistries(): seq<Registry>
  {
    [TwoRankRegistry0(), TwoRankRegistry1()]
  }

  function TwoRankMeshes(): seq<Mesh>
  {
    [TwoRankMesh0(), TwoRankMesh1()]
  }

  lemma TwoRankRank0()
    ensures && AllWellFormed(TwoRankRegistries()) && Build(TwoRankInputs()[0]) == Success(TwoRankRegistries()[0])
            && BuildLocal(TwoRankRegistries()[0]).Success? && MeshOf(TwoRankRegistries(), 0) == TwoRankMeshes()[0]
  {
    TwoRankWellFormed();
    TwoRankBuild0();
    TwoRankLocal0();
    TwoRankDual0();
  }

  lemma TwoRankRank1()
    ensures && AllWellFormed(TwoRankRegistries()) && Build(TwoRankInputs()[1]) == Success(TwoRankRegistries()[1])
            && BuildLocal(TwoRankRegistries()[1]).Success? && MeshOf(TwoRankRegistries(), 1) == TwoRankMeshes()[1]
  {
    TwoRankWellFormed();
    TwoRankBuild1();
    TwoRankLocal1();
    TwoRankDual1();
  }

  /** Construction succeeds on every rank and yields exactly these meshes. */
  lemma TwoRankConstruct()
    ensures ConstructAll(TwoRankInputs()) == Success(TwoRankMeshes())
  {
    TwoRankWellFormed();
    TwoRankRank0();
    TwoRankRank1();
    forall q | 0 <= q < 2
      ensures && Build(TwoRankInputs()[q]) == Success(TwoRankRegistries()[q])
              && BuildLocal(TwoRankRegistries()[q]) == Success(LocalLayouts(TwoRankMeshes()[q].cc, TwoRankMeshes()[q].cs, TwoRankMeshes()[q].cg))
              && Echoes(TwoRankInputs()[q], TwoRankMeshes()[q])
              && TwoRankMeshes()[q].ngc == BuildDual(TwoRankRegistries(), q)
    {
      assert q == 0 || q == 1;
      MeshOfEchoes(TwoRankInputs()[q], TwoRankRegistries(), q);
    }
    ConstructAllSucceeds(TwoRankInputs(), TwoRankRegistries(), TwoRankMeshes());
  }

  lemma TwoRankMeshesFacts(ms: seq<Mesh>)
    requires ms == TwoRankMeshes()
    ensures |ms| == 2
    ensures forall q :: 0 <= q < 2 ==>
              && ms[q].dim == 2 && ms[q].geometry == Cartesian
              && ms[q].numCells == 1 && ms[q].numNodes == 4
              && ms[q].ghostNumbers == TwoRankInputs()[q].ghostCellNumber
              && ms[q].ghostRanks == TwoRankInputs()[q].ghostCellRank
              && |ms[q].cc| == 0 && |ms[q].cs| == 1 && |ms[q].cg| == 1
    ensures |ms[0].ngc| == 2 && ms[0].ngc == map[1 := [DualRecord(0, [1, 2], 1)], 3 := [DualRecord(0, [0, 3], 1)]]
    ensures |ms[1].ngc| == 2 && ms[1].ngc == map[0 := [DualRecord(0, [3, 0], 0)], 2 := [DualRecord(0, [2, 1], 0)]]
  {
    forall q | 0 <= q < 2
      ensures && ms[q].ghostNumbers == TwoRankInputs()[q].ghostCellNumber
              && ms[q].ghostRanks == TwoRankInputs()[q].ghostCellRank
    {
      assert q == 0 || q == 1;
    }
  }

  /** The assertions of the two ranks scenario: construction succeeds on
      every rank, and the meshes it returns pass every check. */
  lemma TwoRankAsserts()
    ensures ConstructAll(TwoRankInputs()).Success?
    ensures var ms := ConstructAll(TwoRankInputs()).value;
            && |ms| == 2
            && (forall q :: 0 <= q < 2 ==>
                  && ms[q].dim == 2 && ms[q].geometry == Cartesian
                  && ms[q].numCells == 1 && ms[q].numNodes == 4
                  && ms[q].ghostNumbers == TwoRankInputs()[q].ghostCellNumber
                  && ms[q].ghostRanks == TwoRankInputs()[q].ghostCellRank
                  && |ms[q].cc| == 0 && |ms[q].cs| == 1 && |ms[q].cg| == 1)
            && |ms[0].ngc| == 2 && ms[0].ngc == map[1 := [DualRecord(0, [1, 2], 1)], 3 := [DualRecord(0, [0, 3], 1)]]
            && |ms[1].ngc| == 2 && ms[1].ngc == map[0 := [DualRecord(0, [3, 0], 0)], 2 := [DualRecord(0, [2, 1], 0)]]
  {
    TwoRankConstruct();
    TwoRankMeshesFacts(TwoRankMeshes());
  }

  function FourRankInput0(): RankInput
  {
    RankInput(2, Cartesian, [4], [0, 1, 3, 2], [0, 0], [2, 2], [0, 1, 2, 0],
              [0, 1, 3, 4], [2, 2], [1, 3, 3, 2], [0, 0], [1, 2])
  }

  function FourRankRegistry0(): Registry
  {
    Registry(2, Cartesian, [[0, 1, 3, 2]], [[0, 1], [2, 0]], [0, 0], [0, 1, 3, 4],
             [[1, 3], [3, 2]], [0, 0], [1, 2])
  }

  function FourRankMesh0(): Mesh
  {
    Mesh(2, Cartesian, 1, 4, map[],
         map[0 := [Link(0, [0, 1]), Link(1, [2, 0])]],
         map[0 := [Link(0, [1, 3]), Link(1, [3, 2])]],
         map[1 := [DualRecord(0, [1, 2], 1)], 2 := [DualRecord(0, [1, 2], 2)], 3 := [DualRecord(0, [0, 3], 1), DualRecord(0, [3, 0], 2), DualRecord(0, [1, 2], 3)]],
         [0, 0], [1, 2])
  }

  lemma FourRankFlatten0()
    ensures WellFormed(FourRankRegistry0()) && Flatten(FourRankRegistry0()) == FourRankInput0()
  {
    var reg := FourRankRegistry0();
    assert reg.sides[1..] == [[2, 0]];
    assert Concat(reg.sides[1..]) == [2, 0] + [];
    assert reg.ghosts[1..] == [[3, 2]];
    assert Concat(reg.ghosts[1..]) == [3, 2] + [];
  }

  lemma FourRankBuild0()
    ensures Build(FourRankInput0()) == Success(FourRankRegistry0())
  {
    FourRankFlatten0();
    BuildFlattenRoundTrip(FourRankRegistry0());
  }

  lemma FourRankLocal0()
    ensures BuildLocal(FourRankRegistry0()) == Success(LocalLayouts(map[], map[0 := [Link(0, [0, 1]), Link(1, [2, 0])]], map[0 := [Link(0, [1, 3]), Link(1, [3, 2])]]))
  {
    var reg := FourRankRegistry0();
    var fcs := FaceClasses(reg, 0);
    assert fcs == [OnSide(0), OnGhost(0), OnGhost(1), OnSide(1)];
    assert Classify(reg, 0, 0) == OnSide(0);
    assert Classify(reg, 0, 1) == OnGhost(0);
    assert Classify(reg, 0, 2) == OnGhost(1);
    assert Classify(reg, 0, 3) == OnSide(1);
    assert Consistent(reg);
    var cell := reg.cells[0];
    assert LinksFrom(cell, fcs, CellKind, 0) == [];
    assert LinksFrom(cell, fcs, SideKind, 0) == [Link(0, [0, 1]), Link(1, [2, 0])];
    assert LinksFrom(cell, fcs, GhostKind, 0) == [Link(0, [1, 3]), Link(1, [3, 2])];
    assert BuildLayout(reg, CellKind) == map[];
    assert BuildLayout(reg, SideKind) == map[0 := [Link(0, [0, 1]), Link(1, [2, 0])]];
    assert BuildLayout(reg, GhostKind) == map[0 := [Link(0, [1, 3]), Link(1, [3, 2])]];
  }

  function FourRankInput1(): RankInput
  {
    RankInput(2, Cartesian, [4], [0, 1, 3, 2], [0, 0], [2, 2], [0, 1, 1, 3],
              [1, 2, 4, 5], [2, 2], [2, 0, 2, 3], [0, 0], [0, 3])
  }

  function FourRankRegistry1(): Registry
  {
    Registry(2, Cartesian, [[0, 1, 3, 2]], [[0, 1], [1, 3]], [0, 0], [1, 2, 4, 5],
             [[2, 0], [2, 3]], [0, 0], [0, 3])
  }

  function FourRankMesh1(): Mesh
  {
    Mesh(2, Cartesian, 1, 4, map[],
         map[0 := [Link(0, [0, 1]), Link(1, [1, 3])]],
         map[0 := [Link(1, [3, 2]), Link(0, [2, 0])]],
         map[0 := [DualRecord(0, [3, 0], 0)], 2 := [DualRecord(0, [2, 1], 0), DualRecord(0, [3, 0], 2), DualRecord(0, [1, 2], 3)], 3 := [DualRecord(0, [3, 0], 3)]],
         [0, 0], [0, 3])
  }

  lemma FourRankFlatten1()
    ensures WellFormed(FourRankRegistry1()) && Flatten(FourRankRegistry1()) == FourRankInput1()
  {
    var reg := FourRankRegistry1();
    assert reg.sides[1..] == [[1, 3]];
    assert Concat(reg.sides[1..]) == [1, 3] + [];
    assert reg.ghosts[1..] == [[2, 3]];
    assert Concat(reg.ghosts[1..]) == [2, 3] + [];
  }

  lemma FourRankBuild1()
    ensures Build(FourRankInput1()) == Success(FourRankRegistry1())
  {
    FourRankFlatten1();
    BuildFlattenRoundTrip(FourRankRegistry1());
  }

  lemma FourRankLocal1()
    ensures BuildLocal(FourRankRegistry1()) == Success(LocalLayouts(map[], map[0 := [Link(0, [0, 1]), Link(1, [1, 3])]], map[0 := [Link(1, [3, 2]), Link(0, [2, 0])]]))
  {
    var reg := FourRankRegistry1();
    var fcs := FaceClasses(reg, 0);
    assert fcs == [OnSide(0), OnSide(1), OnGhost(1), OnGhost(0)];
    assert Classify(reg, 0, 0) == OnSide(0);
    assert Classify(reg, 0, 1) == OnSide(1);
    assert Classify(reg, 0, 2) == OnGhost(1);
    assert Classify(reg, 0, 3) == OnGhost(0);
    assert Consistent(reg);
    var cell := reg.cells[0];
    assert LinksFrom(cell, fcs, CellKind, 0) == [];
    assert LinksFrom(cell, fcs, SideKind, 0) == [Link(0, [0, 1]), Link(1, [1, 3])];
    assert LinksFrom(cell, fcs, GhostKind, 0) == [Link(1, [3, 2]), Link(0, [2, 0])];
    assert BuildLayout(reg, CellKind) == map[];
    assert BuildLayout(reg, SideKind) == map[0 := [Link(0, [0, 1]), Link(1, [1, 3])]];
    assert BuildLayout(reg, GhostKind) == map[0 := [Link(1, [3, 2]), Link(0, [2, 0])]];
  }

  function FourRankInput2(): RankInput
  {
    RankInput(2, Cartesian, [4], [0, 1, 3, 2], [0, 0], [2, 2], [3, 2, 2, 0],
              [3, 4, 6, 7], [2, 2], [0, 1, 1, 3], [0, 0], [0, 3])
  }

  function FourRankRegistry2(): Registry
  {
    Registry(2, Cartesian, [[0, 1, 3, 2]], [[3, 2], [2, 0]], [0, 0], [3, 4, 6, 7],
             [[0, 1], [1, 3]], [0, 0], [0, 3])
  }

  function FourRankMesh2(): Mesh
  {
    Mesh(2, Cartesian, 1, 4, map[],
         map[0 := [Link(0, [3, 2]), Link(1, [2, 0])]],
         map[0 := [Link(0, [0, 1]), Link(1, [1, 3])]],
         map[0 := [DualRecord(0, [0, 3], 0)], 1 := [DualRecord(0, [2, 1], 0), DualRecord(0, [0, 3], 1), DualRecord(0, [1, 2], 3)], 3 := [DualRecord(0, [0, 3], 3)]],
         [0, 0], [0, 3])
  }

  lemma FourRankFlatten2()
    ensures WellFormed(FourRankRegistry2()) && Flatten(FourRankRegistry2()) == FourRankInput2()
  {
    var reg := FourRankRegistry2();
    assert reg.sides[1..] == [[2, 0]];
    assert Concat(reg.sides[1..]) == [2, 0] + [];
    assert reg.ghosts[1..] == [[1, 3]];
    assert Concat(reg.ghosts[1..]) == [1, 3] + [];
  }

  lemma FourRankBuild2()
    ensures Build(FourRankInput2()) == Success(FourRankRegistry2())
  {
    FourRankFlatten2();
    BuildFlattenRoundTrip(FourRankRegistry2());
  }

  lemma FourRankLocal2()
    ensures BuildLocal(FourRankRegistry2()) == Success(LocalLayouts(map[], map[0 := [Link(0, [3, 2]), Link(1, [2, 0])]], map[0 := [Link(0, [0, 1]), Link(1, [1, 3])]]))
  {
    var reg := FourRankRegistry2();
    var fcs := FaceClasses(reg, 0);
    assert fcs == [OnGhost(0), OnGhost(1), OnSide(0), OnSide(1)];
    assert Classify(reg, 0, 0) == OnGhost(0);
    assert Classify(reg, 0, 1) == OnGhost(1);
    assert Classify(reg, 0, 2) == OnSide(0);
    assert Classify(reg, 0, 3) == OnSide(1);
    assert Consistent(reg);
    var cell := reg.cells[0];
    assert LinksFrom(cell, fcs, CellKind, 0) == [];
    assert LinksFrom(cell, fcs, SideKind, 0) == [Link(0, [3, 2]), Link(1, [2, 0])];
    assert LinksFrom(cell, fcs, GhostKind, 0) == [Link(0, [0, 1]), Link(1, [1, 3])];
    assert BuildLayout(reg, CellKind) == map[];
    assert BuildLayout(reg, SideKind) == map[0 := [Link(0, [3, 2]), Link(1, [2, 0])]];
    assert BuildLayout(reg, GhostKind) == map[0 := [Link(0, [0, 1]), Link(1, [1, 3])]];
  }

  function FourRankInput3(): RankInput
  {
    RankInput(2, Cartesian, [4], [0, 1, 3, 2], [0, 0], [2, 2], [1, 3, 3, 2],
              [4, 5, 7, 8], [2, 2], [0, 1, 2, 0], [0, 0], [1, 2])
  }

  function FourRankRegistry3(): Registry
  {
    Registry(2, Cartesian, [[0, 1, 3, 2]], [[1, 3], [3, 2]], [0, 0], [4, 5, 7, 8],
             [[0, 1], [2, 0]], [0, 0], [1, 2])
  }

  function FourRankMesh3(): Mesh
  {
    Mesh(2, Cartesian, 1, 4, map[],
         map[0 := [Link(0, [1, 3]), Link(1, [3, 2])]],
         map[0 := [Link(0, [0, 1]), Link(1, [2, 0])]],
         map[0 := [DualRecord(0, [2, 1], 0), DualRecord(0, [0, 3], 1), DualRecord(0, [3, 0], 2)], 1 := [DualRecord(0, [2, 1], 1)], 2 := [DualRecord(0, [2, 1], 2)]],
         [0, 0], [1, 2])
  }

  lemma FourRankFlatten3()
    ensures WellFormed(FourRankRegistry3()) && Flatten(FourRankRegistry3()) == FourRankInput3()
  {
    var reg := FourRankRegistry3();
    assert reg.sides[1..] == [[3, 2]];
    assert Concat(reg.sides[1..]) == [3, 2] + [];
    assert reg.ghosts[1..] == [[2, 0]];
    assert Concat(reg.ghosts[1..]) == [2, 0] + [];
  }

  lemma FourRankBuild3()
    ensures Build(FourRankInput3()) == Success(FourRankRegistry3())
  {
    FourRankFlatten3();
    BuildFlattenRoundTrip(FourRankRegistry3());
  }

  lemma FourRankLocal3()
    ensures BuildLocal(FourRankRegistry3()) == Success(LocalLayouts(map[], map[0 := [Link(0, [1, 3]), Link(1, [3, 2])]], map[0 := [Link(0, [0, 1]), Link(1, [2, 0])]]))
  {
    var reg := FourRankRegistry3();
    var fcs := FaceClasses(reg, 0);
    assert fcs == [OnGhost(0), OnSide(0), OnSide(1), OnGhost(1)];
    assert Classify(reg, 0, 0) == OnGhost(0);
    assert Classify(reg, 0, 1) == OnSide(0);
    assert Classify(reg, 0, 2) == OnSide(1);
    assert Classify(reg, 0, 3) == OnGhost(1);
    assert Consistent(reg);
    var cell := reg.cells[0];
    assert LinksFrom(cell, fcs, CellKind, 0) == [];
    assert LinksFrom(cell, fcs, SideKind, 0) == [Link(0, [1, 3]), Link(1, [3, 2])];
    assert LinksFrom(cell, fcs, GhostKind, 0) == [Link(0, [0, 1]), Link(1, [2, 0])];
    assert BuildLayout(reg, CellKind) == map[];
    assert BuildLayout(reg, SideKind) == map[0 := [Link(0, [1, 3]), Link(1, [3, 2])]];
    assert BuildLayout(reg, GhostKind) == map[0 := [Link(0, [0, 1]), Link(1, [2, 0])]];
  }

  lemma FourRankWellFormed()
    ensures AllWellFormed(FourRankRegistries())
  {
    FourRankFlatten0();
    FourRankFlatten1();
    FourRankFlatten2();
    FourRankFlatten3();
  }

  lemma FourRankCellRecords0(g: nat)
    ensures WellFormed(FourRankRegistry0())
    ensures CellRecords(FourRankRegistry0(), 0, g, 0)
            == if g == 0 then [DualRecord(0, [1, 2], 0)]
            else if g == 1 then [DualRecord(0, [3, 0], 0)]
            else if g == 4 then [DualRecord(0, [2, 1], 0)]
            else if g == 3 then [DualRecord(0, [0, 3], 0)]
            else []
  {
    FourRankFlatten0();
  }

  lemma FourRankCellRecords1(g: nat)
    ensures WellFormed(FourRankRegistry1())
    ensures CellRecords(FourRankRegistry1(), 1, g, 0)
            == if g == 1 then [DualRecord(0, [1, 2], 1)]
            else if g == 2 then [DualRecord(0, [3, 0], 1)]
            else if g == 5 then [DualRecord(0, [2, 1], 1)]
            else if g == 4 then [DualRecord(0, [0, 3], 1)]
            else []
  {
    FourRankFlatten1();
  }

  lemma FourRankCellRecords2(g: nat)
    ensures WellFormed(FourRankRegistry2())
    ensures CellRecords(FourRankRegistry2(), 2, g, 0)
            == if g == 3 then [DualRecord(0, [1, 2], 2)]
            else if g == 4 then [DualRecord(0, [3, 0], 2)]
            else if g == 7 then [DualRecord(0, [2, 1], 2)]
            else if g == 6 then [DualRecord(0, [0, 3], 2)]
            else []
  {
    FourRankFlatten2();
  }

  lemma FourRankCellRecords3(g: nat)
    ensures WellFormed(FourRankRegistry3())
    ensures CellRecords(FourRankRegistry3(), 3, g, 0)
            == if g == 4 then [DualRecord(0, [1, 2], 3)]
            else if g == 5 then [DualRecord(0, [3, 0], 3)]
            else if g == 8 then [DualRecord(0, [2, 1], 3)]
            else if g == 7 then [DualRecord(0, [0, 3], 3)]
            else []
  {
    FourRankFlatten3();
  }

  lemma FourRankNode0_0()
    ensures AllWellFormed(FourRankRegistries()) && NodeRecords(FourRankRegistries(), 0, 0) == []
  {
    var regs := FourRankRegistries();
    FourRankWellFormed();
    assert RanksRecords(regs, 0, 0, 4) == [];
    FourRankCellRecords3(0);
    assert RanksRecords(regs, 0, 0, 3) == [];
    FourRankCellRecords2(0);
    assert RanksRecords(regs, 0, 0, 2) == [];
    FourRankCellRecords1(0);
    assert RanksRecords(regs, 0, 0, 1) == [];
    assert RanksRecords(regs, 0, 0, 0) == [];
  }

  lemma FourRankNode0_1()
    ensures AllWellFormed(FourRankRegistries()) && NodeRecords(FourRankRegistries(), 0, 1) == [DualRecord(0, [1, 2], 1)]
  {
    var regs := FourRankRegistries();
    FourRankWellFormed();
    assert RanksRecords(regs, 0, 1, 4) == [];
    FourRankCellRecords3(1);
    assert RanksRecords(regs, 0, 1, 3) == [];
    FourRankCellRecords2(1);
    assert RanksRecords(regs, 0, 1, 2) == [];
    FourRankCellRecords1(1);
    assert RanksRecords(regs, 0, 1, 1) == [DualRecord(0, [1, 2], 1)];
    assert RanksRecords(regs, 0, 1, 0) == [DualRecord(0, [1, 2], 1)];
  }

  lemma FourRankNode0_2()
    ensures AllWellFormed(FourRankRegistries()) && NodeRecords(FourRankRegistries(), 0, 2) == [DualRecord(0, [1, 2], 2)]
  {
    var regs := FourRankRegistries();
    FourRankWellFormed();
    assert RanksRecords(regs, 0, 3, 4) == [];
    FourRankCellRecords3(3);
    assert RanksRecords(regs, 0, 3, 3) == [];
    FourRankCellRecords2(3);
    assert RanksRecords(regs, 0, 3, 2) == [DualRecord(0, [1, 2], 2)];
    FourRankCellRecords1(3);
    assert RanksRecords(regs, 0, 3, 1) == [DualRecord(0, [1, 2], 2)];
    assert RanksRecords(regs, 0, 3, 0) == [DualRecord(0, [1, 2], 2)];
  }

  lemma FourRankNode0_3()
    ensures AllWellFormed(FourRankRegistries()) && NodeRecords(FourRankRegistries(), 0, 3) == [DualRecord(0, [0, 3], 1), DualRecord(0, [3, 0], 2), DualRecord(0, [1, 2], 3)]
  {
    var regs := FourRankRegistries();
    FourRankWellFormed();
    assert RanksRecords(regs, 0, 4, 4) == [];
    FourRankCellRecords3(4);
    assert RanksRecords(regs, 0, 4, 3) == [DualRecord(0, [1, 2], 3)];
    FourRankCellRecords2(4);
    assert RanksRecords(regs, 0, 4, 2) == [DualRecord(0, [3, 0], 2), DualRecord(0, [1, 2], 3)];
    FourRankCellRecords1(4);
    assert RanksRecords(regs, 0, 4, 1) == [DualRecord(0, [0, 3], 1), DualRecord(0, [3, 0], 2), DualRecord(0, [1, 2], 3)];
    assert RanksRecords(regs, 0, 4, 0) == [DualRecord(0, [0, 3], 1), DualRecord(0, [3, 0], 2), DualRecord(0, [1, 2], 3)];
  }

  lemma FourRankDual0()
    ensures AllWellFormed(FourRankRegistries()) && BuildDual(FourRankRegistries(), 0) == FourRankMesh0().ngc
  {
    FourRankWellFormed();
    var regs := FourRankRegistries();
    var e := FourRankMesh0().ngc;
    assert |regs[0].globalNode| == 4;
    forall n | 0 <= n < 4 ensures NodeRecords(regs, 0, n) == GetDual(e, n) {
      if n == 0 {
        assert GetDual(e, 0) == [];
        FourRankNode0_0();
      } else if n == 1 {
        assert GetDual(e, 1) == [DualRecord(0, [1, 2], 1)];
        FourRankNode0_1();
      } else if n == 2 {
        assert GetDual(e, 2) == [DualRecord(0, [1, 2], 2)];
        FourRankNode0_2();
      } else {
        assert GetDual(e, 3) == [DualRecord(0, [0, 3], 1), DualRecord(0, [3, 0], 2), DualRecord(0, [1, 2], 3)];
        FourRankNode0_3();
      }
    }
    DualDetermined(regs, 0, e);
  }

  lemma FourRankNode1_0()
    ensures AllWellFormed(FourRankRegistries()) && NodeRecords(FourRankRegistries(), 1, 0) == [DualRecord(0, [3, 0], 0)]
  {
    var regs := FourRankRegistries();
    FourRankWellFormed();
    assert RanksRecords(regs, 1, 1, 4) == [];
    FourRankCellRecords3(1);
    assert RanksRecords(regs, 1, 1, 3) == [];
    FourRankCellRecords2(1);
    assert RanksRecords(regs, 1, 1, 2) == [];
    assert RanksRecords(regs, 1, 1, 1) == [];
    FourRankCellRecords0(1);
    assert RanksRecords(regs, 1, 1, 0) == [DualRecord(0, [3, 0], 0)];
  }

  lemma FourRankNode1_1()
    ensures AllWellFormed(FourRankRegistries()) && NodeRecords(FourRankRegistries(), 1, 1) == []
  {
    var regs := FourRankRegistries();
    FourRankWellFormed();
    assert RanksRecords(regs, 1, 2, 4) == [];
    FourRankCellRecords3(2);
    assert RanksRecords(regs, 1, 2, 3) == [];
    FourRankCellRecords2(2);
    assert RanksRecords(regs, 1, 2, 2) == [];
    assert RanksRecords(regs, 1, 2, 1) == [];
    FourRankCellRecords0(2);
    assert RanksRecords(regs, 1, 2, 0) == [];
  }

  lemma FourRankNode1_2()
    ensures AllWellFormed(FourRankRegistries()) && NodeRecords(FourRankRegistries(), 1, 2) == [DualRecord(0, [2, 1], 0), DualRecord(0, [3, 0], 2), DualRecord(0, [1, 2], 3)]
  {
    var regs := FourRankRegistries();
    FourRankWellFormed();
    assert RanksRecords(regs, 1, 4, 4) == [];
    FourRankCellRecords3(4);
    assert RanksRecords(regs, 1, 4, 3) == [DualRecord(0, [1, 2], 3)];
    FourRankCellRecords2(4);
    assert RanksRecords(regs, 1, 4, 2) == [DualRecord(0, [3, 0], 2), DualRecord(0, [1, 2], 3)];
    assert RanksRecords(regs, 1, 4, 1) == [DualRecord(0, [3, 0], 2), DualRecord(0, [1, 2], 3)];
    FourRankCellRecords0(4);
    assert RanksRecords(regs, 1, 4, 0) == [DualRecord(0, [2, 1], 0), DualRecord(0, [3, 0], 2), DualRecord(0, [1, 2], 3)];
  }

  lemma FourRankNode1_3()
    ensures AllWellFormed(FourRankRegistries()) && NodeRecords(FourRankRegistries(), 1, 3) == [DualRecord(0, [3, 0], 3)]
  {
    var regs := FourRankRegistries();
    FourRankWellFormed();
    assert RanksRecords(regs, 1, 5, 4) == [];
    FourRankCellRecords3(5);
    assert RanksRecords(regs, 1, 5, 3) == [DualRecord(0, [3, 0], 3)];
    FourRankCellRecords2(5);
    assert RanksRecords(regs, 1, 5, 2) == [DualRecord(0, [3, 0], 3)];
    assert RanksRecords(regs, 1, 5, 1) == [DualRecord(0, [3, 0], 3)];
    FourRankCellRecords0(5);
    assert RanksRecords(regs, 1, 5, 0) == [DualRecord(0, [3, 0], 3)];
  }

  lemma FourRankDual1()
    ensures AllWellFormed(FourRankRegistries()) && BuildDual(FourRankRegistries(), 1) == FourRankMesh1().ngc
  {
    FourRankWellFormed();
    var regs := FourRankRegistries();
    var e := FourRankMesh1().ngc;
    assert |regs[1].globalNode| == 4;
    forall n | 0 <= n < 4 ensures NodeRecords(regs, 1, n) == GetDual(e, n) {
      if n == 0 {
        assert GetDual(e, 0) == [DualRecord(0, [3, 0], 0)];
        FourRankNode1_0();
      } else if n == 1 {
        assert GetDual(e, 1) == [];
        FourRankNode1_1();
      } else if n == 2 {
        assert GetDual(e, 2) == [DualRecord(0, [2, 1], 0), DualRecord(0, [3, 0], 2), DualRecord(0, [1, 2], 3)];
        FourRankNode1_2();
      } else {
        assert GetDual(e, 3) == [DualRecord(0, [3, 0], 3)];
        FourRankNode1_3();
      }
    }
    DualDetermined(regs, 1, e);
  }

  lemma FourRankNode2_0()
    ensures AllWellFormed(FourRankRegistries()) && NodeRecords(FourRankRegistries(), 2, 0) == [DualRecord(0, [0, 3], 0)]
  {
    var regs := FourRankRegistries();
    FourRankWellFormed();
    assert RanksRecords(regs, 2, 3, 4) == [];
    FourRankCellRecords3(3);
    assert RanksRecords(regs, 2, 3, 3) == [];
    assert RanksRecords(regs, 2, 3, 2) == [];
    FourRankCellRecords1(3);
    assert RanksRecords(regs, 2, 3, 1) == [];
    FourRankCellRecords0(3);
    assert RanksRecords(regs, 2, 3, 0) == [DualRecord(0, [0, 3], 0)];
  }

  lemma FourRankNode2_1()
    ensures AllWellFormed(FourRankRegistries()) && NodeRecords(FourRankRegistries(), 2, 1) == [DualRecord(0, [2, 1], 0), DualRecord(0, [0, 3], 1), DualRecord(0, [1, 2], 3)]
  {
    var regs := FourRankRegistries();
    FourRankWellFormed();
    assert RanksRecords(regs, 2, 4, 4) == [];
    FourRankCellRecords3(4);
    assert RanksRecords(regs, 2, 4, 3) == [DualRecord(0, [1, 2], 3)];
    assert RanksRecords(regs, 2, 4, 2) == [DualRecord(0, [1, 2], 3)];
    FourRankCellRecords1(4);
    assert RanksRecords(regs, 2, 4, 1) == [DualRecord(0, [0, 3], 1), DualRecord(0, [1, 2], 3)];
    FourRankCellRecords0(4);
    assert RanksRecords(regs, 2, 4, 0) == [DualRecord(0, [2, 1], 0), DualRecord(0, [0, 3], 1), DualRecord(0, [1, 2], 3)];
  }

  lemma FourRankNode2_2()
    ensures AllWellFormed(FourRankRegistries()) && NodeRecords(FourRankRegistries(), 2, 2) == []
  {
    var regs := FourRankRegistries();
    FourRankWellFormed();
    assert RanksRecords(regs, 2, 6, 4) == [];
    FourRankCellRecords3(6);
    assert RanksRecords(regs, 2, 6, 3) == [];
    assert RanksRecords(regs, 2, 6, 2) == [];
    FourRankCellRecords1(6);
    assert RanksRecords(regs, 2, 6, 1) == [];
    FourRankCellRecords0(6);
    assert RanksRecords(regs, 2, 6, 0) == [];
  }

  lemma FourRankNode2_3()
    ensures AllWellFormed(FourRankRegistries()) && NodeRecords(FourRankRegistries(), 2, 3) == [DualRecord(0, [0, 3], 3)]
  {
    var regs := FourRankRegistries();
    FourRankWellFormed();
    assert RanksRecords(regs, 2, 7, 4) == [];
    FourRankCellRecords3(7);
    assert RanksRecords(regs, 2, 7, 3) == [DualRecord(0, [0, 3], 3)];
    assert RanksRecords(regs, 2, 7, 2) == [DualRecord(0, [0, 3], 3)];
    FourRankCellRecords1(7);
    assert RanksRecords(regs, 2, 7, 1) == [DualRecord(0, [0, 3], 3)];
    FourRankCellRecords0(7);
    assert RanksRecords(regs, 2, 7, 0) == [DualRecord(0, [0, 3], 3)];
  }

  lemma FourRankDual2()
    ensures AllWellFormed(FourRankRegistries()) && BuildDual(FourRankRegistries(), 2) == FourRankMesh2().ngc
  {
    FourRankWellFormed();
    var regs := FourRankRegistries();
    var e := FourRankMesh2().ngc;
    assert |regs[2].globalNode| == 4;
    forall n | 0 <= n < 4 ensures NodeRecords(regs, 2, n) == GetDual(e, n) {
      if n == 0 {
        assert GetDual(e, 0) == [DualRecord(0, [0, 3], 0)];
        FourRankNode2_0();
      } else if n == 1 {
        assert GetDual(e, 1) == [DualRecord(0, [2, 1], 0), DualRecord(0, [0, 3], 1), DualRecord(0, [1, 2], 3)];
        FourRankNode2_1();
      } else if n == 2 {
        assert GetDual(e, 2) == [];
        FourRankNode2_2();
      } else {
        assert GetDual(e, 3) == [DualRecord(0, [0, 3], 3)];
        FourRankNode2_3();
      }
    }
    DualDetermined(regs, 2, e);
  }

  lemma FourRankNode3_0()
    ensures AllWellFormed(FourRankRegistries()) && NodeRecords(FourRankRegistries(), 3, 0) == [DualRecord(0, [2, 1], 0), DualRecord(0, [0, 3], 1), DualRecord(0, [3, 0], 2)]
  {
    var regs := FourRankRegistries();
    FourRankWellFormed();
    assert RanksRecords(regs, 3, 4, 4) == [];
    assert RanksRecords(regs, 3, 4, 3) == [];
    FourRankCellRecords2(4);
    assert RanksRecords(regs, 3, 4, 2) == [DualRecord(0, [3, 0], 2)];
    FourRankCellRecords1(4);
    assert RanksRecords(regs, 3, 4, 1) == [DualRecord(0, [0, 3], 1), DualRecord(0, [3, 0], 2)];
    FourRankCellRecords0(4);
    assert RanksRecords(regs, 3, 4, 0) == [DualRecord(0, [2, 1], 0), DualRecord(0, [0, 3], 1), DualRecord(0, [3, 0], 2)];
  }

  lemma FourRankNode3_1()
    ensures AllWellFormed(FourRankRegistries()) && NodeRecords(FourRankRegistries(), 3, 1) == [DualRecord(0, [2, 1], 1)]
  {
    var regs := FourRankRegistries();
    FourRankWellFormed();
    assert RanksRecords(regs, 3, 5, 4) == [];
    assert RanksRecords(regs, 3, 5, 3) == [];
    FourRankCellRecords2(5);
    assert RanksRecords(regs, 3, 5, 2) == [];
    FourRankCellRecords1(5);
    assert RanksRecords(regs, 3, 5, 1) == [DualRecord(0, [2, 1], 1)];
    FourRankCellRecords0(5);
    assert RanksRecords(regs, 3, 5, 0) == [DualRecord(0, [2, 1], 1)];
  }

  lemma FourRankNode3_2()
    ensures AllWellFormed(FourRankRegistries()) && NodeRecords(FourRankRegistries(), 3, 2) == [DualRecord(0, [2, 1], 2)]
  {
    var regs := FourRankRegistries();
    FourRankWellFormed();
    assert RanksRecords(regs, 3, 7, 4) == [];
    assert RanksRecords(regs, 3, 7, 3) == [];
    FourRankCellRecords2(7);
    assert RanksRecords(regs, 3, 7, 2) == [DualRecord(0, [2, 1], 2)];
    FourRankCellRecords1(7);
    assert RanksRecords(regs, 3, 7, 1) == [DualRecord(0, [2, 1], 2)];
    FourRankCellRecords0(7);
    assert RanksRecords(regs, 3, 7, 0) == [DualRecord(0, [2, 1], 2)];
  }

  lemma FourRankNode3_3()
    ensures AllWellFormed(FourRankRegistries()) && NodeRecords(FourRankRegistries(), 3, 3) == []
  {
    var regs := FourRankRegistries();
    FourRankWellFormed();
    assert RanksRecords(regs, 3, 8, 4) == [];
    assert RanksRecords(regs, 3, 8, 3) == [];
    FourRankCellRecords2(8);
    assert RanksRecords(regs, 3, 8, 2) == [];
    FourRankCellRecords1(8);
    assert RanksRecords(regs, 3, 8, 1) == [];
    FourRankCellRecords0(8);
    assert RanksRecords(regs, 3, 8, 0) == [];
  }

  lemma FourRankDual3()
    ensures AllWellFormed(FourRankRegistries()) && BuildDual(FourRankRegistries(), 3) == FourRankMesh3().ngc
  {
    FourRankWellFormed();
    var regs := FourRankRegistries();
    var e := FourRankMesh3().ngc;
    assert |regs[3].globalNode| == 4;
    forall n | 0 <= n < 4 ensures NodeRecords(regs, 3, n) == GetDual(e, n) {
      if n == 0 {
        assert GetDual(e, 0) == [DualRecord(0, [2, 1], 0), DualRecord(0, [0, 3], 1), DualRecord(0, [3, 0], 2)];
        FourRankNode3_0();
      } else if n == 1 {
        assert GetDual(e, 1) == [DualRecord(0, [2, 1], 1)];
        FourRankNode3_1();
      } else if n == 2 {
        assert GetDual(e, 2) == [DualRecord(0, [2, 1], 2)];
        FourRankNode3_2();
      } else {
        assert GetDual(e, 3) == [];
        FourRankNode3_3();
      }
    }
    DualDetermined(regs, 3, e);
  }

  function FourRankInputs(): seq<RankInput>
  {
    [FourRankInput0(), FourRankInput1(), FourRankInput2(), FourRankInput3()]
  }

  function FourRankRegistries(): seq<Registry>
  {
    [FourRankRegistry0(), FourRankRegistry1(), FourRankRegistry2(), FourRankRegistry3()]
  }

  function FourRankMeshes(): seq<Mesh>
  {
    [FourRankMesh0(), FourRankMesh1(), FourRankMesh2(), FourRankMesh3()]
  }

  lemma FourRankRank0()
    ensures && AllWellFormed(FourRankRegistries()) && Build(FourRankInputs()[0]) == Success(FourRankRegistries()[0])
            && BuildLocal(FourRankRegistries()[0]).Success? && MeshOf(FourRankRegistries(), 0) == FourRankMeshes()[0]
  {
    FourRankWellFormed();
    FourRankBuild0();
    FourRankLocal0();
    FourRankDual0();
  }

  lemma FourRankRank1()
    ensures && AllWellFormed(FourRankRegistries()) && Build(FourRankInputs()[1]) == Success(FourRankRegistries()[1])
            && BuildLocal(FourRankRegistries()[1]).Success? && MeshOf(FourRankRegistries(), 1) == FourRankMeshes()[1]
  {
    FourRankWellFormed();
    FourRankBuild1();
    FourRankLocal1();
    FourRankDual1();
  }

  lemma FourRankRank2()
    ensures && AllWellFormed(FourRankRegistries()) && Build(FourRankInputs()[2]) == Success(FourRankRegistries()[2])
            && BuildLocal(FourRankRegistries()[2]).Success? && MeshOf(FourRankRegistries(), 2) == FourRankMeshes()[2]
  {
    FourRankWellFormed();
    FourRankBuild2();
    FourRankLocal2();
    FourRankDual2();
  }

  lemma FourRankRank3()
    ensures && AllWellFormed(FourRankRegistries()) && Build(FourRankInputs()[3]) == Success(FourRankRegistries()[3])
            && BuildLocal(FourRankRegistries()[3]).Success? && MeshOf(FourRankRegistries(), 3) == FourRankMeshes()[3]
  {
    FourRankWellFormed();
    FourRankBuild3();
    FourRankLocal3();
    FourRankDual3();
  }

  /** Construction succeeds on every rank and yields exactly these meshes. */
  lemma FourRankConstruct()
    ensures ConstructAll(FourRankInputs()) == Success(FourRankMeshes())
  {
    FourRankWellFormed();
    FourRankRank0();
    FourRankRank1();
    FourRankRank2();
    FourRankRank3();
    forall q | 0 <= q < 4
      ensures && Build(FourRankInputs()[q]) == Success(FourRankRegistries()[q])
              && BuildLocal(FourRankRegistries()[q]) == Success(LocalLayouts(FourRankMeshes()[q].cc, FourRankMeshes()[q].cs, FourRankMeshes()[q].cg))
              && Echoes(FourRankInputs()[q], FourRankMeshes()[q])
              && FourRankMeshes()[q].ngc == BuildDual(FourRankRegistries(), q)
    {
      assert q == 0 || q == 1 || q == 2 || q == 3;
      MeshOfEchoes(FourRankInputs()[q], FourRankRegistries(), q);
    }
    ConstructAllSucceeds(FourRankInputs(), FourRankRegistries(), FourRankMeshes());
  }

  lemma FourRankMeshesFacts(ms: seq<Mesh>)
    requires ms == FourRankMeshes()
    ensures |ms| == 4
    ensures forall q :: 0 <= q < 4 ==>
              && ms[q].dim == 2 && ms[q].geometry == Cartesian
              && ms[q].numCells == 1 && ms[q].numNodes == 4
              && ms[q].ghostNumbers == FourRankInputs()[q].ghostCellNumber
              && ms[q].ghostRanks == FourRankInputs()[q].ghostCellRank
              && |ms[q].cc| == 0 && |ms[q].cs| == 1 && |ms[q].cg| == 1
    ensures |ms[0].ngc| == 3 && ms[0].ngc == map[1 := [DualRecord(0, [1, 2], 1)], 2 := [DualRecord(0, [1, 2], 2)], 3 := [DualRecord(0, [0, 3], 1), DualRecord(0, [3, 0], 2), DualRecord(0, [1, 2], 3)]]
    ensures |ms[1].ngc| == 3 && ms[1].ngc == map[0 := [DualRecord(0, [3, 0], 0)], 2 := [DualRecord(0, [2, 1], 0), DualRecord(0, [3, 0], 2), DualRecord(0, [1, 2], 3)], 3 := [DualRecord(0, [3, 0], 3)]]
    ensures |ms[2].ngc| == 3 && ms[2].ngc == map[0 := [DualRecord(0, [0, 3], 0)], 1 := [DualRecord(0, [2, 1], 0), DualRecord(0, [0, 3], 1), DualRecord(0, [1, 2], 3)], 3 := [DualRecord(0, [0, 3], 3)]]
    ensures |ms[3].ngc| == 3 && ms[3].ngc == map[0 := [DualRecord(0, [2, 1], 0), DualRecord(0, [0, 3], 1), DualRecord(0, [3, 0], 2)], 1 := [DualRecord(0, [2, 1], 1)], 2 := [DualRecord(0, [2, 1], 2)]]
  {
    forall q | 0 <= q < 4
      ensures && ms[q].ghostNumbers == FourRankInputs()[q].ghostCellNumber
              && ms[q].ghostRanks == FourRankInputs()[q].ghostCellRank
    {
      assert q == 0 || q == 1 || q == 2 || q == 3;
    }
  }

  /** The assertions of the four ranks scenario: construction succeeds on
      every rank, and the meshes it returns pass every check. */
  lemma FourRankAsserts()
    ensures ConstructAll(FourRankInputs()).Success?
    ensures var ms := ConstructAll(FourRankInputs()).value;
            && |ms| == 4
            && (forall q :: 0 <= q < 4 ==>
                  && ms[q].dim == 2 && ms[q].geometry == Cartesian
                  && ms[q].numCells == 1 && ms[q].numNodes == 4
                  && ms[q].ghostNumbers == FourRankInputs()[q].ghostCellNumber
                  && ms[q].ghostRanks == FourRankInputs()[q].ghostCellRank
                  && |ms[q].cc| == 0 && |ms[q].cs| == 1 && |ms[q].cg| == 1)
            && |ms[0].ngc| == 3 && ms[0].ngc == map[1 := [DualRecord(0, [1, 2], 1)], 2 := [DualRecord(0, [1, 2], 2)], 3 := [DualRecord(0, [0, 3], 1), DualRecord(0, [3, 0], 2), DualRecord(0, [1, 2], 3)]]
            && |ms[1].ngc| == 3 && ms[1].ngc == map[0 := [DualRecord(0, [3, 0], 0)], 2 := [DualRecord(0, [2, 1], 0), DualRecord(0, [3, 0], 2), DualRecord(0, [1, 2], 3)], 3 := [DualRecord(0, [3, 0], 3)]]
            && |ms[2].ngc| == 3 && ms[2].ngc == map[0 := [DualRecord(0, [0, 3], 0)], 1 := [DualRecord(0, [2, 1], 0), DualRecord(0, [0, 3], 1), DualRecord(0, [1, 2], 3)], 3 := [DualRecord(0, [0, 3], 3)]]
            && |ms[3].ngc| == 3 && ms[3].ngc == map[0 := [DualRecord(0, [2, 1], 0), DualRecord(0, [0, 3], 1), DualRecord(0, [3, 0], 2)], 1 := [DualRecord(0, [2, 1], 1)], 2 := [DualRecord(0, [2, 1], 2)]]
  {
    FourRankConstruct();
    FourRankMeshesFacts(FourRankMeshes());
  }

}
