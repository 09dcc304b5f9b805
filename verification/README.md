# Draco mesh topology and `SP` smart pointer in Dafny

This project models two parts of the Draco transport library.

The first is the domain-decomposed construction of a 2-D `Draco_Mesh`, as its
unit test `mesh/test/tstDraco_Mesh_DD.cc` pins it down. Each rank hands the
constructor flat arrays: cell types, cell-to-node linkage, sides, global node
numbers and ghost-cell descriptors. The model:

- slices and validates those arrays into a per-rank registry (`Registry`);
- classifies every cell face as interior, side or ghost;
- builds the cell-cell, cell-side and cell-ghost layouts (`Layouts`);
- builds the node-to-remote-cell "dual ghost" layout from the registries of
  all ranks (`DualLayout`);
- assembles one `Mesh` per rank, or reports the first rank whose
  configuration is inconsistent (`Mesh`).

The two test scenarios, two ranks sharing an edge and four ranks meeting at a
corner, are written out as concrete inputs in `Scenarios`. For each, construction
succeeds and the meshes it returns satisfy the test's scalar, layout-size and
dual-record assertions. The test's permutation checks hold for every
constructed mesh (`Mesh.MeshCellNodesPermuted`, `Mesh.MeshGhostNodesPermuted`).

The second part is `rtt_dsxx::SP` from `ds++/SP.hh`, modelled as a transition
system (`SmartPointer`). A heap holds the live handles. Each handle is a pair
of raw pointer and counter. The heap also keeps the live counters with their
reference counts, and a log of deleted objects. Each constructor, `swap`,
assignment, `reset`, destructor and `dynamic_pointer_cast` is a pure function
from heap to heap. Every one of them keeps the class invariant: each counter
equals the number of live handles that hold it. Programs that follow the
documented ownership rule never leave a handle on a deleted object.

Files: `wrappers.dfy` (Option/Result), `seqs.dfy` (flat-array slicing),
`registry.dfy`, `layouts.dfy`, `layout_props.dfy`, `dual_layout.dfy`,
`mesh.dfy`, `scenarios.dfy`, `sp.dfy`.

### Rules the model fixes

- A face of a polygon cell is a pair of cyclically consecutive nodes. Faces
  are matched by their unordered node pair.
- A face is classified by the first rule that applies:
  1. exactly one other on-rank cell has the face: interior;
  2. two or more other cells have it: a non-manifold error;
  3. some side has it: the first such side;
  4. some ghost cell has it: the first such ghost cell;
  5. otherwise: an unclassified-face error.
- A side or ghost cell that no face uses is an error.
- Errors are reported in a fixed order: faces first, then sides, then ghost
  cells (`Layouts.BuildLocalOrder`).
- Dual ghost layout:
  - it is keyed by the local nodes whose global number lies in a cell of
    another rank;
  - each such node gets one record per (other rank ascending, that rank's
    cell ascending) containing the node;
  - a record holds the remote cell index, the remote cell's nodes after and
    before the shared node (in the remote rank's local numbering), and the
    remote rank.
- The dual layout makes three choices of its own, each as the unit test
  exercises it:
  - the record nodes are numbered on the remote rank, not on this rank
    (`tstDraco_Mesh_DD.cc:158-165`);
  - a diagonal rank that shares only a corner node, and supplies no ghost
    cell, is recorded too (`tstDraco_Mesh_DD.cc:368-378`);
  - records are in ascending rank order.

## Model

| member | source | states |
|---|---|---|
| Registry.Build | src/mesh/test/tstDraco_Mesh_DD.cc:65-70 | Constructor input is accepted only in 2-D with count arrays that agree with their flat linkage; an accepted registry slices the linkage cell by cell, side by side and ghost by ghost and keeps every other array as given; each rejection names an entity whose arrays are actually inconsistent |
| Registry.BuildFlattenRoundTrip | src/mesh/test/tstDraco_Mesh_DD.cc:60-70 | Flattening any well-formed registry back to constructor arrays and building again returns the same registry |
| Seqs.SlicesOfConcat | src/mesh/test/tstDraco_Mesh_DD.cc:103-117 | Slicing a concatenation by its own piece lengths gives the pieces back, the way the test walks cell_to_node_linkage cell by cell |
| Layouts.ClassifyCells | src/mesh/test/tstDraco_Mesh_DD.cc:82-86 | A face classified interior is shared with exactly the recorded cell; a non-manifold face with two or more cells; any other face with none |
| Layouts.ClassifyBoundary | src/mesh/test/tstDraco_Mesh_DD.cc:88-98 | A side face matches its first matching side; a ghost face matches no side and its first matching ghost cell; an unclassified face matches neither |
| Layouts.LayoutRecords | src/mesh/test/tstDraco_Mesh_DD.cc:82-98 | A link is in a cell's entry of a layout iff some face of that kind records it, naming the neighbour and the face's node pair |
| Layouts.LayoutFaceOrder | src/mesh/test/tstDraco_Mesh_DD.cc:82-98 | A cell's entry holds exactly one link per face of that kind, in face order: its i-th link is the record of the cell's i-th such face |
| Layouts.LayoutKeys | src/mesh/test/tstDraco_Mesh_DD.cc:82-98 | A cell is a key of a local layout exactly when it is a cell of the rank with at least one face of that kind, and no key holds an empty entry; so a layout's size is the number of the rank's cells with such a face |
| Layouts.BuildLocal | src/mesh/test/tstDraco_Mesh_DD.cc:82-98 | The three layouts are produced exactly when every face is classified and no side or ghost cell is dangling; otherwise the error is always one of the four layout errors (non-manifold face, unclassified face, dangling side, dangling ghost cell) and names a face or entity that actually violates the rule |
| LayoutProps.CellCellSymmetric | src/mesh/test/tstDraco_Mesh_DD.cc:82-86 | Cell-cell adjacency is symmetric: if c records d across a face, d records c across the same node pair |
| LayoutProps.SingleCellNoNeighbors | src/mesh/test/tstDraco_Mesh_DD.cc:82-86 | A rank with a single cell has an empty cell-cell layout |
| LayoutProps.CellNodesPermuted | src/mesh/test/tstDraco_Mesh_DD.cc:100-118 | Gathering a cell's first face nodes back from the three layouts gives a permutation of the cell's nodes |
| LayoutProps.GhostNodesPermuted | src/mesh/test/tstDraco_Mesh_DD.cc:120-138 | Gathering a ghost cell's nodes back from the cell-ghost layout gives a permutation of the ghost cell's node list |
| DualLayout.DualRecords | src/mesh/test/tstDraco_Mesh_DD.cc:140-169 | A node's dual records are exactly the (remote cell, flanking nodes, remote rank) triples of the other ranks' cells that hold its global node |
| DualLayout.DualKeys | src/mesh/test/tstDraco_Mesh_DD.cc:145-146 | A local node is a key of the dual layout iff its global node lies in a cell of another rank |
| DualLayout.DualOrdered | src/mesh/test/tstDraco_Mesh_DD.cc:346-378 | Each node's records are strictly ascending by (remote rank, remote cell), so every touching remote cell appears once |
| DualLayout.DualNodesFlank | src/mesh/test/tstDraco_Mesh_DD.cc:158-165 | The two record nodes are the far ends of the remote cell's face leaving the shared node and of its face entering it |
| DualLayout.DualSymmetric | src/mesh/test/tstDraco_Mesh_DD.cc:166-191 | If rank a's node records rank b, then rank b's copy of the same global node records rank a's cell |
| Mesh.RankFailure | src/mesh/test/tstDraco_Mesh_DD.cc:65-70 | A rank's input is free of errors iff it builds and its topology is consistent; otherwise the error is the registry's or the layouts' |
| Mesh.ConstructAll | src/mesh/test/tstDraco_Mesh_DD.cc:65-98 | All ranks succeed iff every rank is error-free, else the first failing rank is reported; each mesh echoes dimension, geometry, counts and ghost arrays, carries its rank's layouts and the dual layout computed from all ranks |
| Mesh.ConstructAllSucceeds | src/mesh/test/tstDraco_Mesh_DD.cc:65-80 | Construction returns exactly the given meshes whenever each rank's arrays build to its registry and each mesh echoes its rank's input, carries that rank's local layouts and holds the dual layout computed from all ranks |
| Mesh.MeshCellNodesPermuted | src/mesh/test/tstDraco_Mesh_DD.cc:100-118 | In a constructed mesh, each cell's nodes from the layouts permute that cell's slice of cell_to_node_linkage |
| Mesh.MeshGhostNodesPermuted | src/mesh/test/tstDraco_Mesh_DD.cc:120-138 | In a constructed mesh, each ghost cell's nodes from the cell-ghost layout permute its slice of ghost_cell_to_node_linkage |
| Mesh.MeshSingleCell | src/mesh/test/tstDraco_Mesh_DD.cc:82-86 | In a constructed mesh, a rank with one cell has no cell-cell links |
| Scenarios.TwoRankConstruct | src/mesh/test/tstDraco_Mesh_DD.cc:22-70 | The two-rank inputs construct, on both ranks, to the meshes written out in the scenario |
| Scenarios.TwoRankAsserts | src/mesh/test/tstDraco_Mesh_DD.cc:72-193 | Construction of the two-rank inputs succeeds, and the meshes it returns satisfy every scalar, layout-size and dual-record assertion of the two-rank test, down to each record's cell, nodes and rank |
| Scenarios.FourRankConstruct | src/mesh/test/tstDraco_Mesh_DD.cc:202-264 | The four-rank inputs construct, on all ranks, to the meshes written out in the scenario |
| Scenarios.FourRankAsserts | src/mesh/test/tstDraco_Mesh_DD.cc:266-487 | Construction of the four-rank inputs succeeds, and the meshes it returns satisfy every scalar, layout-size and dual-record assertion of the four-rank test, including the three records at the corner node |
| SmartPointer.UseCount | src/ds++/SP.hh:188-189 | use_count() is 0 without a counter, else the number of live handles sharing the counter, at least 1 |
| SmartPointer.Unique | src/ds++/SP.hh:191 | unique() holds iff use_count() is 1, iff no other live handle shares the counter |
| SmartPointer.Declare | src/ds++/SP.hh:266-277 | The default constructor yields a NULL pointer with use count 0 and touches no counter |
| SmartPointer.Bind | src/ds++/SP.hh:288-296 | Binding a raw pointer, NULL included, yields get()==p and unique() under a fresh counter; no other counter changes |
| SmartPointer.Copy | src/ds++/SP.hh:304-329 | Copy construction shares pointer and counter and raises that counter by one; without a counter nothing changes |
| SmartPointer.Cast | src/ds++/SP.hh:362-374 | A cast that succeeds on a non-NULL pointer shares the counter like a copy; otherwise the result is empty and no count changes |
| SmartPointer.Swap | src/ds++/SP.hh:386-396 | swap exchanges both handles whole; every count and every other handle is unchanged |
| SmartPointer.Release | src/ds++/SP.hh:406-415 | free() drops one user; the object and the counter are deleted exactly when the count falls to 0 |
| SmartPointer.Destroy | src/ds++/SP.hh:159-160 | The destructor removes the handle; its object is deleted iff it was the unique holder, otherwise its counter drops by one |
| SmartPointer.Assign | src/ds++/SP.hh:331-359 | Assignment leaves the target equal to the source; the source counter gains one and the old target counter loses one, deleting its object iff the target was unique; same counters leave all counts unchanged |
| SmartPointer.SelfAssignUnchanged | src/ds++/SP.hh:337-342 | Assigning a handle to itself, or to an equal handle, changes nothing |
| SmartPointer.Reset | src/ds++/SP.hh:169-170 | reset() empties the handle and releases its old share |
| SmartPointer.ResetTo | src/ds++/SP.hh:376-384 | reset(p) releases the old share, then holds p under a fresh counter at 1 |
| SmartPointer.NullBindCounted | src/ds++/SP.hh:288-296 | A handle bound to NULL is counted once, yet tests false and compares equal to NULL |
| SmartPointer.CopyShares | src/ds++/SP.hh:304-311 | A copy compares equal to its source, both report the same raised use count, and neither is unique |
| SmartPointer.Step | src/ds++/SP.hh:68-71 | Every operation on live handles keeps each counter equal to the number of live handles holding it |
| SmartPointer.Run | src/ds++/SP.hh:68-71 | Every program keeps the counting invariant in every state it reaches |
| SmartPointer.RunSafe | src/ds++/SP.hh:73-82 | A program that binds only raw pointers it owns never leaves a live handle on a deleted object |
| SmartPointer.DoubleBindDangles | src/ds++/SP.hh:84-97 | Binding one raw pointer to two smart pointers and destroying one leaves the other on a deleted object |

## Left out

- Node coordinates, `face_type` (used only in 3-D) and the geometry-dependent offsets of the test's mesh interface: they do not affect topology. Geometry is kept as a tag.
- 1-D and 3-D meshes: construction in any dimension other than 2 is rejected with an error.
- `Draco_Mesh.cc`, `Draco_Mesh.hh` and `Test_Mesh_Interface.hh` are not part of this model. The behaviour is the one the unit test asserts. The scenario inputs rest on three assumptions about the arrays the interface builds, which the scenario lemmas depend on:
  - quads use node order 0, 1, 3, 2;
  - sides are the outer faces that are not on a processor boundary;
  - side flags are 0.
- Scenarios: if the interface also listed processor-boundary faces as sides, both scenarios would be rejected with a dangling-ghost error. A side is matched before a ghost cell, so each ghost cell's only shared face would be classified as a side and the ghost cell left unused.
- The flattening helpers of the test's mesh interface are re-defined as `FlattenCell` and `FlattenGhost`.
- MPI: ranks are positions in a sequence, and the dual layout reads all ranks' registries directly. The data exchange that supplies them is not modelled.
- Mesh.ConstructAll: a rank's configuration error aborts the construction of every rank, because the per-rank process aborts are modelled as one fatal result.
- The parallel test harness (`ParallelUnitTest`, the PE-count `Insist`, pass/fail messages).
- SmartPointer: memory allocation and `delete` are represented by fresh counter ids and the deletion log. Object identity is an abstract id.
- SmartPointer.Cast: `dynamic_cast` is a boolean parameter saying whether the object has the target type. A successful cast keeps the same object id.
- The `DRACO_DIAGNOSTICS` allocator overrides, `typeinfo` and `incompatible` have no counting semantics.
- `operator->` and `operator*` (`Require(p_)` plus a dereference) are not modelled: the model has no pointee contents.
- `get`, `operator bool` and the four pointer comparisons are the predicates `Get`, `IsSet`, `SameTarget` and `PointsTo`. Their contracts appear through `NullBindCounted` and `CopyShares`.
