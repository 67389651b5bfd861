/** Editing sessions as a client sees them, proved from the contracts alone. */
module Scenarios {
  import opened Wrappers
  import opened Mtg
  import opened Events
  import opened Layout
  import opened Observable
  import opened Editor

  /** R dropped at (0, 0) on a fresh canvas. */
  function DroppedRoot(): Tree {
    AddComponent(Empty(), 0, 1, Some(Pos(0.0, 0.0)))
  }

  /** Dropping R attaches it as a component root of the root of the graph. */
  lemma DropPlan()
    ensures AddVertexPlan(Empty(), 1, None, Successor, Pos(0.0, 0.0)) == Attach(DroppedRoot(), [(Some(0), Some(1))])
    ensures DroppedRoot().vertices == [0, 1] && 1 in DroppedRoot().position
    ensures DroppedRoot().position[1] == Pos(0.0, 0.0) && SonsOfKind(DroppedRoot(), 1, Successor) == []
  {
  }

  /** The first "<" son of R goes 40 units above it. */
  lemma SuccessorPlan(dx: int -> real)
    ensures 1 in DroppedRoot().position
    ensures Place(DroppedRoot().position[1], Successor, |SonsOfKind(DroppedRoot(), 1, Successor)|, dx) == Placed(Pos(0.0, -40.0))
    ensures AddVertexPlan(DroppedRoot(), 2, Some(1), Successor, Pos(0.0, -40.0))
         == Attach(WithSuccessor(), [(Some(1), Some(2))])
  {
    DropPlan();
  }

  /** R dropped at (0, 0) and its "<" son S1. */
  function WithSuccessor(): Tree {
    AddChild(DroppedRoot(), 1, 2, Some(Successor), Some(Pos(0.0, -40.0)))
  }

  /** S1 is the third vertex and is stored 40 units above R. */
  lemma SuccessorStored()
    ensures WithSuccessor().vertices == [0, 1, 2]
    ensures 1 in WithSuccessor().position && 2 in WithSuccessor().position
    ensures WithSuccessor().position[2] == Pos(0.0, -40.0)
  {
    DropPlan();
  }

  /** After the "<" son, R has exactly one successor. */
  lemma SuccessorCounted()
    ensures SonsOfKind(WithSuccessor(), 1, Successor) == [2]
  {
    DropPlan();
    AddChildCountsKind(DroppedRoot(), 1, 2, Successor, Some(Pos(0.0, -40.0)));
  }

  /** A vertex R dropped at (0, 0) on a fresh canvas, and a "<" son S1 of it. */
  method DropWithSuccessor(dx: int -> real) returns (gm: ObservableMtg)
    ensures fresh(gm) && gm.Valid()
    ensures gm.g.vertices == [0, 1, 2] && gm.lastId == 2
    ensures 1 in gm.g.position && 2 in gm.g.position && gm.g.position[2] == Pos(0.0, -40.0)
    ensures SonsOfKind(gm.g, 1, Successor) == [2]
  {
    DropPlan();
    SuccessorPlan(dx);
    SuccessorStored();
    SuccessorCounted();
    gm := new ObservableMtg();
    var r, out := gm.NewVertex(None, Successor, Pos(0.0, 0.0));
    assert gm.g == DroppedRoot();
    var c1 := VertexAddChild(gm, r, Successor, dx);
    assert gm.g == WithSuccessor();
  }

  /**
   * A second "<" request on R once S1 exists is refused: the graph keeps
   * exactly R and S1 and no identifier is spent.
   */
  method SuccessorOnce(dx: int -> real) {
    var gm := DropWithSuccessor(dx);
    var c2 := VertexAddChild(gm, 1, Successor, dx);
    assert c2 == SuccessorExists;
    assert gm.g.vertices == [0, 1, 2] && gm.lastId == 2;
  }

  /** R dropped at (0, 0) and its "/" component C1. */
  function WithComponent(): Tree {
    AddComponent(DroppedRoot(), 1, 2, Some(Pos(200.0, 0.0)))
  }

  /** The first "/" component of R goes 200 units to its right. */
  lemma ComponentPlan(dx: int -> real)
    ensures 1 in DroppedRoot().position
    ensures Place(DroppedRoot().position[1], Component, |SonsOfKind(DroppedRoot(), 1, Component)|, dx) == Placed(Pos(200.0, 0.0))
    ensures AddVertexPlan(DroppedRoot(), 2, Some(1), Component, Pos(200.0, 0.0)) == Attach(WithComponent(), [(Some(1), Some(2))])
  {
    DropPlan();
  }

  /** C1 is the third vertex, in the complex R, whose only component root it is. */
  lemma ComponentStored()
    ensures WithComponent().vertices == [0, 1, 2] && 2 in WithComponent().position
    ensures WithComponent().position[2] == Pos(200.0, 0.0)
    ensures ComplexOf(WithComponent(), 2) == Some(1) && ComponentRoots(WithComponent(), 1) == [2]
  {
    DropPlan();
    assert ComponentRoots(DroppedRoot(), 1) == [];
  }

  /** R removed after its "/" component C1 was added. */
  function WithoutComplex(): Tree {
    Mtg.RemoveVertex(WithComponent(), 1)
  }

  /** Removing R keeps the root and C1. */
  lemma WithoutComplexVertices()
    ensures WithoutComplex().vertices == [0, 2]
  {
    ComponentStored();
    WithoutMiddle();
  }

  /** Taking 1 out of the list 0, 1, 2. */
  lemma WithoutMiddle()
    ensures Without([0, 1, 2], 1) == [0, 2]
  {
    assert [0, 1, 2][1..] == [1, 2] && [1, 2][1..] == [2] && [2][1..] == [];
    assert Without([2], 1) == [2];
    assert Without([1, 2], 1) == [2];
  }

  /** Removing R leaves C1 without a complex and R without component roots: nothing refers to R. */
  lemma WithoutComplexForgotten()
    ensures ComplexOf(WithoutComplex(), 2) == None && ComponentRoots(WithoutComplex(), 1) == []
  {
    ComponentStored();
  }

  /**
   * After R is removed, "\\" on C1 is the failing complex lookup: it cannot
   * make a son of the removed R.
   */
  lemma RemovedComplexRefused(pos: Pos)
    ensures 3 !in WithoutComplex().vertices
    ensures AddVertexPlan(WithoutComplex(), 3, Some(2), Complex, pos) == Fail
  {
    WithoutComplexVertices();
    WithoutComplexForgotten();
    ComplexWithoutComplexFails(WithoutComplex(), 3, 2, pos);
  }

  /** A vertex R dropped at (0, 0) on a fresh canvas, and a "/" component C1 of it. */
  method DropWithComponent(dx: int -> real) returns (gm: ObservableMtg)
    ensures fresh(gm) && gm.Valid()
    ensures gm.g.vertices == [0, 1, 2] && gm.lastId == 2
    ensures 2 in gm.g.position && gm.g.position[2] == Pos(200.0, 0.0)
    ensures ComplexOf(gm.g, 2) == Some(1) && ComponentRoots(gm.g, 1) == [2]
  {
    DropPlan();
    ComponentPlan(dx);
    ComponentStored();
    gm := new ObservableMtg();
    var r, _ := gm.NewVertex(None, Successor, Pos(0.0, 0.0));
    assert gm.g == DroppedRoot();
    var c1 := VertexAddChild(gm, r, Component, dx);
    assert gm.g == WithComponent();
  }

  /**
   * "\\" on C1, a component root of its complex R: nothing is added, nothing
   * is announced, and identifier 3 is given back.
   */
  method ComplexOnComponentRoot(dx: int -> real) {
    var gm := DropWithComponent(dx);
    var logBefore := gm.log;
    assert Place(gm.g.position[2], Complex, |SonsOfKind(gm.g, 2, Complex)|, dx) == Placed(Pos(0.0, 0.0));
    assert AddVertexPlan(gm.g, 3, Some(2), Complex, Pos(0.0, 0.0)) == Reclaim;
    var c2 := VertexAddChild(gm, 2, Complex, dx);
    assert c2 == Created(3, Reclaimed);
    assert gm.lastId == 2 && gm.g.vertices == [0, 1, 2] && gm.log == logBefore;
  }
}
