/**
 * The editing gestures of the graphical vertex: the key mapping of
 * `keyPressEvent`, `Vertex.add_child`, and the initial notifications of
 * `initialise_graph_view_from_model`.
 */
module Editor {
  import opened Wrappers
  import opened Mtg
  import opened Events
  import opened Layout
  import opened Observable

  // Qt key codes of the keys the vertex reacts to.
  const KeyPlus: int := 0x2b
  const KeySlash: int := 0x2f
  const KeyLess: int := 0x3c
  const KeyBackslash: int := 0x5c
  const KeyDelete: int := 0x0100_0007

  datatype Action = AddChildAction(kind: EdgeKind) | DeleteAction

  /** The key that asks for each action. */
  function KeyCode(a: Action): int {
    match a
    case AddChildAction(Successor) => KeyLess
    case AddChildAction(Branch) => KeyPlus
    case AddChildAction(Component) => KeySlash
    case AddChildAction(Complex) => KeyBackslash
    case DeleteAction => KeyDelete
  }

  /** The key mapping of `keyPressEvent`: None for a key the vertex ignores. */
  function KeyAction(key: int): (a: Option<Action>)
    ensures a.Some? ==> KeyCode(a.value) == key
    ensures a.None? ==> forall b :: KeyCode(b) != key
  {
    if key == KeyLess then Some(AddChildAction(Successor))
    else if key == KeyPlus then Some(AddChildAction(Branch))
    else if key == KeySlash then Some(AddChildAction(Component))
    else if key == KeyBackslash then Some(AddChildAction(Complex))
    else if key == KeyDelete then Some(DeleteAction)
    else None
  }

  /** Every action has exactly one key, and that key asks for it. */
  lemma KeyActionRoundTrip(a: Action)
    ensures KeyAction(KeyCode(a)) == Some(a)
  {
  }

  /** Which way `Vertex.add_child` ended. */
  datatype ChildOutcome =
    | NoPosition                          // no stored position: unpacking it raises
    | SuccessorExists                     // a second "<" son is refused
    | Created(vid: Vid, outcome: Outcome) // `new_vertex` was called and handed out `vid`

  /** The effect of `add_child` on vertex `v`: from tree `t0`, counter `id0` and log `log0`. */
  ghost predicate AddChildStep(t0: Tree, id0: int, log0: seq<Event>, v: Vid, kind: EdgeKind, dx: int -> real,
                               t: Tree, id: int, log: seq<Event>, r: ChildOutcome)
    requires IdsAtMost(t0, id0)
  {
    if v !in t0.position then r == NoPosition && t == t0 && id == id0 && log == log0
    else match Place(t0.position[v], kind, |SonsOfKind(t0, v, kind)|, dx)
      case Rejected => r == SuccessorExists && t == t0 && id == id0 && log == log0
      case Placed(pos) =>
        && r.Created? && r.vid == id0 + 1
        && NewVertexStep(t0, log0, r.vid, Some(v), kind, pos, t, id, log, r.outcome)
  }

  /**
   * `Vertex.add_child(edge_type=kind)` on vertex `v`: reads the position of
   * `v`, refuses a second "<" son, and otherwise calls `new_vertex` with the
   * placed position.
   */
  method VertexAddChild(gm: ObservableMtg, v: Vid, kind: EdgeKind, dx: int -> real) returns (r: ChildOutcome)
    requires gm.Valid() && v in gm.g.vertices
    modifies gm
    ensures gm.Valid()
    ensures AddChildStep(old(gm.g), old(gm.lastId), old(gm.log), v, kind, dx, gm.g, gm.lastId, gm.log, r)
    ensures r == NoPosition || r == SuccessorExists ==> unchanged(gm)
  {
    if v !in gm.g.position {
      return NoPosition;
    }
    var n := |SonsOfKind(gm.g, v, kind)|;
    var placement := Place(gm.g.position[v], kind, n, dx);
    if placement.Rejected? {
      return SuccessorExists;
    }
    var vid, outcome := gm.NewVertex(Some(v), kind, placement.pos);
    r := Created(vid, outcome);
  }

  /**
   * Once a vertex has a "<" son, asking for another one is refused: the
   * editor keeps at most one successor per vertex.
   */
  lemma SecondSuccessorRefused(t: Tree, v: Vid, c: Vid, pos: Pos, dx: int -> real)
    requires Wf(t) && c !in t.vertices
    ensures var t' := Mtg.AddChild(t, v, c, Some(Successor), Some(pos));
      v in t'.position ==> Place(t'.position[v], Successor, |SonsOfKind(t', v, Successor)|, dx) == Rejected
  {
    AddChildCountsKind(t, v, c, Successor, Some(pos));
  }

  /** What a key press did; `Deleted(false)` is a removal the library refused. */
  datatype KeyOutcome = Ignored | Deleted(removed: bool) | ChildAdded(child: ChildOutcome)

  /** `Vertex.keyPressEvent`: add a child of the kind the key names, delete the vertex, or ignore the key. */
  method VertexKeyPress(gm: ObservableMtg, v: Vid, key: int, dx: int -> real) returns (r: KeyOutcome)
    requires gm.Valid() && v in gm.g.vertices
    modifies gm
    ensures gm.Valid()
    ensures KeyAction(key).None? ==> r == Ignored && unchanged(gm)
    ensures KeyAction(key) == Some(DeleteAction) ==>
      && r == Deleted(v != old(gm.g).root)
      && gm.lastId == old(gm.lastId)
      && (v != old(gm.g).root ==>
            && gm.g == Mtg.RemoveVertex(old(gm.g), v)
            && gm.log == old(gm.log) + RemoveVertexEvents(v, ParentOf(old(gm.g), v), Sons(old(gm.g), v)))
      && (v == old(gm.g).root ==>
            && gm.g == old(gm.g)
            && gm.log == old(gm.log) + RemoveVertexNotices(v, ParentOf(old(gm.g), v), Sons(old(gm.g), v)))
    ensures KeyAction(key).Some? && KeyAction(key).value.AddChildAction? ==>
      && r.ChildAdded?
      && AddChildStep(old(gm.g), old(gm.lastId), old(gm.log), v, KeyAction(key).value.kind, dx,
                      gm.g, gm.lastId, gm.log, r.child)
  {
    var action := KeyAction(key);
    if action.None? {
      return Ignored;
    }
    match action.value
    case DeleteAction =>
      var removed := gm.RemoveVertex(v);
      r := Deleted(removed);
    case AddChildAction(kind) =>
      var child := VertexAddChild(gm, v, kind, dx);
      r := ChildAdded(child);
  }

  /** `initialise_graph_view_from_model`: one vertex_added per vertex of the graph, in order. */
  method InitialiseGraphView(gm: ObservableMtg)
    modifies gm
    ensures gm.g == old(gm.g) && gm.lastId == old(gm.lastId)
    ensures gm.log == old(gm.log) + InitialEvents(old(gm.g).vertices)
  {
    var vs := gm.g.vertices;
    for i := 0 to |vs|
      invariant gm.g == old(gm.g) && gm.lastId == old(gm.lastId)
      invariant gm.log == old(gm.log) + InitialEvents(vs[..i])
    {
      assert vs[..i + 1][..i] == vs[..i];
      gm.Notify(VertexAdded(vs[i]));
    }
    assert vs[..|vs|] == vs;
  }
}
