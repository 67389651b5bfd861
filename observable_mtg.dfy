/**
 * `ObservableMTG`: an adapter around the MTG that sends a notification to its
 * listeners for every change. The listeners are modelled by the log of the
 * notifications sent so far; `_id`, the graph's identifier counter, is
 * `lastId`.
 */
module Observable {
  import opened Wrappers
  import opened Mtg
  import opened Events

  /** Which way `add_vertex` ended. */
  datatype Outcome =
    | Attached    // the vertex was added and announced
    | Reclaimed   // complex no-op: nothing added, identifier given back
    | Failed      // complex of a vertex that has none: the library call raises

  /** The graph change and the recorded edges that `add_vertex` decides on. */
  datatype Plan = Attach(tree: Tree, edges: seq<(Ref, Ref)>) | Reclaim | Fail

  /**
   * The dispatch of `add_vertex(vid, parent=pid, edge_type=kind, position=pos)`:
   * a vertex without parent becomes a component of the root; "<" and "+" add a
   * son; "/" adds a component; "\\" wraps the parent in a new complex, unless
   * the parent already is a component root of its complex.
   */
  function AddVertexPlan(t: Tree, vid: Vid, parent: Option<Vid>, kind: EdgeKind, pos: Pos): Plan
    requires vid !in t.vertices
  {
    match parent
    case None => Attach(AddComponent(t, t.root, vid, Some(pos)), [(Some(t.root), Some(vid))])
    case Some(pid) =>
      if kind == Successor || kind == Branch then
        Attach(AddChild(t, pid, vid, Some(kind), Some(pos)), [(Some(pid), Some(vid))])
      else if kind == Component then
        Attach(AddComponent(t, pid, vid, Some(pos)), [(Some(pid), Some(vid))])
      else
        match ComplexOf(t, pid)
        case None => Fail
        case Some(cpx) =>
          if pid in ComponentRoots(t, cpx) then Reclaim
          else
            var t1 := AddChild(t, cpx, vid, None, Some(pos));
            Attach(AddComponent(t1, vid, pid, None), [(Some(cpx), Some(vid)), (Some(vid), Some(pid))])
  }

  /** "\\" under a vertex that has no complex is the failing lookup, whatever the rest of the graph. */
  lemma ComplexWithoutComplexFails(t: Tree, vid: Vid, pid: Vid, pos: Pos)
    requires vid !in t.vertices && ComplexOf(t, pid) == None
    ensures AddVertexPlan(t, vid, Some(pid), Complex, pos) == Fail
  {
  }

  /** The precondition `add_vertex` relies on: `vid` is above every identifier in use. */
  ghost predicate CanAdd(t: Tree, vid: Vid, parent: Option<Vid>) {
    Wf(t) && IdsAtMost(t, vid - 1) && (parent.Some? ==> parent.value in t.vertices)
  }

  /** An attached plan keeps the invariant and uses no identifier above `vid`. */
  lemma AddVertexPlanKeepsWf(t: Tree, vid: Vid, parent: Option<Vid>, kind: EdgeKind, pos: Pos)
    requires CanAdd(t, vid, parent)
    ensures vid !in t.vertices
    ensures var plan := AddVertexPlan(t, vid, parent, kind, pos);
      plan.Attach? ==> Wf(plan.tree) && IdsAtMost(plan.tree, vid)
  {
    assert vid !in t.vertices;
    var plan := AddVertexPlan(t, vid, parent, kind, pos);
    match parent
    case None =>
      AddComponentKeepsWf(t, t.root, vid, Some(pos), vid);
    case Some(pid) =>
      if kind == Successor || kind == Branch {
        AddChildKeepsWf(t, pid, vid, Some(kind), Some(pos));
      } else if kind == Component {
        AddComponentKeepsWf(t, pid, vid, Some(pos), vid);
      } else if plan.Attach? {
        var cpx := ComplexOf(t, pid).value;
        AddChildKeepsWf(t, cpx, vid, None, Some(pos));
        AddComponentKeepsWf(AddChild(t, cpx, vid, None, Some(pos)), vid, pid, None, vid);
      }
  }

  /** Whatever `add_vertex` attaches, the vertices before stay, in order, and the new vertex gets the given position. */
  lemma AddVertexPlanKeepsOld(t: Tree, vid: Vid, parent: Option<Vid>, kind: EdgeKind, pos: Pos)
    requires CanAdd(t, vid, parent)
    ensures vid !in t.vertices
    ensures var plan := AddVertexPlan(t, vid, parent, kind, pos);
      plan.Attach? ==>
        && plan.tree.vertices[..|t.vertices|] == t.vertices
        && vid in plan.tree.vertices
        && plan.tree.position[vid] == pos
  {
    assert vid !in t.vertices;
    var plan := AddVertexPlan(t, vid, parent, kind, pos);
    if plan.Attach? {
      assert plan.tree.vertices == t.vertices + [vid];
    }
  }

  /** Without a parent, the new vertex is the last component root of the root. */
  lemma AddVertexPlanTopLevel(t: Tree, vid: Vid, kind: EdgeKind, pos: Pos)
    requires CanAdd(t, vid, None)
    ensures vid !in t.vertices
    ensures var plan := AddVertexPlan(t, vid, None, kind, pos);
      && plan.Attach?
      && ComponentRoots(plan.tree, t.root) == ComponentRoots(t, t.root) + [vid]
  {
    assert vid !in t.vertices;
  }

  /** "<" or "+": the new vertex is the last son of the parent, and counted among its sons of that kind. */
  lemma AddVertexPlanSon(t: Tree, vid: Vid, pid: Vid, kind: EdgeKind, pos: Pos)
    requires CanAdd(t, vid, Some(pid))
    ensures vid !in t.vertices
    ensures var plan := AddVertexPlan(t, vid, Some(pid), kind, pos);
      kind == Successor || kind == Branch ==>
        && plan.Attach?
        && ParentOf(plan.tree, vid) == Some(pid)
        && Sons(plan.tree, pid) == Sons(t, pid) + [vid]
        && SonsOfKind(plan.tree, pid, kind) == SonsOfKind(t, pid, kind) + [vid]
  {
    assert vid !in t.vertices;
    if kind == Successor || kind == Branch {
      AddChildAppendsSon(t, pid, vid, Some(kind), Some(pos), pid);
      AddChildCountsKind(t, pid, vid, kind, Some(pos));
    }
  }

  /** "/": the new vertex is the last component root of the parent, and has it as complex. */
  lemma AddVertexPlanComponent(t: Tree, vid: Vid, pid: Vid, pos: Pos)
    requires CanAdd(t, vid, Some(pid))
    ensures vid !in t.vertices
    ensures var plan := AddVertexPlan(t, vid, Some(pid), Component, pos);
      && plan.Attach?
      && ComplexOf(plan.tree, vid) == Some(pid)
      && ComponentRoots(plan.tree, pid) == ComponentRoots(t, pid) + [vid]
  {
    assert vid !in t.vertices;
  }

  /**
   * "\\": fails exactly when the parent has no complex; is the no-op exactly
   * when the parent already is a component root of its complex; otherwise
   * the new vertex is a son of that complex, and the parent, now the only
   * component root of the new vertex, has it as complex.
   */
  lemma AddVertexPlanComplex(t: Tree, vid: Vid, pid: Vid, pos: Pos)
    requires CanAdd(t, vid, Some(pid))
    ensures vid !in t.vertices
    ensures var plan := AddVertexPlan(t, vid, Some(pid), Complex, pos);
      && (plan.Fail? <==> ComplexOf(t, pid).None?)
      && (plan.Reclaim? <==> ComplexOf(t, pid).Some? && pid in ComponentRoots(t, ComplexOf(t, pid).value))
      && (plan.Attach? ==>
            && ParentOf(plan.tree, vid) == ComplexOf(t, pid)
            && ComplexOf(plan.tree, pid) == Some(vid)
            && ComponentRoots(plan.tree, vid) == [pid])
  {
    assert vid !in t.vertices;
    if ComplexOf(t, pid).Some? {
      var cpx := ComplexOf(t, pid).value;
      var t1 := AddChild(t, cpx, vid, None, Some(pos));
      assert ComponentRoots(t1, vid) == [] by {
        assert vid !in t.components;
      }
    }
  }

  /**
   * The effect of `new_vertex` that handed out `vid`: from tree `t0` and log
   * `log0` to tree `t`, counter `id` and log `log`.
   */
  ghost predicate NewVertexStep(t0: Tree, log0: seq<Event>, vid: Vid, parent: Option<Vid>, kind: EdgeKind, pos: Pos,
                                t: Tree, id: int, log: seq<Event>, outcome: Outcome)
    requires vid !in t0.vertices
  {
    match AddVertexPlan(t0, vid, parent, kind, pos)
    case Attach(t1, edges) => outcome == Attached && t == t1 && id == vid && log == log0 + AddVertexEvents(vid, edges)
    case Reclaim => outcome == Reclaimed && t == t0 && id == vid - 1 && log == log0
    case Fail => outcome == Failed && t == t0 && id == vid && log == log0
  }

  class ObservableMtg {
    var g: Tree
    var lastId: int
    var log: seq<Event>

    /** The graph is well formed and the counter is at or above every identifier in use. */
    ghost predicate Valid()
      reads this
    {
      Wf(g) && IdsAtMost(g, lastId)
    }

    constructor ()
      ensures Valid()
      ensures g == Empty() && lastId == 0 && log == []
    {
      g := Empty();
      lastId := 0;
      log := [];
    }

    /** `notify_listeners(e)`. */
    method Notify(e: Event)
      modifies this
      ensures g == old(g) && lastId == old(lastId)
      ensures log == old(log) + [e]
    {
      log := log + [e];
    }

    /** `add_edge(src, tgt)`: notification only, the graph is not changed. */
    method AddEdge(src: Ref, tgt: Ref)
      modifies this
      ensures g == old(g) && lastId == old(lastId)
      ensures log == old(log) + EdgeAddedEvents(src, tgt)
    {
      Notify(EdgeAdded(src, tgt));
      Notify(Refresh(src));
      Notify(Refresh(tgt));
    }

    /** `remove_edge(src, tgt)`: notification only, the graph is not changed. */
    method RemoveEdge(src: Ref, tgt: Ref)
      modifies this
      ensures g == old(g) && lastId == old(lastId)
      ensures log == old(log) + [EdgeRemoved(src, tgt)]
    {
      Notify(EdgeRemoved(src, tgt));
    }

    /**
     * `add_vertex(vid, parent=..., edge_type=..., position=...)`. On success
     * the graph changes as the plan says, and the log gets vertex_added(vid)
     * followed by the three notifications of `add_edge` for each recorded
     * edge. The complex no-op decrements the counter and changes nothing else.
     */
    method AddVertex(vid: Vid, parent: Option<Vid>, kind: EdgeKind, pos: Pos) returns (outcome: Outcome)
      requires vid !in g.vertices
      modifies this
      ensures match AddVertexPlan(old(g), vid, parent, kind, pos)
        case Attach(t, edges) =>
          && outcome == Attached && g == t && lastId == old(lastId)
          && log == old(log) + AddVertexEvents(vid, edges)
        case Reclaim =>
          outcome == Reclaimed && g == old(g) && lastId == old(lastId) - 1 && log == old(log)
        case Fail =>
          outcome == Failed && g == old(g) && lastId == old(lastId) && log == old(log)
    {
      var t := g;
      var edges: seq<(Ref, Ref)> := [];
      if parent.None? {
        t := AddComponent(t, t.root, vid, Some(pos));
        edges := edges + [(Some(t.root), Some(vid))];
      } else {
        var pid := parent.value;
        if kind == Successor || kind == Branch {
          t := AddChild(t, pid, vid, Some(kind), Some(pos));
          edges := edges + [(Some(pid), Some(vid))];
        } else if kind == Component {
          t := AddComponent(t, pid, vid, Some(pos));
          edges := edges + [(Some(pid), Some(vid))];
        } else {
          var cpx := ComplexOf(t, pid);
          if cpx.None? {
            return Failed;
          }
          if pid in ComponentRoots(t, cpx.value) {
            lastId := lastId - 1;
            return Reclaimed;
          }
          t := AddChild(t, cpx.value, vid, None, Some(pos));
          t := AddComponent(t, vid, pid, None);
          edges := edges + [(cpx, Some(vid))];
          edges := edges + [(Some(vid), Some(pid))];
        }
      }
      assert AddVertexPlan(old(g), vid, parent, kind, pos) == Attach(t, edges);
      g := t;
      NotifyAdded(vid, edges);
      outcome := Attached;
    }

    /** Lines 75-79 of `add_vertex`: vertex_added, then `add_edge` for each recorded edge, in order. */
    method NotifyAdded(vid: Vid, edges: seq<(Ref, Ref)>)
      modifies this
      ensures g == old(g) && lastId == old(lastId)
      ensures log == old(log) + AddVertexEvents(vid, edges)
    {
      Notify(VertexAdded(vid));
      for i := 0 to |edges|
        invariant g == old(g) && lastId == old(lastId)
        invariant log == old(log) + AddVertexEvents(vid, edges[..i])
      {
        assert edges[..i + 1][..i] == edges[..i];
        AddEdge(edges[i].0, edges[i].1);
      }
      assert edges[..|edges|] == edges;
    }

    /**
     * `new_vertex(...)`: increments the counter, adds a vertex under the new
     * value, and returns it. The identifier is fresh: above every vertex.
     */
    method NewVertex(parent: Option<Vid>, kind: EdgeKind, pos: Pos) returns (vid: Vid, outcome: Outcome)
      requires Valid()
      requires parent.Some? ==> parent.value in g.vertices
      modifies this
      ensures Valid()
      ensures vid == old(lastId) + 1
      ensures forall v :: v in old(g).vertices ==> v < vid
      ensures NewVertexStep(old(g), old(log), vid, parent, kind, pos, g, lastId, log, outcome)
    {
      lastId := lastId + 1;
      vid := lastId;
      AddVertexPlanKeepsWf(g, vid, parent, kind, pos);
      outcome := AddVertex(vid, parent, kind, pos);
    }

    /**
     * `remove_vertex(v)`: notifies the removal of the parent edge, then for
     * each former son the removal of its edge and the new edge from the
     * parent, asks the library to remove `v` reparenting its sons, and
     * finally notifies the removal of `v`. Afterwards `v` is gone, its former
     * sons have its former parent, and nothing refers to `v` as a parent or
     * a complex. When the library refuses (an absent vertex, or the root),
     * the edge notifications have already been sent, the graph is unchanged
     * and vertex_removed is not sent; for an absent vertex that is a single
     * edge_removed(None, v).
     */
    method RemoveVertex(v: Vid) returns (removed: bool)
      requires Valid()
      modifies this
      ensures Valid() && lastId == old(lastId)
      ensures removed <==> Removable(old(g), v)
      ensures removed ==>
        && g == Mtg.RemoveVertex(old(g), v)
        && log == old(log) + RemoveVertexEvents(v, ParentOf(old(g), v), Sons(old(g), v))
        && v !in g.vertices
        && (forall c :: c in Sons(old(g), v) ==> ParentOf(g, c) == ParentOf(old(g), v))
        && (forall c :: c in g.parent ==> g.parent[c] != v)
        && (forall c :: c in g.complex ==> g.complex[c] != v)
      ensures !removed ==>
        && g == old(g)
        && log == old(log) + RemoveVertexNotices(v, ParentOf(old(g), v), Sons(old(g), v))
      ensures v !in old(g).vertices ==> log == old(log) + [EdgeRemoved(None, Some(v))]
    {
      var pid := ParentOf(g, v);
      var children := Sons(g, v);
      ghost var t0 := g;
      RemoveEdge(pid, Some(v));
      NotifyReparented(v, pid, children);
      if !Removable(g, v) {
        if v !in g.vertices {
          AbsentHasNoFamily(g, v);
        }
        return false;
      }
      RemoveVertexReparents(t0, v);
      RemoveVertexKeepsWf(t0, v, lastId);
      g := Mtg.RemoveVertex(g, v);
      Notify(VertexRemoved(v));
      removed := true;
    }

    /** Lines 86-88 of `remove_vertex`: for each son, `remove_edge` from `v`, then `add_edge` from the parent. */
    method NotifyReparented(v: Vid, pid: Ref, children: seq<Vid>)
      modifies this
      ensures g == old(g) && lastId == old(lastId)
      ensures log == old(log) + ReparentEvents(v, pid, children)
    {
      for i := 0 to |children|
        invariant g == old(g) && lastId == old(lastId)
        invariant log == old(log) + ReparentEvents(v, pid, children[..i])
      {
        assert children[..i + 1][..i] == children[..i];
        RemoveEdge(Some(v), Some(children[i]));
        AddEdge(pid, Some(children[i]));
      }
      assert children[..|children|] == children;
    }
  }
}
