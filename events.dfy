/**
 * The notifications the adapter sends to its listeners, and the sequences of
 * notifications that each adapter operation sends, in order.
 */
module Events {
  import opened Wrappers
  import opened Mtg

  /** An edge end: a vertex, or None where the code passes a missing parent. */
  type Ref = Option<Vid>

  datatype Event =
    | VertexAdded(vertex: Vid)           // ("vertex_added", ("vertex", v))
    | VertexRemoved(vertex: Vid)         // ("vertex_removed", ("vertex", v))
    | EdgeAdded(src: Ref, tgt: Ref)      // ("edge_added", ("default", edge, src, tgt))
    | EdgeRemoved(src: Ref, tgt: Ref)    // ("edge_removed", ("default", edge))
    | Refresh(target: Ref)               // ("vertex_event", (v, "refresh"))

  /** What `add_edge(src, tgt)` sends. */
  function EdgeAddedEvents(src: Ref, tgt: Ref): seq<Event> {
    [EdgeAdded(src, tgt), Refresh(src), Refresh(tgt)]
  }

  /** What `add_edge` sends for each pair of `edges`, in turn. */
  function EdgesAddedEvents(edges: seq<(Ref, Ref)>): seq<Event> {
    if edges == [] then []
    else
      var last := edges[|edges| - 1];
      EdgesAddedEvents(edges[..|edges| - 1]) + EdgeAddedEvents(last.0, last.1)
  }

  /** What a successful `add_vertex(vid)` sends, given the edges it recorded. */
  function AddVertexEvents(vid: Vid, edges: seq<(Ref, Ref)>): seq<Event> {
    [VertexAdded(vid)] + EdgesAddedEvents(edges)
  }

  /** What `remove_vertex(v)` sends for each former son, in turn. */
  function ReparentEvents(v: Vid, pid: Ref, sons: seq<Vid>): seq<Event> {
    if sons == [] then []
    else
      var c := sons[|sons| - 1];
      ReparentEvents(v, pid, sons[..|sons| - 1]) + [EdgeRemoved(Some(v), Some(c))] + EdgeAddedEvents(pid, Some(c))
  }

  /**
   * What `remove_vertex(v)` sends before it asks the library to remove `v`:
   * the removal of the parent edge, then the reparenting of each son.
   */
  function RemoveVertexNotices(v: Vid, pid: Ref, sons: seq<Vid>): seq<Event> {
    [EdgeRemoved(pid, Some(v))] + ReparentEvents(v, pid, sons)
  }

  /** What a completed `remove_vertex(v)` sends, given the parent and the sons of `v`. */
  function RemoveVertexEvents(v: Vid, pid: Ref, sons: seq<Vid>): seq<Event> {
    RemoveVertexNotices(v, pid, sons) + [VertexRemoved(v)]
  }

  /** What `initialise_graph_view_from_model` sends: one vertex_added per vertex, in order. */
  function InitialEvents(vs: seq<Vid>): (es: seq<Event>)
    ensures |es| == |vs|
    ensures forall i :: 0 <= i < |vs| ==> es[i] == VertexAdded(vs[i])
  {
    if vs == [] then [] else InitialEvents(vs[..|vs| - 1]) + [VertexAdded(vs[|vs| - 1])]
  }

  /** The number of edge_added notifications in `es`. */
  function EdgeAdds(es: seq<Event>): nat {
    if es == [] then 0 else EdgeAdds(es[..|es| - 1]) + (if es[|es| - 1].EdgeAdded? then 1 else 0)
  }

  /** The number of edge_removed notifications in `es`. */
  function EdgeRemovals(es: seq<Event>): nat {
    if es == [] then 0 else EdgeRemovals(es[..|es| - 1]) + (if es[|es| - 1].EdgeRemoved? then 1 else 0)
  }

  // ---------------------------------------------------------------------
  // Lemmas

  /** The edges' notifications come three per edge, in the order of the edges. */
  lemma {:induction false} EdgesAddedEventsAt(edges: seq<(Ref, Ref)>, i: nat)
    requires i < |edges|
    ensures |EdgesAddedEvents(edges)| == 3 * |edges|
    ensures EdgesAddedEvents(edges)[3 * i .. 3 * i + 3] == EdgeAddedEvents(edges[i].0, edges[i].1)
  {
    var front := edges[..|edges| - 1];
    if i < |edges| - 1 {
      EdgesAddedEventsAt(front, i);
      assert front[i] == edges[i];
    } else if front != [] {
      EdgesAddedEventsAt(front, 0);
    }
  }

  /** `add_edge` sends only edge_added and refresh notifications. */
  lemma {:induction false} EdgesAddedEventsKinds(edges: seq<(Ref, Ref)>)
    ensures forall e :: e in EdgesAddedEvents(edges) ==> e.EdgeAdded? || e.Refresh?
  {
    if edges != [] {
      EdgesAddedEventsKinds(edges[..|edges| - 1]);
    }
  }

  /**
   * A successful `add_vertex` announces the vertex first and once: every later
   * notification is about an edge, and there is one edge_added per recorded edge.
   */
  lemma AddVertexEventsOrder(vid: Vid, edges: seq<(Ref, Ref)>)
    ensures var es := AddVertexEvents(vid, edges);
      && es[0] == VertexAdded(vid)
      && (forall i :: 1 <= i < |es| ==> es[i].EdgeAdded? || es[i].Refresh?)
      && EdgeAdds(es) == |edges|
  {
    var es := AddVertexEvents(vid, edges);
    EdgesAddedEventsKinds(edges);
    forall i | 1 <= i < |es| ensures es[i].EdgeAdded? || es[i].Refresh? {
      assert es[i] in EdgesAddedEvents(edges);
    }
    EdgesAddedCount(edges);
    EdgeAddsAppend([VertexAdded(vid)], EdgesAddedEvents(edges));
  }

  lemma {:induction false} EdgesAddedCount(edges: seq<(Ref, Ref)>)
    ensures EdgeAdds(EdgesAddedEvents(edges)) == |edges|
  {
    if edges != [] {
      var last := edges[|edges| - 1];
      EdgesAddedCount(edges[..|edges| - 1]);
      EdgeAddedEventsCount(last.0, last.1);
      EdgeAddsAppend(EdgesAddedEvents(edges[..|edges| - 1]), EdgeAddedEvents(last.0, last.1));
    }
  }

  /** One `add_edge` sends one edge_added and no edge_removed. */
  lemma EdgeAddedEventsCount(src: Ref, tgt: Ref)
    ensures EdgeAdds(EdgeAddedEvents(src, tgt)) == 1 && EdgeRemovals(EdgeAddedEvents(src, tgt)) == 0
  {
    var a := [EdgeAdded(src, tgt)];
    assert a[..0] == [];
    assert EdgeAdds(a) == 1 && EdgeRemovals(a) == 0;
    var b := a + [Refresh(src)];
    assert b[..1] == a;
    assert EdgeAdds(b) == 1 && EdgeRemovals(b) == 0;
    var es := b + [Refresh(tgt)];
    assert es[..2] == b;
    assert es == EdgeAddedEvents(src, tgt);
  }

  /** Counting distributes over concatenation. */
  lemma {:induction false} EdgeAddsAppend(a: seq<Event>, b: seq<Event>)
    ensures EdgeAdds(a + b) == EdgeAdds(a) + EdgeAdds(b)
    ensures EdgeRemovals(a + b) == EdgeRemovals(a) + EdgeRemovals(b)
  {
    if b == [] {
      assert a + b == a;
    } else {
      assert (a + b)[..|a + b| - 1] == a + b[..|b| - 1];
      EdgeAddsAppend(a, b[..|b| - 1]);
    }
  }

  /** For the i-th former son: edge_removed, then the three notifications of add_edge(pid, son). */
  lemma {:induction false} ReparentEventsAt(v: Vid, pid: Ref, sons: seq<Vid>, i: nat)
    requires i < |sons|
    ensures |ReparentEvents(v, pid, sons)| == 4 * |sons|
    ensures ReparentEvents(v, pid, sons)[4 * i .. 4 * i + 4]
         == [EdgeRemoved(Some(v), Some(sons[i]))] + EdgeAddedEvents(pid, Some(sons[i]))
  {
    var front := sons[..|sons| - 1];
    var c := sons[|sons| - 1];
    var tail := [EdgeRemoved(Some(v), Some(c))] + EdgeAddedEvents(pid, Some(c));
    assert ReparentEvents(v, pid, sons) == ReparentEvents(v, pid, front) + tail;
    if i < |sons| - 1 {
      ReparentEventsAt(v, pid, front, i);
      assert front[i] == sons[i];
    } else {
      if front != [] {
        ReparentEventsAt(v, pid, front, 0);
      }
    }
  }

  /** Reparenting sends edge notifications only, one removal and one addition per son. */
  lemma {:induction false} ReparentEventsKinds(v: Vid, pid: Ref, sons: seq<Vid>)
    ensures forall e :: e in ReparentEvents(v, pid, sons) ==> e.EdgeAdded? || e.EdgeRemoved? || e.Refresh?
    ensures EdgeAdds(ReparentEvents(v, pid, sons)) == |sons|
    ensures EdgeRemovals(ReparentEvents(v, pid, sons)) == |sons|
  {
    if sons != [] {
      var c := sons[|sons| - 1];
      var front := ReparentEvents(v, pid, sons[..|sons| - 1]);
      ReparentEventsKinds(v, pid, sons[..|sons| - 1]);
      EdgeAddedEventsCount(pid, Some(c));
      assert EdgeAdds([EdgeRemoved(Some(v), Some(c))]) == 0 by {
        assert [EdgeRemoved(Some(v), Some(c))][..0] == [];
      }
      EdgeAddsAppend(front, [EdgeRemoved(Some(v), Some(c))]);
      EdgeAddsAppend(front + [EdgeRemoved(Some(v), Some(c))], EdgeAddedEvents(pid, Some(c)));
    }
  }

  /**
   * `remove_vertex(v)` first removes the edge from the parent, announces the
   * removal of `v` last and only there, and is balanced: one edge_added per
   * former son, and one edge_removed per former son plus the parent edge.
   */
  lemma RemoveVertexEventsOrder(v: Vid, pid: Ref, sons: seq<Vid>)
    ensures var es := RemoveVertexEvents(v, pid, sons);
      && es[0] == EdgeRemoved(pid, Some(v))
      && es[|es| - 1] == VertexRemoved(v)
      && (forall i :: 0 <= i < |es| - 1 ==> !es[i].VertexRemoved? && !es[i].VertexAdded?)
      && EdgeAdds(es) == |sons|
      && EdgeRemovals(es) == |sons| + 1
  {
    var es := RemoveVertexEvents(v, pid, sons);
    var mid := ReparentEvents(v, pid, sons);
    ReparentEventsKinds(v, pid, sons);
    forall i | 1 <= i < |es| - 1 ensures !es[i].VertexRemoved? && !es[i].VertexAdded? {
      assert es[i] == mid[i - 1];
      assert mid[i - 1] in mid;
    }
    EdgeAddsAppend([EdgeRemoved(pid, Some(v))], mid);
    EdgeAddsAppend([EdgeRemoved(pid, Some(v))] + mid, [VertexRemoved(v)]);
  }

  /**
   * When the library refuses the removal, what `remove_vertex(v)` has sent
   * holds edge notifications only, with the same balance as a completed
   * removal: one edge_added per former son, one edge_removed more.
   */
  lemma RemoveVertexNoticesKinds(v: Vid, pid: Ref, sons: seq<Vid>)
    ensures var es := RemoveVertexNotices(v, pid, sons);
      && es[0] == EdgeRemoved(pid, Some(v))
      && (forall i :: 0 <= i < |es| ==> !es[i].VertexRemoved? && !es[i].VertexAdded?)
      && EdgeAdds(es) == |sons|
      && EdgeRemovals(es) == |sons| + 1
  {
    var es := RemoveVertexNotices(v, pid, sons);
    var mid := ReparentEvents(v, pid, sons);
    ReparentEventsKinds(v, pid, sons);
    forall i | 1 <= i < |es| ensures !es[i].VertexRemoved? && !es[i].VertexAdded? {
      assert es[i] == mid[i - 1];
      assert mid[i - 1] in mid;
    }
    EdgeAddsAppend([EdgeRemoved(pid, Some(v))], mid);
  }

  /** The initial notifications announce each vertex of a duplicate-free list exactly once. */
  lemma InitialEventsOnce(vs: seq<Vid>)
    requires Distinct(vs)
    ensures var es := InitialEvents(vs);
      && (forall v :: VertexAdded(v) in es <==> v in vs)
      && (forall i, j :: 0 <= i < |es| && 0 <= j < |es| && es[i] == es[j] ==> i == j)
  {
    var es := InitialEvents(vs);
    forall v | VertexAdded(v) in es ensures v in vs {
      var i :| 0 <= i < |es| && es[i] == VertexAdded(v);
      assert vs[i] == v;
    }
    forall v | v in vs ensures VertexAdded(v) in es {
      var i :| 0 <= i < |vs| && vs[i] == v;
      assert es[i] == VertexAdded(v);
    }
  }
}
