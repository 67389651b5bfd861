/**
 * An abstract stand-in for the multiscale tree graph (MTG) of openalea that
 * the editor wraps. Only what the editor asks of the library is kept: the
 * vertices in creation order, the same-scale parent of each vertex, the edge
 * type stored by `add_child`, the complex of each vertex, the ordered
 * component roots of each complex, and the stored positions.
 */
module Mtg {
  import opened Wrappers

  /** Vertex identifiers are integers handed out by the graph's counter. */
  type Vid = int

  /** The four edge kinds of the editor: "<", "+", "/" and "\\". */
  datatype EdgeKind = Successor | Branch | Component | Complex

  /** A position in the scene, stored as the "position" property. */
  datatype Pos = Pos(x: real, y: real)

  datatype Tree = Tree(
    root: Vid,
    vertices: seq<Vid>,
    parent: map<Vid, Vid>,
    edgeType: map<Vid, EdgeKind>,
    complex: map<Vid, Vid>,
    components: map<Vid, seq<Vid>>,
    position: map<Vid, Pos>)

  ghost predicate Distinct(s: seq<Vid>) {
    forall i, j :: 0 <= i < j < |s| ==> s[i] != s[j]
  }

  /**
   * The structural invariant: every vertex is listed once and the root is one
   * of them; a vertex with a parent, and that parent, are vertices, and the
   * parent is always older (has a smaller id) than its child, so the parent
   * relation has no cycles; the complex of a vertex is a vertex. So no parent
   * or complex refers to a vertex that is gone.
   */
  ghost predicate Wf(t: Tree) {
    && Distinct(t.vertices)
    && t.root in t.vertices
    && (forall c :: c in t.parent ==> c in t.vertices && t.parent[c] in t.vertices && t.parent[c] < c)
    && (forall c :: c in t.complex ==> t.complex[c] in t.vertices)
  }

  /** Every identifier the graph mentions is at most `n`. */
  ghost predicate IdsAtMost(t: Tree, n: int) {
    && t.root <= n
    && (forall v :: v in t.vertices ==> v <= n)
    && (forall c :: c in t.complex ==> t.complex[c] <= n)
    && (forall c :: c in t.components ==> c <= n)
  }

  /** A fresh graph: the root 0 alone. */
  function Empty(): (t: Tree)
    ensures Wf(t) && IdsAtMost(t, 0) && t.vertices == [t.root]
  {
    Tree(0, [0], map[], map[], map[], map[], map[])
  }

  /** The elements of `s` that satisfy `keep`, in their order in `s`. */
  function Filter(s: seq<Vid>, keep: Vid -> bool): (r: seq<Vid>)
    ensures |r| <= |s|
    ensures forall x :: x in r <==> x in s && keep(x)
  {
    if s == [] then [] else (if keep(s[0]) then [s[0]] else []) + Filter(s[1..], keep)
  }

  function Without(s: seq<Vid>, v: Vid): seq<Vid> {
    Filter(s, x => x != v)
  }

  /** `g.parent(v)`: None for a vertex without a same-scale parent. */
  function ParentOf(t: Tree, v: Vid): Option<Vid> {
    if v in t.parent then Some(t.parent[v]) else None
  }

  /** `g.children(v)`: the sons of `v`, in creation order. */
  function Sons(t: Tree, v: Vid): seq<Vid> {
    Filter(t.vertices, c => c in t.parent && t.parent[c] == v)
  }

  /** `algo.sons(g, v, EdgeType=k)`: the sons of `v` whose stored edge type is `k`. */
  function SonsOfKind(t: Tree, v: Vid, k: EdgeKind): seq<Vid> {
    Filter(Sons(t, v), c => c in t.edgeType && t.edgeType[c] == k)
  }

  /** `g.complex(v)`: None for the root and the vertices at its scale. */
  function ComplexOf(t: Tree, v: Vid): Option<Vid> {
    if v in t.complex then Some(t.complex[v]) else None
  }

  /** `g.component_roots(c)`. */
  function ComponentRoots(t: Tree, c: Vid): seq<Vid> {
    if c in t.components then t.components[c] else []
  }

  function Store(m: map<Vid, Pos>, v: Vid, p: Option<Pos>): map<Vid, Pos> {
    if p.Some? then m[v := p.value] else m
  }

  /**
   * `g.add_child(p, child=c, ...)`: `c` becomes a new son of `p` at its
   * scale, inherits the complex of `p`, and records the edge type if given.
   */
  function AddChild(t: Tree, p: Vid, c: Vid, kind: Option<EdgeKind>, pos: Option<Pos>): Tree
    requires c !in t.vertices
  {
    t.(vertices := t.vertices + [c],
       parent := t.parent[c := p],
       edgeType := if kind.Some? then t.edgeType[c := kind.value] else t.edgeType,
       complex := if p in t.complex then t.complex[c := t.complex[p]] else t.complex,
       position := Store(t.position, c, pos))
  }

  /**
   * `g.add_component(cpx, component_id=x, ...)`: `x` (new, or already a
   * vertex) becomes the last component root of `cpx`.
   */
  function AddComponent(t: Tree, cpx: Vid, x: Vid, pos: Option<Pos>): Tree {
    t.(vertices := if x in t.vertices then t.vertices else t.vertices + [x],
       complex := t.complex[x := cpx],
       components := t.components[cpx := ComponentRoots(t, cpx) + [x]],
       position := Store(t.position, x, pos))
  }

  /**
   * `g.remove_vertex(v, reparent_child=True)`: `v` disappears and each of its
   * sons takes the parent of `v` (or has no parent, when `v` had none). The
   * components of `v` lose their complex, as `v`'s list of component roots goes.
   */
  function RemoveVertex(t: Tree, v: Vid): Tree {
    var p := ParentOf(t, v);
    t.(vertices := Without(t.vertices, v),
       parent := map c | c in t.parent && c != v && (t.parent[c] != v || p.Some?) ::
                   if t.parent[c] == v then p.value else t.parent[c],
       edgeType := t.edgeType - {v},
       complex := map c | c in t.complex && c != v && t.complex[c] != v :: t.complex[c],
       components := map c | c in t.components && c != v :: Without(t.components[c], v),
       position := t.position - {v})
  }

  /**
   * Whether the library's `remove_vertex` accepts `v`: it refuses a vertex it
   * does not hold, and the root, which new top-level vertices hang from.
   */
  predicate Removable(t: Tree, v: Vid) {
    v in t.vertices && v != t.root
  }

  // ---------------------------------------------------------------------
  // Lemmas about the library stand-in

  lemma {:induction false} FilterDistinct(s: seq<Vid>, keep: Vid -> bool)
    requires Distinct(s)
    ensures Distinct(Filter(s, keep))
  {
    if s != [] {
      FilterDistinct(s[1..], keep);
      var rest := Filter(s[1..], keep);
      assert s[0] !in s[1..] by {
        forall j | 0 <= j < |s[1..]| ensures s[1..][j] != s[0] { assert s[1..][j] == s[j + 1]; }
      }
      assert s[0] !in rest;
    }
  }

  lemma ConcatAssoc(a: seq<Vid>, b: seq<Vid>, c: seq<Vid>)
    ensures a + (b + c) == (a + b) + c
  {
  }

  /** A filter that keeps no element of `s` is empty. */
  lemma {:induction false} FilterNone(s: seq<Vid>, keep: Vid -> bool)
    requires forall i :: 0 <= i < |s| ==> !keep(s[i])
    ensures Filter(s, keep) == []
  {
    if s != [] {
      assert forall i :: 0 <= i < |s[1..]| ==> s[1..][i] == s[i + 1];
      FilterNone(s[1..], keep);
    }
  }

  /** A vertex that is not in the graph has no parent and no sons. */
  lemma AbsentHasNoFamily(t: Tree, v: Vid)
    requires Wf(t) && v !in t.vertices
    ensures ParentOf(t, v) == None && Sons(t, v) == []
  {
    FilterNone(t.vertices, c => c in t.parent && t.parent[c] == v);
  }

  /** Appending a fresh element to the input of a filter whose test agrees on the old elements. */
  lemma {:induction false} FilterSnoc(s: seq<Vid>, c: Vid, keep: Vid -> bool, keep0: Vid -> bool)
    requires forall i :: 0 <= i < |s| ==> keep(s[i]) == keep0(s[i])
    ensures Filter(s + [c], keep) == Filter(s, keep0) + (if keep(c) then [c] else [])
  {
    var tail := if keep(c) then [c] else [];
    if s == [] {
      assert [c][1..] == [];
    } else {
      var head := if keep0(s[0]) then [s[0]] else [];
      assert (s + [c])[0] == s[0] && (s + [c])[1..] == s[1..] + [c];
      assert Filter(s + [c], keep) == head + Filter(s[1..] + [c], keep);
      assert Filter(s, keep0) == head + Filter(s[1..], keep0);
      assert forall i :: 0 <= i < |s[1..]| ==> s[1..][i] == s[i + 1];
      FilterSnoc(s[1..], c, keep, keep0);
      ConcatAssoc(head, Filter(s[1..], keep0), tail);
    }
  }

  /** A filter that keeps the same elements of `s` gives the same result. */
  lemma {:induction false} FilterSame(s: seq<Vid>, keep: Vid -> bool, keep0: Vid -> bool)
    requires forall i :: 0 <= i < |s| ==> keep(s[i]) == keep0(s[i])
    ensures Filter(s, keep) == Filter(s, keep0)
  {
    if s != [] {
      assert forall i :: 0 <= i < |s[1..]| ==> s[1..][i] == s[i + 1];
      FilterSame(s[1..], keep, keep0);
    }
  }

  /** `add_child` appends the new vertex to the sons of its parent and to no other sons. */
  lemma AddChildAppendsSon(t: Tree, p: Vid, c: Vid, kind: Option<EdgeKind>, pos: Option<Pos>, u: Vid)
    requires Wf(t) && c !in t.vertices
    ensures Sons(AddChild(t, p, c, kind, pos), u) == Sons(t, u) + (if u == p then [c] else [])
  {
    var r := AddChild(t, p, c, kind, pos);
    FilterSnoc(t.vertices, c, x => x in r.parent && r.parent[x] == u, x => x in t.parent && t.parent[x] == u);
  }

  /** A `+` or `<` son added by `add_child` is counted among the sons of that kind. */
  lemma AddChildCountsKind(t: Tree, p: Vid, c: Vid, k: EdgeKind, pos: Option<Pos>)
    requires Wf(t) && c !in t.vertices
    ensures var r := AddChild(t, p, c, Some(k), pos);
      SonsOfKind(r, p, k) == SonsOfKind(t, p, k) + [c]
  {
    var r := AddChild(t, p, c, Some(k), pos);
    AddChildAppendsSon(t, p, c, Some(k), pos, p);
    assert Sons(r, p) == Sons(t, p) + [c];
    FilterSnoc(Sons(t, p), c, x => x in r.edgeType && r.edgeType[x] == k, x => x in t.edgeType && t.edgeType[x] == k);
  }

  /** A son with an identifier above all others, under a vertex, keeps the invariant. */
  lemma AddChildKeepsWf(t: Tree, p: Vid, c: Vid, kind: Option<EdgeKind>, pos: Option<Pos>)
    requires Wf(t) && IdsAtMost(t, c - 1) && p in t.vertices
    ensures c !in t.vertices
    ensures Wf(AddChild(t, p, c, kind, pos)) && IdsAtMost(AddChild(t, p, c, kind, pos), c)
  {
    var r := AddChild(t, p, c, kind, pos);
    forall i, j | 0 <= i < j < |r.vertices| ensures r.vertices[i] != r.vertices[j] {
      if j == |t.vertices| { assert t.vertices[i] in t.vertices; }
    }
  }

  /** A component root, new or not, added to a vertex keeps the invariant and the bound. */
  lemma AddComponentKeepsWf(t: Tree, cpx: Vid, x: Vid, pos: Option<Pos>, n: int)
    requires Wf(t) && IdsAtMost(t, n) && cpx in t.vertices && x <= n
    ensures Wf(AddComponent(t, cpx, x, pos)) && IdsAtMost(AddComponent(t, cpx, x, pos), n)
  {
    var r := AddComponent(t, cpx, x, pos);
    forall i, j | 0 <= i < j < |r.vertices| ensures r.vertices[i] != r.vertices[j] {
      if j == |t.vertices| { assert t.vertices[i] in t.vertices; }
    }
  }

  /**
   * `remove_vertex(v, reparent_child=True)`: afterwards `v` is gone, no other
   * vertex is lost, every former son of `v` has the former parent of `v`,
   * every other vertex keeps its parent, and no vertex is left with `v` as
   * its parent or its complex.
   */
  lemma RemoveVertexReparents(t: Tree, v: Vid)
    requires Wf(t)
    ensures var r := RemoveVertex(t, v);
      && v !in r.vertices
      && (forall u :: u in t.vertices && u != v ==> u in r.vertices)
      && (forall c :: c in Sons(t, v) ==> ParentOf(r, c) == ParentOf(t, v))
      && (forall c :: c in t.vertices && c != v && c !in Sons(t, v) ==> ParentOf(r, c) == ParentOf(t, c))
      && (forall c :: c in r.parent ==> r.parent[c] != v)
      && (forall c :: c in r.complex ==> r.complex[c] != v)
  {
    var r := RemoveVertex(t, v);
    forall c | c in r.parent ensures r.parent[c] != v {
      if t.parent[c] == v {
        assert v in t.parent;
      }
    }
  }

  /** Removing a vertex other than the root keeps the invariant and the identifier bound. */
  lemma RemoveVertexKeepsWf(t: Tree, v: Vid, n: int)
    requires Wf(t) && IdsAtMost(t, n) && v != t.root
    ensures Wf(RemoveVertex(t, v)) && IdsAtMost(RemoveVertex(t, v), n)
  {
    var r := RemoveVertex(t, v);
    FilterDistinct(t.vertices, x => x != v);
    forall c | c in r.parent ensures c in r.vertices && r.parent[c] in r.vertices && r.parent[c] < c {
      if t.parent[c] == v {
        assert v in t.parent;
      }
    }
    forall k | k in r.complex ensures r.complex[k] <= n && r.complex[k] in r.vertices {
      assert k in t.complex;
    }
  }
}
