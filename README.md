# MTG editor core in Dafny

A model of the editing core of the openalea multiscale tree graph (MTG) editor:

- `ObservableMTG`, the adapter that changes the MTG and sends a notification
  to its listeners for every change.
- The rule by which a graphical vertex places a new child, and refuses a
  second successor.
- The key mapping of the vertex.
- The initial notifications that build a view from an existing graph.

The library MTG is replaced by an abstract tree of values (module `Mtg`). The
listeners are replaced by the log of the notifications sent so far (field
`log` of `Observable.ObservableMtg`). The graph's identifier counter `_id`
is the field `lastId`.

Files:

- `wrappers.dfy`: `Option`, for the places where the code passes `None`.
- `mtg.dfy`: the stand-in for the library. Its parts:
  - the vertices in creation order;
  - the same-scale parent of each vertex;
  - the edge type stored by `add_child`;
  - the complex of each vertex;
  - the ordered component roots of each complex;
  - the stored positions.
  It has `add_child`, `add_component`, `remove_vertex(reparent_child=True)` and
  the queries as functions. The invariant `Wf` has four parts:
  - every vertex is listed once;
  - the root is a vertex;
  - a parent is a vertex older than its child, so the parent relation has no cycles;
  - a complex is a vertex.
  So no parent or complex refers to a removed vertex.
- `events.dfy`: the notification type and the sequence each operation sends.
  Lemmas give the order and the balance of these sequences.
- `observable_mtg.dfy`: the class `ObservableMtg` with `new_vertex`,
  `add_vertex`, `remove_vertex`, `add_edge` and `remove_edge` as methods.
  `AddVertexPlan` is the dispatch of `add_vertex` on the four edge kinds,
  written as a function.
- `layout.dfy`: the branch angle and the placement rule of `Vertex.add_child`.
- `editor.dfy`: the key mapping, `Vertex.add_child`, `Vertex.keyPressEvent` and
  `initialise_graph_view_from_model`.
- `scenarios.dfy`: editing sessions proved from the contracts alone, with small lemmas computing the graphs they pass through:
  - A second "<" son is refused. The graph keeps the vertex and its one successor.
  - "\\" on a vertex that was just added as a "/" component is a no-op that gives
    its identifier back. The vertex is already the component root of its
    complex (mtg_editor.py:65-68). So no new complex vertex appears, even though
    the placement rule would put one at (0, 0). The model follows the code.
  - Removing a vertex that has a "/" component takes the complex away from
    that component, so a later "\\" on it cannot make a son of the removed vertex.

## Model

| member | source | states |
|---|---|---|
| `Mtg.Empty` | newmtg/src/mtg/gui/mtg_editor.py:40 | the adapter starts on a graph holding only the root 0; it is well formed and uses no identifier above 0 |
| `Mtg.Filter` | newmtg/src/mtg/gui/mtg_editor.py:84 | the kept elements of a list, in order: an element is in the result iff it is in the list and passes the test |
| `Mtg.ParentOf` | newmtg/src/mtg/gui/mtg_editor.py:83 | stands for `g.parent(v)`: the stored same-scale parent, or None |
| `Mtg.Sons` | newmtg/src/mtg/gui/mtg_editor.py:84 | stands for `g.children(v)`: the vertices whose parent is v, in creation order |
| `Mtg.SonsOfKind` | newmtg/src/mtg/gui/mtg_editor.py:185-190 | stands for `algo.sons(g, v, EdgeType=k)`: the sons of v whose stored edge type is k, in order |
| `Mtg.ComplexOf` | newmtg/src/mtg/gui/mtg_editor.py:65 | stands for `g.complex(pid)`: the stored complex, or None for a vertex at the root's scale |
| `Mtg.ComponentRoots` | newmtg/src/mtg/gui/mtg_editor.py:66 | stands for `g.component_roots(cpx)`: the stored ordered list, empty when none was stored |
| `Mtg.AddChild` | newmtg/src/mtg/gui/mtg_editor.py:59 | stands for `g.add_child(p, child=c, ...)`, as called here and at line 70, returning `c`: c is appended to the vertices with parent p, the given edge type, the complex of p and the given position; its properties are `AddChildAppendsSon`, `AddChildCountsKind` and `AddChildKeepsWf` |
| `Mtg.AddComponent` | newmtg/src/mtg/gui/mtg_editor.py:55 | stands for `g.add_component(cpx, component_id=x, ...)`, as called here and at lines 62 and 71, returning `x`: x becomes a vertex if new, gets complex cpx and is appended to the component roots of cpx; its property is `AddComponentKeepsWf` |
| `Mtg.RemoveVertex` | newmtg/src/mtg/gui/mtg_editor.py:89 | stands for `g.remove_vertex(v, reparent_child=True)`: v leaves the vertices and all maps, its sons take its parent, and vertices whose complex was v lose their complex; its properties are `RemoveVertexReparents` and `RemoveVertexKeepsWf` |
| `Mtg.Removable` | newmtg/src/mtg/gui/mtg_editor.py:89 | the library call accepts exactly a vertex of the graph other than the root |
| `Mtg.AbsentHasNoFamily` | newmtg/src/mtg/gui/mtg_editor.py:83-84 | in a well-formed graph, a vertex that is not there has no parent and no sons, so `remove_vertex` of it sends one edge_removed(None, v) |
| `Mtg.AddChildAppendsSon` | newmtg/src/mtg/gui/mtg_editor.py:59 | `add_child(p, child=c)` with a new `c` makes `c` the last son of `p` and changes the sons of no other vertex |
| `Mtg.AddChildCountsKind` | newmtg/src/mtg/gui/mtg_editor.py:185-190 | after `add_child` with edge type k, `algo.sons(p, EdgeType=k)` has grown by exactly the new vertex |
| `Mtg.AddChildKeepsWf` | newmtg/src/mtg/gui/mtg_editor.py:59 | adding, under a vertex, a son with an identifier above all others keeps the invariant (each vertex listed once, the root a vertex, parents and complexes vertices, parents older) and the bound |
| `Mtg.AddComponentKeepsWf` | newmtg/src/mtg/gui/mtg_editor.py:55 | `add_component` with a vertex as the complex keeps the graph well formed and introduces no identifier above the bound |
| `Mtg.RemoveVertexReparents` | newmtg/src/mtg/gui/mtg_editor.py:89 | `remove_vertex(v, reparent_child=True)`: `v` is gone; no other vertex is lost; each former son of `v` has the former parent of `v`; every other vertex keeps its parent; no parent and no complex points to `v`, so no later operation can refer to `v` |
| `Mtg.RemoveVertexKeepsWf` | newmtg/src/mtg/gui/mtg_editor.py:89 | removing a vertex other than the root keeps the invariant (each vertex listed once, the root a vertex, parents and complexes vertices, parents older) and the identifier bound |
| `Events.EdgeAddedEvents` | newmtg/src/mtg/gui/mtg_editor.py:92-97 | what one `add_edge(src, tgt)` sends: edge_added(src, tgt), refresh(src), refresh(tgt) |
| `Events.EdgesAddedEvents` | newmtg/src/mtg/gui/mtg_editor.py:78-79 | what the loop over the recorded edges sends: the add_edge notifications of each edge, in order; its properties are `EdgesAddedEventsAt` and `EdgesAddedEventsKinds` |
| `Events.AddVertexEvents` | newmtg/src/mtg/gui/mtg_editor.py:76-79 | what a successful `add_vertex` sends: vertex_added(vid), then the add_edge notifications of the recorded edges; its property is `AddVertexEventsOrder` |
| `Events.ReparentEvents` | newmtg/src/mtg/gui/mtg_editor.py:86-88 | what the reparenting loop sends: per former son c, edge_removed(v, c) then the add_edge notifications of (pid, c); its properties are `ReparentEventsAt` and `ReparentEventsKinds` |
| `Events.RemoveVertexNotices` | newmtg/src/mtg/gui/mtg_editor.py:85-88 | what `remove_vertex` sends before it calls the library: edge_removed(pid, v), then the reparenting notifications |
| `Events.RemoveVertexEvents` | newmtg/src/mtg/gui/mtg_editor.py:85-90 | what a completed `remove_vertex` sends: the notices above, then vertex_removed(v); its property is `RemoveVertexEventsOrder` |
| `Events.EdgesAddedEventsAt` | newmtg/src/mtg/gui/mtg_editor.py:78-79 | the loop over the recorded edges sends three notifications per edge, edge_added, refresh(src), refresh(tgt), in the order of the edges |
| `Events.EdgesAddedEventsKinds` | newmtg/src/mtg/gui/mtg_editor.py:92-97 | `add_edge` sends edge_added and refresh notifications only |
| `Events.AddVertexEventsOrder` | newmtg/src/mtg/gui/mtg_editor.py:76-79 | a successful `add_vertex` sends vertex_added(vid) first and only there; all later notifications are edge notifications; there is one edge_added per recorded edge |
| `Events.ReparentEventsAt` | newmtg/src/mtg/gui/mtg_editor.py:86-88 | for the i-th former son c, `remove_vertex` sends edge_removed(v, c), then edge_added(pid, c), refresh(pid), refresh(c) |
| `Events.ReparentEventsKinds` | newmtg/src/mtg/gui/mtg_editor.py:86-88 | the reparenting loop sends edge notifications only, one edge_added and one edge_removed per former son |
| `Events.RemoveVertexEventsOrder` | newmtg/src/mtg/gui/mtg_editor.py:81-90 | `remove_vertex` first sends edge_removed(pid, v) and last vertex_removed(v); no vertex notification comes in between; edge_added count equals the number of sons; edge_removed count is one more |
| `Events.RemoveVertexNoticesKinds` | newmtg/src/mtg/gui/mtg_editor.py:85-88 | when the library refuses the removal, what was sent is edge notifications only, starting with edge_removed(pid, v): vertex_removed is not among them; one edge_added per former son, one edge_removed more |
| `Events.InitialEvents` | newmtg/src/mtg/gui/mtg_editor.py:349-350 | the i-th initial notification is vertex_added of the i-th vertex, one per vertex |
| `Events.InitialEventsOnce` | newmtg/src/mtg/gui/mtg_editor.py:349-350 | over a graph whose vertices are listed once, each vertex is announced exactly once and nothing else is announced |
| `Observable.AddVertexPlan` | newmtg/src/mtg/gui/mtg_editor.py:54-73 | the dispatch of `add_vertex` as a value: the graph it leaves and the edges it records on success, the reclaiming no-op, or the failing complex lookup; its properties are `AddVertexPlanKeepsWf` and `AddVertexPlanPlaces` |
| `Observable.ComplexWithoutComplexFails` | newmtg/src/mtg/gui/mtg_editor.py:65 | "\\" under a vertex without a complex is the failing lookup in any graph |
| `Observable.AddVertexPlanKeepsWf` | newmtg/src/mtg/gui/mtg_editor.py:54-73 | every way `add_vertex` can change the graph keeps it well formed and uses no identifier above `vid` |
| `Observable.AddVertexPlanKeepsOld` | newmtg/src/mtg/gui/mtg_editor.py:54-73 | whatever `add_vertex` attaches, the vertices before stay, in order, the new vertex is among the vertices, and it gets the given position |
| `Observable.AddVertexPlanTopLevel` | newmtg/src/mtg/gui/mtg_editor.py:54-56 | without a parent, the new vertex is the last component root of the root, and the call always attaches |
| `Observable.AddVertexPlanSon` | newmtg/src/mtg/gui/mtg_editor.py:58-60 | "<" or "+": the new vertex is the last son of pid, has pid as parent, and is counted among pid's sons of that kind |
| `Observable.AddVertexPlanComponent` | newmtg/src/mtg/gui/mtg_editor.py:61-63 | "/": the new vertex is the last component root of pid and has pid as complex |
| `Observable.AddVertexPlanComplex` | newmtg/src/mtg/gui/mtg_editor.py:64-73 | "\\": fails iff pid has no complex; is the no-op iff pid is already a component root of its complex; otherwise vid is a son of that complex, and pid, now the only component root of vid, has vid as complex |
| `Observable.ObservableMtg.constructor` | newmtg/src/mtg/gui/mtg_editor.py:37-40 | a new adapter holds a fresh MTG, counter 0, and has sent nothing |
| `Observable.ObservableMtg.Notify` | newmtg/src/mtg/gui/mtg_editor.py:95-97 | stands for `notify_listeners(event)`, as called here and at lines 76, 90 and 101: appends exactly that event to the log and changes neither the graph nor the counter |
| `Observable.ObservableMtg.AddEdge` | newmtg/src/mtg/gui/mtg_editor.py:92-97 | sends exactly edge_added(src, tgt), refresh(src), refresh(tgt), in that order, and changes neither the graph nor the counter |
| `Observable.ObservableMtg.RemoveEdge` | newmtg/src/mtg/gui/mtg_editor.py:99-101 | sends exactly edge_removed(src, tgt) and changes nothing else |
| `Observable.ObservableMtg.AddVertex` | newmtg/src/mtg/gui/mtg_editor.py:48-79 | on success, the graph becomes the planned one, the counter is unchanged, and the log grows by vertex_added(vid) then the add_edge notifications of the recorded edges: (root, vid); (pid, vid) for "<", "+", "/"; (cpx, vid) then (vid, pid) for "\\". The complex no-op decrements the counter and leaves graph and log unchanged. A raising complex lookup leaves everything unchanged |
| `Observable.ObservableMtg.NotifyAdded` | newmtg/src/mtg/gui/mtg_editor.py:76-79 | the log grows by exactly vertex_added(vid) followed by the add_edge notifications of the recorded edges, in order; graph and counter unchanged |
| `Observable.ObservableMtg.NewVertex` | newmtg/src/mtg/gui/mtg_editor.py:42-46 | increments the counter by one, returns the new value, which is above every vertex, and passes it to `add_vertex`. After a complex no-op the counter is back at its old value. The invariant is kept |
| `Observable.ObservableMtg.RemoveVertex` | newmtg/src/mtg/gui/mtg_editor.py:81-90 | returns whether the library accepted the removal (v a vertex other than the root). If it did, the log grows by edge_removed(pid, v), then per former son edge_removed(v, c) and add_edge(pid, c), then vertex_removed(v); the graph is the library's reparenting removal; `v` is absent, every former son has parent pid, and no parent or complex points to `v`. If it refused, the graph is unchanged and the log holds the notifications sent before the library call but no vertex_removed; for an absent `v` that is one edge_removed(None, v). The counter and the invariant are kept either way |
| `Observable.ObservableMtg.NotifyReparented` | newmtg/src/mtg/gui/mtg_editor.py:86-88 | for each former son c in order, the log grows by edge_removed(v, c) and the add_edge notifications of (pid, c); graph and counter unchanged |
| `Layout.BranchAngle` | newmtg/src/mtg/gui/mtg_editor.py:188-192 | the angle of a new "+" son is a multiple of 30 from -60 up, never 0, and negative exactly for the first two "+" sons |
| `Layout.BranchAnglesIncrease` | newmtg/src/mtg/gui/mtg_editor.py:191-192 | later "+" sons get strictly larger angles. The step is 30 degrees, or 60 across the skipped 0 |
| `Layout.Place` | newmtg/src/mtg/gui/mtg_editor.py:177-197 | refuses exactly a "<" child when a "<" son exists. "<" and "+" move up by 40; "<" keeps x; "+" shifts x by the offset of its branch angle. "/" moves right by 200 and "\\" left by 200, both keeping y |
| `Layout.PlaceCommutesWithShift` | newmtg/src/mtg/gui/mtg_editor.py:177-197 | the placement depends on the parent position only through offsets: moving the parent moves the placed child alike |
| `Layout.ComplexUndoesComponent` | newmtg/src/mtg/gui/mtg_editor.py:194-197 | placing a complex from a component placed from p lands back on p |
| `Editor.KeyCode` | newmtg/src/mtg/gui/mtg_editor.py:219-231 | the Qt key code each action is bound to: "<", "+", "/", "\\" and Delete; `KeyAction` inverts it |
| `Editor.KeyAction` | newmtg/src/mtg/gui/mtg_editor.py:215-234 | a key is mapped to the action whose key code it is. The five keys are "<", "+", "/", "\\" and Delete. Every other key is ignored |
| `Editor.KeyActionRoundTrip` | newmtg/src/mtg/gui/mtg_editor.py:219-232 | each action's key maps back to that action |
| `Editor.VertexAddChild` | newmtg/src/mtg/gui/mtg_editor.py:172-199 | without a stored position nothing changes. A second "<" son is refused with graph, counter and log unchanged. Otherwise `new_vertex` runs with parent v, the edge kind and the placed position, with the effect stated for `NewVertex` |
| `Editor.SecondSuccessorRefused` | newmtg/src/mtg/gui/mtg_editor.py:184-187 | once a "<" son has been added to v, any further "<" request on v is refused |
| `Editor.VertexKeyPress` | newmtg/src/mtg/gui/mtg_editor.py:215-239 | an ignored key changes nothing. Delete performs `remove_vertex(v)` with its notifications; on the root the library refuses and only the edge notifications are sent. An edge key performs `add_child` with that kind |
| `Editor.InitialiseGraphView` | newmtg/src/mtg/gui/mtg_editor.py:347-350 | appends vertex_added(v) for each vertex in order and changes neither graph nor counter |
| `Scenarios.DropPlan` | newmtg/src/mtg/gui/mtg_editor.py:54-56 | a vertex 1 dropped on a fresh canvas becomes a component root of the root 0, announced with the one edge (0, 1), and keeps its position |
| `Scenarios.SuccessorPlan` | newmtg/src/mtg/gui/mtg_editor.py:177-199 | the first "<" son of a vertex at (0, 0) is placed at (0, -40) and `add_vertex` attaches it as a son with the one edge (1, 2) |
| `Scenarios.SuccessorStored` | newmtg/src/mtg/gui/mtg_editor.py:59 | after that son, the vertices are 0, 1, 2 and the son is stored at (0, -40) |
| `Scenarios.SuccessorCounted` | newmtg/src/mtg/gui/mtg_editor.py:185-186 | after that son, vertex 1 has exactly one "<" son, the new one |
| `Scenarios.DropWithSuccessor` | newmtg/src/mtg/gui/mtg_editor.py:42-79 | a drop then a "<" request through the adapter give vertices 0, 1, 2, counter 2, and one successor 2 of vertex 1 at (0, -40) |
| `Scenarios.ComponentPlan` | newmtg/src/mtg/gui/mtg_editor.py:194-195 | the first "/" component of a vertex at (0, 0) is placed at (200, 0) and `add_vertex` attaches it as a component with the one edge (1, 2) |
| `Scenarios.ComponentStored` | newmtg/src/mtg/gui/mtg_editor.py:61 | after that component, the vertices are 0, 1, 2; the component sits at (200, 0), has complex 1, and is the only component root of 1 |
| `Scenarios.DropWithComponent` | newmtg/src/mtg/gui/mtg_editor.py:42-79 | a drop then a "/" request through the adapter give vertices 0, 1, 2 and counter 2. The component sits at (200, 0) and is the component root of vertex 1 |
| `Scenarios.WithoutComplexVertices` | newmtg/src/mtg/gui/mtg_editor.py:89 | removing vertex 1 after its "/" component 2 leaves the vertices 0 and 2 |
| `Scenarios.WithoutComplexForgotten` | newmtg/src/mtg/gui/mtg_editor.py:89 | after that removal, vertex 2 has no complex and the removed 1 has no component roots |
| `Scenarios.RemovedComplexRefused` | newmtg/src/mtg/gui/mtg_editor.py:64-73 | after that removal, "\\" on vertex 2 is the failing complex lookup: no son of the removed vertex can appear |

## Left out

- The floating-point x offset `sin(radians(angle)) * 80` of a "+" son is the parameter `dx` of `Layout.Place`. The model gives the integer angle exactly but not the sine.
- Listeners are a log. The observer machinery, and listeners that change the graph again from inside a notification, are not modelled. The order of the log is the order in which the code sends the notifications.
- The notification payloads' constant tags ("vertex", "default", the edge tuple) are dropped. Each notification keeps its kind and its vertices.
- The library's internals are not visible: scale computation, the real meaning of `complex` and `component_roots`, and property storage. `Mtg` gives them simple abstract meanings:
  - children are listed in creation order;
  - a son inherits the complex of its parent;
  - `add_component` appends to an explicit list of component roots;
  - removal reparents sons, drops the removed vertex from the component lists, and takes the complex away from its components.
- `Observable.ObservableMtg.AddVertex`: "\\" on a vertex without a complex (the root, or a vertex at the root's scale) is modelled as the library raising (outcome `Failed`). The counter stays incremented and nothing else changes. What the library really does there is not visible.
- `Observable.ObservableMtg.AddVertex`: requires `vid` not to be a vertex yet. It is only reached from `new_vertex`, which has just advanced the counter above every identifier in use. `NewVertex` also requires a given parent to be a vertex of the graph, since it is a displayed vertex. The library's behaviour on a reused identifier or an unknown parent is not visible. That the graph stays well formed is stated about the plan (`AddVertexPlanKeepsWf`) and used by `NewVertex`.
- Positions are exact reals, but the code computes them in floating point (mtg_editor.py:177-197). The contracts of `Layout.Place` agree with the code up to rounding only.
- `Layout.PlaceCommutesWithShift`: holds of the model's exact arithmetic. In floating point, moving the parent and then placing can differ from placing and then moving by rounding.
- `Layout.ComplexUndoesComponent`: holds of the model's exact arithmetic. In floating point, (x + 200) - 200 need not be x: for x = 0.1 it is 0.09999999999999432.
- `Observable.ObservableMtg.RemoveVertex`: the library's `remove_vertex` is not visible. The model lets it refuse a vertex that is not in the graph, and the root, since the root is where new top-level vertices hang. A refusal is an outcome (`removed` false), not an exception. In the code the refusal interrupts `remove_vertex` after the edge notifications of lines 85-88 and before vertex_removed; the model gives exactly that log with an unchanged graph.
- Edge types are the four kinds. The code sends any other edge-type string to the complex branch, but its only callers pass one of the four.
- `Editor.VertexAddChild`: requires `v` to be a vertex of the graph, because the code only runs it from a displayed vertex. A missing position makes the code raise before anything changes; the model returns `NoPosition` with nothing changed.
- The HSV colour from the scale, `default_position` (random), focus, selection and labels, and `notify`/`notify_position_change` are Qt presentation.
- `MtgView` (copy/cut/paste/delete stubs, the mouse handlers) is GUI plumbing. Its `dropHandler` only calls `new_vertex(position=...)`, which is `NewVertex` with no parent. `Vertex.mouseDoubleClickEvent` is `add_child()` with the default "<".
- The `GraphicalMtgFactory` wiring, the `__main__` application, the `print` statements and the empty `Vertex.add_component` carry no behaviour.
