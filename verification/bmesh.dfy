/**
 The edit-mode mesh of one object, as the add-on sees it through `bmesh`:
 vertex coordinates (local to the object), edges as pairs of vertex indices,
 a face count, the selected vertices, edges and faces, and the selection
 history. Elements are named by their index in `bm.verts`, `bm.edges` and
 `bm.faces`; iterating one of those lists visits indices in ascending order.

 Blender's propagation of selection between vertices, edges and faces is not
 modelled: each element's flag is exactly what the add-on last set.
 */
module BMesh {
  import opened Vectors
  import opened Wrappers

  /** An entry of `bm.select_history`. */
  datatype Elem = VertElem(v: nat) | EdgeElem(e: nat) | FaceElem(f: nat)

  datatype Edge = Edge(a: nat, b: nat)

  datatype Mesh = Mesh(
    co: seq<Vec>,
    edges: seq<Edge>,
    faceCount: nat,
    selVerts: set<nat>,
    selEdges: set<nat>,
    selFaces: set<nat>,
    history: seq<Elem>)

  /** Every index names an existing element. */
  predicate Valid(m: Mesh)
  {
    (forall e :: e in m.edges ==> e.a < |m.co| && e.b < |m.co|)
    && (forall v :: v in m.selVerts ==> v < |m.co|)
    && (forall e :: e in m.selEdges ==> e < |m.edges|)
    && (forall f :: f in m.selFaces ==> f < m.faceCount)
    && (forall h :: h in m.history ==> ElemExists(m, h))
  }

  predicate ElemExists(m: Mesh, h: Elem)
  {
    match h
    case VertElem(v) => v < |m.co|
    case EdgeElem(e) => e < |m.edges|
    case FaceElem(f) => f < m.faceCount
  }

  // ------------------------------------------------------------ queries

  /** The members of `s` below `n`, ascending: `[v for v in range(n) if v in s]`. */
  function Ascending(s: set<nat>, n: nat): (r: seq<nat>)
    ensures forall k :: 0 <= k < |r| ==> r[k] in s && r[k] < n
    ensures forall i :: i in s && i < n ==> i in r
    ensures forall j, k :: 0 <= j < k < |r| ==> r[j] < r[k]
    ensures |r| <= n
    ensures s == {} ==> r == []
  {
    if n == 0 then []
    else
      var rest := Ascending(s, n - 1);
      if n - 1 in s then rest + [n - 1] else rest
  }

  /** `[v for v in bm.verts if v.select]`. */
  function SelectedVerts(m: Mesh): (r: seq<nat>)
    ensures forall i :: i in r <==> i in m.selVerts && i < |m.co|
    ensures forall j, k :: 0 <= j < k < |r| ==> r[j] < r[k]
    ensures m.selVerts == {} ==> r == []
  {
    Ascending(m.selVerts, |m.co|)
  }

  /** `[e for e in bm.edges if e.select]`. */
  function SelectedEdges(m: Mesh): (r: seq<nat>)
    ensures forall i :: i in r <==> i in m.selEdges && i < |m.edges|
  {
    Ascending(m.selEdges, |m.edges|)
  }

  /** `[f for f in bm.faces if f.select]`. */
  function SelectedFaces(m: Mesh): (r: seq<nat>)
    ensures forall i :: i in r <==> i in m.selFaces && i < m.faceCount
  {
    Ascending(m.selFaces, m.faceCount)
  }

  /** `bm.select_history[-1 - k]`: the entry selected `k` steps before the newest. */
  function Newest(m: Mesh, k: nat): (h: Elem)
    requires k < |m.history|
    ensures h in m.history
    ensures Valid(m) ==> ElemExists(m, h)
  {
    m.history[|m.history| - 1 - k]
  }

  /** The vertices at the two ends of edge `e`. */
  function EdgeVerts(m: Mesh, e: nat): (r: (nat, nat))
    requires e < |m.edges|
    ensures r == (m.edges[e].a, m.edges[e].b)
  {
    (m.edges[e].a, m.edges[e].b)
  }

  /** Some edge already joins `a` and `b` (in either direction). */
  predicate Connected(m: Mesh, a: nat, b: nat)
  {
    exists k :: 0 <= k < |m.edges| && (m.edges[k] == Edge(a, b) || m.edges[k] == Edge(b, a))
  }

  // ------------------------------------------------------------ updates

  /** `bm.verts.new(p)`: a new, unselected vertex with the next index. */
  function AddVert(m: Mesh, p: Vec): (r: Mesh)
    ensures |r.co| == |m.co| + 1 && r.co[|m.co|] == p
    ensures r.co[..|m.co|] == m.co
    ensures r == m.(co := r.co)
    ensures Valid(m) ==> Valid(r)
  {
    m.(co := m.co + [p])
  }

  /**
   `bm.edges.new([a, b])`. Blender raises `ValueError` when an edge already
   joins the two vertices, or when both are the same vertex; that is `None`.
   */
  function AddEdge(m: Mesh, a: nat, b: nat): (r: Option<Mesh>)
    ensures r.None? <==> a == b || Connected(m, a, b)
    ensures r.Some? ==> r.value == m.(edges := m.edges + [Edge(a, b)])
    ensures r.Some? && Valid(m) && a < |m.co| && b < |m.co| ==> Valid(r.value)
  {
    if a == b || Connected(m, a, b) then None else Some(m.(edges := m.edges + [Edge(a, b)]))
  }

  /** `v.co = p`. */
  function SetCo(m: Mesh, i: nat, p: Vec): (r: Mesh)
    requires i < |m.co|
    ensures |r.co| == |m.co| && r.co[i] == p
    ensures forall j :: 0 <= j < |m.co| && j != i ==> r.co[j] == m.co[j]
    ensures r == m.(co := r.co)
    ensures Valid(m) ==> Valid(r)
  {
    m.(co := m.co[i := p])
  }

  /** `v.co = p` for every vertex in `vs`, in order. */
  function SetCoAll(m: Mesh, vs: seq<nat>, p: Vec): (r: Mesh)
    requires forall k :: 0 <= k < |vs| ==> vs[k] < |m.co|
    ensures |r.co| == |m.co|
    ensures forall j :: 0 <= j < |m.co| ==> r.co[j] == (if j in vs then p else m.co[j])
    ensures r == m.(co := r.co)
    decreases |vs|
    ensures Valid(m) ==> Valid(r)
  {
    if |vs| == 0 then m else SetCoAll(SetCo(m, vs[0], p), vs[1..], p)
  }

  /** `v.co = v.co + d` for every vertex in `vs` (distinct indices). */
  function TranslateAll(m: Mesh, vs: seq<nat>, d: Vec): (r: Mesh)
    requires forall k :: 0 <= k < |vs| ==> vs[k] < |m.co|
    requires forall j, k :: 0 <= j < k < |vs| ==> vs[j] != vs[k]
    ensures |r.co| == |m.co|
    ensures forall j :: 0 <= j < |m.co| ==> r.co[j] == (if j in vs then Add(m.co[j], d) else m.co[j])
    ensures r == m.(co := r.co)
    decreases |vs|
    ensures Valid(m) ==> Valid(r)
  {
    if |vs| == 0 then m
    else
      var m1 := SetCo(m, vs[0], Add(m.co[vs[0]], d));
      assert forall k :: 0 <= k < |vs[1..]| ==> vs[1..][k] != vs[0];
      TranslateAll(m1, vs[1..], d)
  }

  /** `v.select_set(b)` for vertex `v`. */
  function SelectVert(m: Mesh, v: nat, b: bool): (r: Mesh)
    ensures r.selVerts == if b then m.selVerts + {v} else m.selVerts - {v}
    ensures r == m.(selVerts := r.selVerts)
    ensures Valid(m) && (b ==> v < |m.co|) ==> Valid(r)
  {
    m.(selVerts := if b then m.selVerts + {v} else m.selVerts - {v})
  }

  /** `v.select_set(False)` for every vertex in `vs`. */
  function DeselectVerts(m: Mesh, vs: seq<nat>): (r: Mesh)
    ensures forall i :: i in r.selVerts <==> i in m.selVerts && i !in vs
    ensures r == m.(selVerts := r.selVerts)
    decreases |vs|
    ensures Valid(m) ==> Valid(r)
  {
    if |vs| == 0 then m else DeselectVerts(SelectVert(m, vs[0], false), vs[1..])
  }

  /** `bm.select_history.clear()`. */
  function ClearHistory(m: Mesh): (r: Mesh)
    ensures r.history == [] && r == m.(history := [])
    ensures Valid(m) ==> Valid(r)
  {
    m.(history := [])
  }

  /** Every face, edge and vertex deselected. */
  function DeselectAll(m: Mesh): (r: Mesh)
    ensures r.selVerts == {} && r.selEdges == {} && r.selFaces == {}
    ensures r.co == m.co && r.edges == m.edges && r.faceCount == m.faceCount && r.history == m.history
    ensures Valid(m) ==> Valid(r)
  {
    m.(selVerts := {}, selEdges := {}, selFaces := {})
  }
}
