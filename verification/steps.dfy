/**
 Closing steps the command line and the placement operators share: what is
 left after a subdivision, a new vertex joined to the newest entry of the
 selection history, and that entry moved.
 */
module Steps {
  import opened Vectors
  import opened Wrappers
  import BMesh
  import Edits
  import W = World

  /**
   After `bmesh.ops.subdivide_edges`: the call logged, every vertex selected
   before it deselected, the history cleared. What the subdivision itself does
   to the mesh is the host's business.
   */
  function Subdivided(w: W.World, call: W.HostCall): (r: W.World)
    requires W.ValidWorld(w) && w.active.Some?
    ensures W.ValidWorld(r)
    ensures r.host == w.host + [call]
    ensures r.scene == w.scene && r.reports == w.reports && r.selected == w.selected && r.active == w.active
    ensures var before := W.Active(w).value.mesh;
      W.Active(r) == Some(W.Active(w).value.(mesh := before.(selVerts := {}, history := [])))
  {
    var m := W.Active(w).value.mesh;
    var m1 := BMesh.DeselectVerts(m, BMesh.SelectedVerts(m));
    assert m1.selVerts == {};
    W.CallHost(W.SetActiveMesh(w, BMesh.ClearHistory(m1)), call)
  }

  /**
   The outcome of a step on the newest history entry: the mesh it leaves,
   and the exception if it raised part way.
   */
  datatype Joined = Joined(mesh: BMesh.Mesh) | JoinFault(fault: W.Fault, mesh: BMesh.Mesh)

  /**
   `nVert = bm.verts.new(p)`, `bm.edges.new([bm.select_history[-1], nVert])`,
   and, when `select` is set, `nVert.select_set(True)`. An empty history
   raises `IndexError`; an edge or a face as the newest entry makes
   `edges.new` raise `TypeError`. Either way the new vertex is already
   there, joined to nothing and not selected.
   */
  function JoinToNewest(m: BMesh.Mesh, p: Vec, select: bool): (r: Joined)
    requires BMesh.Valid(m)
    ensures |m.history| == 0 <==> r.JoinFault? && r.fault == W.IndexFault
    ensures r.JoinFault? && |m.history| > 0 ==> r.fault == W.TypeFault
    ensures r.Joined? <==> |m.history| > 0 && BMesh.Newest(m, 0).VertElem?
    ensures BMesh.Valid(r.mesh) && r.mesh.co == m.co + [p]
    ensures r.JoinFault? ==> r.mesh == m.(co := m.co + [p])
    ensures r.Joined? ==> r.mesh.edges == m.edges + [BMesh.Edge(BMesh.Newest(m, 0).v, |m.co|)]
    ensures r.Joined? ==> r.mesh.selVerts == (if select then m.selVerts + {|m.co|} else m.selVerts)
    ensures r.Joined? ==> r.mesh.history == m.history
  {
    var m1 := BMesh.AddVert(m, p);
    assert m1.co == m.co + [p];
    if |m.history| == 0 then JoinFault(W.IndexFault, m1)
    else match BMesh.Newest(m, 0)
      case VertElem(h) =>
        Edits.PastEndUntouched(m, |m.co|);
        var m2 := Edits.EdgeToFresh(m1, h, |m.co|);
        Joined(if select then BMesh.SelectVert(m2, |m.co|, true) else m2)
      case _ => JoinFault(W.TypeFault, m1)
  }

  /**
   `bm.select_history[-1].co = p`, then `bm.select_history.clear()`. An
   empty history raises `IndexError`; an edge or a face has no `co` to set.
   Either raise comes before any change.
   */
  function MoveNewest(m: BMesh.Mesh, p: Vec): (r: Joined)
    requires BMesh.Valid(m)
    ensures |m.history| == 0 <==> r == JoinFault(W.IndexFault, m)
    ensures r.Joined? <==> |m.history| > 0 && BMesh.Newest(m, 0).VertElem?
    ensures r.JoinFault? && |m.history| > 0 ==> r == JoinFault(W.AttributeFault, m)
    ensures r.Joined? ==> BMesh.Valid(r.mesh) && r.mesh.history == []
    ensures r.Joined? ==> r.mesh.co == m.co[BMesh.Newest(m, 0).v := p]
    ensures r.Joined? ==> r.mesh == m.(co := r.mesh.co, history := [])
  {
    if |m.history| == 0 then JoinFault(W.IndexFault, m)
    else match BMesh.Newest(m, 0)
      case VertElem(i) => Joined(BMesh.ClearHistory(BMesh.SetCo(m, i, p)))
      case _ => JoinFault(W.AttributeFault, m)
  }
}
