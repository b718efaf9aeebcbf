/**
 The convergence operators, in both revisions: Intersect (`pdt.intersect`),
 which places at the crossing of two lines given by four vertices, two
 edges or four objects, and Arc Centre (`pdt.centre`), which places at the
 centre of the circle through three vertices or objects.

 `arcCentre` takes square roots and detects collinear points by an infinite
 radius; it arrives as a parameter. The view-plane transforms arrive as a
 `PdtFunctions.View`.
 */
module Convergence {
  import opened Vectors
  import opened Wrappers
  import opened Properties
  import M = Messages
  import Text
  import BMesh
  import Edits
  import W = World
  import PdtFunctions
  import Steps
  import Placement

  /** The older revision's refusal of an option, which does not name it. */
  const Sensible: M.Message := M.Plain(M.Literal("Not a Valid, or Sensible, Option!"))

  /** The refusal of option `oper` by the operator called `name`, in either revision. */
  function Refusal(oper: Oper, name: string, rev: Placement.Revision): M.Message
  {
    if rev == Placement.Design then Placement.Unsupported(oper, name) else Sensible
  }

  /** A selection count that is wrong: the Design revision names the count, the older one does not. */
  function Miscount(t: M.Tag, n: nat, rev: Placement.Revision): M.Message
  {
    if rev == Placement.Design then M.Counted(t, n) else M.Plain(t)
  }

  /** `|a - v| < |b - v|`, compared on squared lengths. */
  predicate Nearer(a: Vec, b: Vec, v: Vec)
  {
    Dist2(a, v) < Dist2(b, v)
  }

  /** `bm.verts`, every vertex in index order. */
  function AllVerts(m: BMesh.Mesh): (r: seq<nat>)
    ensures |r| == |m.co| && forall i :: 0 <= i < |r| ==> r[i] == i
  {
    seq(|m.co|, i requires 0 <= i < |m.co| => i)
  }

  // ------------------------------------------------------------ intersect

  /**
   The four vertices of the two lines: `va`–`vo` (`actV`–`othV`) and
   `vl`–`vf` (`lstV`–`fstV`), and `ext_a`, which lets the second vertex of
   the first line and both of the second line take part.
   */
  datatype Ends = Ends(va: nat, vo: nat, vl: nat, vf: nat, all: bool)

  predicate EndsIn(m: BMesh.Mesh, e: Ends)
  {
    e.va < |m.co| && e.vo < |m.co| && e.vl < |m.co| && e.vf < |m.co|
  }

  /** The ends of the lines, or the outcome that stops the operator first. */
  datatype Picked = Picked(ends: Ends) | Stopped(out: W.Outcome)

  /**
   Two selected edges give the lines directly, with `ext_a` set; otherwise a
   history of exactly four vertices gives them newest first, with `ext_a`
   taken from `pdt_extend`.
   */
  function EditEnds(w: W.World, o: W.Obj, rev: Placement.Revision, reading: W.Reading): (r: Picked)
    requires W.ValidWorld(w) && W.Active(w) == Some(o)
    ensures r.Picked? ==> EndsIn(o.mesh, r.ends)
    ensures r.Picked? <==>
      |BMesh.SelectedEdges(o.mesh)| == 2
      || (|o.mesh.history| == 4 && forall k :: 0 <= k < 4 ==> BMesh.Newest(o.mesh, k).VertElem?)
    ensures r.Stopped? ==> W.ValidWorld(r.out.world) && r.out.world.scene == w.scene
    ensures r.Stopped? ==> r.out.status == W.Finished || r.out.status.Raised?
    ensures r.Stopped? && r.out.status.Raised? ==> r.out.world == w
    ensures |BMesh.SelectedEdges(o.mesh)| != 2 && |o.mesh.history| == 4 && !BMesh.Newest(o.mesh, 0).VertElem? ==>
      r == Stopped(if reading == W.AsWritten then W.Crash(w, W.TypeFault)
                   else W.ReportError(W.SetActiveMesh(w, BMesh.ClearHistory(BMesh.DeselectAll(o.mesh))), M.Plain(M.VertMode)))
  {
    var m := o.mesh;
    var edges := BMesh.SelectedEdges(m);
    if |edges| == 2 then
      var e0 := m.edges[edges[0]];
      var e1 := m.edges[edges[1]];
      assert e0 in m.edges && e1 in m.edges;
      Picked(Ends(e0.a, e0.b, e1.a, e1.b, true))
    else if |m.history| == 4 then
      match PdtFunctions.CheckSelection(4, m)
      case Found(_) =>
        Picked(Ends(BMesh.Newest(m, 0).v, BMesh.Newest(m, 1).v, BMesh.Newest(m, 2).v, BMesh.Newest(m, 3).v,
                    w.scene.extend))
      case Reset(m1) =>
        // `actV, othV, lstV, fstV = None` raises before the `VERT_MODE` test
        if reading == W.AsWritten then Stopped(W.Crash(w, W.TypeFault))
        else Stopped(W.ReportError(W.SetActiveMesh(w, m1), M.Plain(M.VertMode)))
      case CheckFault(f) => Stopped(W.Crash(w, f))
      case Short => assert false; Stopped(W.Crash(w, W.IndexFault))
      case NoTuple => assert false; Stopped(W.Crash(w, W.IndexFault))
    else
      var msg := if rev == Placement.Design
        then M.Message(M.Sel4Verts, Text.NatToString(|m.history|) + " Vertices/" + Text.NatToString(|edges|) + " Edges)")
        else M.Plain(M.Sel4Verts);
      Stopped(W.ReportError(w, msg))
  }

  /**
   `pdt.intersect`: the crossing of the two lines in the working plane. In
   Edit mode the points are the mesh's own coordinates, so CU and PP add the
   object's location; in Object mode they are object locations. Modes other
   than Edit and Object fall off the end of `execute`.
   */
  function Intersect(w: W.World, view: PdtFunctions.View, rev: Placement.Revision, reading: W.Reading): (r: W.Outcome)
    requires W.ValidWorld(w)
    ensures W.ValidWorld(r.world)
    ensures r.status != W.Cancelled
    ensures r.status.Raised? && r.status != W.Raised(W.ValueFault) ==> r.world == w
    ensures r.status == W.Raised(W.ValueFault) ==>
      W.Active(w).Some? && W.Active(w).value.mode == W.EditMode && w.scene.operate == EV
      && r.world.scene == w.scene && r.world.selected == w.selected && r.world.active == w.active
      && r.world.host == w.host && r.world.reports == w.reports
      && W.Active(r.world).Some? && |W.Active(r.world).value.mesh.co| == |W.Active(w).value.mesh.co| + 1
    ensures Placement.SceneKeptBut(w.scene, r.world.scene, w.scene.operate)
    ensures W.Active(w).None? ==> r == W.ReportError(w, M.Plain(M.NoActObj))
    ensures r.status == W.NoReturn <==> W.Active(w).Some? && W.Active(w).value.mode.OtherMode?
    ensures r.status == W.NoReturn ==> r.world == w
  {
    match W.Active(w)
    case None => W.ReportError(w, M.Plain(M.NoActObj))
    case Some(o) =>
      match o.mode
      case EditMode =>
        (match EditEnds(w, o, rev, reading)
         case Stopped(out) => out
         case Picked(e) => IntersectEdit(w, o, e, view, rev))
      case ObjectMode => IntersectObjects(w, o, view, rev)
      case OtherMode(_) => W.Outcome(w, W.NoReturn)
  }

  /** The Edit-mode part of Intersect once the lines are known. */
  function IntersectEdit(w: W.World, o: W.Obj, e: Ends, view: PdtFunctions.View, rev: Placement.Revision): (r: W.Outcome)
    requires W.ValidWorld(w) && W.Active(w) == Some(o) && EndsIn(o.mesh, e)
    ensures W.ValidWorld(r.world)
    ensures r.status == W.Finished || r.status.Raised?
    ensures r.status.Raised? ==> r.status == W.Raised(W.ValueFault) && w.scene.operate == EV && e.all
    ensures var c := o.mesh.co;
      var x := PdtFunctions.Intersection(c[e.va], c[e.vo], c[e.vl], c[e.vf], w.scene.plane, view);
      r.status.Raised? ==> x.Some? && W.ActiveMeshIs(w, r.world, HalfJoined(o.mesh, e, x.value))
    ensures Placement.SceneKeptBut(w.scene, r.world.scene, w.scene.operate)
    ensures var c := o.mesh.co;
      PdtFunctions.Intersection(c[e.va], c[e.vo], c[e.vl], c[e.vf], w.scene.plane, view).None? ==>
        r == W.ReportError(w, M.Message(M.IntLines, PlaneCode(w.scene.plane)))
  {
    var s := w.scene;
    var m := o.mesh;
    match PdtFunctions.Intersection(m.co[e.va], m.co[e.vo], m.co[e.vl], m.co[e.vf], s.plane, view)
    case None => W.ReportError(w, M.Message(M.IntLines, PlaneCode(s.plane)))
    case Some(v) => IntersectEditAt(w, o, e, v, rev)
  }

  /** Intersect's Edit-mode dispatch on `pdt_operate`, with the crossing `v` known. */
  function IntersectEditAt(w: W.World, o: W.Obj, e: Ends, v: Vec, rev: Placement.Revision): (r: W.Outcome)
    requires W.ValidWorld(w) && W.Active(w) == Some(o) && EndsIn(o.mesh, e)
    ensures W.ValidWorld(r.world)
    ensures r.status == W.Finished || r.status.Raised?
    ensures r.status.Raised? ==> r.status == W.Raised(W.ValueFault) && w.scene.operate == EV && e.all
    ensures r.status.Raised? ==> W.ActiveMeshIs(w, r.world, HalfJoined(o.mesh, e, v))
    ensures Placement.SceneKeptBut(w.scene, r.world.scene, w.scene.operate)
  {
    if w.scene.operate == MV || w.scene.operate == EV then IntersectJoin(w, o, e, v)
    else IntersectMark(w, o, v, rev)
  }

  /** Intersect in Edit mode for CU, PP and NV, and the refusal of the other operations. */
  function IntersectMark(w: W.World, o: W.Obj, v: Vec, rev: Placement.Revision): (r: W.Outcome)
    requires W.ValidWorld(w) && W.Active(w) == Some(o)
    ensures W.ValidWorld(r.world) && r.status == W.Finished
    ensures Placement.SceneKeptBut(w.scene, r.world.scene, w.scene.operate)
  {
    var s := w.scene;
    if s.operate == CU then W.Done(w.(scene := s.(cursor := Add(o.location, v))))
    else if s.operate == PP then W.Done(w.(scene := s.(pivot := Add(o.location, v))))
    else if s.operate == NV then W.Done(W.SetActiveMesh(w, Edits.NewVertexAlone(BMesh.DeselectAll(o.mesh), v)))
    else W.ReportError(w, Refusal(s.operate, "Intersect", rev))
  }

  /** Intersect MV and EV: the line ends moved to, or joined to, the crossing `v`. */
  function IntersectJoin(w: W.World, o: W.Obj, e: Ends, v: Vec): (r: W.Outcome)
    requires W.ValidWorld(w) && W.Active(w) == Some(o) && EndsIn(o.mesh, e)
    requires w.scene.operate == MV || w.scene.operate == EV
    ensures W.ValidWorld(r.world)
    ensures r.status == W.Finished || r.status.Raised?
    ensures r.status.Raised? ==> r.status == W.Raised(W.ValueFault) && w.scene.operate == EV && e.all
    ensures r.status.Raised? ==> W.ActiveMeshIs(w, r.world, HalfJoined(o.mesh, e, v))
    ensures r.world.scene == w.scene
  {
    var m := o.mesh;
    if w.scene.operate == MV then Converge(w, o, e, v, MovedEnds(m, e, v), None)
    else match ExtendedEnds(m, e, v)
      case EdgeExists(m1) => W.Crash(W.SetActiveMesh(w, m1), W.ValueFault)
      case Extended(m1, added) => Converge(w, o, e, v, m1, added)
  }

  /**
   Intersect MV. The active vertex moves to the crossing when it is strictly
   nearer to it than its partner; otherwise, and only with `ext_a`, the
   partner moves. With `ext_a` the nearer end of the second line moves too.
   `lstV` and `fstV` are live views of their vertices' coordinates, so the
   second comparison sees the first move.
   */
  function MovedEnds(m: BMesh.Mesh, e: Ends, v: Vec): (r: BMesh.Mesh)
    requires BMesh.Valid(m) && EndsIn(m, e)
    ensures BMesh.Valid(r) && r == m.(co := r.co) && |r.co| == |m.co|
    ensures forall j :: 0 <= j < |m.co| && j !in {e.va, e.vo, e.vl, e.vf} ==> r.co[j] == m.co[j]
    ensures forall j :: 0 <= j < |m.co| ==> r.co[j] == m.co[j] || r.co[j] == v
  {
    var first :=
      if Nearer(m.co[e.va], m.co[e.vo], v) then BMesh.SetCo(m, e.va, v)
      else if e.all then BMesh.SetCo(m, e.vo, v)
      else m;
    if !e.all then first
    else if Nearer(first.co[e.vl], first.co[e.vf], v) then BMesh.SetCo(first, e.vl, v)
    else BMesh.SetCo(first, e.vf, v)
  }

  /**
   What Intersect EV leaves before the selection is reset, or, when
   `edges.new` refuses a duplicate edge, what it leaves at that point.
   */
  datatype Extension = Extended(mesh: BMesh.Mesh, added: Option<nat>) | EdgeExists(mesh: BMesh.Mesh)

  /** The end of the first line that Intersect EV joins the new vertex to when `ext_a` is set. */
  function NearEnd(m: BMesh.Mesh, e: Ends, v: Vec): (r: nat)
    requires EndsIn(m, e)
    ensures r == e.va || r == e.vo
    ensures Nearer(m.co[e.va], m.co[e.vo], v) <==> r == e.va && e.va != e.vo
  {
    if Nearer(m.co[e.va], m.co[e.vo], v) then e.va else e.vo
  }

  /** The end of the second line that Intersect EV with `ext_a` joins next. */
  function NearEnd2(m: BMesh.Mesh, e: Ends, v: Vec): (r: nat)
    requires EndsIn(m, e)
    ensures r == e.vl || r == e.vf
    ensures Nearer(m.co[e.vl], m.co[e.vf], v) <==> r == e.vl && e.vl != e.vf
  {
    if Nearer(m.co[e.vl], m.co[e.vf], v) then e.vl else e.vf
  }

  /**
   What Intersect EV with `ext_a` leaves when its second `edges.new` raises:
   the new vertex at `v`, joined to the first line's end, and nothing else.
   */
  function HalfJoined(m: BMesh.Mesh, e: Ends, v: Vec): (r: BMesh.Mesh)
    requires BMesh.Valid(m) && EndsIn(m, e)
    ensures BMesh.Valid(r)
    ensures r == m.(co := m.co + [v], edges := m.edges + [BMesh.Edge(NearEnd(m, e, v), |m.co|)])
  {
    Edits.PastEndUntouched(m, |m.co|);
    var m1 := BMesh.AddVert(m, v);
    assert m1.co == m.co + [v];
    Edits.EdgeToFresh(m1, NearEnd(m, e, v), |m.co|)
  }

  /**
   Intersect EV. A new vertex at the crossing joined to the active vertex
   when it is nearer than its partner, else (only with `ext_a`) to the
   partner; with `ext_a` also joined to the nearer end of the second line,
   which raises `ValueError` when that edge already exists.
   */
  function ExtendedEnds(m: BMesh.Mesh, e: Ends, v: Vec): (r: Extension)
    requires BMesh.Valid(m) && EndsIn(m, e)
    ensures BMesh.Valid(r.mesh)
    ensures r.EdgeExists? <==> e.all && NearEnd2(m, e, v) == NearEnd(m, e, v)
    ensures r.EdgeExists? ==> r.mesh == HalfJoined(m, e, v)
    ensures r.Extended? ==> |r.mesh.co| >= |m.co| && r.mesh.co[..|m.co|] == m.co && r.mesh.selVerts == m.selVerts
    ensures r.Extended? ==> (r.added.None? <==> r.mesh == m)
    ensures r.Extended? && r.added.Some? ==> r.added.value == |m.co| && r.mesh.co == m.co + [v]
    ensures r.EdgeExists? ==> e.all
  {
    var n := |m.co|;
    Edits.PastEndUntouched(m, n);
    var m1 := BMesh.AddVert(m, v);
    var first :=
      if Nearer(m.co[e.va], m.co[e.vo], v) then Extended(Edits.EdgeToFresh(m1, e.va, n), Some(n))
      else if e.all then Extended(Edits.EdgeToFresh(m1, e.vo, n), Some(n))
      else Extended(m, None);
    if !e.all then first
    else
      var to := NearEnd2(m, e, v);
      assert first.mesh == HalfJoined(m, e, v);
      FreshOnlyJoined(m, e, v, to);
      match BMesh.AddEdge(first.mesh, to, n)
      case None => EdgeExists(first.mesh)
      case Some(m2) => Extended(m2, Some(n))
  }

  /** After HalfJoined, an old vertex is connected to the new one exactly when it is the first line's end. */
  lemma FreshOnlyJoined(m: BMesh.Mesh, e: Ends, v: Vec, a: nat)
    requires BMesh.Valid(m) && EndsIn(m, e) && a < |m.co|
    ensures BMesh.Connected(HalfJoined(m, e, v), a, |m.co|) <==> a == NearEnd(m, e, v)
  {
    var h := HalfJoined(m, e, v);
    var n := |m.co|;
    if a == NearEnd(m, e, v) {
      assert h.edges[|m.edges|] == BMesh.Edge(a, n);
    } else {
      forall k | 0 <= k < |h.edges|
        ensures h.edges[k] != BMesh.Edge(a, n) && h.edges[k] != BMesh.Edge(n, a)
      {
        if k < |m.edges| {
          assert h.edges[k] == m.edges[k] && m.edges[k] in m.edges;
        }
      }
    }
  }

  /**
   The end of Intersect MV and EV: history cleared, `remove_doubles` over
   every vertex; then, unless nothing was done to the active vertex and
   `ext_a` is off, everything deselected and the new vertex selected.
   */
  function Converge(w: W.World, o: W.Obj, e: Ends, v: Vec, m1: BMesh.Mesh, added: Option<nat>): (r: W.Outcome)
    requires W.ValidWorld(w) && W.Active(w) == Some(o) && EndsIn(o.mesh, e)
    requires BMesh.Valid(m1) && (added.Some? ==> added.value < |m1.co|)
    ensures W.ValidWorld(r.world) && r.world.scene == w.scene && r.status == W.Finished
    ensures var proc := Nearer(o.mesh.co[e.va], o.mesh.co[e.vo], v);
      r.world.reports == w.reports + (if !proc && !e.all then [W.ErrorReport(M.Plain(M.IntNoAll))] else [])
  {
    var m2 := BMesh.ClearHistory(m1);
    var tidy := W.RemoveDoubles(w.active.value, AllVerts(m2), 0.0001);
    if !Nearer(o.mesh.co[e.va], o.mesh.co[e.vo], v) && !e.all then
      W.ReportError(W.CallHost(W.SetActiveMesh(w, m2), tidy), M.Plain(M.IntNoAll))
    else
      var m3 := BMesh.DeselectAll(m2);
      var m4 := if added.Some? then BMesh.SelectVert(m3, added.value, true) else m3;
      W.Done(W.CallHost(W.SetActiveMesh(w, m4), tidy))
  }

  // --------------------------------------------- intersect, object mode

  /** Python's `<=` on strings: code point by code point, a prefix first. */
  predicate NameLe(a: string, b: string)
  {
    |a| == 0 || (|b| > 0 && (a[0] < b[0] || (a[0] == b[0] && NameLe(a[1..], b[1..]))))
  }

  predicate SortedByName(s: seq<W.Obj>)
  {
    forall i :: 0 <= i < |s| - 1 ==> NameLe(s[i].name, s[i + 1].name)
  }

  /** Any two names are ordered one way or the other. */
  lemma {:induction false} NameLeTotal(a: string, b: string)
    ensures NameLe(a, b) || NameLe(b, a)
    decreases |a|
  {
    if |a| > 0 && |b| > 0 && a[0] == b[0] {
      NameLeTotal(a[1..], b[1..]);
    }
  }

  /** `x` inserted into a sorted sequence after every name it is not below. */
  function InsertByName(x: W.Obj, s: seq<W.Obj>): (r: seq<W.Obj>)
    requires SortedByName(s)
    ensures SortedByName(r) && multiset(r) == multiset(s) + multiset{x}
    ensures |r| == |s| + 1 && (r[0] == x || (|s| > 0 && r[0] == s[0]))
  {
    if |s| == 0 then [x]
    else if NameLe(x.name, s[0].name) then [x] + s
    else
      NameLeTotal(x.name, s[0].name);
      var t := InsertByName(x, s[1..]);
      assert s == [s[0]] + s[1..];
      [s[0]] + t
  }

  /** `sorted(objs, key=lambda x: x.name)`. */
  function SortByName(s: seq<W.Obj>): (r: seq<W.Obj>)
    ensures SortedByName(r) && multiset(r) == multiset(s) && |r| == |s|
  {
    if |s| == 0 then []
    else
      assert s == [s[0]] + s[1..];
      InsertByName(s[0], SortByName(s[1..]))
  }

  /** The objects the order picks, by the 1-based positions of `pdt_oborder`. */
  function Chosen(objs: seq<W.Obj>, order: ObOrder): (r: seq<W.Obj>)
    requires |objs| == 4
    ensures |r| == 4
    ensures forall k :: 0 <= k < 4 ==> r[k] == objs[ObOrderPositions(order)[k] - 1]
  {
    match order
    case O1234 => [objs[0], objs[1], objs[2], objs[3]]
    case O1324 => [objs[0], objs[2], objs[1], objs[3]]
    case O1423 => [objs[0], objs[3], objs[1], objs[2]]
  }

  /** `"Original Object Order was: "` and the four names, comma separated. */
  function OrderMessage(objs: seq<W.Obj>): string
    requires |objs| == 4
  {
    "Original Object Order was: " + objs[0].name + ", " + objs[1].name + ", " + objs[2].name + ", " + objs[3].name
  }

  /** The selected objects, in selection order. */
  function SelectedObjects(w: W.World): (r: seq<W.Obj>)
    requires W.ValidWorld(w)
    ensures |r| == |w.selected| && forall k :: 0 <= k < |r| ==> r[k] == w.objects[w.selected[k]]
  {
    seq(|w.selected|, k requires 0 <= k < |w.selected| => w.objects[w.selected[k]])
  }

  /**
   Intersect in Object mode: four selected objects, sorted by name; the
   order names which two form the first line and which two the second.
   The sorted names are reported before anything else happens.
   */
  function IntersectObjects(w: W.World, o: W.Obj, view: PdtFunctions.View, rev: Placement.Revision): (r: W.Outcome)
    requires W.ValidWorld(w) && W.Active(w) == Some(o)
    ensures W.ValidWorld(r.world) && r.status == W.Finished
    ensures Placement.SceneKeptBut(w.scene, r.world.scene, w.scene.operate)
    ensures |w.selected| != 4 ==> r == W.ReportError(w, Miscount(M.Sel4Objs, |w.selected|, rev))
    ensures |w.selected| == 4 ==>
      |r.world.reports| > |w.reports| && r.world.reports[..|w.reports| + 1]
        == w.reports + [W.InfoReport(OrderMessage(SortByName(SelectedObjects(w))))]
  {
    if |w.selected| != 4 then W.ReportError(w, Miscount(M.Sel4Objs, |w.selected|, rev))
    else
      var s := w.scene;
      var objs := SortByName(SelectedObjects(w));
      var message := OrderMessage(objs);
      var w1 := W.Inform(w, message);
      var c := Chosen(objs, s.oborder);
      match PdtFunctions.Intersection(c[0].location, c[1].location, c[2].location, c[3].location, s.plane, view)
      case None => W.ReportError(w1, M.Message(M.IntLines, PlaneCode(s.plane)))
      case Some(v) => IntersectObjectsAt(w1, o, v, message)
  }

  /** Intersect's Object-mode dispatch on `pdt_operate`, with the crossing `v` known. */
  function IntersectObjectsAt(w: W.World, o: W.Obj, v: Vec, message: string): (r: W.Outcome)
    requires W.ValidWorld(w) && W.Active(w) == Some(o)
    ensures W.ValidWorld(r.world) && r.status == W.Finished
    ensures Placement.SceneKeptBut(w.scene, r.world.scene, w.scene.operate)
    ensures |r.world.reports| >= |w.reports| && r.world.reports[..|w.reports|] == w.reports
    ensures w.scene.operate == CU ==> r.world.scene.cursor == v
    ensures w.scene.operate == PP ==> r.world.scene.pivot == v
    ensures w.scene.operate == MV ==> W.Active(r.world) == Some(o.(location := v))
  {
    var s := w.scene;
    if s.operate == CU then W.Done(w.(scene := s.(cursor := v)))
    else if s.operate == PP then W.Done(w.(scene := s.(pivot := v)))
    else if s.operate == MV then W.Done(W.Inform(W.SetActive(w, o.(location := v)), "Active Object Moved to Intersection, " + message))
    else W.ReportError(w, Placement.Unsupported(s.operate, "Intersect"))
  }

  // ----------------------------------------------------------- arc centre

  /** What `arcCentre` returns: the centre, and the radius unless it is infinite (collinear points). */
  datatype Arc = Arc(centre: Vec, radius: Option<real>)

  /** Only the cursor, the pivot point and `pdt_distance` of the scene may differ. */
  predicate CentreSceneKept(s: Scene, t: Scene)
  {
    Placement.SceneKeptBut(s.(distance := t.distance), t, s.operate)
  }

  /**
   `pdt.centre`: the centre of the circle through three selected vertices
   (Edit mode) or the locations of three selected objects (Object mode).
   Its radius is written to `pdt_distance`.
   */
  function Centre(w: W.World, arc: (Vec, Vec, Vec) -> Arc, rev: Placement.Revision): (r: W.Outcome)
    requires W.ValidWorld(w)
    ensures W.ValidWorld(r.world)
    ensures r.status != W.Cancelled
    ensures r.status.Raised? ==>
      W.Active(w).Some? && W.Active(w).value.mode == W.EditMode && w.scene.operate in {MV, EV} && !w.scene.extend
    ensures r.status.Raised? ==>
      r.world.scene == w.scene.(distance := r.world.scene.distance)
      && r.world.selected == w.selected && r.world.active == w.active
      && r.world.host == w.host && r.world.reports == w.reports
    ensures r.status.Raised? && w.scene.operate == MV ==> r.world == w.(scene := r.world.scene)
    ensures CentreSceneKept(w.scene, r.world.scene)
    ensures W.Active(w).None? ==> r == W.ReportError(w, M.Plain(M.NoActObj))
    ensures r.status == W.NoReturn <==> W.Active(w).Some? && W.Active(w).value.mode.OtherMode?
    ensures r.status == W.NoReturn ==> r.world == w
  {
    match W.Active(w)
    case None => W.ReportError(w, M.Plain(M.NoActObj))
    case Some(o) =>
      match o.mode
      case EditMode => CentreEdit(w, o, arc, rev)
      case ObjectMode => CentreObjects(w, o, arc, rev)
      case OtherMode(_) => W.Outcome(w, W.NoReturn)
  }

  /** Arc Centre in Edit mode: exactly three selected vertices, not on one line. */
  function CentreEdit(w: W.World, o: W.Obj, arc: (Vec, Vec, Vec) -> Arc, rev: Placement.Revision): (r: W.Outcome)
    requires W.ValidWorld(w) && W.Active(w) == Some(o)
    ensures W.ValidWorld(r.world)
    ensures r.status == W.Finished || r.status.Raised?
    ensures CentreSceneKept(w.scene, r.world.scene)
    ensures var vs := BMesh.SelectedVerts(o.mesh);
      |vs| != 3 ==> r == W.ReportError(w, Miscount(M.Sel3Verts, |vs|, rev))
    ensures var vs := BMesh.SelectedVerts(o.mesh);
      |vs| == 3 && arc(o.mesh.co[vs[0]], o.mesh.co[vs[1]], o.mesh.co[vs[2]]).radius.None? ==>
        r == W.ReportError(w, M.Plain(M.StraightLine))
    ensures var vs := BMesh.SelectedVerts(o.mesh);
      |vs| == 3 && arc(o.mesh.co[vs[0]], o.mesh.co[vs[1]], o.mesh.co[vs[2]]).radius.Some? ==>
        r.world.scene.distance == arc(o.mesh.co[vs[0]], o.mesh.co[vs[1]], o.mesh.co[vs[2]]).radius.value
    ensures r.status.Raised? ==> w.scene.operate in {MV, EV} && !w.scene.extend
    ensures r.status.Raised? ==>
      var vs := BMesh.SelectedVerts(o.mesh);
      |vs| == 3 &&
      var a := arc(o.mesh.co[vs[0]], o.mesh.co[vs[1]], o.mesh.co[vs[2]]);
      a.radius.Some? &&
      var w1 := w.(scene := w.scene.(distance := a.radius.value));
      (w.scene.operate == MV ==> r.world == w1)
      && (w.scene.operate == EV ==> W.ActiveMeshIs(w1, r.world, o.mesh.(co := o.mesh.co + [a.centre])))
  {
    var m := o.mesh;
    var verts := BMesh.SelectedVerts(m);
    if |verts| != 3 then W.ReportError(w, Miscount(M.Sel3Verts, |verts|, rev))
    else match arc(m.co[verts[0]], m.co[verts[1]], m.co[verts[2]])
      case Arc(_, None) => W.ReportError(w, M.Plain(M.StraightLine))
      case Arc(v, Some(radius)) => CentreEditAt(w, o, verts, v, radius, rev)
  }

  /**
   Arc Centre's Edit-mode dispatch on `pdt_operate`, once the centre `v` and
   a finite radius are known. The radius is written first, so an exception
   raised by MV or EV keeps it, and EV's new vertex as well.
   */
  function CentreEditAt(w: W.World, o: W.Obj, verts: seq<nat>, v: Vec, radius: real, rev: Placement.Revision): (r: W.Outcome)
    requires W.ValidWorld(w) && W.Active(w) == Some(o) && verts == BMesh.SelectedVerts(o.mesh)
    ensures W.ValidWorld(r.world)
    ensures r.status == W.Finished || r.status.Raised?
    ensures r.world.scene.distance == radius
    ensures CentreSceneKept(w.scene, r.world.scene)
    ensures r.status.Raised? ==> w.scene.operate in {MV, EV} && !w.scene.extend
    ensures r.status.Raised? && w.scene.operate == MV ==> r.world == w.(scene := w.scene.(distance := radius))
    ensures r.status.Raised? && w.scene.operate == EV ==>
      W.ActiveMeshIs(w.(scene := w.scene.(distance := radius)), r.world, o.mesh.(co := o.mesh.co + [v]))
  {
    if w.scene.operate == MV then CentreMove(w, o, verts, v, radius)
    else if w.scene.operate == EV then CentreExtrude(w, o, verts, v, radius)
    else CentreMark(w.(scene := w.scene.(distance := radius)), o, v, rev)
  }

  /** Arc Centre in Edit mode for CU, PP and NV, and the refusal of the rest; the radius is already written. */
  function CentreMark(w: W.World, o: W.Obj, v: Vec, rev: Placement.Revision): (r: W.Outcome)
    requires W.ValidWorld(w) && W.Active(w) == Some(o)
    ensures W.ValidWorld(r.world) && r.status == W.Finished
    ensures Placement.SceneKeptBut(w.scene, r.world.scene, w.scene.operate)
  {
    var s := w.scene;
    if s.operate == CU then W.Done(w.(scene := s.(cursor := Add(o.location, v))))
    else if s.operate == PP then W.Done(w.(scene := s.(pivot := Add(o.location, v))))
    else if s.operate == NV then W.Done(W.SetActiveMesh(w, Edits.NewVertexAlone(o.mesh, v)))
    else W.ReportError(w, Refusal(s.operate, "Arc Centre", rev))
  }

  /**
   Arc Centre MV: with `pdt_extend`, every selected vertex goes to the
   centre and `remove_doubles` merges them; without it, only the newest
   history entry does.
   */
  function CentreMove(w: W.World, o: W.Obj, verts: seq<nat>, v: Vec, radius: real): (r: W.Outcome)
    requires W.ValidWorld(w) && W.Active(w) == Some(o) && verts == BMesh.SelectedVerts(o.mesh)
    ensures W.ValidWorld(r.world)
    ensures r.status == W.Finished || r.status.Raised?
    ensures r.world.scene == w.scene.(distance := radius)
    ensures r.status.Raised? <==> !w.scene.extend && (|o.mesh.history| == 0 || !BMesh.Newest(o.mesh, 0).VertElem?)
    ensures r.status.Raised? ==> r.world == w.(scene := w.scene.(distance := radius))
  {
    var w1 := w.(scene := w.scene.(distance := radius));
    var m := o.mesh;
    if w.scene.extend then
      var m1 := BMesh.ClearHistory(BMesh.SetCoAll(m, verts, v));
      W.Done(W.CallHost(W.SetActiveMesh(w1, m1), W.RemoveDoubles(w.active.value, BMesh.SelectedVerts(m1), 0.0001)))
    else match Steps.MoveNewest(m, v)
      case JoinFault(f, _) => W.Crash(w1, f)
      case Joined(m1) => W.Done(W.SetActiveMesh(w1, m1))
  }

  /**
   Arc Centre EV: a new vertex at the centre, joined with `pdt_extend` to
   every selected vertex (which then hands the selection to it), without it
   to the newest history entry alone.
   */
  function CentreExtrude(w: W.World, o: W.Obj, verts: seq<nat>, v: Vec, radius: real): (r: W.Outcome)
    requires W.ValidWorld(w) && W.Active(w) == Some(o) && verts == BMesh.SelectedVerts(o.mesh)
    ensures W.ValidWorld(r.world)
    ensures r.status == W.Finished || r.status.Raised?
    ensures r.world.scene == w.scene.(distance := radius)
    ensures r.status.Raised? <==> !w.scene.extend && (|o.mesh.history| == 0 || !BMesh.Newest(o.mesh, 0).VertElem?)
    ensures r.status.Raised? ==>
      W.ActiveMeshIs(w.(scene := w.scene.(distance := radius)), r.world, o.mesh.(co := o.mesh.co + [v]))
  {
    var w1 := w.(scene := w.scene.(distance := radius));
    var m := o.mesh;
    if w.scene.extend then
      Edits.FanToNewValid(m, verts, v);
      var m1 := BMesh.ClearHistory(Edits.FanToNew(m, verts, v));
      W.Done(W.CallHost(W.SetActiveMesh(w1, m1), W.RemoveDoubles(w.active.value, BMesh.SelectedVerts(m1), 0.0001)))
    else match Steps.JoinToNewest(m, v, false)
      case JoinFault(f, m1) => W.Crash(W.SetActiveMesh(w1, m1), f)
      case Joined(m1) => W.Done(W.SetActiveMesh(w1, BMesh.ClearHistory(m1)))
  }

  /**
   Arc Centre in Object mode: exactly three selected objects. Collinear
   objects are not refused here; the radius is then infinite and is not
   written, since `pdt_distance` holds only finite values in this model.
   */
  function CentreObjects(w: W.World, o: W.Obj, arc: (Vec, Vec, Vec) -> Arc, rev: Placement.Revision): (r: W.Outcome)
    requires W.ValidWorld(w) && W.Active(w) == Some(o)
    ensures W.ValidWorld(r.world) && r.status == W.Finished
    ensures CentreSceneKept(w.scene, r.world.scene)
    ensures |w.selected| != 3 ==> r == W.ReportError(w, Miscount(M.Sel3Objs, |w.selected|, rev))
    ensures |w.selected| == 3 ==>
      var locs := W.SelectedLocations(w);
      var a := arc(locs[0], locs[1], locs[2]);
      (a.radius.Some? ==> r.world.scene.distance == a.radius.value)
      && (w.scene.operate == CU ==> r.world.scene.cursor == a.centre)
      && (w.scene.operate == PP ==> r.world.scene.pivot == a.centre)
      && (w.scene.operate == MV ==> W.Active(r.world) == Some(o.(location := a.centre)))
  {
    if |w.selected| != 3 then W.ReportError(w, Miscount(M.Sel3Objs, |w.selected|, rev))
    else
      var s := w.scene;
      var locs := W.SelectedLocations(w);
      var a := arc(locs[0], locs[1], locs[2]);
      var s1 := if a.radius.Some? then s.(distance := a.radius.value) else s;
      CentreObjectsAt(w.(scene := s1), o, a.centre, rev)
  }

  /** Arc Centre's Object-mode dispatch on `pdt_operate`, with the centre known. */
  function CentreObjectsAt(w: W.World, o: W.Obj, v: Vec, rev: Placement.Revision): (r: W.Outcome)
    requires W.ValidWorld(w) && W.Active(w) == Some(o)
    ensures W.ValidWorld(r.world) && r.status == W.Finished
    ensures Placement.SceneKeptBut(w.scene, r.world.scene, w.scene.operate)
    ensures w.scene.operate == CU ==> r.world.scene.cursor == v
    ensures w.scene.operate == PP ==> r.world.scene.pivot == v
    ensures w.scene.operate == MV ==> W.Active(r.world) == Some(o.(location := v))
  {
    var s := w.scene;
    if s.operate == CU then W.Done(w.(scene := s.(cursor := v)))
    else if s.operate == PP then W.Done(w.(scene := s.(pivot := v)))
    else if s.operate == MV then W.Done(W.SetActive(w, o.(location := v)))
    else W.ReportError(w, Refusal(s.operate, "Arc Centre", rev))
  }
}

/** Reorderings of a short sequence that keep its elements. */
module Shuffles {
  lemma Reordered<T>(a: T, b: T, c: T, d: T)
    ensures multiset([a, c, b, d]) == multiset([a, b, c, d])
    ensures multiset([a, d, b, c]) == multiset([a, b, c, d])
  {
    MiddleSwapped(a, b, c, d);
    LastFirst(a, b, c, d);
  }

  lemma MiddleSwapped<T>(a: T, b: T, c: T, d: T)
    ensures multiset([a, c, b, d]) == multiset([a, b, c, d])
  {
    assert [a, b, c, d] == [a] + [b] + [c] + [d];
    assert [a, c, b, d] == [a] + [c] + [b] + [d];
    SwapMiddle([a], [b], [c], [d]);
  }

  lemma LastFirst<T>(a: T, b: T, c: T, d: T)
    ensures multiset([a, d, b, c]) == multiset([a, b, c, d])
  {
    assert [a, b, c, d] == [a] + [b, c] + [d] + [];
    assert [a, d, b, c] == [a] + [d] + [b, c] + [];
    SwapMiddle([a], [b, c], [d], []);
  }

  /** Exchanging two adjacent blocks keeps the multiset. */
  lemma SwapMiddle<T>(p: seq<T>, x: seq<T>, y: seq<T>, q: seq<T>)
    ensures multiset(p + y + x + q) == multiset(p + x + y + q)
  {
    calc {
      multiset(p + y + x + q);
      multiset(p) + multiset(y) + multiset(x) + multiset(q);
      multiset(p) + multiset(x) + multiset(y) + multiset(q);
      multiset(p + x + y + q);
    }
  }
}

/** What Intersect and Arc Centre promise, stated over all worlds. */
module ConvergenceFacts {
  import opened Vectors
  import opened Wrappers
  import opened Properties
  import M = Messages
  import Text
  import BMesh
  import W = World
  import PdtFunctions
  import Steps
  import Placement
  import Shuffles
  import opened Convergence

  // ------------------------------------------------------------ intersect

  /**
   Edit-mode Intersect without two selected edges or four history entries
   reports both counts (the Design revision) and changes nothing else.
   */
  lemma IntersectNeedsTwoLines(w: W.World, view: PdtFunctions.View, reading: W.Reading)
    requires W.ValidWorld(w) && W.Active(w).Some? && W.Active(w).value.mode == W.EditMode
    requires var m := W.Active(w).value.mesh; |BMesh.SelectedEdges(m)| != 2 && |m.history| != 4
    ensures var m := W.Active(w).value.mesh;
      Intersect(w, view, Placement.Design, reading) == W.ReportError(w, M.Message(M.Sel4Verts,
        Text.NatToString(|m.history|) + " Vertices/" + Text.NatToString(|BMesh.SelectedEdges(m)|) + " Edges)"))
  {
  }

  /**
   Four history entries whose newest is an edge, and not two selected edges:
   as written, unpacking the `None` that `checkSelection(4, …)` returns
   raises `TypeError`; intended, the selection is reset and `VERT_MODE`
   reported.
   */
  lemma IntersectNonVertexRaises(w: W.World, view: PdtFunctions.View, rev: Placement.Revision)
    requires W.ValidWorld(w) && W.Active(w).Some? && W.Active(w).value.mode == W.EditMode
    requires var m := W.Active(w).value.mesh;
      |BMesh.SelectedEdges(m)| != 2 && |m.history| == 4 && !BMesh.Newest(m, 0).VertElem?
    ensures Intersect(w, view, rev, W.AsWritten) == W.Crash(w, W.TypeFault)
  {
  }

  lemma IntersectNonVertexReports(w: W.World, view: PdtFunctions.View, rev: Placement.Revision)
    requires W.ValidWorld(w) && W.Active(w).Some? && W.Active(w).value.mode == W.EditMode
    requires var m := W.Active(w).value.mesh;
      |BMesh.SelectedEdges(m)| != 2 && |m.history| == 4 && !BMesh.Newest(m, 0).VertElem?
    ensures var m := W.Active(w).value.mesh;
      Intersect(w, view, rev, W.Intended)
        == W.ReportError(W.SetActiveMesh(w, BMesh.ClearHistory(BMesh.DeselectAll(m))), M.Plain(M.VertMode))
  {
  }

  /** Two selected edges are the two lines, `ext_a` on, whatever the history holds. */
  lemma TwoEdgesAreTheLines(w: W.World, rev: Placement.Revision, reading: W.Reading)
    requires W.ValidWorld(w) && W.Active(w).Some?
    requires |BMesh.SelectedEdges(W.Active(w).value.mesh)| == 2
    ensures var m := W.Active(w).value.mesh;
      var es := BMesh.SelectedEdges(m);
      EditEnds(w, W.Active(w).value, rev, reading)
        == Picked(Ends(m.edges[es[0]].a, m.edges[es[0]].b, m.edges[es[1]].a, m.edges[es[1]].b, true))
  {
  }

  /**
   The closest-endpoint rule of Intersect MV. The active vertex moves to the
   crossing exactly when it is strictly nearer than its partner. Without
   `ext_a` nothing else moves, and when the active vertex is not nearer the
   operator reports that nothing was done and leaves every vertex in place.
   With `ext_a` one end of each line ends up at the crossing.
   */
  lemma IntersectMoveNearest(w: W.World, o: W.Obj, e: Ends, view: PdtFunctions.View, rev: Placement.Revision)
    requires W.ValidWorld(w) && W.Active(w) == Some(o) && EndsIn(o.mesh, e) && w.scene.operate == MV
    requires var c := o.mesh.co;
      PdtFunctions.Intersection(c[e.va], c[e.vo], c[e.vl], c[e.vf], w.scene.plane, view).Some?
    ensures var c := o.mesh.co;
      var v := PdtFunctions.Intersection(c[e.va], c[e.vo], c[e.vl], c[e.vf], w.scene.plane, view).value;
      MovedToCrossing(w, o.mesh, e, v, IntersectEdit(w, o, e, view, rev))
  {
    var c := o.mesh.co;
    var v := PdtFunctions.Intersection(c[e.va], c[e.vo], c[e.vl], c[e.vf], w.scene.plane, view).value;
    assert IntersectEdit(w, o, e, view, rev) == IntersectJoin(w, o, e, v);
    JoinMoves(w, o, e, v);
  }

  /**
   The mesh after Intersect MV: no vertex added and the history cleared; the
   active end at `v` when nearer than its partner; without `ext_a` nothing
   else moved, and when the active end was not nearer every vertex in place
   and the nothing-done report; with `ext_a` one end of each line at `v`.
   */
  predicate MovedToCrossing(w: W.World, m0: BMesh.Mesh, e: Ends, v: Vec, r: W.Outcome)
    requires EndsIn(m0, e)
  {
    var c := m0.co;
    r.status == W.Finished && W.ValidWorld(r.world) && W.Active(r.world).Some?
    && var m := W.Active(r.world).value.mesh;
    |m.co| == |c| && m.history == []
    && (Nearer(c[e.va], c[e.vo], v) ==> m.co[e.va] == v)
    && (!e.all ==> forall j :: 0 <= j < |c| && j != e.va ==> m.co[j] == c[j])
    && (!e.all && !Nearer(c[e.va], c[e.vo], v) ==>
          m.co == c && r.world.reports == w.reports + [W.ErrorReport(M.Plain(M.IntNoAll))])
    && (e.all ==> (m.co[e.va] == v || m.co[e.vo] == v) && (m.co[e.vl] == v || m.co[e.vf] == v))
  }

  lemma JoinMoves(w: W.World, o: W.Obj, e: Ends, v: Vec)
    requires W.ValidWorld(w) && W.Active(w) == Some(o) && EndsIn(o.mesh, e) && w.scene.operate == MV
    ensures MovedToCrossing(w, o.mesh, e, v, IntersectJoin(w, o, e, v))
  {
  }

  /**
   Intersect EV without `ext_a`: when the active vertex is nearer, one new
   vertex at the crossing, joined to it alone and selected alone; otherwise
   no new geometry and the nothing-done report.
   */
  lemma IntersectExtendNearest(w: W.World, o: W.Obj, e: Ends, view: PdtFunctions.View, rev: Placement.Revision)
    requires W.ValidWorld(w) && W.Active(w) == Some(o) && EndsIn(o.mesh, e) && w.scene.operate == EV
    requires !e.all
    requires var c := o.mesh.co;
      PdtFunctions.Intersection(c[e.va], c[e.vo], c[e.vl], c[e.vf], w.scene.plane, view).Some?
    ensures var c := o.mesh.co;
      var v := PdtFunctions.Intersection(c[e.va], c[e.vo], c[e.vl], c[e.vf], w.scene.plane, view).value;
      ExtendedToCrossing(w, o.mesh, e, v, IntersectEdit(w, o, e, view, rev))
  {
    var c := o.mesh.co;
    var v := PdtFunctions.Intersection(c[e.va], c[e.vo], c[e.vl], c[e.vf], w.scene.plane, view).value;
    assert IntersectEdit(w, o, e, view, rev) == IntersectJoin(w, o, e, v);
    JoinExtends(w, o, e, v);
  }

  /** The mesh after Intersect EV without `ext_a`, as the lemma above describes it. */
  predicate ExtendedToCrossing(w: W.World, m0: BMesh.Mesh, e: Ends, v: Vec, r: W.Outcome)
    requires EndsIn(m0, e)
  {
    var c := m0.co;
    r.status == W.Finished && W.ValidWorld(r.world) && W.Active(r.world).Some?
    && var m := W.Active(r.world).value.mesh;
    (Nearer(c[e.va], c[e.vo], v) ==>
       m.co == c + [v] && m.edges == m0.edges + [BMesh.Edge(e.va, |c|)] && m.selVerts == {|c|})
    && (!Nearer(c[e.va], c[e.vo], v) ==>
       m.co == c && m.edges == m0.edges
       && r.world.reports == w.reports + [W.ErrorReport(M.Plain(M.IntNoAll))])
  }

  lemma JoinExtends(w: W.World, o: W.Obj, e: Ends, v: Vec)
    requires W.ValidWorld(w) && W.Active(w) == Some(o) && EndsIn(o.mesh, e) && w.scene.operate == EV && !e.all
    ensures ExtendedToCrossing(w, o.mesh, e, v, IntersectJoin(w, o, e, v))
  {
  }

  /**
   In Object mode the two lines are drawn through the four selected objects,
   each used exactly once, whichever order `pdt_oborder` names.
   */
  lemma ObjectLinesUseEachOnce(w: W.World, order: ObOrder)
    requires W.ValidWorld(w) && |w.selected| == 4
    ensures var objs := SelectedObjects(w);
      multiset(Chosen(SortByName(objs), order)) == multiset(objs)
  {
    ChosenIsPermutation(SortByName(SelectedObjects(w)), order);
  }

  lemma ChosenIsPermutation(objs: seq<W.Obj>, order: ObOrder)
    requires |objs| == 4
    ensures multiset(Chosen(objs, order)) == multiset(objs)
  {
    assert objs == [objs[0], objs[1], objs[2], objs[3]];
    match order
    case O1234 =>
    case O1324 => Shuffles.Reordered(objs[0], objs[1], objs[2], objs[3]);
    case O1423 => Shuffles.Reordered(objs[0], objs[1], objs[2], objs[3]);
  }

  /** The objects are reported in name order, whatever order they were selected in. */
  lemma ObjectOrderReported(w: W.World, view: PdtFunctions.View, rev: Placement.Revision, reading: W.Reading)
    requires W.ValidWorld(w) && |w.selected| == 4
    requires W.Active(w).Some? && W.Active(w).value.mode == W.ObjectMode
    ensures var objs := SortByName(SelectedObjects(w));
      var r := Intersect(w, view, rev, reading);
      SortedByName(objs) && multiset(objs) == multiset(SelectedObjects(w))
      && r.world.reports[|w.reports|] == W.InfoReport(OrderMessage(objs))
  {
    var o := W.Active(w).value;
    var r := Intersect(w, view, rev, reading);
    assert r == IntersectObjects(w, o, view, rev);
    var head := r.world.reports[..|w.reports| + 1];
    assert head == w.reports + [W.InfoReport(OrderMessage(SortByName(SelectedObjects(w))))];
    assert r.world.reports[|w.reports|] == head[|w.reports|];
  }

  // ----------------------------------------------------------- arc centre

  /** Arc Centre in Edit mode needs exactly three selected vertices, and changes nothing otherwise. */
  lemma CentreNeedsThreeVertices(w: W.World, arc: (Vec, Vec, Vec) -> Arc, rev: Placement.Revision)
    requires W.ValidWorld(w) && W.Active(w).Some? && W.Active(w).value.mode == W.EditMode
    requires |BMesh.SelectedVerts(W.Active(w).value.mesh)| != 3
    ensures Centre(w, arc, rev)
      == W.ReportError(w, Miscount(M.Sel3Verts, |BMesh.SelectedVerts(W.Active(w).value.mesh)|, rev))
  {
  }

  /** Three vertices on one line (an infinite radius) give the straight-line error before any change. */
  lemma CentreRefusesStraightLine(w: W.World, arc: (Vec, Vec, Vec) -> Arc, rev: Placement.Revision)
    requires W.ValidWorld(w) && W.Active(w).Some? && W.Active(w).value.mode == W.EditMode
    requires var m := W.Active(w).value.mesh; var vs := BMesh.SelectedVerts(m);
      |vs| == 3 && arc(m.co[vs[0]], m.co[vs[1]], m.co[vs[2]]).radius.None?
    ensures Centre(w, arc, rev) == W.ReportError(w, M.Plain(M.StraightLine))
  {
  }

  /**
   Arc Centre MV with `pdt_extend` puts all three selected vertices on the
   centre, records the radius in `pdt_distance`, and asks Blender to merge
   them.
   */
  lemma CentreGathersVertices(w: W.World, arc: (Vec, Vec, Vec) -> Arc, rev: Placement.Revision)
    requires W.ValidWorld(w) && w.scene.operate == MV && w.scene.extend
    requires W.Active(w).Some? && W.Active(w).value.mode == W.EditMode
    requires var m := W.Active(w).value.mesh; var vs := BMesh.SelectedVerts(m);
      |vs| == 3 && arc(m.co[vs[0]], m.co[vs[1]], m.co[vs[2]]).radius.Some?
    ensures var o := W.Active(w).value; var vs := BMesh.SelectedVerts(o.mesh);
      var a := arc(o.mesh.co[vs[0]], o.mesh.co[vs[1]], o.mesh.co[vs[2]]);
      Gathered(w, o.mesh, vs, a.centre, a.radius.value, Centre(w, arc, rev))
  {
    var o := W.Active(w).value;
    var vs := BMesh.SelectedVerts(o.mesh);
    var a := arc(o.mesh.co[vs[0]], o.mesh.co[vs[1]], o.mesh.co[vs[2]]);
    assert Centre(w, arc, rev) == CentreEdit(w, o, arc, rev);
    assert CentreEdit(w, o, arc, rev) == CentreMove(w, o, vs, a.centre, a.radius.value);
    MoveGathers(w, o, vs, a.centre, a.radius.value);
  }

  /**
   The outcome finished with the radius written and the active mesh's
   vertices in `vs` at `v`, every other vertex where it was in `m0`, and one
   `remove_doubles` call issued.
   */
  predicate Gathered(w: W.World, m0: BMesh.Mesh, vs: seq<nat>, v: Vec, radius: real, r: W.Outcome)
  {
    r.status == W.Finished && r.world.scene.distance == radius
    && W.ValidWorld(r.world) && W.Active(r.world).Some?
    && var m := W.Active(r.world).value.mesh;
    |m.co| == |m0.co|
    && (forall j :: 0 <= j < |m.co| ==> m.co[j] == if j in vs then v else m0.co[j])
    && |r.world.host| == |w.host| + 1 && r.world.host[|w.host|].RemoveDoubles?
  }

  /** Arc Centre MV with `pdt_extend`: every selected vertex at the centre, then one `remove_doubles`. */
  lemma MoveGathers(w: W.World, o: W.Obj, vs: seq<nat>, v: Vec, radius: real)
    requires W.ValidWorld(w) && W.Active(w) == Some(o) && vs == BMesh.SelectedVerts(o.mesh) && w.scene.extend
    ensures Gathered(w, o.mesh, vs, v, radius, CentreMove(w, o, vs, v, radius))
  {
  }

  /**
   Arc Centre EV without `pdt_extend`: a new vertex at the centre joined to
   the newest history vertex, the selection otherwise untouched; an empty
   history raises, leaving the radius written and the new vertex unjoined.
   */
  lemma CentreJoinsNewest(w: W.World, arc: (Vec, Vec, Vec) -> Arc, rev: Placement.Revision)
    requires W.ValidWorld(w) && w.scene.operate == EV && !w.scene.extend
    requires W.Active(w).Some? && W.Active(w).value.mode == W.EditMode
    requires var m := W.Active(w).value.mesh; var vs := BMesh.SelectedVerts(m);
      |vs| == 3 && arc(m.co[vs[0]], m.co[vs[1]], m.co[vs[2]]).radius.Some?
    ensures var o := W.Active(w).value; var vs := BMesh.SelectedVerts(o.mesh);
      var a := arc(o.mesh.co[vs[0]], o.mesh.co[vs[1]], o.mesh.co[vs[2]]);
      var r := Centre(w, arc, rev);
      (|o.mesh.history| == 0 ==>
         r.status == W.Raised(W.IndexFault)
         && W.ActiveMeshIs(w.(scene := w.scene.(distance := a.radius.value)), r.world, o.mesh.(co := o.mesh.co + [a.centre])))
      && (|o.mesh.history| > 0 && BMesh.Newest(o.mesh, 0).VertElem? ==>
            r.status == W.Finished && W.Active(r.world).Some?
            && var m := W.Active(r.world).value.mesh;
            m.co == o.mesh.co + [a.centre]
            && m.edges == o.mesh.edges + [BMesh.Edge(BMesh.Newest(o.mesh, 0).v, |o.mesh.co|)]
            && m.selVerts == o.mesh.selVerts && m.history == [])
  {
  }
}
