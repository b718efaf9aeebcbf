/**
 The tool operators, in both revisions: Join 2 Vertices (`pdt.join`),
 Fillet (`pdt.fillet`), Measure 2D and Measure 3D (`pdt.angle2`,
 `pdt.angle3`), Move Origin (`pdt.origin`) and Taper (`pdt.taper`).

 numpy's `arctan2` and `arccos` arrive as a `Measures` parameter, square
 roots and `tan` as `Numerics`, the view-plane transforms as a
 `PdtFunctions.View`. The bevel Fillet asks Blender for is logged, not
 performed.
 */
module Tools {
  import opened Vectors
  import opened Wrappers
  import opened Properties
  import M = Messages
  import BMesh
  import W = World
  import PdtFunctions
  import Placement
  import Convergence

  /**
   The angles numpy gives the measuring operators, in degrees:
   `rad2deg(arctan2(y, x))`, and the angle between two vectors,
   `degrees(arccos(dot(a, b) / (norm(a) * norm(b))))`.
   */
  datatype Measures = Measures(atan2: (real, real) -> real, between: (Vec, Vec) -> real)

  /**
   The `poll` of the Design revision's Join, Fillet and Taper: an active
   object in Edit mode. When it fails Blender does not run `execute`.
   */
  predicate EditPoll(w: W.World)
    requires W.ValidWorld(w)
  {
    W.Active(w).Some? && W.Active(w).value.mode == W.EditMode
  }

  /** An operator whose `poll` failed: nothing runs and nothing changes. */
  function Refused(w: W.World): (r: W.Outcome)
    ensures r.world == w && r.status == W.Cancelled
  {
    W.Outcome(w, W.Cancelled)
  }

  // ------------------------------------------------------------------ join

  /** An Edit-mode object with exactly two selected vertices that no edge joins yet. */
  predicate Joinable(w: W.World)
    requires W.ValidWorld(w)
  {
    match W.Active(w)
    case None => false
    case Some(o) =>
      var vs := BMesh.SelectedVerts(o.mesh);
      o.mode == W.EditMode && |vs| == 2 && !BMesh.Connected(o.mesh, vs[1], vs[0])
  }

  /**
   `pdt.join`: an edge from the later to the earlier of exactly two selected
   vertices (`bm.edges.new([verts[-1], verts[-2]])`), then the history
   cleared. The `ValueError` Blender raises for vertices already joined is
   caught and reported. The older revision checks the object and the mode
   itself; the Design revision leaves both to `poll`.
   */
  function Join(w: W.World, rev: Placement.Revision): (r: W.Outcome)
    requires W.ValidWorld(w)
    ensures W.ValidWorld(r.world)
    ensures r.world.scene == w.scene && r.world.host == w.host
    ensures r.status == W.Cancelled <==> rev == Placement.Design && !EditPoll(w)
    ensures r.status != W.Cancelled ==> r.status == W.Finished
    ensures rev == Placement.Legacy && W.Active(w).None? ==> r == W.ReportError(w, M.Plain(M.NoActObj))
    ensures rev == Placement.Legacy && W.Active(w).Some? && W.Active(w).value.mode != W.EditMode ==>
      r == W.ReportError(w, M.Plain(M.EditMode))
    ensures Joinable(w) ==>
      var m := W.Active(w).value.mesh;
      var vs := BMesh.SelectedVerts(m);
      r.world == W.SetActiveMesh(w, m.(edges := m.edges + [BMesh.Edge(vs[1], vs[0])], history := []))
    ensures !Joinable(w) ==> r.world.objects == w.objects
  {
    match W.Active(w)
    case None => if rev == Placement.Design then Refused(w) else W.ReportError(w, M.Plain(M.NoActObj))
    case Some(o) =>
      if o.mode != W.EditMode then
        if rev == Placement.Design then Refused(w) else W.ReportError(w, M.Plain(M.EditMode))
      else JoinEdit(w, o, rev)
  }

  /** The Edit-mode body of Join. */
  function JoinEdit(w: W.World, o: W.Obj, rev: Placement.Revision): (r: W.Outcome)
    requires W.ValidWorld(w) && W.Active(w) == Some(o) && o.mode == W.EditMode
    ensures W.ValidWorld(r.world) && r.status == W.Finished
    ensures |BMesh.SelectedVerts(o.mesh)| != 2 ==>
      r == W.ReportError(w, Convergence.Miscount(M.Sel2Verts, |BMesh.SelectedVerts(o.mesh)|, rev))
    ensures |BMesh.SelectedVerts(o.mesh)| == 2 && !Joinable(w) ==> r == W.ReportError(w, M.Plain(M.Connected))
    ensures Joinable(w) ==>
      var vs := BMesh.SelectedVerts(o.mesh);
      r.world == W.SetActiveMesh(w, o.mesh.(edges := o.mesh.edges + [BMesh.Edge(vs[1], vs[0])], history := []))
  {
    var m := o.mesh;
    var vs := BMesh.SelectedVerts(m);
    if |vs| != 2 then W.ReportError(w, Convergence.Miscount(M.Sel2Verts, |vs|, rev))
    else
      match BMesh.AddEdge(m, vs[1], vs[0])
      case None => W.ReportError(w, M.Plain(M.Connected))
      case Some(m1) => W.Done(W.SetActiveMesh(w, BMesh.ClearHistory(m1)))
  }

  // ---------------------------------------------------------------- fillet

  /** The `bpy.ops.mesh.bevel` call Fillet makes with the fillet settings. */
  function BevelCall(s: Scene): W.HostCall
  {
    W.Bevel(s.filletRadius, s.filletSegments, W.ProfileValue(s.filletProfile), s.filletVerts)
  }

  /**
   `pdt.fillet`: a bevel of the selection with the scene's fillet radius,
   segment count, profile and vertex-only switch, when at least one vertex
   is selected. The older revision falls off the end of `execute` outside
   Edit mode.
   */
  function Fillet(w: W.World, rev: Placement.Revision): (r: W.Outcome)
    requires W.ValidWorld(w)
    ensures r.world.scene == w.scene && r.world.objects == w.objects
    ensures W.ValidWorld(r.world)
    ensures r.status == W.Cancelled <==> rev == Placement.Design && !EditPoll(w)
    ensures r.status == W.NoReturn <==>
      rev != Placement.Design && W.Active(w).Some? && W.Active(w).value.mode != W.EditMode
    ensures r.status == W.NoReturn ==> r.world == w
    ensures r.world.host != w.host <==>
      W.Active(w).Some? && W.Active(w).value.mode == W.EditMode && |BMesh.SelectedVerts(W.Active(w).value.mesh)| > 0
    ensures r.world.host != w.host ==> r == W.Done(W.CallHost(w, BevelCall(w.scene)))
    ensures W.Active(w).Some? && W.Active(w).value.mode == W.EditMode && |BMesh.SelectedVerts(W.Active(w).value.mesh)| == 0 ==>
      r == W.ReportError(w, M.Plain(M.Sel1Vert))
  {
    match W.Active(w)
    case None => if rev == Placement.Design then Refused(w) else W.ReportError(w, M.Plain(M.NoActObj))
    case Some(o) =>
      if o.mode != W.EditMode then
        if rev == Placement.Design then Refused(w) else W.Outcome(w, W.NoReturn)
      else if |BMesh.SelectedVerts(o.mesh)| == 0 then W.ReportError(w, M.Plain(M.Sel1Vert))
      else W.Done(W.CallHost(w, BevelCall(w.scene)))
  }

  // --------------------------------------------------------------- measure

  /** The points a measurement starts from, or the outcome that stops it first. */
  datatype Points = Points(ps: seq<Vec>) | Stopped(out: W.Outcome)

  /** Only the angle, the distance and the deltas of the scene may differ. */
  predicate Measured(s: Scene, t: Scene)
  {
    t == s.(angle := t.angle, distance := t.distance, deltaX := t.deltaX, deltaY := t.deltaY, deltaZ := t.deltaZ)
  }

  /** What stopping before a measurement may leave: a report, or the mesh reset by `checkSelection`. */
  predicate StopsCleanly(w: W.World, out: W.Outcome)
  {
    W.ValidWorld(out.world) && out.world.scene == w.scene && out.world.host == w.host
    && (out.status == W.Finished || out.status.Raised?)
    && (out.status.Raised? ==> out.world == w)
  }

  /**
   A newest history entry that is not a vertex makes `checkSelection` with
   two or more points deselect everything, clear the history and return a
   bare `None`. Every such caller unpacks that `None` into a tuple at once,
   so as written it raises `TypeError` and its `VERT_MODE` report is never
   reached; the intended reading makes the report.
   */
  function NotAVertex(w: W.World, o: W.Obj, reading: W.Reading): (r: W.Outcome)
    requires W.ValidWorld(w) && W.Active(w) == Some(o)
    ensures StopsCleanly(w, r)
    ensures r.status.Raised? <==> reading == W.AsWritten
    ensures r.status.Raised? ==> r.status.fault == W.TypeFault
    ensures r.status == W.Finished ==>
      W.Active(r.world).Some? && W.Active(r.world).value.mesh.history == []
      && BMesh.SelectedVerts(W.Active(r.world).value.mesh) == []
      && r.world.reports == w.reports + [W.ErrorReport(M.Plain(M.VertMode))]
  {
    if reading == W.AsWritten then W.Crash(w, W.TypeFault)
    else W.ReportError(W.SetActiveMesh(w, BMesh.ClearHistory(BMesh.DeselectAll(o.mesh))), M.Plain(M.VertMode))
  }

  /**
   The Edit-mode points: exactly `n` selected vertices, picked one by one
   so that the history holds exactly `n` vertices; newest first.
   */
  function EditPoints(w: W.World, o: W.Obj, n: nat, tag: M.Tag, rev: Placement.Revision, reading: W.Reading): (r: Points)
    requires W.ValidWorld(w) && W.Active(w) == Some(o) && 2 <= n <= 3
    ensures r.Points? <==>
      |BMesh.SelectedVerts(o.mesh)| == n && |o.mesh.history| == n
      && forall k :: 0 <= k < n ==> BMesh.Newest(o.mesh, k).VertElem?
    ensures r.Points? ==> |r.ps| == n && forall k :: 0 <= k < n ==> r.ps[k] == o.mesh.co[BMesh.Newest(o.mesh, k).v]
    ensures r.Stopped? ==> StopsCleanly(w, r.out)
    ensures |BMesh.SelectedVerts(o.mesh)| != n ==>
      r == Stopped(W.ReportError(w, Convergence.Miscount(tag, |BMesh.SelectedVerts(o.mesh)|, rev)))
    ensures |BMesh.SelectedVerts(o.mesh)| == n && |o.mesh.history| != n ==>
      r == Stopped(W.ReportError(w, Convergence.Miscount(tag, |o.mesh.history|, rev)))
    ensures |BMesh.SelectedVerts(o.mesh)| == n && |o.mesh.history| == n && !BMesh.Newest(o.mesh, 0).VertElem? ==>
      r == Stopped(NotAVertex(w, o, reading))
  {
    var m := o.mesh;
    var verts := BMesh.SelectedVerts(m);
    if |verts| != n then Stopped(W.ReportError(w, Convergence.Miscount(tag, |verts|, rev)))
    else if |m.history| != n then Stopped(W.ReportError(w, Convergence.Miscount(tag, |m.history|, rev)))
    else
      match PdtFunctions.CheckSelection(n, m)
      case Found(c) => Points(c)
      case Reset(_) => Stopped(NotAVertex(w, o, reading))
      case CheckFault(f) => Stopped(W.Crash(w, f))
      case Short => assert false; Stopped(W.Crash(w, W.IndexFault))
      case NoTuple => assert false; Stopped(W.Crash(w, W.IndexFault))
  }

  /** `[ob for ob in objs if ob.name != name]`. */
  function Others(objs: seq<W.Obj>, name: string): (r: seq<W.Obj>)
    ensures |r| <= |objs|
    ensures forall k :: 0 <= k < |r| ==> r[k].name != name
  {
    if |objs| == 0 then []
    else if objs[0].name == name then Others(objs[1..], name)
    else [objs[0]] + Others(objs[1..], name)
  }

  /**
   The Object-mode points: the active object's location, then the last and
   (for three points) the second-to-last of the other selected objects.
   `guard` is the fewest selected objects the revision lets through.
   */
  function ObjectPoints(w: W.World, o: W.Obj, n: nat, guard: nat, tag: M.Tag, rev: Placement.Revision): (r: Points)
    requires W.ValidWorld(w) && W.Active(w) == Some(o) && 2 <= n <= 3
    ensures r.Stopped? ==> StopsCleanly(w, r.out)
    ensures |w.selected| < guard ==> r == Stopped(W.ReportError(w, Convergence.Miscount(tag, |w.selected|, rev)))
    ensures |w.selected| >= guard ==>
      var others := Others(Convergence.SelectedObjects(w), o.name);
      (r.Points? <==> |others| >= n - 1) && (r.Stopped? ==> r.out == W.Crash(w, W.IndexFault))
    ensures r.Points? ==>
      var others := Others(Convergence.SelectedObjects(w), o.name);
      |r.ps| == n && |others| >= n - 1 && r.ps[0] == o.location
      && r.ps[1] == others[|others| - 1].location && (n == 3 ==> r.ps[2] == others[|others| - 2].location)
  {
    var objs := Convergence.SelectedObjects(w);
    if |objs| < guard then Stopped(W.ReportError(w, Convergence.Miscount(tag, |objs|, rev)))
    else
      var others := Others(objs, o.name);
      if |others| < n - 1 then Stopped(W.Crash(w, W.IndexFault))
      else if n == 2 then Points([o.location, others[|others| - 1].location])
      else Points([o.location, others[|others| - 1].location, others[|others| - 2].location])
  }

  /** `pdt_flipangle` applied to a measured angle. */
  function Flipped(flip: bool, a: real): real
  {
    if flip then Placement.FlipAngle(a) else a
  }

  /** `np.dot` of two plane vectors. */
  function Dot2(a: PdtFunctions.P2, b: PdtFunctions.P2): real
  {
    a.u * b.u + a.v * b.v
  }

  /**
   The scene after Measure 2D has measured from `act` to `oth`. In the view
   plane both points are first carried into view axes, with `act` at the
   origin; so there the deltas are in view axes too.
   */
  function Measure2(s: Scene, act: Vec, oth: Vec, view: PdtFunctions.View, ms: Measures, num: Numerics): (t: Scene)
    ensures Measured(s, t)
    ensures s.plane != LO ==>
      var axes := PdtFunctions.SetMode(s.plane).value;
      var d := Sub(oth, act);
      t.angle == Clamp(Flipped(s.flipAngle, ms.atan2(Get(d, axes.1), Get(d, axes.0))), -180.0, 180.0)
      && t.distance == num.sqrt(Sq(Get(d, axes.0)) + Sq(Get(d, axes.1)))
      && Placement.Deltas(t) == d
    ensures s.plane == LO ==>
      var d := view.coordsI(Sub(oth, act));
      t.angle == Clamp(Flipped(s.flipAngle, ms.atan2(d.y, d.x)), -180.0, 180.0)
      && t.distance == num.sqrt(Sq(d.x) + Sq(d.y))
      && Placement.Deltas(t) == d
  {
    var a1: Axis := if s.plane == LO then 0 else PdtFunctions.SetMode(s.plane).value.0;
    var a2: Axis := if s.plane == LO then 1 else PdtFunctions.SetMode(s.plane).value.1;
    var actV := if s.plane == LO then Zero else act;
    var othV := if s.plane == LO then view.coordsI(Sub(oth, act)) else oth;
    var v0 := PdtFunctions.P2(Get(actV, a1) + 1.0 - Get(actV, a1), Get(actV, a2) - Get(actV, a2));
    var v1 := PdtFunctions.P2(Get(othV, a1) - Get(actV, a1), Get(othV, a2) - Get(actV, a2));
    var ang := ms.atan2(PdtFunctions.Cross2(v0, v1), Dot2(v0, v1));
    var du := Get(actV, a1) - Get(othV, a1);
    var dv := Get(actV, a2) - Get(othV, a2);
    var s1 := AssignAngle(s, Flipped(s.flipAngle, ang));
    SquareOfDifference(Get(actV, a1), Get(othV, a1));
    SquareOfDifference(Get(actV, a2), Get(othV, a2));
    GetSub(oth, act, a1);
    GetSub(oth, act, a2);
    s1.(distance := num.sqrt(Sq(du) + Sq(dv)),
        deltaX := othV.x - actV.x, deltaY := othV.y - actV.y, deltaZ := othV.z - actV.z)
  }

  lemma GetSub(a: Vec, b: Vec, i: Axis)
    ensures Get(Sub(a, b), i) == Get(a, i) - Get(b, i)
  {
  }

  function Sq(x: real): real
  {
    x * x
  }

  lemma SquareOfDifference(a: real, b: real)
    ensures Sq(a - b) == Sq(b - a)
  {
  }

  /** The squared distance does not depend on the direction it is measured in. */
  lemma Dist2Symmetric(a: Vec, b: Vec)
    ensures Dist2(a, b) == Dist2(b, a)
  {
    assert Dist2(a, b) == Sq(a.x - b.x) + Sq(a.y - b.y) + Sq(a.z - b.z);
    SquareOfDifference(a.x, b.x);
    SquareOfDifference(a.y, b.y);
    SquareOfDifference(a.z, b.z);
  }

  /** The scene after Measure 3D has measured the angle at `act` between `oth` and `lst`. */
  function Measure3(s: Scene, act: Vec, oth: Vec, lst: Vec, ms: Measures, num: Numerics): (t: Scene)
    ensures Measured(s, t)
    ensures t.angle == Clamp(Flipped(s.flipAngle, ms.between(Sub(oth, act), Sub(lst, act))), -180.0, 180.0)
    ensures t.distance == num.sqrt(Dist2(oth, act))
    ensures t.distance == num.sqrt(Dist2(act, oth))
    ensures Add(act, Placement.Deltas(t)) == oth
  {
    var ang := ms.between(Sub(oth, act), Sub(lst, act));
    Dist2Symmetric(act, oth);
    var s1 := AssignAngle(s, Flipped(s.flipAngle, ang));
    s1.(distance := num.sqrt(Dist2(act, oth)),
        deltaX := oth.x - act.x, deltaY := oth.y - act.y, deltaZ := oth.z - act.z)
  }

  /**
   `pdt.angle2`: the angle and distance from the first point to the second
   in the working plane, and the deltas between them. In a mode other than
   Edit and Object the points are never bound, and the first read of one
   raises.
   */
  function Angle2(w: W.World, view: PdtFunctions.View, ms: Measures, num: Numerics, rev: Placement.Revision, reading: W.Reading): (r: W.Outcome)
    requires W.ValidWorld(w)
    ensures W.ValidWorld(r.world) && r.world.host == w.host
    ensures r.status == W.Finished || r.status.Raised?
    ensures r.status.Raised? ==> r.world == w
    ensures Measured(w.scene, r.world.scene)
    ensures W.Active(w).None? ==> r == W.ReportError(w, M.Plain(M.NoActObj))
    ensures W.Active(w).Some? && W.Active(w).value.mode.OtherMode? ==>
      r == W.Crash(w, W.UnboundLocal(if w.scene.plane == LO then "othV" else "actV"))
  {
    match W.Active(w)
    case None => W.ReportError(w, M.Plain(M.NoActObj))
    case Some(o) =>
      if o.mode.OtherMode? then W.Crash(w, W.UnboundLocal(if w.scene.plane == LO then "othV" else "actV"))
      else
        var p := if o.mode == W.EditMode then EditPoints(w, o, 2, M.Sel2Vertio, rev, reading)
          else ObjectPoints(w, o, 2, 2, M.Sel2Objs, rev);
        Measuring2(w, p, view, ms, num)
  }

  /** Measure 2D once the points are gathered, or stopped. */
  function Measuring2(w: W.World, p: Points, view: PdtFunctions.View, ms: Measures, num: Numerics): (r: W.Outcome)
    requires W.ValidWorld(w)
    requires p.Stopped? ==> StopsCleanly(w, p.out)
    requires p.Points? ==> |p.ps| == 2
    ensures W.ValidWorld(r.world) && r.world.host == w.host
    ensures r.status == W.Finished || r.status.Raised?
    ensures r.status.Raised? ==> r.world == w
    ensures Measured(w.scene, r.world.scene)
    ensures p.Stopped? ==> r == p.out
  {
    match p
    case Stopped(out) => out
    case Points(ps) => W.Done(W.SetScene(w, Measure2(w.scene, ps[0], ps[1], view, ms, num)))
  }

  /**
   The fewest selected objects Measure 3D lets through: three in the Design
   revision, two in the older one, which then reads a second other object
   that need not exist.
   */
  function Angle3Guard(rev: Placement.Revision): nat
  {
    if rev == Placement.Design then 3 else 2
  }

  /**
   `pdt.angle3`: the angle at the first point between the lines to the
   second and third, the distance from the first to the second, and the
   deltas between those two.
   */
  function Angle3(w: W.World, ms: Measures, num: Numerics, rev: Placement.Revision, reading: W.Reading): (r: W.Outcome)
    requires W.ValidWorld(w)
    ensures W.ValidWorld(r.world) && r.world.host == w.host
    ensures r.status == W.Finished || r.status.Raised?
    ensures r.status.Raised? ==> r.world == w
    ensures Measured(w.scene, r.world.scene)
    ensures W.Active(w).None? ==> r == W.ReportError(w, M.Plain(M.NoActObj))
    ensures W.Active(w).Some? && W.Active(w).value.mode.OtherMode? ==> r == W.Crash(w, W.UnboundLocal("othV"))
  {
    match W.Active(w)
    case None => W.ReportError(w, M.Plain(M.NoActObj))
    case Some(o) =>
      if o.mode.OtherMode? then W.Crash(w, W.UnboundLocal("othV"))
      else Angle3Of(w, o, ms, num, rev, reading)
  }

  /** `pdt.angle3` once the active object is in Edit or Object mode. */
  function Angle3Of(w: W.World, o: W.Obj, ms: Measures, num: Numerics, rev: Placement.Revision, reading: W.Reading): (r: W.Outcome)
    requires W.ValidWorld(w) && W.Active(w) == Some(o) && !o.mode.OtherMode?
    ensures W.ValidWorld(r.world) && r.world.host == w.host
    ensures r.status == W.Finished || r.status.Raised?
    ensures r.status.Raised? ==> r.world == w
    ensures Measured(w.scene, r.world.scene)
  {
    var p := if o.mode == W.EditMode then EditPoints(w, o, 3, M.Sel3Vertio, rev, reading)
      else ObjectPoints(w, o, 3, Angle3Guard(rev), M.Sel3Objs, rev);
    match p
    case Stopped(out) => out
    case Points(ps) => W.Done(W.SetScene(w, Measure3(w.scene, ps[0], ps[1], ps[2], ms, num)))
  }

  // ---------------------------------------------------------------- origin

  /** The Design revision names the mode it refuses; the older one does not. */
  function NotEditOrObject(o: W.Obj, rev: Placement.Revision): M.Message
  {
    if rev == Placement.Design then M.Message(M.EdobMode, W.ModeName(o.mode)) else Convergence.Sensible
  }

  /**
   `pdt.origin`: the object moved to the cursor and every vertex moved the
   other way, so that no vertex moves in the world. Edit mode also clears
   the selection history.
   */
  function Origin(w: W.World, rev: Placement.Revision): (r: W.Outcome)
    requires W.ValidWorld(w)
    ensures W.ValidWorld(r.world) && r.status == W.Finished
    ensures r.world.scene == w.scene && r.world.host == w.host
    ensures r.world.selected == w.selected && r.world.active == w.active
    ensures W.Active(w).None? ==> r == W.ReportError(w, M.Plain(M.NoActObj))
    ensures W.Active(w).Some? && W.Active(w).value.mode.OtherMode? ==>
      r == W.ReportError(w, NotEditOrObject(W.Active(w).value, rev))
    ensures W.Active(w).Some? && !W.Active(w).value.mode.OtherMode? ==>
      var o := W.Active(w).value;
      var o2 := W.Active(r.world).value;
      r.world.reports == w.reports
      && o2.location == w.scene.cursor
      && |o2.mesh.co| == |o.mesh.co|
      && (forall j :: 0 <= j < |o.mesh.co| ==> Add(o2.location, o2.mesh.co[j]) == Add(o.location, o.mesh.co[j]))
      && o2 == o.(location := o2.location, mesh := o.mesh.(co := o2.mesh.co, history := o2.mesh.history))
      && o2.mesh.history == (if o.mode == W.EditMode then [] else o.mesh.history)
  {
    match W.Active(w)
    case None => W.ReportError(w, M.Plain(M.NoActObj))
    case Some(o) =>
      if o.mode.OtherMode? then W.ReportError(w, NotEditOrObject(o, rev))
      else OriginMoved(w, o)
  }

  /** The origin moved to the cursor and the mesh moved back by the same offset. */
  function OriginMoved(w: W.World, o: W.Obj): (r: W.Outcome)
    requires W.ValidWorld(w) && W.Active(w) == Some(o) && !o.mode.OtherMode?
    ensures W.ValidWorld(r.world) && r.status == W.Finished
    ensures r.world.scene == w.scene && r.world.host == w.host
    ensures r.world.selected == w.selected && r.world.active == w.active
    ensures
      var o2 := W.Active(r.world).value;
      r.world.reports == w.reports
      && o2.location == w.scene.cursor
      && |o2.mesh.co| == |o.mesh.co|
      && (forall j :: 0 <= j < |o.mesh.co| ==> Add(o2.location, o2.mesh.co[j]) == Add(o.location, o.mesh.co[j]))
      && o2 == o.(location := o2.location, mesh := o.mesh.(co := o2.mesh.co, history := o2.mesh.history))
      && o2.mesh.history == (if o.mode == W.EditMode then [] else o.mesh.history)
  {
    var m := o.mesh;
    var d := Sub(o.location, w.scene.cursor);
    var all := Convergence.AllVerts(m);
    assert forall j :: 0 <= j < |m.co| ==> j in all by {
      forall j | 0 <= j < |m.co| ensures j in all { assert all[j] == j; }
    }
    var m1 := BMesh.TranslateAll(m, all, d);
    var m2 := if o.mode == W.EditMode then BMesh.ClearHistory(m1) else m1;
    W.Done(W.SetActive(w, o.(location := w.scene.cursor, mesh := m2)))
  }

  // ----------------------------------------------------------------- taper

  /**
   Where a vertex at `p` goes when the rotation vertex stands at `q`. In a
   world plane, `p` slides along the second taper axis by its distance from
   `q` in the plane of the second and third axes, times `tan` of the angle.
   In the view plane the distance is taken in view axes from `viewV`, the
   rotation vertex's view position when the loop began, and the slide is
   whatever `viewDir` gives.
   */
  function Tapered(p: Vec, q: Vec, s: Scene, viewV: Vec, view: PdtFunctions.View, num: Numerics): Vec
  {
    var t := num.tan(num.Radians(s.angle));
    if s.plane == LO then
      var vl := view.coords(p);
      var dis := num.sqrt((viewV.x - vl.x) * (viewV.x - vl.x) + (viewV.y - vl.y) * (viewV.y - vl.y));
      Sub(p, view.dir(dis * t, 0.0))
    else
      var axes := PdtFunctions.SetAxis(s.taper);
      var dis := num.sqrt((Get(q, axes.2) - Get(p, axes.2)) * (Get(q, axes.2) - Get(p, axes.2))
                          + (Get(q, axes.1) - Get(p, axes.1)) * (Get(q, axes.1) - Get(p, axes.1)));
      With(p, axes.1, Get(p, axes.1) - dis * t)
  }

  /**
   The loop over the selected vertices, in order. The rotation vertex is a
   live reference, so each step reads where it stands at that moment.
   */
  function TaperLoop(m: BMesh.Mesh, vs: seq<nat>, rot: nat, s: Scene, viewV: Vec,
                     view: PdtFunctions.View, num: Numerics): (r: BMesh.Mesh)
    requires BMesh.Valid(m) && rot < |m.co|
    requires forall k :: 0 <= k < |vs| ==> vs[k] < |m.co|
    ensures BMesh.Valid(r) && |r.co| == |m.co|
    ensures r == m.(co := r.co)
    ensures forall j :: 0 <= j < |m.co| && j !in vs ==> r.co[j] == m.co[j]
    ensures s.plane != LO ==>
      var axes := PdtFunctions.SetAxis(s.taper);
      forall j :: 0 <= j < |m.co| ==>
        Get(r.co[j], axes.0) == Get(m.co[j], axes.0) && Get(r.co[j], axes.2) == Get(m.co[j], axes.2)
    decreases |vs|
  {
    if |vs| == 0 then m
    else
      var m1 := BMesh.SetCo(m, vs[0], Tapered(m.co[vs[0]], m.co[rot], s, viewV, view, num));
      TaperLoop(m1, vs[1..], rot, s, viewV, view, num)
  }

  /** The angle Taper accepts: at most 80 degrees either way. */
  predicate TaperAngleOk(s: Scene)
  {
    -80.0 <= s.angle <= 80.0
  }

  /**
   `pdt.taper`: shears the selected vertices by the scene's angle about
   the newest vertex of the history, along the second axis of `pdt_taper`,
   then clears the history. An angle beyond 80 degrees either way is
   refused before anything else is looked at.
   */
  function Taper(w: W.World, view: PdtFunctions.View, num: Numerics, rev: Placement.Revision): (r: W.Outcome)
    requires W.ValidWorld(w)
    ensures W.ValidWorld(r.world)
    ensures r.world.scene == w.scene && r.world.host == w.host
    ensures r.status == W.Cancelled <==> rev == Placement.Design && !EditPoll(w)
    ensures r.status == W.Finished || r.status == W.Cancelled || r.status == W.Raised(W.AttributeFault)
    ensures r.status.Raised? ==> r.world == w
    ensures r.status == W.Finished && !TaperAngleOk(w.scene) ==> r == W.ReportError(w, M.Plain(M.TaperAng))
    ensures r.world.objects != w.objects ==> TaperAngleOk(w.scene) && EditPoll(w)
    ensures r.world.objects != w.objects ==>
      var m := W.Active(w).value.mesh;
      |m.history| >= 1 && BMesh.Newest(m, 0).VertElem?
  {
    if rev == Placement.Design && !EditPoll(w) then Refused(w)
    else if !TaperAngleOk(w.scene) then W.ReportError(w, M.Plain(M.TaperAng))
    else
      match W.Active(w)
      case None => W.ReportError(w, M.Plain(M.NoActObj))
      case Some(o) =>
        if o.mode != W.EditMode then W.ReportError(w, Convergence.Sensible)
        else TaperEdit(w, o, view, num, rev)
  }

  /** The Edit-mode body of Taper, once the angle has passed. */
  function TaperEdit(w: W.World, o: W.Obj, view: PdtFunctions.View, num: Numerics, rev: Placement.Revision): (r: W.Outcome)
    requires W.ValidWorld(w) && W.Active(w) == Some(o) && o.mode == W.EditMode
    ensures W.ValidWorld(r.world) && r.world.scene == w.scene && r.world.host == w.host
    ensures r.status == W.Finished || r.status == W.Raised(W.AttributeFault)
    ensures r.status.Raised? <==> |o.mesh.history| >= 1 && !BMesh.Newest(o.mesh, 0).VertElem?
    ensures r.status.Raised? ==> r.world == w
    ensures |o.mesh.history| == 0 ==> r == W.ReportError(w, Convergence.Miscount(M.TaperSel, 0, rev))
    ensures r.world.objects != w.objects ==> |o.mesh.history| >= 1 && BMesh.Newest(o.mesh, 0).VertElem?
    ensures |o.mesh.history| >= 1 && BMesh.Newest(o.mesh, 0).VertElem? ==>
      var m := o.mesh;
      var rot := BMesh.Newest(m, 0).v;
      r.world == W.SetActiveMesh(w, BMesh.ClearHistory(
        TaperLoop(m, BMesh.SelectedVerts(m), rot, w.scene, view.coords(m.co[rot]), view, num)))
  {
    var m := o.mesh;
    if |m.history| == 0 then W.ReportError(w, Convergence.Miscount(M.TaperSel, |m.history|, rev))
    else
      match BMesh.Newest(m, 0)
      case VertElem(rot) =>
        var viewV := view.coords(m.co[rot]);
        var m1 := TaperLoop(m, BMesh.SelectedVerts(m), rot, w.scene, viewV, view, num);
        W.Done(W.SetActiveMesh(w, BMesh.ClearHistory(m1)))
      case _ => W.Crash(w, W.AttributeFault)
  }
}

/** What the tool operators promise across calls, and the slip in the older Measure 3D. */
module ToolsFacts {
  import opened Vectors
  import opened Wrappers
  import opened Properties
  import M = Messages
  import BMesh
  import W = World
  import PdtFunctions
  import Placement
  import Convergence
  import opened Tools

  // ------------------------------------------------------------------ join

  /** Joining the same two vertices again is refused: the first join made them connected. */
  lemma JoinTwiceRefuses(w: W.World, rev: Placement.Revision)
    requires W.ValidWorld(w) && Joinable(w)
    ensures var r := Join(w, rev);
      r.status == W.Finished && Join(r.world, rev) == W.ReportError(r.world, M.Plain(M.Connected))
  {
    var o := W.Active(w).value;
    var m := o.mesh;
    var vs := BMesh.SelectedVerts(m);
    var r := Join(w, rev);
    var m1 := m.(edges := m.edges + [BMesh.Edge(vs[1], vs[0])], history := []);
    assert r.world == W.SetActiveMesh(w, m1);
    var o1 := W.Active(r.world).value;
    assert o1 == o.(mesh := m1);
    assert BMesh.SelectedVerts(m1) == vs;
    assert m1.edges[|m.edges|] == BMesh.Edge(vs[1], vs[0]);
    assert BMesh.Connected(m1, vs[1], vs[0]);
    assert !Joinable(r.world);
  }

  // ---------------------------------------------------------------- origin

  /** With the cursor where it was, Move Origin a second time changes nothing more. */
  lemma OriginIdempotent(w: W.World, rev: Placement.Revision)
    requires W.ValidWorld(w)
    ensures var r := Origin(w, rev); Origin(r.world, rev).world.objects == r.world.objects
  {
    var r := Origin(w, rev);
    match W.Active(w)
    case None =>
    case Some(o) =>
      if !o.mode.OtherMode? {
        var o1 := W.Active(r.world).value;
        var o2 := W.Active(Origin(r.world, rev).world).value;
        assert o1.location == w.scene.cursor;
        forall j | 0 <= j < |o1.mesh.co|
          ensures o2.mesh.co[j] == o1.mesh.co[j]
        {
          assert Add(o2.location, o2.mesh.co[j]) == Add(o1.location, o1.mesh.co[j]);
        }
        assert o2.mesh.co == o1.mesh.co;
        assert o2 == o1;
        assert Origin(r.world, rev).world == W.SetActive(r.world, o1);
      }
  }

  // --------------------------------------------------------------- measure

  /**
   The deltas Measure 2D leaves behind carry `pdt.delta` from the first
   point to the second: directly in a world plane, and in the view plane
   when `viewCoords` undoes `viewCoordsI`.
   */
  lemma MeasuredDeltasReachOther(s: Scene, act: Vec, oth: Vec, view: PdtFunctions.View, ms: Measures, num: Numerics)
    requires s.plane == LO ==> forall v :: view.coords(view.coordsI(v)) == v
    ensures Add(act, Placement.DeltaOffset(Measure2(s, act, oth, view, ms, num), view)) == oth
  {
  }

  /**
   In Edit mode Measure 2D measures from the newest vertex of the history to
   the one picked before it.
   */
  lemma Angle2MeasuresNewestFirst(w: W.World, view: PdtFunctions.View, ms: Measures, num: Numerics, rev: Placement.Revision, reading: W.Reading)
    requires W.ValidWorld(w) && W.Active(w).Some?
    requires var m := W.Active(w).value.mesh;
      W.Active(w).value.mode == W.EditMode && |BMesh.SelectedVerts(m)| == 2 && |m.history| == 2
      && BMesh.Newest(m, 0).VertElem? && BMesh.Newest(m, 1).VertElem?
    ensures var m := W.Active(w).value.mesh;
      Angle2(w, view, ms, num, rev, reading) ==
        W.Done(W.SetScene(w, Measure2(w.scene, m.co[BMesh.Newest(m, 0).v], m.co[BMesh.Newest(m, 1).v], view, ms, num)))
  {
    var o := W.Active(w).value;
    var p := EditPoints(w, o, 2, M.Sel2Vertio, rev, reading);
    assert p.Points?;
  }

  /**
   A history of two entries whose newest is an edge: as written,
   `checkSelection(2, …)` resets the selection and returns `None`, and
   unpacking it into `actV, othV` raises `TypeError` before the `VERT_MODE`
   test.
   */
  lemma Angle2NonVertexRaises(w: W.World, view: PdtFunctions.View, ms: Measures, num: Numerics, rev: Placement.Revision)
    requires W.ValidWorld(w) && W.Active(w).Some?
    requires var m := W.Active(w).value.mesh;
      W.Active(w).value.mode == W.EditMode && |BMesh.SelectedVerts(m)| == 2 && |m.history| == 2
      && !BMesh.Newest(m, 0).VertElem?
    ensures Angle2(w, view, ms, num, rev, W.AsWritten) == W.Crash(w, W.TypeFault)
  {
    var p := EditPoints(w, W.Active(w).value, 2, M.Sel2Vertio, rev, W.AsWritten);
    assert p == Stopped(W.Crash(w, W.TypeFault));
  }

  /** The same selection under the intended reading: the selection is reset and `VERT_MODE` reported. */
  lemma Angle2NonVertexReports(w: W.World, view: PdtFunctions.View, ms: Measures, num: Numerics, rev: Placement.Revision)
    requires W.ValidWorld(w) && W.Active(w).Some?
    requires var m := W.Active(w).value.mesh;
      W.Active(w).value.mode == W.EditMode && |BMesh.SelectedVerts(m)| == 2 && |m.history| == 2
      && !BMesh.Newest(m, 0).VertElem?
    ensures var r := Angle2(w, view, ms, num, rev, W.Intended);
      r.status == W.Finished && r.world.scene == w.scene
      && r.world.reports == w.reports + [W.ErrorReport(M.Plain(M.VertMode))]
      && W.Active(r.world).Some? && W.Active(r.world).value.mesh.history == []
      && BMesh.SelectedVerts(W.Active(r.world).value.mesh) == []
  {
    var p := EditPoints(w, W.Active(w).value, 2, M.Sel2Vertio, rev, W.Intended);
    assert p == Stopped(NotAVertex(w, W.Active(w).value, W.Intended));
  }

  /** Measure 3D with three history entries, the newest an edge, raises `TypeError` as written. */
  lemma Angle3NonVertexRaises(w: W.World, ms: Measures, num: Numerics, rev: Placement.Revision)
    requires W.ValidWorld(w) && W.Active(w).Some?
    requires var m := W.Active(w).value.mesh;
      W.Active(w).value.mode == W.EditMode && |BMesh.SelectedVerts(m)| == 3 && |m.history| == 3
      && !BMesh.Newest(m, 0).VertElem?
    ensures Angle3(w, ms, num, rev, W.AsWritten) == W.Crash(w, W.TypeFault)
  {
    var p := EditPoints(w, W.Active(w).value, 3, M.Sel3Vertio, rev, W.AsWritten);
    assert p == Stopped(W.Crash(w, W.TypeFault));
  }

  /** Blender keeps object names unique, so no two selected objects share one. */
  predicate DistinctNames(objs: seq<W.Obj>)
  {
    forall j, k :: 0 <= j < k < |objs| ==> objs[j].name != objs[k].name
  }

  /** Leaving out the objects called `name` when no object is called that keeps them all. */
  lemma {:induction false} OthersKeepsAll(objs: seq<W.Obj>, name: string)
    requires forall k :: 0 <= k < |objs| ==> objs[k].name != name
    ensures Others(objs, name) == objs
    decreases |objs|
  {
    if |objs| > 0 {
      OthersKeepsAll(objs[1..], name);
    }
  }

  /** With distinct names, leaving out the objects called `name` drops at most one. */
  lemma {:induction false} OthersDropsAtMostOne(objs: seq<W.Obj>, name: string)
    requires DistinctNames(objs)
    ensures |Others(objs, name)| >= |objs| - 1
    decreases |objs|
  {
    if |objs| > 0 {
      if objs[0].name == name {
        OthersKeepsAll(objs[1..], name);
      } else {
        OthersDropsAtMostOne(objs[1..], name);
      }
    }
  }

  /**
   The older Measure 3D lets two selected objects through, and when one of
   them is the active object only one other is left, so `objs_s[-2]` raises
   `IndexError`.
   */
  lemma LegacyAngle3TwoObjectsRaise(w: W.World, ms: Measures, num: Numerics, reading: W.Reading)
    requires W.ValidWorld(w) && W.Active(w).Some? && W.Active(w).value.mode == W.ObjectMode
    requires |w.selected| == 2 && w.selected[0] == w.active.value
    requires w.objects[w.selected[1]].name != W.Active(w).value.name
    ensures Angle3(w, ms, num, Placement.Legacy, reading) == W.Crash(w, W.IndexFault)
  {
    var o := W.Active(w).value;
    var objs := Convergence.SelectedObjects(w);
    assert Others(objs, o.name) == [objs[1]] by {
      assert objs[1..][1..] == [];
    }
  }

  /**
   The Design revision asks for three selected objects, so with distinct
   names two others always remain and Measure 3D in Object mode finishes.
   */
  lemma Angle3ObjectsFinish(w: W.World, ms: Measures, num: Numerics, reading: W.Reading)
    requires W.ValidWorld(w) && W.Active(w).Some? && W.Active(w).value.mode == W.ObjectMode
    requires DistinctNames(Convergence.SelectedObjects(w))
    ensures var r := Angle3(w, ms, num, Placement.Design, reading);
      r.status == W.Finished && (|w.selected| >= 3 <==> r.world.reports == w.reports)
  {
    OthersDropsAtMostOne(Convergence.SelectedObjects(w), W.Active(w).value.name);
  }

  /** Measure 2D in Object mode, in either revision, likewise never runs out of objects. */
  lemma Angle2ObjectsFinish(w: W.World, view: PdtFunctions.View, ms: Measures, num: Numerics, rev: Placement.Revision, reading: W.Reading)
    requires W.ValidWorld(w) && W.Active(w).Some? && W.Active(w).value.mode == W.ObjectMode
    requires DistinctNames(Convergence.SelectedObjects(w))
    ensures var r := Angle2(w, view, ms, num, rev, reading);
      r.status == W.Finished && (|w.selected| >= 2 <==> r.world.reports == w.reports)
  {
    OthersDropsAtMostOne(Convergence.SelectedObjects(w), W.Active(w).value.name);
  }

  // ----------------------------------------------------------------- taper

  /** In a world plane, the rotation vertex does not move when it is tapered itself. */
  lemma TaperFixesRotation(q: Vec, s: Scene, viewV: Vec, view: PdtFunctions.View, num: Numerics)
    requires s.plane != LO && num.sqrt(0.0) == 0.0
    ensures Tapered(q, q, s, viewV, view, num) == q
  {
    var axes := PdtFunctions.SetAxis(s.taper);
    var p := Tapered(q, q, s, viewV, view, num);
    assert (Get(q, axes.2) - Get(q, axes.2)) * (Get(q, axes.2) - Get(q, axes.2)) == 0.0;
    assert (Get(q, axes.1) - Get(q, axes.1)) * (Get(q, axes.1) - Get(q, axes.1)) == 0.0;
    Extensionality(p, q);
  }

  /**
   Although the loop reads the rotation vertex live, every selected vertex
   ends where `Tapered` puts it from the rotation vertex's starting place:
   the rotation vertex itself does not move.
   */
  lemma {:induction false} TaperLoopPointwise(m: BMesh.Mesh, vs: seq<nat>, rot: nat, s: Scene, viewV: Vec,
                                              view: PdtFunctions.View, num: Numerics)
    requires BMesh.Valid(m) && rot < |m.co|
    requires forall k :: 0 <= k < |vs| ==> vs[k] < |m.co|
    requires forall j, k :: 0 <= j < k < |vs| ==> vs[j] != vs[k]
    requires s.plane == LO || num.sqrt(0.0) == 0.0
    ensures var r := TaperLoop(m, vs, rot, s, viewV, view, num);
      forall j :: 0 <= j < |m.co| ==>
        r.co[j] == (if j in vs then Tapered(m.co[j], m.co[rot], s, viewV, view, num) else m.co[j])
    decreases |vs|
  {
    if |vs| > 0 {
      var m1 := BMesh.SetCo(m, vs[0], Tapered(m.co[vs[0]], m.co[rot], s, viewV, view, num));
      if s.plane != LO && vs[0] == rot {
        TaperFixesRotation(m.co[rot], s, viewV, view, num);
      }
      assert s.plane != LO ==> m1.co[rot] == m.co[rot];
      TaperLoopPointwise(m1, vs[1..], rot, s, viewV, view, num);
      var r := TaperLoop(m, vs, rot, s, viewV, view, num);
      assert r == TaperLoop(m1, vs[1..], rot, s, viewV, view, num);
      forall j | 0 <= j < |m.co|
        ensures r.co[j] == (if j in vs then Tapered(m.co[j], m.co[rot], s, viewV, view, num) else m.co[j])
      {
        if j == vs[0] {
          assert j !in vs[1..];
        } else if j in vs[1..] {
          assert m1.co[j] == m.co[j];
          assert Tapered(m1.co[j], m1.co[rot], s, viewV, view, num) == Tapered(m.co[j], m.co[rot], s, viewV, view, num);
        }
      }
    }
  }

  /** A zero angle, whose `tan` is zero, leaves every vertex where it was in a world plane. */
  lemma TaperZeroAngleStill(p: Vec, q: Vec, s: Scene, viewV: Vec, view: PdtFunctions.View, num: Numerics)
    requires s.plane != LO && num.tan(num.Radians(s.angle)) == 0.0
    ensures Tapered(p, q, s, viewV, view, num) == p
  {
    var axes := PdtFunctions.SetAxis(s.taper);
    Extensionality(Tapered(p, q, s, viewV, view, num), p);
  }
}
