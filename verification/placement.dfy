/**
 The placement operators Absolute, Delta, Direction and Percent, in both
 revisions of the add-on: `pdt_design.py` and the older
 `clockworxpdt/clockworx_pdt_ui.py`. Each reads `pdt_operate` to decide what
 it places (the cursor, the pivot point, the selected vertices or objects, a
 split point, a new vertex, extruded or duplicated geometry), vets the
 active object and its selection, and reports an error through
 `self.report` for any combination it does not handle. Every path returns
 `{"FINISHED"}` unless Python raises.

 The view-plane ("LO") transforms read the host's view matrix and arrive as
 a `PdtFunctions.View`; `sin`, `cos` and `pi` arrive as `Numerics`.
 */
module Placement {
  import opened Vectors
  import opened Wrappers
  import opened Properties
  import M = Messages
  import BMesh
  import Edits
  import W = World
  import PdtFunctions
  import Steps

  /** Which file's operators: `pdt_design.py`, or the older `clockworx_pdt_ui.py`. */
  datatype Revision = Design | Legacy

  /** `"<oper> is not a valid option"` for the operator called `name`. */
  function Unsupported(oper: Oper, name: string): M.Message
  {
    M.Message(M.NonValid, OperCode(oper) + " " + name)
  }

  /** The Design revision's refusal to add a vertex outside Edit mode, naming the mode. */
  function NotInEdit(o: W.Obj): M.Message
  {
    M.Message(M.EditMode, W.ModeName(o.mode))
  }

  /** `Vector((pdt_delta_x, pdt_delta_y, pdt_delta_z))`. */
  function Deltas(s: Scene): Vec
  {
    Vec(s.deltaX, s.deltaY, s.deltaZ)
  }

  /** Only the cursor and the pivot point of the scene may differ. */
  predicate SceneKeptBut(s: Scene, t: Scene, oper: Oper)
  {
    t == s.(cursor := t.cursor, pivot := t.pivot)
    && (oper != CU ==> t.cursor == s.cursor)
    && (oper != PP ==> t.pivot == s.pivot)
  }

  /**
   `verts = [v for v in bm.verts if v.select]` and its emptiness check. `bm`
   is bound only in Edit mode, so as written every other mode raises here;
   read as intended, the check belongs to Edit mode alone. `None` means the
   operator carries on.
   */
  function VertexGuard(w: W.World, o: W.Obj, reading: W.Reading): (r: Option<W.Outcome>)
    ensures r.None? <==>
      (if o.mode == W.EditMode then |BMesh.SelectedVerts(o.mesh)| > 0 else reading == W.Intended)
    ensures r.Some? && o.mode == W.EditMode ==> r.value == W.ReportError(w, M.Plain(M.NoActVerts))
    ensures r.Some? && o.mode != W.EditMode ==> r.value == W.Crash(w, W.UnboundLocal("bm"))
  {
    if o.mode != W.EditMode then
      if reading == W.Intended then None else Some(W.Crash(w, W.UnboundLocal("bm")))
    else if |BMesh.SelectedVerts(o.mesh)| == 0 then Some(W.ReportError(w, M.Plain(M.NoActVerts)))
    else None
  }

  // ------------------------------------------------------------ absolute

  /**
   `pdt.absolute`: place at the world coordinates in the delta fields. The
   cursor and the pivot point need no object; moving, splitting and
   extruding work on the active object's selected vertices.
   */
  function Absolute(w: W.World, rev: Revision, reading: W.Reading): (r: W.Outcome)
    requires W.ValidWorld(w)
    ensures W.ValidWorld(r.world)
    ensures r.status == W.Finished || r.status.Raised?
    ensures r.status.Raised? ==> r.world == w
    ensures w.scene.operate == CU ==>
      r == W.Done(w.(scene := w.scene.(cursor := Deltas(w.scene), cursorRotation := Zero)))
    ensures w.scene.operate == PP ==> r == W.Done(w.(scene := w.scene.(pivot := Deltas(w.scene))))
    ensures w.scene.operate !in {CU, PP} ==> r.world.scene == w.scene
  {
    var s := w.scene;
    var v := Deltas(s);
    match s.operate
    case CU => W.Done(w.(scene := s.(cursor := v, cursorRotation := Zero)))
    case PP => W.Done(w.(scene := s.(pivot := v)))
    case NV => AbsoluteNew(w, v, rev, reading)
    case _ =>
      match W.Active(w)
      case None => W.ReportError(w, M.Plain(M.NoActObj))
      case Some(o) =>
        match VertexGuard(w, o, reading)
        case Some(stop) => stop
        case None => AbsoluteEdit(w, o, v, rev)
  }

  /**
   Absolute NV. The older revision never binds `obj` on this path, so as
   written it raises whatever the scene holds; read as intended it fetches
   the active object first, as the Design revision does.
   */
  function AbsoluteNew(w: W.World, v: Vec, rev: Revision, reading: W.Reading): (r: W.Outcome)
    requires W.ValidWorld(w)
    ensures W.ValidWorld(r.world) && r.world.scene == w.scene
    ensures r.status == W.Finished || r.status.Raised?
    ensures r.status.Raised? <==> rev == Legacy && reading == W.AsWritten
    ensures r.status.Raised? ==> r == W.Crash(w, W.UnboundLocal("obj"))
  {
    if rev == Legacy && reading == W.AsWritten then W.Crash(w, W.UnboundLocal("obj"))
    else match W.Active(w)
      case None => W.ReportError(w, M.Plain(M.NoActObj))
      case Some(o) =>
        if o.mode != W.EditMode then
          W.ReportError(w, if rev == Design then NotInEdit(o) else Unsupported(NV, "Absolute"))
        else if rev == Design then W.Done(W.SetActiveMesh(w, Edits.NewVertexSelected(o.mesh, Sub(v, o.location))))
        else W.Done(W.SetActiveMesh(w, Edits.NewVertexOnly(o.mesh, Sub(v, o.location))))
  }

  /** Absolute MV, SE, EV (and the refusal of the rest), once the vertex guard has passed. */
  function AbsoluteEdit(w: W.World, o: W.Obj, v: Vec, rev: Revision): (r: W.Outcome)
    requires W.ValidWorld(w) && W.Active(w) == Some(o)
    ensures W.ValidWorld(r.world) && r.world.scene == w.scene
    ensures r.status == W.Finished
  {
    var oper := w.scene.operate;
    var verts := BMesh.SelectedVerts(o.mesh);
    var index := w.active.value;
    match oper
    case MV =>
      (match o.mode
       case EditMode =>
         var m1 := BMesh.SetCoAll(o.mesh, verts, Sub(v, o.location));
         W.Done(W.CallHost(W.SetActiveMesh(w, BMesh.ClearHistory(m1)),
                           W.RemoveDoubles(index, BMesh.SelectedVerts(m1), 0.0001)))
       case ObjectMode => W.Done(W.MoveSelectedObjects(w, v))
       case OtherMode(_) => W.Done(w))
    case SE =>
      if o.mode != W.EditMode then W.ReportError(w, Unsupported(oper, "Absolute"))
      else
        var edges := BMesh.SelectedEdges(o.mesh);
        if |edges| != 1 then
          W.ReportError(w, if rev == Design then M.Counted(M.Sel1Edge, |edges|) else M.Plain(M.Sel1Edge))
        else W.Done(Steps.Subdivided(w, W.SubdividePlace(index, edges, Sub(v, o.location))))
    case EV =>
      if o.mode != W.EditMode then W.ReportError(w, Unsupported(oper, "Absolute"))
      else
        var m1 := Edits.FanToNew(o.mesh, verts, Sub(v, o.location));
        Edits.FanToNewValid(o.mesh, verts, Sub(v, o.location));
        W.Done(W.CallHost(W.SetActiveMesh(w, BMesh.ClearHistory(m1)),
                          W.RemoveDoubles(index, BMesh.SelectedVerts(m1), 0.0001)))
    case _ => W.ReportError(w, Unsupported(oper, "Absolute"))
  }

  // ------------------------------------------------- delta and direction

  /** Delta and Direction share everything after the offset is computed. */
  datatype Kind = DeltaKind | DirectionKind

  function Label(k: Kind): string
  {
    match k
    case DeltaKind => "Delta"
    case DirectionKind => "Direction"
  }

  /** The offset `pdt.delta` applies: the delta fields, read in view axes for the view plane. */
  function DeltaOffset(s: Scene, view: PdtFunctions.View): Vec
  {
    if s.plane == LO then view.coords(Deltas(s)) else Deltas(s)
  }

  /** `pdt_flipangle`: turn the angle half a turn, staying within the declared range. */
  function FlipAngle(a: real): (b: real)
    ensures b == a - 180.0 || b == a + 180.0
    ensures -180.0 <= a <= 180.0 ==> -180.0 <= b <= 180.0
  {
    if a > 0.0 then a - 180.0 else a + 180.0
  }

  /**
   The offset `pdt.distance` applies: `d` along angle `a` in the working
   plane, measured from its first axis toward its second; in the view plane,
   whatever `viewDir` gives.
   */
  function DirectionOffset(s: Scene, a: real, view: PdtFunctions.View, num: Numerics): (r: Vec)
    ensures s.plane != LO ==>
      var axes := PdtFunctions.SetMode(s.plane).value;
      Get(r, axes.0) == s.distance * num.cos(num.Radians(a))
      && Get(r, axes.1) == s.distance * num.sin(num.Radians(a))
      && Get(r, axes.2) == 0.0
  {
    if s.plane == LO then view.dir(s.distance, a)
    else
      var axes := PdtFunctions.SetMode(s.plane).value;
      var r1 := With(Zero, axes.0, Get(Zero, axes.0) + s.distance * num.cos(num.Radians(a)));
      With(r1, axes.1, Get(r1, axes.1) + s.distance * num.sin(num.Radians(a)))
  }

  /** The angle `pdt.distance` works with: `pdt_angle`, flipped when `pdt_flipangle` is set. */
  function DirectionAngle(s: Scene): real
  {
    if s.flipAngle then FlipAngle(s.angle) else s.angle
  }

  /** `pdt.delta`. */
  function Delta(w: W.World, view: PdtFunctions.View, rev: Revision, reading: W.Reading): (r: W.Outcome)
    requires W.ValidWorld(w)
    ensures W.ValidWorld(r.world)
    ensures r.status == W.Finished || r.status.Raised?
  {
    Offsetting(w, DeltaOffset(w.scene, view), DeltaKind, rev, reading)
  }

  /** `pdt.distance`: flip the angle if asked (writing it back), then place by distance at angle. */
  function Direction(w: W.World, view: PdtFunctions.View, num: Numerics, rev: Revision, reading: W.Reading): (r: W.Outcome)
    requires W.ValidWorld(w)
    ensures W.ValidWorld(r.world)
    ensures r.status == W.Finished || r.status.Raised?
    ensures w.scene.flipAngle && -180.0 <= w.scene.angle <= 180.0 ==>
      r.world.scene.angle == FlipAngle(w.scene.angle)
    ensures !w.scene.flipAngle ==> r.world.scene.angle == w.scene.angle
  {
    var s := w.scene;
    var a := DirectionAngle(s);
    var s1 := if s.flipAngle then AssignAngle(s, a) else s;
    Offsetting(w.(scene := s1), DirectionOffset(s, a, view, num), DirectionKind, rev, reading)
  }

  /**
   Delta and Direction with the offset `v` in hand. REL mode moves the cursor
   or the pivot point by `v`; otherwise the active object is vetted, and in
   Edit mode CU, PP and NV need a vertex as the newest history entry.
   */
  function Offsetting(w: W.World, v: Vec, kind: Kind, rev: Revision, reading: W.Reading): (r: W.Outcome)
    requires W.ValidWorld(w)
    ensures W.ValidWorld(r.world)
    ensures r.status == W.Finished || r.status.Raised?
    ensures r.status.Raised? ==> r.world == w
    ensures SceneKeptBut(w.scene, r.world.scene, w.scene.operate)
    ensures w.scene.select == REL && w.scene.operate == CU ==>
      r == W.Done(w.(scene := w.scene.(cursor := Add(w.scene.cursor, v))))
    ensures w.scene.select == REL && w.scene.operate == PP ==>
      r == W.Done(w.(scene := w.scene.(pivot := Add(w.scene.pivot, v))))
  {
    var s := w.scene;
    if s.select == REL && s.operate == CU then W.Done(w.(scene := s.(cursor := Add(s.cursor, v))))
    else if s.select == REL && s.operate == PP then W.Done(w.(scene := s.(pivot := Add(s.pivot, v))))
    else match W.Active(w)
      case None => W.ReportError(w, M.Plain(M.NoActObj))
      case Some(o) =>
        if o.mode == W.EditMode && s.operate in {CU, PP, NV} then OffsetFromVertex(w, o, v, kind, rev, reading)
        else OffsetFrom(w, o, Zero, v, kind, rev, reading)
  }

  /** Edit-mode CU, PP and NV: the newest history entry must be a vertex, and the offset starts there. */
  function OffsetFromVertex(w: W.World, o: W.Obj, v: Vec, kind: Kind, rev: Revision, reading: W.Reading): (r: W.Outcome)
    requires W.ValidWorld(w) && W.Active(w) == Some(o)
    ensures W.ValidWorld(r.world)
    ensures r.status == W.Finished || r.status.Raised?
    ensures r.status.Raised? ==> r.world == w
    ensures SceneKeptBut(w.scene, r.world.scene, w.scene.operate)
    ensures |o.mesh.history| == 0 ==>
      r == W.ReportError(w, if rev == Design then M.Counted(M.Sel1Verti, 0) else M.Plain(M.Sel1Verti))
  {
    if |o.mesh.history| == 0 then
      W.ReportError(w, if rev == Design then M.Counted(M.Sel1Verti, 0) else M.Plain(M.Sel1Verti))
    else match PdtFunctions.CheckSelection(1, o.mesh)
      case Found(c) => OffsetFrom(w, o, c[0], v, kind, rev, reading)
      case Reset(m) => W.ReportError(W.SetActiveMesh(w, m), M.Plain(M.VertMode))
      case CheckFault(f) => W.Crash(w, f)
      case Short => assert false; W.Crash(w, W.IndexFault)
      case NoTuple => assert false; W.Crash(w, W.IndexFault)
  }

  /**
   The dispatch on `pdt_operate`. `act` is the active vertex's local
   coordinates, which only Edit-mode CU, PP and NV read.
   */
  function OffsetFrom(w: W.World, o: W.Obj, act: Vec, v: Vec, kind: Kind, rev: Revision, reading: W.Reading): (r: W.Outcome)
    requires W.ValidWorld(w) && W.Active(w) == Some(o)
    ensures W.ValidWorld(r.world)
    ensures r.status == W.Finished || r.status.Raised?
    ensures r.status.Raised? ==> r.world == w
    ensures SceneKeptBut(w.scene, r.world.scene, w.scene.operate)
  {
    var oper := w.scene.operate;
    if oper in {CU, PP} then OffsetPoint(w, o, act, v)
    else if oper == NV then OffsetNew(w, o, act, v, kind, rev)
    else match VertexGuard(w, o, reading)
      case Some(stop) => stop
      case None => OffsetEdit(w, o, v, kind, rev)
  }

  /** Delta and Direction CU and PP outside REL mode: from the active vertex, or from the object. */
  function OffsetPoint(w: W.World, o: W.Obj, act: Vec, v: Vec): (r: W.Outcome)
    requires W.ValidWorld(w) && W.Active(w) == Some(o) && w.scene.operate in {CU, PP}
    ensures r.status == W.Finished && r.world == w.(scene := r.world.scene)
    ensures SceneKeptBut(w.scene, r.world.scene, w.scene.operate)
  {
    var s := w.scene;
    var base := match o.mode
      case EditMode => Some(Add(o.location, act))
      case ObjectMode => Some(o.location)
      case OtherMode(_) => None;
    if base.None? then W.Done(w)
    else if s.operate == CU then W.Done(w.(scene := s.(cursor := Add(base.value, v))))
    else W.Done(w.(scene := s.(pivot := Add(base.value, v))))
  }

  /** Delta and Direction NV: a new vertex at the active vertex plus the offset. */
  function OffsetNew(w: W.World, o: W.Obj, act: Vec, v: Vec, kind: Kind, rev: Revision): (r: W.Outcome)
    requires W.ValidWorld(w) && W.Active(w) == Some(o) && w.scene.operate == NV
    ensures W.ValidWorld(r.world) && r.world.scene == w.scene && r.status == W.Finished
  {
    if o.mode != W.EditMode then
      W.ReportError(w, if rev == Design then NotInEdit(o) else Unsupported(NV, Label(kind)))
    else if rev == Design then W.Done(W.SetActiveMesh(w, Edits.NewVertexAlone(o.mesh, Add(act, v))))
    else W.Done(W.SetActiveMesh(w, Edits.NewVertexOnly(o.mesh, Add(act, v))))
  }

  /** Delta and Direction MV, SE, EV, DG and EG, once the vertex guard has passed. */
  function OffsetEdit(w: W.World, o: W.Obj, v: Vec, kind: Kind, rev: Revision): (r: W.Outcome)
    requires W.ValidWorld(w) && W.Active(w) == Some(o)
    ensures W.ValidWorld(r.world) && r.world.scene == w.scene && r.status == W.Finished
  {
    var oper := w.scene.operate;
    var verts := BMesh.SelectedVerts(o.mesh);
    var index := w.active.value;
    if oper == MV then
      match o.mode
      case EditMode => W.Done(W.SetActiveMesh(w, BMesh.ClearHistory(BMesh.TranslateAll(o.mesh, verts, v))))
      case ObjectMode =>
        W.Done(if kind == DeltaKind then W.MoveSelectedObjects(w, Add(o.location, v)) else W.ShiftSelectedObjects(w, v))
      case OtherMode(_) => W.Done(w)
    else if o.mode != W.EditMode || oper !in {SE, EV, DG, EG} then W.ReportError(w, Unsupported(oper, Label(kind)))
    else match oper
      case SE =>
        var edges := BMesh.SelectedEdges(o.mesh);
        if |BMesh.SelectedFaces(o.mesh)| != 0 then W.ReportError(w, M.Plain(M.FaceSel))
        else if |edges| < 1 then
          W.ReportError(w, if rev == Design then M.Counted(M.Sel1Edge, |edges|) else M.Plain(M.Sel1Edge))
        else W.Done(Steps.Subdivided(w, W.SubdivideOffset(index, edges, v)))
      case EV =>
        Edits.ExtrudeEachValid(o.mesh, verts, v);
        W.Done(W.SetActiveMesh(w, BMesh.ClearHistory(Edits.ExtrudeEach(o.mesh, verts, v))))
      case DG => W.Done(W.CallHost(W.SetActiveMesh(w, BMesh.ClearHistory(o.mesh)), W.DuplicateOffset(index, v)))
      case EG => W.Done(W.CallHost(W.SetActiveMesh(w, BMesh.ClearHistory(o.mesh)), W.ExtrudeOffset(index, v)))
  }

  // ------------------------------------------------------------- percent

  /**
   `pdt.percent`: place at the point `getPercent` interpolates between the two
   selected vertices or objects. A selection `getPercent` refuses ends the
   operator with the error it set.
   */
  function Percent(w: W.World, rev: Revision): (r: W.Outcome)
    requires W.ValidWorld(w)
    ensures W.ValidWorld(r.world)
    ensures r.status == W.Finished || r.status.Raised?
    ensures r.status.Raised? && !(w.scene.operate == EV && W.Active(w).Some? && W.Active(w).value.mode == W.EditMode) ==>
      r.world == w
    ensures r.status.Raised? && w.scene.operate == EV && W.Active(w).Some? && W.Active(w).value.mode == W.EditMode ==>
      var m := W.Active(w).value.mesh;
      var vs := BMesh.SelectedVerts(m);
      |vs| == 2 && W.ActiveMeshIs(w, r.world,
        m.(co := m.co + [PdtFunctions.PercentPoint(m.co[vs[0]], m.co[vs[1]], w.scene.percent, w.scene.flipPercent, "EV")]))
    ensures SceneKeptBut(w.scene.(error := r.world.scene.error), r.world.scene, w.scene.operate)
  {
    var s := w.scene;
    match W.Active(w)
    case None => W.ReportError(w, M.Plain(M.NoActObj))
    case Some(o) =>
      match PdtFunctions.GetPercent(w, o, s.flipPercent, s.percent, OperCode(s.operate))
      case PercentError(w2) => W.Done(w2)
      case PercentFault(f) => W.Crash(w, f)
      case PercentOk(p) => PercentAt(w, o, p, rev)
  }

  /** The dispatch on `pdt_operate` once the point `p` is known. */
  function PercentAt(w: W.World, o: W.Obj, p: Vec, rev: Revision): (r: W.Outcome)
    requires W.ValidWorld(w) && W.Active(w) == Some(o)
    ensures W.ValidWorld(r.world)
    ensures r.status == W.Finished || r.status.Raised?
    ensures r.status.Raised? && w.scene.operate != EV ==> r.world == w
    ensures r.status.Raised? && w.scene.operate == EV ==> W.ActiveMeshIs(w, r.world, o.mesh.(co := o.mesh.co + [p]))
    ensures SceneKeptBut(w.scene, r.world.scene, w.scene.operate)
  {
    var oper := w.scene.operate;
    if oper in {CU, PP} then PercentPoint(w, o, p)
    else if oper == MV then PercentMove(w, o, p)
    else PercentEdit(w, o, p, rev)
  }

  /** Percent CU and PP: local points are offset by the object's location, object locations are world points. */
  function PercentPoint(w: W.World, o: W.Obj, p: Vec): (r: W.Outcome)
    requires W.ValidWorld(w) && W.Active(w) == Some(o) && w.scene.operate in {CU, PP}
    ensures r.status == W.Finished && r.world == w.(scene := r.world.scene)
    ensures SceneKeptBut(w.scene, r.world.scene, w.scene.operate)
  {
    var s := w.scene;
    var target := match o.mode
      case EditMode => Some(Add(o.location, p))
      case ObjectMode => Some(p)
      case OtherMode(_) => None;
    if target.None? then W.Done(w)
    else if s.operate == CU then W.Done(w.(scene := s.(cursor := target.value)))
    else W.Done(w.(scene := s.(pivot := target.value)))
  }

  /** Percent MV: the newest history vertex, or the active object, goes to the point. */
  function PercentMove(w: W.World, o: W.Obj, p: Vec): (r: W.Outcome)
    requires W.ValidWorld(w) && W.Active(w) == Some(o)
    ensures W.ValidWorld(r.world) && r.world.scene == w.scene
    ensures r.status == W.Finished || r.status.Raised?
    ensures r.status.Raised? ==> r.world == w
  {
    var m := o.mesh;
    match o.mode
    case EditMode =>
      (match Steps.MoveNewest(m, p)
       case JoinFault(f, _) => W.Crash(w, f)
       case Joined(m1) => W.Done(W.SetActiveMesh(w, m1)))
    case ObjectMode => W.Done(W.SetActive(w, o.(location := p)))
    case OtherMode(_) => W.Done(w)
  }

  /**
   Percent SE, NV, EV and the refusal of the rest. EV without `pdt_extend`
   makes the new vertex before `bm.select_history[-1]` is read, so the raise
   on an empty or non-vertex history leaves that vertex behind.
   */
  function PercentEdit(w: W.World, o: W.Obj, p: Vec, rev: Revision): (r: W.Outcome)
    requires W.ValidWorld(w) && W.Active(w) == Some(o)
    ensures W.ValidWorld(r.world) && r.world.scene == w.scene
    ensures r.status == W.Finished || r.status.Raised?
    ensures r.status.Raised? ==> w.scene.operate == EV && !w.scene.extend && o.mode == W.EditMode
    ensures r.status.Raised? ==> W.ActiveMeshIs(w, r.world, o.mesh.(co := o.mesh.co + [p]))
    ensures r.status.Raised? <==>
      w.scene.operate == EV && !w.scene.extend && o.mode == W.EditMode
      && (|o.mesh.history| == 0 || !BMesh.Newest(o.mesh, 0).VertElem?)
  {
    var oper := w.scene.operate;
    var m := o.mesh;
    if oper == NV then
      if o.mode != W.EditMode then
        W.ReportError(w, if rev == Design then NotInEdit(o) else Unsupported(oper, "Percent"))
      else if rev == Design then W.Done(W.SetActiveMesh(w, Edits.NewVertexAlone(m, p)))
      else W.Done(W.SetActiveMesh(w, Edits.NewVertexOnly(m, p)))
    else if o.mode != W.EditMode || oper !in {SE, EV} then W.ReportError(w, Unsupported(oper, "Percent"))
    else if oper == SE then
      var edges := BMesh.SelectedEdges(m);
      if |edges| != 1 then W.ReportError(w, M.Counted(M.Sel1Edge, |edges|))
      else W.Done(Steps.Subdivided(w, W.SubdividePlace(w.active.value, edges, p)))
    else if w.scene.extend then
      var verts := BMesh.SelectedVerts(m);
      Edits.FanToNewValid(m, verts, p);
      W.Done(W.SetActiveMesh(w, BMesh.ClearHistory(Edits.FanToNew(m, verts, p))))
    else match Steps.JoinToNewest(m, p, true)
      case JoinFault(f, m1) => W.Crash(W.SetActiveMesh(w, m1), f)
      case Joined(m1) => W.Done(W.SetActiveMesh(w, BMesh.ClearHistory(m1)))
  }
}

/** What the placement operators promise, stated over all worlds. */
module PlacementFacts {
  import opened Vectors
  import opened Wrappers
  import opened Properties
  import M = Messages
  import BMesh
  import W = World
  import PdtFunctions
  import opened Placement

  // ----------------------------------------------------------- the angle

  /** Within the declared range, flipping twice gives the angle back, except that -180 comes back as 180. */
  lemma FlipAngleTwice(a: real)
    ensures -180.0 < a <= 180.0 ==> FlipAngle(FlipAngle(a)) == a
    ensures FlipAngle(FlipAngle(-180.0)) == 180.0
  {
  }

  /**
   In a world plane the direction offset is `|d|` long, whenever the numeric
   library's `sin` and `cos` of the angle satisfy `cos² + sin² = 1`.
   */
  lemma DirectionLength(s: Scene, a: real, view: PdtFunctions.View, num: Numerics)
    requires s.plane != LO
    requires var t := num.Radians(a); num.cos(t) * num.cos(t) + num.sin(t) * num.sin(t) == 1.0
    ensures Dist2(DirectionOffset(s, a, view, num), Zero) == s.distance * s.distance
  {
    var r := DirectionOffset(s, a, view, num);
    var axes := PdtFunctions.SetMode(s.plane).value;
    var t := num.Radians(a);
    var c := s.distance * num.cos(t);
    var n := s.distance * num.sin(t);
    assert Get(r, axes.0) == c && Get(r, axes.1) == n && Get(r, axes.2) == 0.0;
    assert Dist2(r, Zero) == c * c + n * n by {
      assert Dist2(r, Zero) == Get(r, 0) * Get(r, 0) + Get(r, 1) * Get(r, 1) + Get(r, 2) * Get(r, 2);
    }
    calc {
      c * c + n * n;
      s.distance * s.distance * (num.cos(t) * num.cos(t) + num.sin(t) * num.sin(t));
      s.distance * s.distance;
    }
  }

  // ------------------------------------------------- cursor and pivot

  /** REL-mode Delta lands the cursor where Absolute lands it given the sum as coordinates. */
  lemma RelativeIsAbsoluteOfSum(w: W.World, view: PdtFunctions.View, rev: Revision, reading: W.Reading)
    requires W.ValidWorld(w) && w.scene.select == REL && w.scene.operate == CU && w.scene.plane != LO
    ensures var target := Add(w.scene.cursor, Deltas(w.scene));
      var w2 := w.(scene := w.scene.(deltaX := target.x, deltaY := target.y, deltaZ := target.z));
      Delta(w, view, rev, reading).world.scene.cursor == Absolute(w2, rev, reading).world.scene.cursor
  {
  }

  /** Outside REL mode in Edit mode, Delta and Direction CU start from the newest history vertex, in world space. */
  lemma OffsetFromActiveVertex(w: W.World, v: Vec, kind: Kind, rev: Revision, reading: W.Reading)
    requires W.ValidWorld(w) && w.scene.select != REL && w.scene.operate == CU
    requires W.Active(w).Some? && W.Active(w).value.mode == W.EditMode
    requires var m := W.Active(w).value.mesh; |m.history| > 0 && BMesh.Newest(m, 0).VertElem?
    ensures var o := W.Active(w).value;
      Offsetting(w, v, kind, rev, reading)
        == W.Done(w.(scene := w.scene.(cursor := Add(Add(o.location, o.mesh.co[BMesh.Newest(o.mesh, 0).v]), v))))
  {
    var o := W.Active(w).value;
    assert PdtFunctions.CheckSelection(1, o.mesh).Found?;
  }

  /** Without a history entry, Edit-mode CU, PP and NV report the count and change nothing. */
  lemma OffsetNeedsHistory(w: W.World, v: Vec, kind: Kind, reading: W.Reading)
    requires W.ValidWorld(w) && w.scene.operate in {CU, PP, NV} && !(w.scene.select == REL && w.scene.operate in {CU, PP})
    requires W.Active(w).Some? && W.Active(w).value.mode == W.EditMode && |W.Active(w).value.mesh.history| == 0
    ensures Offsetting(w, v, kind, Design, reading) == W.ReportError(w, M.Counted(M.Sel1Verti, 0))
  {
  }

  // ------------------------------------------------------------ moving

  /** Absolute MV in Edit mode puts every selected vertex at the given world point and no other. */
  lemma AbsoluteMovePlacesVertices(w: W.World, rev: Revision, reading: W.Reading)
    requires W.ValidWorld(w) && w.scene.operate == MV
    requires W.Active(w).Some? && W.Active(w).value.mode == W.EditMode
    requires |BMesh.SelectedVerts(W.Active(w).value.mesh)| > 0
    ensures var o := W.Active(w).value;
      var r := Absolute(w, rev, reading);
      r.status == W.Finished && W.Active(r.world).Some?
      && var m := W.Active(r.world).value.mesh;
      |m.co| == |o.mesh.co| && m.history == []
      && forall j :: 0 <= j < |m.co| ==>
        if j in o.mesh.selVerts then Add(o.location, m.co[j]) == Deltas(w.scene) else m.co[j] == o.mesh.co[j]
  {
  }

  /** Delta MV in Edit mode shifts every selected vertex by the offset and no other. */
  lemma DeltaMoveShiftsVertices(w: W.World, view: PdtFunctions.View, rev: Revision, reading: W.Reading)
    requires W.ValidWorld(w) && w.scene.operate == MV
    requires W.Active(w).Some? && W.Active(w).value.mode == W.EditMode
    requires |BMesh.SelectedVerts(W.Active(w).value.mesh)| > 0
    ensures var o := W.Active(w).value;
      var r := Delta(w, view, rev, reading);
      r.status == W.Finished && W.Active(r.world).Some?
      && var m := W.Active(r.world).value.mesh;
      |m.co| == |o.mesh.co| && m.history == []
      && forall j :: 0 <= j < |m.co| ==>
        m.co[j] == if j in o.mesh.selVerts then Add(o.mesh.co[j], DeltaOffset(w.scene, view)) else o.mesh.co[j]
  {
  }

  /** As written, no placement operator gets past `bm` outside Edit mode, so objects never move. */
  lemma ObjectModeRaises(w: W.World, view: PdtFunctions.View, num: Numerics, rev: Revision)
    requires W.ValidWorld(w) && w.scene.operate !in {CU, PP, NV}
    requires W.Active(w).Some? && W.Active(w).value.mode == W.ObjectMode
    ensures Absolute(w, rev, W.AsWritten) == W.Crash(w, W.UnboundLocal("bm"))
    ensures Delta(w, view, rev, W.AsWritten) == W.Crash(w, W.UnboundLocal("bm"))
    ensures Direction(w, view, num, rev, W.AsWritten).status == W.Raised(W.UnboundLocal("bm"))
  {
  }

  /**
   Read as intended, Object-mode MV moves every selected object: Absolute
   to the given point, Delta to the active object's location plus the
   offset, Direction by the offset from where each object was.
   */
  lemma ObjectModeMoves(w: W.World, view: PdtFunctions.View, num: Numerics, rev: Revision)
    requires W.ValidWorld(w) && w.scene.operate == MV
    requires W.Active(w).Some? && W.Active(w).value.mode == W.ObjectMode
    ensures Absolute(w, rev, W.Intended) == W.Done(W.MoveSelectedObjects(w, Deltas(w.scene)))
    ensures Delta(w, view, rev, W.Intended)
      == W.Done(W.MoveSelectedObjects(w, Add(W.Active(w).value.location, DeltaOffset(w.scene, view))))
    ensures var r := Direction(w, view, num, rev, W.Intended);
      var d := DirectionOffset(w.scene, DirectionAngle(w.scene), view, num);
      r.status == W.Finished && |r.world.objects| == |w.objects|
      && forall k :: 0 <= k < |w.objects| ==>
        r.world.objects[k].location == if k in w.selected then Add(w.objects[k].location, d) else w.objects[k].location
  {
    ObjectModeAbsolute(w, rev);
    ObjectModeDelta(w, view, rev);
    ObjectModeDirection(w, view, num, rev);
  }

  lemma ObjectModeAbsolute(w: W.World, rev: Revision)
    requires W.ValidWorld(w) && w.scene.operate == MV
    requires W.Active(w).Some? && W.Active(w).value.mode == W.ObjectMode
    ensures Absolute(w, rev, W.Intended) == W.Done(W.MoveSelectedObjects(w, Deltas(w.scene)))
  {
  }

  lemma ObjectModeDelta(w: W.World, view: PdtFunctions.View, rev: Revision)
    requires W.ValidWorld(w) && w.scene.operate == MV
    requires W.Active(w).Some? && W.Active(w).value.mode == W.ObjectMode
    ensures Delta(w, view, rev, W.Intended)
      == W.Done(W.MoveSelectedObjects(w, Add(W.Active(w).value.location, DeltaOffset(w.scene, view))))
  {
  }

  lemma ObjectModeDirection(w: W.World, view: PdtFunctions.View, num: Numerics, rev: Revision)
    requires W.ValidWorld(w) && w.scene.operate == MV
    requires W.Active(w).Some? && W.Active(w).value.mode == W.ObjectMode
    ensures var r := Direction(w, view, num, rev, W.Intended);
      var d := DirectionOffset(w.scene, DirectionAngle(w.scene), view, num);
      r.status == W.Finished && |r.world.objects| == |w.objects|
      && forall k :: 0 <= k < |w.objects| ==>
        r.world.objects[k].location == if k in w.selected then Add(w.objects[k].location, d) else w.objects[k].location
  {
  }

  // -------------------------------------------------------- new vertices

  /** As written, the older revision's Absolute NV raises whatever the scene holds. */
  lemma LegacyAbsoluteNewRaises(w: W.World)
    requires W.ValidWorld(w) && w.scene.operate == NV
    ensures Absolute(w, Legacy, W.AsWritten) == W.Crash(w, W.UnboundLocal("obj"))
  {
  }

  /**
   Absolute NV in Edit mode adds one vertex whose world position is the
   given point: the Design revision adds it to the selection, the older one,
   read as intended, leaves the selection alone. Either way the history is
   cleared and the existing vertices stay where they were.
   */
  lemma AbsoluteNewAtPoint(w: W.World, rev: Revision)
    requires W.ValidWorld(w) && w.scene.operate == NV
    requires W.Active(w).Some? && W.Active(w).value.mode == W.EditMode
    ensures var o := W.Active(w).value;
      var r := Absolute(w, rev, W.Intended);
      r.status == W.Finished && W.Active(r.world).Some?
      && var m := W.Active(r.world).value.mesh;
      |m.co| == |o.mesh.co| + 1 && m.co[..|o.mesh.co|] == o.mesh.co
      && Add(o.location, m.co[|o.mesh.co|]) == Deltas(w.scene)
      && m.history == []
      && m.selVerts == if rev == Design then o.mesh.selVerts + {|o.mesh.co|} else o.mesh.selVerts
  {
  }

  // ------------------------------------------------------------- percent

  /** Percent SE with anything but one selected edge reports the count and changes nothing else. */
  lemma PercentSplitNeedsOneEdge(w: W.World, rev: Revision)
    requires W.ValidWorld(w) && w.scene.operate == SE
    requires W.Active(w).Some? && W.Active(w).value.mode == W.EditMode
    requires var m := W.Active(w).value.mesh;
      |BMesh.SelectedVerts(m)| == 2 && |BMesh.SelectedEdges(m)| != 1
    ensures Percent(w, rev)
      == W.ReportError(w, M.Counted(M.Sel1Edge, |BMesh.SelectedEdges(W.Active(w).value.mesh)|))
  {
  }

  /** Percent MV in Object mode puts the active object at the interpolated point between the two selected objects. */
  lemma PercentMovesObject(w: W.World, rev: Revision)
    requires W.ValidWorld(w) && w.scene.operate == MV && |w.selected| == 2
    requires W.Active(w).Some? && W.Active(w).value.mode == W.ObjectMode
    ensures var r := Percent(w, rev);
      var p := PdtFunctions.PercentPoint(w.objects[w.selected[1]].location, w.objects[w.selected[0]].location,
                                         w.scene.percent, w.scene.flipPercent, "MV");
      r.status == W.Finished && W.Active(r.world) == Some(W.Active(w).value.(location := p))
  {
  }

  /**
   Percent MV in Edit mode moves the newest history vertex to the point
   between the two selected vertices; a history that is empty or ends in an
   edge or face raises instead.
   */
  lemma PercentMovesNewestVertex(w: W.World, rev: Revision)
    requires W.ValidWorld(w) && w.scene.operate == MV
    requires W.Active(w).Some? && W.Active(w).value.mode == W.EditMode
    requires |BMesh.SelectedVerts(W.Active(w).value.mesh)| == 2
    ensures var o := W.Active(w).value;
      var vs := BMesh.SelectedVerts(o.mesh);
      var p := PdtFunctions.PercentPoint(o.mesh.co[vs[0]], o.mesh.co[vs[1]],
                                         w.scene.percent, w.scene.flipPercent, "MV");
      var r := Percent(w, rev);
      (|o.mesh.history| == 0 ==> r == W.Crash(w, W.IndexFault))
      && (|o.mesh.history| > 0 && !BMesh.Newest(o.mesh, 0).VertElem? ==> r == W.Crash(w, W.AttributeFault))
      && (|o.mesh.history| > 0 && BMesh.Newest(o.mesh, 0).VertElem? ==>
            r.status == W.Finished && W.Active(r.world).Some?
            && W.Active(r.world).value.mesh.co == o.mesh.co[BMesh.Newest(o.mesh, 0).v := p])
  {
  }
}
