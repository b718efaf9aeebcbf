/**
 The part of Blender's state an operator reads and writes: the scene
 variables, the objects of the view layer with their modes and edit meshes,
 the active and selected objects, the calls made into Blender's own mesh
 operators, and the messages shown to the user. An operator maps a `World`
 to an `Outcome`.

 An object's world location (`matrix_world.decompose()[0]`) is its
 `location`: parenting is not modelled.
 */
module World {
  import opened Vectors
  import opened Wrappers
  import Properties
  import Messages
  import BMesh

  /** `obj.mode`. Modes other than Edit and Object are kept by name. */
  datatype Mode = EditMode | ObjectMode | OtherMode(name: string)

  function ModeName(m: Mode): string
  {
    match m
    case EditMode => "EDIT"
    case ObjectMode => "OBJECT"
    case OtherMode(n) => n
  }

  /** A mesh object. `pivotLoc` is its custom property `PDT_PP_LOC`, if set. */
  datatype Obj = Obj(name: string, location: Vec, mode: Mode, mesh: BMesh.Mesh, pivotLoc: Option<Vec>)

  /**
   A call into one of Blender's own operators, whose effect on the mesh is
   not modelled: the call is recorded with the arguments the add-on passes
   and the follow-up the add-on applies to the elements it creates.
   */
  datatype HostCall =
    | RemoveDoubles(obj: nat, verts: seq<nat>, dist: real)
    | SubdividePlace(obj: nat, edges: seq<nat>, place: Vec)       // first new vertex moved to `place`, then selected alone
    | SubdivideOffset(obj: nat, edges: seq<nat>, offset: Vec)     // new vertices translated by `offset`
    | DuplicateOffset(obj: nat, offset: Vec)                      // selected geometry duplicated, copy moved and selected
    | ExtrudeOffset(obj: nat, offset: Vec)                        // selected region extruded, copy moved and selected
    | Bevel(radius: real, segments: int, profile: BevelProfile, vertexOnly: bool)
    | SnapCursorToSelected
    | DeleteVerts(obj: nat)                                        // every vertex of the object selected, then deleted
    | RotateAboutPivot(centre: Vec, angle: real, verts: seq<nat>)   // about the view's depth axis, in the object's own coordinates

  /** The `profile` argument of `bpy.ops.mesh.bevel`: a number, or a one-element tuple. */
  datatype BevelProfile = ProfileValue(p: real) | ProfileTuple(p: real)

  /** `self.report`, or the `pdt_error` popup. */
  datatype Report =
    | ErrorReport(msg: Messages.Message)
    | InfoReport(text: string)
    | ErrorPopup(msg: Messages.Message)

  datatype World = World(
    scene: Properties.Scene,
    objects: seq<Obj>,
    active: Option<nat>,
    selected: seq<nat>,       // context.view_layer.objects.selected, in order
    host: seq<HostCall>,
    reports: seq<Report>)

  /** The Python exception an operator raises. */
  datatype Fault =
    | UnboundLocal(variable: string)
    | AttributeFault      // `.co` read from an edge or face
    | IndexFault
    | KeyFault(key: string)
    | TypeFault
    | ValueFault
    | NameFault(name: string)
    | ZeroDivisionFault
    | ForeignFault        // raised inside code this model does not see

  /**
   Where the source has evident slips, operations take a reading: the code
   as written, or what it evidently intends.
   */
  datatype Reading = AsWritten | Intended

  /** What `execute` returns: a status set, nothing, or an exception. */
  datatype Status = Finished | Cancelled | NoReturn | Raised(fault: Fault)

  datatype Outcome = Outcome(world: World, status: Status)

  predicate ValidWorld(w: World)
  {
    (w.active.Some? ==> w.active.value < |w.objects|)
    && (forall k :: 0 <= k < |w.selected| ==> w.selected[k] < |w.objects|)
    && (forall k :: 0 <= k < |w.objects| ==> BMesh.Valid(w.objects[k].mesh))
  }

  /** `context.view_layer.objects.active`. */
  function Active(w: World): (r: Option<Obj>)
    requires ValidWorld(w)
    ensures r.Some? <==> w.active.Some?
    ensures r.Some? ==> r.value == w.objects[w.active.value]
  {
    if w.active.Some? then Some(w.objects[w.active.value]) else None
  }

  /** Replaces the active object. */
  function SetActive(w: World, o: Obj): (r: World)
    requires ValidWorld(w) && w.active.Some?
    requires BMesh.Valid(o.mesh)
    ensures ValidWorld(r)
    ensures Active(r) == Some(o)
    ensures r == w.(objects := r.objects)
    ensures |r.objects| == |w.objects|
    ensures forall k :: 0 <= k < |w.objects| && k != w.active.value ==> r.objects[k] == w.objects[k]
  {
    w.(objects := w.objects[w.active.value := o])
  }

  /** The active object's edit mesh replaced. */
  function SetActiveMesh(w: World, m: BMesh.Mesh): (r: World)
    requires ValidWorld(w) && w.active.Some?
    requires BMesh.Valid(m)
    ensures ValidWorld(r)
    ensures Active(r) == Some(Active(w).value.(mesh := m))
    ensures r == w.(objects := r.objects)
    ensures ActiveMeshIs(w, r, m)
  {
    SetActive(w, Active(w).value.(mesh := m))
  }

  /** `r` is `w` with the active object's edit mesh being `m`, and nothing else changed. */
  predicate ActiveMeshIs(w: World, r: World, m: BMesh.Mesh)
    requires ValidWorld(w) && w.active.Some?
  {
    r == w.(objects := w.objects[w.active.value := w.objects[w.active.value].(mesh := m)])
  }

  function SetScene(w: World, s: Properties.Scene): World
  {
    w.(scene := s)
  }

  /** `self.report({"ERROR"}, msg)` followed by `return {"FINISHED"}`. */
  function ReportError(w: World, m: Messages.Message): (r: Outcome)
    ensures r.status == Finished
    ensures r.world == w.(reports := w.reports + [ErrorReport(m)])
  {
    Outcome(w.(reports := w.reports + [ErrorReport(m)]), Finished)
  }

  /** `scene.pdt_error = msg` and the error popup, without returning yet. */
  function SetError(w: World, m: Messages.Message): (r: World)
    ensures r.scene.error == Some(m) && r.scene == w.scene.(error := r.scene.error)
    ensures r.reports == w.reports + [ErrorPopup(m)]
    ensures r.objects == w.objects && r.selected == w.selected && r.active == w.active && r.host == w.host
  {
    w.(scene := w.scene.(error := Some(m)), reports := w.reports + [ErrorPopup(m)])
  }

  /** `self.report({"INFO"}, text)`. */
  function Inform(w: World, text: string): World
  {
    w.(reports := w.reports + [InfoReport(text)])
  }

  function CallHost(w: World, c: HostCall): World
  {
    w.(host := w.host + [c])
  }

  function Done(w: World): Outcome
  {
    Outcome(w, Finished)
  }

  function Crash(w: World, f: Fault): Outcome
  {
    Outcome(w, Raised(f))
  }

  /** `ob.location = p` for every selected object, in order. */
  function MoveSelectedObjects(w: World, p: Vec): (r: World)
    requires ValidWorld(w)
    ensures ValidWorld(r) && |r.objects| == |w.objects|
    ensures r == w.(objects := r.objects)
    ensures forall k :: 0 <= k < |w.objects| ==>
      r.objects[k] == (if k in w.selected then w.objects[k].(location := p) else w.objects[k])
  {
    var objs := seq(|w.objects|, k requires 0 <= k < |w.objects| =>
      if k in w.selected then w.objects[k].(location := p) else w.objects[k]);
    w.(objects := objs)
  }

  /** `ob.location = ob.location + d` for every selected object. */
  function ShiftSelectedObjects(w: World, d: Vec): (r: World)
    requires ValidWorld(w)
    ensures ValidWorld(r) && |r.objects| == |w.objects|
    ensures r == w.(objects := r.objects)
    ensures forall k :: 0 <= k < |w.objects| ==>
      r.objects[k] == (if k in w.selected then w.objects[k].(location := Add(w.objects[k].location, d)) else w.objects[k])
  {
    var objs := seq(|w.objects|, k requires 0 <= k < |w.objects| =>
      if k in w.selected then w.objects[k].(location := Add(w.objects[k].location, d)) else w.objects[k]);
    w.(objects := objs)
  }

  /** The world locations of the selected objects, in selection order. */
  function SelectedLocations(w: World): (r: seq<Vec>)
    requires ValidWorld(w)
    ensures |r| == |w.selected|
    ensures forall k :: 0 <= k < |r| ==> r[k] == w.objects[w.selected[k]].location
  {
    seq(|w.selected|, k requires 0 <= k < |w.selected| => w.objects[w.selected[k]].location)
  }
}
