/**
 The pivot point tools: the show/hide toggle of the pivot point graphic,
 rotation and scaling of the selected vertices about the pivot, copies
 between the pivot and the cursor, the pivot set from the selection or from
 the object's origin, and the pivot stored in the object's custom property
 `PDT_PP_LOC` and read back from it.

 The file these operators live in never imports `bmesh`, so as written every
 operator that reaches `bmesh.from_edit_mesh` raises `NameError`; read as
 intended, it carries on. Drawing the graphic is not modelled, only whether
 it is installed.
 */
module PivotPoint {
  import opened Vectors
  import opened Wrappers
  import opened Properties
  import M = Messages
  import BMesh
  import W = World

  /** "Select 1 Object". */
  const NoObject: M.Message := M.Plain(M.Literal("Select 1 Object"))

  /** "Only in Works on Vertices in Edit Mode". */
  const OnlyEdit: M.Message := M.Plain(M.Literal("Only in Works on Vertices in Edit Mode"))

  // ------------------------------------------------------------- the toggle

  /**
   The drawing state: whether the operator class holds a draw handler
   (`_handle`), and the window manager's `pdt_run_opengl`.
   */
  datatype Overlay = Overlay(handle: bool, run: bool)

  /** The state at start-up, with nothing drawn. */
  const Hidden: Overlay := Overlay(false, false)

  /** The two halves of the state agree. */
  predicate InStep(ov: Overlay)
  {
    ov.run == ov.handle
  }

  /** `handle_add`: installs the handler and sets the flag, unless a handler is already held. */
  function HandleAdd(ov: Overlay): (r: Overlay)
    ensures r.handle
    ensures ov.handle ==> r == ov
    ensures !ov.handle ==> r.run
  {
    if ov.handle then ov else Overlay(true, true)
  }

  /** `handle_remove`: whatever was held, afterwards nothing is and the flag is clear. */
  function HandleRemove(ov: Overlay): (r: Overlay)
    ensures r == Hidden
  {
    Overlay(false, false)
  }

  datatype Toggled = Toggled(out: W.Outcome, overlay: Overlay)

  /**
   `pdt.modaldraw`: outside a 3D view, an error and `CANCELLED` with the
   state untouched; inside, the flag chooses between adding and removing.
   */
  function ModalDraw(w: W.World, ov: Overlay, inView3D: bool): (r: Toggled)
    ensures !inView3D ==> r.overlay == ov
    ensures !inView3D ==>
      r.out == W.Outcome(W.ReportError(w, M.Plain(M.Literal("View3D not found, cannot run operator"))).world, W.Cancelled)
    ensures inView3D ==> r.out == W.Done(w)
    ensures inView3D && !ov.run ==> r.overlay.handle
    ensures inView3D && ov.run ==> r.overlay == Hidden
    ensures InStep(ov) ==> InStep(r.overlay)
  {
    if !inView3D then
      Toggled(W.Outcome(W.ReportError(w, M.Plain(M.Literal("View3D not found, cannot run operator"))).world, W.Cancelled), ov)
    else if !ov.run then Toggled(W.Done(w), HandleAdd(ov))
    else Toggled(W.Done(w), HandleRemove(ov))
  }

  // -------------------------------------------------------- rotate and scale

  /**
   The operator stops before touching the mesh: no active object, not in
   Edit mode, or, as written, the missing `bmesh` module. `None` means it
   carries on.
   */
  function EditGuard(w: W.World, reading: W.Reading): (r: Option<W.Outcome>)
    requires W.ValidWorld(w)
    ensures r.None? <==> reading == W.Intended && W.Active(w).Some? && W.Active(w).value.mode == W.EditMode
    ensures W.Active(w).None? ==> r == Some(W.ReportError(w, NoObject))
    ensures W.Active(w).Some? && W.Active(w).value.mode != W.EditMode ==> r == Some(W.ReportError(w, OnlyEdit))
    ensures reading == W.AsWritten && W.Active(w).Some? && W.Active(w).value.mode == W.EditMode ==>
      r == Some(W.Crash(w, W.NameFault("bmesh")))
  {
    match W.Active(w)
    case None => Some(W.ReportError(w, NoObject))
    case Some(o) =>
      if o.mode != W.EditMode then Some(W.ReportError(w, OnlyEdit))
      else match reading
        case AsWritten => Some(W.Crash(w, W.NameFault("bmesh")))
        case Intended => None
  }

  /**
   `pdt.viewplanerot`: `bmesh.ops.rotate` of the selected vertices by
   `pdt_pivotang` about the view's depth axis through the pivot, taken in
   the object's own coordinates. The rotation itself is Blender's.
   */
  function ViewRotate(w: W.World, reading: W.Reading): (r: W.Outcome)
    requires W.ValidWorld(w)
    ensures W.ValidWorld(r.world) && r.world.objects == w.objects && r.world.scene == w.scene
    ensures r.world.host != w.host <==> EditGuard(w, reading).None?
    ensures EditGuard(w, reading).None? ==>
      var o := W.Active(w).value;
      r == W.Done(W.CallHost(w, W.RotateAboutPivot(Sub(w.scene.pivot, o.location), w.scene.pivotAngle,
                                                   BMesh.SelectedVerts(o.mesh))))
  {
    match EditGuard(w, reading)
    case Some(out) => out
    case None =>
      var o := W.Active(w).value;
      W.Done(W.CallHost(w, W.RotateAboutPivot(Sub(w.scene.pivot, o.location), w.scene.pivotAngle,
                                              BMesh.SelectedVerts(o.mesh))))
  }

  /**
   One vertex of `pdt.viewscale`, as the loop writes it: each component of
   `p` moves by `(pivot - loc - p) * (1 - k)`.
   */
  function Scaled(p: Vec, pivot: Vec, loc: Vec, k: Vec): Vec
  {
    var dx := (pivot.x - loc.x - p.x) * (1.0 - k.x);
    var dy := (pivot.y - loc.y - p.y) * (1.0 - k.y);
    var dz := (pivot.z - loc.z - p.z) * (1.0 - k.z);
    Add(p, Vec(dx, dy, dz))
  }

  /** Scaling in the world, axis by axis, about `c` by the factors `k`. */
  function ScaledAbout(q: Vec, c: Vec, k: Vec): Vec
  {
    Vec(c.x + (q.x - c.x) * k.x, c.y + (q.y - c.y) * k.y, c.z + (q.z - c.z) * k.z)
  }

  /** The loop's arithmetic is a scaling about the pivot in world terms. */
  lemma ScaledIsAboutPivot(p: Vec, pivot: Vec, loc: Vec, k: Vec)
    ensures Add(loc, Scaled(p, pivot, loc, k)) == ScaledAbout(Add(loc, p), pivot, k)
  {
    var lhs := Add(loc, Scaled(p, pivot, loc, k));
    var rhs := ScaledAbout(Add(loc, p), pivot, k);
    assert lhs.x == rhs.x by {
      assert lhs.x == loc.x + (p.x + (pivot.x - loc.x - p.x) * (1.0 - k.x));
      assert rhs.x == pivot.x + ((loc.x + p.x) - pivot.x) * k.x;
      ScaledAxis(p.x, pivot.x, loc.x, k.x);
    }
    assert lhs.y == rhs.y by {
      assert lhs.y == loc.y + (p.y + (pivot.y - loc.y - p.y) * (1.0 - k.y));
      assert rhs.y == pivot.y + ((loc.y + p.y) - pivot.y) * k.y;
      ScaledAxis(p.y, pivot.y, loc.y, k.y);
    }
    assert lhs.z == rhs.z by {
      assert lhs.z == loc.z + (p.z + (pivot.z - loc.z - p.z) * (1.0 - k.z));
      assert rhs.z == pivot.z + ((loc.z + p.z) - pivot.z) * k.z;
      ScaledAxis(p.z, pivot.z, loc.z, k.z);
    }
  }

  lemma ScaledAxis(p: real, c: real, l: real, k: real)
    ensures l + (p + (c - l - p) * (1.0 - k)) == c + ((l + p) - c) * k
  {
    var a := c - l - p;
    assert a * (1.0 - k) == a - a * k;
    assert ((l + p) - c) * k == -(a * k);
  }

  /** The loop over the selected vertices; each vertex is moved once, from its own place. */
  function ScaleSelected(m: BMesh.Mesh, pivot: Vec, loc: Vec, k: Vec): (r: BMesh.Mesh)
    requires BMesh.Valid(m)
    ensures BMesh.Valid(r) && r == m.(co := r.co) && |r.co| == |m.co|
    ensures forall j :: 0 <= j < |m.co| && j !in m.selVerts ==> r.co[j] == m.co[j]
    ensures forall j :: 0 <= j < |m.co| && j in m.selVerts ==>
      Add(loc, r.co[j]) == ScaledAbout(Add(loc, m.co[j]), pivot, k)
  {
    var co := seq(|m.co|, j requires 0 <= j < |m.co| =>
      if j in m.selVerts then Scaled(m.co[j], pivot, loc, k) else m.co[j]);
    assert forall j :: 0 <= j < |m.co| && j in m.selVerts ==>
      Add(loc, co[j]) == ScaledAbout(Add(loc, m.co[j]), pivot, k) by {
      forall j | 0 <= j < |m.co| && j in m.selVerts
        ensures Add(loc, co[j]) == ScaledAbout(Add(loc, m.co[j]), pivot, k)
      {
        ScaledIsAboutPivot(m.co[j], pivot, loc, k);
      }
    }
    m.(co := co)
  }

  /**
   `pdt.viewscale`: every selected vertex scaled about the pivot by
   `pdt_pivotscale`, axis by axis, in world terms.
   */
  function ViewScale(w: W.World, reading: W.Reading): (r: W.Outcome)
    requires W.ValidWorld(w)
    ensures W.ValidWorld(r.world) && r.world.scene == w.scene && r.world.host == w.host
    ensures r.world.objects != w.objects ==> EditGuard(w, reading).None?
    ensures EditGuard(w, reading).Some? ==> r == EditGuard(w, reading).value
    ensures EditGuard(w, reading).None? ==>
      var o := W.Active(w).value;
      r == W.Done(W.SetActiveMesh(w, ScaleSelected(o.mesh, w.scene.pivot, o.location, w.scene.pivotScale)))
  {
    match EditGuard(w, reading)
    case Some(out) => out
    case None =>
      var o := W.Active(w).value;
      W.Done(W.SetActiveMesh(w, ScaleSelected(o.mesh, w.scene.pivot, o.location, w.scene.pivotScale)))
  }

  // ------------------------------------------------------- pivot and cursor

  /** `pdt.pivotcursor`: the pivot put on the cursor. */
  function PivotToCursor(w: W.World): (r: W.Outcome)
    ensures r.status == W.Finished
    ensures r.world.scene.pivot == w.scene.cursor
    ensures r.world == w.(scene := r.world.scene) && r.world.scene == w.scene.(pivot := r.world.scene.pivot)
  {
    W.Done(w.(scene := w.scene.(pivot := w.scene.cursor)))
  }

  /** `pdt.cursorpivot`: the cursor put on the pivot. */
  function CursorToPivot(w: W.World): (r: W.Outcome)
    ensures r.status == W.Finished
    ensures r.world.scene.cursor == w.scene.pivot
    ensures r.world == w.(scene := r.world.scene) && r.world.scene == w.scene.(cursor := r.world.scene.cursor)
  {
    W.Done(w.(scene := w.scene.(cursor := w.scene.pivot)))
  }

  /**
   `pdt.pivotselected`: Blender's snap of the cursor to the selection, whose
   result arrives as `snap`; the pivot takes it and the cursor goes back.
   */
  function PivotSelected(w: W.World, snap: Vec, reading: W.Reading): (r: W.Outcome)
    requires W.ValidWorld(w)
    ensures W.ValidWorld(r.world)
    ensures r.status == W.Finished || r.status.Raised?
    ensures r.world.scene.cursor == w.scene.cursor && r.world.objects == w.objects
    ensures r.world.scene != w.scene ==> r.world.scene == w.scene.(pivot := snap)
    ensures r.world.scene != w.scene || r.world.host != w.host ==> EditGuard(w, reading).None?
    ensures EditGuard(w, reading).None? ==>
      if |BMesh.SelectedVerts(W.Active(w).value.mesh)| == 0
      then r == W.ReportError(w, M.Plain(M.Literal("Nothing Selected!")))
      else r.world.scene.pivot == snap && r.world.host == w.host + [W.SnapCursorToSelected]
  {
    match EditGuard(w, reading)
    case Some(out) => out
    case None =>
      var o := W.Active(w).value;
      if |BMesh.SelectedVerts(o.mesh)| == 0 then W.ReportError(w, M.Plain(M.Literal("Nothing Selected!")))
      else
        var before := w.scene.cursor;
        var w1 := W.CallHost(w, W.SnapCursorToSelected).(scene := w.scene.(cursor := snap));
        var w2 := w1.(scene := w1.scene.(pivot := w1.scene.cursor));
        W.Done(w2.(scene := w2.scene.(cursor := before)))
  }

  /** `pdt.pivotorigin`: the pivot put on the active object's origin. */
  function PivotOrigin(w: W.World): (r: W.Outcome)
    requires W.ValidWorld(w)
    ensures r.status == W.Finished
    ensures W.Active(w).None? ==> r == W.ReportError(w, NoObject)
    ensures W.Active(w).Some? ==> r.world == w.(scene := w.scene.(pivot := W.Active(w).value.location))
  {
    match W.Active(w)
    case None => W.ReportError(w, NoObject)
    case Some(o) => W.Done(w.(scene := w.scene.(pivot := o.location)))
  }

  // ------------------------------------------------------ the stored pivot

  /** `pdt.pivotwrite`: `obj['PDT_PP_LOC'] = pdt_pivotloc`. */
  function PivotWrite(w: W.World): (r: W.Outcome)
    requires W.ValidWorld(w)
    ensures W.ValidWorld(r.world) && r.status == W.Finished && r.world.scene == w.scene
    ensures W.Active(w).None? ==> r == W.ReportError(w, NoObject)
    ensures W.Active(w).Some? ==> r.world == W.SetActive(w, W.Active(w).value.(pivotLoc := Some(w.scene.pivot)))
  {
    match W.Active(w)
    case None => W.ReportError(w, NoObject)
    case Some(o) => W.Done(W.SetActive(w, o.(pivotLoc := Some(w.scene.pivot))))
  }

  /**
   `pdt.pivotread`: the pivot taken from `obj['PDT_PP_LOC']`. Indexing a
   custom property that was never written raises `KeyError` rather than
   giving `None`, so as written the check for `None` never reports; read as
   intended, a missing property is reported.
   */
  function PivotRead(w: W.World, reading: W.Reading): (r: W.Outcome)
    requires W.ValidWorld(w)
    ensures r.world.objects == w.objects
    ensures W.Active(w).None? ==> r == W.ReportError(w, NoObject)
    ensures W.Active(w).Some? && W.Active(w).value.pivotLoc.Some? ==>
      r == W.Done(w.(scene := w.scene.(pivot := W.Active(w).value.pivotLoc.value)))
    ensures W.Active(w).Some? && W.Active(w).value.pivotLoc.None? ==>
      r == (if reading == W.AsWritten then W.Crash(w, W.KeyFault("PDT_PP_LOC"))
            else W.ReportError(w, M.Plain(M.Literal(
              "Custom Property PDT_PP_LOC for this object not found, have you Written it yet?"))))
  {
    match W.Active(w)
    case None => W.ReportError(w, NoObject)
    case Some(o) =>
      match o.pivotLoc
      case Some(p) => W.Done(w.(scene := w.scene.(pivot := p)))
      case None =>
        if reading == W.AsWritten then W.Crash(w, W.KeyFault("PDT_PP_LOC"))
        else W.ReportError(w, M.Plain(M.Literal("Custom Property PDT_PP_LOC for this object not found, have you Written it yet?")))
  }
}

/** What the pivot tools promise across calls. */
module PivotFacts {
  import opened Vectors
  import opened Wrappers
  import opened Properties
  import BMesh
  import W = World
  import opened PivotPoint

  /** From a state whose halves agree, two toggles in a 3D view come back to it. */
  lemma ToggleTwiceRestores(w: W.World, ov: Overlay)
    requires InStep(ov)
    ensures ModalDraw(w, ModalDraw(w, ov, true).overlay, true).overlay == ov
  {
  }

  /**
   When the flag is clear but a handler is still held, the toggle neither
   installs another handler nor sets the flag: the state is stuck.
   */
  lemma ToggleOutOfStepIsStuck(w: W.World)
    ensures ModalDraw(w, Overlay(true, false), true).overlay == Overlay(true, false)
  {
  }

  /** Unit factors leave a point where it is; zero factors put it on the centre. */
  lemma ScaleUnitAndZero(q: Vec, c: Vec)
    ensures ScaledAbout(q, c, Vec(1.0, 1.0, 1.0)) == q
    ensures ScaledAbout(q, c, Zero) == c
  {
  }

  /** Two scalings about the same centre make one by the products of the factors. */
  lemma ScalesCompose(q: Vec, c: Vec, k: Vec, l: Vec)
    ensures ScaledAbout(ScaledAbout(q, c, k), c, l) == ScaledAbout(q, c, Vec(k.x * l.x, k.y * l.y, k.z * l.z))
  {
    var s := ScaledAbout(q, c, k);
    assert (s.x - c.x) * l.x == (q.x - c.x) * (k.x * l.x);
    assert (s.y - c.y) * l.y == (q.y - c.y) * (k.y * l.y);
    assert (s.z - c.z) * l.z == (q.z - c.z) * (k.z * l.z);
  }

  /** As written, scaling in Edit mode raises: `bmesh` is not imported. */
  lemma ScaleRaisesAsWritten(w: W.World)
    requires W.ValidWorld(w) && W.Active(w).Some? && W.Active(w).value.mode == W.EditMode
    ensures ViewScale(w, W.AsWritten) == W.Crash(w, W.NameFault("bmesh"))
  {
  }

  /** Read as intended, scaling by zero factors brings every selected vertex onto the pivot. */
  lemma ScaleZeroGathersOnPivot(w: W.World)
    requires W.ValidWorld(w) && W.Active(w).Some? && W.Active(w).value.mode == W.EditMode
    requires w.scene.pivotScale == Zero
    ensures var o := W.Active(w).value;
      var o2 := W.Active(ViewScale(w, W.Intended).world).value;
      forall j :: 0 <= j < |o.mesh.co| && j in o.mesh.selVerts ==> Add(o2.location, o2.mesh.co[j]) == w.scene.pivot
  {
    var o := W.Active(w).value;
    var m2 := ScaleSelected(o.mesh, w.scene.pivot, o.location, Zero);
    forall j | 0 <= j < |o.mesh.co| && j in o.mesh.selVerts
      ensures Add(o.location, m2.co[j]) == w.scene.pivot
    {
      ScaleUnitAndZero(Add(o.location, o.mesh.co[j]), w.scene.pivot);
    }
  }

  /** Copying the pivot to the cursor and back leaves both on the old cursor. */
  lemma PivotCursorRoundTrip(w: W.World)
    ensures CursorToPivot(PivotToCursor(w).world).world == PivotToCursor(w).world
  {
  }

  /**
   Writing the pivot to the object and reading it back restores it, however
   the pivot moved in between.
   */
  lemma WriteThenReadRestores(w: W.World, elsewhere: Vec, reading: W.Reading)
    requires W.ValidWorld(w) && W.Active(w).Some?
    ensures var w1 := PivotWrite(w).world;
      PivotRead(w1.(scene := w1.scene.(pivot := elsewhere)), reading).world.scene == w.scene
  {
  }

  /** As written, reading a pivot that was never written raises `KeyError`. */
  lemma ReadMissingRaises(w: W.World)
    requires W.ValidWorld(w) && W.Active(w).Some? && W.Active(w).value.pivotLoc.None?
    ensures PivotRead(w, W.AsWritten).status == W.Raised(W.KeyFault("PDT_PP_LOC"))
  {
  }

  /** Read as intended, reading a pivot that was never written reports and leaves the pivot alone. */
  lemma ReadMissingReports(w: W.World)
    requires W.ValidWorld(w) && W.Active(w).Some? && W.Active(w).value.pivotLoc.None?
    ensures var r := PivotRead(w, W.Intended);
      r.status == W.Finished && r.world.scene == w.scene && |r.world.reports| == |w.reports| + 1
  {
  }
}
