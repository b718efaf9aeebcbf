/**
 The helpers of `clockworxpdt/pdt_functions.py` the operators share:
 plane and taper axis orders, selection-history queries, selection resets,
 percentage interpolation and the intersection of two lines in a plane.
 */
module PdtFunctions {
  import opened Vectors
  import opened Wrappers
  import Properties
  import Messages
  import BMesh
  import World

  // ----------------------------------------------------------- axis orders

  /** The letter naming an axis. */
  function AxisLetter(a: Axis): char
  {
    if a == 0 then 'X' else if a == 1 then 'Y' else 'Z'
  }

  /**
   `setMode`: the two in-plane axes of a world plane, in the order its name
   gives them, then the normal axis. The view plane has no such triple.
   */
  function SetMode(p: Properties.Plane): (r: Option<(Axis, Axis, Axis)>)
    ensures r.None? <==> p == Properties.LO
    ensures r.Some? ==> IsPermutation(r.value.0, r.value.1, r.value.2)
    ensures r.Some? ==> (AxisLetter(r.value.0) == Properties.PlaneCode(p)[0]
                         && AxisLetter(r.value.1) == Properties.PlaneCode(p)[1])
  {
    match p
    case XY => Some((0, 1, 2))
    case XZ => Some((0, 2, 1))
    case YZ => Some((1, 2, 0))
    case LO => None
  }

  /** The normal axis is the one the plane's name does not mention. */
  lemma SetModeNormal(p: Properties.Plane)
    requires p != Properties.LO
    ensures AxisLetter(SetMode(p).value.2) !in Properties.PlaneCode(p)
  {
  }

  /**
   `setAxis`: the rotate axis (second letter of the code), the move axis
   (fifth letter), and the remaining axis.
   */
  function SetAxis(t: Properties.TaperAxes): (r: (Axis, Axis, Axis))
    ensures IsPermutation(r.0, r.1, r.2)
    ensures AxisLetter(r.0) == Properties.TaperCode(t)[1]
    ensures AxisLetter(r.1) == Properties.TaperCode(t)[4]
  {
    match t
    case RXMY => (0, 1, 2)
    case RXMZ => (0, 2, 1)
    case RYMX => (1, 0, 2)
    case RYMZ => (1, 2, 0)
    case RZMX => (2, 0, 1)
    case RZMY => (2, 1, 0)
  }

  /** Different taper codes give different axis orders. */
  lemma SetAxisInjective(t: Properties.TaperAxes, u: Properties.TaperAxes)
    requires SetAxis(t) == SetAxis(u)
    ensures t == u
  {
    assert Properties.TaperCode(t)[1] == Properties.TaperCode(u)[1];
    assert Properties.TaperCode(t)[4] == Properties.TaperCode(u)[4];
  }

  /** Every order of the three axes is some taper code's. */
  lemma SetAxisSurjective(a: Axis, b: Axis, c: Axis)
    requires IsPermutation(a, b, c)
    ensures exists t :: SetAxis(t) == (a, b, c)
  {
    if a == 0 && b == 1 { assert SetAxis(Properties.RXMY) == (a, b, c); }
    else if a == 0 { assert SetAxis(Properties.RXMZ) == (a, b, c); }
    else if a == 1 && b == 0 { assert SetAxis(Properties.RYMX) == (a, b, c); }
    else if a == 1 { assert SetAxis(Properties.RYMZ) == (a, b, c); }
    else if b == 0 { assert SetAxis(Properties.RZMX) == (a, b, c); }
    else { assert SetAxis(Properties.RZMY) == (a, b, c); }
  }

  // ---------------------------------------------------- selection history

  /** What `checkSelection` gives back, and what it did to the mesh. */
  datatype Check =
    | Short                          // fewer than `num` entries: None
    | Found(coords: seq<Vec>)        // the newest `num` entries' coordinates, newest first
    | Reset(mesh: BMesh.Mesh)        // the newest entry is not a vertex: all deselected, history cleared, None
    | NoTuple                        // a vertex, but `num` is not 1..4: falls off the end, None
    | CheckFault(fault: World.Fault) // an older entry read is not a vertex, or the history is empty

  /** The coordinates of history entries `|h|-1`, `|h|-2`, …, `|h|-num`, or the fault reading one. */
  function HistoryCoords(m: BMesh.Mesh, num: nat): (r: Option<seq<Vec>>)
    requires BMesh.Valid(m) && num <= |m.history|
    ensures r.Some? <==> forall k :: 0 <= k < num ==> BMesh.Newest(m, k).VertElem?
    ensures r.Some? ==> |r.value| == num
    ensures r.Some? ==> forall k :: 0 <= k < num ==> r.value[k] == m.co[BMesh.Newest(m, k).v]
  {
    if num == 0 then Some([])
    else
      var rest := HistoryCoords(m, num - 1);
      var h := BMesh.Newest(m, num - 1);
      if rest.Some? && h.VertElem? then Some(rest.value + [m.co[h.v]]) else None
  }

  /** `checkSelection(num, bm, obj)`. */
  function CheckSelection(num: nat, m: BMesh.Mesh): (r: Check)
    requires BMesh.Valid(m)
    ensures |m.history| < num <==> r.Short?
    ensures r.Found? ==> 1 <= num <= 4 && |r.coords| == num
    ensures r.Found? <==> 1 <= num <= 4 && num <= |m.history| && forall k :: 0 <= k < num ==> BMesh.Newest(m, k).VertElem?
    ensures r.Found? ==> forall k :: 0 <= k < num ==>
      BMesh.Newest(m, k).VertElem? && r.coords[k] == m.co[BMesh.Newest(m, k).v]
    ensures r.Reset? <==> num <= |m.history| && |m.history| > 0 && !m.history[|m.history| - 1].VertElem?
    ensures r.Reset? ==> r.mesh == BMesh.ClearHistory(BMesh.DeselectAll(m))
    ensures r.NoTuple? ==> num < 1 || 4 < num
  {
    assert 1 <= num <= |m.history| ==> BMesh.Newest(m, 0) == m.history[|m.history| - 1];
    if |m.history| < num then Short
    else if |m.history| == 0 then CheckFault(World.IndexFault)
    else if !m.history[|m.history| - 1].VertElem? then Reset(BMesh.ClearHistory(BMesh.DeselectAll(m)))
    else if num < 1 || num > 4 then NoTuple
    else
      var c := HistoryCoords(m, num);
      if c.Some? then Found(c.value) else CheckFault(World.AttributeFault)
  }

  // -------------------------------------------------------- selection reset

  /**
   `updateSel(bm, verts, edges, faces)`: deselect everything, then select the
   given elements.
   */
  function UpdateSel(m: BMesh.Mesh, verts: set<nat>, edges: set<nat>, faces: set<nat>): (r: BMesh.Mesh)
    ensures r.selVerts == verts && r.selEdges == edges && r.selFaces == faces
    ensures r.co == m.co && r.edges == m.edges && r.faceCount == m.faceCount && r.history == m.history
  {
    var cleared := BMesh.DeselectAll(m);
    cleared.(selVerts := cleared.selVerts + verts,
             selEdges := cleared.selEdges + edges,
             selFaces := cleared.selFaces + faces)
  }

  /** Resetting the selection twice is resetting it once. */
  lemma UpdateSelIdempotent(m: BMesh.Mesh, verts: set<nat>, edges: set<nat>, faces: set<nat>)
    ensures UpdateSel(UpdateSel(m, verts, edges, faces), verts, edges, faces) == UpdateSel(m, verts, edges, faces)
  {
  }

  /** The result does not depend on what was selected before. */
  lemma UpdateSelForgetsSelection(m: BMesh.Mesh, n: BMesh.Mesh, verts: set<nat>, edges: set<nat>, faces: set<nat>)
    requires m.co == n.co && m.edges == n.edges && m.faceCount == n.faceCount && m.history == n.history
    ensures UpdateSel(m, verts, edges, faces) == UpdateSel(n, verts, edges, faces)
  {
  }

  // ------------------------------------------------------------ percentage

  /** The fraction of the way from `p1` to `p2`: `per/100`, or its complement. */
  function PercentFraction(per: real, flip: bool, data: string): (t: real)
    ensures (flip != (data == "MV")) ==> t == (100.0 - per) / 100.0
    ensures (flip == (data == "MV")) ==> t == per / 100.0
  {
    if flip then
      if data != "MV" then (100.0 - per) / 100.0 else per / 100.0
    else
      if data != "MV" then per / 100.0 else (100.0 - per) / 100.0
  }

  function Scale(v: Vec, t: real): Vec
  {
    Vec(v.x * t, v.y * t, v.z * t)
  }

  /** `p1 + (p2 - p1) * t` for the fraction `getPercent` chooses. */
  function PercentPoint(p1: Vec, p2: Vec, per: real, flip: bool, data: string): Vec
  {
    Add(Scale(Sub(p2, p1), PercentFraction(per, flip, data)), p1)
  }

  /** The point lies on the line through `p1` and `p2`, a fraction `t` of the way along. */
  predicate OnSegmentAt(q: Vec, p1: Vec, p2: Vec, t: real)
  {
    q.x == p1.x + t * (p2.x - p1.x) && q.y == p1.y + t * (p2.y - p1.y) && q.z == p1.z + t * (p2.z - p1.z)
  }

  /** The interpolated point is at `per` percent, or `100 - per` when exactly one of flip and MV holds. */
  lemma PercentPointOnLine(p1: Vec, p2: Vec, per: real, flip: bool, data: string)
    ensures OnSegmentAt(PercentPoint(p1, p2, per, flip, data), p1, p2,
                        if flip != (data == "MV") then (100.0 - per) / 100.0 else per / 100.0)
  {
  }

  /** Unflipped, for anything but MV, 0 percent is the first point and 100 the second. */
  lemma PercentEndpoints(p1: Vec, p2: Vec, data: string)
    requires data != "MV"
    ensures PercentPoint(p1, p2, 0.0, false, data) == p1
    ensures PercentPoint(p1, p2, 100.0, false, data) == p2
  {
  }

  /** Flipping and choosing MV cancel each other. */
  lemma PercentFlipCancelsMove(p1: Vec, p2: Vec, per: real)
    ensures PercentPoint(p1, p2, per, true, "MV") == PercentPoint(p1, p2, per, false, "CU")
    ensures PercentPoint(p1, p2, per, false, "MV") == PercentPoint(p1, p2, per, true, "CU")
  {
  }

  /** Flipping measures the same percentage from the other end. */
  lemma PercentFlipIsComplement(p1: Vec, p2: Vec, per: real, data: string)
    ensures PercentPoint(p1, p2, per, true, data) == PercentPoint(p1, p2, 100.0 - per, false, data)
  {
  }

  /** What `getPercent` gives back. */
  datatype PercentResult = PercentOk(point: Vec) | PercentError(w: World.World) | PercentFault(fault: World.Fault)

  /**
   `getPercent(obj, flip_p, per_v, data, scene)`. In Edit mode the two ends
   are the first two selected vertices in mesh order (local coordinates); in
   Object mode the last and second-to-last selected objects. Any other count
   sets `pdt_error`; any other mode leaves `p1` and `p2` unbound, and `p2 - p1` reads `p2` first.
   */
  function GetPercent(w: World.World, obj: World.Obj, flip: bool, per: real, data: string): (r: PercentResult)
    requires World.ValidWorld(w) && BMesh.Valid(obj.mesh)
    ensures obj.mode == World.EditMode ==>
      (r.PercentError? <==> |BMesh.SelectedVerts(obj.mesh)| != 2)
    ensures obj.mode == World.ObjectMode ==> (r.PercentError? <==> |w.selected| != 2)
    ensures r.PercentError? ==> r.w.scene.error.Some? && r.w.objects == w.objects
    ensures r.PercentError? ==> r.w.scene == w.scene.(error := r.w.scene.error) && World.ValidWorld(r.w)
    ensures r.PercentFault? <==> obj.mode.OtherMode?
    ensures r.PercentFault? ==> r.fault == World.UnboundLocal("p2")
    ensures r.PercentOk? && obj.mode == World.EditMode ==>
      var vs := BMesh.SelectedVerts(obj.mesh);
      |vs| == 2 && r.point == PercentPoint(obj.mesh.co[vs[0]], obj.mesh.co[vs[1]], per, flip, data)
    ensures r.PercentOk? && obj.mode == World.ObjectMode ==>
      |w.selected| == 2 &&
      r.point == PercentPoint(w.objects[w.selected[1]].location, w.objects[w.selected[0]].location, per, flip, data)
  {
    match obj.mode
    case EditMode =>
      var vs := BMesh.SelectedVerts(obj.mesh);
      if |vs| == 2 then PercentOk(PercentPoint(obj.mesh.co[vs[0]], obj.mesh.co[vs[1]], per, flip, data))
      else PercentError(World.SetError(w, Messages.Message(Messages.Literal("Select 2 Vertices Individually"), "")))
    case ObjectMode =>
      if |w.selected| != 2 then PercentError(World.SetError(w, Messages.Message(Messages.Literal("Select Only 2 Objects"), "")))
      else
        var locs := World.SelectedLocations(w);
        PercentOk(PercentPoint(locs[1], locs[0], per, flip, data))
    case OtherMode(_) => PercentFault(World.UnboundLocal("p2"))
  }

  // ---------------------------------------------------------- intersection

  /** The host's view transforms (`viewCoords`, `viewCoordsI`, `viewDir`), which read the view matrix. */
  datatype View = View(coords: Vec -> Vec, coordsI: Vec -> Vec, dir: (real, real) -> Vec)

  /** A point of a plane, and the homogeneous coordinates of points and lines. */
  datatype P2 = P2(u: real, v: real)
  datatype H = H(x: real, y: real, z: real)

  function Cross(a: H, b: H): H
  {
    H(a.y * b.z - a.z * b.y, a.z * b.x - a.x * b.z, a.x * b.y - a.y * b.x)
  }

  function Lift(p: P2): H
  {
    H(p.u, p.v, 1.0)
  }

  function Dot(a: H, b: H): real
  {
    a.x * b.x + a.y * b.y + a.z * b.z
  }

  /** The 2D cross product of two in-plane directions; zero exactly when they are parallel. */
  function Cross2(a: P2, b: P2): real
  {
    a.u * b.v - a.v * b.u
  }

  function Diff(a: P2, b: P2): P2
  {
    P2(a.u - b.u, a.v - b.v)
  }

  /** `q` lies on the line through `a` and `b`. */
  predicate OnLine(q: P2, a: P2, b: P2)
  {
    Cross2(Diff(q, a), Diff(b, a)) == 0.0
  }

  /** The result of the homogeneous computation: failure when the lines are parallel. */
  datatype Meet = Parallel | MeetsAt(p: P2)

  /**
   The intersection of line `a1`–`a2` with line `b1`–`b2`, as `intersection`
   computes it: the cross product of the two lines' homogeneous coordinates.
   */
  function Meet2(a1: P2, a2: P2, b1: P2, b2: P2): (r: Meet)
    ensures r.Parallel? <==> Cross2(Diff(a2, a1), Diff(b2, b1)) == 0.0
    ensures r.MeetsAt? ==> OnLine(r.p, a1, a2) && OnLine(r.p, b1, b2)
  {
    var l1 := Cross(Lift(a1), Lift(a2));
    var l2 := Cross(Lift(b1), Lift(b2));
    var x := Cross(l1, l2);
    ParallelIsZero(a1, a2, b1, b2);
    if x.z == 0.0 then Parallel
    else
      var q := P2(x.x / x.z, x.y / x.z);
      OnBothLines(a1, a2, b1, b2, x, q);
      MeetsAt(q)
  }

  lemma ParallelIsZero(a1: P2, a2: P2, b1: P2, b2: P2)
    ensures Cross(Cross(Lift(a1), Lift(a2)), Cross(Lift(b1), Lift(b2))).z == Cross2(Diff(a2, a1), Diff(b2, b1))
  {
  }

  /** A line's homogeneous coordinates are orthogonal to any point cut out with it. */
  lemma DotCrossZero(l: H, m: H)
    ensures Dot(l, Cross(l, m)) == 0.0
  {
    calc {
      Dot(l, Cross(l, m));
      l.x * (l.y * m.z - l.z * m.y) + l.y * (l.z * m.x - l.x * m.z) + l.z * (l.x * m.y - l.y * m.x);
      (l.x * l.y * m.z - l.x * l.z * m.y) + (l.y * l.z * m.x - l.y * l.x * m.z) + (l.z * l.x * m.y - l.z * l.y * m.x);
      0.0;
    }
  }

  lemma DotCrossZeroRight(l: H, m: H)
    ensures Dot(m, Cross(l, m)) == 0.0
  {
    calc {
      Dot(m, Cross(l, m));
      m.x * (l.y * m.z - l.z * m.y) + m.y * (l.z * m.x - l.x * m.z) + m.z * (l.x * m.y - l.y * m.x);
      (m.x * l.y * m.z - m.x * l.z * m.y) + (m.y * l.z * m.x - m.y * l.x * m.z) + (m.z * l.x * m.y - m.z * l.y * m.x);
      0.0;
    }
  }

  /** Being on the line through `a` and `b` is orthogonality to their homogeneous cross product. */
  lemma OnLineIsDot(q: P2, a: P2, b: P2)
    ensures OnLine(q, a, b) <==> Dot(Cross(Lift(a), Lift(b)), Lift(q)) == 0.0
  {
    assert Cross2(Diff(q, a), Diff(b, a)) == -Dot(Cross(Lift(a), Lift(b)), Lift(q));
  }

  /** Dividing by the third coordinate keeps a point on every line through it. */
  lemma Dehomogenise(l: H, x: H, q: P2)
    requires x.z != 0.0 && q.u * x.z == x.x && q.v * x.z == x.y
    requires Dot(l, x) == 0.0
    ensures Dot(l, Lift(q)) == 0.0
  {
    calc {
      Dot(l, Lift(q)) * x.z;
      l.x * (q.u * x.z) + l.y * (q.v * x.z) + l.z * x.z;
      Dot(l, x);
    }
    ProductZero(Dot(l, Lift(q)), x.z);
  }

  lemma ProductZero(a: real, b: real)
    requires a * b == 0.0 && b != 0.0
    ensures a == 0.0
  {
  }

  lemma OnBothLines(a1: P2, a2: P2, b1: P2, b2: P2, x: H, q: P2)
    requires x == Cross(Cross(Lift(a1), Lift(a2)), Cross(Lift(b1), Lift(b2)))
    requires x.z != 0.0 && q == P2(x.x / x.z, x.y / x.z)
    ensures OnLine(q, a1, a2) && OnLine(q, b1, b2)
  {
    var l1 := Cross(Lift(a1), Lift(a2));
    var l2 := Cross(Lift(b1), Lift(b2));
    DotCrossZero(l1, l2);
    DotCrossZeroRight(l1, l2);
    assert q.u * x.z == x.x;
    assert q.v * x.z == x.y;
    Dehomogenise(l1, x, q);
    Dehomogenise(l2, x, q);
    OnLineIsDot(q, a1, a2);
    OnLineIsDot(q, b1, b2);
  }

  /**
   The view-plane coordinates of `v` relative to `act`: `viewCoordsI` of the
   difference, keeping its first two components; `act` itself maps to the origin.
   */
  function ViewPoint(v: Vec, act: Vec, view: View): P2
  {
    var c := view.coordsI(Sub(v, act));
    P2(c.x, c.y)
  }

  /** The in-plane coordinates of `v` in a world plane. */
  function InPlane(v: Vec, a1: Axis, a2: Axis): P2
  {
    P2(Get(v, a1), Get(v, a2))
  }

  /**
   `intersection(actV, othV, lstV, fstV, plane)`: where line `fst`–`lst`
   crosses line `oth`–`act`, or `None` (the source's `(0,0,0), False`) when
   they are parallel. In a world plane the off-plane coordinate is `act`'s;
   in the view plane the points are taken relative to `act` and mapped
   through the view, `act` becoming the origin, and the crossing is mapped
   back and offset by `act`.
   */
  function Intersection(act: Vec, oth: Vec, lst: Vec, fst: Vec, plane: Properties.Plane, view: View): (r: Option<Vec>)
    ensures plane != Properties.LO ==>
      var (a1, a2, a3) := SetMode(plane).value;
      (r.None? <==> Cross2(Diff(InPlane(lst, a1, a2), InPlane(fst, a1, a2)),
                           Diff(InPlane(act, a1, a2), InPlane(oth, a1, a2))) == 0.0)
      && (r.Some? ==>
            OnLine(InPlane(r.value, a1, a2), InPlane(fst, a1, a2), InPlane(lst, a1, a2))
            && OnLine(InPlane(r.value, a1, a2), InPlane(oth, a1, a2), InPlane(act, a1, a2))
            && Get(r.value, a3) == Get(act, a3))
    ensures plane == Properties.LO ==>
      var (o, l, f) := (ViewPoint(oth, act, view), ViewPoint(lst, act, view), ViewPoint(fst, act, view));
      (r.None? <==> Cross2(Diff(l, f), Diff(P2(0.0, 0.0), o)) == 0.0)
      && (r.Some? ==> exists q :: OnLine(q, f, l) && OnLine(q, o, P2(0.0, 0.0))
                                  && r.value == Add(view.coords(Vec(q.u, q.v, 0.0)), act))
  {
    if plane == Properties.LO then
      var o := ViewPoint(oth, act, view);
      var l := ViewPoint(lst, act, view);
      var f := ViewPoint(fst, act, view);
      match Meet2(f, l, o, P2(0.0, 0.0))
      case Parallel => None
      case MeetsAt(q) =>
        assert OnLine(q, f, l) && OnLine(q, o, P2(0.0, 0.0));
        Some(Add(view.coords(Vec(q.u, q.v, 0.0)), act))
    else
      var (a1, a2, a3) := SetMode(plane).value;
      match Meet2(InPlane(fst, a1, a2), InPlane(lst, a1, a2), InPlane(oth, a1, a2), InPlane(act, a1, a2))
      case Parallel => None
      case MeetsAt(q) => Some(Place(q, Get(act, a3), a1, a2, a3))
  }

  /** The vector with `q` on the in-plane axes and `h` on the normal one (`Vector((nx, ly, nz))` for XZ, …). */
  function Place(q: P2, h: real, a1: Axis, a2: Axis, a3: Axis): (r: Vec)
    requires IsPermutation(a1, a2, a3)
    ensures Get(r, a1) == q.u && Get(r, a2) == q.v && Get(r, a3) == h
  {
    With(With(With(Zero, a1, q.u), a2, q.v), a3, h)
  }
}
