/**
 The wave generator (`pdt.wave_generator`): a sine, cosine or tangent wave
 built as a polyline of new vertices in a chosen object, laid out along the
 first axis of the working plane with the wave's values along the second.

 The settings live in the scene's `pdt_pg` property group; here they are a
 `WaveSettings` record. `sin`, `cos`, `tan` and `pi` arrive as `Numerics`,
 the view-plane transform as a `PdtFunctions.View`. When the old vertices
 are to go, Blender's delete runs first; the mesh it leaves arrives as a
 parameter.
 */
module Waves {
  import opened Vectors
  import opened Wrappers
  import opened Properties
  import BMesh
  import W = World
  import PdtFunctions

  /** `trig_type`. */
  datatype WaveType = SinWave | CosWave | TanWave

  /** The `trig_*` settings and `pg.plane`. `obj` is `trig_obj`, an index into the objects. */
  datatype WaveSettings = WaveSettings(
    obj: Option<nat>,
    plane: Plane,
    kind: WaveType,
    absolute: bool,      // trig_abs
    amp: real,           // trig_amp
    length: real,        // trig_len, the length of one half cycle
    res: int,            // trig_res, vertices per half cycle
    cycles: int,         // trig_cycles
    tanMax: real,        // trig_tanmax
    offset: Vec,         // trig_off
    clear: bool)         // trig_del

  /**
   `set_mode(plane)`: the horizontal, vertical and depth axes. For the view
   plane the wave is laid out in x, y and z and then carried into view axes.
   */
  function WaveAxes(p: Plane): (r: (Axis, Axis, Axis))
    ensures IsPermutation(r.0, r.1, r.2)
    ensures p != LO ==> Some(r) == PdtFunctions.SetMode(p)
  {
    if p == LO then (0, 1, 2) else PdtFunctions.SetMode(p).value
  }

  function Abs(x: real): (r: real)
    ensures r >= 0.0 && (r == x || r == -x)
  {
    if x < 0.0 then -x else x
  }

  /** Python's `range(n)`: the integers from 0 up to but not including `n`, in order. */
  function Range(n: int): (r: seq<int>)
    ensures |r| == if n > 0 then n else 0
    ensures forall k :: 0 <= k < |r| ==> r[k] == k
    decreases n
  {
    if n <= 0 then [] else Range(n - 1) + [n - 1]
  }

  /**
   The number of vertices the loop over `range(res * cycles + 1)` makes:
   one per index it yields, and the indices are exactly 0 to `n - 1`.
   */
  function VertexCount(g: WaveSettings): (n: nat)
    ensures n == |Range(g.res * g.cycles + 1)|
  {
    if g.res * g.cycles + 1 > 0 then g.res * g.cycles + 1 else 0
  }

  /** The function the wave follows, at `x` radians. */
  function Shape(k: WaveType, x: real, num: Numerics): real
  {
    match k
    case SinWave => num.sin(x)
    case CosWave => num.cos(x)
    case TanWave => num.tan(x)
  }

  /**
   The tangent's cap: a value beyond `tanMax` either way is replaced by
   `tanMax`, negated for a negative value unless `absolute` is set.
   */
  function TanClamp(z: real, tanMax: real, absolute: bool): (r: real)
    ensures tanMax >= 0.0 ==> Abs(r) <= tanMax
    ensures Abs(z) <= tanMax ==> r == z
    ensures tanMax >= 0.0 && z >= 0.0 ==> r >= 0.0
    ensures tanMax >= 0.0 && z < 0.0 && !absolute ==> r <= 0.0
  {
    if Abs(z) > tanMax then
      if z >= 0.0 then tanMax
      else if absolute then tanMax else -tanMax
    else z
  }

  /**
   The height of vertex `i`: the shape at `(i / res) * pi`, times the
   amplitude, made non-negative when `trig_abs` is set, and capped for the
   tangent.
   */
  function WaveValue(g: WaveSettings, i: nat, num: Numerics): (z: real)
    requires g.res != 0
    ensures g.absolute && (g.kind != TanWave || g.tanMax >= 0.0) ==> z >= 0.0
    ensures g.kind == TanWave && g.tanMax >= 0.0 ==> Abs(z) <= g.tanMax
    ensures g.kind != TanWave && !g.absolute ==> z == Shape(g.kind, (i as real / g.res as real) * num.pi, num) * g.amp
    ensures g.kind == TanWave && !g.absolute && g.tanMax >= 0.0 ==>
      var v := Shape(g.kind, (i as real / g.res as real) * num.pi, num) * g.amp;
      (v >= 0.0 ==> z >= 0.0) && (v < 0.0 ==> z <= 0.0)
  {
    var v := Shape(g.kind, (i as real / g.res as real) * num.pi, num) * g.amp;
    var z := if g.absolute then Abs(v) else v;
    if g.kind == TanWave then TanClamp(z, g.tanMax, g.absolute) else z
  }

  /** `trig_len / trig_res`, the step along the horizontal axis. */
  function Step(g: WaveSettings): real
    requires g.res != 0
  {
    g.length / g.res as real
  }

  /**
   Where vertex `i` goes: the offset moved `i` steps along the horizontal
   axis and by the wave's value along the vertical one; in the view plane,
   that point carried into view axes.
   */
  function WavePoint(g: WaveSettings, i: nat, view: PdtFunctions.View, num: Numerics): (p: Vec)
    requires g.res != 0
    ensures g.plane != LO ==>
      var axes := WaveAxes(g.plane);
      Get(p, axes.0) == Get(g.offset, axes.0) + i as real * Step(g)
      && Get(p, axes.1) == Get(g.offset, axes.1) + WaveValue(g, i, num)
      && Get(p, axes.2) == Get(g.offset, axes.2)
  {
    var axes := WaveAxes(g.plane);
    var loc := With(g.offset, axes.0, Get(g.offset, axes.0) + i as real * Step(g));
    var loc2 := With(loc, axes.1, Get(loc, axes.1) + WaveValue(g, i, num));
    if g.plane == LO then view.coords(Vec(Get(loc2, axes.0), Get(loc2, axes.1), Get(loc2, axes.2)))
    else loc2
  }

  /** The edges of an open polyline through `n` vertices numbered from `base`, each joining a vertex to the next. */
  function Chain(base: nat, n: nat): (r: seq<BMesh.Edge>)
    ensures |r| == (if n == 0 then 0 else n - 1)
    ensures forall k :: 0 <= k < |r| ==> r[k] == BMesh.Edge(base + k, base + k + 1)
  {
    seq(if n == 0 then 0 else n - 1, k requires 0 <= k => BMesh.Edge(base + k, base + k + 1))
  }

  /** The first `n` wave points, in the order they are made. */
  function WavePoints(g: WaveSettings, n: nat, view: PdtFunctions.View, num: Numerics): (ps: seq<Vec>)
    requires g.res != 0
    ensures |ps| == n
    ensures forall i :: 0 <= i < n ==> ps[i] == WavePoint(g, i, view, num)
  {
    seq(n, i requires 0 <= i => WavePoint(g, i, view, num))
  }

  /**
   One round of the loop: `bm.verts.new(p)` and, when `link` is set, an edge
   from `bm.verts[-2]`, the vertex made just before, to the new one.
   */
  function Extend(m: BMesh.Mesh, p: Vec, link: bool): (r: BMesh.Mesh)
    requires BMesh.Valid(m) && (link ==> |m.co| > 0)
    ensures BMesh.Valid(r)
    ensures r.co == m.co + [p]
    ensures link ==> r.edges == m.edges + [BMesh.Edge(|m.co| - 1, |m.co|)]
    ensures !link ==> r.edges == m.edges
    ensures r == m.(co := r.co, edges := r.edges)
  {
    var m2 := BMesh.AddVert(m, p);
    if link then
      var last := |m2.co| - 1;
      var m3 := m2.(edges := m2.edges + [BMesh.Edge(last - 1, last)]);
      assert forall h :: h in m3.history ==> BMesh.ElemExists(m3, h) by {
        forall h | h in m3.history ensures BMesh.ElemExists(m3, h) {
          assert BMesh.ElemExists(m2, h);
        }
      }
      m3
    else m2
  }

  /**
   The loop of `execute`, its first `n` rounds: the first `n` of the points
   `ps` added in order, each after the first joined to the one before. The
   result is the closed form: exactly those points appended, and an open
   polyline through them.
   */
  function Polyline(m: BMesh.Mesh, ps: seq<Vec>, n: nat): (r: BMesh.Mesh)
    requires BMesh.Valid(m) && n <= |ps|
    ensures BMesh.Valid(r)
    ensures r.co == m.co + ps[..n]
    ensures r.edges == m.edges + Chain(|m.co|, n)
    ensures r == m.(co := r.co, edges := r.edges)
  {
    if n == 0 then
      PolylineStart(m.co, m.edges, ps);
      m
    else
      var m1 := Polyline(m, ps, n - 1);
      var r := Extend(m1, ps[n - 1], n > 1);
      PointsGrow(m.co, ps, n);
      EdgesGrow(m.edges, |m.co|, n);
      r
  }

  lemma PolylineStart(co: seq<Vec>, edges: seq<BMesh.Edge>, ps: seq<Vec>)
    ensures co + ps[..0] == co && edges + Chain(|co|, 0) == edges
  {
  }

  lemma PointsGrow(co: seq<Vec>, ps: seq<Vec>, n: nat)
    requires 0 < n <= |ps|
    ensures co + ps[..n] == (co + ps[..n - 1]) + [ps[n - 1]]
  {
    assert ps[..n] == ps[..n - 1] + [ps[n - 1]];
  }

  lemma EdgesGrow(edges: seq<BMesh.Edge>, base: nat, n: nat)
    requires n > 0
    ensures n > 1 ==> edges + Chain(base, n) == (edges + Chain(base, n - 1)) + [BMesh.Edge(base + n - 2, base + n - 1)]
    ensures n == 1 ==> edges + Chain(base, n) == edges + Chain(base, n - 1)
  {
    if n > 1 {
      ChainGrows(base, n);
    }
  }

  /** Growing the chain by one vertex adds the edge into that vertex. */
  lemma ChainGrows(base: nat, n: nat)
    requires n > 1
    ensures Chain(base, n) == Chain(base, n - 1) + [BMesh.Edge(base + n - 2, base + n - 1)]
  {
    var a := Chain(base, n);
    var b := Chain(base, n - 1) + [BMesh.Edge(base + n - 2, base + n - 1)];
    assert |a| == |b|;
    forall k | 0 <= k < |a| ensures a[k] == b[k] {
      if k < n - 2 {
        assert b[k] == Chain(base, n - 1)[k];
      }
    }
  }

  /**
   `pdt.wave_generator`: every object deselected, `trig_obj` made active,
   the old vertices deleted if `trig_del` is set, the wave added, and the
   object left in Object mode. Its `poll` asks for a `trig_obj`; a zero
   `trig_res` divides by zero after the deselection and the change of active
   object, before any vertex is made.
   */
  function WaveGenerator(w: W.World, g: WaveSettings, afterDelete: BMesh.Mesh,
                         view: PdtFunctions.View, num: Numerics): (r: W.Outcome)
    requires W.ValidWorld(w) && BMesh.Valid(afterDelete)
    requires g.obj.Some? ==> g.obj.value < |w.objects|
    ensures W.ValidWorld(r.world)
    ensures g.obj.None? ==> r == W.Outcome(w, W.Cancelled)
    ensures g.obj.Some? && g.res == 0 ==>
      r.status == W.Raised(W.ZeroDivisionFault) && r.world.selected == [] && r.world.active == g.obj
      && r.world == w.(selected := r.world.selected, active := r.world.active)
    ensures g.obj.Some? && g.res != 0 ==>
      var k := g.obj.value;
      var base := if g.clear then afterDelete else w.objects[k].mesh;
      r.status == W.Finished && r.world.selected == [] && r.world.active == Some(k)
      && r.world.scene == w.scene
      && r.world.host == w.host + (if g.clear then [W.DeleteVerts(k)] else [])
      && W.Active(r.world).value == w.objects[k].(mode := W.ObjectMode, mesh := Polyline(base, WavePoints(g, VertexCount(g), view, num), VertexCount(g)))
  {
    match g.obj
    case None => W.Outcome(w, W.Cancelled)
    case Some(k) =>
      var w1 := w.(selected := [], active := Some(k));
      if g.res == 0 then W.Crash(w1, W.ZeroDivisionFault)
      else
        var w2 := if g.clear then W.CallHost(w1, W.DeleteVerts(k)) else w1;
        var base := if g.clear then afterDelete else w.objects[k].mesh;
        var m := Polyline(base, WavePoints(g, VertexCount(g), view, num), VertexCount(g));
        W.Done(W.SetActive(w2, w.objects[k].(mode := W.ObjectMode, mesh := m)))
  }
}

/** The shape of the generated wave. */
module WavesFacts {
  import opened Vectors
  import opened Wrappers
  import opened Properties
  import BMesh
  import W = World
  import PdtFunctions
  import opened Waves

  /**
   The whole loop makes `res * cycles + 1` vertices joined into one open
   polyline of `res * cycles` edges.
   */
  lemma WaveIsPolyline(m: BMesh.Mesh, g: WaveSettings, view: PdtFunctions.View, num: Numerics)
    requires BMesh.Valid(m) && g.res != 0 && g.res * g.cycles >= 0
    ensures var r := Polyline(m, WavePoints(g, VertexCount(g), view, num), VertexCount(g));
      |r.co| - |m.co| == g.res * g.cycles + 1
      && |r.edges| - |m.edges| == g.res * g.cycles
      && forall k :: |m.edges| <= k < |r.edges| ==>
           r.edges[k] == BMesh.Edge(|m.co| + (k - |m.edges|), |m.co| + (k - |m.edges|) + 1)
  {
    var ps := WavePoints(g, VertexCount(g), view, num);
    var r := Polyline(m, ps, |ps|);
    var c := Chain(|m.co|, VertexCount(g));
    forall k | |m.edges| <= k < |r.edges|
      ensures r.edges[k] == BMesh.Edge(|m.co| + (k - |m.edges|), |m.co| + (k - |m.edges|) + 1)
    {
      assert r.edges[k] == c[k - |m.edges|];
    }
  }

  /** In a world plane, neighbouring wave points are one step apart along the horizontal axis. */
  lemma WaveSpacing(g: WaveSettings, n: nat, view: PdtFunctions.View, num: Numerics)
    requires g.res != 0 && g.plane != LO
    ensures var ps := WavePoints(g, n, view, num);
      forall i :: 0 <= i < n - 1 ==>
        Get(ps[i + 1], WaveAxes(g.plane).0) - Get(ps[i], WaveAxes(g.plane).0) == Step(g)
  {
    var ps := WavePoints(g, n, view, num);
    forall i | 0 <= i < n - 1
      ensures Get(ps[i + 1], WaveAxes(g.plane).0) - Get(ps[i], WaveAxes(g.plane).0) == Step(g)
    {
      PointStep(g, i, view, num);
    }
  }

  lemma PointStep(g: WaveSettings, i: nat, view: PdtFunctions.View, num: Numerics)
    requires g.res != 0 && g.plane != LO
    ensures Get(WavePoint(g, i + 1, view, num), WaveAxes(g.plane).0) - Get(WavePoint(g, i, view, num), WaveAxes(g.plane).0) == Step(g)
  {
    var a := WaveAxes(g.plane).0;
    var x := Get(g.offset, a);
    var d := Step(g);
    assert Get(WavePoint(g, i + 1, view, num), a) == x + (i + 1) as real * d;
    assert Get(WavePoint(g, i, view, num), a) == x + i as real * d;
    assert (i + 1) as real * d == i as real * d + d;
  }

  /** In a world plane every wave point lies in the plane through the offset across the depth axis. */
  lemma WaveIsFlat(g: WaveSettings, n: nat, view: PdtFunctions.View, num: Numerics)
    requires g.res != 0 && g.plane != LO
    ensures var ps := WavePoints(g, n, view, num);
      forall i :: 0 <= i < n ==> Get(ps[i], WaveAxes(g.plane).2) == Get(g.offset, WaveAxes(g.plane).2)
  {
  }

  /**
   With `trig_abs` set every wave point sits on or above the offset along
   the vertical axis (for the tangent, given a non-negative cap).
   */
  lemma AbsoluteWaveAbove(g: WaveSettings, n: nat, view: PdtFunctions.View, num: Numerics)
    requires g.res != 0 && g.plane != LO && g.absolute
    requires g.kind == TanWave ==> g.tanMax >= 0.0
    ensures var ps := WavePoints(g, n, view, num);
      forall i :: 0 <= i < n ==> Get(ps[i], WaveAxes(g.plane).1) >= Get(g.offset, WaveAxes(g.plane).1)
  {
    var ps := WavePoints(g, n, view, num);
    forall i | 0 <= i < n
      ensures Get(ps[i], WaveAxes(g.plane).1) >= Get(g.offset, WaveAxes(g.plane).1)
    {
      assert WaveValue(g, i, num) >= 0.0;
    }
  }

  /** A tangent wave with a non-negative cap never strays further than the cap from the offset, vertically. */
  lemma TangentWaveCapped(g: WaveSettings, n: nat, view: PdtFunctions.View, num: Numerics)
    requires g.res != 0 && g.plane != LO && g.kind == TanWave && g.tanMax >= 0.0
    ensures var ps := WavePoints(g, n, view, num);
      forall i :: 0 <= i < n ==>
        -g.tanMax <= Get(ps[i], WaveAxes(g.plane).1) - Get(g.offset, WaveAxes(g.plane).1) <= g.tanMax
  {
    var ps := WavePoints(g, n, view, num);
    forall i | 0 <= i < n
      ensures -g.tanMax <= Get(ps[i], WaveAxes(g.plane).1) - Get(g.offset, WaveAxes(g.plane).1) <= g.tanMax
    {
      assert Abs(WaveValue(g, i, num)) <= g.tanMax;
    }
  }
}
