/**
 The mesh edits the placement operators and the command line spell out in
 Python rather than delegating to Blender: adding a vertex and selecting it
 alone, extruding each selected vertex by an offset, and joining the
 selected vertices to a new one.
 */
module Edits {
  import opened Vectors
  import opened Wrappers
  import opened BMesh

  /** No edge has `n` as an end. */
  predicate Untouched(m: Mesh, n: nat)
  {
    forall e :: e in m.edges ==> e.a != n && e.b != n
  }

  /** A vertex index at or past the vertex count is on no edge of a valid mesh. */
  lemma PastEndUntouched(m: Mesh, n: nat)
    requires Valid(m) && n >= |m.co|
    ensures Untouched(m, n)
  {
  }

  lemma NoEdgeNotConnected(m: Mesh, a: nat, n: nat)
    requires forall e :: e in m.edges ==> e != Edge(a, n) && e != Edge(n, a)
    ensures !Connected(m, a, n)
  {
    forall k | 0 <= k < |m.edges|
      ensures m.edges[k] != Edge(a, n) && m.edges[k] != Edge(n, a)
    {
      assert m.edges[k] in m.edges;
    }
  }

  /** `bm.edges.new([a, n])` to a vertex no edge touches yet: it cannot fail. */
  function EdgeToFresh(m: Mesh, a: nat, n: nat): (r: Mesh)
    requires Valid(m) && a < |m.co| && n < |m.co| && a != n && Untouched(m, n)
    ensures Valid(r)
    ensures r == m.(edges := m.edges + [Edge(a, n)])
    ensures AddEdge(m, a, n) == Some(r)
  {
    NoEdgeNotConnected(m, a, n);
    m.(edges := m.edges + [Edge(a, n)])
  }

  /**
   New vertex at `p`; every selected vertex deselected; the new one selected;
   history cleared. (Design revision NV, the command line's N, Cen NV.)
   */
  function NewVertexAlone(m: Mesh, p: Vec): (r: Mesh)
    requires Valid(m)
    ensures Valid(r)
    ensures |r.co| == |m.co| + 1 && r.co[|m.co|] == p && r.co[..|m.co|] == m.co
    ensures r.edges == m.edges && r.faceCount == m.faceCount
    ensures r.selVerts == {|m.co|}
    ensures r.selEdges == m.selEdges && r.selFaces == m.selFaces
    ensures r.history == []
  {
    var m1 := AddVert(m, p);
    var m2 := DeselectVerts(m1, SelectedVerts(m1));
    assert m2.selVerts == {};
    ClearHistory(SelectVert(m2, |m.co|, true))
  }

  /** New vertex at `p` added to the selection; history cleared. (Design revision Absolute NV.) */
  function NewVertexSelected(m: Mesh, p: Vec): (r: Mesh)
    requires Valid(m)
    ensures Valid(r)
    ensures |r.co| == |m.co| + 1 && r.co[|m.co|] == p && r.co[..|m.co|] == m.co
    ensures r.edges == m.edges && r.faceCount == m.faceCount
    ensures r.selVerts == m.selVerts + {|m.co|}
    ensures r.selEdges == m.selEdges && r.selFaces == m.selFaces
    ensures r.history == []
  {
    SelectVert(ClearHistory(AddVert(m, p)), |m.co|, true)
  }

  /** New vertex at `p`, history cleared, selection untouched. (Older revision NV.) */
  function NewVertexOnly(m: Mesh, p: Vec): (r: Mesh)
    requires Valid(m)
    ensures Valid(r)
    ensures |r.co| == |m.co| + 1 && r.co[|m.co|] == p && r.co[..|m.co|] == m.co
    ensures r.edges == m.edges && r.selVerts == m.selVerts && r.history == []
  {
    ClearHistory(AddVert(m, p))
  }

  /** The indices in `vs`, as a set. */
  function Members(vs: seq<nat>): (r: set<nat>)
    ensures forall i :: i in r <==> i in vs
  {
    set i | i in vs
  }

  /** The indices `lo`, …, `hi - 1`. */
  function Range(lo: nat, hi: nat): (r: set<nat>)
    ensures forall i :: i in r <==> lo <= i < hi
    decreases hi
  {
    if hi <= lo then {} else Range(lo, hi - 1) + {hi - 1}
  }

  /**
   What extruding each vertex of `vs` by `d` leaves: one new vertex per entry,
   at that vertex's location plus `d`, joined to it; the extruded vertices
   deselected and the new ones selected.
   */
  function ExtrudeEach(m: Mesh, vs: seq<nat>, d: Vec): (r: Mesh)
    requires forall k :: 0 <= k < |vs| ==> vs[k] < |m.co|
  {
    m.(co := m.co + seq(|vs|, k requires 0 <= k < |vs| => Add(m.co[vs[k]], d)),
       edges := m.edges + seq(|vs|, k requires 0 <= k < |vs| => Edge(vs[k], |m.co| + k)),
       selVerts := (m.selVerts - Members(vs)) + Range(|m.co|, |m.co| + |vs|))
  }

  /**
   The source's loop, one vertex at a time: `nVert = bm.verts.new(v.co)`,
   `nVert.co += d`, `bm.edges.new([v, nVert])`, `v.select_set(False)`,
   `nVert.select_set(True)`. An `edges.new` that would raise leaves the edge out.
   */
  function ExtrudeSteps(m: Mesh, vs: seq<nat>, d: Vec): (r: Mesh)
    requires forall k :: 0 <= k < |vs| ==> vs[k] < |m.co|
    ensures |r.co| == |m.co| + |vs|
    ensures r.co[..|m.co|] == m.co
    decreases |vs|
  {
    if |vs| == 0 then m
    else
      var p := ExtrudeSteps(m, vs[..|vs| - 1], d);
      var v := vs[|vs| - 1];
      assert p.co[..|m.co|][v] == p.co[v];
      ExtrudeStep(p, v, d)
  }

  function ExtrudeStep(p: Mesh, v: nat, d: Vec): (r: Mesh)
    requires v < |p.co|
    ensures |r.co| == |p.co| + 1 && r.co[..|p.co|] == p.co
  {
    var n := |p.co|;
    var p1 := AddVert(p, Add(p.co[v], d));
    var p2 := match AddEdge(p1, v, n) case Some(q) => q case None => p1;
    SelectVert(SelectVert(p2, v, false), n, true)
  }

  /** The vertex-by-vertex loop produces exactly the mesh `ExtrudeEach` describes. */
  lemma {:induction false} ExtrudeStepsIsExtrudeEach(m: Mesh, vs: seq<nat>, d: Vec)
    requires Valid(m)
    requires forall k :: 0 <= k < |vs| ==> vs[k] < |m.co|
    ensures ExtrudeSteps(m, vs, d) == ExtrudeEach(m, vs, d)
    decreases |vs|
  {
    if |vs| > 0 {
      var front := vs[..|vs| - 1];
      ExtrudeStepsIsExtrudeEach(m, front, d);
      ExtrudeEachSnoc(m, vs, d);
    }
  }

  /** One more step of the loop extends `ExtrudeEach` by the next vertex. */
  lemma ExtrudeEachSnoc(m: Mesh, vs: seq<nat>, d: Vec)
    requires Valid(m) && |vs| > 0
    requires forall k :: 0 <= k < |vs| ==> vs[k] < |m.co|
    ensures ExtrudeStep(ExtrudeEach(m, vs[..|vs| - 1], d), vs[|vs| - 1], d) == ExtrudeEach(m, vs, d)
  {
    var j := |vs| - 1;
    var front := vs[..j];
    var v := vs[j];
    var p := ExtrudeEach(m, front, d);
    ExtrudedNotConnected(m, front, d, v);
    ExtrudeStepUnjoined(p, v, d);
    ExtrudeEachGrows(m, vs, d);
  }

  /** A step on a vertex not yet joined to the next index adds the copy, the edge, and moves the selection. */
  lemma ExtrudeStepUnjoined(p: Mesh, v: nat, d: Vec)
    requires v < |p.co|
    requires forall e :: e in p.edges ==> e != Edge(v, |p.co|) && e != Edge(|p.co|, v)
    ensures ExtrudeStep(p, v, d)
      == p.(co := p.co + [Add(p.co[v], d)], edges := p.edges + [Edge(v, |p.co|)],
            selVerts := (p.selVerts - {v}) + {|p.co|})
  {
    var p1 := AddVert(p, Add(p.co[v], d));
    NoEdgeNotConnected(p1, v, |p.co|);
  }

  /** `ExtrudeEach` over one more vertex, in the shape of one more step. */
  lemma ExtrudeEachGrows(m: Mesh, vs: seq<nat>, d: Vec)
    requires |vs| > 0
    requires forall k :: 0 <= k < |vs| ==> vs[k] < |m.co|
    ensures var p := ExtrudeEach(m, vs[..|vs| - 1], d);
      var v := vs[|vs| - 1];
      v < |p.co|
      && ExtrudeEach(m, vs, d)
         == p.(co := p.co + [Add(p.co[v], d)], edges := p.edges + [Edge(v, |p.co|)],
               selVerts := (p.selVerts - {v}) + {|p.co|})
  {
    var j := |vs| - 1;
    var front := vs[..j];
    var v := vs[j];
    var p := ExtrudeEach(m, front, d);
    var r := ExtrudeEach(m, vs, d);
    assert p.co[v] == m.co[v];
    assert r.co == p.co + [Add(p.co[v], d)];
    assert r.edges == p.edges + [Edge(v, |p.co|)];
    assert r.selVerts == (p.selVerts - {v}) + {|p.co|} by {
      assert Members(vs) == Members(front) + {v} by {
        assert vs == front + [v];
      }
    }
  }

  /** After extruding `front`, vertex `v` is not yet joined to the next new vertex. */
  lemma ExtrudedNotConnected(m: Mesh, front: seq<nat>, d: Vec, v: nat)
    requires Valid(m) && v < |m.co|
    requires forall k :: 0 <= k < |front| ==> front[k] < |m.co|
    ensures forall e :: e in ExtrudeEach(m, front, d).edges ==>
      e != Edge(v, |m.co| + |front|) && e != Edge(|m.co| + |front|, v)
  {
    var p := ExtrudeEach(m, front, d);
    var n := |m.co| + |front|;
    forall e | e in p.edges ensures e != Edge(v, n) && e != Edge(n, v) {
      var k :| 0 <= k < |p.edges| && p.edges[k] == e;
      if k < |m.edges| {
        assert e in m.edges;
      } else {
        assert e == Edge(front[k - |m.edges|], |m.co| + (k - |m.edges|));
      }
    }
  }

  /** Extruding keeps every index in range. */
  lemma ExtrudeEachValid(m: Mesh, vs: seq<nat>, d: Vec)
    requires Valid(m)
    requires forall k :: 0 <= k < |vs| ==> vs[k] < |m.co|
    ensures Valid(ExtrudeEach(m, vs, d))
  {
    var r := ExtrudeEach(m, vs, d);
    forall e | e in r.edges ensures e.a < |r.co| && e.b < |r.co| {
      var k :| 0 <= k < |r.edges| && r.edges[k] == e;
      if k >= |m.edges| {
        assert e == Edge(vs[k - |m.edges|], |m.co| + (k - |m.edges|));
      } else {
        assert e in m.edges;
      }
    }
    forall h | h in r.history ensures ElemExists(r, h) {
      assert h in m.history;
    }
  }

  /**
   What joining each vertex of `vs` to a new vertex at `p` leaves: the new
   vertex, one edge from each of `vs` to it, those vertices deselected and
   the new one selected.
   */
  function FanToNew(m: Mesh, vs: seq<nat>, p: Vec): (r: Mesh)
    requires forall k :: 0 <= k < |vs| ==> vs[k] < |m.co|
  {
    m.(co := m.co + [p],
       edges := m.edges + seq(|vs|, k requires 0 <= k < |vs| => Edge(vs[k], |m.co|)),
       selVerts := (m.selVerts - Members(vs)) + {|m.co|})
  }

  /**
   The source's loop: `nVert = bm.verts.new(p)`, then for each `v`,
   `bm.edges.new([v, nVert])` and `v.select_set(False)`; finally
   `nVert.select_set(True)`.
   */
  function FanSteps(m: Mesh, vs: seq<nat>, p: Vec): (r: Mesh)
    requires forall k :: 0 <= k < |vs| ==> vs[k] < |m.co|
  {
    SelectVert(JoinSteps(AddVert(m, p), vs, |m.co|), |m.co|, true)
  }

  function JoinSteps(m: Mesh, vs: seq<nat>, n: nat): (r: Mesh)
    ensures r.co == m.co
    decreases |vs|
  {
    if |vs| == 0 then m
    else
      var p := JoinSteps(m, vs[..|vs| - 1], n);
      var v := vs[|vs| - 1];
      var p1 := match AddEdge(p, v, n) case Some(q) => q case None => p;
      SelectVert(p1, v, false)
  }

  /** Each of `vs` joined to vertex `n` and deselected. */
  function JoinClosed(m: Mesh, vs: seq<nat>, n: nat): Mesh
  {
    m.(edges := m.edges + seq(|vs|, k requires 0 <= k < |vs| => Edge(vs[k], n)),
       selVerts := m.selVerts - Members(vs))
  }

  lemma {:induction false} JoinStepsSpec(m: Mesh, vs: seq<nat>, n: nat)
    requires Valid(m) && n < |m.co| && Untouched(m, n)
    requires forall k :: 0 <= k < |vs| ==> vs[k] < n
    requires forall j, k :: 0 <= j < k < |vs| ==> vs[j] != vs[k]
    ensures JoinSteps(m, vs, n) == JoinClosed(m, vs, n)
    decreases |vs|
  {
    if |vs| > 0 {
      JoinStepsSpec(m, vs[..|vs| - 1], n);
      JoinSnoc(m, vs, n);
    }
  }

  lemma JoinSnoc(m: Mesh, vs: seq<nat>, n: nat)
    requires Valid(m) && n < |m.co| && Untouched(m, n) && |vs| > 0
    requires forall k :: 0 <= k < |vs| ==> vs[k] < n
    requires forall j, k :: 0 <= j < k < |vs| ==> vs[j] != vs[k]
    ensures
      var p := JoinClosed(m, vs[..|vs| - 1], n);
      var v := vs[|vs| - 1];
      SelectVert(match AddEdge(p, v, n) case Some(q) => q case None => p, v, false) == JoinClosed(m, vs, n)
  {
    var p := JoinClosed(m, vs[..|vs| - 1], n);
    var v := vs[|vs| - 1];
    JoinedNotConnected(m, vs, n);
    NoEdgeNotConnected(p, v, n);
    JoinClosedSnoc(m, vs, n);
  }

  /** Joining one more vertex adds its edge at the end and deselects it. */
  lemma JoinClosedSnoc(m: Mesh, vs: seq<nat>, n: nat)
    requires |vs| > 0
    ensures
      var p := JoinClosed(m, vs[..|vs| - 1], n);
      var v := vs[|vs| - 1];
      JoinClosed(m, vs, n) == p.(edges := p.edges + [Edge(v, n)], selVerts := p.selVerts - {v})
  {
    var front := vs[..|vs| - 1];
    var v := vs[|vs| - 1];
    var newEdges := seq(|vs|, k requires 0 <= k < |vs| => Edge(vs[k], n));
    var oldEdges := seq(|front|, k requires 0 <= k < |front| => Edge(front[k], n));
    assert newEdges == oldEdges + [Edge(v, n)];
    assert Members(vs) == Members(front) + {v} by {
      assert vs == front + [v];
    }
  }

  lemma JoinedNotConnected(m: Mesh, vs: seq<nat>, n: nat)
    requires Valid(m) && n < |m.co| && Untouched(m, n) && |vs| > 0
    requires forall k :: 0 <= k < |vs| ==> vs[k] < n
    requires forall j, k :: 0 <= j < k < |vs| ==> vs[j] != vs[k]
    ensures var p := JoinClosed(m, vs[..|vs| - 1], n);
      forall k :: 0 <= k < |p.edges| ==>
        p.edges[k] != Edge(vs[|vs| - 1], n) && p.edges[k] != Edge(n, vs[|vs| - 1])
  {
    var front := vs[..|vs| - 1];
    var v := vs[|vs| - 1];
    var p := JoinClosed(m, front, n);
    forall k | 0 <= k < |p.edges| ensures p.edges[k] != Edge(v, n) && p.edges[k] != Edge(n, v) {
      var e := p.edges[k];
      if k < |m.edges| {
        assert e in m.edges;
      } else {
        assert e == Edge(front[k - |m.edges|], n);
        assert front[k - |m.edges|] == vs[k - |m.edges|];
      }
    }
  }

  /** Joining one vertex at a time produces exactly the mesh `FanToNew` describes. */
  lemma FanStepsIsFanToNew(m: Mesh, vs: seq<nat>, p: Vec)
    requires Valid(m)
    requires forall k :: 0 <= k < |vs| ==> vs[k] < |m.co|
    requires forall j, k :: 0 <= j < k < |vs| ==> vs[j] != vs[k]
    ensures FanSteps(m, vs, p) == FanToNew(m, vs, p)
  {
    var m1 := AddVert(m, p);
    PastEndUntouched(m, |m.co|);
    JoinStepsSpec(m1, vs, |m.co|);
    assert |m.co| !in Members(vs);
  }

  lemma FanToNewValid(m: Mesh, vs: seq<nat>, p: Vec)
    requires Valid(m)
    requires forall k :: 0 <= k < |vs| ==> vs[k] < |m.co|
    ensures Valid(FanToNew(m, vs, p))
  {
    var r := FanToNew(m, vs, p);
    forall e | e in r.edges ensures e.a < |r.co| && e.b < |r.co| {
      var k :| 0 <= k < |r.edges| && r.edges[k] == e;
      if k >= |m.edges| {
        assert e == Edge(vs[k - |m.edges|], |m.co|);
      } else {
        assert e in m.edges;
      }
    }
    forall h | h in r.history ensures ElemExists(r, h) {
      assert h in m.history;
    }
  }
}
