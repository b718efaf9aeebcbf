/**
 Real-valued 3-vectors, the axis indices used to address their components,
 and the transcendental functions the add-on borrows from Python's `math`
 module. Floating-point rounding is not modelled: every coordinate is an
 exact `real`.
 */
module Vectors {

  /** A location or offset in Blender's 3D space (a `mathutils.Vector` of length 3). */
  datatype Vec = Vec(x: real, y: real, z: real)

  /** An index into a `Vec`: 0 is X, 1 is Y, 2 is Z. */
  type Axis = i: int | 0 <= i < 3

  const Zero: Vec := Vec(0.0, 0.0, 0.0)

  function Add(a: Vec, b: Vec): (r: Vec)
    ensures Sub(r, b) == a
  {
    Vec(a.x + b.x, a.y + b.y, a.z + b.z)
  }

  function Sub(a: Vec, b: Vec): Vec
  {
    Vec(a.x - b.x, a.y - b.y, a.z - b.z)
  }

  function Neg(a: Vec): (r: Vec)
    ensures Add(a, r) == Zero
  {
    Vec(-a.x, -a.y, -a.z)
  }

  /** Component `i` of `v`, as Python's `v[i]`. */
  function Get(v: Vec, i: Axis): real
  {
    if i == 0 then v.x else if i == 1 then v.y else v.z
  }

  /** `v` with component `i` replaced by `r`, as the assignment `v[i] = r`. */
  function With(v: Vec, i: Axis, r: real): (w: Vec)
    ensures Get(w, i) == r
    ensures forall j: Axis :: j != i ==> Get(w, j) == Get(v, j)
  {
    if i == 0 then Vec(r, v.y, v.z) else if i == 1 then Vec(v.x, r, v.z) else Vec(v.x, v.y, r)
  }

  /** Two vectors are equal exactly when all three components agree. */
  lemma Extensionality(a: Vec, b: Vec)
    requires forall i: Axis :: Get(a, i) == Get(b, i)
    ensures a == b
  {
    assert Get(a, 0) == Get(b, 0) && Get(a, 1) == Get(b, 1) && Get(a, 2) == Get(b, 2);
  }

  /** Squared Euclidean distance; `(a - b).length < (c - d).length` iff the squares compare the same way. */
  function Dist2(a: Vec, b: Vec): real
  {
    var d := Sub(a, b);
    d.x * d.x + d.y * d.y + d.z * d.z
  }

  /** A triple of axes that names every axis exactly once. */
  predicate IsPermutation(a1: Axis, a2: Axis, a3: Axis)
  {
    a1 != a2 && a2 != a3 && a1 != a3
  }

  /**
   The numeric library the add-on calls: `sin`, `cos`, `tan`, `sqrt` and `pi`.
   They are not defined here; every operation that needs them receives them
   as this record, so results are stated in terms of whatever these return.
   */
  datatype Numerics = Numerics(sin: real -> real, cos: real -> real, tan: real -> real,
                               sqrt: real -> real, pi: real)
  {
    /** `deg * pi / 180`, the conversion every caller writes inline. */
    function Radians(deg: real): real
    {
      deg * pi / 180.0
    }
  }
}

/** The Some/None datatype, used where the source returns `None`. */
module Wrappers {

  datatype Option<+T> = None | Some(value: T)
}
