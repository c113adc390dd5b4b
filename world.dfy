/** The terrain raycaster of `src/world/mod.rs`: a voxel walk (3D DDA) along the ray
    that tests each visited voxel's marching-cubes triangles with the Möller–Trumbore
    ray/triangle test. Positions are reals; the noise field and the tables are
    parameters. */
module World {
  import opened Geometry
  import opened MarchingCubes

  /** Number of DDA steps after the starting voxel. */
  const MAX_RAY_DIST: nat := 30
  const EPSILON: real := 0.0001

  datatype Option<T> = None | Some(value: T)

  datatype Ray = Ray(pos: Vec3, dir: Vec3)

  /** The point at parameter `t` along the ray. */
  function PointAt(ray: Ray, t: real): Vec3
  {
    Add(ray.pos, Scale(t, ray.dir))
  }

  // ---------------------------------------------------------------------------
  // Möller–Trumbore

  /** The determinant `e1 · (dir × e2)` of the test, with `e1 = b - a`, `e2 = c - a`. */
  function Det(ray: Ray, tri: Triangle): (det: real)
    ensures det == -Dot(ray.dir, Cross(Sub(tri.b, tri.a), Sub(tri.c, tri.a)))
  {
    Dot(Sub(tri.b, tri.a), Cross(ray.dir, Sub(tri.c, tri.a)))
  }

  /** The barycentric coordinates `(u, v)` and the ray parameter `t` the test computes:
      `u = tv · p / det`, `v = dir · q / det`, `t = e2 · q / det`, with `p = dir × e2`,
      `tv = pos - a` and `q = tv × e1`. */
  function Solve(ray: Ray, tri: Triangle): (real, real, real)
    requires Det(ray, tri) != 0.0
  {
    var e1 := Sub(tri.b, tri.a);
    var e2 := Sub(tri.c, tri.a);
    var p := Cross(ray.dir, e2);
    var invDet := 1.0 / Dot(e1, p);
    var tv := Sub(ray.pos, tri.a);
    var q := Cross(tv, e1);
    (Dot(tv, p) * invDet, Dot(ray.dir, q) * invDet, Dot(e2, q) * invDet)
  }

  /** `ray_triangle_collision`: a ray nearly parallel to the triangle's plane never hits;
      otherwise it hits exactly when the barycentric coordinates lie inside the
      triangle and the hit is at least `EPSILON` ahead, and the result is the hit's
      ray parameter. */
  function RayTriangleCollision(ray: Ray, tri: Triangle): (r: Option<real>)
    ensures Abs(Det(ray, tri)) < EPSILON ==> r.None?
    ensures r.Some? <==>
              Abs(Det(ray, tri)) >= EPSILON
              && var (u, v, t) := Solve(ray, tri);
                 0.0 <= u <= 1.0 && 0.0 <= v && u + v <= 1.0 && t >= EPSILON
    ensures r.Some? ==> r.value == Solve(ray, tri).2
  {
    var det := Det(ray, tri);
    if Abs(det) < EPSILON then None
    else
      var (u, v, t) := Solve(ray, tri);
      if u < 0.0 || u > 1.0 then None
      else if v < 0.0 || u + v > 1.0 then None
      else if t < EPSILON then None
      else Some(t)
  }

  /** Cramer's rule for the system `pos - a == u e1 + v e2 - t dir`, one coordinate at a
      time, multiplied through by the determinant. */
  lemma CramerX(d: Vec3, e1: Vec3, e2: Vec3, tv: Vec3)
    ensures Dot(e1, Cross(d, e2)) * tv.x
         == Dot(tv, Cross(d, e2)) * e1.x + Dot(d, Cross(tv, e1)) * e2.x - Dot(e2, Cross(tv, e1)) * d.x
  {
  }

  lemma CramerY(d: Vec3, e1: Vec3, e2: Vec3, tv: Vec3)
    ensures Dot(e1, Cross(d, e2)) * tv.y
         == Dot(tv, Cross(d, e2)) * e1.y + Dot(d, Cross(tv, e1)) * e2.y - Dot(e2, Cross(tv, e1)) * d.y
  {
  }

  lemma CramerZ(d: Vec3, e1: Vec3, e2: Vec3, tv: Vec3)
    ensures Dot(e1, Cross(d, e2)) * tv.z
         == Dot(tv, Cross(d, e2)) * e1.z + Dot(d, Cross(tv, e1)) * e2.z - Dot(e2, Cross(tv, e1)) * d.z
  {
  }

  lemma CramerHitX(d: Vec3, e1: Vec3, e2: Vec3, tv: Vec3, p: real, a: real)
    requires Dot(e1, Cross(d, e2)) != 0.0 && tv.x == p - a
    ensures var k := 1.0 / Dot(e1, Cross(d, e2));
            p + (Dot(e2, Cross(tv, e1)) * k) * d.x
            == a + ((Dot(tv, Cross(d, e2)) * k) * e1.x + (Dot(d, Cross(tv, e1)) * k) * e2.x)
  {
    CramerX(d, e1, e2, tv);
    HitAxis(Dot(e1, Cross(d, e2)), Dot(tv, Cross(d, e2)), Dot(d, Cross(tv, e1)), Dot(e2, Cross(tv, e1)),
            tv.x, p, a, e1.x, e2.x, d.x);
  }

  lemma CramerHitY(d: Vec3, e1: Vec3, e2: Vec3, tv: Vec3, p: real, a: real)
    requires Dot(e1, Cross(d, e2)) != 0.0 && tv.y == p - a
    ensures var k := 1.0 / Dot(e1, Cross(d, e2));
            p + (Dot(e2, Cross(tv, e1)) * k) * d.y
            == a + ((Dot(tv, Cross(d, e2)) * k) * e1.y + (Dot(d, Cross(tv, e1)) * k) * e2.y)
  {
    CramerY(d, e1, e2, tv);
    HitAxis(Dot(e1, Cross(d, e2)), Dot(tv, Cross(d, e2)), Dot(d, Cross(tv, e1)), Dot(e2, Cross(tv, e1)),
            tv.y, p, a, e1.y, e2.y, d.y);
  }

  lemma CramerHitZ(d: Vec3, e1: Vec3, e2: Vec3, tv: Vec3, p: real, a: real)
    requires Dot(e1, Cross(d, e2)) != 0.0 && tv.z == p - a
    ensures var k := 1.0 / Dot(e1, Cross(d, e2));
            p + (Dot(e2, Cross(tv, e1)) * k) * d.z
            == a + ((Dot(tv, Cross(d, e2)) * k) * e1.z + (Dot(d, Cross(tv, e1)) * k) * e2.z)
  {
    CramerZ(d, e1, e2, tv);
    HitAxis(Dot(e1, Cross(d, e2)), Dot(tv, Cross(d, e2)), Dot(d, Cross(tv, e1)), Dot(e2, Cross(tv, e1)),
            tv.z, p, a, e1.z, e2.z, d.z);
  }

  /** One coordinate of the hit: dividing `det * (p - a) == U e1 + V e2 - T d` by `det`
      puts `p + (T / det) d` at `a + (U / det) e1 + (V / det) e2`. */
  lemma HitAxis(det: real, uu: real, vv: real, tt: real, tv: real, p: real, a: real, e1: real, e2: real, d: real)
    requires det != 0.0 && tv == p - a
    requires det * tv == uu * e1 + vv * e2 - tt * d
    ensures p + (tt * (1.0 / det)) * d == a + ((uu * (1.0 / det)) * e1 + (vv * (1.0 / det)) * e2)
  {
    var k := 1.0 / det;
    assert det * k == 1.0;
    calc {
      p + (tt * k) * d;
      a + (det * k) * (p - a) + (tt * k) * d;
      a + k * (det * (p - a)) + k * (tt * d);
      a + k * (uu * e1 + vv * e2);
      a + ((uu * k) * e1 + (vv * k) * e2);
    }
  }

  /** The computed `(u, v, t)` are the Cramer numerators over the determinant. */
  lemma SolveByCramer(ray: Ray, tri: Triangle)
    requires Det(ray, tri) != 0.0
    ensures var e1 := Sub(tri.b, tri.a);
            var e2 := Sub(tri.c, tri.a);
            var tv := Sub(ray.pos, tri.a);
            var k := 1.0 / Det(ray, tri);
            Solve(ray, tri).0 == Dot(tv, Cross(ray.dir, e2)) * k
            && Solve(ray, tri).1 == Dot(ray.dir, Cross(tv, e1)) * k
            && Solve(ray, tri).2 == Dot(e2, Cross(tv, e1)) * k
  {
  }

  lemma SolvedPointX(ray: Ray, tri: Triangle)
    requires Det(ray, tri) != 0.0
    ensures var (u, v, t) := Solve(ray, tri);
            ray.pos.x + t * ray.dir.x
            == tri.a.x + (u * Sub(tri.b, tri.a).x + v * Sub(tri.c, tri.a).x)
  {
    SolveByCramer(ray, tri);
    CramerHitX(ray.dir, Sub(tri.b, tri.a), Sub(tri.c, tri.a), Sub(ray.pos, tri.a), ray.pos.x, tri.a.x);
  }

  lemma SolvedPointY(ray: Ray, tri: Triangle)
    requires Det(ray, tri) != 0.0
    ensures var (u, v, t) := Solve(ray, tri);
            ray.pos.y + t * ray.dir.y
            == tri.a.y + (u * Sub(tri.b, tri.a).y + v * Sub(tri.c, tri.a).y)
  {
    SolveByCramer(ray, tri);
    CramerHitY(ray.dir, Sub(tri.b, tri.a), Sub(tri.c, tri.a), Sub(ray.pos, tri.a), ray.pos.y, tri.a.y);
  }

  lemma SolvedPointZ(ray: Ray, tri: Triangle)
    requires Det(ray, tri) != 0.0
    ensures var (u, v, t) := Solve(ray, tri);
            ray.pos.z + t * ray.dir.z
            == tri.a.z + (u * Sub(tri.b, tri.a).z + v * Sub(tri.c, tri.a).z)
  {
    SolveByCramer(ray, tri);
    CramerHitZ(ray.dir, Sub(tri.b, tri.a), Sub(tri.c, tri.a), Sub(ray.pos, tri.a), ray.pos.z, tri.a.z);
  }

  /** Whenever the determinant is non-zero, the point at the computed `t` is
      `a + u (b - a) + v (c - a)` for the computed `u` and `v`. */
  lemma SolvedPoint(ray: Ray, tri: Triangle)
    requires Det(ray, tri) != 0.0
    ensures var (u, v, t) := Solve(ray, tri);
            PointAt(ray, t) == Add(tri.a, Add(Scale(u, Sub(tri.b, tri.a)), Scale(v, Sub(tri.c, tri.a))))
  {
    SolvedPointX(ray, tri);
    SolvedPointY(ray, tri);
    SolvedPointZ(ray, tri);
  }

  /** A reported hit lies on the triangle: the point at the returned `t` is
      `a + u (b - a) + v (c - a)` with `u, v >= 0` and `u + v <= 1`, at least `EPSILON`
      ahead of the ray's origin. */
  lemma HitLiesOnTriangle(ray: Ray, tri: Triangle)
    requires RayTriangleCollision(ray, tri).Some?
    ensures var t := RayTriangleCollision(ray, tri).value;
            t >= EPSILON
            && exists u: real, v: real {:trigger Scale(u, Sub(tri.b, tri.a)), Scale(v, Sub(tri.c, tri.a))} ::
                 0.0 <= u && 0.0 <= v && u + v <= 1.0
                 && PointAt(ray, t) == Add(tri.a, Add(Scale(u, Sub(tri.b, tri.a)), Scale(v, Sub(tri.c, tri.a))))
  {
    SolvedPoint(ray, tri);
  }

  // ---------------------------------------------------------------------------
  // Triangles of a voxel

  /** The first hit among `tris`, in list order (not the nearest one). */
  function FirstHit(ray: Ray, tris: seq<Triangle>): Option<real>
  {
    if tris == [] then None
    else
      var h := RayTriangleCollision(ray, tris[0]);
      if h.Some? then h else FirstHit(ray, tris[1..])
  }

  /** `FirstHit` is nothing exactly when no triangle is hit, and otherwise the hit of
      the first triangle that is. */
  lemma {:induction false} FirstHitSpec(ray: Ray, tris: seq<Triangle>)
    ensures FirstHit(ray, tris).None? <==>
              forall k :: 0 <= k < |tris| ==> RayTriangleCollision(ray, tris[k]).None?
    ensures FirstHit(ray, tris).Some? ==>
              exists k :: 0 <= k < |tris| && RayTriangleCollision(ray, tris[k]) == FirstHit(ray, tris)
                          && forall j :: 0 <= j < k ==> RayTriangleCollision(ray, tris[j]).None?
  {
    if tris != [] && RayTriangleCollision(ray, tris[0]).None? {
      var rest := tris[1..];
      FirstHitSpec(ray, rest);
      assert forall k :: 1 <= k < |tris| ==> tris[k] == rest[k - 1];
      if FirstHit(ray, rest).Some? {
        var k :| 0 <= k < |rest| && RayTriangleCollision(ray, rest[k]) == FirstHit(ray, rest)
                 && forall j :: 0 <= j < k ==> RayTriangleCollision(ray, rest[j]).None?;
        assert RayTriangleCollision(ray, tris[k + 1]) == FirstHit(ray, tris);
      }
    }
  }

  /** What `voxel_collision` returns for the voxel at `voxel`. */
  function VoxelHit(tables: Tables, noise: Vec3 -> real, voxel: Vec3, ray: Ray): (r: Option<real>)
    requires TablesOk(tables)
    ensures r.Some? ==> r.value >= EPSILON
  {
    FirstHitSpec(ray, Triangulate(tables, noise, voxel));
    FirstHit(ray, Triangulate(tables, noise, voxel))
  }

  /** A voxel is missed exactly when every one of its triangles is missed. */
  lemma VoxelHitSpec(tables: Tables, noise: Vec3 -> real, voxel: Vec3, ray: Ray)
    requires TablesOk(tables)
    ensures var tris := Triangulate(tables, noise, voxel);
            VoxelHit(tables, noise, voxel, ray).None? <==>
              forall k :: 0 <= k < |tris| ==> RayTriangleCollision(ray, tris[k]).None?
  {
    FirstHitSpec(ray, Triangulate(tables, noise, voxel));
  }

  /** `World::voxel_collision`: the first of the voxel's triangles, in table order, that
      the ray hits. */
  method VoxelCollision(tables: Tables, noise: Vec3 -> real, voxel: Vec3, ray: Ray) returns (hit: Option<real>)
    requires TablesOk(tables)
    ensures hit == VoxelHit(tables, noise, voxel, ray)
  {
    var triangles := VoxelTriangles(tables, noise, voxel);
    for k := 0 to |triangles|
      invariant FirstHit(ray, triangles[k..]) == FirstHit(ray, triangles)
    {
      assert triangles[k..][1..] == triangles[k + 1..];
      var t := RayTriangleCollision(ray, triangles[k]);
      if t.Some? {
        return t;
      }
    }
    return None;
  }

  // ---------------------------------------------------------------------------
  // The voxel walk

  /** Every direction component is non-zero, so `1 / dir` exists. */
  predicate NonZero(v: Vec3)
  {
    v.x != 0.0 && v.y != 0.0 && v.z != 0.0
  }

  function Inv(v: Vec3): Vec3
    requires NonZero(v)
  {
    Vec3(1.0 / v.x, 1.0 / v.y, 1.0 / v.z)
  }

  /** The index of the voxel holding coordinate `p` (`(p / VOXEL_SIZE).floor()`). */
  function CellOf(p: real): real
  {
    (p / VOXEL_SIZE).Floor as real
  }

  function VoxelOf(p: Vec3): Vec3
  {
    Vec3(CellOf(p.x), CellOf(p.y), CellOf(p.z))
  }

  /** A voxel spans `[cell * VOXEL_SIZE, cell * VOXEL_SIZE + VOXEL_SIZE)`. */
  lemma CellBounds(p: real)
    ensures CellOf(p) * VOXEL_SIZE <= p < CellOf(p) * VOXEL_SIZE + VOXEL_SIZE
  {
    var f := (p / VOXEL_SIZE).Floor as real;
    assert f <= p / VOXEL_SIZE < f + 1.0;
  }

  /** A voxel index is a whole number, and so is the index one above it. */
  lemma CellWhole(p: real)
    ensures CellOf(p) == CellOf(p).Floor as real
    ensures CellOf(p) + 1.0 == (CellOf(p) + 1.0).Floor as real
  {
    var n := (p / VOXEL_SIZE).Floor;
    assert (n as real).Floor == n;
    assert (n as real + 1.0) == (n + 1) as real;
    assert ((n + 1) as real).Floor == n + 1;
  }

  /** One component of `step_vector`. */
  function Step(x: real): (s: real)
    ensures s == -1.0 || s == 1.0
    ensures s == -1.0 <==> x < 0.0
    ensures s * x == Abs(x)
  {
    if x < 0.0 then -1.0 else 1.0
  }

  /** `step_vector`: -1 on the axes where the direction is negative, else +1, so that
      `step * dir` is the magnitude of `dir` on each axis. */
  function StepVector(dir: Vec3): (s: Vec3)
    ensures s.x == Step(dir.x) && s.y == Step(dir.y) && s.z == Step(dir.z)
    ensures Mul(s, dir) == Vec3(Abs(dir.x), Abs(dir.y), Abs(dir.z))
  {
    Vec3(Step(dir.x), Step(dir.y), Step(dir.z))
  }

  /** The face of voxel cell `cell` through which a ray moving at rate `d` leaves it. */
  function ExitFace(cell: real, d: real): real
  {
    (if d > 0.0 then cell + 1.0 else cell) * VOXEL_SIZE
  }

  /** Moving up (`inv > 0`) with the voxel's lower face `below <= 0` and upper face
      `above` in `(0, VOXEL_SIZE]` away: the larger of the two face parameters is the
      upper face's, positive and at most one voxel's crossing time. */
  lemma CrossUp(below: real, above: real, inv: real)
    requires below <= 0.0 < above <= VOXEL_SIZE && inv > 0.0
    ensures 0.0 < above * inv <= VOXEL_SIZE * inv
    ensures Max(below * inv, above * inv) == above * inv
    ensures (above * inv) / inv == above
  {
    assert below * inv <= 0.0;
    assert above * inv <= VOXEL_SIZE * inv;
  }

  /** Moving down (`inv < 0`) with the lower face `below` in `[-VOXEL_SIZE, 0]` and the
      upper face `above > 0` away: the larger parameter is the lower face's,
      non-negative and at most one voxel's crossing time. */
  lemma CrossDown(below: real, above: real, inv: real)
    requires -VOXEL_SIZE <= below <= 0.0 < above && inv < 0.0
    ensures 0.0 <= below * inv <= VOXEL_SIZE * -inv
    ensures Max(below * inv, above * inv) == below * inv
    ensures (below * inv) / inv == below
  {
    assert above * inv < 0.0;
    assert below * inv == (-below) * (-inv);
    assert (-below) * (-inv) <= VOXEL_SIZE * -inv;
  }

  /** One component of `calculate_t`: the ray parameter at which the coordinate `p`,
      moving at rate `1 / inv`, leaves its voxel. It is non-negative, at most one
      voxel's crossing time, positive when moving up, and it lands on the voxel's exit
      face in the direction of travel. */
  function AxisT(p: real, inv: real): (t: real)
    requires inv != 0.0
    ensures 0.0 <= t <= VOXEL_SIZE * Abs(inv)
    ensures inv > 0.0 ==> 0.0 < t
    ensures p + t / inv == ExitFace(CellOf(p), inv)
  {
    var lo := CellOf(p) * VOXEL_SIZE;
    CellBounds(p);
    var below := lo - p;
    var above := lo + VOXEL_SIZE - p;
    if inv > 0.0 then CrossUp(below, above, inv); Max(below * inv, above * inv)
    else CrossDown(below, above, inv); Max(below * inv, above * inv)
  }

  /** `calculate_t`: per axis, the ray parameter at which the ray leaves its first voxel;
      never behind the ray's origin and at most one voxel's crossing time ahead. */
  function CalculateT(pos: Vec3, invDir: Vec3): (t: Vec3)
    requires NonZero(invDir)
    ensures 0.0 <= t.x <= VOXEL_SIZE * Abs(invDir.x)
    ensures 0.0 <= t.y <= VOXEL_SIZE * Abs(invDir.y)
    ensures 0.0 <= t.z <= VOXEL_SIZE * Abs(invDir.z)
  {
    Vec3(AxisT(pos.x, invDir.x), AxisT(pos.y, invDir.y), AxisT(pos.z, invDir.z))
  }

  /** Which axes a DDA step advances (`voxel_incr`, whose components are booleans cast
      to 0 or 1). */
  datatype Axes = Axes(x: bool, y: bool, z: bool)

  /** `b as f32 * v`: `v` when `b` holds, else 0. */
  function Gate(b: bool, v: real): real
  {
    if b then v else 0.0
  }

  /** `voxel_incr * v`, component-wise. */
  function Masked(m: Axes, v: Vec3): Vec3
  {
    Vec3(Gate(m.x, v.x), Gate(m.y, v.y), Gate(m.z, v.z))
  }

  /** `voxel_incr`: exactly the axes whose next crossing comes first, so at least one
      axis advances. */
  function DdaIncrement(t: Vec3): (incr: Axes)
    ensures incr.x <==> t.x <= t.y && t.x <= t.z
    ensures incr.y <==> t.y <= t.x && t.y <= t.z
    ensures incr.z <==> t.z <= t.x && t.z <= t.y
    ensures incr.x || incr.y || incr.z
  {
    Axes(t.x <= t.y && t.x <= t.z, t.y <= t.x && t.y <= t.z, t.z <= t.x && t.z <= t.y)
  }

  /** The walk's state: next crossing parameters and the current voxel. */
  datatype DdaState = DdaState(t: Vec3, voxel: Vec3)

  /** One iteration of the loop in `collide`: the earliest-crossing axes advance their
      crossing parameter by one voxel's crossing time and their voxel coordinate by
      one step. */
  function Advance(s: DdaState, deltaT: Vec3, step: Vec3): DdaState
  {
    var incr := DdaIncrement(s.t);
    DdaState(Add(s.t, Masked(incr, deltaT)), Add(s.voxel, Masked(incr, step)))
  }

  /** The first voxel tested: the voxel of `pos`, one up (`+ (0, 1, 0)`). */
  function StartVoxel(pos: Vec3): (v: Vec3)
    ensures v.x * VOXEL_SIZE <= pos.x < v.x * VOXEL_SIZE + VOXEL_SIZE
    ensures (v.y - 1.0) * VOXEL_SIZE <= pos.y < (v.y - 1.0) * VOXEL_SIZE + VOXEL_SIZE
    ensures v.z * VOXEL_SIZE <= pos.z < v.z * VOXEL_SIZE + VOXEL_SIZE
    ensures v.x == v.x.Floor as real && v.y == v.y.Floor as real && v.z == v.z.Floor as real
  {
    CellBounds(pos.x);
    CellBounds(pos.y);
    CellBounds(pos.z);
    CellWhole(pos.x);
    CellWhole(pos.y);
    CellWhole(pos.z);
    Add(VoxelOf(pos), UP)
  }

  /** `delta_t`: the ray parameter needed to cross one voxel on each axis. */
  function DeltaT(dir: Vec3): (dt: Vec3)
    requires NonZero(dir)
    ensures dt.x == VOXEL_SIZE * Abs(1.0 / dir.x) && dt.x > 0.0
    ensures dt.y == VOXEL_SIZE * Abs(1.0 / dir.y) && dt.y > 0.0
    ensures dt.z == VOXEL_SIZE * Abs(1.0 / dir.z) && dt.z > 0.0
  {
    Mul(Scale(VOXEL_SIZE, Inv(dir)), StepVector(dir))
  }

  /** The state after `k` iterations of the loop. */
  function Walk(ray: Ray, k: nat): DdaState
    requires NonZero(ray.dir)
  {
    if k == 0 then DdaState(CalculateT(ray.pos, Inv(ray.dir)), StartVoxel(ray.pos))
    else Advance(Walk(ray, k - 1), DeltaT(ray.dir), StepVector(ray.dir))
  }

  /** How far along the ray's direction of travel a voxel lies: its coordinates summed,
      each negated on the axes where the ray moves towards lower values. */
  function Along(dir: Vec3, v: Vec3): real
  {
    (if dir.x < 0.0 then -v.x else v.x)
    + (if dir.y < 0.0 then -v.y else v.y)
    + (if dir.z < 0.0 then -v.z else v.z)
  }

  /** On one axis, stepping `incr` voxels in the direction of travel moves `incr` further. */
  lemma AxisAlong(d: real, v: real, incr: bool)
    ensures (if d < 0.0 then -(v + Gate(incr, Step(d))) else v + Gate(incr, Step(d)))
         == (if d < 0.0 then -v else v) + Gate(incr, 1.0)
  {
  }

  /** Each step moves the voxel at least one unit further along the direction of travel. */
  lemma AdvanceProgress(dir: Vec3, s: DdaState, deltaT: Vec3)
    ensures Along(dir, Advance(s, deltaT, StepVector(dir)).voxel) >= Along(dir, s.voxel) + 1.0
    ensures var a := Advance(s, deltaT, StepVector(dir)).voxel;
            var incr := DdaIncrement(s.t);
            (a.x != s.voxel.x <==> incr.x) && (incr.x ==> a.x == s.voxel.x + Step(dir.x))
            && (a.y != s.voxel.y <==> incr.y) && (incr.y ==> a.y == s.voxel.y + Step(dir.y))
            && (a.z != s.voxel.z <==> incr.z) && (incr.z ==> a.z == s.voxel.z + Step(dir.z))
  {
    var incr := DdaIncrement(s.t);
    var v := s.voxel;
    var a := Advance(s, deltaT, StepVector(dir)).voxel;
    assert a == Vec3(v.x + Gate(incr.x, Step(dir.x)), v.y + Gate(incr.y, Step(dir.y)),
                     v.z + Gate(incr.z, Step(dir.z)));
    AxisAlong(dir.x, v.x, incr.x);
    AxisAlong(dir.y, v.y, incr.y);
    AxisAlong(dir.z, v.z, incr.z);
  }

  /** After `k - j` more steps the walk is at least `k - j` units further along. */
  lemma {:induction false} WalkProgress(ray: Ray, j: nat, k: nat)
    requires NonZero(ray.dir) && j <= k
    ensures Along(ray.dir, Walk(ray, k).voxel) >= Along(ray.dir, Walk(ray, j).voxel) + (k - j) as real
    decreases k - j
  {
    if j < k {
      WalkProgress(ray, j, k - 1);
      AdvanceProgress(ray.dir, Walk(ray, k - 1), DeltaT(ray.dir));
    }
  }

  /** The walk never returns to a voxel it has left. */
  lemma WalkNeverRevisits(ray: Ray, j: nat, k: nat)
    requires NonZero(ray.dir) && j < k
    ensures Walk(ray, j).voxel != Walk(ray, k).voxel
  {
    WalkProgress(ray, j, k);
  }

  /** On one axis: the crossing parameter `t` is where the ray meets the exit face of
      cell `cell`. */
  predicate OnExitFace(p: real, d: real, t: real, cell: real)
  {
    p + t * d == ExitFace(cell, d)
  }

  /** `t / (1 / d) == t * d`. */
  lemma DivInverse(t: real, d: real)
    requires d != 0.0
    ensures t / (1.0 / d) == t * d
  {
  }

  /** Moving on one axis keeps the crossing parameter on the exit face: crossing one
      more voxel (`VOXEL_SIZE * |1 / d|`) reaches the next cell's exit face. */
  lemma AxisStep(p: real, d: real, t: real, cell: real, incr: bool, t': real, cell': real)
    requires d != 0.0 && OnExitFace(p, d, t, cell)
    requires t' == t + Gate(incr, (VOXEL_SIZE * (1.0 / d)) * Step(d))
    requires cell' == cell + Gate(incr, Step(d))
    ensures OnExitFace(p, d, t', cell')
  {
    if incr {
      var s := Step(d);
      assert (VOXEL_SIZE * (1.0 / d)) * s * d == VOXEL_SIZE * s by {
        assert (1.0 / d) * d == 1.0;
      }
      calc {
        p + (t + (VOXEL_SIZE * (1.0 / d)) * s) * d;
        p + t * d + (VOXEL_SIZE * (1.0 / d)) * s * d;
        ExitFace(cell, d) + VOXEL_SIZE * s;
        ExitFace(cell + s, d);
      }
    }
  }

  /** The DDA invariant on a state: each axis's crossing parameter is where the ray
      meets the current voxel's exit face on that axis (the voxel taken one down,
      undoing the start offset). */
  predicate OnExitFaces(ray: Ray, s: DdaState)
  {
    OnExitFace(ray.pos.x, ray.dir.x, s.t.x, s.voxel.x)
    && OnExitFace(ray.pos.y, ray.dir.y, s.t.y, s.voxel.y - 1.0)
    && OnExitFace(ray.pos.z, ray.dir.z, s.t.z, s.voxel.z)
  }

  /** On one axis, `calculate_t` puts the crossing parameter on the exit face of the
      coordinate's own cell. */
  lemma AxisStart(p: real, d: real)
    requires d != 0.0
    ensures OnExitFace(p, d, AxisT(p, 1.0 / d), CellOf(p))
  {
    DivInverse(AxisT(p, 1.0 / d), d);
    assert 1.0 / d > 0.0 <==> d > 0.0;
  }

  /** The walk starts on the exit faces of the ray's own voxel. */
  lemma StartOnExitFaces(ray: Ray)
    requires NonZero(ray.dir)
    ensures OnExitFaces(ray, Walk(ray, 0))
  {
    var p := ray.pos;
    var d := ray.dir;
    assert Walk(ray, 0) == DdaState(Vec3(AxisT(p.x, 1.0 / d.x), AxisT(p.y, 1.0 / d.y), AxisT(p.z, 1.0 / d.z)),
                                     Vec3(CellOf(p.x), CellOf(p.y) + 1.0, CellOf(p.z)));
    AxisStart(p.x, d.x);
    AxisStart(p.y, d.y);
    AxisStart(p.z, d.z);
  }

  /** A step of the walk keeps it on the exit faces. */
  lemma AdvanceOnExitFaces(ray: Ray, s: DdaState)
    requires NonZero(ray.dir) && OnExitFaces(ray, s)
    ensures OnExitFaces(ray, Advance(s, DeltaT(ray.dir), StepVector(ray.dir)))
  {
    var d := ray.dir;
    var incr := DdaIncrement(s.t);
    var r := Advance(s, DeltaT(d), StepVector(d));
    assert r.t == Vec3(s.t.x + Gate(incr.x, (VOXEL_SIZE * (1.0 / d.x)) * Step(d.x)),
                       s.t.y + Gate(incr.y, (VOXEL_SIZE * (1.0 / d.y)) * Step(d.y)),
                       s.t.z + Gate(incr.z, (VOXEL_SIZE * (1.0 / d.z)) * Step(d.z)));
    assert r.voxel == Vec3(s.voxel.x + Gate(incr.x, Step(d.x)), s.voxel.y + Gate(incr.y, Step(d.y)),
                           s.voxel.z + Gate(incr.z, Step(d.z)));
    AxisStep(ray.pos.x, d.x, s.t.x, s.voxel.x, incr.x, r.t.x, r.voxel.x);
    AxisStep(ray.pos.y, d.y, s.t.y, s.voxel.y - 1.0, incr.y, r.t.y, r.voxel.y - 1.0);
    AxisStep(ray.pos.z, d.z, s.t.z, s.voxel.z, incr.z, r.t.z, r.voxel.z);
  }

  /** The DDA invariant holds after any number of steps. */
  lemma {:induction false} WalkOnExitFaces(ray: Ray, k: nat)
    requires NonZero(ray.dir)
    ensures OnExitFaces(ray, Walk(ray, k))
  {
    if k == 0 {
      StartOnExitFaces(ray);
    } else {
      WalkOnExitFaces(ray, k - 1);
      AdvanceOnExitFaces(ray, Walk(ray, k - 1));
    }
  }

  /** The first hit in `hits` from index `n` on. */
  function FirstFrom<T>(hits: seq<Option<T>>, n: nat): Option<T>
    decreases |hits| - n
  {
    if n >= |hits| then None
    else if hits[n].Some? then hits[n]
    else FirstFrom(hits, n + 1)
  }

  /** `FirstFrom` is nothing exactly when no entry from `n` on is a hit, and otherwise
      the entry of the first hit from `n` on. */
  lemma {:induction false} FirstFromSpec<T>(hits: seq<Option<T>>, n: nat)
    decreases |hits| - n
    ensures FirstFrom(hits, n).None? <==> forall k :: n <= k < |hits| ==> hits[k].None?
    ensures FirstFrom(hits, n).Some? ==>
              exists k :: n <= k < |hits| && hits[k] == FirstFrom(hits, n)
                          && forall j :: n <= j < k ==> hits[j].None?
  {
    if n < |hits| && hits[n].None? {
      FirstFromSpec(hits, n + 1);
      if FirstFrom(hits, n + 1).Some? {
        var k :| n + 1 <= k < |hits| && hits[k] == FirstFrom(hits, n + 1)
                 && forall j :: n + 1 <= j < k ==> hits[j].None?;
        assert forall j :: n <= j < k ==> hits[j].None?;
      }
    }
  }

  /** What `voxel_collision` gives for each voxel of the walk: the start voxel, then the
      `MAX_RAY_DIST` voxels the loop steps to. */
  function WalkHits(tables: Tables, noise: Vec3 -> real, ray: Ray): seq<Option<real>>
    requires TablesOk(tables) && NonZero(ray.dir)
  {
    seq(MAX_RAY_DIST + 1, k requires 0 <= k => WalkVoxelHit(tables, noise, ray, k))
  }

  /** What `voxel_collision` gives for the `k`-th voxel of the walk. */
  function WalkVoxelHit(tables: Tables, noise: Vec3 -> real, ray: Ray, k: nat): Option<real>
    requires TablesOk(tables) && NonZero(ray.dir)
  {
    VoxelHit(tables, noise, Walk(ray, k).voxel, ray)
  }

  /** The point at the ray parameter of a hit, if any. */
  function HitPoint(ray: Ray, t: Option<real>): Option<Vec3>
  {
    if t.Some? then Some(PointAt(ray, t.value)) else None
  }

  /** `World::collide`: tests the ray's start voxel, then walks at most `MAX_RAY_DIST`
      further voxels with the DDA, and returns the point where the first hit voxel's
      first hit triangle is hit. */
  method Collide(tables: Tables, noise: Vec3 -> real, ray: Ray) returns (hit: Option<Vec3>)
    requires TablesOk(tables) && NonZero(ray.dir)
    ensures hit == HitPoint(ray, FirstFrom(WalkHits(tables, noise, ray), 0))
  {
    ghost var hits := WalkHits(tables, noise, ray);
    var curVoxel := StartVoxel(ray.pos);
    var tHit := VoxelCollision(tables, noise, curVoxel, ray);
    assert tHit == hits[0];
    if tHit.Some? {
      return Some(PointAt(ray, tHit.value));
    }
    var step := StepVector(ray.dir);
    var invDir := Inv(ray.dir);
    var t := CalculateT(ray.pos, invDir);
    var deltaT := Mul(Scale(VOXEL_SIZE, invDir), step);
    for n := 0 to MAX_RAY_DIST
      invariant DdaState(t, curVoxel) == Walk(ray, n)
      invariant FirstFrom(hits, n + 1) == FirstFrom(hits, 0)
    {
      var voxelIncr := DdaIncrement(t);
      t := Add(t, Masked(voxelIncr, deltaT));
      curVoxel := Add(curVoxel, Masked(voxelIncr, step));
      assert DdaState(t, curVoxel) == Walk(ray, n + 1);
      tHit := VoxelCollision(tables, noise, curVoxel, ray);
      assert tHit == hits[n + 1];
      if tHit.Some? {
        assert FirstFrom(hits, n + 1) == tHit;
        return Some(PointAt(ray, tHit.value));
      }
      assert FirstFrom(hits, n + 1) == FirstFrom(hits, n + 2);
    }
    return None;
  }

  /** The voxel results `collide` scans: none is a hit exactly when none of the
      `MAX_RAY_DIST + 1` voxels of the walk is hit, and otherwise the result is that of
      the first voxel of the walk that is hit, every earlier voxel being missed. */
  lemma CollideSpec(tables: Tables, noise: Vec3 -> real, ray: Ray)
    requires TablesOk(tables) && NonZero(ray.dir)
    ensures FirstFrom(WalkHits(tables, noise, ray), 0).None? <==>
              forall k :: 0 <= k <= MAX_RAY_DIST ==> WalkVoxelHit(tables, noise, ray, k).None?
    ensures FirstFrom(WalkHits(tables, noise, ray), 0).Some? ==>
              exists k :: 0 <= k <= MAX_RAY_DIST
                && WalkVoxelHit(tables, noise, ray, k) == FirstFrom(WalkHits(tables, noise, ray), 0)
                && forall j :: 0 <= j < k ==> WalkVoxelHit(tables, noise, ray, j).None?
  {
    var hits := WalkHits(tables, noise, ray);
    assert |hits| == MAX_RAY_DIST + 1;
    assert forall k :: 0 <= k < |hits| ==> hits[k] == WalkVoxelHit(tables, noise, ray, k);
    FirstFromSpec(hits, 0);
    if FirstFrom(hits, 0).None? {
      assert forall k :: 0 <= k < |hits| ==> hits[k].None?;
    } else {
      var k :| 0 <= k < |hits| && hits[k] == FirstFrom(hits, 0) && forall j :: 0 <= j < k ==> hits[j].None?;
      assert WalkVoxelHit(tables, noise, ray, k) == FirstFrom(hits, 0);
      forall j | 0 <= j < k
        ensures WalkVoxelHit(tables, noise, ray, j).None?
      {
        assert hits[j].None?;
      }
    }
  }
}
