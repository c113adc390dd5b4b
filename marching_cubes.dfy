/** The marching-cubes step of `src/world/mod.rs`: which corners of a voxel lie below
    the terrain surface, and the triangles the triangulation table gives for that
    corner pattern. The noise field and the two lookup tables are parameters. */
module MarchingCubes {
  import opened Geometry
  import opened Bits

  const SCALE: real := 0.25
  const SURFACE_THRESHOLD: real := 0.5
  const VOXEL_SIZE: real := 50.0
  const UP: Vec3 := Vec3(0.0, 1.0, 0.0)

  datatype Triangle = Triangle(a: Vec3, b: Vec3, c: Vec3)

  /** `TRIANGULATION_TABLE` (one row of edge indices per corner pattern) and
      `EDGE_TABLE` (the two corners of each of the 12 cube edges). */
  datatype Tables = Tables(triangulation: seq<seq<int>>, edges: seq<(nat, nat)>)

  /** Entry `m` of edge triple `j` of a 16-slot row (slot `3 * j + m`). */
  function Slot(row: seq<int>, j: nat, m: nat): int
    requires |row| == 16 && j <= 5 && m < 3 && 3 * j + m < 16
  {
    row[3 * j + m]
  }

  /** A row lists up to 5 edge triples and ends with -1: the last slot (the start of
      triple 5) is -1, and each triple that does not start with -1 names three edges. */
  predicate RowOk(row: seq<int>)
  {
    |row| == 16 && Slot(row, 5, 0) == -1
    && forall j :: 0 <= j < 5 && Slot(row, j, 0) != -1 ==>
         0 <= Slot(row, j, 0) < 12 && 0 <= Slot(row, j, 1) < 12 && 0 <= Slot(row, j, 2) < 12
  }

  /** The edge table has 12 edges, each between two of the 8 corners. */
  predicate EdgesOk(edges: seq<(nat, nat)>)
  {
    |edges| == 12 && forall e :: 0 <= e < 12 ==> edges[e].0 < 8 && edges[e].1 < 8
  }

  predicate TablesOk(tables: Tables)
  {
    |tables.triangulation| == 256 && EdgesOk(tables.edges)
    && forall k :: 0 <= k < 256 ==> RowOk(tables.triangulation[k])
  }

  /** The standard table's rows for a cube wholly on one side of the surface are empty. */
  predicate UniformCubesEmpty(tables: Tables)
    requires TablesOk(tables)
  {
    tables.triangulation[0][0] == -1 && tables.triangulation[255][0] == -1
  }

  /** The 8 corners of the voxel, in the order the corner bits and the edge table use. */
  function Corners(voxel: Vec3): (cs: seq<Vec3>)
    ensures |cs| == 8
  {
    [ Add(voxel, Vec3(0.0, 0.0, 0.0)), Add(voxel, Vec3(0.0, 0.0, 1.0)),
      Add(voxel, Vec3(1.0, 0.0, 1.0)), Add(voxel, Vec3(1.0, 0.0, 0.0)),
      Add(voxel, Vec3(0.0, 1.0, 0.0)), Add(voxel, Vec3(0.0, 1.0, 1.0)),
      Add(voxel, Vec3(1.0, 1.0, 1.0)), Add(voxel, Vec3(1.0, 1.0, 0.0)) ]
  }

  /** `World::height`: the noise sample at `SCALE * p`, mapped from [-1, 1] to [0, 1].
      A point is below the surface exactly where the noise is negative. */
  function Height(noise: Vec3 -> real, p: Vec3): (h: real)
    ensures h < SURFACE_THRESHOLD <==> noise(Scale(SCALE, p)) < 0.0
  {
    (noise(Scale(SCALE, p)) + 1.0) * 0.5
  }

  /** For each corner, whether it lies below the surface. */
  function Below(noise: Vec3 -> real, corners: seq<Vec3>): (bs: seq<bool>)
    ensures |bs| == |corners|
  {
    seq(|corners|, i requires 0 <= i < |corners| => Height(noise, corners[i]) < SURFACE_THRESHOLD)
  }

  /** The corner pattern: bit `i` set iff corner `i` is below the surface. */
  function Layout(noise: Vec3 -> real, corners: seq<Vec3>): (r: nat)
    ensures r < Pow2(|corners|)
    ensures forall i :: 0 <= i < |corners| ==> (Bit(r, i) <==> Height(noise, corners[i]) < SURFACE_THRESHOLD)
  {
    PackBitsSpec(Below(noise, corners));
    PackBits(Below(noise, corners))
  }

  /** The `cube_layout` loop of `voxel_triangles`. */
  method CubeLayout(noise: Vec3 -> real, corners: seq<Vec3>) returns (layout: nat)
    requires |corners| == 8
    ensures layout == Layout(noise, corners)
    ensures layout < 256
    ensures forall i :: 0 <= i < 8 ==> (Bit(layout, i) <==> Height(noise, corners[i]) < SURFACE_THRESHOLD)
  {
    var below := Below(noise, corners);
    layout := 0;
    for i := 0 to 8
      invariant layout == PackBits(below[..i])
    {
      assert below[..i + 1][..i] == below[..i];
      if Height(noise, corners[i]) < SURFACE_THRESHOLD {
        layout := layout + Pow2(i);
      }
    }
    assert below[..8] == below;
    PackBitsSpec(below);
    assert Pow2(8) == 256;
  }

  /** The point halfway from `a` to `b` (glam's `lerp` at 0.5). */
  function Lerp(a: Vec3, b: Vec3, s: real): Vec3
  {
    Add(a, Scale(s, Sub(b, a)))
  }

  /** Where a voxel-grid point sits in the world: one voxel down, scaled by `VOXEL_SIZE`. */
  function ToWorld(p: Vec3): Vec3
  {
    Scale(VOXEL_SIZE, Sub(p, UP))
  }

  /** `edge_vertex`: the vertex on edge `edge` is the world-space MIDPOINT of the edge's
      two corners, whatever the heights at the corners. */
  function EdgeVertex(tables: Tables, corners: seq<Vec3>, edge: int): (r: Vec3)
    requires EdgesOk(tables.edges) && |corners| == 8 && 0 <= edge < 12
    ensures Add(r, r) == Add(ToWorld(corners[tables.edges[edge].0]), ToWorld(corners[tables.edges[edge].1]))
  {
    var (i1, i2) := tables.edges[edge];
    Scale(VOXEL_SIZE, Sub(Lerp(corners[i1], corners[i2], 0.5), UP))
  }

  /** The edge vertex is as far from one corner of its edge as from the other. */
  lemma EdgeVertexEquidistant(tables: Tables, corners: seq<Vec3>, edge: int)
    requires EdgesOk(tables.edges) && |corners| == 8 && 0 <= edge < 12
    ensures var r := EdgeVertex(tables, corners, edge);
            DistanceSquared(r, ToWorld(corners[tables.edges[edge].0]))
            == DistanceSquared(r, ToWorld(corners[tables.edges[edge].1]))
  {
    var r := EdgeVertex(tables, corners, edge);
    var p := ToWorld(corners[tables.edges[edge].0]);
    var q := ToWorld(corners[tables.edges[edge].1]);
    assert Sub(r, p) == Scale(-1.0, Sub(r, q));
  }

  /** The vertex on each of the 12 cube edges. */
  function EdgeVertices(tables: Tables, corners: seq<Vec3>): (vs: seq<Vec3>)
    requires EdgesOk(tables.edges) && |corners| == 8
    ensures |vs| == 12
  {
    seq(12, e requires 0 <= e < 12 => EdgeVertex(tables, corners, e))
  }

  /** The triangle for edge triple `j` of `row`, from the edge vertices `verts`. */
  function TriangleAt(verts: seq<Vec3>, row: seq<int>, j: nat): Triangle
    requires |verts| == 12 && RowOk(row) && j < 5 && Slot(row, j, 0) != -1
  {
    Triangle(verts[Slot(row, j, 0)], verts[Slot(row, j, 1)], verts[Slot(row, j, 2)])
  }

  /** The triangles of `row` from triple `j` on: one per edge triple, in table order,
      up to the first triple that starts with -1. */
  function TrianglesFrom(verts: seq<Vec3>, row: seq<int>, j: nat): (r: seq<Triangle>)
    requires |verts| == 12 && RowOk(row) && j <= 5
    decreases 5 - j
    ensures j + |r| <= 5
  {
    if Slot(row, j, 0) == -1 then []
    else [TriangleAt(verts, row, j)] + TrianglesFrom(verts, row, j + 1)
  }

  /** The triangles stop at a -1 sentinel. */
  lemma {:induction false} TrianglesFromEnd(verts: seq<Vec3>, row: seq<int>, j: nat)
    requires |verts| == 12 && RowOk(row) && j <= 5
    decreases 5 - j
    ensures Slot(row, j + |TrianglesFrom(verts, row, j)|, 0) == -1
  {
    if Slot(row, j, 0) != -1 {
      TrianglesFromEnd(verts, row, j + 1);
    }
  }

  /** Triangle `k` from triple `j` on is the one for triple `j + k`, which does not
      start with -1. */
  lemma {:induction false} TrianglesFromAt(verts: seq<Vec3>, row: seq<int>, j: nat, k: nat)
    requires |verts| == 12 && RowOk(row) && j <= 5
    requires k < |TrianglesFrom(verts, row, j)|
    decreases k
    ensures j + k < 5 && Slot(row, j + k, 0) != -1
    ensures TrianglesFrom(verts, row, j)[k] == TriangleAt(verts, row, j + k)
  {
    if k > 0 {
      TrianglesFromAt(verts, row, j + 1, k - 1);
      assert j + 1 + (k - 1) == j + k;
    }
  }

  /** The triangles from triple `j` on are exactly the triples before the first -1 from
      `j` on, each turned into the triangle of its three edge vertices. */
  lemma TrianglesFromSpec(verts: seq<Vec3>, row: seq<int>, j: nat)
    requires |verts| == 12 && RowOk(row) && j <= 5
    ensures var r := TrianglesFrom(verts, row, j);
            Slot(row, j + |r|, 0) == -1
            && forall k :: 0 <= k < |r| ==>
                 j + k < 5 && Slot(row, j + k, 0) != -1 && r[k] == TriangleAt(verts, row, j + k)
  {
    TrianglesFromEnd(verts, row, j);
    forall k | 0 <= k < |TrianglesFrom(verts, row, j)|
      ensures j + k < 5 && Slot(row, j + k, 0) != -1
           && TrianglesFrom(verts, row, j)[k] == TriangleAt(verts, row, j + k)
    {
      TrianglesFromAt(verts, row, j, k);
    }
  }

  /** `TrianglesFrom(verts, row, 0)` is the only sequence of triangles that lists the
      triangle of each triple, in order, up to a triple that starts with -1. */
  lemma TrianglesFromUnique(verts: seq<Vec3>, row: seq<int>, ts: seq<Triangle>)
    requires |verts| == 12 && RowOk(row) && |ts| <= 5 && Slot(row, |ts|, 0) == -1
    requires forall k :: 0 <= k < |ts| ==> Slot(row, k, 0) != -1 && ts[k] == TriangleAt(verts, row, k)
    ensures ts == TrianglesFrom(verts, row, 0)
  {
    var r := TrianglesFrom(verts, row, 0);
    TrianglesFromSpec(verts, row, 0);
    assert |r| == |ts|;
  }

  /** All triangles of the voxel at `voxel`. */
  function Triangulate(tables: Tables, noise: Vec3 -> real, voxel: Vec3): (r: seq<Triangle>)
    requires TablesOk(tables)
    ensures |r| <= 5
  {
    var corners := Corners(voxel);
    CubeLayoutRange(noise, corners);
    TrianglesFrom(EdgeVertices(tables, corners), tables.triangulation[Layout(noise, corners)], 0)
  }

  lemma CubeLayoutRange(noise: Vec3 -> real, corners: seq<Vec3>)
    requires |corners| == 8
    ensures Layout(noise, corners) < 256
  {
    PackBitsSpec(Below(noise, corners));
    assert Pow2(8) == 256;
  }

  /** The triangulation loop of `World::voxel_triangles`: walks `row` three slots at a
      time until the -1 sentinel, one triangle of edge vertices per triple. */
  method RowTriangles(tables: Tables, corners: seq<Vec3>, row: seq<int>) returns (triangles: seq<Triangle>)
    requires EdgesOk(tables.edges) && |corners| == 8 && RowOk(row)
    ensures triangles == TrianglesFrom(EdgeVertices(tables, corners), row, 0)
    ensures |triangles| <= 5
  {
    ghost var verts := EdgeVertices(tables, corners);
    triangles := [];
    var i := 0;
    while row[i] != -1
      invariant i % 3 == 0 && i <= 15 && |triangles| == i / 3
      invariant forall k :: 0 <= k < |triangles| ==>
                  Slot(row, k, 0) != -1 && triangles[k] == TriangleAt(verts, row, k)
      decreases 15 - i
    {
      ghost var j := i / 3;
      assert Slot(row, j, 0) == row[i] && j < 5;
      var a := EdgeVertex(tables, corners, row[i + 0]);
      var b := EdgeVertex(tables, corners, row[i + 1]);
      var c := EdgeVertex(tables, corners, row[i + 2]);
      assert Triangle(a, b, c) == TriangleAt(verts, row, j);
      triangles := triangles + [Triangle(a, b, c)];
      i := i + 3;
    }
    assert Slot(row, i / 3, 0) == -1;
    TrianglesFromUnique(verts, row, triangles);
  }

  /** `World::voxel_triangles`: the corner pattern of the voxel selects a table row,
      which gives at most 5 triangles. */
  method VoxelTriangles(tables: Tables, noise: Vec3 -> real, voxel: Vec3) returns (triangles: seq<Triangle>)
    requires TablesOk(tables)
    ensures triangles == Triangulate(tables, noise, voxel)
    ensures |triangles| <= 5
  {
    var corners := Corners(voxel);
    var layout := CubeLayout(noise, corners);
    triangles := RowTriangles(tables, corners, tables.triangulation[layout]);
  }

  /** A voxel whose corners are all above, or all below, the surface has no triangles
      when the table has empty rows 0 and 255. */
  lemma UniformVoxelEmpty(tables: Tables, noise: Vec3 -> real, voxel: Vec3)
    requires TablesOk(tables) && UniformCubesEmpty(tables)
    requires (forall i :: 0 <= i < 8 ==> Height(noise, Corners(voxel)[i]) < SURFACE_THRESHOLD)
          || (forall i :: 0 <= i < 8 ==> Height(noise, Corners(voxel)[i]) >= SURFACE_THRESHOLD)
    ensures Triangulate(tables, noise, voxel) == []
  {
    var corners := Corners(voxel);
    var below := Below(noise, corners);
    PackBitsSpec(below);
    assert Pow2(8) == 256;
    var layout := Layout(noise, corners);
    if forall i :: 0 <= i < 8 ==> Height(noise, corners[i]) < SURFACE_THRESHOLD {
      AllSet(layout, 8);
    } else {
      AllClear(layout, 8);
    }
  }
}
