# Verified model of the marker octree and the terrain raycaster

This project models two parts of a small voxel-terrain renderer and proves properties of them in Dafny.

**The bucketed octree of surface marks** (`src/marker/octree.rs`).
- The octree keeps its octants in one growable arena and links them by index.
- A leaf holds a bucket of at most `bucket_size` marks. When the bucket is full, the leaf is split into eight half-size children appended to the arena, and the insertion retries.
- `count` sums the bucket sizes.
- `get_visible` empties a caller-owned buffer of fixed capacity. It then fills the buffer with the marks of the leaves that pass the view frustum, children visited farthest first, and stops when the buffer is full.

In the model:
- `MarkerOctree.Octree` is a class whose `octants` field is the arena (a `seq<Octant>`). `Insert`, `Split` and `Push` reassign that field.
- `MarkerOctree.MarkBuffer` is the caller's buffer: an `array` of fixed length plus a fill count.
- The arena as a value lives in `OctreeArena`:
  - well-formedness (`ArenaOk`): positive extensions, bucket bound, children later in the arena and placed at their offsets, every octant reachable from the root;
  - the effect of a split (`SplitArena`) and of a push (`PushArena`);
  - the marks held (`MarksOf`).
- `OctreeVisibility` defines what a query emits. `Traverse` and `Gather` give the marks of the visible leaves in visiting order. `SortByDistance` gives the farthest-first child order. `Take` is the cut at the buffer's capacity.
- The methods are proved against these functions, and the lemmas prove the properties of the functions.

**The terrain raycaster** (`src/world/mod.rs`).
- `collide` walks the voxels along a ray with a 3D DDA: each step moves to the neighbouring voxel on the axes whose next voxel boundary comes first.
- In each voxel, `voxel_triangles` gives the marching-cubes triangles. It computes the corner pattern from the noise heights, then reads the table row for that pattern up to its -1 sentinel. Each triangle vertex is the midpoint of a cube edge.
- Each triangle is tested with the Möller–Trumbore ray/triangle test. `collide` returns the point of the first hit.

In the model:
- `MarchingCubes` holds the corner pattern (`CubeLayout`, proved against the bit-packing `Layout`) and the triangulation (`RowTriangles`/`VoxelTriangles`, proved against `TrianglesFrom`/`Triangulate`).
- `World` holds:
  - the ray/triangle test (`RayTriangleCollision`), with a proof that a reported hit lies on the triangle;
  - the DDA (`CalculateT`, `StepVector`, `DdaIncrement`, `Advance`, `Walk`), with proofs that the walk never revisits a voxel and that each crossing parameter always sits on the exit face of the current voxel;
  - `VoxelCollision` and `Collide`, proved equal to the first hit along the walk.

Positions are `real`. The noise field (`Vec3 -> real`) and the two lookup tables (`Tables`) are parameters.

Where the code departs from the textbook algorithms, the model follows the code:
- an edge vertex is the midpoint of its edge, not an interpolation at the surface threshold;
- `collide` returns the first hit voxel's first hit triangle in table order, not the nearest hit.

## Model

| member | source | states |
|---|---|---|
| OctreeArena.ChildIndex | src/marker/octree.rs:38-44 | The child index is below 8, and bit `i` is set iff coordinate `i` of the point is strictly greater than the centre's. |
| OctreeArena.Contains | src/marker/octree.rs:171-181 | A mark is contained exactly when, on every axis, `c - e <= p < c + e`: the lower face is inside the cube, the upper face is not. |
| OctreeArena.Collide | src/marker/octree.rs:184-188 | An octant passes a plane exactly when the corner of its cube farthest along the plane's normal lies on the plane's non-negative side, `n · corner >= w`. |
| OctreeArena.CulledCubeOutside | src/marker/octree.rs:184-188 | Culling is sound: when an octant fails a plane, every point of its closed cube lies strictly on the negative side of that plane. |
| OctreeArena.KeptCubeReaches | src/marker/octree.rs:184-188 | When an octant passes a plane, some point of its closed cube (its far corner) lies on the non-negative side. |
| OctreeArena.SplitArena | src/marker/octree.rs:53-94 | The arena grows by exactly 8 octants. The split leaf keeps its cube and becomes the parent of indices `len .. len + 8`, entry `len + k` is child octant `k`, and every other entry is unchanged. |
| OctreeArena.PushArena | src/marker/octree.rs:47-51 | Only the target leaf changes: it keeps its cube and its bucket gains the mark at the end. |
| OctreeArena.MarksOf | src/marker/octree.rs:98-106 | Defines the stored marks: the leaves' buckets concatenated in arena order. `count()` is its length; `MarksAppend`, `MarksUpdate`, `LeafInMarks` and `MarkInSomeLeaf` state its properties. |
| MarkerOctree.SelectChild | src/marker/octree.rs:59-65 | The per-axis `child_id \|= 1 << i` loop computes exactly `ChildIndex`, the rule used both for descending and for redistributing. |
| OctreeArena.ContainsInCube | src/marker/octree.rs:171-181 | A mark the half-open cube `[c-e, c+e)` contains lies in the closed cube `[c-e, c+e]`. |
| OctreeArena.CentreGoesToLowChild | src/marker/octree.rs:62-76 | A point exactly on the centre goes to child 0. That child's half-open cube does not contain it, but its closed cube does, so containment is kept with closed bounds. |
| OctreeArena.ChildCube | src/marker/octree.rs:69-82 | A point in a cube lies in the closed cube of the child that `ChildIndex` selects for it. |
| OctreeArena.BucketMembers | src/marker/octree.rs:59-67 | Bucket `k` of a redistribution holds only marks of the leaf that descend to child `k`. |
| OctreeArena.BucketsUpToSnoc | src/marker/octree.rs:59-67 | Dealing one more mark adds it to exactly the bucket of its child index. |
| OctreeArena.BucketsOfNothing | src/marker/octree.rs:53-57 | Dealing no marks leaves all buckets empty. |
| OctreeArena.Partition | src/marker/octree.rs:53-67 | The 8 buckets together hold exactly the leaf's marks, as a multiset: each mark goes to exactly one child. |
| OctreeArena.MarksAppend | src/marker/octree.rs:98-106 | The marks of two arenas placed one after the other are the first arena's marks followed by the second's. |
| OctreeArena.MarksUpdate | src/marker/octree.rs:94 | Replacing one octant swaps that octant's bucket for the new one in the arena's marks. |
| OctreeArena.ChildrenMarksUpTo | src/marker/octree.rs:69-83 | The first `n` children built by a split hold exactly buckets `0..n`. |
| OctreeArena.AppendThenReplace | src/marker/octree.rs:89-94 | Appending children and turning the split leaf into a parent removes the leaf's bucket and adds the children's marks. |
| OctreeArena.ChildrenMarks | src/marker/octree.rs:53-83 | The eight children of a split hold exactly the split leaf's marks. |
| OctreeArena.SplitMarks | src/marker/octree.rs:53-94 | A split keeps the multiset of stored marks and their number, so `count()` is unchanged. |
| OctreeArena.SplitOk | src/marker/octree.rs:53-94 | A split keeps the arena well formed: 8 new octants of half the extension at offsets `±ext/2`, the leaf becomes their parent with in-range child indices, and every bucket stays within `bucket_size`. |
| OctreeArena.PushOk | src/marker/octree.rs:47-51 | Appending a mark to a leaf with room, whose cube holds the mark, keeps the arena well formed. |
| OctreeArena.PushMarks | src/marker/octree.rs:47-51 | Appending a mark adds exactly that mark to the stored marks and one to their number. |
| OctreeArena.PushKeepsCubes | src/marker/octree.rs:47-51 | A push leaves every octant's cube and every earlier entry's geometry unchanged. |
| OctreeArena.SplitKeepsCubes | src/marker/octree.rs:89-94 | A split leaves every existing octant's cube unchanged. |
| OctreeArena.LeafInMarks | src/marker/octree.rs:98-106 | Every leaf's bucket is part of the arena's marks. |
| OctreeArena.MarkInSomeLeaf | src/marker/octree.rs:98-106 | Every stored mark sits in the bucket of some leaf. |
| OctreeArena.ArenaLinked | src/marker/octree.rs:143-153 | In a well-formed arena, every child index stored in a parent is in range, so `Index`/`IndexMut` never go out of bounds. |
| OctreeArena.MinSep | src/marker/octree.rs:33-95 | A positive separation that is at most the Chebyshev distance from the new mark to every stored mark at another position. |
| OctreeArena.HalvingBudget | src/marker/octree.rs:69-80 | Halving the extension never raises the descent budget, and lowers it while the cube is still wider than that separation. |
| OctreeArena.AllEqualCount | src/marker/octree.rs:48-51 | A bucket whose marks are all one mark holds that many copies of it. |
| OctreeArena.FullLeafIsWide | src/marker/octree.rs:48-51 | A full leaf that holds the new mark's point, when fewer than `bucket_size` stored marks equal the new mark, must be at least as wide as the separation. This is why the insertion loop ends. |
| OctreeVisibility.TakeConcat | src/marker/octree.rs:136-137 | Filling a bounded buffer with one sequence and then another keeps a prefix of their concatenation, never longer than the capacity. |
| OctreeVisibility.InsertByDistance | src/marker/octree.rs:120-125 | Inserting a child into a farthest-first order adds exactly that child and keeps the order farthest first. |
| OctreeVisibility.InsertByDistanceHead | src/marker/octree.rs:120-125 | A child nearer than the head is inserted behind it without breaking the farthest-first order. |
| OctreeVisibility.SameMembers | src/marker/octree.rs:120-125 | Two orders with the same multiset have the same length and members. |
| OctreeVisibility.SortByDistance | src/marker/octree.rs:120-125 | The children are visited in a permutation of their index array, in non-increasing squared distance from the viewpoint. |
| OctreeVisibility.Traverse | src/marker/octree.rs:113-140 | Defines what octant `id` emits with unbounded room: a leaf its bucket, a parent its children's emissions in farthest-first order. `TraverseSources`, `ReachedFromRoot` and `AllMarksVisible` state its properties. |
| OctreeVisibility.Gather | src/marker/octree.rs:126-133 | Defines the emissions of a list of children, skipping each one that fails a plane. `GatherSources`, `GatherCovers` and `GatherTakeStep` state its properties. |
| OctreeVisibility.GatherTakeStep | src/marker/octree.rs:126-137 | Visiting one more child with the buffer partly filled extends the capacity-bounded prefix by that child's marks, cut to the remaining room. |
| OctreeVisibility.TraverseSources | src/marker/octree.rs:113-140 | Every mark an octant emits is stored in a leaf at or after that octant in the arena; nothing is invented. |
| OctreeVisibility.GatherSources | src/marker/octree.rs:126-133 | Every mark emitted for a parent's children is stored in a leaf later in the arena than the parent. |
| OctreeVisibility.GatherCovers | src/marker/octree.rs:126-133 | A listed child that passes every plane contributes all of its subtree's marks. |
| OctreeVisibility.ReachedFromRoot | src/marker/octree.rs:113-140 | When no octant is culled, whatever an octant emits is also emitted from the root. |
| OctreeVisibility.AllMarksVisible | src/marker/octree.rs:108-140 | When no octant is culled, every stored mark is emitted from the root; the traversal loses nothing. |
| OctreeVisibility.OpenQueryReturnsAll | src/marker/octree.rs:108-140 | With planes that pass every octant and a capacity at least the number of emitted marks, every stored mark ends up in the buffer. |
| OctreeVisibility.OpenFrustumPassesAll | src/marker/octree.rs:184-188 | Planes with a zero normal and a non-positive offset pass every octant. |
| MarkerOctree.MarkBuffer.constructor | src/marker/mod.rs:173 | A buffer allocated with a capacity starts empty. |
| MarkerOctree.MarkBuffer.Clear | src/marker/octree.rs:109 | `truncate(0)` leaves the buffer empty. |
| MarkerOctree.MarkBuffer.Extend | src/marker/octree.rs:137 | `extend` appends exactly the given marks when they fit. |
| MarkerOctree.OffsetOf | src/marker/octree.rs:70-77 | The offset loop gives `+h` on axis `j` iff bit `j` of the child number is set, else `-h`. |
| MarkerOctree.PassesFrustum | src/marker/octree.rs:127-131 | The plane loop accepts a child exactly when `collide` holds for every plane. |
| MarkerOctree.DealMarks | src/marker/octree.rs:53-67 | The redistribution gives 8 buckets, bucket `k` holding the leaf's marks whose child index is `k`, in their original order. |
| MarkerOctree.BuildChildren | src/marker/octree.rs:69-83 | Popping buckets from the back makes the `i`-th built child child `7 - i`, with centre offset bits `7 - i` and half the extension. |
| MarkerOctree.Octree.constructor | src/marker/octree.rs:14-24 | A new tree is one empty leaf of half-extent 50 at the origin, well formed, holding no marks. |
| MarkerOctree.Octree.Split | src/marker/octree.rs:53-94 | The new arena is `SplitArena` of the old: 8 children appended at `len..len+8`, the leaf becomes their parent, earlier entries keep their cubes, marks and count are unchanged, and the arena stays well formed. |
| MarkerOctree.Octree.Push | src/marker/octree.rs:47-51 | The mark is appended to the leaf's bucket, which had room; the tree stays well formed and holds one more copy of the mark. |
| MarkerOctree.Octree.Descend | src/marker/octree.rs:37-45 | The child chosen by `ChildIndex` is a later, in-range octant whose closed cube holds the mark, and the descent measure drops. |
| MarkerOctree.Octree.Insert | src/marker/octree.rs:26-96 | A mark outside the root's half-open cube leaves the arena unchanged. Otherwise the tree stays well formed (bucket bound, index validity) and holds exactly one more copy of the mark, which is then among the stored marks. |
| MarkerOctree.Octree.Count | src/marker/octree.rs:98-106 | `count()` is the number of marks held by all leaves. |
| MarkerOctree.Octree.GetVisible | src/marker/octree.rs:108-111 | The buffer is emptied and then holds the capacity-bounded prefix of what the root emits. Every emitted mark is stored in a leaf that is the root or passed every plane, and the tree is not modified. |
| MarkerOctree.Octree.GetVisibleRec | src/marker/octree.rs:113-140 | Appends what octant `id` emits, cut at the remaining room; nothing once the buffer is full. |
| MarkerOctree.Octree.VisitChildren | src/marker/octree.rs:119-133 | Visiting the children in the given order appends the capacity-bounded prefix of their combined emissions. |
| MarkerOctree.Octree.VisitNext | src/marker/octree.rs:126-133 | One child step: a culled child adds nothing, a visible child adds its subtree's marks up to the room left. |
| MarchingCubes.Corners | src/world/mod.rs:79-88 | A voxel has 8 corners. |
| MarchingCubes.Height | src/world/mod.rs:62-65 | A point is below the surface threshold exactly where the noise sample at `SCALE * p` is negative. |
| MarchingCubes.Below | src/world/mod.rs:91-92 | There is one below-surface flag per corner. |
| Bits.BitBelow | src/world/mod.rs:90-95 | A number below `2^i` has bit `i` clear. |
| Bits.BitAddHigh | src/world/mod.rs:90-95 | For `x < 2^i`, `x + 2^i` sets bit `i` and keeps every other bit: it is `x \| 1 << i`. |
| Bits.PackBitsSpec | src/world/mod.rs:90-95 | Packing `n` flags gives a number below `2^n` whose bit `j` is flag `j`. |
| Bits.AllClear | src/world/mod.rs:90-95 | An `n`-bit number with no bit set is 0. |
| Bits.AllSet | src/world/mod.rs:90-95 | An `n`-bit number with every bit set is `2^n - 1`. |
| MarchingCubes.CubeLayout | src/world/mod.rs:90-95 | The corner pattern is in `[0, 256)`, and bit `i` is set iff corner `i`'s height is below the threshold. |
| MarchingCubes.CubeLayoutRange | src/world/mod.rs:90-97 | The corner pattern indexes a row of the 256-row triangulation table. |
| MarchingCubes.Layout | src/world/mod.rs:90-95 | For `n` corners, the pattern is below `2^n` and bit `i` is set exactly when corner `i`'s height is below the threshold. |
| MarchingCubes.EdgeVertex | src/world/mod.rs:166-171 | The edge vertex is the midpoint of the world positions of the edge's two corners, whatever the heights. |
| MarchingCubes.EdgeVertexEquidistant | src/world/mod.rs:166-171 | The edge vertex is equally far from both corners of its edge. |
| MarchingCubes.TrianglesFrom | src/world/mod.rs:97-109 | There are never more than 5 triangles. |
| MarchingCubes.Triangulate | src/world/mod.rs:97-109 | A layout row yields at most 5 triangles, the capacity the source reserves. |
| MarchingCubes.TrianglesFromEnd | src/world/mod.rs:101 | The triangles stop exactly at a -1 sentinel. |
| MarchingCubes.TrianglesFromAt | src/world/mod.rs:100-107 | Triangle `k` comes from edge triple `k` of the row, which does not start with -1, and has the edge vertices of its three slots. |
| MarchingCubes.TrianglesFromSpec | src/world/mod.rs:97-109 | One triangle per edge triple before the first -1, in table order, each made of the edge vertices of its three slots. |
| MarchingCubes.TrianglesFromUnique | src/world/mod.rs:97-109 | Any triangle list with that description is the one the row gives. |
| MarchingCubes.RowTriangles | src/world/mod.rs:97-109 | The `while edges[i] != -1` loop, stepping 3 slots at a time, builds exactly the row's triangles. |
| MarchingCubes.VoxelTriangles | src/world/mod.rs:78-110 | `voxel_triangles` returns the voxel's triangulation, at most 5 triangles. |
| MarchingCubes.UniformVoxelEmpty | src/world/mod.rs:90-97 | A voxel whose corners are all below, or all at or above, the threshold gets no triangles when table rows 0 and 255 start with -1. |
| World.RayTriangleCollision | src/world/mod.rs:131-163 | `None` whenever `\|det\| < 1e-4`. Otherwise a hit exactly when `0 <= u <= 1`, `v >= 0`, `u + v <= 1` and `t >= 1e-4`, and the result is that `t`. |
| World.Det | src/world/mod.rs:134-138 | The determinant `e1 · (dir × e2)` equals `-(dir · (e1 × e2))`, so for a triangle with a non-zero normal `e1 × e2` it vanishes exactly when the ray is parallel to the triangle's plane. |
| World.Solve | src/world/mod.rs:143-157 | Defines `u`, `v` and `t` as the source computes them. `SolvedPoint` states what they are: with a non-zero determinant, the ray point at `t` is the triangle-plane point `(u, v)`. `HitLiesOnTriangle` adds that a reported hit lies on the triangle itself. |
| World.CramerX | src/world/mod.rs:143-157 | Cramer's rule for the x coordinate of the Möller–Trumbore system, multiplied through by the determinant. |
| World.CramerY | src/world/mod.rs:143-157 | The same for the y coordinate. |
| World.CramerZ | src/world/mod.rs:143-157 | The same for the z coordinate. |
| World.HitAxis | src/world/mod.rs:143-157 | Dividing one coordinate's Cramer identity by the determinant puts the ray point at `t` on the triangle's plane point at `(u, v)`. |
| World.CramerHitX | src/world/mod.rs:143-157 | On x, the ray point at the computed `t` equals `a + u e1 + v e2`. |
| World.CramerHitY | src/world/mod.rs:143-157 | The same on y. |
| World.CramerHitZ | src/world/mod.rs:143-157 | The same on z. |
| World.SolvedPointX | src/world/mod.rs:143-157 | On x, `pos + t dir` equals `a + u (b - a) + v (c - a)`. |
| World.SolvedPointY | src/world/mod.rs:143-157 | The same on y. |
| World.SolvedPointZ | src/world/mod.rs:143-157 | The same on z. |
| World.SolvedPoint | src/world/mod.rs:143-157 | With a non-zero determinant, the ray point at `t` is the triangle-plane point with coordinates `(u, v)`. |
| World.HitLiesOnTriangle | src/world/mod.rs:131-163 | A reported hit lies on the triangle: the point at the returned `t >= 1e-4` is `a + u (b - a) + v (c - a)` with `u, v >= 0` and `u + v <= 1`. |
| World.FirstHitSpec | src/world/mod.rs:68-75 | A voxel's result is `None` exactly when no triangle is hit, and otherwise the hit of the first triangle in list order that is hit. |
| World.VoxelHit | src/world/mod.rs:68-75 | A voxel's hit, when there is one, is at least `1e-4` along the ray. |
| World.VoxelHitSpec | src/world/mod.rs:68-75 | A voxel is missed exactly when the ray misses every one of its triangles. |
| World.FirstHit | src/world/mod.rs:68-75 | Defines the hit of the first triangle in list order that is hit; `FirstHitSpec` states it. |
| World.VoxelCollision | src/world/mod.rs:68-75 | The early-return loop over the voxel's triangles returns the first hit in list order. |
| World.CellBounds | src/world/mod.rs:121-122 | `floor(p / VS) * VS <= p < floor(p / VS) * VS + VS`. |
| World.StartVoxel | src/world/mod.rs:32 | The start voxel has whole-number coordinates and is the cell holding the ray origin on x and z, and the cell one above it on y. |
| World.DeltaT | src/world/mod.rs:42 | Each component of `delta_t` is `VS * \|1/d\|`, the positive time the ray needs to cross one voxel on that axis. |
| World.Step | src/world/mod.rs:115 | One step component is -1 exactly when the direction component is negative, else +1, and `step * d == \|d\|`. |
| World.StepVector | src/world/mod.rs:114-117 | Each component of `step_vector` is that axis's `Step`, and `step * dir` is the component-wise magnitude of `dir`. |
| World.CrossUp | src/world/mod.rs:121-127 | When moving up, the larger face parameter is the upper face's: positive, at most one voxel's crossing time, and it maps back to that face. |
| World.CrossDown | src/world/mod.rs:121-127 | When moving down, the larger face parameter is the lower face's: non-negative, at most one voxel's crossing time, and it maps back to that face. |
| World.AxisT | src/world/mod.rs:120-128 | On one axis, the first crossing parameter is non-negative, at most `VS * \|1/d\|`, and reaches the exit face of the start cell in the direction of travel. |
| World.CalculateT | src/world/mod.rs:120-128 | All three initial crossing parameters are non-negative and at most one voxel's crossing time. |
| World.DdaIncrement | src/world/mod.rs:46-48 | An axis advances exactly when its crossing parameter is minimal (ties advance together), and at least one axis advances. |
| World.Advance | src/world/mod.rs:45-51 | Defines one loop iteration on the DDA state; `AdvanceProgress` and `AdvanceOnExitFaces` state its properties. |
| World.Walk | src/world/mod.rs:32-56 | Defines the DDA state after `k` iterations; `WalkProgress`, `WalkNeverRevisits` and `WalkOnExitFaces` state its properties. |
| World.AxisAlong | src/world/mod.rs:50-51 | On one axis, a step in the direction of travel moves one unit further along it, and no step moves it not at all. |
| World.AdvanceProgress | src/world/mod.rs:45-51 | Each iteration moves the current voxel at least one unit further along the direction of travel; only the advancing axes change, each by its step. |
| World.WalkProgress | src/world/mod.rs:45-56 | After `k - j` more iterations the voxel is at least `k - j` units further along. |
| World.WalkNeverRevisits | src/world/mod.rs:45-56 | The walk never returns to a voxel it has left. |
| World.DivInverse | src/world/mod.rs:39-42 | Dividing by `1/d` is multiplying by `d`. |
| World.AxisStep | src/world/mod.rs:50-51 | On one axis, advancing the crossing parameter by `delta_t` and the cell by `step` keeps the parameter on the new cell's exit face. |
| World.AxisStart | src/world/mod.rs:38-40 | On one axis, the first crossing parameter is on the start cell's exit face. |
| World.StartOnExitFaces | src/world/mod.rs:32-40 | Before the loop, each axis's `t` is where the ray meets the exit face of the start voxel (taken one voxel down). |
| World.AdvanceOnExitFaces | src/world/mod.rs:46-51 | One loop iteration preserves that invariant. |
| World.WalkOnExitFaces | src/world/mod.rs:32-56 | The invariant holds after every iteration. |
| World.FirstFromSpec | src/world/mod.rs:45-58 | The walk's result is `None` exactly when no tested voxel is hit, and otherwise the first hit voxel's hit. |
| World.CollideSpec | src/world/mod.rs:31-59 | The walk tests `MAX_RAY_DIST + 1` voxels (the start voxel and 30 more). It finds nothing exactly when every one of them is missed, and otherwise it returns the hit of the first voxel that is hit, every earlier voxel being missed. |
| World.Collide | src/world/mod.rs:31-59 | `collide` returns `pos + t dir` for the first hit voxel's first hit triangle among the `MAX_RAY_DIST + 1` voxels of the walk, and `None` if none is hit. |

## Left out

- `SEED`, `World::new` and the `noise::SuperSimplex` sampler: the noise field is a parameter `noise: Vec3 -> real`. Only its sign at a sample point matters here.
- The contents of `TRIANGULATION_TABLE` and `EDGE_TABLE`: `tables.rs` is not part of this model. The tables are a parameter `Tables`. `TablesOk` requires the following:
  - 256 rows of 16 slots, each ending with a -1 at slot 15;
  - every edge triple before the sentinel names edges below 12;
  - 12 edges between corners below 8.
- `f32`/`f64` arithmetic: rounding, NaN, infinities and `total_cmp` are not modelled; coordinates are `real`. The casts of the noise position to `f64` and the `f64` threshold compare are exact in the model.
- World.Collide: requires every direction component to be non-zero; the source then divides by zero and computes with infinities.
- World.RayTriangleCollision: computes `q` and `v` even when `u` already fails, as a pure expression. The result is the same as the source's early returns.
- MarchingCubes.Corners: its contract states only that there are eight corners. The corner offsets and their order are written in its body, copied from the source's corner list.
- `MarkRaw` and `Mark::to_raw`: a mark is its position. The render matrix is not modelled.
- MarkerOctree.Octree.Insert: requires fewer than `bucketSize` stored marks equal to the new one when the root contains it. With more coincident marks, every split sends them all to one child, and the source's loop never ends. `src/marker/mod.rs:216-221` inserts the ray hit on every cooldown. If `Camera::cast_ray` and `World::raycast`, which are not part of this model, give the same hit for a camera that does not move, the same point is inserted again and again and this case arises. With `f32` positions, distinct marks one unit in the last place apart may never be separated either: once the half-extent falls below the float spacing, the child centres stop moving. `MinSep` over reals has no such floor and does not capture this.
- MarkerOctree.Octree.GetVisibleRec: its contract, through `Traverse`, fixes the same order among equidistant siblings as `GetVisible`'s, below.
- MarkerOctree.Octree.GetVisible: its contract fixes one order among equidistant siblings, the one the stable insertion sort leaves. `sort_unstable_by` may order them differently, so when the buffer fills up, the source may keep other marks than the ones the contract names.
- OctreeVisibility.SortByDistance: a stable insertion sort stands for `sort_unstable_by`. Only the farthest-first order and the permutation are stated; the order of equidistant children is unspecified in the source and not claimed.
- MarkerOctree.MarkBuffer: the caller's `Vec` is an array whose capacity is fixed at creation. A `Vec` whose capacity exceeds the requested size is not modelled.
- `Index`/`IndexMut`: modelled by sequence indexing on the `octants` field. `ArenaLinked` and `ArenaOk` state that every index used is in range.
- The `u32` arena indices and `usize` counts are unbounded naturals. Overflow is not modelled.
- `src/marker/mod.rs`, `src/marker.rs`, `src/main.rs` and `src/camera.rs` are window, camera, GPU and input code. They are not part of this model.
- `src/world.rs` is an older `collide` that intersects the ray with the ground plane `y = 0`. It is not part of this model.
- `src/util.rs` defines the `Ray`, `Triangle` and `Frustum` types. The model has its own `Ray` and `Triangle` datatypes and takes the frustum as a sequence of planes rather than an array of exactly six; the rest of that file is not part of this model.
