/** The octree's arena as a value: octants stored in one sequence and linked by index,
    what a well-formed arena is, what a split does to it, and the marks it holds.
    The class `MarkerOctree.Octree` keeps its arena in a `seq<Octant>` field and uses
    these definitions as its specification. */
module OctreeArena {
  import opened Geometry
  import opened Bits

  /** Half-extent of the root cube. */
  const BASE_EXTENSION: real := 50.0

  /** A discovered surface point. The render-side copy (`MarkRaw`) also carries a
      translation matrix computed from `pos`; only the position matters here. */
  datatype Mark = Mark(pos: Vec3)

  /** A frustum plane `(x, y, z, w)`: normal `(x, y, z)` and offset `w`. */
  datatype Plane = Plane(normal: Vec3, w: real)

  /** A leaf bucket of marks, or the arena indices of 8 children. */
  datatype Content = Parent(children: seq<nat>) | Leaf(data: seq<Mark>)

  /** A cube with centre `center` and half-extent `extension`. */
  datatype Octant = Octant(center: Vec3, extension: real, content: Content)

  /** `Octant::contains`: the half-open cube `[c - e, c + e)` on every axis. */
  predicate Contains(o: Octant, mark: Mark)
    ensures Contains(o, mark) <==>
              HalfOpen(o.center.x, o.extension, mark.pos.x)
              && HalfOpen(o.center.y, o.extension, mark.pos.y)
              && HalfOpen(o.center.z, o.extension, mark.pos.z)
  {
    var under := mark.pos.x < o.center.x - o.extension
              || mark.pos.y < o.center.y - o.extension
              || mark.pos.z < o.center.z - o.extension;
    var above := mark.pos.x >= o.center.x + o.extension
              || mark.pos.y >= o.center.y + o.extension
              || mark.pos.z >= o.center.z + o.extension;
    !(above || under)
  }

  /** `q` lies in `[c - e, c + e)`. */
  predicate HalfOpen(c: real, e: real, q: real)
  {
    c - e <= q < c + e
  }

  /** `Octant::collide`: the cube is not entirely on the negative side of the plane. */
  predicate Collide(o: Octant, plane: Plane)
    ensures Collide(o, plane) <==> Dot(plane.normal, FarCorner(o, plane.normal)) >= plane.w
  {
    var r := o.extension * (Abs(plane.normal.x) + Abs(plane.normal.y) + Abs(plane.normal.z));
    var s := Dot(plane.normal, o.center) - plane.w;
    -r <= s
  }

  /** On one axis, the coordinate of the cube's face farthest along a normal component `n`. */
  function Toward(c: real, n: real, e: real): real
  {
    if n < 0.0 then c - e else c + e
  }

  /** The corner of the cube farthest along `n`. */
  function FarCorner(o: Octant, n: Vec3): Vec3
  {
    Vec3(Toward(o.center.x, n.x, o.extension), Toward(o.center.y, n.y, o.extension),
         Toward(o.center.z, n.z, o.extension))
  }

  /** Passes every plane of the frustum. */
  predicate InFrustum(o: Octant, frustum: seq<Plane>)
  {
    forall i :: 0 <= i < |frustum| ==> Collide(o, frustum[i])
  }

  ghost predicate AxisWithin(o: Octant, p: Vec3, i: nat)
    requires i < 3
  {
    Get(o.center, i) - o.extension <= Get(p, i) <= Get(o.center, i) + o.extension
  }

  /** The CLOSED cube `[c - e, c + e]`. A mark exactly on a centre coordinate goes to
      the low child, whose half-open cube excludes it; the closed cube keeps it. */
  ghost predicate InCube(o: Octant, p: Vec3)
  {
    AxisWithin(o, p, 0) && AxisWithin(o, p, 1) && AxisWithin(o, p, 2)
  }

  /** For each axis, whether `p` lies strictly above `c`. */
  function Above(p: Vec3, c: Vec3): seq<bool>
  {
    [p.x > c.x, p.y > c.y, p.z > c.z]
  }

  /** The child a point descends to: bit `i` set iff coordinate `i` is strictly
      greater than the centre's. Both insertion and redistribution use this rule. */
  function ChildIndex(p: Vec3, c: Vec3): (k: nat)
    ensures k < 8
    ensures forall i :: 0 <= i < 3 ==> (Bit(k, i) <==> Get(p, i) > Get(c, i))
  {
    PackBitsSpec(Above(p, c));
    PackBits(Above(p, c))
  }

  /** Centre offset of child `k` for a half-extent `h`: `+h` on axis `j` iff bit `j` of `k`. */
  function ChildOffset(k: nat, h: real): Vec3
  {
    Vec3(if Bit(k, 0) then h else -h, if Bit(k, 1) then h else -h, if Bit(k, 2) then h else -h)
  }

  /** The marks of `data` that go to child `k`, in their original order. */
  function Bucket(data: seq<Mark>, c: Vec3, k: nat): seq<Mark>
  {
    if data == [] then []
    else
      var last := data[|data| - 1];
      Bucket(data[..|data| - 1], c, k) + (if ChildIndex(last.pos, c) == k then [last] else [])
  }

  /** Child `k` of a leaf that is being split. */
  function ChildOctant(o: Octant, k: nat): Octant
    requires o.content.Leaf?
  {
    var h := o.extension / 2.0;
    Octant(Add(o.center, ChildOffset(k, h)), h, Leaf(Bucket(o.content.data, o.center, k)))
  }

  function SplitChildren(o: Octant): seq<Octant>
    requires o.content.Leaf?
  {
    seq(8, k requires 0 <= k < 8 => ChildOctant(o, k))
  }

  /** The arena indices `n, ..., n + 7` of a split's children. */
  function ChildIds(n: nat): seq<nat>
  {
    seq(8, k => n + k)
  }

  /** The arena after splitting leaf `id`: its 8 children are appended, child `k` at
      `|os| + k`, and `id` becomes a parent pointing at them. */
  function SplitArena(os: seq<Octant>, id: nat): (r: seq<Octant>)
    requires id < |os| && os[id].content.Leaf?
    ensures |r| == |os| + 8
    ensures forall j :: 0 <= j < |os| && j != id ==> r[j] == os[j]
    ensures r[id].center == os[id].center && r[id].extension == os[id].extension
    ensures r[id].content.Parent? && |r[id].content.children| == 8
    ensures forall k :: 0 <= k < 8 ==> r[id].content.children[k] == |os| + k
    ensures forall k :: 0 <= k < 8 ==> r[|os| + k] == ChildOctant(os[id], k)
  {
    var n := |os|;
    (os + SplitChildren(os[id]))[id := os[id].(content := Parent(ChildIds(n)))]
  }

  /** Child `child` sits at offset `j` of `parent`, with half the extension. */
  ghost predicate Placed(parent: Octant, child: Octant, j: nat)
  {
    child.center == Add(parent.center, ChildOffset(j, parent.extension / 2.0))
    && child.extension == parent.extension / 2.0
  }

  /** Octant `k` is well formed: positive extension; a leaf holds at most `bucket`
      marks, all inside its closed cube; a parent has 8 children, all later in the
      arena and placed at their offsets. */
  ghost predicate OctantOk(os: seq<Octant>, k: nat, bucket: nat)
    requires k < |os|
  {
    var o := os[k];
    o.extension > 0.0 &&
    match o.content
    case Leaf(data) => |data| <= bucket && forall m :: m in data ==> InCube(o, m.pos)
    case Parent(ch) => |ch| == 8 && forall j :: 0 <= j < 8 ==> k < ch[j] < |os| && Placed(o, os[ch[j]], j)
  }

  /** Every octant but the root (index 0) is a child of an earlier octant. */
  ghost predicate Rooted(os: seq<Octant>, parent: seq<nat>)
  {
    |parent| == |os|
    && forall k :: 0 < k < |os| ==>
         parent[k] < k && os[parent[k]].content.Parent? && k in os[parent[k]].content.children
  }

  ghost predicate ArenaOk(os: seq<Octant>, bucket: nat, parent: seq<nat>)
  {
    |os| > 0
    && (forall k :: 0 <= k < |os| ==> OctantOk(os, k, bucket))
    && Rooted(os, parent)
  }

  /** Only the index structure: every child index is later in the arena and in range. */
  predicate Linked(os: seq<Octant>)
  {
    forall k :: 0 <= k < |os| && os[k].content.Parent? ==>
      |os[k].content.children| == 8
      && forall j :: 0 <= j < 8 ==> k < os[k].content.children[j] < |os|
  }

  function LeafData(o: Octant): seq<Mark>
  {
    if o.content.Leaf? then o.content.data else []
  }

  /** All marks held by the arena's leaves, leaf by leaf in arena order. */
  function MarksOf(os: seq<Octant>): seq<Mark>
  {
    if os == [] then [] else MarksOf(os[..|os| - 1]) + LeafData(os[|os| - 1])
  }

  // ---------------------------------------------------------------------------
  // Containment

  /** The half-open test implies the closed cube. */
  lemma ContainsInCube(o: Octant, mark: Mark)
    requires Contains(o, mark)
    ensures InCube(o, mark.pos)
  {
  }

  /** On one axis, a coordinate inside the cube is no farther along `n` than the far face. */
  lemma TowardBound(n: real, q: real, c: real, e: real)
    requires c - e <= q <= c + e
    ensures n * q <= n * Toward(c, n, e)
  {
    if n < 0.0 {
      assert n * (q - (c - e)) <= 0.0;
    } else {
      assert n * ((c + e) - q) >= 0.0;
    }
  }

  /** Culling is sound: when `collide` rejects a cube, every point of its closed cube
      lies strictly on the negative side of the plane. */
  lemma CulledCubeOutside(o: Octant, plane: Plane, p: Vec3)
    requires InCube(o, p) && !Collide(o, plane)
    ensures Dot(plane.normal, p) < plane.w
  {
    var n := plane.normal;
    assert AxisWithin(o, p, 0) && AxisWithin(o, p, 1) && AxisWithin(o, p, 2);
    TowardBound(n.x, p.x, o.center.x, o.extension);
    TowardBound(n.y, p.y, o.center.y, o.extension);
    TowardBound(n.z, p.z, o.center.z, o.extension);
    DotBelow(n, p, FarCorner(o, n), plane.w);
  }

  /** Summing three per-axis bounds. */
  lemma DotBelow(n: Vec3, p: Vec3, f: Vec3, w: real)
    requires n.x * p.x <= n.x * f.x && n.y * p.y <= n.y * f.y && n.z * p.z <= n.z * f.z
    requires Dot(n, f) < w
    ensures Dot(n, p) < w
  {
  }

  /** Conversely, a cube `collide` accepts has a corner on the plane's non-negative side. */
  lemma KeptCubeReaches(o: Octant, plane: Plane)
    requires o.extension >= 0.0 && Collide(o, plane)
    ensures InCube(o, FarCorner(o, plane.normal)) && Dot(plane.normal, FarCorner(o, plane.normal)) >= plane.w
  {
  }

  /** A mark on the centre of an octant goes to child 0, and that child's half-open
      cube does not contain it although its closed cube does. */
  lemma CentreGoesToLowChild(o: Octant)
    requires o.extension > 0.0
    ensures ChildIndex(o.center, o.center) == 0
    ensures var h := o.extension / 2.0;
            var low := Octant(Add(o.center, ChildOffset(0, h)), h, Leaf([]));
            !Contains(low, Mark(o.center)) && InCube(low, o.center)
  {
    var k := ChildIndex(o.center, o.center);
    AllClear(k, 3);
  }

  /** A point in the closed cube of `o` is in the closed cube of the child it selects. */
  lemma ChildCube(o: Octant, child: Octant, p: Vec3)
    requires InCube(o, p)
    requires Placed(o, child, ChildIndex(p, o.center))
    ensures InCube(child, p)
  {
    var k := ChildIndex(p, o.center);
    assert Bit(k, 0) <==> Get(p, 0) > Get(o.center, 0);
    assert Bit(k, 1) <==> Get(p, 1) > Get(o.center, 1);
    assert Bit(k, 2) <==> Get(p, 2) > Get(o.center, 2);
  }

  // ---------------------------------------------------------------------------
  // Buckets and the split

  lemma {:induction false} BucketMembers(data: seq<Mark>, c: Vec3, k: nat)
    ensures |Bucket(data, c, k)| <= |data|
    ensures forall m :: m in Bucket(data, c, k) ==> m in data && ChildIndex(m.pos, c) == k
  {
    if data != [] {
      BucketMembers(data[..|data| - 1], c, k);
    }
  }

  /** Multiset union of the first `n` buckets. */
  function BucketsUpTo(data: seq<Mark>, c: Vec3, n: nat): multiset<Mark>
  {
    if n == 0 then multiset{} else BucketsUpTo(data, c, n - 1) + multiset(Bucket(data, c, n - 1))
  }

  lemma {:induction false} BucketsUpToSnoc(data: seq<Mark>, m: Mark, c: Vec3, n: nat)
    ensures BucketsUpTo(data + [m], c, n)
         == BucketsUpTo(data, c, n) + (if ChildIndex(m.pos, c) < n then multiset{m} else multiset{})
  {
    assert (data + [m])[..|data + [m]| - 1] == data;
    if n > 0 {
      BucketsUpToSnoc(data, m, c, n - 1);
    }
  }

  lemma {:induction false} BucketsOfNothing(c: Vec3, n: nat)
    ensures BucketsUpTo([], c, n) == multiset{}
  {
    if n > 0 {
      BucketsOfNothing(c, n - 1);
    }
  }

  /** Redistribution moves every mark of the bucket into exactly one child. */
  lemma {:induction false} Partition(data: seq<Mark>, c: Vec3)
    ensures BucketsUpTo(data, c, 8) == multiset(data)
  {
    if data == [] {
      BucketsOfNothing(c, 8);
    } else {
      var init, m := data[..|data| - 1], data[|data| - 1];
      assert data == init + [m];
      Partition(init, c);
      BucketsUpToSnoc(init, m, c, 8);
      assert ChildIndex(m.pos, c) < 8;
      assert multiset(data) == multiset(init) + multiset{m};
    }
  }

  lemma {:induction false} MarksAppend(a: seq<Octant>, b: seq<Octant>)
    ensures MarksOf(a + b) == MarksOf(a) + MarksOf(b)
  {
    if b != [] {
      var init := b[..|b| - 1];
      assert (a + b)[..|a + b| - 1] == a + init;
      assert (a + b)[|a + b| - 1] == b[|b| - 1];
      MarksAppend(a, init);
    } else {
      assert a + b == a;
    }
  }

  /** Replacing octant `k` swaps its leaf marks for the new octant's. */
  lemma {:induction false} MarksUpdate(os: seq<Octant>, k: nat, o: Octant)
    requires k < |os|
    ensures multiset(MarksOf(os[k := o])) + multiset(LeafData(os[k]))
         == multiset(MarksOf(os)) + multiset(LeafData(o))
  {
    var n := |os| - 1;
    var os' := os[k := o];
    var front, front' := os[..n], os'[..n];
    var last, last' := LeafData(os[n]), LeafData(os'[n]);
    assert MarksOf(os) == MarksOf(front) + last;
    assert MarksOf(os') == MarksOf(front') + last';
    assert multiset(MarksOf(os)) == multiset(MarksOf(front)) + multiset(last);
    assert multiset(MarksOf(os')) == multiset(MarksOf(front')) + multiset(last');
    if k == n {
      assert front' == front;
    } else {
      assert front' == front[k := o];
      assert front[k] == os[k] && last' == last;
      MarksUpdate(front, k, o);
      calc {
        multiset(MarksOf(os')) + multiset(LeafData(os[k]));
        multiset(MarksOf(front')) + multiset(LeafData(os[k])) + multiset(last);
        multiset(MarksOf(front)) + multiset(LeafData(o)) + multiset(last);
        multiset(MarksOf(os)) + multiset(LeafData(o));
      }
    }
  }

  lemma {:induction false} ChildrenMarksUpTo(o: Octant, n: nat)
    requires o.content.Leaf? && n <= 8
    ensures multiset(MarksOf(SplitChildren(o)[..n])) == BucketsUpTo(o.content.data, o.center, n)
  {
    if n > 0 {
      var kids := SplitChildren(o);
      assert kids[..n][..n - 1] == kids[..n - 1];
      assert kids[..n][n - 1] == ChildOctant(o, n - 1);
      assert MarksOf(kids[..n]) == MarksOf(kids[..n - 1]) + Bucket(o.content.data, o.center, n - 1);
      ChildrenMarksUpTo(o, n - 1);
    }
  }

  lemma AppendThenReplace(os: seq<Octant>, kids: seq<Octant>, id: nat, p: Octant)
    requires id < |os| && p.content.Parent?
    ensures multiset(MarksOf((os + kids)[id := p])) + multiset(LeafData(os[id]))
         == multiset(MarksOf(os)) + multiset(MarksOf(kids))
  {
    var grown := os + kids;
    assert grown[id] == os[id];
    MarksAppend(os, kids);
    MarksUpdate(grown, id, p);
  }

  /** The children of a split leaf hold exactly the leaf's marks. */
  lemma ChildrenMarks(o: Octant)
    requires o.content.Leaf?
    ensures multiset(MarksOf(SplitChildren(o))) == multiset(o.content.data)
  {
    var kids := SplitChildren(o);
    ChildrenMarksUpTo(o, 8);
    assert kids[..8] == kids;
    Partition(o.content.data, o.center);
  }

  lemma Cancel(a: multiset<Mark>, b: multiset<Mark>, d: multiset<Mark>)
    requires a + d == b + d
    ensures a == b
  {
    forall x
      ensures a[x] == b[x]
    {
      assert (a + d)[x] == (b + d)[x];
    }
  }

  /** A split keeps exactly the same marks. */
  lemma SplitMarks(os: seq<Octant>, id: nat)
    requires id < |os| && os[id].content.Leaf?
    ensures multiset(MarksOf(SplitArena(os, id))) == multiset(MarksOf(os))
    ensures |MarksOf(SplitArena(os, id))| == |MarksOf(os)|
  {
    var o := os[id];
    var data := o.content.data;
    var after := SplitArena(os, id);
    assert after == (os + SplitChildren(o))[id := o.(content := Parent(ChildIds(|os|)))];
    ChildrenMarks(o);
    AppendThenReplace(os, SplitChildren(o), id, o.(content := Parent(ChildIds(|os|))));
    assert LeafData(o) == data;
    Cancel(multiset(MarksOf(after)), multiset(MarksOf(os)), multiset(data));
    assert |multiset(MarksOf(after))| == |MarksOf(after)|;
  }

  /** A split keeps the arena well formed; the new children's parent is `id`. */
  lemma SplitOk(os: seq<Octant>, id: nat, bucket: nat, parent: seq<nat>)
    requires ArenaOk(os, bucket, parent)
    requires id < |os| && os[id].content.Leaf?
    ensures ArenaOk(SplitArena(os, id), bucket, parent + seq(8, _ => id))
  {
    var n := |os|;
    var o := os[id];
    var os' := SplitArena(os, id);
    var parent' := parent + seq(8, _ => id);
    assert |os'| == n + 8;
    forall k | 0 <= k < |os'|
      ensures OctantOk(os', k, bucket)
    {
      assert OctantOk(os, id, bucket);
      if k == id {
        var ch := os'[id].content.children;
        forall j | 0 <= j < 8
          ensures Placed(os'[id], os'[ch[j]], j)
        {
          assert ch[j] == n + j;
          assert os'[ch[j]] == ChildOctant(o, j);
        }
      } else if k < n {
        assert os'[k] == os[k];
        assert OctantOk(os, k, bucket);
        if os[k].content.Parent? {
          var ch := os[k].content.children;
          forall j | 0 <= j < 8
            ensures Placed(os'[k], os'[ch[j]], j)
          {
            assert os'[ch[j]].center == os[ch[j]].center;
            assert os'[ch[j]].extension == os[ch[j]].extension;
          }
        }
      } else {
        var j := k - n;
        assert os'[k] == ChildOctant(o, j);
        var data := o.content.data;
        BucketMembers(data, o.center, j);
        forall m | m in Bucket(data, o.center, j)
          ensures InCube(os'[k], m.pos)
        {
          ChildCube(o, os'[k], m.pos);
        }
      }
    }
    forall k | 0 < k < |os'|
      ensures parent'[k] < k && os'[parent'[k]].content.Parent? && k in os'[parent'[k]].content.children
    {
      if k < n {
        assert parent'[k] == parent[k];
        assert parent[k] != id;
        assert os'[parent[k]] == os[parent[k]];
      } else {
        assert os'[id].content.children[k - n] == k;
      }
    }
  }

  /** The arena after appending `mark` to the bucket of leaf `id`. */
  function PushArena(os: seq<Octant>, id: nat, mark: Mark): (r: seq<Octant>)
    requires id < |os| && os[id].content.Leaf?
    ensures |r| == |os|
    ensures forall j :: 0 <= j < |os| && j != id ==> r[j] == os[j]
    ensures r[id].center == os[id].center && r[id].extension == os[id].extension
    ensures r[id].content.Leaf? && r[id].content.data == os[id].content.data + [mark]
  {
    os[id := os[id].(content := Leaf(os[id].content.data + [mark]))]
  }

  /** Appending a mark inside the cube of a leaf with room keeps the arena well formed. */
  lemma PushOk(os: seq<Octant>, id: nat, mark: Mark, bucket: nat, parent: seq<nat>)
    requires ArenaOk(os, bucket, parent)
    requires id < |os| && os[id].content.Leaf?
    requires |os[id].content.data| < bucket && InCube(os[id], mark.pos)
    ensures ArenaOk(PushArena(os, id, mark), bucket, parent)
  {
    var os' := PushArena(os, id, mark);
    forall k | 0 <= k < |os'|
      ensures OctantOk(os', k, bucket)
    {
      assert OctantOk(os, k, bucket);
      if k != id && os[k].content.Parent? {
        var ch := os[k].content.children;
        forall j | 0 <= j < 8
          ensures Placed(os'[k], os'[ch[j]], j)
        {
          assert Placed(os[k], os[ch[j]], j);
        }
      }
    }
    forall k | 0 < k < |os'|
      ensures parent[k] < k && os'[parent[k]].content.Parent? && k in os'[parent[k]].content.children
    {
      assert os[parent[k]].content.Parent?;
    }
  }

  /** Appending a mark adds exactly that mark to the arena's marks. */
  lemma PushMarks(os: seq<Octant>, id: nat, mark: Mark)
    requires id < |os| && os[id].content.Leaf?
    ensures multiset(MarksOf(PushArena(os, id, mark))) == multiset(MarksOf(os)) + multiset{mark}
    ensures |MarksOf(PushArena(os, id, mark))| == |MarksOf(os)| + 1
  {
    var data := os[id].content.data;
    var o := os[id].(content := Leaf(data + [mark]));
    var after := PushArena(os, id, mark);
    MarksUpdate(os, id, o);
    assert LeafData(o) == data + [mark] && LeafData(os[id]) == data;
    assert multiset(data + [mark]) == multiset(data) + multiset{mark};
    Cancel(multiset(MarksOf(after)), multiset(MarksOf(os)) + multiset{mark}, multiset(data));
    assert |multiset(MarksOf(after))| == |MarksOf(after)|;
  }

  /** `after` extends `before` and keeps the centre and extension of every octant. */
  ghost predicate SameCubes(before: seq<Octant>, after: seq<Octant>)
  {
    |before| <= |after|
    && forall k :: 0 <= k < |before| ==>
         after[k].center == before[k].center && after[k].extension == before[k].extension
  }

  lemma SameCubesTrans(a: seq<Octant>, b: seq<Octant>, c: seq<Octant>)
    requires SameCubes(a, b) && SameCubes(b, c)
    ensures SameCubes(a, c)
  {
  }

  /** A push does not move or resize any octant. */
  lemma PushKeepsCubes(os: seq<Octant>, id: nat, mark: Mark)
    requires id < |os| && os[id].content.Leaf?
    ensures SameCubes(os, PushArena(os, id, mark))
  {
  }

  /** A split does not move or resize any existing octant. */
  lemma SplitKeepsCubes(os: seq<Octant>, id: nat)
    requires id < |os| && os[id].content.Leaf?
    ensures SameCubes(os, SplitArena(os, id))
  {
  }

  /** A leaf's bucket is part of the arena's marks. */
  lemma {:induction false} LeafInMarks(os: seq<Octant>, k: nat)
    requires k < |os|
    ensures multiset(LeafData(os[k])) <= multiset(MarksOf(os))
  {
    var n := |os| - 1;
    assert MarksOf(os) == MarksOf(os[..n]) + LeafData(os[n]);
    assert multiset(MarksOf(os)) == multiset(MarksOf(os[..n])) + multiset(LeafData(os[n]));
    if k < n {
      LeafInMarks(os[..n], k);
      assert os[..n][k] == os[k];
    }
  }

  /** Every mark of the arena sits in some leaf's bucket. */
  lemma {:induction false} MarkInSomeLeaf(os: seq<Octant>, m: Mark)
    requires m in MarksOf(os)
    ensures exists k :: 0 <= k < |os| && os[k].content.Leaf? && m in os[k].content.data
  {
    var n := |os| - 1;
    if m in MarksOf(os[..n]) {
      MarkInSomeLeaf(os[..n], m);
      var k :| 0 <= k < n && os[..n][k].content.Leaf? && m in os[..n][k].content.data;
      assert os[k] == os[..n][k];
    } else {
      assert m in LeafData(os[n]);
    }
  }

  lemma ArenaLinked(os: seq<Octant>, bucket: nat, parent: seq<nat>)
    requires ArenaOk(os, bucket, parent)
    ensures Linked(os)
  {
    forall k | 0 <= k < |os| && os[k].content.Parent?
      ensures |os[k].content.children| == 8
      ensures forall j :: 0 <= j < 8 ==> k < os[k].content.children[j] < |os|
    {
      assert OctantOk(os, k, bucket);
    }
  }

  // ---------------------------------------------------------------------------
  // Termination of insertion

  /** The smallest Chebyshev distance from `p` to a mark of `ms` at another position
      (1 when there is none). */
  ghost function MinSep(p: Vec3, ms: seq<Mark>): (r: real)
    ensures r > 0.0
    ensures forall i :: 0 <= i < |ms| && ms[i].pos != p ==> r <= Chebyshev(p, ms[i].pos)
  {
    if ms == [] then 1.0
    else
      var rest := MinSep(p, ms[1..]);
      if ms[0].pos == p then rest
      else
        ChebyshevPositive(p, ms[0].pos);
        if Chebyshev(p, ms[0].pos) < rest then Chebyshev(p, ms[0].pos) else rest
  }

  /** How many more halvings of the half-extent `e` keep `2e` at least `sep`. */
  ghost function Budget(e: real, sep: real): nat
    requires e >= 0.0 && sep > 0.0
  {
    assert 2.0 * e / sep >= 0.0;
    (2.0 * e / sep).Floor
  }

  /** Halving the extent never raises the budget, and lowers it while the cube is
      still at least `sep` wide. */
  lemma HalvingBudget(e: real, sep: real)
    requires e >= 0.0 && sep > 0.0
    ensures Budget(e / 2.0, sep) <= Budget(e, sep)
    ensures 2.0 * (e / 2.0) >= sep ==> Budget(e / 2.0, sep) + 1 <= Budget(e, sep)
  {
    var y := 2.0 * e / sep;
    assert 2.0 * (e / 2.0) / sep == y / 2.0;
    var a := (y / 2.0).Floor;
    assert (2 * a) as real <= y;
    if 2.0 * (e / 2.0) >= sep {
      assert y / 2.0 >= 1.0;
    }
  }

  lemma {:induction false} AllEqualCount(data: seq<Mark>, v: Mark)
    requires forall m :: m in data ==> m == v
    ensures multiset(data)[v] == |data|
  {
    if data != [] {
      var rest := data[1..];
      assert data == [data[0]] + rest;
      assert data[0] in data;
      assert forall m :: m in rest ==> m in data;
      AllEqualCount(rest, v);
      assert multiset(data) == multiset{data[0]} + multiset(rest);
    }
  }

  /** A full leaf on the path of `p` is at least `MinSep` wide, when fewer than
      `bucket` stored marks coincide with `p`. */
  lemma FullLeafIsWide(o: Octant, p: Vec3, bucket: nat, ms: seq<Mark>)
    requires o.content.Leaf? && InCube(o, p)
    requires forall m :: m in o.content.data ==> InCube(o, m.pos)
    requires |o.content.data| >= bucket
    requires multiset(o.content.data) <= multiset(ms)
    requires multiset(ms)[Mark(p)] < bucket
    ensures 2.0 * o.extension >= MinSep(p, ms)
  {
    var data := o.content.data;
    if forall m :: m in data ==> m == Mark(p) {
      AllEqualCount(data, Mark(p));
      assert false;
    }
    var m :| m in data && m != Mark(p);
    assert m in multiset(ms);
    var i :| 0 <= i < |ms| && ms[i] == m;
    assert InCube(o, m.pos);
  }
}
