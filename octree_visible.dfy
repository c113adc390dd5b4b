/** What `Octree::get_visible` emits, as a function of the arena: the marks of the
    visible leaves in visiting order, of which the capacity-bounded buffer keeps a
    prefix. */
module OctreeVisibility {
  import opened Geometry
  import opened OctreeArena

  /** The first `n` elements of `s`, or all of `s` when it is shorter. */
  function Take<T>(s: seq<T>, n: nat): seq<T>
  {
    if n < |s| then s[..n] else s
  }

  /** Filling a bounded buffer with `a` and then with `b` keeps a prefix of `a + b`. */
  lemma TakeConcat<T>(a: seq<T>, b: seq<T>, n: nat)
    ensures |Take(a, n)| <= n
    ensures Take(a + b, n) == Take(a, n) + Take(b, n - |Take(a, n)|)
  {
    if n < |a| {
      assert (a + b)[..n] == a[..n];
    } else if n - |a| < |b| {
      assert (a + b)[..n] == a + b[..n - |a|];
    }
  }

  /** Squared distance from octant `id`'s centre to the viewpoint (0 outside the arena). */
  function Key(os: seq<Octant>, pos: Vec3, id: nat): real
  {
    if id < |os| then DistanceSquared(os[id].center, pos) else 0.0
  }

  /** Farthest first: keys never increase along `s`. */
  ghost predicate FarthestFirst(os: seq<Octant>, pos: Vec3, s: seq<nat>)
  {
    forall i, j :: 0 <= i < j < |s| ==> Key(os, pos, s[i]) >= Key(os, pos, s[j])
  }

  function InsertByDistance(os: seq<Octant>, pos: Vec3, x: nat, s: seq<nat>): (r: seq<nat>)
    ensures multiset(r) == multiset(s) + multiset{x}
    ensures FarthestFirst(os, pos, s) ==> FarthestFirst(os, pos, r)
  {
    if s == [] then [x]
    else if Key(os, pos, x) >= Key(os, pos, s[0]) then [x] + s
    else
      var rest := InsertByDistance(os, pos, x, s[1..]);
      assert s == [s[0]] + s[1..];
      InsertByDistanceHead(os, pos, x, s, rest);
      [s[0]] + rest
  }

  /** The step of `InsertByDistance` that keeps the order: the head of `s`, farther
      than `x`, may precede `x` inserted into the tail. */
  lemma InsertByDistanceHead(os: seq<Octant>, pos: Vec3, x: nat, s: seq<nat>, rest: seq<nat>)
    requires s != [] && Key(os, pos, x) < Key(os, pos, s[0])
    requires multiset(rest) == multiset(s[1..]) + multiset{x}
    requires FarthestFirst(os, pos, s) ==> FarthestFirst(os, pos, rest)
    ensures FarthestFirst(os, pos, s) ==> FarthestFirst(os, pos, [s[0]] + rest)
  {
    if FarthestFirst(os, pos, s) {
      var r := [s[0]] + rest;
      forall i, j | 0 <= i < j < |r|
        ensures Key(os, pos, r[i]) >= Key(os, pos, r[j])
      {
        if i == 0 {
          var y := rest[j - 1];
          assert y in multiset(rest);
          if y != x {
            assert y in s[1..];
            var k :| 0 <= k < |s[1..]| && s[1..][k] == y;
            assert s[k + 1] == y;
          }
        } else {
          assert r[i] == rest[i - 1] && r[j] == rest[j - 1];
        }
      }
    }
  }

  /** Sequences with equal multisets have equal lengths and the same members. */
  lemma SameMembers(a: seq<nat>, b: seq<nat>)
    requires multiset(a) == multiset(b)
    ensures |a| == |b|
    ensures forall i :: 0 <= i < |a| ==> a[i] in b
  {
    assert |multiset(a)| == |a| && |multiset(b)| == |b|;
    forall i | 0 <= i < |a|
      ensures a[i] in b
    {
      assert a[i] in multiset(a);
    }
  }

  /** The children in visiting order: a permutation of `ids` sorted by non-increasing
      squared distance from `pos`. The source uses an unstable sort, so the order
      among equal distances is unspecified; this insertion sort is one such order. */
  function SortByDistance(os: seq<Octant>, pos: Vec3, ids: seq<nat>): (r: seq<nat>)
    ensures multiset(r) == multiset(ids)
    ensures |r| == |ids|
    ensures forall i :: 0 <= i < |r| ==> r[i] in ids
    ensures FarthestFirst(os, pos, r)
  {
    if ids == [] then []
    else
      var r := InsertByDistance(os, pos, ids[0], SortByDistance(os, pos, ids[1..]));
      assert ids == [ids[0]] + ids[1..];
      SameMembers(r, ids);
      r
  }

  /** The marks `get_visible_rec(id)` would emit into an unbounded buffer: a leaf's
      whole bucket; for a parent, its children farthest first, skipping every child
      outside the frustum together with its subtree. The octant `id` itself is not
      plane-tested. */
  ghost function Traverse(os: seq<Octant>, id: nat, pos: Vec3, frustum: seq<Plane>): seq<Mark>
    requires Linked(os) && id < |os|
    decreases |os| - id, 1, 0
  {
    match os[id].content
    case Leaf(data) => data
    case Parent(children) => Gather(os, id, SortByDistance(os, pos, children), pos, frustum)
  }

  /** The marks emitted for the children `ids` of `from`, in order. */
  ghost function Gather(os: seq<Octant>, from: nat, ids: seq<nat>, pos: Vec3, frustum: seq<Plane>): seq<Mark>
    requires Linked(os) && from < |os|
    requires forall i :: 0 <= i < |ids| ==> from < ids[i] < |os|
    decreases |os| - from, 0, |ids|
  {
    if ids == [] then []
    else
      var last := ids[|ids| - 1];
      Gather(os, from, ids[..|ids| - 1], pos, frustum)
        + (if InFrustum(os[last], frustum) then Traverse(os, last, pos, frustum) else [])
  }

  /** Visiting one more child extends what was emitted by that child's marks, if it
      passes the frustum. */
  lemma GatherStep(os: seq<Octant>, from: nat, ids: seq<nat>, i: nat, pos: Vec3, frustum: seq<Plane>)
    requires Linked(os) && from < |os| && i < |ids|
    requires forall j :: 0 <= j < |ids| ==> from < ids[j] < |os|
    ensures Gather(os, from, ids[..i + 1], pos, frustum)
         == Gather(os, from, ids[..i], pos, frustum)
            + (if InFrustum(os[ids[i]], frustum) then Traverse(os, ids[i], pos, frustum) else [])
  {
    assert ids[..i + 1][..i] == ids[..i];
  }

  /** The marks child `ids[i]` adds when visited (none when it is culled). */
  ghost function ChildMarks(os: seq<Octant>, from: nat, ids: seq<nat>, i: nat, pos: Vec3, frustum: seq<Plane>): seq<Mark>
    requires Linked(os) && from < |os| && i < |ids|
    requires forall j :: 0 <= j < |ids| ==> from < ids[j] < |os|
  {
    if InFrustum(os[ids[i]], frustum) then Traverse(os, ids[i], pos, frustum) else []
  }

  /** What a buffer with `room` free slots keeps after one more child: the prefix
      kept so far, then as much of the child's marks as still fits. */
  lemma {:induction false} GatherTakeStep(os: seq<Octant>, from: nat, ids: seq<nat>, i: nat, pos: Vec3, frustum: seq<Plane>, room: nat)
    requires Linked(os) && from < |os| && i < |ids|
    requires forall j :: 0 <= j < |ids| ==> from < ids[j] < |os|
    ensures |Take(Gather(os, from, ids[..i], pos, frustum), room)| <= room
    ensures Take(Gather(os, from, ids[..i + 1], pos, frustum), room)
         == Take(Gather(os, from, ids[..i], pos, frustum), room)
            + Take(ChildMarks(os, from, ids, i, pos, frustum),
                   room - |Take(Gather(os, from, ids[..i], pos, frustum), room)|)
  {
    GatherStep(os, from, ids, i, pos, frustum);
    TakeConcat(Gather(os, from, ids[..i], pos, frustum), ChildMarks(os, from, ids, i, pos, frustum), room);
  }

  /** Every emitted mark is stored in a leaf, and that leaf is the starting octant
      itself or passed all planes. */
  lemma TraverseSources(os: seq<Octant>, id: nat, pos: Vec3, frustum: seq<Plane>, m: Mark)
    requires Linked(os) && id < |os|
    requires m in Traverse(os, id, pos, frustum)
    ensures exists k :: id <= k < |os| && os[k].content.Leaf? && m in os[k].content.data
                        && (k == id || InFrustum(os[k], frustum))
    decreases |os| - id, 1, 0
  {
    if os[id].content.Parent? {
      GatherSources(os, id, SortByDistance(os, pos, os[id].content.children), pos, frustum, m);
    }
  }

  lemma GatherSources(os: seq<Octant>, from: nat, ids: seq<nat>, pos: Vec3, frustum: seq<Plane>, m: Mark)
    requires Linked(os) && from < |os|
    requires forall i :: 0 <= i < |ids| ==> from < ids[i] < |os|
    requires m in Gather(os, from, ids, pos, frustum)
    ensures exists k :: from < k < |os| && os[k].content.Leaf? && m in os[k].content.data
                        && InFrustum(os[k], frustum)
    decreases |os| - from, 0, |ids|
  {
    var last := ids[|ids| - 1];
    var init := ids[..|ids| - 1];
    if m in Gather(os, from, init, pos, frustum) {
      GatherSources(os, from, init, pos, frustum, m);
    } else {
      assert InFrustum(os[last], frustum) && m in Traverse(os, last, pos, frustum);
      TraverseSources(os, last, pos, frustum, m);
    }
  }

  /** A child in the list that passes the frustum contributes everything it emits. */
  lemma {:induction false} GatherCovers(os: seq<Octant>, from: nat, ids: seq<nat>, pos: Vec3, frustum: seq<Plane>, x: nat, m: Mark)
    requires Linked(os) && from < |os|
    requires forall i :: 0 <= i < |ids| ==> from < ids[i] < |os|
    requires x in ids && x < |os| && InFrustum(os[x], frustum)
    requires m in Traverse(os, x, pos, frustum)
    ensures m in Gather(os, from, ids, pos, frustum)
  {
    var last := ids[|ids| - 1];
    var init := ids[..|ids| - 1];
    if x != last {
      assert x in init;
      GatherCovers(os, from, init, pos, frustum, x, m);
    }
  }

  /** Everything octant `k` emits is emitted from the root when no octant is culled. */
  lemma {:induction false} ReachedFromRoot(os: seq<Octant>, parent: seq<nat>, k: nat, pos: Vec3, frustum: seq<Plane>, m: Mark)
    requires Linked(os) && Rooted(os, parent) && k < |os|
    requires forall i :: 0 <= i < |os| ==> InFrustum(os[i], frustum)
    requires m in Traverse(os, k, pos, frustum)
    ensures m in Traverse(os, 0, pos, frustum)
    decreases k
  {
    if k > 0 {
      var p := parent[k];
      assert p < k && os[p].content.Parent? && k in os[p].content.children;
      var children := os[p].content.children;
      var order := SortByDistance(os, pos, children);
      assert k in multiset(order);
      forall i | 0 <= i < |order|
        ensures p < order[i] < |os|
      {
        assert order[i] in children;
      }
      assert Traverse(os, p, pos, frustum) == Gather(os, p, order, pos, frustum);
      GatherCovers(os, p, order, pos, frustum, k, m);
      ReachedFromRoot(os, parent, p, pos, frustum, m);
    }
  }

  /** With a frustum that culls nothing, every stored mark is emitted. */
  lemma AllMarksVisible(os: seq<Octant>, parent: seq<nat>, pos: Vec3, frustum: seq<Plane>, m: Mark)
    requires Linked(os) && Rooted(os, parent) && |os| > 0
    requires forall i :: 0 <= i < |os| ==> InFrustum(os[i], frustum)
    requires m in MarksOf(os)
    ensures m in Traverse(os, 0, pos, frustum)
  {
    MarkInSomeLeaf(os, m);
    var k :| 0 <= k < |os| && os[k].content.Leaf? && m in os[k].content.data;
    ReachedFromRoot(os, parent, k, pos, frustum, m);
  }

  /** Planes with a zero normal and a non-positive offset cull nothing. */
  predicate OpenFrustum(frustum: seq<Plane>)
  {
    forall i :: 0 <= i < |frustum| ==> frustum[i].normal == ZERO && frustum[i].w <= 0.0
  }

  lemma OpenFrustumPassesAll(o: Octant, frustum: seq<Plane>)
    requires OpenFrustum(frustum)
    ensures InFrustum(o, frustum)
  {
    forall i | 0 <= i < |frustum|
      ensures Collide(o, frustum[i])
    {
      assert frustum[i].normal == ZERO;
    }
  }

  /** A query with planes that cull nothing, into a buffer with room for everything the
      traversal emits, returns every stored mark. */
  lemma OpenQueryReturnsAll(os: seq<Octant>, parent: seq<nat>, pos: Vec3, frustum: seq<Plane>, cap: nat, m: Mark)
    requires Linked(os) && Rooted(os, parent) && |os| > 0
    requires OpenFrustum(frustum) && |Traverse(os, 0, pos, frustum)| <= cap
    requires m in MarksOf(os)
    ensures m in Take(Traverse(os, 0, pos, frustum), cap)
  {
    forall i | 0 <= i < |os|
      ensures InFrustum(os[i], frustum)
    {
      OpenFrustumPassesAll(os[i], frustum);
    }
    AllMarksVisible(os, parent, pos, frustum, m);
  }
}
