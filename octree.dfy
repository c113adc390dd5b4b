/** The bucketed octree of `src/marker/octree.rs`: an arena of octants updated in
    place by `Insert`, counted by `Count`, and queried by `GetVisible`, which fills a
    caller-owned, capacity-bounded buffer. */
module MarkerOctree {
  import opened Geometry
  import opened Bits
  import opened OctreeArena
  import opened OctreeVisibility

  /** The caller's `Vec<MarkRaw>`: allocated once with a fixed capacity, truncated and
      refilled on every query, never grown. */
  class MarkBuffer {
    const items: array<Mark>
    var len: nat

    ghost predicate Valid()
      reads this
    {
      len <= items.Length
    }

    ghost function Contents(): seq<Mark>
      reads this, items
      requires Valid()
    {
      items[..len]
    }

    constructor (capacity: nat, filler: Mark)
      ensures Valid() && fresh(items)
      ensures items.Length == capacity && Contents() == []
    {
      items := new Mark[capacity](_ => filler);
      len := 0;
    }

    /** `vec.truncate(0)`. */
    method Clear()
      requires Valid()
      modifies this
      ensures Valid() && Contents() == []
    {
      len := 0;
    }

    /** `vec.extend(s)` when `s` fits in the remaining capacity. */
    method Extend(s: seq<Mark>)
      requires Valid() && len + |s| <= items.Length
      modifies this, items
      ensures Valid() && Contents() == old(Contents()) + s
    {
      for i := 0 to |s|
        invariant len == old(len)
        invariant items[..len] == old(items[..len])
        invariant items[len..len + i] == s[..i]
      {
        items[len + i] := s[i];
        assert items[len..len + i + 1] == items[len..len + i] + [s[i]];
      }
      assert items[..len + |s|] == items[..len] + items[len..len + |s|];
      len := len + |s|;
    }
  }

  /** The child-selection loop shared by `insert` and the split: bit `i` is set iff
      coordinate `i` of `p` is strictly greater than that of the centre `c`. */
  method SelectChild(p: Vec3, c: Vec3) returns (childId: nat)
    ensures childId == ChildIndex(p, c)
  {
    var above := Above(p, c);
    childId := 0;
    for i := 0 to 3
      invariant childId == PackBits(above[..i])
    {
      assert above[..i + 1][..i] == above[..i];
      if Get(p, i) > Get(c, i) {
        childId := childId + Pow2(i);
      }
    }
    assert above[..3] == above;
  }

  /** The offset loop of the split: `+h` on axis `j` iff bit `j` of `k` is set. */
  method OffsetOf(k: nat, h: real) returns (offset: Vec3)
    ensures offset == ChildOffset(k, h)
  {
    var target := ChildOffset(k, h);
    offset := ZERO;
    for j := 0 to 3
      invariant forall a :: 0 <= a < j ==> Get(offset, a) == Get(target, a)
    {
      var v := if Bit(k, j) then h else -h;
      offset := if j == 0 then offset.(x := v) else if j == 1 then offset.(y := v) else offset.(z := v);
    }
    assert Get(offset, 0) == Get(target, 0) && Get(offset, 1) == Get(target, 1) && Get(offset, 2) == Get(target, 2);
  }

  /** The frustum loop of `get_visible_rec`: the octant passes unless some plane
      rejects it. */
  method PassesFrustum(o: Octant, frustum: seq<Plane>) returns (visible: bool)
    ensures visible == InFrustum(o, frustum)
  {
    for i := 0 to |frustum|
      invariant forall j :: 0 <= j < i ==> Collide(o, frustum[j])
    {
      if !Collide(o, frustum[i]) {
        return false;
      }
    }
    return true;
  }

  /** The redistribution loop of the split: each mark of `data` is appended to the
      bucket of the child it descends to. */
  method DealMarks(data: seq<Mark>, center: Vec3) returns (childrenData: seq<seq<Mark>>)
    ensures |childrenData| == 8
    ensures forall k :: 0 <= k < 8 ==> childrenData[k] == Bucket(data, center, k)
  {
    childrenData := seq(8, _ => []);
    for i := 0 to |data|
      invariant |childrenData| == 8
      invariant forall k :: 0 <= k < 8 ==> childrenData[k] == Bucket(data[..i], center, k)
    {
      assert data[..i + 1][..i] == data[..i];
      var childId := SelectChild(data[i].pos, center);
      childrenData := childrenData[childId := childrenData[childId] + [data[i]]];
    }
    assert data[..|data|] == data;
  }

  /** The child-building loop of the split: `children_data.pop()` hands out the
      buckets from the last, so the `i`-th child built is child `7 - i`. */
  method BuildChildren(o: Octant, childrenData: seq<seq<Mark>>) returns (children: seq<Octant>)
    requires o.content.Leaf?
    requires |childrenData| == 8
    requires forall k :: 0 <= k < 8 ==> childrenData[k] == Bucket(o.content.data, o.center, k)
    ensures |children| == 8
    ensures forall j :: 0 <= j < 8 ==> children[j] == ChildOctant(o, 7 - j)
  {
    var half := o.extension / 2.0;
    children := [];
    for i := 0 to 8
      invariant |children| == i
      invariant forall j :: 0 <= j < i ==> children[j] == ChildOctant(o, 7 - j)
    {
      var offset := OffsetOf(7 - i, half);
      children := children + [Octant(Add(o.center, offset), half, Leaf(childrenData[7 - i]))];
    }
  }

  class Octree {
    const root: nat
    const bucketSize: nat
    var octants: seq<Octant>
    /** The octant each non-root octant was split from. */
    ghost var parentOf: seq<nat>

    ghost predicate Valid()
      reads this
    {
      root == 0 && ArenaOk(octants, bucketSize, parentOf)
    }

    /** Every mark the tree holds. */
    ghost function Marks(): seq<Mark>
      reads this
    {
      MarksOf(octants)
    }

    /** `Octree::new`: a single empty leaf of half-extent 50 centred on the origin. */
    constructor (bucketSize: nat)
      ensures Valid() && this.bucketSize == bucketSize
      ensures octants == [Octant(ZERO, BASE_EXTENSION, Leaf([]))]
      ensures Marks() == []
    {
      root := 0;
      this.bucketSize := bucketSize;
      octants := [Octant(ZERO, BASE_EXTENSION, Leaf([]))];
      parentOf := [0];
      new;
      assert MarksOf(octants) == MarksOf(octants[..0]) + [];
    }

    /** The split branch of `insert`: the marks of leaf `id` are dealt into 8 buckets,
        the children are built in reverse and popped back into the arena, so child `k`
        lands at index `|octants| + k` with offset bits `k`, and `id` becomes their parent. */
    method Split(id: nat)
      requires Valid() && id < |octants| && octants[id].content.Leaf?
      modifies this
      ensures octants == SplitArena(old(octants), id)
      ensures parentOf == old(parentOf) + seq(8, _ => id)
      ensures Valid()
      ensures octants[id].content.Parent? && octants[id].extension == old(octants[id].extension)
      ensures multiset(Marks()) == multiset(old(Marks())) && |Marks()| == |old(Marks())|
      ensures SameCubes(old(octants), octants)
    {
      var o := octants[id];
      var childrenData := DealMarks(o.content.data, o.center);
      var children := BuildChildren(o, childrenData);

      var n := |octants|;
      var childrenIds: seq<nat> := [];
      assert octants[..n] == octants;
      for i := 0 to 8
        invariant |childrenIds| == i && |octants| == n + i
        invariant octants[..n] == old(octants) && parentOf == old(parentOf)
        invariant forall j :: 0 <= j < i ==> childrenIds[j] == n + j
        invariant forall j :: 0 <= j < i ==> octants[n + j] == ChildOctant(o, j)
      {
        childrenIds := childrenIds + [|octants|];
        // `children.pop()` yields child `7 - (7 - i) == i`
        octants := octants + [children[7 - i]];
      }
      assert childrenIds == ChildIds(n);
      assert octants == old(octants) + SplitChildren(o);
      octants := octants[id := o.(content := Parent(childrenIds))];
      parentOf := parentOf + seq(8, _ => id);
      SplitOk(old(octants), id, bucketSize, old(parentOf));
      SplitMarks(old(octants), id);
      SplitKeepsCubes(old(octants), id);
    }

    /** `Octree::insert`. A mark outside the root's half-open cube is dropped.
        Otherwise the walk descends by `ChildIndex` to a leaf, appends the mark when the
        bucket has room, and splits a full leaf and descends again. The walk ends when
        fewer than `bucketSize` stored marks coincide with the new one: splitting then
        eventually separates it from the others. */
    method Insert(mark: Mark)
      requires Valid()
      requires Contains(octants[root], mark) ==> multiset(Marks())[mark] < bucketSize
      modifies this
      ensures Valid()
      ensures !Contains(old(octants[root]), mark) ==> octants == old(octants)
      ensures Contains(old(octants[root]), mark) ==>
                multiset(Marks()) == multiset(old(Marks())) + multiset{mark}
                && |Marks()| == |old(Marks())| + 1
                && mark in Marks()
      ensures SameCubes(old(octants), octants)
    {
      if !Contains(octants[root], mark) {
        return;
      }
      ghost var start := Marks();
      ghost var sep := MinSep(mark.pos, start);
      ContainsInCube(octants[root], mark);
      var id: nat := root;
      while true
        invariant Valid()
        invariant id < |octants| && InCube(octants[id], mark.pos)
        invariant multiset(Marks()) == multiset(start) && |Marks()| == |start|
        invariant SameCubes(old(octants), octants)
        decreases Budget(octants[id].extension, sep) + (if Full(octants[id]) then 1 else 0), |octants| - id
      {
        assert OctantOk(octants, id, bucketSize);
        if octants[id].content.Parent? {
          var childId := SelectChild(mark.pos, octants[id].center);
          Descend(id, childId, mark, start, sep);
          id := octants[id].content.children[childId];
        } else if |octants[id].content.data| < bucketSize {
          ghost var before := octants;
          Push(id, mark);
          SameCubesTrans(old(octants), before, octants);
          assert mark in multiset(Marks());
          return;
        } else {
          ghost var before := octants;
          Split(id);
          SameCubesTrans(old(octants), before, octants);
        }
      }
    }

    /** The push branch of `insert`: the mark is appended to the bucket of leaf `id`,
        which has room and whose cube holds it. */
    method Push(id: nat, mark: Mark)
      requires Valid() && id < |octants| && octants[id].content.Leaf?
      requires |octants[id].content.data| < bucketSize && InCube(octants[id], mark.pos)
      modifies this
      ensures octants == PushArena(old(octants), id, mark) && parentOf == old(parentOf)
      ensures Valid()
      ensures multiset(Marks()) == multiset(old(Marks())) + multiset{mark}
      ensures |Marks()| == |old(Marks())| + 1
      ensures SameCubes(old(octants), octants)
    {
      PushOk(octants, id, mark, bucketSize, parentOf);
      PushMarks(octants, id, mark);
      PushKeepsCubes(octants, id, mark);
      var o := octants[id];
      octants := octants[id := o.(content := Leaf(o.content.data + [mark]))];
    }

    /** Full leaves are what the walk must split. */
    ghost predicate Full(o: Octant)
      reads this
    {
      o.content.Leaf? && |o.content.data| >= bucketSize
    }

    /** One descent step of `Insert`: the child chosen by `ChildIndex` contains the
        point, and the walk's measure drops. */
    lemma Descend(id: nat, childId: nat, mark: Mark, start: seq<Mark>, sep: real)
      requires Valid() && id < |octants| && octants[id].content.Parent?
      requires |octants[id].content.children| == 8
      requires InCube(octants[id], mark.pos) && childId == ChildIndex(mark.pos, octants[id].center)
      requires multiset(Marks()) == multiset(start) && multiset(start)[mark] < bucketSize
      requires sep == MinSep(mark.pos, start)
      ensures octants[id].content.children[childId] < |octants|
      ensures InCube(octants[octants[id].content.children[childId]], mark.pos)
      ensures octants[id].content.children[childId] > id
      ensures Budget(octants[octants[id].content.children[childId]].extension, sep)
                + (if Full(octants[octants[id].content.children[childId]]) then 1 else 0)
              <= Budget(octants[id].extension, sep)
    {
      var o := octants[id];
      assert OctantOk(octants, id, bucketSize);
      var next := o.content.children[childId];
      var child := octants[next];
      assert Placed(o, child, childId);
      ChildCube(o, child, mark.pos);
      assert OctantOk(octants, next, bucketSize);
      HalvingBudget(o.extension, sep);
      if Full(child) {
        LeafInMarks(octants, next);
        FullLeafIsWide(child, mark.pos, bucketSize, start);
      }
    }

    /** `Octree::count`: the number of marks held by all leaves. */
    method Count() returns (sum: nat)
      ensures sum == |Marks()|
    {
      sum := 0;
      for i := 0 to |octants|
        invariant sum == |MarksOf(octants[..i])|
      {
        assert octants[..i + 1][..i] == octants[..i];
        if octants[i].content.Leaf? {
          sum := sum + |octants[i].content.data|;
        }
      }
      assert octants[..|octants|] == octants;
    }

    /** `Octree::get_visible`: the buffer is emptied, then holds the first marks, up to
        its capacity, of the visible leaves in farthest-first order. Each of them is
        stored in the root leaf or in a leaf that passed every plane. */
    method GetVisible(buf: MarkBuffer, pos: Vec3, frustum: seq<Plane>)
      requires Valid() && buf.Valid()
      modifies buf, buf.items
      ensures buf.Valid()
      ensures Linked(octants)
      ensures buf.Contents() == Take(Traverse(octants, root, pos, frustum), buf.items.Length)
      ensures forall m :: m in buf.Contents() ==>
                exists k :: 0 <= k < |octants| && octants[k].content.Leaf? && m in octants[k].content.data
                            && (k == root || InFrustum(octants[k], frustum))
    {
      ArenaLinked(octants, bucketSize, parentOf);
      buf.Clear();
      GetVisibleRec(buf, root, pos, frustum);
      forall m | m in buf.Contents()
        ensures exists k :: 0 <= k < |octants| && octants[k].content.Leaf? && m in octants[k].content.data
                            && (k == root || InFrustum(octants[k], frustum))
      {
        TraverseSources(octants, root, pos, frustum, m);
      }
    }

    /** `Octree::get_visible_rec`: appends to the buffer what `Traverse(id)` emits, cut
        off at the buffer's capacity; nothing once the buffer is full. */
    method GetVisibleRec(buf: MarkBuffer, id: nat, pos: Vec3, frustum: seq<Plane>)
      requires Linked(octants) && buf.Valid() && id < |octants|
      modifies buf, buf.items
      decreases |octants| - id, 2
      ensures buf.Valid()
      ensures buf.Contents()
           == old(buf.Contents()) + Take(Traverse(octants, id, pos, frustum), buf.items.Length - old(buf.len))
    {
      if buf.len == buf.items.Length {
        return;
      }
      match octants[id].content {
        case Parent(children) =>
          var order := SortByDistance(octants, pos, children);
          VisitChildren(buf, id, order, pos, frustum);
        case Leaf(data) =>
          var end := if buf.items.Length - buf.len < |data| then buf.items.Length - buf.len else |data|;
          buf.Extend(data[..end]);
      }
    }

    /** The child loop of `get_visible_rec`, over the children of `id` in `order`. */
    method VisitChildren(buf: MarkBuffer, id: nat, order: seq<nat>, pos: Vec3, frustum: seq<Plane>)
      requires Linked(octants) && buf.Valid() && id < |octants|
      requires forall j :: 0 <= j < |order| ==> id < order[j] < |octants|
      modifies buf, buf.items
      decreases |octants| - id, 1
      ensures buf.Valid()
      ensures buf.Contents()
           == old(buf.Contents()) + Take(Gather(octants, id, order, pos, frustum), buf.items.Length - old(buf.len))
    {
      ghost var before := buf.Contents();
      ghost var room := buf.items.Length - buf.len;
      for i := 0 to |order|
        invariant buf.Valid()
        invariant buf.Contents() == before + Take(Gather(octants, id, order[..i], pos, frustum), room)
      {
        VisitNext(buf, id, order, i, pos, frustum, before, room);
      }
      assert order[..|order|] == order;
    }

    /** One iteration of the child loop: child `order[i]` is visited only if it passes
        every plane of the frustum, and the buffer then holds the prefix of what the
        first `i + 1` children emit. */
    method VisitNext(buf: MarkBuffer, id: nat, order: seq<nat>, i: nat, pos: Vec3, frustum: seq<Plane>,
                     ghost before: seq<Mark>, ghost room: nat)
      requires Linked(octants) && buf.Valid() && id < |octants| && i < |order|
      requires forall j :: 0 <= j < |order| ==> id < order[j] < |octants|
      requires room == buf.items.Length - |before|
      requires buf.Contents() == before + Take(Gather(octants, id, order[..i], pos, frustum), room)
      modifies buf, buf.items
      decreases |octants| - id, 0
      ensures buf.Valid()
      ensures buf.Contents() == before + Take(Gather(octants, id, order[..i + 1], pos, frustum), room)
    {
      ghost var emitted := Take(Gather(octants, id, order[..i], pos, frustum), room);
      ghost var current := buf.Contents();
      ghost var tail := Take(ChildMarks(octants, id, order, i, pos, frustum), room - |emitted|);
      GatherTakeStep(octants, id, order, i, pos, frustum, room);
      assert |current| == buf.len;
      var childId := order[i];
      var visible := PassesFrustum(octants[childId], frustum);
      if visible {
        GetVisibleRec(buf, childId, pos, frustum);
      } else {
        assert buf.Contents() == current + [];
      }
      assert buf.Contents() == current + tail;
      assert current + tail == before + (emitted + tail);
    }
  }
}
