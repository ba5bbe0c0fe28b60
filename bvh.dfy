/** The bounding volume hierarchy (src/bvh.rs): `BVHNode::new` recursing over
    `[start, end)` of a vector of objects, and the comparators it sorts
    with. Traversal is `Hittables.Hit` on a `BvhNode`. */
module Bvhs {
  import opened Vectors
  import opened Util
  import opened Aabbs
  import opened Hittables
  import opened HittableLists

  /** `std::cmp::Ordering`. */
  datatype Ordering = Less | Equal | Greater

  /** The sort key of `box_compare`: the minimum corner of the object's box
      at times `(0, 0)` on the given axis. An object without a box has no
      key in the source (a panic); it reads as 0 here and `Build` never
      compares one. The random axis picks the comparator: 0 is
      `box_x_compare`, 1 is `box_y_compare`, anything else
      `box_z_compare`. */
  function Key(h: Hittable, axis: int): real {
    match BoundingBox(h, 0.0, 0.0)
    case Some(b) => if axis == 0 then b.minimum.x else if axis == 1 then b.minimum.y else b.minimum.z
    case None => 0.0
  }

  /** `Key` on one axis, as the key function `sort_by` sorts with. */
  function KeyOf(axis: int): Hittable -> real {
    h => Key(h, axis)
  }

  /** `box_compare(a, b, axis)`: `partial_cmp` of the two keys. For two
      objects with boxes, it compares their minimum corners on the axis
      the comparator reads. */
  function BoxCompare(a: Hittable, b: Hittable, axis: int): (o: Ordering)
    ensures o == Less <==> Key(a, axis) < Key(b, axis)
    ensures o == Equal <==> Key(a, axis) == Key(b, axis)
    ensures o == Greater <==> Key(b, axis) < Key(a, axis)
    ensures var boxA, boxB := BoundingBox(a, 0.0, 0.0), BoundingBox(b, 0.0, 0.0);
      var ax := if axis == 0 then 0 else if axis == 1 then 1 else 2;
      boxA.Some? && boxB.Some? ==>
        && (o == Less <==> boxA.value.minimum.Index(ax) < boxB.value.minimum.Index(ax))
        && (o == Greater <==> boxB.value.minimum.Index(ax) < boxA.value.minimum.Index(ax))
  {
    var ka := Key(a, axis);
    var kb := Key(b, axis);
    if ka < kb then Less else if ka == kb then Equal else Greater
  }

  /** Ordered by `key`. */
  predicate Sorted(s: seq<Hittable>, key: Hittable -> real) {
    forall i, j :: 0 <= i < j < |s| ==> key(s[i]) <= key(s[j])
  }

  /** Inserts `x` after every element whose key is at most its own. */
  function Insert(s: seq<Hittable>, x: Hittable, key: Hittable -> real): (r: seq<Hittable>)
    ensures |r| == |s| + 1
    decreases |s|
  {
    if |s| == 0 || key(s[|s| - 1]) <= key(x) then s + [x]
    else Insert(s[..|s| - 1], x, key) + [s[|s| - 1]]
  }

  /** Inserting adds `x` and loses nothing. */
  lemma {:induction false} InsertPermutes(s: seq<Hittable>, x: Hittable, key: Hittable -> real)
    ensures multiset(Insert(s, x, key)) == multiset(s) + multiset{x}
    decreases |s|
  {
    if |s| > 0 && key(x) < key(s[|s| - 1]) {
      InsertPermutes(s[..|s| - 1], x, key);
      assert s == s[..|s| - 1] + [s[|s| - 1]];
    }
  }

  /** Inserting into a sorted sequence keeps it sorted. */
  lemma {:induction false} InsertSorted(s: seq<Hittable>, x: Hittable, key: Hittable -> real)
    requires Sorted(s, key)
    ensures Sorted(Insert(s, x, key), key)
    decreases |s|
  {
    if |s| == 0 || key(s[|s| - 1]) <= key(x) {
    } else {
      var last := s[|s| - 1];
      var front := Insert(s[..|s| - 1], x, key);
      InsertSorted(s[..|s| - 1], x, key);
      InsertPermutes(s[..|s| - 1], x, key);
      forall i | 0 <= i < |front|
        ensures key(front[i]) <= key(last)
      {
        assert front[i] in multiset(front);
        if front[i] != x {
          assert front[i] in multiset(s[..|s| - 1]);
          var k :| 0 <= k < |s| - 1 && s[k] == front[i];
        }
      }
    }
  }

  /** `sort_by(comparator)`: a stable sort by key, as an insertion sort.
      The result is a permutation of `s` (`SortByPermutes`) ordered by
      key (`SortByOrders`). */
  function SortBy(s: seq<Hittable>, key: Hittable -> real): (r: seq<Hittable>)
    ensures |r| == |s|
  {
    if |s| == 0 then []
    else Insert(SortBy(s[..|s| - 1], key), s[|s| - 1], key)
  }

  /** `sort_by` permutes the sequence. */
  lemma {:induction false} SortByPermutes(s: seq<Hittable>, key: Hittable -> real)
    ensures multiset(SortBy(s, key)) == multiset(s)
  {
    if |s| > 0 {
      SortByPermutes(s[..|s| - 1], key);
      InsertPermutes(SortBy(s[..|s| - 1], key), s[|s| - 1], key);
      assert s == s[..|s| - 1] + [s[|s| - 1]];
    }
  }

  /** `sort_by` orders the sequence by key. */
  lemma {:induction false} SortByOrders(s: seq<Hittable>, key: Hittable -> real)
    ensures Sorted(SortBy(s, key), key)
  {
    if |s| > 0 {
      SortByOrders(s[..|s| - 1], key);
      InsertSorted(SortBy(s[..|s| - 1], key), s[|s| - 1], key);
    }
  }

  /** Every object of `src` has a box at the build times and at `(0, 0)`,
      where the comparators read it; `BVHNode::new` panics otherwise. */
  predicate AllBoxed(src: seq<Hittable>, time0: real, time1: real) {
    forall i :: 0 <= i < |src| ==> BoundingBox(src[i], time0, time1).Some? && BoundingBox(src[i], 0.0, 0.0).Some?
  }

  /** `h` is an object of `src`, or a node whose two subtrees are drawn
      from `src`. */
  predicate DrawnFrom(h: Hittable, src: seq<Hittable>) {
    h in src || (h.BvhNode? && DrawnFrom(h.left, src) && DrawnFrom(h.right, src))
  }

  /** The split point `start + span / 2` of a span of at least three: both
      halves are non-empty and shorter than the span. */
  function Mid(start: nat, end: nat): (mid: nat)
    requires start + 3 <= end
    ensures start < mid < end
  {
    start + (end - start) / 2
  }

  /** `BVHNode::new(src_objects, start, end, time0, time1)`: the children
      chosen by `Children`, and the union of their boxes cached in the
      node. */
  function Build(src: seq<Hittable>, start: nat, end: nat, time0: real, time1: real,
                 axisOf: (nat, nat) -> int): (node: Hittable)
    requires start < end <= |src|
    requires AllBoxed(src, time0, time1)
    ensures node.BvhNode? && (node.left, node.right) == Children(src, start, end, time0, time1, axisOf)
    ensures BoundingBox(node.left, time0, time1).Some? && BoundingBox(node.right, time0, time1).Some?
    ensures Contains(node.aabb, BoundingBox(node.left, time0, time1).value)
    ensures Contains(node.aabb, BoundingBox(node.right, time0, time1).value)
    decreases end - start, 2
  {
    var children := Children(src, start, end, time0, time1, axisOf);
    BvhNode(children.0, children.1,
            SurroundingBox(BoundingBox(children.0, time0, time1).value, BoundingBox(children.1, time0, time1).value))
  }

  /** The two children of the node for `[start, end)`. `axisOf(start, end)`
      is the axis that node draws at random. A span of one uses its object
      as both children; a span of two orders its pair by the comparator; a
      longer span sorts the whole vector (not only `[start, end)`) and
      builds a node on each half of `[start, end)` of the sorted vector.
      Every child is an object of `src` or a node drawn from it. */
  function Children(src: seq<Hittable>, start: nat, end: nat, time0: real, time1: real,
                    axisOf: (nat, nat) -> int): (children: (Hittable, Hittable))
    requires start < end <= |src|
    requires AllBoxed(src, time0, time1)
    ensures BoundingBox(children.0, time0, time1).Some? && BoundingBox(children.1, time0, time1).Some?
    ensures DrawnFrom(children.0, src) && DrawnFrom(children.1, src)
    ensures end - start == 1 ==> children.0 == src[start] && children.1 == src[start]
    ensures end - start == 2 ==>
      if BoxCompare(src[start], src[start + 1], axisOf(start, end)) == Less
      then children == (src[start], src[start + 1])
      else children == (src[start + 1], src[start])
    decreases end - start, 1
  {
    var objects := src;
    var axis := axisOf(start, end);
    var span := end - start;
    if span == 1 then (objects[start], objects[start])
    else if span == 2 then
      assert BoundingBox(objects[start + 1], time0, time1).Some?;
      if BoxCompare(objects[start], objects[start + 1], axis) == Less then (objects[start], objects[start + 1])
      else (objects[start + 1], objects[start])
    else
      SortByPermutes(objects, KeyOf(axis));
      Split(SortBy(objects, KeyOf(axis)), objects, start, end, time0, time1, axisOf)
  }

  /** The nodes built on the two halves of `[start, end)` of `sorted`, the
      sorted copy of `src`. */
  function Split(sorted: seq<Hittable>, src: seq<Hittable>, start: nat, end: nat, time0: real, time1: real,
                 axisOf: (nat, nat) -> int): (children: (Hittable, Hittable))
    requires start + 3 <= end <= |src|
    requires multiset(sorted) == multiset(src) && |sorted| == |src| && AllBoxed(src, time0, time1)
    ensures children.0.BvhNode? && children.1.BvhNode?
    ensures DrawnFrom(children.0, src) && DrawnFrom(children.1, src)
    decreases end - start, 0
  {
    var mid := Mid(start, end);
    PermutationKeepsBoxes(src, sorted, time0, time1);
    var left := Build(sorted, start, mid, time0, time1, axisOf);
    var right := Build(sorted, mid, end, time0, time1, axisOf);
    DrawnFromPermutation(left, sorted, src);
    DrawnFromPermutation(right, sorted, src);
    (left, right)
  }

  lemma PermutationKeepsBoxes(src: seq<Hittable>, sorted: seq<Hittable>, time0: real, time1: real)
    requires multiset(sorted) == multiset(src)
    requires AllBoxed(src, time0, time1)
    ensures AllBoxed(sorted, time0, time1)
  {
    forall i | 0 <= i < |sorted|
      ensures BoundingBox(sorted[i], time0, time1).Some? && BoundingBox(sorted[i], 0.0, 0.0).Some?
    {
      assert sorted[i] in multiset(src);
      var k :| 0 <= k < |src| && src[k] == sorted[i];
    }
  }

  /** Drawing from a permutation of `src` is drawing from `src`. */
  lemma {:induction false} DrawnFromPermutation(h: Hittable, sorted: seq<Hittable>, src: seq<Hittable>)
    requires multiset(sorted) == multiset(src)
    ensures DrawnFrom(h, sorted) ==> DrawnFrom(h, src)
  {
    if h in sorted {
      assert h in multiset(src);
    } else if h.BvhNode? {
      DrawnFromPermutation(h.left, sorted, src);
      DrawnFromPermutation(h.right, sorted, src);
    }
  }

  /** `BVHNode::from_list(list, time0, time1)`: the hierarchy over the whole
      list. */
  function FromList(list: HittableList, time0: real, time1: real, axisOf: (nat, nat) -> int): (node: Hittable)
    reads list
    requires 0 < |list.objects| && AllBoxed(list.objects, time0, time1)
    ensures node.BvhNode? && DrawnFrom(node.left, list.objects) && DrawnFrom(node.right, list.objects)
  {
    Build(list.objects, 0, |list.objects|, time0, time1, axisOf)
  }

  /** The objects a hierarchy reaches, left to right, counting an object
      once for every place it appears. */
  function Leaves(h: Hittable): seq<Hittable> {
    if h.BvhNode? then Leaves(h.left) + Leaves(h.right) else [h]
  }

  /** Sorting an already sorted sequence changes nothing. */
  lemma {:induction false} SortBySorted(s: seq<Hittable>, key: Hittable -> real)
    requires Sorted(s, key)
    ensures SortBy(s, key) == s
  {
    if |s| > 0 {
      var front := s[..|s| - 1];
      assert Sorted(front, key);
      SortBySorted(front, key);
      if 0 < |front| {
        assert key(front[|front| - 1]) <= key(s[|s| - 1]);
      }
      assert front + [s[|s| - 1]] == s;
    }
  }

  /** The object with the given minimum corner and no sides. */
  function Marker(x: real, y: real): Hittable {
    BoxObj(Vec3(x, y, 0.0), Vec3(x + 1.0, y + 1.0, 1.0), [])
  }

  lemma InsertAfter(s: seq<Hittable>, x: Hittable, key: Hittable -> real)
    requires |s| == 0 || key(s[|s| - 1]) <= key(x)
    ensures Insert(s, x, key) == s + [x]
  {
  }

  lemma InsertBefore(s: seq<Hittable>, x: Hittable, key: Hittable -> real)
    requires |s| > 0 && key(x) < key(s[|s| - 1])
    ensures Insert(s, x, key) == Insert(s[..|s| - 1], x, key) + [s[|s| - 1]]
  {
  }

  lemma SortStep(s: seq<Hittable>, key: Hittable -> real)
    requires |s| > 0
    ensures SortBy(s, key) == Insert(SortBy(s[..|s| - 1], key), s[|s| - 1], key)
  {
  }

  /** Five objects whose keys are 4, 0, 1, 2 and 3 sort with the first
      moved to the end. */
  lemma SortFive(o: seq<Hittable>, key: Hittable -> real)
    requires |o| == 5
    requires key(o[0]) == 4.0 && key(o[1]) == 0.0 && key(o[2]) == 1.0 && key(o[3]) == 2.0 && key(o[4]) == 3.0
    ensures SortBy(o, key) == [o[1], o[2], o[3], o[4], o[0]]
  {
    var a, b, c, d, e := o[0], o[1], o[2], o[3], o[4];
    assert o[..1][..0] == [] && o[..2][..1] == o[..1] && o[..3][..2] == o[..2] && o[..4][..3] == o[..3];
    assert o[..5] == o && o[..5][..4] == o[..4];
    SortAppends(o[..1], key, []);
    assert SortBy(o[..1], key) == [] + [a];
    SortSlidesBelowLast(o[..2], key, [], a);
    assert SortBy(o[..2], key) == [b] + [a];
    SortSlidesBelowLast(o[..3], key, [b], a);
    assert SortBy(o[..3], key) == [b, c] + [a];
    SortSlidesBelowLast(o[..4], key, [b, c], a);
    assert SortBy(o[..4], key) == [b, c, d] + [a];
    SortSlidesBelowLast(o[..5], key, [b, c, d], a);
  }

  /** A step of the insertion sort that appends the new element. */
  lemma SortAppends(s: seq<Hittable>, key: Hittable -> real, before: seq<Hittable>)
    requires |s| > 0 && SortBy(s[..|s| - 1], key) == before
    requires |before| == 0 || key(before[|before| - 1]) <= key(s[|s| - 1])
    ensures SortBy(s, key) == before + [s[|s| - 1]]
  {
    assert SortBy(s, key) == Insert(before, s[|s| - 1], key) by {
      SortStep(s, key);
    }
    InsertAfter(before, s[|s| - 1], key);
  }

  /** A step of the insertion sort that puts the new element just before
      the last one. */
  lemma SortSlidesBelowLast(s: seq<Hittable>, key: Hittable -> real, front: seq<Hittable>, last: Hittable)
    requires |s| > 0 && SortBy(s[..|s| - 1], key) == front + [last]
    requires key(s[|s| - 1]) < key(last)
    requires |front| == 0 || key(front[|front| - 1]) <= key(s[|s| - 1])
    ensures SortBy(s, key) == front + [s[|s| - 1], last]
  {
    var x := s[|s| - 1];
    var before := front + [last];
    assert SortBy(s, key) == Insert(before, x, key) by {
      SortStep(s, key);
    }
    assert Insert(before, x, key) == Insert(front, x, key) + [last] by {
      InsertBefore(before, x, key);
      assert before[..|before| - 1] == front;
    }
    assert Insert(front, x, key) == front + [x] by {
      InsertAfter(front, x, key);
    }
  }

  /** Because a span of three or more sorts the whole vector, the
      hierarchy over a list need not hold the list's objects: with five
      objects whose minimum corners are `(0, 4)`, `(1, 0)`, `(2, 1)`,
      `(3, 2)` and `(4, 3)`, split along `y` at `[2, 5)` and along `x`
      elsewhere, the third object is never reached and the first is
      reached twice. */
  lemma BuildCanDropObject(axisOf: (nat, nat) -> int)
    requires forall s: nat, e: nat :: axisOf(s, e) == if s == 2 && e == 5 then 1 else 0
    ensures var o := Five();
      var leaves := Leaves(Build(o, 0, 5, 0.0, 0.0, axisOf));
      leaves == [o[0], o[1], o[3], o[3], o[0], o[4]] && o[2] !in leaves
  {
    var o := Five();
    TopHalves(axisOf);
    LeftHalf(axisOf);
    RightHalf(axisOf);
    Join(Leaves(Build(o, 0, 5, 0.0, 0.0, axisOf)), Leaves(Build(o, 0, 2, 0.0, 0.0, axisOf)),
         Leaves(Build(o, 2, 5, 0.0, 0.0, axisOf)), o[0], o[1], o[3], o[3], o[0], o[4]);
    FiveDistinct();
  }

  lemma Join(whole: seq<Hittable>, front: seq<Hittable>, back: seq<Hittable>,
             a: Hittable, b: Hittable, c: Hittable, d: Hittable, e: Hittable, f: Hittable)
    requires whole == front + back && front == [a, b] && back == [c, d, e, f]
    ensures whole == [a, b, c, d, e, f]
  {
  }

  lemma FiveDistinct()
    ensures var o := Five(); o[2] != o[0] && o[2] != o[1] && o[2] != o[3] && o[2] != o[4]
  {
    var o := Five();
    assert o[2].boxMin.x == 2.0;
  }

  /** The root over `Five` splits it, sorted by `x` (unchanged), into
      `[0, 2)` and `[2, 5)`. */
  lemma TopHalves(axisOf: (nat, nat) -> int)
    requires forall s: nat, e: nat :: axisOf(s, e) == if s == 2 && e == 5 then 1 else 0
    ensures var o := Five();
      Leaves(Build(o, 0, 5, 0.0, 0.0, axisOf))
        == Leaves(Build(o, 0, 2, 0.0, 0.0, axisOf)) + Leaves(Build(o, 2, 5, 0.0, 0.0, axisOf))
  {
    var o := Five();
    FiveKeys();
    SortBySorted(o, KeyOf(0));
    var node := Build(o, 0, 5, 0.0, 0.0, axisOf);
    assert (node.left, node.right) == (Build(o, 0, 2, 0.0, 0.0, axisOf), Build(o, 2, 5, 0.0, 0.0, axisOf));
  }

  /** The left half `[0, 2)` of `Five` keeps its pair in `x` order. */
  lemma LeftHalf(axisOf: (nat, nat) -> int)
    requires forall s: nat, e: nat :: axisOf(s, e) == if s == 2 && e == 5 then 1 else 0
    ensures var o := Five();
      Leaves(Build(o, 0, 2, 0.0, 0.0, axisOf)) == [o[0], o[1]]
  {
    var o := Five();
    FiveKeys();
    var left := Build(o, 0, 2, 0.0, 0.0, axisOf);
    assert (left.left, left.right) == (o[0], o[1]);
  }

  /** The five objects of `BuildCanDropObject`. */
  function Five(): (o: seq<Hittable>)
    ensures |o| == 5 && AllBoxed(o, 0.0, 0.0)
  {
    [Marker(0.0, 4.0), Marker(1.0, 0.0), Marker(2.0, 1.0), Marker(3.0, 2.0), Marker(4.0, 3.0)]
  }

  /** `Five` is already sorted by `x`; by `y` its first object comes last. */
  lemma FiveKeys()
    ensures Sorted(Five(), KeyOf(0))
    ensures var o := Five();
      KeyOf(1)(o[0]) == 4.0 && KeyOf(1)(o[1]) == 0.0 && KeyOf(1)(o[2]) == 1.0 &&
      KeyOf(1)(o[3]) == 2.0 && KeyOf(1)(o[4]) == 3.0
  {
    var o := Five();
    assert forall i :: 0 <= i < 5 ==> KeyOf(0)(o[i]) == i as real;
  }

  /** The right half `[2, 5)` of `BuildCanDropObject`: the whole vector is
      re-sorted by `y`, after which `[2, 3)` holds the fourth object and
      `[3, 5)` the fifth and the first. */
  lemma RightHalf(axisOf: (nat, nat) -> int)
    requires forall s: nat, e: nat :: axisOf(s, e) == if s == 2 && e == 5 then 1 else 0
    ensures var o := Five();
      Leaves(Build(o, 2, 5, 0.0, 0.0, axisOf)) == [o[3], o[3], o[0], o[4]]
  {
    var o := Five();
    var byY := [o[1], o[2], o[3], o[4], o[0]];
    assert SortBy(o, KeyOf(1)) == byY by {
      FiveKeys();
      SortFive(o, KeyOf(1));
    }
    assert AllBoxed(byY, 0.0, 0.0);
    var rightLeft := Build(byY, 2, 3, 0.0, 0.0, axisOf);
    var rightRight := Build(byY, 3, 5, 0.0, 0.0, axisOf);
    assert Leaves(rightLeft) == [o[3], o[3]] by {
      assert (rightLeft.left, rightLeft.right) == (o[3], o[3]);
    }
    assert Leaves(rightRight) == [o[0], o[4]] by {
      assert (rightRight.left, rightRight.right) == (o[0], o[4]);
    }
    var right := Build(o, 2, 5, 0.0, 0.0, axisOf);
    assert (right.left, right.right) == (rightLeft, rightRight);
  }
}
