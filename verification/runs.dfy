/**
  Grouping of the sorted object numbers of a cross-reference section into
  maximal runs of consecutive numbers (ISO 32000-1 section 7.5.4: one
  subsection per run; section 7.5.8.2: one `Index` pair per run).
 */
module Runs {
  import opened Ordering
  import opened Objects

  function Last(g: seq<nat>): nat
    requires |g| > 0
  {
    g[|g| - 1]
  }

  /** Each number is one more than the one before it. */
  predicate Consecutive(g: seq<nat>) {
    forall k :: 0 < k < |g| ==> g[k] == g[k - 1] + 1
  }

  /** `groups` cuts `objects` into non-empty runs of consecutive numbers, and
      no run could be extended by the first number of the next one. */
  predicate RunPartition(objects: seq<nat>, groups: seq<seq<nat>>) {
    && Flatten(groups) == objects
    && (forall j :: 0 <= j < |groups| ==> |groups[j]| > 0 && Consecutive(groups[j]))
    && (forall j :: 0 < j < |groups| ==> groups[j][0] != Last(groups[j - 1]) + 1)
  }

  /** Position-wise form of `Consecutive` for a slice. */
  lemma ConsecutiveSlice(objects: seq<nat>, start: nat, i: nat)
    requires start <= i <= |objects|
    ensures Consecutive(objects[start..i]) <==> forall p :: start < p < i ==> objects[p] == objects[p - 1] + 1
  {
    var g := objects[start..i];
    if Consecutive(g) {
      forall p | start < p < i ensures objects[p] == objects[p - 1] + 1 {
        assert g[p - start] == g[p - start - 1] + 1;
      }
    }
    if forall p :: start < p < i ==> objects[p] == objects[p - 1] + 1 {
      forall k | 0 < k < |g| ensures g[k] == g[k - 1] + 1 {
        assert objects[start + k] == objects[start + k - 1] + 1;
      }
    }
  }

  /** Closing the current run keeps the groups a partition of the prefix. */
  lemma CloseRun(objects: seq<nat>, start: nat, i: nat, groups: seq<seq<nat>>)
    requires start < i <= |objects|
    requires RunPartition(objects[..start], groups)
    requires Consecutive(objects[start..i])
    requires |groups| > 0 ==> objects[start] != Last(groups[|groups| - 1]) + 1
    ensures RunPartition(objects[..i], groups + [objects[start..i]])
  {
    FlattenAppend(groups, objects[start..i]);
    assert objects[..start] + objects[start..i] == objects[..i];
    var gs := groups + [objects[start..i]];
    forall j | 0 <= j < |gs| ensures |gs[j]| > 0 && Consecutive(gs[j]) {
      if j < |groups| {
        assert gs[j] == groups[j];
      }
    }
  }

  /** The grouping loop: `start` is where the current run begins, `i` the
      next position to compare with its predecessor. */
  function GroupFrom(objects: seq<nat>, i: nat, start: nat, groups: seq<seq<nat>>): (r: seq<seq<nat>>)
    requires start < i <= |objects|
    requires RunPartition(objects[..start], groups)
    requires Consecutive(objects[start..i])
    requires |groups| > 0 ==> objects[start] != Last(groups[|groups| - 1]) + 1
    ensures RunPartition(objects, r)
    ensures |r| > 0
    decreases |objects| - i
  {
    CloseRun(objects, start, i, groups);
    if i == |objects| then
      assert objects[..i] == objects;
      groups + [objects[start..i]]
    else if objects[i] != objects[i - 1] + 1 then
      assert Last(objects[start..i]) == objects[i - 1];
      assert objects[i..i + 1] == [objects[i]];
      GroupFrom(objects, i + 1, i, groups + [objects[start..i]])
    else
      ConsecutiveSlice(objects, start, i);
      ConsecutiveSlice(objects, start, i + 1);
      GroupFrom(objects, i + 1, start, groups)
  }

  /** The runs of a non-empty list of object numbers. */
  function Runs(objects: seq<nat>): (groups: seq<seq<nat>>)
    requires |objects| > 0
    ensures RunPartition(objects, groups)
    ensures |groups| > 0
  {
    GroupFrom(objects, 1, 0, [])
  }

  /** `count` numbers from `first` on. */
  function Range(first: nat, count: nat): (r: seq<nat>)
    ensures |r| == count
    ensures forall k :: 0 <= k < count ==> r[k] == first + k
  {
    seq(count, k requires 0 <= k < count => first + k)
  }

  /** The `Index` array: a (first number, count) pair of integers per run. */
  function IndexArray(groups: seq<seq<nat>>): (items: seq<Object>)
    requires forall j :: 0 <= j < |groups| ==> |groups[j]| > 0
    ensures |items| == 2 * |groups|
    ensures forall j :: 0 <= j < |groups| ==>
      items[2 * j] == Integer(groups[j][0]) && items[2 * j + 1] == Integer(|groups[j]|)
  {
    if groups == [] then []
    else
      var rest := IndexArray(groups[1..]);
      forall j | 0 < j < |groups|
        ensures rest[2 * (j - 1)] == Integer(groups[j][0]) && rest[2 * (j - 1) + 1] == Integer(|groups[j]|)
      {
        assert groups[1..][j - 1] == groups[j];
      }
      [Integer(groups[0][0]), Integer(|groups[0]|)] + rest
  }

  /** How a reader of the `Index` array lists the object numbers it covers. */
  function ExpandIndex(items: seq<Object>): seq<nat> {
    if |items| < 2 then []
    else
      var here :=
        if items[0].Integer? && items[1].Integer? && items[0].value >= 0 && items[1].value >= 0
        then Range(items[0].value, items[1].value)
        else [];
      here + ExpandIndex(items[2..])
  }

  lemma {:induction false} ConsecutiveIsRange(g: seq<nat>)
    requires |g| > 0
    requires Consecutive(g)
    ensures g == Range(g[0], |g|)
  {
    var k := 0;
    while k < |g|
      invariant 0 <= k <= |g|
      invariant forall m :: 0 <= m < k ==> g[m] == g[0] + m
    {
      if k > 0 {
        assert g[k] == g[k - 1] + 1;
      }
      k := k + 1;
    }
  }

  lemma {:induction false} ExpandIndexArray(groups: seq<seq<nat>>)
    requires forall j :: 0 <= j < |groups| ==> |groups[j]| > 0 && Consecutive(groups[j])
    ensures ExpandIndex(IndexArray(groups)) == Flatten(groups)
  {
    if groups != [] {
      var items := IndexArray(groups);
      assert items[2..] == IndexArray(groups[1..]);
      ConsecutiveIsRange(groups[0]);
      ExpandIndexArray(groups[1..]);
    }
  }

  /** Reading back the `Index` array built from the runs yields exactly the
      object numbers that were grouped. */
  lemma IndexRoundTrip(objects: seq<nat>)
    requires |objects| > 0
    ensures ExpandIndex(IndexArray(Runs(objects))) == objects
  {
    ExpandIndexArray(Runs(objects));
  }
}
