/**
  Ordered sequences of object numbers: sorting, maxima, the sorted key list of
  a map and the concatenation of grouped sequences. Both writers use them.
 */
module Ordering {

  /** Sorted without repeats. */
  predicate Increasing(s: seq<nat>) {
    forall i, j :: 0 <= i < j < |s| ==> s[i] < s[j]
  }

  predicate NonDecreasing(s: seq<nat>) {
    forall i, j :: 0 <= i < j < |s| ==> s[i] <= s[j]
  }

  /** Each element occurs once, as when a map's keys are enumerated. */
  predicate Distinct(s: seq<nat>) {
    forall i, j :: 0 <= i < j < |s| ==> s[i] != s[j]
  }

  /** Putting in front an element no larger than any other keeps order. */
  lemma ConsSorted(x: nat, s: seq<nat>)
    requires NonDecreasing(s)
    requires forall i :: 0 <= i < |s| ==> x <= s[i]
    ensures NonDecreasing([x] + s)
  {
    forall i, j | 0 <= i < j < |[x] + s| ensures ([x] + s)[i] <= ([x] + s)[j] {
      assert ([x] + s)[j] == s[j - 1];
      if i > 0 {
        assert ([x] + s)[i] == s[i - 1];
      }
    }
  }

  /** The recursive step of `Insert`: the head is below everything inserted
      after it. */
  lemma InsertHead(x: nat, s: seq<nat>, rest: seq<nat>)
    requires NonDecreasing(s) && |s| > 0 && s[0] < x
    requires NonDecreasing(rest)
    requires multiset(rest) == multiset(s[1..]) + multiset{x}
    ensures NonDecreasing([s[0]] + rest)
    ensures multiset([s[0]] + rest) == multiset(s) + multiset{x}
  {
    forall i | 0 <= i < |rest| ensures s[0] <= rest[i] {
      assert rest[i] in multiset(rest);
      if rest[i] != x {
        assert rest[i] in multiset(s[1..]);
        var j :| 0 <= j < |s[1..]| && s[1..][j] == rest[i];
        assert s[j + 1] == rest[i];
      }
    }
    ConsSorted(s[0], rest);
    assert s == [s[0]] + s[1..];
  }

  function Insert(x: nat, s: seq<nat>): (r: seq<nat>)
    requires NonDecreasing(s)
    ensures NonDecreasing(r)
    ensures multiset(r) == multiset(s) + multiset{x}
  {
    if s == [] || x <= s[0] then
      ConsSorted(x, s);
      [x] + s
    else
      var rest := Insert(x, s[1..]);
      InsertHead(x, s, rest);
      [s[0]] + rest
  }

  function Sort(s: seq<nat>): (r: seq<nat>)
    ensures NonDecreasing(r)
    ensures multiset(r) == multiset(s)
  {
    if s == [] then []
    else
      assert s == [s[0]] + s[1..];
      Insert(s[0], Sort(s[1..]))
  }

  /** Sorting neither adds nor loses an element. */
  lemma SortKeepsElements(s: seq<nat>)
    ensures forall k :: k in Sort(s) <==> k in s
  {
    forall k ensures k in Sort(s) <==> k in s {
      assert k in Sort(s) <==> k in multiset(Sort(s));
      assert k in s <==> k in multiset(s);
    }
  }

  /** The largest element, or 0 when there is none. */
  function MaxOf(s: seq<nat>): (m: nat)
    ensures forall i :: 0 <= i < |s| ==> s[i] <= m
    ensures s != [] ==> m in s
    ensures s == [] ==> m == 0
  {
    if s == [] then 0
    else
      var rest := MaxOf(s[1..]);
      if s[0] > rest then s[0] else rest
  }

  /** The keys of `m` below `n`, in ascending order. */
  function KeysBelow<V>(m: map<nat, V>, n: nat): (r: seq<nat>)
    ensures Increasing(r)
    ensures forall k :: k in r <==> k in m && k < n
  {
    if n == 0 then []
    else
      var below := KeysBelow(m, n - 1);
      assert forall i :: 0 <= i < |below| ==> below[i] < n - 1 by {
        forall i | 0 <= i < |below| ensures below[i] < n - 1 {
          assert below[i] in below;
        }
      }
      below + (if n - 1 in m then [n - 1] else [])
  }

  /** The concatenation of a list of groups. */
  function Flatten(groups: seq<seq<nat>>): seq<nat> {
    if groups == [] then [] else groups[0] + Flatten(groups[1..])
  }

  lemma {:induction false} FlattenAppend(groups: seq<seq<nat>>, g: seq<nat>)
    ensures Flatten(groups + [g]) == Flatten(groups) + g
  {
    if groups != [] {
      assert (groups + [g])[1..] == groups[1..] + [g];
      FlattenAppend(groups[1..], g);
    }
  }
}
