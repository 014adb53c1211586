/**
  The earlier, append-only object store: objects loaded from the file are
  found through its cross-reference entries, new objects are kept in a list in
  the order they were added, and saving appends the new objects and an index
  of exactly those objects (ISO 32000-1 section 7.5.6, incremental updates).
 */
module Legacy {
  import opened Wrappers
  import opened Objects
  import opened Ordering
  import opened Runs
  import opened Store
  import opened Save
  import Lookup

  /** The store: the entries loaded from the file, the objects added since,
      in order, the position of the previous index, and the loaded trailer. */
  datatype LegacyFile = LegacyFile(
    xrefs: map<nat, CrossReference>,
    objects: seq<IndirectObject>,
    prev: int,
    trailer: map<string, Object>)

  /** Why a lookup stops abruptly: a slice outside the byte view, a failed
      type assertion on what the parser returned, or an entry inside an
      object stream. */
  datatype Abort = OffsetOutsideView | NotParsed | NotIndirect | InObjectStream

  /** The answer of `Get`: the object it returns, or the panic it stops with. */
  datatype Fetched = Returned(obj: Object) | Panicked(why: Abort)

  /** The position of the first added object with reference `ref`, from `from` on. */
  function FirstMatch(objects: seq<IndirectObject>, ref: ObjectReference, from: nat): (r: Option<nat>)
    requires from <= |objects|
    ensures r.Some? ==>
      && from <= r.value < |objects| && objects[r.value].ref == ref
      && forall j :: from <= j < r.value ==> objects[j].ref != ref
    ensures r.None? ==> forall j :: from <= j < |objects| ==> objects[j].ref != ref
    decreases |objects| - from
  {
    if from == |objects| then None
    else if objects[from].ref == ref then Some(from)
    else FirstMatch(objects, ref, from + 1)
  }

  /** Reads an object loaded from the file: the entry's offset is used from
      one byte before it, and whatever the parser returns must be an indirect
      object, whose content is returned. */
  function ReadLoaded(env: Lookup.Env, offset: nat): (r: Fetched)
    ensures r.Panicked? && r.why == OffsetOutsideView <==> offset == 0 || offset - 1 > |env.view|
    ensures r.Returned? ==>
      && 0 < offset && offset - 1 <= |env.view|
      && exists o :: env.parseIndirect(env.view[offset - 1..]) == Some(o) && o.Indirect? && r.obj == o.indirect.obj
    ensures (0 < offset && offset - 1 <= |env.view|
             && exists o :: env.parseIndirect(env.view[offset - 1..]) == Some(o) && o.Indirect?) ==> r.Returned?
  {
    if offset == 0 || offset - 1 > |env.view| then Panicked(OffsetOutsideView)
    else
      match env.parseIndirect(env.view[offset - 1..])
      case None => Panicked(NotParsed)
      case Some(o) => if o.Indirect? then Returned(o.indirect.obj) else Panicked(NotIndirect)
  }

  /** `Get`: the first added object with exactly this reference, returned
      whole as an indirect object; otherwise the loaded entry of the number,
      whatever its generation. A missing or free entry answers the null
      object. */
  function LegacyGet(f: LegacyFile, env: Lookup.Env, ref: ObjectReference): (r: Fetched)
    ensures (exists j :: 0 <= j < |f.objects| && f.objects[j].ref == ref) ==> r.Returned? && r.obj.Indirect? && r.obj.indirect.ref == ref
    ensures ((forall j :: 0 <= j < |f.objects| ==> f.objects[j].ref != ref) && ref.number !in f.xrefs) ==> r == Returned(Null)
    ensures ((forall j :: 0 <= j < |f.objects| ==> f.objects[j].ref != ref) && ref.number in f.xrefs) ==>
      match f.xrefs[ref.number].kind
      case FreeEntry => r == Returned(Null)
      case InUse => r == ReadLoaded(env, f.xrefs[ref.number].field1)
      case Compressed => r == Panicked(InObjectStream)
  {
    match FirstMatch(f.objects, ref, 0)
    case Some(j) => Returned(Indirect(f.objects[j]))
    case None =>
      if ref.number !in f.xrefs then Returned(Null)
      else
        var e := f.xrefs[ref.number];
        match e.kind
        case FreeEntry => Returned(Null)
        case InUse => ReadLoaded(env, e.field1)
        case Compressed => Panicked(InObjectStream)
  }

  /** What `Add` leaves: the grown store and the reference of the object, or
      the panic on anything but an indirect object. */
  datatype Appended = Appended(file: LegacyFile, ref: ObjectReference) | NotIndirectObject

  /** `Add` appends an indirect object to the list under its own reference and
      changes nothing else; any other object is refused with a panic. */
  function LegacyAdd(f: LegacyFile, obj: Object): (r: Appended)
    ensures r.Appended? <==> obj.Indirect?
    ensures r.Appended? ==>
      && r.ref == obj.indirect.ref
      && |r.file.objects| == |f.objects| + 1
      && r.file.objects[..|f.objects|] == f.objects
      && r.file.objects[|f.objects|] == obj.indirect
      && r.file.xrefs == f.xrefs && r.file.prev == f.prev && r.file.trailer == f.trailer
  {
    match obj
    case Indirect(io) => Appended(f.(objects := f.objects + [io]), io.ref)
    case _ => NotIndirectObject
  }

  /** Adding never hides an earlier object: a lookup after `Add` answers the
      new object exactly when no object with its reference was added before,
      and otherwise answers as before. */
  lemma LegacyGetAfterAdd(f: LegacyFile, env: Lookup.Env, io: IndirectObject, ref: ObjectReference)
    ensures var g := LegacyAdd(f, Indirect(io)).file;
      LegacyGet(g, env, ref)
        == if ref == io.ref && FirstMatch(f.objects, ref, 0).None? then Returned(Indirect(io))
           else LegacyGet(f, env, ref)
  {
    var g := LegacyAdd(f, Indirect(io)).file;
    FirstMatchAppend(f.objects, io, ref, 0);
  }

  /** The first match in a list with one more object at its end. */
  lemma {:induction false} FirstMatchAppend(objects: seq<IndirectObject>, io: IndirectObject, ref: ObjectReference, from: nat)
    requires from <= |objects|
    ensures FirstMatch(objects + [io], ref, from)
      == match FirstMatch(objects, ref, from)
         case Some(j) => Some(j)
         case None => if io.ref == ref then Some(|objects|) else None
    decreases |objects| - from
  {
    var s := objects + [io];
    if from < |objects| {
      assert s[from] == objects[from];
      if objects[from].ref != ref {
        FirstMatchAppend(objects, io, ref, from + 1);
      }
    } else {
      assert s[from] == io;
      if io.ref != ref {
        assert from + 1 == |s|;
      }
    }
  }

  /** For a number with no added object, the generation asked for does not
      matter: loaded entries are found by number alone. */
  lemma LoadedIgnoresGeneration(f: LegacyFile, env: Lookup.Env, a: ObjectReference, b: ObjectReference)
    requires a.number == b.number
    requires forall j :: 0 <= j < |f.objects| ==> f.objects[j].ref.number != a.number
    ensures LegacyGet(f, env, a) == LegacyGet(f, env, b)
  {
    assert FirstMatch(f.objects, a, 0).None? && FirstMatch(f.objects, b, 0).None?;
  }

  /** The state of the writing loop: the entries so far and the write
      position plus one. */
  datatype Table = Table(entries: map<nat, CrossReference>, end: nat)

  /** The writing loop: each added object, in order, is written at the current
      position and gets an in-use entry with its own generation, followed by a
      blank line; a later object with the same number replaces the entry. */
  function LegacyEmit(objects: seq<IndirectObject>, w: Writer, acc: Table): (r: Table)
    requires acc.end >= 1
    ensures r.end >= acc.end
    ensures forall k :: k in r.entries <==> k in acc.entries || exists i :: 0 <= i < |objects| && objects[i].ref.number == k
    decreases |objects|
  {
    if objects == [] then acc
    else
      var io := objects[0];
      var next := Table(acc.entries[io.ref.number := CrossReference(InUse, acc.end - 1, io.ref.generation)],
                        acc.end + w.encodedLength(io) + 2);
      var r := LegacyEmit(objects[1..], w, next);
      assert forall i :: 0 < i < |objects| ==> objects[i] == objects[1..][i - 1];
      r
  }

  /** The entry of a number is the one of the last object added under it:
      in use, at a position inside the appended bytes, with that object's
      generation. */
  lemma {:induction false} LegacyEmitLastWins(objects: seq<IndirectObject>, w: Writer, acc: Table, i: nat)
    requires acc.end >= 1
    requires i < |objects|
    requires forall j :: i < j < |objects| ==> objects[j].ref.number != objects[i].ref.number
    ensures var r := LegacyEmit(objects, w, acc);
      var k := objects[i].ref.number;
      && k in r.entries
      && r.entries[k].kind == InUse
      && r.entries[k].field2 == objects[i].ref.generation
      && acc.end - 1 <= r.entries[k].field1 < r.end - 1
    decreases |objects|
  {
    var io := objects[0];
    var next := Table(acc.entries[io.ref.number := CrossReference(InUse, acc.end - 1, io.ref.generation)],
                      acc.end + w.encodedLength(io) + 2);
    var tail := objects[1..];
    assert forall j :: 0 < j < |objects| ==> objects[j] == tail[j - 1];
    if i == 0 {
      LegacyEmitKeeps(tail, w, next, io.ref.number);
      assert LegacyEmit(tail, w, next).end >= next.end;
    } else {
      LegacyEmitLastWins(tail, w, next, i - 1);
    }
  }

  /** An entry no later object overwrites stays as it is. */
  lemma {:induction false} LegacyEmitKeeps(objects: seq<IndirectObject>, w: Writer, acc: Table, k: nat)
    requires acc.end >= 1
    requires k in acc.entries
    requires forall i :: 0 <= i < |objects| ==> objects[i].ref.number != k
    ensures k in LegacyEmit(objects, w, acc).entries
    ensures LegacyEmit(objects, w, acc).entries[k] == acc.entries[k]
    decreases |objects|
  {
    if objects != [] {
      var io := objects[0];
      var next := Table(acc.entries[io.ref.number := CrossReference(InUse, acc.end - 1, io.ref.generation)],
                        acc.end + w.encodedLength(io) + 2);
      assert forall i :: 0 < i < |objects| ==> objects[i] == objects[1..][i - 1];
      LegacyEmitKeeps(objects[1..], w, next, k);
    }
  }

  /** The entries of the new index: the head of the free list, then one per
      added number. */
  function LegacyEntries(f: LegacyFile, w: Writer): (t: Table)
    ensures t.end >= Start(w)
    ensures forall k :: k in t.entries <==> k == 0 || exists i :: 0 <= i < |f.objects| && f.objects[i].ref.number == k
  {
    LegacyEmit(f.objects, w, Table(map[0 := Sentinel], Start(w)))
  }

  /** Every entry is free or in use, so writing the table never reaches its
      panics for other kinds; the head is the usual free entry unless an
      object was added under number 0. */
  lemma LegacyEntryKinds(f: LegacyFile, w: Writer, k: nat)
    requires k in LegacyEntries(f, w).entries
    ensures LegacyEntries(f, w).entries[k].kind != Compressed
    ensures (k == 0 && forall i :: 0 <= i < |f.objects| ==> f.objects[i].ref.number != 0) ==>
      LegacyEntries(f, w).entries[k] == Sentinel
  {
    var seed := Table(map[0 := Sentinel], Start(w));
    if i :| 0 <= i < |f.objects| && f.objects[i].ref.number == k {
      LegacyEmitLastWins(f.objects, w, seed, LastWith(f.objects, k, i));
    } else {
      LegacyEmitKeeps(f.objects, w, seed, k);
    }
  }

  /** The last position at or after `i` whose object has number `k`. */
  function LastWith(objects: seq<IndirectObject>, k: nat, i: nat): (r: nat)
    requires i < |objects| && objects[i].ref.number == k
    ensures i <= r < |objects| && objects[r].ref.number == k
    ensures forall j :: r < j < |objects| ==> objects[j].ref.number != k
    decreases |objects| - i
  {
    if exists j :: i < j < |objects| && objects[j].ref.number == k then
      var j :| i < j < |objects| && objects[j].ref.number == k;
      LastWith(objects, k, j)
    else i
  }

  /** The legacy trailer: `Root` when the loaded trailer has one, `Size`, and
      `Prev` only for a file that had a previous index. */
  function LegacyTrailer(f: LegacyFile, size: nat): map<string, Object> {
    Fill(LegacyTrailerFields(f, size))
  }

  function LegacyTrailerFields(f: LegacyFile, size: nat): seq<(string, bool, Object)> {
    [ ("Root", "Root" in f.trailer, if "Root" in f.trailer then f.trailer["Root"] else Null),
      ("Size", true, Integer(size)),
      ("Prev", f.prev != 0, Integer(f.prev)) ]
  }

  /** The legacy trailer keys, each present exactly when it is written. */
  lemma LegacyTrailerKeys(f: LegacyFile, size: nat)
    ensures var t := LegacyTrailer(f, size);
      && ("Root" in t <==> "Root" in f.trailer)
      && ("Root" in t ==> t["Root"] == f.trailer["Root"])
      && "Size" in t && t["Size"] == Integer(size)
      && ("Prev" in t <==> f.prev != 0)
      && ("Prev" in t ==> t["Prev"] == Integer(f.prev))
      && t.Keys <= {"Root", "Size", "Prev"}
  {
    var fs := LegacyTrailerFields(f, size);
    assert DistinctKeys(fs);
    FillField(fs, 0);
    FillField(fs, 1);
    FillField(fs, 2);
    forall key | key !in {"Root", "Size", "Prev"} ensures key !in Fill(fs) {
      FillOnly(fs, key);
    }
  }

  /** One above the larger of the largest new entry and the largest loaded
      entry: every number of either lies below it, and one of them is just
      below it. */
  predicate Covers(size: nat, entries: map<nat, CrossReference>, xrefs: map<nat, CrossReference>) {
    && (forall k :: k in entries ==> k < size)
    && (forall k :: k in xrefs ==> k < size)
    && size >= 1
    && (size - 1 in entries || size - 1 in xrefs)
  }

  /** The numbers of the added objects. */
  function AddedNumbers(objects: seq<IndirectObject>): (r: seq<nat>)
    ensures |r| == |objects|
    ensures forall i :: 0 <= i < |objects| ==> r[i] == objects[i].ref.number
  {
    seq(|objects|, i requires 0 <= i < |objects| => objects[i].ref.number)
  }

  /** The numbers of the new index in ascending order. */
  function LegacyNumbers(f: LegacyFile, w: Writer): (numbers: seq<nat>)
    ensures Increasing(numbers)
    ensures forall k :: k in numbers <==> k in LegacyEntries(f, w).entries
    ensures 0 in numbers
  {
    var t := LegacyEntries(f, w);
    var added := AddedNumbers(f.objects);
    var bound := MaxOf(added) + 1;
    assert forall k :: k in t.entries ==> k < bound by {
      forall k | k in t.entries ensures k < bound {
        if k != 0 {
          var i :| 0 <= i < |f.objects| && f.objects[i].ref.number == k;
          assert added[i] == k;
        }
      }
    }
    SortedNumbers(t.entries, bound)
  }

  /** `Size`: one above the larger of the last new number and the largest
      loaded number, the loaded ones visited in the order `xrefOrder`. */
  function LegacySize(f: LegacyFile, xrefOrder: seq<nat>, w: Writer): (size: nat)
    requires Enumerates(xrefOrder, f.xrefs)
    ensures Covers(size, LegacyEntries(f, w).entries, f.xrefs)
  {
    var numbers := LegacyNumbers(f, w);
    var last := numbers[|numbers| - 1];
    LastIsLargest(numbers);
    var loaded := MaxOf(xrefOrder);
    if loaded > last then
      assert xrefOrder != [];
      loaded + 1
    else
      last + 1
  }

  /** `Save`, with the subsections cut into maximal runs (see `LegacyGroups`
      for the grouping loop as the source writes it). `xrefOrder` is the order
      in which the loaded entries happen to be visited. The index lists 0 and
      every added number in ascending order, and `Size` covers both the new
      and the loaded entries. */
  function LegacySave(f: LegacyFile, xrefOrder: seq<nat>, w: Writer): (r: Revision)
    requires Enumerates(xrefOrder, f.xrefs)
    ensures Increasing(r.numbers)
    ensures forall k :: k in r.numbers <==> k in r.entries
    ensures forall k :: k in r.entries <==> k == 0 || exists i :: 0 <= i < |f.objects| && f.objects[i].ref.number == k
    ensures RunPartition(r.numbers, r.groups)
    ensures Covers(r.size, r.entries, f.xrefs)
    ensures r.startxref >= Start(w) - 1
  {
    var t := LegacyEntries(f, w);
    var numbers := LegacyNumbers(f, w);
    Revision(t.entries, numbers, Runs.Runs(numbers), LegacySize(f, xrefOrder, w), t.end - 1)
  }

  /** In an ascending list the last number is the largest. */
  lemma LastIsLargest(numbers: seq<nat>)
    requires Increasing(numbers) && |numbers| > 0
    ensures forall k :: k in numbers ==> k <= numbers[|numbers| - 1]
  {
    forall k | k in numbers ensures k <= numbers[|numbers| - 1] {
      var i :| 0 <= i < |numbers| && numbers[i] == k;
      if i < |numbers| - 1 {
        assert numbers[i] < numbers[|numbers| - 1];
      }
    }
  }

  /** The grouping loop as the source writes it. On a break at position `i`
      the run that ends is cut as the slice from `start` to `start + i - 1`,
      an end counted from the list's beginning where a length from `start` was
      meant; an end past the list is a slice out of range, answered `None`.
      The groups already cut are kept, in order, ahead of at least one more. */
  function GroupLoop(objects: seq<nat>, i: nat, start: nat, groups: seq<seq<nat>>): (r: Option<seq<seq<nat>>>)
    requires start < i <= |objects|
    ensures r.Some? ==> |groups| < |r.value| && r.value[..|groups|] == groups
    decreases |objects| - i
  {
    if i == |objects| then Some(groups + [objects[start..]])
    else if objects[i] != objects[i - 1] + 1 then
      if start + i - 1 == start then GroupLoop(objects, i + 1, i, groups + [objects[start..start + 1]])
      else if start + i - 1 > |objects| then None
      else GroupLoop(objects, i + 1, i, groups + [objects[start..start + i - 1]])
    else GroupLoop(objects, i + 1, start, groups)
  }

  /** The subsections of the sorted numbers, as the source computes them. */
  function LegacyGroups(objects: seq<nat>): (r: Option<seq<seq<nat>>>)
    ensures objects == [] ==> r == Some([[]])
  {
    if objects == [] then Some([[]]) else GroupLoop(objects, 1, 0, [])
  }

  /** While the numbers from `start` on are consecutive the loop never cuts,
      and the rest becomes one last group. */
  lemma {:induction false} GroupLoopConsecutive(objects: seq<nat>, i: nat, start: nat, groups: seq<seq<nat>>)
    requires start < i <= |objects|
    requires forall p :: start < p < |objects| ==> objects[p] == objects[p - 1] + 1
    ensures GroupLoop(objects, i, start, groups) == Some(groups + [objects[start..]])
    decreases |objects| - i
  {
    if i < |objects| {
      GroupLoopConsecutive(objects, i + 1, start, groups);
    }
  }

  /** On consecutive numbers the source's grouping is the single run, as
      intended. */
  lemma LegacyGroupsConsecutive(objects: seq<nat>)
    requires |objects| > 0 && Consecutive(objects)
    ensures LegacyGroups(objects) == Some([objects])
    ensures LegacyGroups(objects) == Some(Runs.Runs(objects))
  {
    ConsecutiveSlice(objects, 0, |objects|);
    assert objects[0..|objects|] == objects;
    GroupLoopConsecutive(objects, 1, 0, []);
    assert objects[0..] == objects;
    assert [] + [objects] == [objects];
    RunsOfConsecutive(objects);
  }

  /** The runs of consecutive numbers are the whole list. */
  lemma RunsOfConsecutive(objects: seq<nat>)
    requires |objects| > 0 && Consecutive(objects)
    ensures Runs.Runs(objects) == [objects]
  {
    var g := Runs.Runs(objects);
    assert |g| <= 1 by {
      if |g| > 1 {
        FlattenSplit(g);
        assert false;
      }
    }
    FlattenPrefix(g);
    assert g[1..] == [];
    assert g[0] == objects;
    assert g == [g[0]];
  }

  /** The first group is a prefix of the flattened list. */
  lemma FlattenPrefix(g: seq<seq<nat>>)
    requires |g| > 0
    ensures Flatten(g) == g[0] + Flatten(g[1..])
  {
  }

  /** With two or more groups, the second group directly follows the first. */
  lemma FlattenSplit(g: seq<seq<nat>>)
    requires |g| > 1 && |g[1]| > 0
    ensures |g[0]| < |Flatten(g)|
    ensures Flatten(g)[|g[0]|] == g[1][0]
    ensures |g[0]| > 0 ==> Flatten(g)[|g[0]| - 1] == g[0][|g[0]| - 1]
  {
    assert Flatten(g) == g[0] + (g[1] + Flatten(g[2..])) by {
      assert g[1..][0] == g[1] && g[1..][1..] == g[2..];
    }
  }

  /** Where a break follows the first number, the source keeps that number as
      a group of its own, as intended. */
  lemma LegacyGroupsSingletonHead(objects: seq<nat>)
    requires |objects| > 1 && objects[1] != objects[0] + 1
    ensures LegacyGroups(objects).Some? ==>
      |LegacyGroups(objects).value| >= 2 && LegacyGroups(objects).value[0] == [objects[0]]
  {
    assert objects[0..0 + 1] == [objects[0]];
    assert [] + [objects[0..0 + 1]] == [[objects[0]]];
    assert LegacyGroups(objects) == GroupLoop(objects, 1, 0, []) == GroupLoop(objects, 2, 1, [[objects[0]]]);
  }

  /** A run of three closed by a gap loses its last number: for the numbers
      0, 1, 2, 5 the subsections are 0-1 and 5, so number 2 is left out of the
      index. */
  lemma LegacyGroupsDropsNumber()
    ensures LegacyGroups([0, 1, 2, 5]) == Some([[0, 1], [5]])
    ensures !RunPartition([0, 1, 2, 5], [[0, 1], [5]])
  {
    var s: seq<nat> := [0, 1, 2, 5];
    var head: seq<seq<nat>> := [[0, 1]];
    assert s[0..0 + 3 - 1] == [0, 1];
    assert [] + [s[0..0 + 3 - 1]] == head;
    assert s[3..] == [5];
    assert head + [s[3..]] == [[0, 1], [5]];
    assert GroupLoop(s, 4, 3, head) == Some([[0, 1], [5]]);
    assert GroupLoop(s, 3, 0, []) == GroupLoop(s, 4, 3, head);
    assert GroupLoop(s, 1, 0, []) == GroupLoop(s, 2, 0, []) == GroupLoop(s, 3, 0, []);
    assert Flatten([[5]]) == [5];
    assert Flatten([[0, 1], [5]]) == [0, 1, 5];
  }

  /** A second long run makes the slice end run past the list: for the
      numbers 0, 1, 2, 4, 5, 6, 8 the grouping stops with a slice out of
      range. */
  lemma LegacyGroupsPanics()
    ensures LegacyGroups([0, 1, 2, 4, 5, 6, 8]) == None
  {
    var s: seq<nat> := [0, 1, 2, 4, 5, 6, 8];
    var head: seq<seq<nat>> := [[0, 1]];
    assert s[0..0 + 3 - 1] == [0, 1];
    assert [] + [s[0..0 + 3 - 1]] == head;
    assert GroupLoop(s, 6, 3, head) == None;
    assert GroupLoop(s, 3, 0, []) == GroupLoop(s, 4, 3, head) == GroupLoop(s, 5, 3, head) == GroupLoop(s, 6, 3, head);
    assert GroupLoop(s, 1, 0, []) == GroupLoop(s, 2, 0, []) == GroupLoop(s, 3, 0, []);
  }

  /** Such numbers arise from an ordinary store: three objects added under
      1, 2 and 5 give the index numbers 0, 1, 2, 5. */
  lemma DroppedNumberReachable(w: Writer, io1: IndirectObject, io2: IndirectObject, io5: IndirectObject)
    requires io1.ref.number == 1 && io2.ref.number == 2 && io5.ref.number == 5
    ensures LegacyNumbers(LegacyFile(map[], [io1, io2, io5], 0, map[]), w) == [0, 1, 2, 5]
  {
    var objects := [io1, io2, io5];
    var ns := LegacyNumbers(LegacyFile(map[], objects, 0, map[]), w);
    assert objects[0].ref.number == 1 && objects[1].ref.number == 2 && objects[2].ref.number == 5;
    forall k ensures k in ns <==> k in [0, 1, 2, 5] {
      if exists i :: 0 <= i < |objects| && objects[i].ref.number == k {
        var i :| 0 <= i < |objects| && objects[i].ref.number == k;
        assert i == 0 || i == 1 || i == 2;
      }
    }
    IncreasingFromMembers(ns, [0, 1, 2, 5]);
  }

  /** Two ascending lists with the same members are equal. */
  lemma {:induction false} IncreasingFromMembers(a: seq<nat>, b: seq<nat>)
    requires Increasing(a) && Increasing(b)
    requires forall k :: k in a <==> k in b
    ensures a == b
    decreases |a| + |b|
  {
    assert a != [] ==> a[0] in b;
    assert b != [] ==> b[0] in a;
    if a != [] && b != [] {
      assert a[0] == b[0] by {
        var i :| 0 <= i < |b| && b[i] == a[0];
        var j :| 0 <= j < |a| && a[j] == b[0];
        assert b[0] <= b[i];
        assert a[0] <= a[j];
      }
      forall k ensures k in a[1..] <==> k in b[1..] {
        if k in a[1..] {
          var i :| 1 <= i < |a| && a[i] == k;
          assert k > a[0];
          assert k in b;
          var j :| 0 <= j < |b| && b[j] == k;
          assert j != 0;
          assert k == b[1..][j - 1];
        }
        if k in b[1..] {
          var j :| 1 <= j < |b| && b[j] == k;
          assert k > b[0];
          assert k in a;
          var i :| 0 <= i < |a| && a[i] == k;
          assert i != 0;
          assert k == a[1..][i - 1];
        }
      }
      IncreasingFromMembers(a[1..], b[1..]);
      assert a == [a[0]] + a[1..] && b == [b[0]] + b[1..];
    }
  }
}
