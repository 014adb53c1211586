/**
  The index-building half of the two incremental writers of the store: which
  cross-reference entries a revision gets, how the free ones are chained into
  a list, how the entries are grouped into subsections, and the trailer
  (ISO 32000-1 section 7.5.4 for the table form, section 7.5.8 for the
  cross-reference stream form). The byte layout of the entries is not modelled.
 */
module Save {
  import opened Objects
  import opened Ordering
  import opened Runs
  import opened Store

  /** The collaborators of the writers that are not modelled: the size of the
      file before the update, the number of bytes an indirect object's encoding
      takes, the number of bytes chosen for the largest value of a field, and
      the encoding of a value in a given number of bytes. */
  datatype Writer = Writer(
    fileSize: nat,
    encodedLength: IndirectObject -> nat,
    byteWidth: nat -> nat,
    intToBytes: (nat, nat) -> seq<Byte>)

  /** `order` lists the keys of `objects`, each once, in the order a traversal
      of the map happens to visit them. */
  predicate Enumerates<V>(order: seq<nat>, objects: map<nat, V>) {
    && Distinct(order)
    && (forall k :: k in objects ==> k in order)
    && (forall k :: k in order ==> k in objects)
  }

  /** Slots that get an entry of their own in the new revision: objects added
      and numbers freed since the file was opened. */
  predicate Written(s: Slot) {
    s.Pending? || s.Freed?
  }

  /** The numbers, in traversal order, whose slot marks them free. */
  function FreeNumbers(objects: map<nat, Slot>, order: seq<nat>): (r: seq<nat>)
    requires forall k :: k in order ==> k in objects
    ensures forall k :: k in r <==> k in order && IsFreeSlot(objects[k])
  {
    if order == [] then []
    else (if IsFreeSlot(objects[order[0]]) then [order[0]] else []) + FreeNumbers(objects, order[1..])
  }

  /** The state of the writing loop: the entries so far, the free numbers
      met so far, and the write position plus one. */
  datatype Emitted = Emitted(entries: map<nat, CrossReference>, free: seq<nat>, offset: nat)

  /** One step of the writing loop for the slot of `n`. */
  function EmitOne(objects: map<nat, Slot>, n: nat, w: Writer, acc: Emitted): (r: Emitted)
    requires acc.offset >= 1 && n in objects
    ensures r.offset >= acc.offset
  {
    match objects[n]
    case OnDisk(e) => if e.kind == FreeEntry then acc.(free := acc.free + [n]) else acc
    case Pending(io) =>
      Emitted(acc.entries[n := CrossReference(InUse, acc.offset - 1, io.ref.generation)], acc.free,
              acc.offset + w.encodedLength(io) + 2)
    case Freed(g) =>
      acc.(entries := acc.entries[n := CrossReference(FreeEntry, 0, g)], free := acc.free + [n])
  }

  /** The writing loop over the slots: each added object is written at the
      current position and gets an in-use entry, followed by a blank line; each
      freed number gets a free entry; every number marked free is collected. */
  function Emit(objects: map<nat, Slot>, order: seq<nat>, w: Writer, acc: Emitted): (r: Emitted)
    requires acc.offset >= 1
    requires forall k :: k in order ==> k in objects
    ensures r.offset >= acc.offset
    ensures r.free == acc.free + FreeNumbers(objects, order)
    decreases |order|
  {
    if order == [] then acc
    else
      assert order[0] in order;
      Emit(objects, order[1..], w, EmitOne(objects, order[0], w, acc))
  }

  lemma {:induction false} EmitKeys(objects: map<nat, Slot>, order: seq<nat>, w: Writer, acc: Emitted)
    requires acc.offset >= 1
    requires forall k :: k in order ==> k in objects
    ensures forall k :: k in Emit(objects, order, w, acc).entries <==>
      k in acc.entries || (k in order && Written(objects[k]))
    decreases |order|
  {
    if order != [] {
      assert order[0] in order;
      EmitKeys(objects, order[1..], w, EmitOne(objects, order[0], w, acc));
      assert forall k :: k in order <==> k == order[0] || k in order[1..];
    }
  }

  /** Entries the writing loop does not touch keep their value. */
  lemma {:induction false} EmitKeeps(objects: map<nat, Slot>, order: seq<nat>, w: Writer, acc: Emitted, k: nat)
    requires acc.offset >= 1
    requires forall k :: k in order ==> k in objects
    requires k in acc.entries && !(k in order && Written(objects[k]))
    ensures k in Emit(objects, order, w, acc).entries
    ensures Emit(objects, order, w, acc).entries[k] == acc.entries[k]
    decreases |order|
  {
    if order != [] {
      assert order[0] in order;
      assert forall x :: x in order[1..] ==> x in order;
      EmitKeeps(objects, order[1..], w, EmitOne(objects, order[0], w, acc), k);
    }
  }

  /** Every freed number gets a free entry holding its next generation. */
  lemma {:induction false} EmitFreed(objects: map<nat, Slot>, order: seq<nat>, w: Writer, acc: Emitted, k: nat)
    requires acc.offset >= 1 && Distinct(order)
    requires forall k :: k in order ==> k in objects
    requires k in order && objects[k].Freed?
    ensures k in Emit(objects, order, w, acc).entries
    ensures Emit(objects, order, w, acc).entries[k] == CrossReference(FreeEntry, 0, objects[k].nextGeneration)
    decreases |order|
  {
    assert order[0] in order;
    var next := EmitOne(objects, order[0], w, acc);
    if order[0] == k {
      assert k !in order[1..] by {
        forall j | 0 <= j < |order[1..]| ensures order[1..][j] != k {
          assert order[1..][j] == order[j + 1];
        }
      }
      assert forall x :: x in order[1..] ==> x in order;
      EmitKeeps(objects, order[1..], w, next, k);
    } else {
      assert k in order[1..];
      assert forall x :: x in order[1..] ==> x in order;
      DistinctTail(order);
      EmitFreed(objects, order[1..], w, next, k);
    }
  }

  lemma DistinctTail(s: seq<nat>)
    requires Distinct(s) && |s| > 0
    ensures Distinct(s[1..])
    ensures s[0] !in s[1..]
  {
    forall j | 0 <= j < |s[1..]| ensures s[1..][j] != s[0] {
      assert s[1..][j] == s[j + 1];
    }
  }

  /** Every added object gets an in-use entry with its own generation and a
      position inside the bytes this loop appends. */
  lemma {:induction false} EmitPending(objects: map<nat, Slot>, order: seq<nat>, w: Writer, acc: Emitted, k: nat)
    requires acc.offset >= 1 && Distinct(order)
    requires forall k :: k in order ==> k in objects
    requires k in order && objects[k].Pending?
    ensures k in Emit(objects, order, w, acc).entries
    ensures Emit(objects, order, w, acc).entries[k].kind == InUse
    ensures Emit(objects, order, w, acc).entries[k].field2 == objects[k].added.ref.generation
    ensures acc.offset - 1 <= Emit(objects, order, w, acc).entries[k].field1 < Emit(objects, order, w, acc).offset - 1
    decreases |order|
  {
    assert order[0] in order;
    var next := EmitOne(objects, order[0], w, acc);
    DistinctTail(order);
    assert forall x :: x in order[1..] ==> x in order;
    if order[0] == k {
      EmitKeeps(objects, order[1..], w, next, k);
    } else {
      assert k in order[1..];
      EmitPending(objects, order[1..], w, next, k);
    }
  }

  /** No two added objects are recorded at the same position. */
  lemma {:induction false} EmitDistinctOffsets(objects: map<nat, Slot>, order: seq<nat>, w: Writer, acc: Emitted, k1: nat, k2: nat)
    requires acc.offset >= 1 && Distinct(order)
    requires forall k :: k in order ==> k in objects
    requires k1 in order && k2 in order && k1 != k2 && objects[k1].Pending? && objects[k2].Pending?
    ensures k1 in Emit(objects, order, w, acc).entries && k2 in Emit(objects, order, w, acc).entries
    ensures Emit(objects, order, w, acc).entries[k1].field1 != Emit(objects, order, w, acc).entries[k2].field1
    decreases |order|
  {
    assert order[0] in order;
    var next := EmitOne(objects, order[0], w, acc);
    DistinctTail(order);
    assert forall x :: x in order[1..] ==> x in order;
    EmitPending(objects, order, w, acc, k1);
    EmitPending(objects, order, w, acc, k2);
    if order[0] == k1 {
      EmitKeeps(objects, order[1..], w, next, k1);
      EmitPending(objects, order[1..], w, next, k2);
    } else if order[0] == k2 {
      EmitKeeps(objects, order[1..], w, next, k2);
      EmitPending(objects, order[1..], w, next, k1);
    } else {
      EmitDistinctOffsets(objects, order[1..], w, next, k1, k2);
    }
  }

  /** The entry a number gets if the writer has none for it yet: the all-zero
      value of a missing map key. */
  function EntryOrZero(entries: map<nat, CrossReference>, k: nat): CrossReference {
    if k in entries then entries[k] else ZeroEntry
  }

  /** The numbers of a sorted free list whose entry is pointed onward: all but
      the last. */
  function Linked(free: seq<nat>): seq<nat> {
    if |free| == 0 then [] else free[..|free| - 1]
  }

  /** What `LinkFreeList` promises about its result `r`. */
  ghost predicate LinksFreeList(entries: map<nat, CrossReference>, free: seq<nat>, r: map<nat, CrossReference>) {
    && (forall k :: k in r <==> k in entries || k in Linked(free))
    && (forall k :: k in entries && k !in Linked(free) ==> r[k] == entries[k])
    && (forall k :: k in Linked(free) ==>
          k in r && r[k].kind == EntryOrZero(entries, k).kind && r[k].field2 == EntryOrZero(entries, k).field2)
    && (forall i :: 0 <= i < |free| - 1 && free[i] != free[i + 1] ==>
          free[i] in r && r[free[i]].field1 == free[i + 1])
  }

  lemma LinkedHead(free: seq<nat>)
    requires |free| >= 2
    ensures Linked(free) == [free[0]] + Linked(free[1..])
    ensures forall k :: k in Linked(free) <==> k == free[0] || k in Linked(free[1..])
  {
  }

  /** In a sorted list, a number followed by a larger one does not recur later. */
  lemma HeadNotRelinked(free: seq<nat>)
    requires NonDecreasing(free) && |free| >= 2 && free[0] != free[1]
    ensures free[0] !in Linked(free[1..])
  {
    forall j | 0 <= j < |Linked(free[1..])| ensures Linked(free[1..])[j] != free[0] {
      assert Linked(free[1..])[j] == free[j + 1];
    }
  }

  /** Linking the head of the list and then the rest links the whole list. */
  lemma LinkStep(entries: map<nat, CrossReference>, free: seq<nat>, r: map<nat, CrossReference>)
    requires NonDecreasing(free) && |free| >= 2
    requires LinksFreeList(entries[free[0] := EntryOrZero(entries, free[0]).(field1 := free[1])], free[1..], r)
    ensures LinksFreeList(entries, free, r)
  {
    var k := free[0];
    var tail := free[1..];
    var stepped := entries[k := EntryOrZero(entries, k).(field1 := free[1])];
    LinkedHead(free);
    forall k' | k' in entries && k' !in Linked(free) ensures r[k'] == entries[k'] {
      assert k' in stepped && k' !in Linked(tail);
    }
    forall k' | k' in Linked(free)
      ensures k' in r && r[k'].kind == EntryOrZero(entries, k').kind && r[k'].field2 == EntryOrZero(entries, k').field2
    {
      if k' !in Linked(tail) {
        assert k' == k && k in stepped;
      }
    }
    if free[0] != free[1] {
      HeadNotRelinked(free);
      assert k in stepped;
    }
    forall i | 0 <= i < |free| - 1 && free[i] != free[i + 1]
      ensures free[i] in r && r[free[i]].field1 == free[i + 1]
    {
      if i > 0 {
        assert free[i] == tail[i - 1] && free[i + 1] == tail[i];
      }
    }
  }

  /** Chains the sorted free numbers: the entry of each one except the last
      gets the next number in field 1. A number without an entry yet gets the
      all-zero entry with field 1 filled in. */
  function LinkFreeList(entries: map<nat, CrossReference>, free: seq<nat>): map<nat, CrossReference>
    decreases |free|
  {
    if |free| < 2 then entries
    else LinkFreeList(entries[free[0] := EntryOrZero(entries, free[0]).(field1 := free[1])], free[1..])
  }

  /** Chaining a sorted list links it as `LinksFreeList` describes. */
  lemma {:induction false} LinkFreeListLinks(entries: map<nat, CrossReference>, free: seq<nat>)
    requires NonDecreasing(free)
    ensures LinksFreeList(entries, free, LinkFreeList(entries, free))
    decreases |free|
  {
    if |free| >= 2 {
      var stepped := entries[free[0] := EntryOrZero(entries, free[0]).(field1 := free[1])];
      LinkFreeListLinks(stepped, free[1..]);
      LinkStep(entries, free, LinkFreeList(stepped, free[1..]));
    }
  }

  /** The trailer keys both writers share. */
  function CommonTrailer(f: File, size: nat): map<string, Object> {
    Fill(TrailerFields(f, size))
  }

  /** The trailer keys in the order they are set, each with whether it is
      written and its value. */
  function TrailerFields(f: File, size: nat): seq<(string, bool, Object)> {
    [ ("Size", true, Integer(size)),
      ("Prev", f.prev != 0, Integer(f.prev)),
      ("Root", true, Reference(f.root)),
      ("Encrypt", |f.encrypt| != 0, Dictionary(f.encrypt)),
      ("Info", f.info.number != 0, Reference(f.info)),
      ("ID", |f.id| != 0, Array(f.id)) ]
  }

  /** Sets the written keys one after another. */
  function Fill(fields: seq<(string, bool, Object)>): map<string, Object>
    decreases |fields|
  {
    if fields == [] then map[]
    else
      var t := Fill(fields[..|fields| - 1]);
      var last := fields[|fields| - 1];
      if last.1 then t[last.0 := last.2] else t
  }

  /** No key is set twice. */
  predicate DistinctKeys(fields: seq<(string, bool, Object)>) {
    forall a, b :: 0 <= a < b < |fields| ==> fields[a].0 != fields[b].0
  }

  /** With distinct keys, a field is present exactly when it is written, and
      then with its value. */
  lemma {:induction false} FillField(fields: seq<(string, bool, Object)>, i: nat)
    requires DistinctKeys(fields) && i < |fields|
    ensures fields[i].0 in Fill(fields) <==> fields[i].1
    ensures fields[i].1 ==> Fill(fields)[fields[i].0] == fields[i].2
    decreases |fields|
  {
    var init := fields[..|fields| - 1];
    if i < |fields| - 1 {
      assert init[i] == fields[i];
      FillField(init, i);
    } else {
      assert forall a :: 0 <= a < |init| ==> init[a].0 != fields[i].0;
      FillOnly(init, fields[i].0);
    }
  }

  /** Only the keys of the fields can be present. */
  lemma {:induction false} FillOnly(fields: seq<(string, bool, Object)>, key: string)
    requires forall a :: 0 <= a < |fields| ==> fields[a].0 != key
    ensures key !in Fill(fields)
    decreases |fields|
  {
    if fields != [] {
      FillOnly(fields[..|fields| - 1], key);
    }
  }

  /** The trailer holds `Size` and `Root` always, and no key but the six
      trailer keys. */
  lemma CommonTrailerKeys(f: File, size: nat)
    ensures var t := CommonTrailer(f, size);
      && "Size" in t && t["Size"] == Integer(size)
      && "Root" in t && t["Root"] == Reference(f.root)
      && t.Keys <= {"Size", "Prev", "Root", "Encrypt", "Info", "ID"}
  {
    var fs := TrailerFields(f, size);
    assert DistinctKeys(fs);
    FillField(fs, 0);
    FillField(fs, 2);
    forall key | key !in {"Size", "Prev", "Root", "Encrypt", "Info", "ID"}
      ensures key !in Fill(fs)
    {
      FillOnly(fs, key);
    }
  }

  /** `Prev` is present only for a file that had a previous index, and
      `Encrypt`, `Info` and `ID` only when set, each with the file's value. */
  lemma CommonTrailerOptional(f: File, size: nat)
    ensures var t := CommonTrailer(f, size);
      && ("Prev" in t <==> f.prev != 0)
      && ("Prev" in t ==> t["Prev"] == Integer(f.prev))
      && ("Encrypt" in t <==> |f.encrypt| != 0)
      && ("Encrypt" in t ==> t["Encrypt"] == Dictionary(f.encrypt))
      && ("Info" in t <==> f.info.number != 0)
      && ("Info" in t ==> t["Info"] == Reference(f.info))
      && ("ID" in t <==> |f.id| != 0)
      && ("ID" in t ==> t["ID"] == Array(f.id))
  {
    var fs := TrailerFields(f, size);
    assert DistinctKeys(fs);
    FillField(fs, 1);
    FillField(fs, 3);
    FillField(fs, 4);
    FillField(fs, 5);
  }

  /** One revision's table index: its entries, their numbers in ascending
      order, the subsections, the `Size` its trailer records (the trailer
      itself is `CommonTrailer(f, size)`), and the byte position recorded
      after `startxref`. */
  datatype Revision = Revision(
    entries: map<nat, CrossReference>,
    numbers: seq<nat>,
    groups: seq<seq<nat>>,
    size: nat,
    startxref: nat)

  /** The first write position: after the old bytes and a blank line. */
  function Start(w: Writer): nat {
    w.fileSize + 3
  }

  /** The entries of a revision before grouping, the sorted free list that was
      threaded through them, and the write position (plus one) after the last
      added object. */
  datatype Layout = Layout(entries: map<nat, CrossReference>, free: seq<nat>, end: nat)

  /** The number an index stream takes: one above every number in use. */
  function SelfNumber(order: seq<nat>): nat {
    MaxOf(order) + 1
  }

  /** The writing loop of a save: entry 0 starts as the sentinel, and the
      stream form seeds the free numbers with 0. */
  function EmitAll(f: File, order: seq<nat>, w: Writer, stream: bool): (e: Emitted)
    requires Enumerates(order, f.objects)
    ensures e.offset >= Start(w)
  {
    Emit(f.objects, order, w, Seed(w, stream))
  }

  /** The entries before the free list is chained: the stream form adds the
      in-use entry of the index stream itself, at the end position. */
  function BaseEntries(f: File, order: seq<nat>, w: Writer, stream: bool): map<nat, CrossReference>
    requires Enumerates(order, f.objects)
  {
    var e := EmitAll(f, order, w, stream);
    if stream then e.entries[SelfNumber(order) := CrossReference(InUse, e.offset - 1, 0)] else e.entries
  }

  /** The index building both writers share: the entries of the writing loop,
      with the sorted free numbers chained through them. */
  function BuildEntries(f: File, order: seq<nat>, w: Writer, stream: bool): (l: Layout)
    requires Enumerates(order, f.objects)
    ensures l.end >= Start(w)
    ensures NonDecreasing(l.free)
  {
    var e := EmitAll(f, order, w, stream);
    var free := Sort(e.free);
    Layout(LinkFreeList(BaseEntries(f, order, w, stream), free), free, e.offset)
  }

  lemma LinkedWithin(free: seq<nat>)
    ensures forall k :: k in Linked(free) ==> k in free
  {
  }

  /** The free list holds the numbers marked free, and 0 in the stream form. */
  lemma FreeListMembers(f: File, order: seq<nat>, w: Writer, stream: bool)
    requires Enumerates(order, f.objects)
    ensures forall k :: k in BuildEntries(f, order, w, stream).free <==>
      (stream && k == 0) || (k in f.objects && IsFreeSlot(f.objects[k]))
  {
    var e := EmitAll(f, order, w, stream);
    SortKeepsElements(e.free);
  }

  /** An entry exists for 0, for every added or freed number, for the index
      stream, and for every member of the free list but the last. */
  lemma BuildKeys(f: File, order: seq<nat>, w: Writer, stream: bool)
    requires Enumerates(order, f.objects)
    ensures forall k :: k in BuildEntries(f, order, w, stream).entries <==>
      || k == 0
      || (k in f.objects && Written(f.objects[k]))
      || (stream && k == SelfNumber(order))
      || k in Linked(BuildEntries(f, order, w, stream).free)
  {
    var acc := Seed(w, stream);
    EmitKeys(f.objects, order, w, acc);
    LinkFreeListLinks(BaseEntries(f, order, w, stream), BuildEntries(f, order, w, stream).free);
  }

  /** No entry lies above the largest number in use, or above the index
      stream's number in the stream form. */
  lemma BuildBounded(f: File, order: seq<nat>, w: Writer, stream: bool)
    requires Enumerates(order, f.objects)
    ensures forall k :: k in BuildEntries(f, order, w, stream).entries ==>
      k <= MaxOf(order) + (if stream then 1 else 0)
  {
    var l := BuildEntries(f, order, w, stream);
    BuildKeys(f, order, w, stream);
    FreeListMembers(f, order, w, stream);
    LinkedWithin(l.free);
    forall k | k in l.entries ensures k <= MaxOf(order) + (if stream then 1 else 0) {
      if k in order {
        var i :| 0 <= i < |order| && order[i] == k;
      }
    }
  }

  /** The number 0 is kept for the head of the free list: the store has no slot
      for it, or the free entry loaded from the file. */
  predicate ZeroReserved(f: File) {
    0 !in f.objects || (f.objects[0].OnDisk? && f.objects[0].entry.kind == FreeEntry)
  }

  /** The accumulator the writing loop starts from. */
  function Seed(w: Writer, stream: bool): (acc: Emitted)
    ensures acc.offset >= 1
  {
    Emitted(map[0 := Sentinel], if stream then [0] else [], Start(w))
  }

  /** For a number in use the entry before chaining is the one of the writing
      loop: the index stream's number is above all of them. */
  lemma BaseAgrees(f: File, order: seq<nat>, w: Writer, stream: bool, k: nat)
    requires Enumerates(order, f.objects) && k in f.objects
    ensures k in BaseEntries(f, order, w, stream) <==> k in EmitAll(f, order, w, stream).entries
    ensures k in BaseEntries(f, order, w, stream) ==>
      BaseEntries(f, order, w, stream)[k] == EmitAll(f, order, w, stream).entries[k]
  {
    var i :| 0 <= i < |order| && order[i] == k;
  }

  /** Before chaining, entry 0 is the sentinel. */
  lemma BaseZero(f: File, order: seq<nat>, w: Writer, stream: bool)
    requires Enumerates(order, f.objects) && ZeroReserved(f)
    ensures 0 in BaseEntries(f, order, w, stream) && BaseEntries(f, order, w, stream)[0] == Sentinel
  {
    assert !(0 in order && Written(f.objects[0]));
    EmitKeeps(f.objects, order, w, Seed(w, stream), 0);
    assert 0 != SelfNumber(order);
  }

  /** Before chaining, a number neither added nor freed has no entry. */
  lemma BaseAbsent(f: File, order: seq<nat>, w: Writer, stream: bool, k: nat)
    requires Enumerates(order, f.objects) && k in f.objects && k != 0 && !Written(f.objects[k])
    ensures k !in BaseEntries(f, order, w, stream)
  {
    EmitKeys(f.objects, order, w, Seed(w, stream));
    assert k !in EmitAll(f, order, w, stream).entries;
    BaseAgrees(f, order, w, stream, k);
  }

  /** Before chaining, a freed number has a free entry pointing at 0. */
  lemma BaseFreed(f: File, order: seq<nat>, w: Writer, stream: bool, k: nat)
    requires Enumerates(order, f.objects) && k in f.objects && f.objects[k].Freed?
    ensures k in BaseEntries(f, order, w, stream)
    ensures BaseEntries(f, order, w, stream)[k] == CrossReference(FreeEntry, 0, f.objects[k].nextGeneration)
  {
    EmitFreed(f.objects, order, w, Seed(w, stream), k);
    BaseAgrees(f, order, w, stream, k);
  }

  /** Before chaining, an added object has its in-use entry. */
  lemma BasePending(f: File, order: seq<nat>, w: Writer, stream: bool, k: nat)
    requires Enumerates(order, f.objects) && k in f.objects && f.objects[k].Pending?
    ensures k in BaseEntries(f, order, w, stream)
    ensures BaseEntries(f, order, w, stream)[k].kind == InUse
    ensures BaseEntries(f, order, w, stream)[k].field2 == f.objects[k].added.ref.generation
    ensures Start(w) - 1 <= BaseEntries(f, order, w, stream)[k].field1 < EmitAll(f, order, w, stream).offset - 1
  {
    EmitPending(f.objects, order, w, Seed(w, stream), k);
    BaseAgrees(f, order, w, stream, k);
  }

  /** A live number, other than 0 in the stream form, is not on the free list. */
  lemma LiveNotLinked(f: File, order: seq<nat>, w: Writer, stream: bool, k: nat)
    requires Enumerates(order, f.objects) && k in f.objects && !IsFreeSlot(f.objects[k])
    requires !(stream && k == 0)
    ensures k !in Linked(BuildEntries(f, order, w, stream).free)
  {
    FreeListMembers(f, order, w, stream);
    LinkedWithin(BuildEntries(f, order, w, stream).free);
  }

  /** A number off the free list keeps the entry it had before chaining. */
  lemma Unlinked(f: File, order: seq<nat>, w: Writer, stream: bool, k: nat)
    requires Enumerates(order, f.objects)
    requires k !in Linked(BuildEntries(f, order, w, stream).free)
    ensures k in BuildEntries(f, order, w, stream).entries <==> k in BaseEntries(f, order, w, stream)
    ensures k in BaseEntries(f, order, w, stream) ==>
      BuildEntries(f, order, w, stream).entries[k] == BaseEntries(f, order, w, stream)[k]
  {
    LinkFreeListLinks(BaseEntries(f, order, w, stream), BuildEntries(f, order, w, stream).free);
  }

  /** A number pointed onward keeps the type and generation it had before
      chaining, or those of the all-zero entry when it had none. */
  lemma LinkedMember(f: File, order: seq<nat>, w: Writer, stream: bool, k: nat)
    requires Enumerates(order, f.objects)
    requires k in Linked(BuildEntries(f, order, w, stream).free)
    ensures k in BuildEntries(f, order, w, stream).entries
    ensures BuildEntries(f, order, w, stream).entries[k].kind ==
      EntryOrZero(BaseEntries(f, order, w, stream), k).kind
    ensures BuildEntries(f, order, w, stream).entries[k].field2 ==
      EntryOrZero(BaseEntries(f, order, w, stream), k).field2
  {
    LinkFreeListLinks(BaseEntries(f, order, w, stream), BuildEntries(f, order, w, stream).free);
  }

  /** Every added object gets an in-use entry with its own generation and a
      position inside the bytes appended before the index. */
  lemma AddedEntry(f: File, order: seq<nat>, w: Writer, stream: bool, k: nat)
    requires Enumerates(order, f.objects) && k in f.objects && f.objects[k].Pending?
    requires !(stream && k == 0)
    ensures var l := BuildEntries(f, order, w, stream);
      && k in l.entries
      && l.entries[k].kind == InUse
      && l.entries[k].field2 == f.objects[k].added.ref.generation
      && Start(w) - 1 <= l.entries[k].field1 < l.end - 1
  {
    BasePending(f, order, w, stream, k);
    LiveNotLinked(f, order, w, stream, k);
    Unlinked(f, order, w, stream, k);
  }

  /** In the stream form the free list is seeded with 0, so an object added
      under number 0 is chained like a free entry: once another number is
      free, its entry keeps the in-use type and the generation, but its
      position is replaced by the least free number above 0. */
  lemma PendingZeroOverwritten(f: File, order: seq<nat>, w: Writer, k: nat)
    requires Enumerates(order, f.objects) && 0 in f.objects && f.objects[0].Pending?
    requires k in f.objects && IsFreeSlot(f.objects[k])
    ensures var l := BuildEntries(f, order, w, true);
      && 0 in l.entries
      && l.entries[0].kind == InUse
      && l.entries[0].field2 == f.objects[0].added.ref.generation
      && l.entries[0].field1 in l.free && 0 < l.entries[0].field1 <= k
      && forall j :: j in l.free && 0 < j ==> l.entries[0].field1 <= j
  {
    var l := BuildEntries(f, order, w, true);
    FreeListMembers(f, order, w, true);
    assert k != 0;
    var i := ZeroBeforePositive(l.free, k);
    assert 0 in Linked(l.free) by {
      assert l.free[i] == Linked(l.free)[i];
    }
    LinkedMember(f, order, w, true, 0);
    BasePending(f, order, w, true, 0);
    LinkFreeListLinks(BaseEntries(f, order, w, true), l.free);
    assert l.entries[0].field1 == l.free[i + 1];
  }

  /** In an ascending list holding 0 and a positive `k`, some 0 is directly
      followed by the least positive member. */
  lemma ZeroBeforePositive(free: seq<nat>, k: nat) returns (i: nat)
    requires NonDecreasing(free) && 0 in free && k in free && k > 0
    ensures i + 1 < |free| && free[i] == 0 && 0 < free[i + 1]
    ensures forall j :: j in free && 0 < j ==> free[i + 1] <= j
  {
    var p :| 0 <= p < |free| && free[p] == k;
    i := 0;
    while free[i + 1] == 0
      invariant i < p && free[i] == 0
      decreases p - i
    {
      i := i + 1;
    }
    forall j | j in free && 0 < j
      ensures free[i + 1] <= j
    {
      var q :| 0 <= q < |free| && free[q] == j;
      assert i < q;
    }
  }

  /** Before chaining, two added objects have different positions. */
  lemma BaseDistinct(f: File, order: seq<nat>, w: Writer, stream: bool, k1: nat, k2: nat)
    requires Enumerates(order, f.objects)
    requires k1 in f.objects && f.objects[k1].Pending? && k2 in f.objects && f.objects[k2].Pending?
    requires k1 != k2
    ensures k1 in BaseEntries(f, order, w, stream) && k2 in BaseEntries(f, order, w, stream)
    ensures BaseEntries(f, order, w, stream)[k1].field1 != BaseEntries(f, order, w, stream)[k2].field1
  {
    EmitDistinctOffsets(f.objects, order, w, Seed(w, stream), k1, k2);
    BaseAgrees(f, order, w, stream, k1);
    BaseAgrees(f, order, w, stream, k2);
  }

  /** Two added objects never share a recorded position. */
  lemma AddedPositionsDistinct(f: File, order: seq<nat>, w: Writer, stream: bool, k1: nat, k2: nat)
    requires Enumerates(order, f.objects)
    requires k1 in f.objects && f.objects[k1].Pending? && k2 in f.objects && f.objects[k2].Pending?
    requires k1 != k2 && !(stream && (k1 == 0 || k2 == 0))
    ensures var l := BuildEntries(f, order, w, stream);
      k1 in l.entries && k2 in l.entries && l.entries[k1].field1 != l.entries[k2].field1
  {
    BaseDistinct(f, order, w, stream, k1, k2);
    LiveNotLinked(f, order, w, stream, k1);
    LiveNotLinked(f, order, w, stream, k2);
    Unlinked(f, order, w, stream, k1);
    Unlinked(f, order, w, stream, k2);
  }

  /** A number freed in this session gets a free entry carrying the generation
      for its next use. */
  lemma FreedEntry(f: File, order: seq<nat>, w: Writer, stream: bool, k: nat)
    requires Enumerates(order, f.objects) && k in f.objects && f.objects[k].Freed?
    ensures var l := BuildEntries(f, order, w, stream);
      && k in l.entries
      && l.entries[k].kind == FreeEntry
      && l.entries[k].field2 == f.objects[k].nextGeneration
  {
    BaseFreed(f, order, w, stream, k);
    if k in Linked(BuildEntries(f, order, w, stream).free) {
      LinkedMember(f, order, w, stream, k);
    } else {
      Unlinked(f, order, w, stream, k);
    }
  }

  /** Entries loaded from the file that are in use are not written again. */
  lemma UnmodifiedOmitted(f: File, order: seq<nat>, w: Writer, stream: bool, k: nat)
    requires Enumerates(order, f.objects) && k in f.objects && k != 0
    requires f.objects[k].OnDisk? && f.objects[k].entry.kind != FreeEntry
    ensures k !in BuildEntries(f, order, w, stream).entries
  {
    BaseAbsent(f, order, w, stream, k);
    LiveNotLinked(f, order, w, stream, k);
    Unlinked(f, order, w, stream, k);
  }

  /** Free entries loaded from the file are never put among the entries of
      the writing loop, so chaining reads the all-zero entry for them: each one
      that is followed on the free list is written with generation 0, and the
      last one is not written at all. */
  lemma OnDiskFreeEntry(f: File, order: seq<nat>, w: Writer, stream: bool, k: nat)
    requires Enumerates(order, f.objects) && k in f.objects && k != 0
    requires f.objects[k].OnDisk? && f.objects[k].entry.kind == FreeEntry
    ensures var l := BuildEntries(f, order, w, stream);
      && k in l.free
      && (k in l.entries <==> k in Linked(l.free))
      && (k in l.entries ==> l.entries[k].kind == FreeEntry && l.entries[k].field2 == 0)
  {
    FreeListMembers(f, order, w, stream);
    BaseAbsent(f, order, w, stream, k);
    if k in Linked(BuildEntries(f, order, w, stream).free) {
      LinkedMember(f, order, w, stream, k);
    } else {
      Unlinked(f, order, w, stream, k);
    }
  }

  /** Entry 0 is a free entry with generation 65535; without a free number to
      point at, the table form writes it exactly as the sentinel. */
  lemma SentinelEntry(f: File, order: seq<nat>, w: Writer, stream: bool)
    requires Enumerates(order, f.objects) && ZeroReserved(f)
    ensures var l := BuildEntries(f, order, w, stream);
      && 0 in l.entries
      && l.entries[0].kind == FreeEntry
      && l.entries[0].field2 == 65535
      && (!stream && 0 !in f.objects ==> l.entries[0] == Sentinel)
  {
    BaseZero(f, order, w, stream);
    if 0 in Linked(BuildEntries(f, order, w, stream).free) {
      LinkedMember(f, order, w, stream, 0);
      if !stream && 0 !in f.objects {
        FreeListMembers(f, order, w, stream);
        LinkedWithin(BuildEntries(f, order, w, stream).free);
      }
    } else {
      Unlinked(f, order, w, stream, 0);
    }
  }

  /** The list ends at its last member: an entry written for it points at 0. */
  lemma FreeListEnds(f: File, order: seq<nat>, w: Writer, stream: bool, k: nat)
    requires Enumerates(order, f.objects) && ZeroReserved(f)
    requires k in BuildEntries(f, order, w, stream).free
    requires k !in Linked(BuildEntries(f, order, w, stream).free)
    requires k in BuildEntries(f, order, w, stream).entries
    ensures BuildEntries(f, order, w, stream).entries[k].field1 == 0
  {
    FreeListMembers(f, order, w, stream);
    Unlinked(f, order, w, stream, k);
    if k == 0 {
      BaseZero(f, order, w, stream);
    } else if f.objects[k].Freed? {
      BaseFreed(f, order, w, stream, k);
    } else {
      BaseAbsent(f, order, w, stream, k);
    }
  }

  /** The writing loop only makes free and in-use entries. */
  lemma {:induction false} EmitKinds(objects: map<nat, Slot>, order: seq<nat>, w: Writer, acc: Emitted)
    requires acc.offset >= 1
    requires forall k :: k in order ==> k in objects
    requires forall k :: k in acc.entries ==> acc.entries[k].kind != Compressed
    ensures forall k :: k in Emit(objects, order, w, acc).entries ==> Emit(objects, order, w, acc).entries[k].kind != Compressed
    decreases |order|
  {
    if order != [] {
      assert order[0] in order;
      assert forall k :: k in order[1..] ==> k in order;
      EmitKinds(objects, order[1..], w, EmitOne(objects, order[0], w, acc));
    }
  }

  /** No entry of either form refers into an object stream, so the table
      writer never reaches its panic for such entries. */
  lemma NoCompressedEntries(f: File, order: seq<nat>, w: Writer, stream: bool, k: nat)
    requires Enumerates(order, f.objects)
    requires k in BuildEntries(f, order, w, stream).entries
    ensures BuildEntries(f, order, w, stream).entries[k].kind != Compressed
  {
    var base := BaseEntries(f, order, w, stream);
    EmitKinds(f.objects, order, w, Seed(w, stream));
    assert forall j :: j in base ==> base[j].kind != Compressed;
    if k in Linked(BuildEntries(f, order, w, stream).free) {
      LinkedMember(f, order, w, stream, k);
    } else {
      Unlinked(f, order, w, stream, k);
    }
  }

  /** `size` is one above the largest number in use, and 1 for an empty store. */
  predicate OneAboveLargest(size: nat, objects: map<nat, Slot>) {
    && size >= 1
    && (forall k :: k in objects ==> k < size)
    && (objects == map[] ==> size == 1)
    && (objects != map[] ==> size - 1 in objects)
  }

  lemma MaxOfOrder(order: seq<nat>, objects: map<nat, Slot>)
    requires Enumerates(order, objects)
    ensures OneAboveLargest(MaxOf(order) + 1, objects)
  {
    forall k | k in objects ensures k <= MaxOf(order) {
      var i :| 0 <= i < |order| && order[i] == k;
    }
    if objects != map[] {
      var k :| k in objects;
      assert k in order;
    } else if order != [] {
      assert order[0] in order;
    }
  }

  /** The entry numbers of a revision in ascending order, found below `bound`,
      which lies above every entry. */
  function SortedNumbers(entries: map<nat, CrossReference>, bound: nat): (numbers: seq<nat>)
    requires forall k :: k in entries ==> k < bound
    ensures Increasing(numbers)
    ensures forall k :: k in numbers <==> k in entries
  {
    KeysBelow(entries, bound)
  }

  /** The index of the table writer: entries, their numbers in ascending order
      split into maximal runs of consecutive numbers, and a trailer whose
      `Size` is one above the largest number in use. */
  function SaveWithXrefTable(f: File, order: seq<nat>, w: Writer): (r: Revision)
    requires Enumerates(order, f.objects)
    ensures Increasing(r.numbers)
    ensures forall k :: k in r.numbers <==> k in r.entries
    ensures RunPartition(r.numbers, r.groups)
    ensures r.size >= 1 && OneAboveLargest(r.size, f.objects)
    ensures r.startxref >= Start(w) - 1
  {
    var l := BuildEntries(f, order, w, false);
    BuildBounded(f, order, w, false);
    BuildKeys(f, order, w, false);
    MaxOfOrder(order, f.objects);
    var numbers := SortedNumbers(l.entries, MaxOf(order) + 1);
    assert 0 in numbers;
    Revision(l.entries, numbers, Runs.Runs(numbers), MaxOf(order) + 1, l.end - 1)
  }

  /** The value of a field of an entry: 0 the type, 1 and 2 the two numbers. */
  function Field(e: CrossReference, c: nat): nat
    requires c < 3
  {
    if c == 0 then e.kind.Code() else if c == 1 then e.field1 else e.field2
  }

  /** The `c`-th field of every row. */
  function Column(rows: seq<CrossReference>, c: nat): (col: seq<nat>)
    requires c < 3
    ensures |col| == |rows|
    ensures forall j :: 0 <= j < |rows| ==> col[j] == Field(rows[j], c)
  {
    seq(|rows|, j requires 0 <= j < |rows| => Field(rows[j], c))
  }

  /** The byte widths of the three fields: each chosen for the largest value
      that field takes. */
  function Widths(rows: seq<CrossReference>, w: Writer): (widths: seq<nat>)
    ensures |widths| == 3
    ensures forall c :: 0 <= c < 3 ==> widths[c] == w.byteWidth(MaxOf(Column(rows, c)))
  {
    [w.byteWidth(MaxOf(Column(rows, 0))), w.byteWidth(MaxOf(Column(rows, 1))), w.byteWidth(MaxOf(Column(rows, 2)))]
  }

  /** One row of the stream: its three fields, each in its width. */
  function EncodeRow(e: CrossReference, widths: seq<nat>, encode: (nat, nat) -> seq<Byte>): seq<Byte>
    requires |widths| == 3
  {
    encode(e.kind.Code(), widths[0]) + encode(e.field1, widths[1]) + encode(e.field2, widths[2])
  }

  /** The stream payload: the rows one after another. */
  function Pack(rows: seq<CrossReference>, widths: seq<nat>, encode: (nat, nat) -> seq<Byte>): seq<Byte>
    requires |widths| == 3
  {
    if rows == [] then [] else EncodeRow(rows[0], widths, encode) + Pack(rows[1..], widths, encode)
  }

  lemma MulStep(j: nat, stride: nat)
    ensures (j + 1) * stride == j * stride + stride
  {
  }

  lemma MulMono(a: nat, b: nat, stride: nat)
    requires a <= b
    ensures a * stride <= b * stride
  {
  }

  lemma SliceAfter(head: seq<Byte>, tail: seq<Byte>, a: nat, b: nat)
    requires a <= b <= |tail|
    ensures (head + tail)[|head| + a .. |head| + b] == tail[a..b]
  {
    forall i | 0 <= i < b - a ensures (head + tail)[|head| + a .. |head| + b][i] == tail[a..b][i] {
      assert (head + tail)[|head| + a + i] == tail[a + i];
    }
  }

  /** The `j`-th block of `stride` bytes. */
  function Chunk(s: seq<Byte>, j: nat, stride: nat): (c: seq<Byte>)
    requires (j + 1) * stride <= |s|
    ensures |c| == stride
  {
    MulStep(j, stride);
    s[j * stride .. (j + 1) * stride]
  }

  /** Past a first block of `stride` bytes, block `j` is block `j - 1` of the
      rest. */
  lemma ChunkAfter(head: seq<Byte>, tail: seq<Byte>, j: nat, stride: nat)
    requires |head| == stride && 0 < j && j * stride <= |tail|
    ensures (j + 1) * stride <= |head + tail|
    ensures Chunk(head + tail, j, stride) == Chunk(tail, j - 1, stride)
  {
    var k: nat := j - 1;
    MulStep(k, stride);
    MulStep(j, stride);
    var lo: nat := k * stride;
    SliceAfter(head, tail, lo, j * stride);
  }

  /** When the encoder always produces the requested number of bytes, the
      payload is as long as the rows times the bytes of one row. */
  lemma {:induction false} PackLength(rows: seq<CrossReference>, widths: seq<nat>, encode: (nat, nat) -> seq<Byte>)
    requires |widths| == 3
    requires forall v, n :: |encode(v, n)| == n
    ensures |Pack(rows, widths, encode)| == |rows| * (widths[0] + widths[1] + widths[2])
  {
    if rows != [] {
      PackLength(rows[1..], widths, encode);
      MulStep(|rows| - 1, widths[0] + widths[1] + widths[2]);
    }
  }

  /** ... and row `j` is found at `j` times the bytes of one row, so the rows
      can be read back one by one. */
  lemma {:induction false} PackRow(rows: seq<CrossReference>, widths: seq<nat>, encode: (nat, nat) -> seq<Byte>, j: nat)
    requires |widths| == 3 && j < |rows|
    requires forall v, n :: |encode(v, n)| == n
    ensures var stride := widths[0] + widths[1] + widths[2];
      && (j + 1) * stride <= |Pack(rows, widths, encode)|
      && Chunk(Pack(rows, widths, encode), j, stride) == EncodeRow(rows[j], widths, encode)
  {
    var stride := widths[0] + widths[1] + widths[2];
    var head := EncodeRow(rows[0], widths, encode);
    var tail := Pack(rows[1..], widths, encode);
    assert |head| == stride;
    assert Pack(rows, widths, encode) == head + tail;
    PackLength(rows, widths, encode);
    MulMono(j + 1, |rows|, stride);
    MulStep(j, stride);
    if j == 0 {
      assert (head + tail)[..stride] == head;
    } else {
      PackRow(rows[1..], widths, encode, j - 1);
      ChunkAfter(head, tail, j, stride);
      assert rows[1..][j - 1] == rows[j];
    }
  }

  /** The rows of the stream, in ascending number order. */
  function Rows(entries: map<nat, CrossReference>, numbers: seq<nat>): (rows: seq<CrossReference>)
    requires forall j :: 0 <= j < |numbers| ==> numbers[j] in entries
    ensures |rows| == |numbers|
    ensures forall j :: 0 <= j < |numbers| ==> rows[j] == entries[numbers[j]]
  {
    seq(|numbers|, j requires 0 <= j < |numbers| => entries[numbers[j]])
  }

  /** The dictionary of the index stream: the trailer keys, then `Type`,
      `Index` (the first number and length of every run) and `W` (the field
      widths). */
  function StreamTrailer(f: File, size: nat, groups: seq<seq<nat>>, widths: seq<nat>): map<string, Object>
    requires |widths| == 3
    requires forall j :: 0 <= j < |groups| ==> |groups[j]| > 0
  {
    CommonTrailer(f, size)["Type" := Name("XRef")]["Index" := Array(IndexArray(groups))]
      ["W" := Array([Integer(widths[0]), Integer(widths[1]), Integer(widths[2])])]
  }

  /** The index stream's dictionary adds `Type`, `Index` and `W` to the
      trailer keys and keeps every trailer key as it is. */
  lemma StreamTrailerKeys(f: File, size: nat, groups: seq<seq<nat>>, widths: seq<nat>)
    requires |widths| == 3
    requires forall j :: 0 <= j < |groups| ==> |groups[j]| > 0
    ensures var t := StreamTrailer(f, size, groups, widths);
      && "Type" in t && t["Type"] == Name("XRef")
      && "Index" in t && t["Index"] == Array(IndexArray(groups))
      && "W" in t && t["W"] == Array([Integer(widths[0]), Integer(widths[1]), Integer(widths[2])])
      && "Size" in t && t["Size"] == Integer(size)
      && (forall key :: key in CommonTrailer(f, size) ==> key in t)
      && (forall key :: key in t && key != "Type" && key != "Index" && key != "W" ==>
            key in CommonTrailer(f, size) && t[key] == CommonTrailer(f, size)[key])
  {
    CommonTrailerKeys(f, size);
    assert "Size" != "Type" && "Size" != "Index" && "Size" != "W";
  }

  /** The entries of the stream form in ascending order: every one lies at or
      below the index stream's number, and 0 is among them. */
  function StreamNumbers(f: File, order: seq<nat>, w: Writer): (numbers: seq<nat>)
    requires Enumerates(order, f.objects)
    ensures Increasing(numbers)
    ensures forall k :: k in numbers <==> k in BuildEntries(f, order, w, true).entries
    ensures forall k :: k in numbers ==> k <= SelfNumber(order)
    ensures 0 in numbers
  {
    BuildBounded(f, order, w, true);
    BuildKeys(f, order, w, true);
    SortedNumbers(BuildEntries(f, order, w, true).entries, SelfNumber(order) + 1)
  }

  /** The numbering of the stream writer's index. */
  datatype Numbering = Numbering(
    entries: map<nat, CrossReference>,
    numbers: seq<nat>,
    groups: seq<seq<nat>>,
    startxref: nat,
    self: nat)

  /** The numbers of the stream form's index are ascending, exactly the entry
      numbers, and split into maximal runs; the index stream's number `self`
      is one above every number in use, and its own in-use entry, at the top,
      records the position after `startxref`. */
  ghost predicate Numbered(f: File, n: Numbering) {
    && Increasing(n.numbers)
    && (forall k :: k in n.numbers <==> k in n.entries)
    && RunPartition(n.numbers, n.groups)
    && OneAboveLargest(n.self, f.objects)
    && n.self in n.entries
    && n.entries[n.self] == CrossReference(InUse, n.startxref, 0)
    && (forall k :: k in n.entries ==> k <= n.self)
  }

  function NumberStream(f: File, order: seq<nat>, w: Writer): (n: Numbering)
    requires Enumerates(order, f.objects)
    ensures Numbered(f, n)
    ensures n.startxref >= Start(w) - 1
  {
    var l := BuildEntries(f, order, w, true);
    MaxOfOrder(order, f.objects);
    StreamEntry(f, order, w);
    var numbers := StreamNumbers(f, order, w);
    Numbering(l.entries, numbers, Runs.Runs(numbers), l.end - 1, SelfNumber(order))
  }

  /** The index of the stream writer: its numbering and the field widths. */
  datatype StreamIndex = StreamIndex(numbering: Numbering, widths: seq<nat>)

  /** A numbering as above, with the widths chosen for its rows. */
  ghost predicate IsStreamIndex(f: File, w: Writer, x: StreamIndex) {
    && Numbered(f, x.numbering)
    && x.widths == Widths(Rows(x.numbering.entries, x.numbering.numbers), w)
  }

  /** The index stream's dictionary: the trailer with `Type`, `Index` and `W`. */
  function IndexDictionary(f: File, x: StreamIndex): map<string, Object>
    requires |x.widths| == 3
    requires forall j :: 0 <= j < |x.numbering.groups| ==> |x.numbering.groups[j]| > 0
  {
    StreamTrailer(f, x.numbering.self + 1, x.numbering.groups, x.widths)
  }

  /** The index stream's payload: one packed row per entry in ascending
      number order. */
  function IndexPayload(x: StreamIndex, w: Writer): seq<Byte>
    requires |x.widths| == 3
    requires forall j :: 0 <= j < |x.numbering.numbers| ==> x.numbering.numbers[j] in x.numbering.entries
  {
    Pack(Rows(x.numbering.entries, x.numbering.numbers), x.widths, w.intToBytes)
  }

  /** The index stream, at generation 0 under the numbering's own number. */
  function IndexStream(f: File, x: StreamIndex, w: Writer): IndirectObject
    requires IsStreamIndex(f, w, x)
  {
    IndirectObject(ObjectReference(x.numbering.self, 0), Stream(IndexDictionary(f, x), IndexPayload(x, w)))
  }

  /** The index built by the stream writer. */
  function BuildStreamIndex(f: File, order: seq<nat>, w: Writer): (x: StreamIndex)
    requires Enumerates(order, f.objects)
    ensures IsStreamIndex(f, w, x)
    ensures x.numbering.startxref >= Start(w) - 1
  {
    var n := NumberStream(f, order, w);
    StreamIndex(n, Widths(Rows(n.entries, n.numbers), w))
  }

  /** The index stream's dictionary carries `Type` XRef, `Size` one above its
      own number, `W` with the three field widths, and an `Index` that reads
      back as exactly the entry numbers; every other key is a trailer key. */
  lemma StreamDictionary(f: File, x: StreamIndex)
    requires |x.widths| == 3
    requires RunPartition(x.numbering.numbers, x.numbering.groups)
    ensures var t := IndexDictionary(f, x);
      && "Type" in t && t["Type"] == Name("XRef")
      && "Size" in t && t["Size"] == Integer(x.numbering.self + 1)
      && "W" in t && t["W"] == Array([Integer(x.widths[0]), Integer(x.widths[1]), Integer(x.widths[2])])
      && "Index" in t && t["Index"].Array? && ExpandIndex(t["Index"].items) == x.numbering.numbers
      && (forall key :: key in t && key != "Type" && key != "Index" && key != "W" ==>
            key in CommonTrailer(f, x.numbering.self + 1)
            && t[key] == CommonTrailer(f, x.numbering.self + 1)[key])
  {
    StreamTrailerKeys(f, x.numbering.self + 1, x.numbering.groups, x.widths);
    ExpandIndexArray(x.numbering.groups);
  }

  /** With an encoder that produces exactly the requested number of bytes, the
      payload is one fixed-size row per entry, row `j` encoding the entry of
      the `j`-th number with the widths of `W`. */
  lemma StreamPayloadRows(x: StreamIndex, w: Writer, j: nat)
    requires |x.widths| == 3
    requires forall j :: 0 <= j < |x.numbering.numbers| ==> x.numbering.numbers[j] in x.numbering.entries
    requires forall v, n :: |w.intToBytes(v, n)| == n
    ensures var n := x.numbering;
      var payload := IndexPayload(x, w);
      var stride := x.widths[0] + x.widths[1] + x.widths[2];
      && |payload| == |n.numbers| * stride
      && (j < |n.numbers| ==>
            && n.numbers[j] in n.entries
            && (j + 1) * stride <= |payload|
            && Chunk(payload, j, stride) == EncodeRow(n.entries[n.numbers[j]], x.widths, w.intToBytes))
  {
    var rows := Rows(x.numbering.entries, x.numbering.numbers);
    assert IndexPayload(x, w) == Pack(rows, x.widths, w.intToBytes);
    PackLength(rows, x.widths, w.intToBytes);
    if j < |x.numbering.numbers| {
      PackRow(rows, x.widths, w.intToBytes, j);
    }
  }

  /** Each width in `W` is chosen for the largest value its field takes among
      the entries. */
  lemma StreamWidths(x: StreamIndex, w: Writer, c: nat)
    requires forall k :: k in x.numbering.numbers <==> k in x.numbering.entries
    requires x.numbering.numbers != []
    requires x.widths == Widths(Rows(x.numbering.entries, x.numbering.numbers), w)
    requires c < 3
    ensures exists m: nat ::
      && x.widths[c] == w.byteWidth(m)
      && (forall k :: k in x.numbering.entries ==> Field(x.numbering.entries[k], c) <= m)
      && (exists k :: k in x.numbering.entries && Field(x.numbering.entries[k], c) == m)
  {
    var n := x.numbering;
    var col := Column(Rows(n.entries, n.numbers), c);
    var m := MaxOf(col);
    forall k | k in n.entries ensures Field(n.entries[k], c) <= m {
      var j :| 0 <= j < |n.numbers| && n.numbers[j] == k;
      assert col[j] == Field(n.entries[k], c);
    }
    var j :| 0 <= j < |col| && col[j] == m;
    var top := n.numbers[j];
    assert top in n.entries && Field(n.entries[top], c) == m;
    assert x.widths[c] == w.byteWidth(m);
  }

  /** What the stream writer leaves: the store and the index it wrote. */
  datatype StreamSave = StreamSave(file: File, index: StreamIndex)

  /** The stream writer first records the index stream's in-use entry in the
      store and then adds the index stream itself. For a number not in use the
      add always succeeds, so the only change to the store is the index
      stream, pending under its number. */
  function Commit(f: File, stream: IndirectObject, position: nat): (g: File)
    requires stream.ref.number !in f.objects && stream.ref.generation == 0
    ensures g == f.(objects := f.objects[stream.ref.number := Pending(stream)])
  {
    var staged := f.(objects := f.objects[stream.ref.number := OnDisk(CrossReference(InUse, position, 0))]);
    var added := Add(staged, Indirect(stream));
    assert added == Added(staged.(objects := staged.objects[stream.ref.number := Pending(stream)]), stream.ref);
    assert staged.objects[stream.ref.number := Pending(stream)] == f.objects[stream.ref.number := Pending(stream)];
    added.file
  }

  /** The stream writer: builds the index and commits the index stream, whose
      number was not in use before. */
  function SaveWithXrefStream(f: File, order: seq<nat>, w: Writer): (r: StreamSave)
    requires Enumerates(order, f.objects)
    ensures IsStreamIndex(f, w, r.index)
    ensures r.index.numbering.self !in f.objects
    ensures r.file == f.(objects := f.objects[r.index.numbering.self := Pending(IndexStream(f, r.index, w))])
  {
    var x := BuildStreamIndex(f, order, w);
    assert OneAboveLargest(x.numbering.self, f.objects);
    StreamSave(Commit(f, IndexStream(f, x, w), x.numbering.startxref), x)
  }

  /** The index stream's entry survives chaining: it is above every free number. */
  lemma StreamEntry(f: File, order: seq<nat>, w: Writer)
    requires Enumerates(order, f.objects)
    ensures var l := BuildEntries(f, order, w, true);
      && SelfNumber(order) in l.entries
      && l.entries[SelfNumber(order)] == CrossReference(InUse, l.end - 1, 0)
  {
    var self := SelfNumber(order);
    FreeListMembers(f, order, w, true);
    LinkedWithin(BuildEntries(f, order, w, true).free);
    MaxOfOrder(order, f.objects);
    Unlinked(f, order, w, true, self);
  }
}
