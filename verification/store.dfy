/**
  The object store of an incremental-update PDF file: a map from object number
  to slot, the counter for automatically numbered objects, and the trailer
  values carried over from the opened file. `Add` and `Free` are the only
  operations that change it.
 */
module Store {
  import opened Objects

  /** Entry type of a cross-reference entry (ISO 32000-1 section 7.5.8.3). */
  datatype Kind = FreeEntry | InUse | Compressed {
    /** The number written in the type field. */
    function Code(): nat {
      match this
      case FreeEntry => 0
      case InUse => 1
      case Compressed => 2
    }
  }

  /** One cross-reference entry: a type and two numeric fields. For a free
      entry they are the next free object number and the generation for the
      next use; for an in-use entry the byte offset and the generation; for a
      compressed entry the object-stream number and the index inside it. */
  datatype CrossReference = CrossReference(kind: Kind, field1: nat, field2: nat)

  /** The all-zero entry, the value read for a number absent from a map. */
  const ZeroEntry := CrossReference(FreeEntry, 0, 0)

  /** Entry 0, head of the free list, with the maximal generation 65535. */
  const Sentinel := CrossReference(FreeEntry, 0, 65535)

  /** What the store holds for one object number: an entry loaded from the
      file, an object added in memory, or a tombstone holding the generation
      for the next use of the number. */
  datatype Slot =
    | OnDisk(entry: CrossReference)
    | Pending(added: IndirectObject)
    | Freed(nextGeneration: nat)

  datatype File = File(
    objects: map<nat, Slot>,
    /** The number given to the next automatically numbered object. */
    size: nat,
    /** Byte offset of the previous revision's index, 0 when there is none. */
    prev: int,
    root: ObjectReference,
    encrypt: map<string, Object>,
    info: ObjectReference,
    id: seq<Object>)

  /** A store for a newly created file: no objects, numbering from 1. */
  function Created(root: ObjectReference): File {
    File(map[], 1, 0, root, map[], ObjectReference(0, 0), [])
  }

  /** The smallest generation `Add` accepts for a number holding `s`. Objects
      in object streams always have generation 0. */
  function MinGeneration(s: Slot): nat {
    match s
    case OnDisk(e) => if e.kind == Compressed then 0 else e.field2
    case Pending(io) => io.ref.generation
    case Freed(g) => g
  }

  /** The slot already marks the number as unused. */
  predicate IsFreeSlot(s: Slot) {
    s.Freed? || (s.OnDisk? && s.entry.kind == FreeEntry)
  }

  /** `after` differs from `before` at most in the slot of `n`, which it has. */
  predicate OnlyChanged(before: map<nat, Slot>, after: map<nat, Slot>, n: nat) {
    && after.Keys == before.Keys + {n}
    && forall k :: k in before && k != n ==> after[k] == before[k]
  }

  datatype AddResult =
    | Added(file: File, ref: ObjectReference)
      /** The store is left as it was; `ref` carries the smallest acceptable generation. */
    | GenerationTooLow(ref: ObjectReference)

  /** Adds an object. An indirect object keeps its own reference and replaces
      whatever the store holds for its number, unless its generation is below
      that slot's minimum; any other object gets number `size` and generation 0. */
  function Add(f: File, obj: Object): (r: AddResult)
    ensures r.GenerationTooLow? <==>
      obj.Indirect? && obj.indirect.ref.number in f.objects
      && obj.indirect.ref.generation < MinGeneration(f.objects[obj.indirect.ref.number])
    ensures r.GenerationTooLow? ==>
      && r.ref.number == obj.indirect.ref.number
      && r.ref.generation == MinGeneration(f.objects[r.ref.number])
      && r.ref.generation > obj.indirect.ref.generation
    ensures r.Added? && obj.Indirect? ==>
      && r.ref == obj.indirect.ref
      && OnlyChanged(f.objects, r.file.objects, r.ref.number)
      && r.file.objects[r.ref.number] == Pending(obj.indirect)
      && r.file == f.(objects := r.file.objects)
    ensures r.Added? && !obj.Indirect? ==>
      && r.ref == ObjectReference(f.size, 0)
      && OnlyChanged(f.objects, r.file.objects, f.size)
      && r.file.objects[f.size] == Pending(IndirectObject(r.ref, obj))
      && r.file == f.(objects := r.file.objects, size := f.size + 1)
  {
    match obj
    case Indirect(io) =>
      var n := io.ref.number;
      if n in f.objects && io.ref.generation < MinGeneration(f.objects[n]) then
        GenerationTooLow(ObjectReference(n, MinGeneration(f.objects[n])))
      else
        Added(f.(objects := f.objects[n := Pending(io)]), io.ref)
    case _ =>
      var ref := ObjectReference(f.size, 0);
      Added(f.(objects := f.objects[f.size := Pending(IndirectObject(ref, obj))], size := f.size + 1), ref)
  }

  /** The slot a live number gets when freed. */
  function FreedSlot(s: Slot): (t: Slot)
    requires !IsFreeSlot(s)
    ensures t.Freed? && IsFreeSlot(t)
    ensures MinGeneration(t) == MinGeneration(s) + 1
  {
    match s
    case OnDisk(e) => if e.kind == InUse then Freed(e.field2 + 1) else Freed(1)
    case Pending(io) => Freed(io.ref.generation + 1)
  }

  /** Frees an object number: a live slot becomes a tombstone whose generation
      is one above the slot's minimum; an absent or already free number is left
      alone. */
  function Free(f: File, n: nat): (g: File)
    ensures n !in f.objects || IsFreeSlot(f.objects[n]) ==> g == f
    ensures n in f.objects && !IsFreeSlot(f.objects[n]) ==>
      && OnlyChanged(f.objects, g.objects, n)
      && g.objects[n].Freed?
      && MinGeneration(g.objects[n]) == MinGeneration(f.objects[n]) + 1
      && g == f.(objects := g.objects)
  {
    if n !in f.objects || IsFreeSlot(f.objects[n]) then f
    else f.(objects := f.objects[n := FreedSlot(f.objects[n])])
  }

  /** Freeing twice is freeing once. */
  lemma FreeIdempotent(f: File, n: nat)
    ensures Free(Free(f, n), n) == Free(f, n)
  {
  }

  /** After a number is freed, re-adding it is accepted exactly from the
      generation one above its former minimum. */
  lemma FreeThenAdd(f: File, n: nat, generation: nat, obj: Object)
    requires n in f.objects && !IsFreeSlot(f.objects[n])
    ensures Add(Free(f, n), Indirect(IndirectObject(ObjectReference(n, generation), obj))).Added?
      <==> generation >= MinGeneration(f.objects[n]) + 1
  {
  }

  /** A successful add never lowers the minimum generation of a number already
      present, provided the automatically chosen number is not already in use. */
  lemma AddKeepsMinimums(f: File, obj: Object)
    requires obj.Indirect? || f.size !in f.objects
    requires Add(f, obj).Added?
    ensures forall k :: k in f.objects ==>
      k in Add(f, obj).file.objects
      && MinGeneration(Add(f, obj).file.objects[k]) >= MinGeneration(f.objects[k])
  {
    var r := Add(f, obj);
    forall k | k in f.objects
      ensures k in r.file.objects && MinGeneration(r.file.objects[k]) >= MinGeneration(f.objects[k])
    {
      if obj.Indirect? && k == obj.indirect.ref.number {
        assert r.file.objects[k] == Pending(obj.indirect);
      }
    }
  }

  /** The counter is not advanced by adds that bring their own number, so an
      automatically numbered object can replace a live one without any
      generation check: here a freed number 1 gets generation 0 again. */
  lemma AutoNumberCanReplaceExisting()
    ensures
      var f := Created(ObjectReference(0, 0));
      var a := Add(f, Indirect(IndirectObject(ObjectReference(1, 0), Null)));
      var b := Free(a.file, 1);
      var c := Add(b, Boolean(true));
      && a.Added? && c.Added?
      && MinGeneration(b.objects[1]) == 1
      && c.ref == ObjectReference(1, 0)
      && MinGeneration(c.file.objects[1]) == 0
  {
  }
}
