/**
  The annotation example of the repository (after ISO 32000-1 annex H.7)
  replayed against the store. Each stage opens the file the previous one
  saved, and every save adds an index stream one above the largest number
  in use: 7 for the minimal file, then 12, 13 and 14 for stages 1 to 3.
  Stage 3 therefore opens the numbers below 14 and deletes annotations 8
  and 9; stage 4 opens the numbers below 15, with 8 and 9 as free entries of
  generation 1, adds new annotations under 8 and 9 at generation 1 and under
  12 at generation 0, rewrites the annotation array 7, and saves.
 */
module Scenario {
  import opened Objects
  import opened Store
  import opened Save
  import opened Runs

  /** The store as stage 3 opens it: entry 0 heads the free list, and the
      objects 1 to 13 (index streams 7, 12 and 13 among them) are in use at
      generation 0. */
  function Stage3(): (f: File)
    ensures forall k: nat :: k in f.objects <==> k < 14
  {
    File(LoadedBelow(14), 14, 0, ObjectReference(1, 0), map[], ObjectReference(0, 0), [])
  }

  /** The store as stage 4 opens it. Stage 3 wrote 8 and 9 as free entries of
      generation 1, chained from entry 0 to 8 to 9, and its index stream 14 as
      in use. */
  function Stage4(): (f: File)
    ensures forall k: nat :: k in f.objects <==> k < 15
    ensures f.objects[8] == OnDisk(CrossReference(FreeEntry, 9, 1))
    ensures f.objects[9] == OnDisk(CrossReference(FreeEntry, 0, 1))
  {
    var loaded := LoadedBelow(15)
      [0 := OnDisk(CrossReference(FreeEntry, 8, 65535))]
      [8 := OnDisk(CrossReference(FreeEntry, 9, 1))]
      [9 := OnDisk(CrossReference(FreeEntry, 0, 1))];
    File(loaded, 15, 0, ObjectReference(1, 0), map[], ObjectReference(0, 0), [])
  }

  /** The loaded slots of the numbers below `n`, each object at 100 bytes per
      number. */
  function LoadedBelow(n: nat): (m: map<nat, Slot>)
    ensures forall k: nat :: k in m <==> k < n
  {
    if n == 0 then map[]
    else
      var k := n - 1;
      LoadedBelow(k)[k := if k == 0 then OnDisk(Sentinel) else OnDisk(CrossReference(InUse, 100 * k, 0))]
  }

  function Annotation(number: nat, generation: nat): Object {
    Indirect(IndirectObject(ObjectReference(number, generation), Dictionary(map["Type" := Name("Annot")])))
  }

  /** The annotation array 7 as stage 4 rewrites it: the annotations 10 and 11
      left by stage 3, then the three new ones. */
  function AnnotationArray(): Object {
    Indirect(IndirectObject(ObjectReference(7, 0), Array([
      Reference(ObjectReference(10, 0)), Reference(ObjectReference(11, 0)),
      Reference(ObjectReference(8, 1)), Reference(ObjectReference(9, 1)),
      Reference(ObjectReference(12, 0))])))
  }

  /** Deleting annotations 8 and 9 in stage 3 raises their minimum generation
      to 1: new annotations under 8 and 9 at generation 1 are accepted, while
      one at generation 0 is refused with the generation to use. */
  lemma DeleteThenReuse()
    ensures var g := Free(Free(Stage3(), 8), 9);
      && MinGeneration(g.objects[8]) == 1 && MinGeneration(g.objects[9]) == 1
      && Add(g, Annotation(8, 1)).Added?
      && Add(Add(g, Annotation(8, 1)).file, Annotation(9, 1)).Added?
      && Add(g, Annotation(8, 0)) == GenerationTooLow(ObjectReference(8, 1))
  {
    var f := Stage3();
    assert 8 in f.objects && 9 in f.objects;
  }

  /** After reopening, the free entries stage 3 wrote keep that minimum: stage
      4's annotations under 8 and 9 at generation 1 are accepted, and one at
      generation 0 is refused with generation 1. */
  lemma ReopenThenReuse()
    ensures Add(Stage4(), Annotation(8, 1)).Added?
    ensures Add(Add(Stage4(), Annotation(8, 1)).file, Annotation(9, 1)).Added?
    ensures Add(Stage4(), Annotation(8, 0)) == GenerationTooLow(ObjectReference(8, 1))
  {
  }

  /** An indirect object under a number the store already holds leaves the
      set of numbers as it was. */
  lemma AddKeepsNumbers(f: File, o: Object, n: nat)
    requires o.Indirect? && o.indirect.ref.number < n
    requires forall k: nat :: k in f.objects <==> k < n
    requires Add(f, o).Added?
    ensures forall k: nat :: k in Add(f, o).file.objects <==> k < n
  {
    assert Add(f, o).file.objects.Keys == f.objects.Keys + {o.indirect.ref.number};
  }

  /** Stage 4's edits applied to a store holding exactly the numbers below
      `n`, where 8 and 9 accept generation 1 and 7 and 12 accept generation
      0: annotations 8 and 9 added again
      at generation 1, annotation 12 added, and the array 7 rewritten. Every
      add is accepted, and the numbers stay those below `n`. */
  function Edited(s: File, n: nat): (f: File)
    requires n > 12 && forall k: nat :: k in s.objects <==> k < n
    requires MinGeneration(s.objects[8]) <= 1 && MinGeneration(s.objects[9]) <= 1
    requires MinGeneration(s.objects[12]) == 0 && MinGeneration(s.objects[7]) == 0
    ensures forall k: nat :: k in f.objects <==> k < n
  {
    var a := Add(s, Annotation(8, 1));
    AddKeepsNumbers(s, Annotation(8, 1), n);
    assert a.file.objects[9] == s.objects[9];
    var b := Add(a.file, Annotation(9, 1));
    AddKeepsNumbers(a.file, Annotation(9, 1), n);
    assert b.file.objects[12] == s.objects[12] && b.file.objects[7] == s.objects[7];
    var c := Add(b.file, Annotation(12, 0));
    AddKeepsNumbers(b.file, Annotation(12, 0), n);
    assert c.file.objects[7] == s.objects[7];
    var d := Add(c.file, AnnotationArray());
    AddKeepsNumbers(c.file, AnnotationArray(), n);
    d.file
  }

  /** The store stage 4 saves. */
  function Stage4Edited(): (f: File)
    ensures forall k: nat :: k in f.objects <==> k < 15
  {
    Edited(Stage4(), 15)
  }

  /** The index stream `x` saved from `f` records `Size` as `size`. */
  predicate RecordsSize(f: File, x: StreamIndex, size: nat) {
    && |x.widths| == 3 && RunPartition(x.numbering.numbers, x.numbering.groups)
    && "Size" in IndexDictionary(f, x) && IndexDictionary(f, x)["Size"] == Integer(size)
  }

  /** Stage 4's `Save` (which writes the stream form) numbers its index stream
      15, one above the index stream of stage 3, and records `Size` 16. The
      annotation under 12 replaces stage 1's index stream rather than taking
      a new number. */
  lemma Stage4StreamSize(order: seq<nat>, w: Writer)
    requires Enumerates(order, Stage4Edited().objects)
    ensures var x := SaveWithXrefStream(Stage4Edited(), order, w).index;
      x.numbering.self == 15 && RecordsSize(Stage4Edited(), x, 16)
  {
    StreamSizeBelow(Stage4Edited(), 15, order, w);
  }

  /** Saving a store that holds exactly the numbers below `n` numbers the
      index stream `n` and records `Size` one above it. */
  lemma StreamSizeBelow(h: File, n: nat, order: seq<nat>, w: Writer)
    requires n > 0 && forall k: nat :: k in h.objects <==> k < n
    requires Enumerates(order, h.objects)
    ensures var x := SaveWithXrefStream(h, order, w).index;
      x.numbering.self == n && RecordsSize(h, x, n + 1)
  {
    StreamNumberAbove(h, n, order, w);
    var x := SaveWithXrefStream(h, order, w).index;
    RecordsOneAbove(h, x);
  }

  /** In a store holding exactly the numbers below `n`, the index stream is
      numbered `n`. */
  lemma StreamNumberAbove(h: File, n: nat, order: seq<nat>, w: Writer)
    requires n > 0 && forall k: nat :: k in h.objects <==> k < n
    requires Enumerates(order, h.objects)
    ensures SaveWithXrefStream(h, order, w).index.numbering.self == n
  {
    var self := SaveWithXrefStream(h, order, w).index.numbering.self;
    assert n - 1 in h.objects;
    assert self - 1 in h.objects;
  }

  /** Every index stream records `Size` one above its own number. */
  lemma RecordsOneAbove(h: File, x: StreamIndex)
    requires |x.widths| == 3 && RunPartition(x.numbering.numbers, x.numbering.groups)
    ensures RecordsSize(h, x, x.numbering.self + 1)
  {
    StreamDictionary(h, x);
  }

  /** The table writer, which `Save` does not call, would record `Size` 15
      for the same store: it counts no index stream of its own. */
  lemma Stage4TableSize(order: seq<nat>, w: Writer)
    requires Enumerates(order, Stage4Edited().objects)
    ensures SaveWithXrefTable(Stage4Edited(), order, w).size == 15
  {
    var h := Stage4Edited();
    var r := SaveWithXrefTable(h, order, w);
    assert r.size - 1 in h.objects;
    assert 14 in h.objects;
  }
}
