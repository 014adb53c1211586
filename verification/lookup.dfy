/**
  Resolution of an object reference against the store: pending objects and
  tombstones are answered from memory, on-disk entries through the file's byte
  view and the external parsers, and objects inside object streams through a
  lookup in the stream's index of (object number, offset) pairs
  (ISO 32000-1 section 7.5.7).
 */
module Lookup {
  import opened Wrappers
  import opened Objects
  import opened Store

  /** The collaborators `Get` relies on but that are not modelled: the
      read-only byte view of the opened file, the object parsers, and the
      filter decoding of a stream. A parser answers `None` when it fails. */
  datatype Env = Env(
    view: seq<Byte>,
    parseIndirect: seq<Byte> -> Option<Object>,
    parseNumeric: seq<Byte> -> Option<Numeric>,
    parseObject: seq<Byte> -> Option<Object>,
    decode: Object -> Option<seq<Byte>>)

  /** A number read from the front of a byte sequence, and how many bytes it took. */
  datatype Numeric = Numeric(number: Object, consumed: nat)

  /** Why `Get` answered with a null object. */
  datatype Diagnostic =
    | NotFound
    | IsFreeEntry
    | ParseError
    | NotIndirect
    | ContainerNotStream
    | DecodeError
    | NumericError
    | ObjectParseError
    | FreedAfterLoad

  /** The run-time failures (failed type assertions, slices out of range) at
      which the resolution stops abruptly instead of answering. */
  datatype Crash =
    | OffsetOutsideView
    | MissingN
    | NonIntegerInIndex
    | IndexReadPastStream
    | SlotOutsideIndex
    | MissingFirst
    | OffsetOutsideStream
    | LengthNotInteger
    | LengthBeyondPayload

  /** The answer of `Get`: an object, a null carrying its diagnostic, a crash,
      or exhaustion of the recursion budget `fuel`. */
  datatype Lookup =
    | Value(obj: Object)
    | NullWith(why: Diagnostic)
    | Panic(crash: Crash)
    | OutOfFuel

  /** The stream's `Length` entry is a reference still to be resolved. */
  predicate HasLengthReference(o: Object) {
    o.Stream? && "Length" in o.dict && o.dict["Length"].Reference?
  }

  /** Resolves a reference. `fuel` bounds the nesting of the recursive lookups
      of object-stream containers and of stream lengths. */
  function Get(f: File, env: Env, ref: ObjectReference, fuel: nat): (r: Lookup)
    ensures ref.number !in f.objects ==> r == NullWith(NotFound)
    ensures ref.number in f.objects && f.objects[ref.number].Freed? ==> r == NullWith(FreedAfterLoad)
    ensures (ref.number in f.objects && f.objects[ref.number].OnDisk?
             && f.objects[ref.number].entry.kind == FreeEntry) ==> r == NullWith(IsFreeEntry)
    ensures (ref.number in f.objects && f.objects[ref.number].Pending?
             && !HasLengthReference(f.objects[ref.number].added.obj)) ==> r == Value(f.objects[ref.number].added.obj)
    ensures r.Value? && r.obj.Stream? && "Length" in r.obj.dict ==> !r.obj.dict["Length"].Reference?
    decreases fuel, 1
  {
    var base := Resolve(f, env, ref, fuel);
    if base.Value? then ResolveLength(f, env, base.obj, fuel) else base
  }

  /** The object a slot stands for, before any stream length is resolved. */
  function Resolve(f: File, env: Env, ref: ObjectReference, fuel: nat): (r: Lookup)
    ensures ref.number !in f.objects ==> r == NullWith(NotFound)
    ensures ref.number in f.objects ==>
      match f.objects[ref.number]
      case OnDisk(e) =>
        && (e.kind == FreeEntry ==> r == NullWith(IsFreeEntry))
        && (e.kind == InUse ==> r == ReadAt(env, e.field1))
        && (e.kind == Compressed && fuel == 0 ==> r == OutOfFuel)
      case Pending(io) => r == Value(io.obj)
      case Freed(_) => r == NullWith(FreedAfterLoad)
    decreases fuel, 0
  {
    if ref.number !in f.objects then NullWith(NotFound)
    else
      match f.objects[ref.number]
      case OnDisk(e) =>
        (match e.kind
         case FreeEntry => NullWith(IsFreeEntry)
         case InUse => ReadAt(env, e.field1)
         case Compressed =>
           if fuel == 0 then OutOfFuel
           else ReadCompressed(env, Get(f, env, ObjectReference(e.field1, 0), fuel - 1), e.field2, ref.number))
      case Pending(io) => Value(io.obj)
      case Freed(_) => NullWith(FreedAfterLoad)
  }

  /** Parses the indirect object whose entry records `field1`; the view is read
      from one byte before that value. */
  function ReadAt(env: Env, field1: nat): (r: Lookup)
    ensures r.Panic? <==> field1 == 0 || field1 - 1 > |env.view|
    ensures r.Value? ==> exists o :: env.parseIndirect(env.view[field1 - 1..]) == Some(o) && o.Indirect? && r.obj == o.indirect.obj
    ensures 0 < field1 && field1 - 1 <= |env.view| ==>
      var parsed := env.parseIndirect(env.view[field1 - 1..]);
      && (parsed.None? ==> r == NullWith(ParseError))
      && (parsed.Some? && !parsed.value.Indirect? ==> r == NullWith(NotIndirect))
      && (parsed.Some? && parsed.value.Indirect? ==> r == Value(parsed.value.indirect.obj))
  {
    if field1 == 0 || field1 - 1 > |env.view| then Panic(OffsetOutsideView)
    else
      match env.parseIndirect(env.view[field1 - 1..])
      case None => NullWith(ParseError)
      case Some(o) => if o.Indirect? then Value(o.indirect.obj) else NullWith(NotIndirect)
  }

  datatype IndexParse = Parsed(index: seq<int>) | Halted(outcome: Lookup)

  /** `ints` are the integers that the numeric parser reads one after another
      from `offset` on, each starting where the previous one ended. */
  predicate ReadsIntegers(env: Env, bytes: seq<Byte>, offset: nat, ints: seq<int>)
    decreases |ints|
  {
    ints == [] ||
    (&& offset <= |bytes|
     && var p := env.parseNumeric(bytes[offset..]);
        && p.Some? && p.value.number == Integer(ints[0])
        && ReadsIntegers(env, bytes, offset + p.value.consumed, ints[1..]))
  }

  /** Reads `remaining` integers one after the other from `bytes`, starting at
      `offset`: the header of an object stream. */
  function ParseIndex(env: Env, bytes: seq<Byte>, remaining: nat, offset: nat): (r: IndexParse)
    ensures r.Parsed? ==> |r.index| == remaining && ReadsIntegers(env, bytes, offset, r.index)
    ensures r.Halted? ==> r.outcome.NullWith? || r.outcome.Panic?
    decreases remaining
  {
    if remaining == 0 then Parsed([])
    else if offset > |bytes| then Halted(Panic(IndexReadPastStream))
    else
      match env.parseNumeric(bytes[offset..])
      case None => Halted(NullWith(NumericError))
      case Some(parsed) =>
        if !parsed.number.Integer? then Halted(Panic(NonIntegerInIndex))
        else
          match ParseIndex(env, bytes, remaining - 1, offset + parsed.consumed)
          case Halted(h) => Halted(h)
          case Parsed(rest) => Parsed([parsed.number.value] + rest)
  }

  /** Whenever `remaining` integers can be read one after another from
      `offset`, the header parses to exactly those integers. */
  lemma {:induction false} ParseIndexComplete(env: Env, bytes: seq<Byte>, offset: nat, ints: seq<int>)
    requires ReadsIntegers(env, bytes, offset, ints)
    ensures ParseIndex(env, bytes, |ints|, offset) == Parsed(ints)
    decreases |ints|
  {
    if ints != [] {
      var p := env.parseNumeric(bytes[offset..]).value;
      ParseIndexComplete(env, bytes, offset + p.consumed, ints[1..]);
      assert [ints[0]] + ints[1..] == ints;
    }
  }

  /** The first even position at or after `from` whose number is `number`. */
  function FirstPair(index: seq<int>, number: int, from: nat): (r: Option<nat>)
    requires |index| % 2 == 0 && from % 2 == 0 && from <= |index|
    ensures r.Some? ==>
      && from <= r.value < |index| && r.value % 2 == 0 && index[r.value] == number
      && forall j :: from <= j < r.value && j % 2 == 0 ==> index[j] != number
    ensures r.None? ==> forall j :: from <= j < |index| && j % 2 == 0 ==> index[j] != number
    decreases |index| - from
  {
    if from == |index| then None
    else if index[from] == number then Some(from)
    else FirstPair(index, number, from + 2)
  }

  /** Some pair of the index names `number`. */
  predicate Lists(index: seq<int>, number: int) {
    exists j :: 0 <= j < |index| && j % 2 == 0 && index[j] == number
  }

  /** Position `i` holds the first pair of the index that names `number`. */
  predicate FirstListedAt(index: seq<int>, number: int, i: nat) {
    && i + 1 < |index| && i % 2 == 0 && index[i] == number
    && forall j :: 0 <= j < i && j % 2 == 0 ==> index[j] != number
  }

  /** The offset of the object `number` in an object stream whose index is
      `index` and which the cross-reference entry places at pair `slot`: the
      hinted pair when it names `number`, else the first pair that does, else
      still the hinted pair. */
  function CompressedOffset(index: seq<int>, slot: nat, number: nat): (offset: int)
    requires |index| % 2 == 0 && 2 * slot < |index|
    ensures index[2 * slot] == number ==> offset == index[2 * slot + 1]
    ensures index[2 * slot] != number && Lists(index, number) ==>
      exists i: nat :: FirstListedAt(index, number, i) && offset == index[i + 1]
    ensures !Lists(index, number) ==> offset == index[2 * slot + 1]
  {
    if index[2 * slot] == number then index[2 * slot + 1]
    else
      var found := FirstPair(index, number, 0);
      if found.Some? then
        assert FirstListedAt(index, number, found.value);
        index[found.value + 1]
      else index[2 * slot + 1]
  }

  /** Whenever the index lists `number` at all, the offset used is one that the
      index pairs with `number`, however stale the hint is. */
  lemma SelfHealingLookup(index: seq<int>, slot: nat, number: nat)
    requires |index| % 2 == 0 && 2 * slot < |index|
    requires Lists(index, number)
    ensures exists i: nat :: i + 1 < |index| && index[i] == number && CompressedOffset(index, slot, number) == index[i + 1]
  {
    var offset := CompressedOffset(index, slot, number);
    if index[2 * slot] == number {
      assert 2 * slot + 1 < |index| && offset == index[2 * slot + 1];
    } else {
      var i: nat :| FirstListedAt(index, number, i) && offset == index[i + 1];
      assert i + 1 < |index| && index[i] == number;
    }
  }

  /** How many integers the header of object stream `s` holds: two per object. */
  function HeaderLength(s: Object): nat
    requires s.Stream? && "N" in s.dict && s.dict["N"].Integer?
  {
    var n := s.dict["N"].value;
    if n > 0 then 2 * n else 0
  }

  /** The object was parsed from the decoded payload of object stream `s` at
      `First` plus the offset `CompressedOffset` picks from its header. */
  predicate ReadFromStream(env: Env, s: Object, slot: nat, number: nat, o: Object) {
    && s.Stream? && "N" in s.dict && s.dict["N"].Integer?
    && "First" in s.dict && s.dict["First"].Integer?
    && env.decode(s).Some?
    && var bytes := env.decode(s).value;
       var header := ParseIndex(env, bytes, HeaderLength(s), 0);
       && header.Parsed? && 2 * slot < |header.index|
       && var at := s.dict["First"].value + CompressedOffset(header.index, slot, number);
          && 0 <= at <= |bytes|
          && env.parseObject(bytes[at..]) == Some(o)
  }

  /** Reads object `number` out of the object stream `container`. */
  function ReadCompressed(env: Env, container: Lookup, slot: nat, number: nat): (r: Lookup)
    ensures container.Panic? || container.OutOfFuel? ==> r == container
    ensures !container.Panic? && !container.OutOfFuel? && !(container.Value? && container.obj.Stream?) ==>
      r == NullWith(ContainerNotStream)
    ensures r.Value? <==> container.Value? && exists o :: ReadFromStream(env, container.obj, slot, number, o)
    ensures r.Value? ==> ReadFromStream(env, container.obj, slot, number, r.obj)
  {
    match container
    case Panic(c) => Panic(c)
    case OutOfFuel => OutOfFuel
    case NullWith(_) => NullWith(ContainerNotStream)
    case Value(s) =>
      if !s.Stream? then NullWith(ContainerNotStream)
      else if "N" !in s.dict || !s.dict["N"].Integer? then Panic(MissingN)
      else
        match env.decode(s)
        case None => NullWith(DecodeError)
        case Some(bytes) =>
          match ParseIndex(env, bytes, HeaderLength(s), 0)
          case Halted(h) => h
          case Parsed(index) =>
            if 2 * slot >= |index| then Panic(SlotOutsideIndex)
            else
              var offset := CompressedOffset(index, slot, number);
              if "First" !in s.dict || !s.dict["First"].Integer? then Panic(MissingFirst)
              else
                var at := s.dict["First"].value + offset;
                if at < 0 || at > |bytes| then Panic(OffsetOutsideStream)
                else
                  match env.parseObject(bytes[at..])
                  case None => NullWith(ObjectParseError)
                  case Some(o) =>
                    assert ReadFromStream(env, s, slot, number, o);
                    Value(o)
  }

  /** Replaces a stream's `Length` reference by the integer it resolves to and
      cuts the payload to that many bytes; any other object is returned as is. */
  function ResolveLength(f: File, env: Env, obj: Object, fuel: nat): (r: Lookup)
    ensures !HasLengthReference(obj) ==> r == Value(obj)
    ensures HasLengthReference(obj) && fuel == 0 ==> r == OutOfFuel
    ensures HasLengthReference(obj) && r.Value? ==>
      && fuel > 0
      && r.obj.Stream?
      && r.obj.dict.Keys == obj.dict.Keys
      && (forall k :: k in obj.dict && k != "Length" ==> r.obj.dict[k] == obj.dict[k])
      && r.obj.dict["Length"].Integer?
      && 0 <= r.obj.dict["Length"].value <= |obj.payload|
      && r.obj.payload == obj.payload[..r.obj.dict["Length"].value]
    ensures r.Value? && r.obj.Stream? && "Length" in r.obj.dict ==> !r.obj.dict["Length"].Reference?
    decreases fuel, 0
  {
    if !HasLengthReference(obj) then Value(obj)
    else if fuel == 0 then OutOfFuel
    else ApplyLength(obj, Get(f, env, obj.dict["Length"].ref, fuel - 1))
  }

  /** The stream with `Length` replaced by the answer `length` of its lookup:
      an integer within the payload replaces the reference and cuts the
      payload; a null or any other object fails the integer assertion; an
      integer outside the payload fails the slice; a crash is passed on. */
  function ApplyLength(obj: Object, length: Lookup): (r: Lookup)
    requires HasLengthReference(obj)
    ensures r.Value? <==> length.Value? && length.obj.Integer? && 0 <= length.obj.value <= |obj.payload|
    ensures r.Value? ==>
      && r.obj.Stream?
      && r.obj.dict.Keys == obj.dict.Keys
      && (forall k :: k in obj.dict && k != "Length" ==> r.obj.dict[k] == obj.dict[k])
      && length == Value(r.obj.dict["Length"])
      && r.obj.payload == obj.payload[..length.obj.value]
    ensures length.Value? && length.obj.Integer? && !(0 <= length.obj.value <= |obj.payload|) ==>
      r == Panic(LengthBeyondPayload)
    ensures length.NullWith? || (length.Value? && !length.obj.Integer?) ==> r == Panic(LengthNotInteger)
    ensures length.Panic? || length.OutOfFuel? ==> r == length
  {
    match length
    case Value(n) =>
      if !n.Integer? then Panic(LengthNotInteger)
      else if n.value < 0 || n.value > |obj.payload| then Panic(LengthBeyondPayload)
      else Value(Stream(obj.dict["Length" := n], obj.payload[..n.value]))
    case NullWith(_) => Panic(LengthNotInteger)
    case Panic(c) => Panic(c)
    case OutOfFuel => OutOfFuel
  }

  /** An object-stream entry with fuel left is read from its container, looked
      up with one unit less: a crash or exhaustion of that lookup is passed on,
      and a value is exactly an object parsed from the container's payload. */
  lemma ResolveFromContainer(f: File, env: Env, ref: ObjectReference, fuel: nat)
    requires ref.number in f.objects && f.objects[ref.number].OnDisk?
    requires f.objects[ref.number].entry.kind == Compressed && fuel > 0
    ensures var e := f.objects[ref.number].entry;
      var container := Get(f, env, ObjectReference(e.field1, 0), fuel - 1);
      var r := Resolve(f, env, ref, fuel);
      && (container.Panic? || container.OutOfFuel? ==> r == container)
      && (r.Value? <==> container.Value? && exists o :: ReadFromStream(env, container.obj, e.field2, ref.number, o))
      && (r.Value? ==> ReadFromStream(env, container.obj, e.field2, ref.number, r.obj))
  {
  }

  /** A stream's `Length` reference is resolved by looking it up with one unit
      of fuel less: the stream comes back exactly when that lookup answers an
      integer within the payload, and then that integer is its `Length`; a null
      or a non-integer fails the integer assertion, an integer beyond the
      payload fails the slice, and a crash is passed on. */
  lemma ResolveLengthAnswer(f: File, env: Env, obj: Object, fuel: nat)
    requires HasLengthReference(obj) && fuel > 0
    ensures var length := Get(f, env, obj.dict["Length"].ref, fuel - 1);
      var r := ResolveLength(f, env, obj, fuel);
      && (r.Value? <==> length.Value? && length.obj.Integer? && 0 <= length.obj.value <= |obj.payload|)
      && (r.Value? ==> length == Value(r.obj.dict["Length"]))
      && (length.Value? && length.obj.Integer? && !(0 <= length.obj.value <= |obj.payload|) ==>
            r == Panic(LengthBeyondPayload))
      && (length.NullWith? || (length.Value? && !length.obj.Integer?) ==> r == Panic(LengthNotInteger))
      && (length.Panic? || length.OutOfFuel? ==> r == length)
  {
  }

  /** A pending object is answered from memory, whatever the byte view and the
      parsers are. */
  lemma PendingIgnoresView(f: File, env1: Env, env2: Env, ref: ObjectReference, fuel: nat)
    requires ref.number in f.objects && f.objects[ref.number].Pending?
    requires !HasLengthReference(f.objects[ref.number].added.obj)
    ensures Get(f, env1, ref, fuel) == Get(f, env2, ref, fuel) == Value(f.objects[ref.number].added.obj)
  {
  }

  /** What an accepted indirect object was added as is what `Get` returns for
      its reference. */
  lemma GetAfterAdd(f: File, env: Env, io: IndirectObject, fuel: nat)
    requires Add(f, Indirect(io)).Added?
    requires !HasLengthReference(io.obj)
    ensures Get(Add(f, Indirect(io)).file, env, io.ref, fuel) == Value(io.obj)
  {
  }

  /** An automatically numbered object is found under the reference `Add`
      returns. */
  lemma GetAfterAutoAdd(f: File, env: Env, obj: Object, fuel: nat)
    requires !obj.Indirect? && !HasLengthReference(obj)
    ensures Get(Add(f, obj).file, env, Add(f, obj).ref, fuel) == Value(obj)
  {
  }

  /** Once a number is freed, every reference to it resolves to a null. */
  lemma GetAfterFree(f: File, env: Env, n: nat, generation: nat, fuel: nat)
    ensures Get(Free(f, n), env, ObjectReference(n, generation), fuel).NullWith?
  {
  }

  /** More fuel never changes an answer that did not run out of fuel. */
  lemma {:induction false} GetFuelMonotone(f: File, env: Env, ref: ObjectReference, fuel: nat)
    requires !Get(f, env, ref, fuel).OutOfFuel?
    ensures Get(f, env, ref, fuel + 1) == Get(f, env, ref, fuel)
    decreases fuel, 1
  {
    ResolveFuelMonotone(f, env, ref, fuel);
    var base := Resolve(f, env, ref, fuel);
    if base.Value? {
      ResolveLengthFuelMonotone(f, env, base.obj, fuel);
    }
  }

  lemma {:induction false} ResolveFuelMonotone(f: File, env: Env, ref: ObjectReference, fuel: nat)
    requires !Resolve(f, env, ref, fuel).OutOfFuel?
    ensures Resolve(f, env, ref, fuel + 1) == Resolve(f, env, ref, fuel)
    decreases fuel, 0
  {
    if ref.number in f.objects && f.objects[ref.number].OnDisk? && f.objects[ref.number].entry.kind == Compressed {
      var e := f.objects[ref.number].entry;
      var container := ObjectReference(e.field1, 0);
      var less: nat := fuel - 1;
      assert Resolve(f, env, ref, fuel) == ReadCompressed(env, Get(f, env, container, less), e.field2, ref.number);
      GetFuelMonotone(f, env, container, less);
      assert less + 1 == fuel;
      assert Resolve(f, env, ref, fuel + 1) == ReadCompressed(env, Get(f, env, container, fuel), e.field2, ref.number);
    }
  }

  lemma {:induction false} ResolveLengthFuelMonotone(f: File, env: Env, obj: Object, fuel: nat)
    requires !ResolveLength(f, env, obj, fuel).OutOfFuel?
    ensures ResolveLength(f, env, obj, fuel + 1) == ResolveLength(f, env, obj, fuel)
    decreases fuel, 0
  {
    if HasLengthReference(obj) {
      var less: nat := fuel - 1;
      GetFuelMonotone(f, env, obj.dict["Length"].ref, less);
      assert less + 1 == fuel;
    }
  }
}
