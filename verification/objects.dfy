/**
  The closed set of PDF object variants (ISO 32000-1 sections 7.3.2 to 7.3.10).

  In the source every variant implements an unexported marker method, so no
  other type can be an object; a datatype with one constructor per variant is
  closed in the same way.
 */
module Objects {

  /** One byte of a string, a stream payload or the file's byte view. */
  type Byte = b: int | 0 <= b < 256

  /** An object number and a generation number, both unsigned. */
  datatype ObjectReference = ObjectReference(number: nat, generation: nat)

  datatype Object =
    | Boolean(truth: bool)
    | Integer(value: int)
      /** Floating point is not interpreted; the value only has to be carried. */
    | Real(approx: real)
    | String(bytes: seq<Byte>)
    | Name(symbol: string)
    | Array(items: seq<Object>)
      /** Keyed by name, so each key occurs once. */
    | Dictionary(entries: map<string, Object>)
      /** A dictionary together with its raw byte payload. */
    | Stream(dict: map<string, Object>, payload: seq<Byte>)
      /** Carries no payload in this variant of the object model. */
    | Null
    | Reference(ref: ObjectReference)
    | Indirect(indirect: IndirectObject)

  /** An object bound to the reference by which other objects name it. */
  datatype IndirectObject = IndirectObject(ref: ObjectReference, obj: Object)
}
