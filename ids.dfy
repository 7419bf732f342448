/**
 * The typed identifier wrappers `UserID` and `StructureID`. Both are
 * generated from one template that fixes an entity flag and delegates
 * serialization to `EncodeSqids` and deserialization to `DecodeSqids`;
 * here the template is written once, over the kind of identifier.
 */
module Ids {
  import opened Primitives
  import opened Destru

  const USER_FLAG: U8 := 0
  const STRUCTURE_FLAG: U8 := 1

  /** The two wrapper types the template is instantiated with. */
  datatype IdKind = UserID | StructureID

  /** The flag each wrapper type passes to the codec. */
  function Flag(kind: IdKind): (f: U8)
    ensures f == USER_FLAG <==> kind == UserID
    ensures f == STRUCTURE_FLAG <==> kind == StructureID
  {
    match kind
    case UserID => USER_FLAG
    case StructureID => STRUCTURE_FLAG
  }

  /** The two flags differ, so no identifier of one kind can pass for the other. */
  lemma FlagsDistinct(k1: IdKind, k2: IdKind)
    ensures Flag(k1) == Flag(k2) <==> k1 == k2
  {
  }

  /** A value of wrapper type `kind` around a primary key. */
  datatype TypedId = TypedId(kind: IdKind, value: I64)

  /** `From<i64>`: wraps the key unchanged. */
  function From(kind: IdKind, value: I64): (id: TypedId)
    ensures id.kind == kind && id.value == value
  {
    TypedId(kind, value)
  }

  /** `Serialize`: the public string of the wrapped key; an encoding error becomes the serializer's error. */
  function Serialize(c: Codec, id: TypedId): (r: Result<string, SqidsError>)
    ensures r == Failure(InvalidID) <==> id.value < 0
    ensures r.Success? ==> c.encode(Packed(Flag(id.kind), id.value)) == Success(r.value)
    ensures id.value >= 0 && c.encode(Packed(Flag(id.kind), id.value)).Success? ==>
              r == Success(c.encode(Packed(Flag(id.kind), id.value)).value)
    ensures id.value >= 0 && c.encode(Packed(Flag(id.kind), id.value)).Failure? ==>
              r == Failure(Internal(c.encode(Packed(Flag(id.kind), id.value)).error))
  {
    EncodeSqids(c, Flag(id.kind), id.value)
  }

  /** `Deserialize` as wrapper type `kind`: the wrapper around the decoded key, or the decoding error. */
  function Deserialize(c: Codec, kind: IdKind, s: string): (r: Result<TypedId, SqidsError>)
    ensures r.Success? <==> DecodeSqids(c, Flag(kind), s).Success?
    ensures r.Success? ==> r.value == From(kind, DecodeSqids(c, Flag(kind), s).value)
    ensures r.Failure? ==> r.error == InvalidID
  {
    match DecodeSqids(c, Flag(kind), s)
    case Success(v) => Success(From(kind, v))
    case Failure(e) => Failure(e)
  }

  /** Deserializing the serialized form of an identifier, as its own type, gives the identifier back. */
  lemma DeserializeSerialized(c: Codec, id: TypedId, s: string)
    requires RoundTrips(c) && Serialize(c, id) == Success(s)
    ensures Deserialize(c, id.kind, s) == Success(id)
  {
  }

  /** The serialized form of an identifier is rejected as the other wrapper type. */
  lemma NoCrossKindConfusion(c: Codec, id: TypedId, other: IdKind, s: string)
    requires RoundTrips(c) && other != id.kind && Serialize(c, id) == Success(s)
    ensures Deserialize(c, other, s) == Failure(InvalidID)
  {
  }
}
