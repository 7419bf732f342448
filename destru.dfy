/**
 * The crate root of the service: the tagged opaque-ID codec built on Sqids,
 * the session-claims record, and the password hashing boundary.
 *
 * The Sqids engine and Argon2 are foreign code. Each is a parameter here
 * (`Codec`, `Crypto`), and what the service relies on them for is a
 * hypothesis predicate (`RoundTrips`, `Faithful`) that the lemmas require.
 */
module Destru {
  import opened Primitives

  /** The base added to an entity flag before it is packed next to the value. */
  const MAGIC_VALUE: U64 := 557

  /**
   * The process-wide Sqids instance (custom 57-letter alphabet, minimum
   * length 6): `encode` may fail with a message, `decode` yields the empty
   * sequence for a string outside the alphabet.
   */
  datatype Codec = Codec(encode: seq<U64> -> Result<string, string>, decode: string -> seq<U64>)

  /** What the service assumes of Sqids: decoding an encoding gives back the numbers. */
  ghost predicate RoundTrips(c: Codec) {
    forall ns: seq<U64> {:trigger c.encode(ns)} ::
      c.encode(ns).Success? ==> c.decode(c.encode(ns).value) == ns
  }

  /** `SqidsError`: a rejected identifier, or a failure inside the Sqids engine. */
  datatype SqidsError = InvalidID | Internal(cause: string)

  /** The two numbers an identifier of entity `flag` carries. */
  function Packed(flag: U8, value: nat): seq<int> {
    [value, MAGIC_VALUE + flag]
  }

  /** `encode_sqids`: a negative value is rejected before the codec is consulted. */
  function EncodeSqids(c: Codec, flag: U8, value: I64): (r: Result<string, SqidsError>)
    ensures r == Failure(InvalidID) <==> value < 0
    ensures r.Success? ==> value >= 0 && c.encode(Packed(flag, value)) == Success(r.value)
    ensures value >= 0 && c.encode(Packed(flag, value)).Success? ==>
              r == Success(c.encode(Packed(flag, value)).value)
    ensures value >= 0 && c.encode(Packed(flag, value)).Failure? ==>
              r == Failure(Internal(c.encode(Packed(flag, value)).error))
  {
    if value < 0 then
      Failure(InvalidID)
    else
      var numbers: seq<U64> := [value, MAGIC_VALUE + flag];
      match c.encode(numbers)
      case Success(s) => Success(s)
      case Failure(e) => Failure(Internal(e))
  }

  /** `m - MAGIC_VALUE` on `u64` as a release build computes it: modulo 2^64. */
  function WrappingSub(a: U64, b: U64): U64 {
    (a - b) % U64_LIMIT
  }

  /** The wrapped difference names `flag` exactly when no wrap happened and the tag is `MAGIC_VALUE + flag`. */
  lemma WrappingSubMatchesFlag(m: U64, flag: U8)
    ensures WrappingSub(m, MAGIC_VALUE) == flag <==> m == MAGIC_VALUE + flag
  {
  }

  /**
   * `decode_sqids` with release-build arithmetic: exactly two numbers, the
   * second naming `flag`, the first within `i64`; every rejection is `InvalidID`.
   */
  function DecodeSqids(c: Codec, flag: U8, s: string): (r: Result<I64, SqidsError>)
    ensures r.Failure? ==> r.error == InvalidID
    ensures r.Success? <==>
              |c.decode(s)| == 2 && c.decode(s)[1] == MAGIC_VALUE + flag && c.decode(s)[0] <= I64_MAX
    ensures r.Success? ==> 0 <= r.value && c.decode(s) == Packed(flag, r.value)
  {
    var ns := c.decode(s);
    if |ns| != 2 then
      Failure(InvalidID)
    else
      var v, m := ns[0], ns[1];
      WrappingSubMatchesFlag(m, flag);
      if WrappingSub(m, MAGIC_VALUE) != flag then
        Failure(InvalidID)
      else if v > I64_MAX then
        Failure(InvalidID)
      else
        Success(v)
  }

  /** A computation that may abort the request thread. */
  datatype Outcome<+T> = Panicked | Returned(value: T)

  /**
   * `decode_sqids` with debug-build arithmetic, where the `u64` subtraction
   * panics on underflow instead of wrapping.
   */
  function DecodeSqidsDebug(c: Codec, flag: U8, s: string): (r: Outcome<Result<I64, SqidsError>>)
    ensures r.Panicked? <==> |c.decode(s)| == 2 && c.decode(s)[1] < MAGIC_VALUE
    ensures r.Returned? ==> r.value == DecodeSqids(c, flag, s)
  {
    var ns := c.decode(s);
    if |ns| != 2 then
      Returned(Failure(InvalidID))
    else
      var v, m := ns[0], ns[1];
      if m < MAGIC_VALUE then
        Panicked
      else if m - MAGIC_VALUE != flag then
        Returned(Failure(InvalidID))
      else if v > I64_MAX then
        Returned(Failure(InvalidID))
      else
        Returned(Success(v))
  }

  /**
   * A string minted by a round-tripping codec from the numbers `[v, m]` with
   * `m < MAGIC_VALUE` aborts a debug build, while the release reading rejects it.
   */
  lemma DebugDecodePanicsOnLowTag(c: Codec, flag: U8, v: U64, m: U64, s: string)
    requires RoundTrips(c) && m < MAGIC_VALUE && c.encode([v, m]) == Success(s)
    ensures DecodeSqidsDebug(c, flag, s) == Panicked
    ensures DecodeSqids(c, flag, s) == Failure(InvalidID)
  {
  }

  /** Decoding what was encoded under the same flag gives the value back. */
  lemma DecodeEncoded(c: Codec, flag: U8, value: I64, s: string)
    requires RoundTrips(c) && EncodeSqids(c, flag, value) == Success(s)
    ensures DecodeSqids(c, flag, s) == Success(value)
  {
  }

  /** A string encoded under one flag is rejected under any other flag. */
  lemma DecodeOtherFlagRejected(c: Codec, flag: U8, other: U8, value: I64, s: string)
    requires RoundTrips(c) && flag != other && EncodeSqids(c, flag, value) == Success(s)
    ensures DecodeSqids(c, other, s) == Failure(InvalidID)
  {
  }

  /** The body of the session token before signing. */
  datatype Claims = Claims(user: string, expired: Usize)

  /** `timestamp() as usize`: the cast keeps the low 64 bits of the (`i64`) seconds count. */
  function TimestampAsUsize(t: int): (r: Usize)
    ensures 0 <= t < U64_LIMIT ==> r == t
    ensures I64_MIN <= t < 0 ==> r == t + U64_LIMIT
  {
    t % U64_LIMIT
  }

  /**
   * `generate_jwt` up to the signature: the user identifier encoded under
   * flag 0 and the expiry in Unix seconds. `Failure` is the `unwrap` panic.
   */
  function GenerateClaims(c: Codec, user: I64, expired: int): (r: Result<Claims, SqidsError>)
    ensures r.Failure? <==> EncodeSqids(c, 0, user).Failure?
    ensures user < 0 ==> r == Failure(InvalidID)
    ensures r.Success? ==> r.value.expired == TimestampAsUsize(expired)
  {
    match EncodeSqids(c, 0, user)
    case Success(id) => Success(Claims(id, TimestampAsUsize(expired)))
    case Failure(e) => Failure(e)
  }

  /** The claims name the user: their `user` field decodes back to the user's key under flag 0. */
  lemma ClaimsNameUser(c: Codec, user: I64, expired: int)
    requires RoundTrips(c) && GenerateClaims(c, user, expired).Success?
    ensures DecodeSqids(c, 0, GenerateClaims(c, user, expired).value.user) == Success(user)
    ensures 0 <= expired <= I64_MAX ==> GenerateClaims(c, user, expired).value.expired == expired
  {
  }

  /**
   * Argon2 with default parameters: `hash(password, salt)` is the
   * self-describing hash string, `verify(password, stored)` its check
   * (false for a malformed stored string).
   */
  datatype Crypto = Crypto(hash: (string, string) -> string, verify: (string, string) -> bool)

  /** What the service assumes of Argon2: a hash verifies its own password and no other. */
  ghost predicate Faithful(k: Crypto) {
    forall password, attempt, salt {:trigger k.verify(attempt, k.hash(password, salt))} ::
      k.verify(attempt, k.hash(password, salt)) <==> attempt == password
  }
}
