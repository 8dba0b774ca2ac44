/**
 * Primitives the core takes from its platform and that the model leaves uninterpreted:
 * HMAC-SHA256 (node:crypto), UTF-8 encoding, the application/x-www-form-urlencoded
 * byte codec of the URL Standard, JSON.parse / JSON.stringify, `Number(s)` coercion and
 * Zod's `.email()` / `.uuid()` checks. Each is a field of one `Primitives` value that
 * every operation receives; properties that a lemma needs of them are stated as
 * hypotheses below, never assumed globally.
 */
module Platform {
  import opened Wrappers
  import opened JsValues

  newtype byte = x: int | 0 <= x < 256
  type Bytes = seq<byte>

  datatype Primitives = Primitives(
    hmacSha256: (Bytes, Bytes) -> Bytes,           // HMAC-SHA256(key, message), RFC 2104
    utf8: string -> Bytes,                         // how node:crypto encodes a string argument
    formDecode: string -> string,                  // '+' to space, then percent-decoding
    formEncode: string -> string,                  // the urlencoded serializer for one name or value
    parseJson: string -> Result<Json, string>,     // JSON.parse; Failure carries the SyntaxError message
    stringifyJson: Json -> string,                 // JSON.stringify
    numberOf: string -> Option<int>,               // Number(s) when it is a finite integer
    isEmail: string -> bool,                       // z.string().email()
    isUuid: string -> bool)                        // z.string().uuid()

  /** HMAC-SHA256 yields 32 bytes. */
  ghost predicate DigestIs32Bytes(p: Primitives)
  {
    forall key, message :: |p.hmacSha256(key, message)| == 32
  }

  /** The serializer inverts the parser's decoding and escapes every character the parser splits on. */
  ghost predicate FormCodecRoundTrips(p: Primitives)
  {
    forall s :: p.formDecode(p.formEncode(s)) == s
      && '&' !in p.formEncode(s) && '=' !in p.formEncode(s) && '?' !in p.formEncode(s)
  }

  /** JSON.parse reads back what JSON.stringify writes. */
  ghost predicate JsonRoundTrips(p: Primitives)
  {
    forall v :: p.parseJson(p.stringifyJson(v)) == Success(v)
  }

  /**
   * Results JavaScript fixes for inputs the core can hand over: `JSON.parse("undefined")`
   * throws, `Number("[object File]")` is NaN, `Number("")` is 0, and decoding "" gives "".
   */
  ghost predicate FixedResults(p: Primitives)
  {
    && p.parseJson("undefined").Failure?
    && p.numberOf("[object File]").None?
    && p.numberOf("") == Some(0)
    && p.formDecode("") == ""
  }

  /** Idealised collision resistance of the keyed digest, and injectivity of UTF-8. */
  ghost predicate CollisionFree(p: Primitives)
  {
    && (forall key, m1, m2 :: p.hmacSha256(key, m1) == p.hmacSha256(key, m2) ==> m1 == m2)
    && (forall s1, s2 :: p.utf8(s1) == p.utf8(s2) ==> s1 == s2)
  }
}
