/**
 * JWKVerificationMethodBuilder: a fluent builder with two mutable fields that assembles a
 * W3C DID Core v1.0 verification method (section 5.2) whose key is a `publicKeyJwk`
 * (section 5.2.1) holding the JWK members `kty` (RFC 7517 section 4.1) and the OKP members
 * `crv` and `x` (RFC 8037 section 2).
 */
module JwkVerificationMethods {
  import opened Wrappers
  import opened Exceptions

  /** Property names of a verification method (DID Core v1.0 section 5.2). */
  const ID: string := "id"
  const TYPE: string := "type"
  const CONTROLLER: string := "controller"
  const PUBLIC_KEY_JWK: string := "publicKeyJwk"

  /** Member names of the embedded key. */
  const JWK_KEY_TYPE: string := "kty"
  const JWK_CURVE: string := "crv"
  const JWK_X: string := "x"

  /** JWKVerificationMethod.DEFAULT_TYPE. */
  const DEFAULT_TYPE: string := "JsonWebKey2020"

  /** A DID, seen only through the text of `toUri()`. */
  datatype Did = Did(uri: string)

  /** The JsonWebKey getters; each may return null. */
  datatype JsonWebKey = JsonWebKey(
    keyId: Option<string>,
    keyType: Option<string>,
    curve: Option<string>,
    x: Option<string>)

  /** A value of the built record: a string (or URI text) or a nested string-to-string map. */
  datatype JsonValue = JsonString(text: string) | JsonObject(members: map<string, string>)

  /** The record a JWKVerificationMethod wraps. */
  datatype JwkVerificationMethod = JwkVerificationMethod(entries: map<string, JsonValue>)

  /** How Java string concatenation renders a possibly-null string. */
  function ConcatText(s: Option<string>): string {
    match s
    case None => "null"
    case Some(text) => text
  }

  class JwkVerificationMethodBuilder {
    var did: Option<Did>
    var jwk: Option<JsonWebKey>

    /** The no-argument constructor: both fields start out null. */
    constructor ()
      ensures did.None? && jwk.None?
    {
      did := None;
      jwk := None;
    }

    /** did(d): sets the DID, leaves the key alone and returns this builder. */
    method SetDid(d: Option<Did>) returns (self: JwkVerificationMethodBuilder)
      modifies this`did
      ensures self == this && did == d && jwk == old(jwk)
    {
      did := d;
      self := this;
    }

    /** jwk(k): sets the key, leaves the DID alone and returns this builder. */
    method SetJwk(k: Option<JsonWebKey>) returns (self: JwkVerificationMethodBuilder)
      modifies this`jwk
      ensures self == this && jwk == k && did == old(did)
    {
      jwk := k;
      self := this;
    }

    /** build(): a function of the two fields, so it changes neither and two calls with no
        setter in between give equal records. An unset field, or a null key type, curve or
        x (which Map.of refuses), is a NullPointerException; a null key id is rendered as
        "null" by the concatenation. */
    function Build(): (r: Result<JwkVerificationMethod, Error>)
      reads this
      ensures r.Failure? <==>
        did.None? || jwk.None? || jwk.value.keyType.None? || jwk.value.curve.None? || jwk.value.x.None?
      ensures r.Failure? ==> r.error == NullPointer
      ensures r.Success? ==>
        var e := r.value.entries;
        e.Keys == {ID, TYPE, CONTROLLER, PUBLIC_KEY_JWK} &&
        e[TYPE] == JsonString(DEFAULT_TYPE) &&
        e[CONTROLLER] == JsonString(did.value.uri) &&
        e[ID] == JsonString(did.value.uri + "#" + ConcatText(jwk.value.keyId))
      ensures r.Success? ==>
        var k := r.value.entries[PUBLIC_KEY_JWK];
        k.JsonObject? && k.members.Keys == {JWK_KEY_TYPE, JWK_CURVE, JWK_X} &&
        k.members[JWK_KEY_TYPE] == jwk.value.keyType.value &&
        k.members[JWK_CURVE] == jwk.value.curve.value &&
        k.members[JWK_X] == jwk.value.x.value
    {
      if did.None? || jwk.None? then Failure(NullPointer)
      else
        var uri := did.value.uri;
        var key := jwk.value;
        if key.keyType.None? || key.curve.None? || key.x.None? then Failure(NullPointer)
        else
          Success(JwkVerificationMethod(map[
            ID := JsonString(uri + "#" + ConcatText(key.keyId)),
            TYPE := JsonString(DEFAULT_TYPE),
            CONTROLLER := JsonString(uri),
            PUBLIC_KEY_JWK := JsonObject(map[
              JWK_KEY_TYPE := key.keyType.value,
              JWK_CURVE := key.curve.value,
              JWK_X := key.x.value])]))
    }
  }
}
