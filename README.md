# Linked-data proof validation and the JWK verification-method builder, in Dafny

This project models two parts of the Eclipse Tractus-X SSI library.

**`LinkedDataProofValidation`** decides whether a signed Verifiable Credential (VC) or
Verifiable Presentation (VP) is accepted. It works in this order:

1. It picks the Ed25519 or the JWS verifier from the proof's `type`. A null, blank or unknown
   type fails closed with `UnsupportedSignatureTypeException`.
2. It strips the signature value from a deep copy of the document.
3. It transforms that copy (JSON-LD canonicalisation), hashes it and validates it. An invalid
   copy gives `false`; a transform or hash failure escapes as an exception.
4. It asks the selected verifier about the hash and the *original* document.
5. Only when the verifier says `true`, it checks the issuer binding. For a VC, the DID before
   the first `#` of the proof's `verificationMethod` must equal the issuer.

**`JWKVerificationMethodBuilder`** is a fluent builder with two mutable fields, `did` and `jwk`.
Its `build()` composes a DID Core v1.0 verification method (section 5.2). The record has `id`
(`did#kid`), `type`, `controller` (the DID) and a `publicKeyJwk` (section 5.2.1). That key holds
`kty` (RFC 7517 section 4.1) and the OKP members `crv` and `x` (RFC 8037 section 2).

Files:

- `wrappers.dfy` has `Option` (Java `null`) and `Result` (a thrown exception).
- `exceptions.dfy` has the exception kinds.
- `java_strings.dfy` has `String.isBlank` and `String.split("#")`, modelled to the letter.
  That includes Java's removal of trailing empty strings, so a `verificationMethod` made only of
  `#` makes `split("#")[0]` throw.
- `verifiable.dfy` has the document as an immutable value and `removeProofSignature`.
- `proof_validation.dfy` has the orchestrator. It is a class whose fields never change, like
  the Java fields, which are all `final`. Its `Verify` method runs the steps in order. The
  `Execute` function gives the same result together with a trace of every step and its
  argument: transform, hash, validate, verify signature and binding check.
- `validation_properties.dfy` has the lemmas about `Execute`.
- `jwk_builder.dfy` has the builder class. Its setters change one field each, and `Build` is a
  function of the two fields.
- `builder_binding.dfy` has lemmas that join the two parts, plus two concrete scenarios.

## Model

| member | source | states |
|---|---|---|
| `JavaStrings.JoinPieces` | src/main/java/org/eclipse/tractusx/ssi/lib/proof/LinkedDataProofValidation.java:148 | The regex matcher's pieces of `verificationMethod` at `#`, taken before `split` drops the trailing empty strings, lose and invent nothing: joining them with `#` gives back the input. (`split` itself is not invertible: `"a#".split("#")` is `["a"]`) |
| `JavaStrings.FirstPiece` | src/main/java/org/eclipse/tractusx/ssi/lib/proof/LinkedDataProofValidation.java:148-149 | The first piece of the split is the text before the first `#` |
| `JavaStrings.PiecesAllEmpty` | src/main/java/org/eclipse/tractusx/ssi/lib/proof/LinkedDataProofValidation.java:148 | Every piece is empty exactly when the input is made only of `#` |
| `JavaStrings.SplitEmptyIff` | src/main/java/org/eclipse/tractusx/ssi/lib/proof/LinkedDataProofValidation.java:148-149 | `split("#")` returns an empty array, so that `[0]` throws, exactly when the input is a non-empty run of `#`. The empty string gives `[""]` and does not throw |
| `JavaStrings.SplitHead` | src/main/java/org/eclipse/tractusx/ssi/lib/proof/LinkedDataProofValidation.java:148-149 | Otherwise `split("#")[0]` is the text before the first `#` (all of it when there is no `#`) |
| `JavaStrings.PrefixBeforeAppend` | src/main/java/org/eclipse/tractusx/ssi/lib/proof/LinkedDataProofValidation.java:148-149 | For `u#k` with no `#` in `u`, the text before the first `#` is `u`, whatever `k` is |
| `Verifiables.RemoveProofSignature` | src/main/java/org/eclipse/tractusx/ssi/lib/proof/LinkedDataProofValidation.java:116-117 | The stripped copy has no signature value and keeps everything else, the proof's `type` and `verificationMethod` included. A document that has no signature is unchanged |
| `Verifiables.StrippedIgnoresSignature` | src/main/java/org/eclipse/tractusx/ssi/lib/proof/LinkedDataProofValidation.java:116-121 | Two documents that differ only in their signature values have the same stripped copy, so the signature covers everything except itself |
| `ProofValidation.SelectVariant` | src/main/java/org/eclipse/tractusx/ssi/lib/proof/LinkedDataProofValidation.java:100-114 | Dispatch is exact in both directions: the Ed25519 verifier is chosen exactly for the Ed25519 identifier and the JWS verifier exactly for the JWS identifier; every other type, null or blank, selects nothing |
| `ProofValidation.GetVerificationMethod` | src/main/java/org/eclipse/tractusx/ssi/lib/proof/LinkedDataProofValidation.java:159-167 | A non-string `verificationMethod` becomes `UnsupportedSignatureType`. A missing one comes back as null. A string comes back as it is |
| `ProofValidation.ValidateVerificationMethodOfVc` | src/main/java/org/eclipse/tractusx/ssi/lib/proof/LinkedDataProofValidation.java:139-150 | A VP is always bound. For a VC: a null issuer or a missing `verificationMethod` gives a NullPointerException; a non-string one gives `UnsupportedSignatureType`; an all-`#` one gives an index error. Otherwise the result is true exactly when the text before the first `#` equals the issuer |
| `ProofValidation.LinkedDataProofValidation.constructor` | src/main/java/org/eclipse/tractusx/ssi/lib/proof/LinkedDataProofValidation.java:74-77 | The instance holds the given resolver and the given hasher, transformer, validator and verifiers |
| `ProofValidation.LinkedDataProofValidation.NewInstance` | src/main/java/org/eclipse/tractusx/ssi/lib/proof/LinkedDataProofValidation.java:61-72 | A null resolver fails with a NullPointerException. Any other resolver gives a new instance that holds it |
| `ProofValidation.LinkedDataProofValidation.Verify` | src/main/java/org/eclipse/tractusx/ssi/lib/proof/LinkedDataProofValidation.java:95-131 | The step-by-step method gives `Execute`'s result and trace. It modifies nothing. A `true` result implies a supported type and a satisfied issuer binding |
| `ValidationProperties.BlankTypeFailsClosed` | src/main/java/org/eclipse/tractusx/ssi/lib/proof/LinkedDataProofValidation.java:100-114 | A null or blank proof type fails with `UnsupportedSignatureType`, and no transformer, hasher, validator or verifier is called |
| `ValidationProperties.UnknownTypeFailsClosed` | src/main/java/org/eclipse/tractusx/ssi/lib/proof/LinkedDataProofValidation.java:104-111 | A non-blank type that is neither identifier fails the same way, before any transform or hash |
| `ValidationProperties.DispatchIsExact` | src/main/java/org/eclipse/tractusx/ssi/lib/proof/LinkedDataProofValidation.java:104-107 | The verifier that is actually called is Ed25519 exactly for the Ed25519 type and JWS exactly for the JWS type |
| `ValidationProperties.StrippedCopyIsTransformed` | src/main/java/org/eclipse/tractusx/ssi/lib/proof/LinkedDataProofValidation.java:117-125 | Transform and validate get the stripped copy, and hash gets the transform's output. The verifier gets that hash and the original, signed document, and so does the binding check |
| `ValidationProperties.TransformFailurePropagates` | src/main/java/org/eclipse/tractusx/ssi/lib/proof/LinkedDataProofValidation.java:119-123 | A transform failure is returned as `TransformError`, not as `false`, and nothing after the transform is called |
| `ValidationProperties.HashFailurePropagates` | src/main/java/org/eclipse/tractusx/ssi/lib/proof/LinkedDataProofValidation.java:121-123 | A hash failure is returned as `TransformError`, not as `false`, after exactly the transform and the hash; nothing is validated or verified |
| `ValidationProperties.InvalidDocumentIsFalse` | src/main/java/org/eclipse/tractusx/ssi/lib/proof/LinkedDataProofValidation.java:123-130 | A copy the JSON-LD validator rejects gives `false`, never an error and never `true`, and no verifier is asked |
| `ValidationProperties.AcceptedIffSignatureAndBinding` | src/main/java/org/eclipse/tractusx/ssi/lib/proof/LinkedDataProofValidation.java:125 | `verify` is `true` exactly when the type is supported, the copy transforms, hashes and validates, the selected verifier accepts, and the issuer binding holds |
| `ValidationProperties.AcceptedCredentialIsBound` | src/main/java/org/eclipse/tractusx/ssi/lib/proof/LinkedDataProofValidation.java:125-149 | An accepted VC has an issuer and a string `verificationMethod`, and the DID before its first `#` is that issuer |
| `ValidationProperties.BindingOnlyAfterValidSignature` | src/main/java/org/eclipse/tractusx/ssi/lib/proof/LinkedDataProofValidation.java:125 | The binding check runs only right after a verifier call that answered `true` (short-circuit `&&`) |
| `ValidationProperties.ErrorsHaveASource` | src/main/java/org/eclipse/tractusx/ssi/lib/proof/LinkedDataProofValidation.java:95-131 | The trace names the source of every error. With no call it is `UnsupportedSignatureType` from the dispatch. After the transform alone, it is `TransformError` from a failed transform. After the transform and hash, it is `TransformError` from a failed hash. After the verifier call, it is exactly the verifier's error. After the binding check, it is exactly that check's error. No other trace length ends in an error |
| `ValidationProperties.ErrorsAreDeclared` | src/main/java/org/eclipse/tractusx/ssi/lib/proof/LinkedDataProofValidation.java:86-98 | If the verifiers throw only their declared exceptions, then `verify` throws only those, `TransformError`, and the binding check's NullPointer and index errors |
| `ValidationProperties.SignatureIsNotHashed` | src/main/java/org/eclipse/tractusx/ssi/lib/proof/LinkedDataProofValidation.java:116-125 | Two documents that differ only in their signatures go through identical transform, hash and validate steps. The verifier is asked about each of them with the same hash |
| `JwkVerificationMethods.JwkVerificationMethodBuilder.constructor` | src/main/java/org/eclipse/tractusx/ssi/lib/model/did/JWKVerificationMethodBuilder.java:30-33 | A new builder has both fields null |
| `JwkVerificationMethods.JwkVerificationMethodBuilder.SetDid` | src/main/java/org/eclipse/tractusx/ssi/lib/model/did/JWKVerificationMethodBuilder.java:41-44 | Sets only `did`, so the last call wins; `jwk` is unchanged; returns the same builder |
| `JwkVerificationMethods.JwkVerificationMethodBuilder.SetJwk` | src/main/java/org/eclipse/tractusx/ssi/lib/model/did/JWKVerificationMethodBuilder.java:52-55 | Sets only `jwk`, so the last call wins; `did` is unchanged; returns the same builder |
| `JwkVerificationMethods.JwkVerificationMethodBuilder.Build` | src/main/java/org/eclipse/tractusx/ssi/lib/model/did/JWKVerificationMethodBuilder.java:62-76 | Fails with a NullPointerException exactly when `did` or `jwk` is unset or the key type, curve or x is null. Otherwise the record has exactly the keys id, type, controller and publicKeyJwk. `type` is the fixed default whatever the inputs, `controller` is the DID's URI, and `id` is the URI, `#` and the key id, where a null key id is rendered as the text `null` as Java string concatenation does. `publicKeyJwk` has exactly kty, crv and x, copied verbatim. It only reads the fields, so two calls with no setter between them give equal records |
| `BuilderBinding.BindingOfDidUrl` | src/main/java/org/eclipse/tractusx/ssi/lib/proof/LinkedDataProofValidation.java:145-149 | A VC whose `verificationMethod` is `uri#fragment`, where `uri` is a non-empty DID URI, is bound exactly when its issuer is `uri` |
| `BuilderBinding.BuiltIdNamesController` | src/main/java/org/eclipse/tractusx/ssi/lib/model/did/JWKVerificationMethodBuilder.java:65-70 | The text before the first `#` of a built `id` equals the built `controller`, whatever the key id contains, provided the DID's URI has no `#` |
| `BuilderBinding.CredentialNamingBuiltMethod` | src/main/java/org/eclipse/tractusx/ssi/lib/model/did/JWKVerificationMethodBuilder.java:62-76 | A VC whose proof names a built method's `id` passes the binding check exactly when its issuer is the DID the method was built for |
| `BuilderBinding.ForeignKeyIsRejected` | src/main/java/org/eclipse/tractusx/ssi/lib/proof/LinkedDataProofValidation.java:140-150 | Issuer `did:example:123` with `verificationMethod` `did:example:456#key-1` fails the binding check |
| `BuilderBinding.ForeignKeyIsNeverAccepted` | src/main/java/org/eclipse/tractusx/ssi/lib/proof/LinkedDataProofValidation.java:125 | ... and so that VC is never accepted, whatever its signature and whatever the verifier says |
| `BuilderBinding.MatchingKeyIsAccepted` | src/main/java/org/eclipse/tractusx/ssi/lib/proof/LinkedDataProofValidation.java:95-131 | A VC issued by `did:example:abc` with `verificationMethod` `did:example:abc#key-1` and the Ed25519 type is accepted when its copy transforms and validates and the Ed25519 verifier accepts |

## Left out

- The Ed25519 and JWS signature mathematics (`Ed25519ProofVerifier`, `JWSProofVerifier`) is not modelled. Each verifier is a function value from resolver, hash and document to a verdict or an exception.
- JSON-LD canonicalisation (`LinkedDataTransformer`), hashing (`LinkedDataHasher`) and `JsonLdValidatorImpl` are library code and are not modelled. They are function values that `newInstance` wires in. A transformer or hasher result of `None` stands for `TransformJsonLdException`, and a validator result of `false` for `InvalidJsonLdException`.
- DID resolution is network I/O. The resolver is an opaque value handed to the verifiers.
- The logging on the invalid-document path (`LOG.severe`, `LOG.throwing`) is not modelled. It has no effect on the outcome.
- The exception messages ("Proof type can't be empty", "%s is not supported type", …) are not modelled. Only the exception kinds are.
- `deepClone()` is not a separate function. The document is an immutable value, so its copy is the value itself. The caller's document cannot be changed: `Verify` has no `modifies` clause.
- `Verifiable.getProof()`, `getType()` and the `VerifiableCredential` wrapper are not part of this model. The proof is always present. A VC's missing issuer is the NullPointerException of `getIssuer().toString()`. Any check the wrapper's constructor makes is not modelled.
- `SignatureType`, `VerificationMethod` and `JWKVerificationMethod` are not part of this model. Their constants are taken as the suite names `Ed25519Signature2020` and `JsonWebSignature2020`, the property names `id`, `type`, `controller`, `publicKeyJwk`, `kty`, `crv` and `x`, and the type `JsonWebKey2020`. The proofs rely only on these being distinct and the two suite names being non-blank.
- `Did.toUri()` and `java.net.URI` parsing are not part of this model. A DID is just the text of its URI.
- JwkVerificationMethods.JwkVerificationMethodBuilder.Build: never fails on the composed `id`. In Java, `URI.create` throws `IllegalArgumentException` on a string that is not a valid URI, for example a key id that contains a space or another `#`. Without a model of RFC 3986 parsing, that check is left out.
- Strings are sequences of Unicode scalar values, not UTF-16 code units. `isBlank` uses `Character.isWhitespace` for those characters.
- `publicKeyJwk` carries only `kty`, `crv` and `x`; the builder never writes the key id into it (JWKVerificationMethodBuilder.java:72-75). The key id appears only in the `id`.
- The binding link between the components needs the DID's URI to be non-empty and to contain no `#`. DID syntax guarantees both. The key id may contain anything.
