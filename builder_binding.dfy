/**
 * The link between the two components: the `id` the builder composes is exactly what the
 * orchestrator's issuer-binding check takes apart.
 */
module BuilderBinding {
  import opened Wrappers
  import opened Verifiables
  import JavaStrings
  import opened ProofValidation
  import opened JwkVerificationMethods
  import opened ValidationProperties

  /** A DID's URI text as DID syntax has it: non-empty and without '#'. */
  predicate PlainDidUri(uri: string) {
    uri != [] && '#' !in uri
  }

  /** A credential whose verificationMethod is `uri#fragment` is bound exactly when its issuer
      is uri. */
  lemma {:induction false} BindingOfDidUrl(v: Verifiable, uri: string, fragment: string)
    requires PlainDidUri(uri)
    requires v.kind == VC && v.issuer.Some?
    requires v.proof.verificationMethod == Text(uri + "#" + fragment)
    ensures ValidateVerificationMethodOfVc(v) == Success(v.issuer.value == uri)
  {
    JavaStrings.PrefixBeforeAppend(uri, '#', fragment);
    assert (uri + "#" + fragment)[0] == uri[0];
  }

  /** The text before the first '#' of a built method's id is its controller, whatever the
      key id is. */
  lemma BuiltIdNamesController(b: JwkVerificationMethodBuilder)
    requires b.Build().Success? && PlainDidUri(b.did.value.uri)
    ensures JavaStrings.PrefixBefore(b.Build().value.entries[ID].text, '#') ==
            b.Build().value.entries[CONTROLLER].text
  {
    JavaStrings.PrefixBeforeAppend(b.did.value.uri, '#', ConcatText(b.jwk.value.keyId));
  }

  /** A credential whose proof names a built verification method is bound exactly when its
      issuer is the DID the method was built for. */
  lemma CredentialNamingBuiltMethod(b: JwkVerificationMethodBuilder, v: Verifiable)
    requires b.Build().Success? && PlainDidUri(b.did.value.uri)
    requires v.kind == VC && v.issuer.Some?
    requires v.proof.verificationMethod == Text(b.Build().value.entries[ID].text)
    ensures ValidateVerificationMethodOfVc(v) == Success(v.issuer.value == b.did.value.uri)
  {
    BindingOfDidUrl(v, b.did.value.uri, ConcatText(b.jwk.value.keyId));
  }

  /** The rejected scenario: issuer did:example:123, verificationMethod did:example:456#key-1. */
  lemma ForeignKeyIsRejected(v: Verifiable)
    requires v.kind == VC && v.issuer == Some("did:example:123")
    requires v.proof.verificationMethod == Text("did:example:456" + "#" + "key-1")
    ensures ValidateVerificationMethodOfVc(v) == Success(false)
  {
    BindingOfDidUrl(v, "did:example:456", "key-1");
    assert v.issuer.value[12] != "did:example:456"[12];
  }

  /** ... and so such a credential is never accepted, whatever its signature. */
  lemma {:induction false} ForeignKeyIsNeverAccepted(p: LinkedDataProofValidation, v: Verifiable)
    requires v.kind == VC && v.issuer == Some("did:example:123")
    requires v.proof.verificationMethod == Text("did:example:456" + "#" + "key-1")
    ensures p.Execute(v).result != Success(true)
  {
    ForeignKeyIsRejected(v);
    AcceptedIffSignatureAndBinding(p, v);
  }

  /** The accepted scenario: a credential issued by did:example:abc, signed with its key-1
      under the Ed25519 suite, whose stripped copy transforms, hashes and validates, and whose
      signature the Ed25519 verifier accepts. */
  lemma MatchingKeyIsAccepted(p: LinkedDataProofValidation, v: Verifiable)
    requires v.kind == VC && v.issuer == Some("did:example:abc")
    requires v.proof.verificationMethod == Text("did:example:abc" + "#" + "key-1")
    requires v.proof.proofType == Some(ED25519_TYPE)
    requires p.transformer(RemoveProofSignature(v)).Some?
    requires p.hasher(p.transformer(RemoveProofSignature(v)).value).Some?
    requires p.jsonLdValidator(RemoveProofSignature(v))
    requires p.ed25519Verifier(p.didResolver,
               p.hasher(p.transformer(RemoveProofSignature(v)).value).value, v) == Success(true)
    ensures p.Execute(v).result == Success(true)
  {
    BindingOfDidUrl(v, "did:example:abc", "key-1");
    AcceptedIffSignatureAndBinding(p, v);
  }
}
