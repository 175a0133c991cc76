/**
 * What `LinkedDataProofValidation.verify` promises, stated over its step-by-step model
 * `Execute`: fail-closed dispatch, work on a stripped copy, which failures escape and which
 * become false, and "accepted only if the signature and the issuer binding both hold".
 */
module ValidationProperties {
  import opened Wrappers
  import opened Exceptions
  import opened Verifiables
  import JavaStrings
  import opened ProofValidation

  /** A null or blank proof type fails with UnsupportedSignatureType before any collaborator
      is called. */
  lemma BlankTypeFailsClosed(p: LinkedDataProofValidation, v: Verifiable)
    requires v.proof.proofType.None? || JavaStrings.IsBlank(v.proof.proofType.value)
    ensures p.Execute(v) == Execution(Failure(UnsupportedSignatureType), [])
  {
  }

  /** A non-blank proof type that is neither supported identifier fails the same way. */
  lemma UnknownTypeFailsClosed(p: LinkedDataProofValidation, v: Verifiable)
    requires v.proof.proofType.Some? && !JavaStrings.IsBlank(v.proof.proofType.value)
    requires v.proof.proofType.value != ED25519_TYPE && v.proof.proofType.value != JWS_TYPE
    ensures p.Execute(v) == Execution(Failure(UnsupportedSignatureType), [])
  {
  }

  /** Dispatch is exact: the verifier that is asked is the Ed25519 one exactly for the Ed25519
      identifier and the JWS one exactly for the JWS identifier. */
  lemma DispatchIsExact(p: LinkedDataProofValidation, v: Verifiable)
    ensures forall c <- p.Execute(v).calls | c.VerifySignature? ::
      (c.variant == Ed25519 <==> v.proof.proofType == Some(ED25519_TYPE)) &&
      (c.variant == Jws <==> v.proof.proofType == Some(JWS_TYPE))
  {
  }

  /** The transformer, the hasher's input and the validator see the copy without the
      signature; the verifier and the binding check see the caller's document itself. */
  lemma StrippedCopyIsTransformed(p: LinkedDataProofValidation, v: Verifiable)
    ensures forall c <- p.Execute(v).calls ::
      match c
      case Transform(w) => w == RemoveProofSignature(v)
      case Hash(data) => p.transformer(RemoveProofSignature(v)) == Some(data)
      case Validate(w) => w == RemoveProofSignature(v)
      case VerifySignature(_, h, w) => w == v && p.hasher(p.transformer(RemoveProofSignature(v)).value) == Some(h)
      case CheckIssuerBinding(w) => w == v
  {
  }

  /** A transform failure escapes as TransformError: nothing is hashed, validated or
      verified, and it is not turned into false. */
  lemma TransformFailurePropagates(p: LinkedDataProofValidation, v: Verifiable)
    requires SelectVariant(v.proof.proofType).Some?
    requires p.transformer(RemoveProofSignature(v)).None?
    ensures p.Execute(v) == Execution(Failure(TransformError), [Transform(RemoveProofSignature(v))])
  {
  }

  /** A hash failure escapes the same way, after the transform and the hash and before
      anything is validated or verified. */
  lemma HashFailurePropagates(p: LinkedDataProofValidation, v: Verifiable)
    requires SelectVariant(v.proof.proofType).Some?
    requires p.transformer(RemoveProofSignature(v)).Some?
    requires p.hasher(p.transformer(RemoveProofSignature(v)).value).None?
    ensures p.Execute(v) == Execution(Failure(TransformError),
      [Transform(RemoveProofSignature(v)), Hash(p.transformer(RemoveProofSignature(v)).value)])
  {
  }

  /** A document the JSON-LD validator rejects yields false, never an error and never true,
      and no verifier is asked about it. */
  lemma InvalidDocumentIsFalse(p: LinkedDataProofValidation, v: Verifiable)
    requires SelectVariant(v.proof.proofType).Some?
    requires p.transformer(RemoveProofSignature(v)).Some?
    requires p.hasher(p.transformer(RemoveProofSignature(v)).value).Some?
    requires !p.jsonLdValidator(RemoveProofSignature(v))
    ensures p.Execute(v).result == Success(false)
    ensures forall c <- p.Execute(v).calls :: !c.VerifySignature?
  {
  }

  /** Everything the pipeline demands of v for acceptance. */
  ghost predicate Passes(p: LinkedDataProofValidation, v: Verifiable) {
    var variant := SelectVariant(v.proof.proofType);
    var data := p.transformer(RemoveProofSignature(v));
    variant.Some? && data.Some? && p.hasher(data.value).Some? &&
    p.jsonLdValidator(RemoveProofSignature(v)) &&
    p.VerifierFor(variant.value)(p.didResolver, p.hasher(data.value).value, v) == Success(true) &&
    ValidateVerificationMethodOfVc(v) == Success(true)
  }

  /** The security property: verify says true exactly when the stripped copy transforms,
      hashes and validates, the selected verifier accepts the signature over its hash, and the
      issuer binding holds. */
  lemma AcceptedIffSignatureAndBinding(p: LinkedDataProofValidation, v: Verifiable)
    ensures p.Execute(v).result == Success(true) <==> Passes(p, v)
  {
    var stripped := RemoveProofSignature(v);
    match SelectVariant(v.proof.proofType)
    case None =>
    case Some(variant) =>
      match p.transformer(stripped)
      case None =>
      case Some(data) =>
        match p.hasher(data)
        case None =>
        case Some(hashed) =>
  }

  /** For a credential, acceptance implies that the DID before '#' in verificationMethod is the
      issuer: a valid signature by some other DID's key is never accepted. */
  lemma {:induction false} AcceptedCredentialIsBound(p: LinkedDataProofValidation, v: Verifiable)
    requires v.kind == VC
    requires p.Execute(v).result == Success(true)
    ensures v.issuer.Some? && v.proof.verificationMethod.Text?
    ensures JavaStrings.PrefixBefore(v.proof.verificationMethod.text, '#') == v.issuer.value
  {
    AcceptedIffSignatureAndBinding(p, v);
  }

  /** The binding check runs only right after a verifier call that answered true. */
  lemma BindingOnlyAfterValidSignature(p: LinkedDataProofValidation, v: Verifiable)
    ensures forall i | 0 <= i < |p.Execute(v).calls| && p.Execute(v).calls[i].CheckIssuerBinding? ::
      var calls := p.Execute(v).calls;
      i > 0 && calls[i - 1].VerifySignature? &&
      p.VerifierFor(calls[i - 1].variant)(p.didResolver, calls[i - 1].hash, v) == Success(true)
  {
    var calls := p.Execute(v).calls;
    var variant := SelectVariant(v.proof.proofType);
    var data := p.transformer(RemoveProofSignature(v));
    if variant.Some? && data.Some? && p.hasher(data.value).Some? &&
       p.jsonLdValidator(RemoveProofSignature(v)) &&
       p.VerifierFor(variant.value)(p.didResolver, p.hasher(data.value).value, v) == Success(true) {
      assert |calls| == 5 && calls[3] == VerifySignature(variant.value, p.hasher(data.value).value, v);
      assert forall i | 0 <= i < 4 :: !calls[i].CheckIssuerBinding?;
    } else {
      assert forall i | 0 <= i < |calls| :: !calls[i].CheckIssuerBinding?;
    }
  }

  /** Every error has a source, told apart by the trace: the dispatch before any call
      (UnsupportedSignatureType), the transformer or the hasher (TransformError), the verifier
      on its one call (its own error), or the binding check after it. */
  lemma ErrorsHaveASource(p: LinkedDataProofValidation, v: Verifiable)
    requires p.Execute(v).result.Failure?
    ensures var e := p.Execute(v).result.error;
      var calls := p.Execute(v).calls;
      var stripped := RemoveProofSignature(v);
      (calls == [] ==>
        e == UnsupportedSignatureType && SelectVariant(v.proof.proofType).None?) &&
      (calls == [Transform(stripped)] ==>
        e == TransformError && p.transformer(stripped).None?) &&
      (|calls| == 2 ==>
        calls == [Transform(stripped), calls[1]] && calls[1].Hash? &&
        e == TransformError && p.hasher(calls[1].data).None?) &&
      (|calls| == 4 ==>
        calls[3].VerifySignature? &&
        p.VerifierFor(calls[3].variant)(p.didResolver, calls[3].hash, v) == Failure(e)) &&
      (|calls| == 5 ==>
        calls[4] == CheckIssuerBinding(v) && ValidateVerificationMethodOfVc(v) == Failure(e)) &&
      (|calls| == 0 || |calls| == 1 || |calls| == 2 || |calls| == 4 || |calls| == 5)
  {
  }

  /** When the verifiers only throw what they declare, verify only throws what it declares
      plus the two runtime exceptions of the binding check. */
  lemma {:induction false} ErrorsAreDeclared(p: LinkedDataProofValidation, v: Verifiable)
    requires p.Execute(v).result.Failure?
    requires forall variant: SignatureVariant, h: HashedLinkedData ::
      p.VerifierFor(variant)(p.didResolver, h, v).Failure? ==>
        IsVerifierError(p.VerifierFor(variant)(p.didResolver, h, v).error)
    ensures var e := p.Execute(v).result.error;
      IsVerifierError(e) || e == TransformError || e == NullPointer || e == IndexOutOfBounds
  {
    ErrorsHaveASource(p, v);
  }

  /** The signature covers everything except itself: two documents that differ only in their
      signature values go through identical transform, hash and validate steps, and the
      verifier is asked about both with the same hash. */
  lemma SignatureIsNotHashed(p: LinkedDataProofValidation, a: Verifiable, b: Verifiable)
    requires SameExceptSignature(a, b)
    ensures var ca, cb := p.Execute(a).calls, p.Execute(b).calls;
      (|ca| < 4 ==> p.Execute(a) == p.Execute(b)) &&
      (|ca| >= 4 ==> |cb| >= 4 && ca[..3] == cb[..3] && cb[3] == ca[3].(input := b))
  {
    StrippedIgnoresSignature(a, b);
  }
}
