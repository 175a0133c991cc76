/**
 * LinkedDataProofValidation: the fail-closed decision whether a signed VC or VP is accepted.
 *
 * The canonicaliser, the hasher, the JSON-LD validator and the two signature verifiers are
 * library code outside this model; they are function values the instance holds, and the
 * orchestration around them is what is modelled and proved. Every call the orchestrator makes
 * to one of them, and the issuer-binding check, is recorded in a call trace.
 */
module ProofValidation {
  import opened Wrappers
  import opened Exceptions
  import opened Verifiables
  import JavaStrings

  /** SignatureType.ED25519.toString() and SignatureType.JWS.toString(). */
  const ED25519_TYPE: string := "Ed25519Signature2020"
  const JWS_TYPE: string := "JsonWebSignature2020"

  /** The verifier classes a proof type can select: Ed25519ProofVerifier or JWSProofVerifier. */
  datatype SignatureVariant = Ed25519 | Jws

  /** Output of the canonicaliser (TransformedLinkedData) and of the hasher (HashedLinkedData). */
  datatype TransformedLinkedData = TransformedLinkedData(bytes: seq<bv8>)
  datatype HashedLinkedData = HashedLinkedData(bytes: seq<bv8>)

  /** The injected DID resolver; only its identity matters here. */
  datatype DidResolver = DidResolver(handle: string)

  /** `new XProofVerifier(resolver).verify(hash, verifiable)`: a verdict, or one of the
      exceptions the verifier declares. */
  type ProofVerifier = (DidResolver, HashedLinkedData, Verifiable) -> Result<bool, Error>

  /** The library implementations behind the pipeline. A transformer or hasher result of None
      stands for TransformJsonLdException, a validator result of false for
      InvalidJsonLdException. */
  datatype Library = Library(
    transformer: Verifiable -> Option<TransformedLinkedData>,
    hasher: TransformedLinkedData -> Option<HashedLinkedData>,
    validator: Verifiable -> bool,
    ed25519Verifier: ProofVerifier,
    jwsVerifier: ProofVerifier)

  /** One step of the pipeline, with the argument it was given. */
  datatype Call =
    | Transform(input: Verifiable)
    | Hash(data: TransformedLinkedData)
    | Validate(input: Verifiable)
    | VerifySignature(variant: SignatureVariant, hash: HashedLinkedData, input: Verifiable)
    | CheckIssuerBinding(input: Verifiable)

  /** The outcome of one `verify` call and the steps it took, in order. */
  datatype Execution = Execution(result: Result<bool, Error>, calls: seq<Call>)

  /** The verifier a proof type selects: none for a null or blank type or for a type that is
      neither of the two supported identifiers. */
  function SelectVariant(proofType: Option<string>): (r: Option<SignatureVariant>)
    ensures r == Some(Ed25519) <==> proofType == Some(ED25519_TYPE)
    ensures r == Some(Jws) <==> proofType == Some(JWS_TYPE)
  {
    assert !JavaStrings.IsWhitespace(ED25519_TYPE[0]) && !JavaStrings.IsWhitespace(JWS_TYPE[0]);
    if proofType.Some? && !JavaStrings.IsBlank(proofType.value) then
      if proofType.value == ED25519_TYPE then Some(Ed25519)
      else if proofType.value == JWS_TYPE then Some(Jws)
      else None
    else None
  }

  /** getVerificationMethod: the proof's `verificationMethod` cast to a string. The cast
      failing on a non-string value becomes UnsupportedSignatureType; a missing entry is null. */
  function GetVerificationMethod(v: Verifiable): (r: Result<Option<string>, Error>)
    ensures r.Failure? <==> v.proof.verificationMethod.NotText?
    ensures r.Failure? ==> r.error == UnsupportedSignatureType
    ensures r.Success? ==> (r.value.Some? <==> v.proof.verificationMethod.Text?)
    ensures r.Success? && r.value.Some? ==> r.value.value == v.proof.verificationMethod.text
  {
    match v.proof.verificationMethod
    case Missing => Success(None)
    case Text(s) => Success(Some(s))
    case NotText => Failure(UnsupportedSignatureType)
  }

  /** validateVerificationMethodOfVC: a VP is always bound; for a VC, the text before the
      first '#' of verificationMethod must equal the issuer. `split("#")[0]` throws when the
      split yields no element, i.e. when verificationMethod is a non-empty run of '#'. */
  function ValidateVerificationMethodOfVc(v: Verifiable): (r: Result<bool, Error>)
    ensures v.kind == VP ==> r == Success(true)
    ensures v.kind == VC && v.issuer.None? ==> r == Failure(NullPointer)
    ensures v.kind == VC && v.issuer.Some? ==>
      match v.proof.verificationMethod
      case Missing => r == Failure(NullPointer)
      case NotText => r == Failure(UnsupportedSignatureType)
      case Text(s) =>
        if JavaStrings.OnlySeparators(s, '#') then r == Failure(IndexOutOfBounds)
        else r == Success(JavaStrings.PrefixBefore(s, '#') == v.issuer.value)
  {
    if v.kind == VP then Success(true)
    else if v.issuer.None? then Failure(NullPointer)
    else
      match GetVerificationMethod(v)
      case Failure(e) => Failure(e)
      case Success(None) => Failure(NullPointer)
      case Success(Some(vm)) =>
        var parts := JavaStrings.Split(vm, '#');
        JavaStrings.SplitEmptyIff(vm, '#');
        if |parts| == 0 then Failure(IndexOutOfBounds)
        else
          JavaStrings.SplitHead(vm, '#');
          Success(parts[0] == v.issuer.value)
  }

  class LinkedDataProofValidation {
    const hasher: TransformedLinkedData -> Option<HashedLinkedData>
    const transformer: Verifiable -> Option<TransformedLinkedData>
    const didResolver: DidResolver
    const jsonLdValidator: Verifiable -> bool
    const ed25519Verifier: ProofVerifier
    const jwsVerifier: ProofVerifier

    /** The private all-fields constructor. */
    constructor (lib: Library, didResolver: DidResolver)
      ensures this.didResolver == didResolver && Uses(lib)
    {
      this.hasher := lib.hasher;
      this.transformer := lib.transformer;
      this.didResolver := didResolver;
      this.jsonLdValidator := lib.validator;
      this.ed25519Verifier := lib.ed25519Verifier;
      this.jwsVerifier := lib.jwsVerifier;
    }

    /** The instance is wired to the implementations of lib. */
    ghost predicate Uses(lib: Library) {
      hasher == lib.hasher && transformer == lib.transformer && jsonLdValidator == lib.validator &&
      ed25519Verifier == lib.ed25519Verifier && jwsVerifier == lib.jwsVerifier
    }

    /** newInstance: a null resolver is refused with a NullPointerException. */
    static method NewInstance(didResolver: Option<DidResolver>, lib: Library)
      returns (r: Result<LinkedDataProofValidation, Error>)
      ensures didResolver.None? ==> r == Failure(NullPointer)
      ensures didResolver.Some? ==>
        r.Success? && fresh(r.value) && r.value.didResolver == didResolver.value && r.value.Uses(lib)
    {
      if didResolver.None? {
        return Failure(NullPointer);
      }
      var instance := new LinkedDataProofValidation(lib, didResolver.value);
      r := Success(instance);
    }

    function VerifierFor(variant: SignatureVariant): ProofVerifier {
      match variant
      case Ed25519 => ed25519Verifier
      case Jws => jwsVerifier
    }

    /** What `verify(v)` does, step by step: dispatch on the proof type; strip the signature
        from a copy; transform and hash the copy (a failure of either escapes); validate the
        copy (invalid means false); ask the selected verifier about the ORIGINAL document; only
        if it says true, check the issuer binding. */
    function Execute(v: Verifiable): Execution {
      match SelectVariant(v.proof.proofType)
      case None => Execution(Failure(UnsupportedSignatureType), [])
      case Some(variant) =>
        var stripped := RemoveProofSignature(v);
        match transformer(stripped)
        case None => Execution(Failure(TransformError), [Transform(stripped)])
        case Some(data) =>
          match hasher(data)
          case None => Execution(Failure(TransformError), [Transform(stripped), Hash(data)])
          case Some(hashed) =>
            var checked := [Transform(stripped), Hash(data), Validate(stripped)];
            if !jsonLdValidator(stripped) then Execution(Success(false), checked)
            else
              var calls := checked + [VerifySignature(variant, hashed, v)];
              match VerifierFor(variant)(didResolver, hashed, v)
              case Failure(e) => Execution(Failure(e), calls)
              case Success(false) => Execution(Success(false), calls)
              case Success(true) =>
                Execution(ValidateVerificationMethodOfVc(v), calls + [CheckIssuerBinding(v)])
    }

    /** verify. It modifies nothing: the caller's document is a value it only reads. */
    method Verify(v: Verifiable) returns (r: Result<bool, Error>, ghost calls: seq<Call>)
      ensures r == Execute(v).result && calls == Execute(v).calls
      ensures r == Success(true) ==>
        SelectVariant(v.proof.proofType).Some? && ValidateVerificationMethodOfVc(v) == Success(true)
    {
      var proofType := v.proof.proofType;
      var variant: SignatureVariant;
      if proofType.Some? && !JavaStrings.IsBlank(proofType.value) {
        if proofType.value == ED25519_TYPE {
          variant := Ed25519;
        } else if proofType.value == JWS_TYPE {
          variant := Jws;
        } else {
          return Failure(UnsupportedSignatureType), [];
        }
      } else {
        return Failure(UnsupportedSignatureType), [];
      }
      var verifier := VerifierFor(variant);

      var withoutSignature := RemoveProofSignature(v);
      calls := [Transform(withoutSignature)];
      var transformed := transformer(withoutSignature);
      if transformed.None? {
        return Failure(TransformError), calls;
      }
      calls := calls + [Hash(transformed.value)];
      var hashed := hasher(transformed.value);
      if hashed.None? {
        return Failure(TransformError), calls;
      }
      calls := calls + [Validate(withoutSignature)];

      if !jsonLdValidator(withoutSignature) {
        return Success(false), calls;
      }
      calls := calls + [VerifySignature(variant, hashed.value, v)];
      var verdict := verifier(didResolver, hashed.value, v);
      if verdict.Failure? {
        return Failure(verdict.error), calls;
      }
      if !verdict.value {
        return Success(false), calls;
      }
      calls := calls + [CheckIssuerBinding(v)];
      r := ValidateVerificationMethodOfVc(v);
    }
  }
}
