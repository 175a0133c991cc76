/** The exception kinds that can escape the proof validation pipeline and the verification-method builder. */
module Exceptions {

  datatype Error =
    | UnsupportedSignatureType     // UnsupportedSignatureTypeException
    | TransformError               // TransformJsonLdException
    | DidParse                     // DidParseException
    | InvalidPublicKeyFormat       // InvalidPublicKeyFormatException
    | SignatureParse               // SignatureParseException
    | NoVerificationKeyFound       // NoVerificationKeyFoundException
    | SignatureVerificationFailed  // SignatureVerificationFailedException
    | NullPointer                  // java.lang.NullPointerException
    | IndexOutOfBounds             // java.lang.ArrayIndexOutOfBoundsException

  /** The checked exceptions that the signature verifiers declare. */
  predicate IsVerifierError(e: Error) {
    e in {UnsupportedSignatureType, SignatureParse, DidParse, InvalidPublicKeyFormat,
          SignatureVerificationFailed, NoVerificationKeyFound}
  }
}
