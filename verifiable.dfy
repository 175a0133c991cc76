/**
 * A signed credential or presentation, as an immutable value. A Java deep clone of such a
 * value is the value itself, so "clone, then strip the signature" is one function that
 * returns a new value and leaves its argument as it was.
 */
module Verifiables {
  import opened Wrappers

  /** Verifiable.VerifiableType: a credential (VC) or a presentation (VP). */
  datatype VerifiableType = VC | VP

  /** What `proof.get("verificationMethod")` holds: nothing (null), a string, or a value of
      some other JSON type. */
  datatype ProofEntry = Missing | Text(text: string) | NotText

  /** The embedded proof: its `type`, its `verificationMethod`, the algorithm-specific
      signature value and every other member. */
  datatype Proof = Proof(
    proofType: Option<string>,
    verificationMethod: ProofEntry,
    signature: Option<string>,
    otherMembers: map<string, string>)

  /** A VC or VP with its proof. `issuer` is the issuer URI's text (absent for a VP). */
  datatype Verifiable = Verifiable(
    id: string,
    kind: VerifiableType,
    issuer: Option<string>,
    proof: Proof,
    otherMembers: map<string, string>)

  /** a and b are equal in everything except the proof's signature value. */
  predicate SameExceptSignature(a: Verifiable, b: Verifiable) {
    a.id == b.id && a.kind == b.kind && a.issuer == b.issuer && a.otherMembers == b.otherMembers &&
    a.proof.proofType == b.proof.proofType &&
    a.proof.verificationMethod == b.proof.verificationMethod &&
    a.proof.otherMembers == b.proof.otherMembers
  }

  /** `deepClone().removeProofSignature()`: a copy of v without the signature value, every
      other member (the proof's type and verificationMethod included) retained. */
  function RemoveProofSignature(v: Verifiable): (r: Verifiable)
    ensures SameExceptSignature(r, v) && r.proof.signature.None?
    ensures v.proof.signature.None? ==> r == v
  {
    v.(proof := v.proof.(signature := None))
  }

  /** Two documents that differ at most in their signature values are the same document
      once the signature is stripped: the stripped copy is what the signature covers. */
  lemma StrippedIgnoresSignature(a: Verifiable, b: Verifiable)
    requires SameExceptSignature(a, b)
    ensures RemoveProofSignature(a) == RemoveProofSignature(b)
  {
  }
}
