/** ML-DSA-87 as seen by the callers: a verification predicate nobody looks
    inside, and signers that may fail but never hand out a bad signature. */
module Signing {
  import opened Bytes
  import opened Wrappers

  const PUBLIC_KEY_LEN: nat := 2592
  const SIGNATURE_LEN: nat := 4627

  /** Which byte strings of the right length the library decodes as keys, and
      its verification of (key, message, signature) under the project's
      context string; uninterpreted. */
  const MlDsaKeyParses: Bytes -> bool
  const MlDsaVerify: (Bytes, Bytes, Bytes) -> bool

  predicate Verifies(pk: Bytes, msg: Bytes, sig: Bytes)
  {
    |pk| == PUBLIC_KEY_LEN && |sig| == SIGNATURE_LEN && MlDsaKeyParses(pk) && MlDsaVerify(pk, msg, sig)
  }

  /** A signing backend.  `sign(call, msg)` is its answer at the given call:
      the call number stands for everything outside the program (an HSM that
      is down, fresh randomness), so two calls may answer differently. */
  datatype Signer = Signer(pk: Bytes, sign: (nat, Bytes) -> Option<Bytes>)

  /** The obligation the trait puts on every implementation. */
  ghost predicate Honest(s: Signer)
  {
    && |s.pk| == PUBLIC_KEY_LEN
    && forall call, msg | s.sign(call, msg).Some? :: Verifies(s.pk, msg, s.sign(call, msg).value)
  }
}
