/**
 * ksap23_judge: check an opening proof (f1, f2, pi) against a signature.
 * The proof is NIZK3 over the exported signature bytes, showing that
 * c1 / f1 and c2 / f2 are c0 raised to the opener secrets behind ZZ0, ZZ1.
 */
module Judging {
  import opened Common
  import opened Field
  import opened Codec
  import opened Spk
  import opened Nizk
  import GroupKey
  import Signatures

  /** ksap23_proof_t: the claimed pair (f1, f2) and the NIZK3 proof pi. */
  class Proof {
    var f1: Option<Elem>
    var f2: Option<Elem>
    var pi: SpkRep?

    constructor ()
      ensures f1.None? && f2.None? && pi == null
    {
      f1, f2, pi := None, None, null;
    }
  }

  /**
   * ksap23_judge as written. A NULL proof, signature or key is IERROR.
   * Otherwise the signature is exported first, and that export always
   * fails, so the call is IERROR and *ok keeps its value prior; the NIZK3
   * check after it is never reached.
   */
  method Judge(proof: Proof?, sig: Signatures.Signature?, grp: GroupKey.GrpKey?, prior: bool)
    returns (st: Status, ok: bool)
    ensures st == Error && ok == prior
  {
    if proof == null || sig == null || grp == null {
      return Error, prior;
    }
    var rc, bsig := Signatures.Export(sig);
    st, ok := rc, prior;
  }

  /**
   * ksap23_judge with the corrected signature export and NIZK3 check: IOK
   * exactly when every input is present, and then ok says whether the
   * proof holds over the signature's bytes.
   */
  method JudgeFixed(proof: Proof?, sig: Signatures.Signature?, grp: GroupKey.GrpKey?, prior: bool)
    returns (st: Status, ok: bool)
    ensures st != Ok ==> st == Error && ok == prior
    ensures st == Ok <==>
      && proof != null && sig != null && grp != null && sig.Complete()
      && proof.pi != null && proof.pi.c.Some? && proof.pi.s1.Some? && proof.pi.s2.Some?
      && proof.f1.Some? && proof.f2.Some? && grp.g.Some? && grp.ZZ0.Some? && grp.ZZ1.Some?
    ensures st == Ok ==>
      ok == Nizk3FixedHolds(proof.pi.c.value, proof.pi.s1.value, proof.pi.s2.value, grp.g.value,
                            sig.c0.value, sig.c1.value, sig.c2.value, proof.f1.value, proof.f2.value,
                            grp.ZZ0.value, grp.ZZ1.value, Signatures.Bytes(sig.Fields()))
  {
    if proof == null || sig == null || grp == null {
      return Error, prior;
    }
    var rc, bsig := Signatures.ExportFixed(sig);
    if rc == Error {
      return Error, prior;
    }
    Signatures.CompleteFields(sig);
    var rc3, ok3 := Nizk3VerifyFixed(proof.pi, grp.g, sig.c0, sig.c1, sig.c2, proof.f1, proof.f2,
                                     grp.ZZ0, grp.ZZ1, bsig, false);
    if rc3 == Error {
      return Error, prior;
    }
    st, ok := Ok, ok3;
  }

  /** Removing f from f X leaves the mask X. */
  lemma QuotientMask(f: Elem, X: Elem)
    ensures Quotient(Add(f, X), f) == X
  {
    var q := Quotient(Add(f, X), f);
    AddNegCancel(Add(X, f), f);
    assert Add(f, X) == Add(X, f);
    AddCancelR(q, X, f);
  }

  /**
   * The opening the judge is meant to accept: for a signature encrypting
   * (f1, f2) under opener keys ZZ0 = g^z0 and ZZ1 = g^z1, a NIZK3 proof made
   * with the secrets z0, z1 holds.
   */
  lemma {:induction false} JudgeAcceptsOpening(g: Elem, f1: Elem, f2: Elem, z0: Elem, z1: Elem, s: Elem,
                                               m: seq<byte>, k1: Elem, k2: Elem)
    ensures var (c0, ZZ0, ZZ1) := (Mul(g, s), Mul(g, z0), Mul(g, z1));
            var (c1, c2) := (Add(f1, Mul(ZZ0, s)), Add(f2, Mul(ZZ1, s)));
            var c := Nizk3Challenge(g, c0, c1, c2, f1, f2, ZZ0, ZZ1, Nizk3FixedCommitments(g, c0, k1, k2), m);
            Nizk3FixedHolds(c, Sub(k1, Mul(c, z0)), Sub(k2, Mul(c, z1)), g, c0, c1, c2, f1, f2, ZZ0, ZZ1, m)
  {
    var (c0, ZZ0, ZZ1) := (Mul(g, s), Mul(g, z0), Mul(g, z1));
    QuotientMask(f1, Mul(ZZ0, s));
    QuotientMask(f2, Mul(ZZ1, s));
    MulSwap(g, s, z0);
    MulSwap(g, s, z1);
    Nizk3FixedComplete(g, c0, Add(f1, Mul(ZZ0, s)), Add(f2, Mul(ZZ1, s)), f1, f2, z0, z1, m, k1, k2);
  }
}
