/**
 * ksap23_verify: a signature verifies when its SNIZK2 proof holds for the
 * message and the randomised credential passes e(vv, gg) = e(uu, XX) e(ww, YY).
 */
module Verification {
  import opened Common
  import opened Field
  import opened Codec
  import opened Spk
  import opened Nizk
  import opened Join
  import opened Signing
  import GroupKey
  import MemberKey
  import Signatures

  /** The SNIZK2 inputs verify needs present: pi with (c, s1, s2), uu, ww, c0, c1, c2 and g, h, ZZ0, ZZ1. */
  predicate ProofReady(sig: Signatures.Signature, grp: GroupKey.GrpKey)
    reads sig, sig.pi, grp
  {
    && sig.pi != null && sig.pi.c.Some? && sig.pi.s1.Some? && sig.pi.s2.Some?
    && sig.uu.Some? && sig.ww.Some? && sig.c0.Some? && sig.c1.Some? && sig.c2.Some?
    && grp.g.Some? && grp.h.Some? && grp.ZZ0.Some? && grp.ZZ1.Some?
  }

  predicate ProofHolds(sig: Signatures.Signature, grp: GroupKey.GrpKey, m: seq<byte>)
    reads sig, sig.pi, grp
    requires ProofReady(sig, grp)
  {
    Snizk2Holds(sig.pi.c.value, sig.pi.s1.value, sig.pi.s2.value, sig.uu.value, grp.g.value, grp.h.value,
                grp.ZZ0.value, grp.ZZ1.value, sig.ww.value, sig.c0.value, sig.c1.value, sig.c2.value, m)
  }

  /**
   * ksap23_verify. A NULL signature, message or key is IERROR, and so is a
   * NULL among the proof inputs. A failing SNIZK2 is IOK with ok = 0 before
   * any pairing; otherwise the pairings need vv, gg, XX and YY, and ok is
   * the pairing equation. On IERROR the caller's flag keeps its value prior.
   */
  method Verify(sig: Signatures.Signature?, msg: Option<seq<byte>>, grp: GroupKey.GrpKey?, prior: bool)
    returns (st: Status, ok: bool)
    ensures st != Ok ==> st == Error && ok == prior
    ensures sig == null || msg.None? || grp == null ==> st == Error
    ensures sig != null && msg.Some? && grp != null ==>
      && (st == Ok <==> ProofReady(sig, grp)
                        && (ProofHolds(sig, grp, msg.value) ==>
                              sig.vv.Some? && grp.gg.Some? && grp.XX.Some? && grp.YY.Some?))
      && (st == Ok ==>
            (ok <==> ProofHolds(sig, grp, msg.value)
                     && CredentialValid(sig.vv.value, sig.uu.value, sig.ww.value,
                                        grp.gg.value, grp.XX.value, grp.YY.value)))
  {
    if sig == null || msg.None? || grp == null {
      return Error, prior;
    }
    var rc, proofOk := Snizk2Verify(sig.pi, sig.uu, grp.g, grp.h, grp.ZZ0, grp.ZZ1, sig.ww,
                                    sig.c0, sig.c1, sig.c2, msg.value, false);
    if rc == Error {
      return Error, prior;
    }
    if !proofOk {
      return Ok, false;
    }
    if sig.vv.None? || grp.gg.None? || sig.uu.None? || grp.XX.None? || sig.ww.None? || grp.YY.None? {
      return Error, prior;
    }
    var e1 := Pair(sig.vv.value, grp.gg.value);
    var e2 := Pair(sig.uu.value, grp.XX.value);
    var e3 := Pair(sig.ww.value, grp.YY.value);
    e2 := Add(e2, e3);
    st, ok := Ok, e1 == e2;
  }

  /**
   * Completeness: a signature produced from an honest member key under the
   * group key it joined with verifies.
   */
  lemma {:induction false} SignedVerifies(sig: Signatures.Signature, grp: GroupKey.GrpKey, mk: Member,
                                          r: Elem, s: Elem, m: seq<byte>, k1: Elem, k2: Elem)
    requires grp.Complete()
    requires Honest(mk, grp.g.value, grp.h.value, grp.gg.value, grp.XX.value, grp.YY.value)
    requires Holds(sig, SignOf(mk, grp.g.value, grp.h.value, grp.ZZ0.value, grp.ZZ1.value, r, s, m, k1, k2))
    ensures ProofReady(sig, grp) && ProofHolds(sig, grp, m)
    ensures CredentialValid(sig.vv.value, sig.uu.value, sig.ww.value, grp.gg.value, grp.XX.value, grp.YY.value)
  {
    var sg := SignOf(mk, grp.g.value, grp.h.value, grp.ZZ0.value, grp.ZZ1.value, r, s, m, k1, k2);
    SignCorrect(mk, grp.g.value, grp.h.value, grp.gg.value, grp.XX.value, grp.YY.value,
                grp.ZZ0.value, grp.ZZ1.value, r, s, m, k1, k2);
    assert sig.Fields()[0] == Some(sg.uu) && sig.Fields()[1] == Some(sg.vv) && sig.Fields()[2] == Some(sg.ww);
    assert sig.Fields()[3] == Some(sg.c0) && sig.Fields()[4] == Some(sg.c1) && sig.Fields()[5] == Some(sg.c2);
  }

  /**
   * Sign followed by verify on the same message accepts: the round trip the
   * scheme promises, through both methods.
   */
  method SignThenVerify(mem: MemberKey.MemKey, grp: GroupKey.GrpKey, m: seq<byte>,
                        r: Elem, s: Elem, k1: Elem, k2: Elem)
    returns (st: Status, ok: bool)
    requires grp.Complete() && Ready(mem, grp)
    requires Honest(MemberOf(mem), grp.g.value, grp.h.value, grp.gg.value, grp.XX.value, grp.YY.value)
    ensures st == Ok && ok
  {
    var sig := new Signatures.Signature();
    var rc := Sign(sig, Some(m), mem, grp, Some(r), Some(s), k1, k2);
    SignedVerifies(sig, grp, MemberOf(mem), r, s, m, k1, k2);
    st, ok := Verify(sig, Some(m), grp, false);
  }

  /**
   * Import does not restore pi, so a signature read back from bytes never
   * verifies: the SNIZK2 proof verify needs is always missing.
   */
  method ImportThenVerify(b: seq<byte>, m: seq<byte>, grp: GroupKey.GrpKey, prior: bool)
    returns (st: Status, ok: bool)
    ensures st == Error && ok == prior
  {
    var sig := Signatures.Import(b);
    st, ok := Verify(sig, Some(m), grp, prior);
  }
}
