/**
 * ksap23_sign: randomise the credential with r, encrypt (f1, f2) under the
 * opener key with s, and prove knowledge of alpha and s with SNIZK2 bound
 * to the message. The draws r, s and the SNIZK2 nonces k1, k2 are
 * parameters (None for a failed draw).
 */
module Signing {
  import opened Common
  import opened Field
  import opened Codec
  import opened Spk
  import opened Nizk
  import opened Join
  import MemberKey
  import GroupKey
  import Signatures

  /** The values of a complete member key. */
  datatype Member = Member(alpha: Elem, f1: Elem, f2: Elem, u: Elem, v: Elem, w: Elem)

  /**
   * A member key as a successful join leaves it: f1 = g^alpha, f2 = h^alpha,
   * u = Hash(f1), w = u^alpha, and v a credential that passes the pairing
   * check under (gg, XX, YY).
   */
  predicate Honest(mk: Member, g: Elem, h: Elem, gg: Elem, XX: Elem, YY: Elem)
  {
    && mk.f1 == Mul(g, mk.alpha) && mk.f2 == Mul(h, mk.alpha)
    && mk.u == HashG1(mk.f1) && mk.w == Mul(mk.u, mk.alpha)
    && CredentialValid(mk.v, mk.u, mk.w, gg, XX, YY)
  }

  /** The values a signature holds: the six elements and the SNIZK2 proof (c, s1, s2). */
  datatype Signed = Signed(uu: Elem, vv: Elem, ww: Elem, c0: Elem, c1: Elem, c2: Elem,
                           c: Elem, s1: Elem, s2: Elem)

  /**
   * What ksap23_sign computes: (uu, vv, ww) = (u^r, v^r, w^r),
   * (c0, c1, c2) = (g^s, f1 ZZ0^s, f2 ZZ1^s) and SNIZK2 on them.
   */
  function SignOf(mk: Member, g: Elem, h: Elem, ZZ0: Elem, ZZ1: Elem, r: Elem, s: Elem,
                  m: seq<byte>, k1: Elem, k2: Elem): Signed
  {
    var (uu, vv, ww) := (Mul(mk.u, r), Mul(mk.v, r), Mul(mk.w, r));
    var (c0, c1, c2) := (Mul(g, s), Add(mk.f1, Mul(ZZ0, s)), Add(mk.f2, Mul(ZZ1, s)));
    var c := Snizk2Challenge(uu, g, h, ZZ0, ZZ1, ww, c0, c1, c2, Snizk2Commitments(uu, g, h, ZZ0, ZZ1, k1, k2), m);
    Signed(uu, vv, ww, c0, c1, c2, c, Sub(k1, Mul(c, mk.alpha)), Sub(k2, Mul(c, s)))
  }

  /**
   * Correctness of signing: a signature made with an honest member key
   * carries a valid SNIZK2 proof and a randomised credential that passes
   * the pairing check, whatever r, s and the nonces are.
   */
  lemma SignCorrect(mk: Member, g: Elem, h: Elem, gg: Elem, XX: Elem, YY: Elem, ZZ0: Elem, ZZ1: Elem,
                    r: Elem, s: Elem, m: seq<byte>, k1: Elem, k2: Elem)
    requires Honest(mk, g, h, gg, XX, YY)
    ensures var sg := SignOf(mk, g, h, ZZ0, ZZ1, r, s, m, k1, k2);
            && Snizk2Holds(sg.c, sg.s1, sg.s2, sg.uu, g, h, ZZ0, ZZ1, sg.ww, sg.c0, sg.c1, sg.c2, m)
            && CredentialValid(sg.vv, sg.uu, sg.ww, gg, XX, YY)
  {
    MulSwap(mk.u, mk.alpha, r);
    Snizk2Complete(Mul(mk.u, r), g, h, ZZ0, ZZ1, mk.alpha, s, m, k1, k2);
    CredentialScaled(mk.v, mk.u, mk.w, gg, XX, YY, r);
  }

  /** The member key's values, when all six are present. */
  function MemberOf(mem: MemberKey.MemKey): Member
    reads mem
    requires mem.alpha.Some? && mem.f1.Some? && mem.f2.Some? && mem.u.Some? && mem.v.Some? && mem.w.Some?
  {
    Member(mem.alpha.value, mem.f1.value, mem.f2.value, mem.u.value, mem.v.value, mem.w.value)
  }

  /** The fields ksap23_sign needs: the whole member key and g, h, ZZ0, ZZ1. */
  predicate Ready(mem: MemberKey.MemKey, grp: GroupKey.GrpKey)
    reads mem, grp
  {
    && mem.alpha.Some? && mem.f1.Some? && mem.f2.Some? && mem.u.Some? && mem.v.Some? && mem.w.Some?
    && grp.g.Some? && grp.h.Some? && grp.ZZ0.Some? && grp.ZZ1.Some?
  }

  /** The signature's values, when all of them are present. */
  predicate Holds(sig: Signatures.Signature, sg: Signed)
    reads sig, sig.pi
  {
    && sig.Fields() == [Some(sg.uu), Some(sg.vv), Some(sg.ww), Some(sg.c0), Some(sg.c1), Some(sg.c2)]
    && sig.pi != null && sig.pi.c == Some(sg.c) && sig.pi.s1 == Some(sg.s1) && sig.pi.s2 == Some(sg.s2)
  }

  /**
   * ksap23_sign. A NULL signature, message or key is IERROR and touches
   * nothing. Any later failure resets the six elements and pi to NULL.
   */
  method Sign(sig: Signatures.Signature?, msg: Option<seq<byte>>, mem: MemberKey.MemKey?, grp: GroupKey.GrpKey?,
              r: Option<Elem>, s: Option<Elem>, k1: Elem, k2: Elem)
    returns (st: Status)
    modifies sig
    ensures st != Ok ==> st == Error
    ensures sig == null || msg.None? || mem == null || grp == null ==>
      st == Error && (sig != null ==> unchanged(sig))
    ensures sig != null && msg.Some? && mem != null && grp != null ==>
      && (st == Ok <==> r.Some? && s.Some? && Ready(mem, grp))
      && (st == Ok ==>
            && fresh(sig.pi)
            && Holds(sig, SignOf(MemberOf(mem), grp.g.value, grp.h.value, grp.ZZ0.value, grp.ZZ1.value,
                                 r.value, s.value, msg.value, k1, k2)))
      && (st != Ok ==> sig.Fields() == Signatures.NoFields && sig.pi == null)
  {
    if sig == null || msg.None? || mem == null || grp == null {
      return Error;
    }
    st := SignSteps(sig, msg.value, mem, grp, r, s, k1, k2);
    if st == Error {
      sig.uu, sig.vv, sig.ww, sig.c0, sig.c1, sig.c2 := None, None, None, None, None, None;
      sig.pi := null;
    }
  }

  /** The body of ksap23_sign, up to its first failure. */
  method SignSteps(sig: Signatures.Signature, m: seq<byte>, mem: MemberKey.MemKey, grp: GroupKey.GrpKey,
                   r: Option<Elem>, s: Option<Elem>, k1: Elem, k2: Elem)
    returns (st: Status)
    modifies sig
    ensures st != Ok ==> st == Error
    ensures st == Ok <==> r.Some? && s.Some? && Ready(mem, grp)
    ensures st == Ok ==>
      && fresh(sig.pi)
      && Holds(sig, SignOf(MemberOf(mem), grp.g.value, grp.h.value, grp.ZZ0.value, grp.ZZ1.value,
                           r.value, s.value, m, k1, k2))
  {
    if r.None? || mem.u.None? {
      return Error;
    }
    sig.uu := Some(Mul(mem.u.value, r.value));
    if mem.v.None? {
      return Error;
    }
    sig.vv := Some(Mul(mem.v.value, r.value));
    if mem.w.None? {
      return Error;
    }
    sig.ww := Some(Mul(mem.w.value, r.value));
    if s.None? || grp.g.None? {
      return Error;
    }
    sig.c0 := Some(Mul(grp.g.value, s.value));
    if grp.ZZ0.None? || mem.f1.None? {
      return Error;
    }
    var d1s := Mul(grp.ZZ0.value, s.value);
    sig.c1 := Some(Add(mem.f1.value, d1s));
    if grp.ZZ1.None? || mem.f2.None? {
      return Error;
    }
    var d2s := Mul(grp.ZZ1.value, s.value);
    sig.c2 := Some(Add(mem.f2.value, d2s));
    var pi := new SpkRep(2);
    sig.pi := pi;
    st := Snizk2Sign(pi, sig.uu, grp.g, grp.h, grp.ZZ0, grp.ZZ1, sig.ww, sig.c0, sig.c1, sig.c2,
                     mem.alpha, s, m, k1, k2);
  }
}
