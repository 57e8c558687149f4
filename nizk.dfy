/**
 * The three Fiat-Shamir proofs of KSAP23 (src/groupsig/ksap23/nizk.c):
 *  - NIZK1, made by a joining member: f1 = g^alpha, f2 = h^alpha, w = u^alpha;
 *  - SNIZK2, part of every signature: knowledge of alpha and s behind
 *    tilde_w = tilde_u^alpha, c0 = g^s, c1 = g^alpha D1^s, c2 = h^alpha D2^s;
 *  - NIZK3, checked by judge: that c1/f1 and c2/f2 are the opening of a
 *    signature under D1 = g^d1 and D2 = g^d2.
 * The challenge is Blake2 over the G1 elements in array order (then the
 * message for SNIZK2 and NIZK3), mapped to Fr. Nonces are parameters.
 */
module Nizk {
  import opened Common
  import opened Field
  import opened Codec
  import opened Spk

  // ---------------------------------------------------------------------
  // NIZK1
  // ---------------------------------------------------------------------

  function Nizk1Challenge(g: Elem, h: Elem, u: Elem, f1: Elem, f2: Elem, w: Elem,
                          gr: Elem, hr: Elem, ur: Elem): Elem
  {
    FrFromHash(Hash(Blake2, ElemsBytes([g, h, u, f1, f2, w, gr, hr, ur])))
  }

  /** The verifier's test: commitments rebuilt as g^s f1^c, h^s f2^c, u^s w^c. */
  predicate Nizk1Holds(c: Elem, s: Elem, g: Elem, h: Elem, u: Elem, f1: Elem, f2: Elem, w: Elem)
  {
    Nizk1Challenge(g, h, u, f1, f2, w,
                   Add(Mul(g, s), Mul(f1, c)), Add(Mul(h, s), Mul(f2, c)), Add(Mul(u, s), Mul(w, c))) == c
  }

  /**
   * NIZK1 stores its single response where the representation proof keeps
   * its response array; the model reads it as the first response slot.
   */
  function Nizk1Response(s: seq<Option<Elem>>): (r: Option<Elem>)
    ensures r.Some? <==> |s| > 0 && s[0].Some?
  {
    if |s| == 0 then None else s[0]
  }

  /**
   * ksap23_nizk1_sign with nonce k: c over (g, h, u, f1, f2, w, g^k, h^k,
   * u^k) and s = k - c*alpha. Any NULL argument is IERROR and pi is left
   * as it was.
   */
  method Nizk1Sign(pi: SpkRep?, g: Option<Elem>, h: Option<Elem>, u: Option<Elem>,
                   f1: Option<Elem>, f2: Option<Elem>, w: Option<Elem>, alpha: Option<Elem>, k: Elem)
    returns (st: Status)
    modifies pi
    ensures st == Ok <==> pi != null && g.Some? && h.Some? && u.Some? && f1.Some? && f2.Some? && w.Some? && alpha.Some?
    ensures st != Ok ==> st == Error && (pi != null ==> unchanged(pi))
    ensures st == Ok ==>
      && pi.c == Some(Nizk1Challenge(g.value, h.value, u.value, f1.value, f2.value, w.value,
                                     Mul(g.value, k), Mul(h.value, k), Mul(u.value, k)))
      && pi.s == [Some(Sub(k, Mul(pi.c.value, alpha.value)))]
      && pi.s1 == old(pi.s1) && pi.s2 == old(pi.s2)
  {
    if pi == null || g.None? || h.None? || u.None? || f1.None? || f2.None? || w.None? || alpha.None? {
      return Error;
    }
    var gr, hr, ur := Mul(g.value, k), Mul(h.value, k), Mul(u.value, k);
    var c := HashToFr(Blake2, [g.value, h.value, u.value, f1.value, f2.value, w.value, gr, hr, ur], []);
    assert ElemsBytes([g.value, h.value, u.value, f1.value, f2.value, w.value, gr, hr, ur]) + []
        == ElemsBytes([g.value, h.value, u.value, f1.value, f2.value, w.value, gr, hr, ur]);
    pi.c := Some(c);
    pi.s := [Some(Sub(k, Mul(c, alpha.value)))];
    st := Ok;
  }

  /**
   * ksap23_nizk1_verify. A NULL argument, or a missing challenge or
   * response (the scalar multiplication then fails), is IERROR.
   */
  method Nizk1Verify(pi: SpkRep?, g: Option<Elem>, h: Option<Elem>, u: Option<Elem>,
                     f1: Option<Elem>, f2: Option<Elem>, w: Option<Elem>, prior: bool)
    returns (st: Status, ok: bool)
    ensures st == Ok <==> pi != null && g.Some? && h.Some? && u.Some? && f1.Some? && f2.Some? && w.Some?
                          && pi.c.Some? && Nizk1Response(pi.s).Some?
    ensures st != Ok ==> st == Error && ok == prior
    ensures st == Ok ==>
      ok == Nizk1Holds(pi.c.value, Nizk1Response(pi.s).value, g.value, h.value, u.value, f1.value, f2.value, w.value)
  {
    if pi == null || g.None? || h.None? || u.None? || f1.None? || f2.None? || w.None? {
      return Error, prior;
    }
    if pi.c.None? || Nizk1Response(pi.s).None? {
      return Error, prior;
    }
    var c, s := pi.c.value, Nizk1Response(pi.s).value;
    var gv := Add(Mul(g.value, s), Mul(f1.value, c));
    var hv := Add(Mul(h.value, s), Mul(f2.value, c));
    var uv := Add(Mul(u.value, s), Mul(w.value, c));
    var c' := HashToFr(Blake2, [g.value, h.value, u.value, f1.value, f2.value, w.value, gv, hv, uv], []);
    assert ElemsBytes([g.value, h.value, u.value, f1.value, f2.value, w.value, gv, hv, uv]) + []
        == ElemsBytes([g.value, h.value, u.value, f1.value, f2.value, w.value, gv, hv, uv]);
    st := Ok;
    ok := c' == c;
  }

  /** Completeness of NIZK1: an honest proof for alpha passes the verifier. */
  lemma Nizk1Complete(g: Elem, h: Elem, u: Elem, alpha: Elem, k: Elem)
    ensures var (f1, f2, w) := (Mul(g, alpha), Mul(h, alpha), Mul(u, alpha));
            var c := Nizk1Challenge(g, h, u, f1, f2, w, Mul(g, k), Mul(h, k), Mul(u, k));
            Nizk1Holds(c, Sub(k, Mul(c, alpha)), g, h, u, f1, f2, w)
  {
    var (f1, f2, w) := (Mul(g, alpha), Mul(h, alpha), Mul(u, alpha));
    var c := Nizk1Challenge(g, h, u, f1, f2, w, Mul(g, k), Mul(h, k), Mul(u, k));
    Schnorr(g, k, c, alpha);
    Schnorr(h, k, c, alpha);
    Schnorr(u, k, c, alpha);
  }

  // ---------------------------------------------------------------------
  // SNIZK2
  // ---------------------------------------------------------------------

  function Snizk2Challenge(tu: Elem, g: Elem, h: Elem, D1: Elem, D2: Elem, tw: Elem,
                           c0: Elem, c1: Elem, c2: Elem, com: seq<Elem>, m: seq<byte>): Elem
    requires |com| == 4
  {
    FrFromHash(Hash(Blake2, ElemsBytes([tu, g, h, D1, D2, tw, c0, c1, c2] + com) + m))
  }

  /** The commitments of the signer with nonces k1, k2. */
  function Snizk2Commitments(tu: Elem, g: Elem, h: Elem, D1: Elem, D2: Elem, k1: Elem, k2: Elem): (com: seq<Elem>)
    ensures |com| == 4
  {
    [Mul(tu, k1), Mul(g, k2), Add(Mul(g, k1), Mul(D1, k2)), Add(Mul(h, k1), Mul(D2, k2))]
  }

  /** The commitments the verifier rebuilds from (c, s1, s2). */
  function Snizk2Rebuilt(tu: Elem, g: Elem, h: Elem, D1: Elem, D2: Elem, tw: Elem,
                         c0: Elem, c1: Elem, c2: Elem, c: Elem, s1: Elem, s2: Elem): (com: seq<Elem>)
    ensures |com| == 4
  {
    [Add(Mul(tu, s1), Mul(tw, c)),
     Add(Mul(g, s2), Mul(c0, c)),
     Add(Add(Mul(g, s1), Mul(D1, s2)), Mul(c1, c)),
     Add(Add(Mul(h, s1), Mul(D2, s2)), Mul(c2, c))]
  }

  predicate Snizk2Holds(c: Elem, s1: Elem, s2: Elem, tu: Elem, g: Elem, h: Elem, D1: Elem, D2: Elem,
                        tw: Elem, c0: Elem, c1: Elem, c2: Elem, m: seq<byte>)
  {
    Snizk2Challenge(tu, g, h, D1, D2, tw, c0, c1, c2, Snizk2Rebuilt(tu, g, h, D1, D2, tw, c0, c1, c2, c, s1, s2), m) == c
  }

  /**
   * ksap23_snizk2_sign with nonces k1, k2: s1 = k1 - c*alpha and
   * s2 = k2 - c*s. Any NULL argument is IERROR and pi is left as it was.
   */
  method Snizk2Sign(pi: SpkRep?, tu: Option<Elem>, g: Option<Elem>, h: Option<Elem>, D1: Option<Elem>,
                    D2: Option<Elem>, tw: Option<Elem>, c0: Option<Elem>, c1: Option<Elem>, c2: Option<Elem>,
                    alpha: Option<Elem>, s: Option<Elem>, m: seq<byte>, k1: Elem, k2: Elem)
    returns (st: Status)
    modifies pi
    ensures st == Ok <==> pi != null && tu.Some? && g.Some? && h.Some? && D1.Some? && D2.Some? && tw.Some? && c0.Some? && c1.Some? && c2.Some? && alpha.Some? && s.Some?
    ensures st != Ok ==> st == Error && (pi != null ==> unchanged(pi))
    ensures st == Ok ==>
      && pi.c == Some(Snizk2Challenge(tu.value, g.value, h.value, D1.value, D2.value, tw.value,
                                      c0.value, c1.value, c2.value,
                                      Snizk2Commitments(tu.value, g.value, h.value, D1.value, D2.value, k1, k2), m))
      && pi.s1 == Some(Sub(k1, Mul(pi.c.value, alpha.value)))
      && pi.s2 == Some(Sub(k2, Mul(pi.c.value, s.value)))
      && pi.s == old(pi.s)
  {
    if pi == null || tu.None? || g.None? || h.None? || D1.None? || D2.None? || tw.None?
       || c0.None? || c1.None? || c2.None? || alpha.None? || s.None? {
      return Error;
    }
    var com := Snizk2Commitments(tu.value, g.value, h.value, D1.value, D2.value, k1, k2);
    var c := HashToFr(Blake2, [tu.value, g.value, h.value, D1.value, D2.value, tw.value,
                               c0.value, c1.value, c2.value] + com, m);
    pi.c := Some(c);
    pi.s1 := Some(Sub(k1, Mul(c, alpha.value)));
    pi.s2 := Some(Sub(k2, Mul(c, s.value)));
    st := Ok;
  }

  /**
   * ksap23_snizk2_verify. A NULL argument or a missing c, s1 or s2 is
   * IERROR; otherwise ok tells whether the rebuilt challenge equals c.
   */
  method Snizk2Verify(pi: SpkRep?, tu: Option<Elem>, g: Option<Elem>, h: Option<Elem>, D1: Option<Elem>,
                      D2: Option<Elem>, tw: Option<Elem>, c0: Option<Elem>, c1: Option<Elem>, c2: Option<Elem>,
                      m: seq<byte>, prior: bool)
    returns (st: Status, ok: bool)
    ensures st == Ok <==> pi != null && tu.Some? && g.Some? && h.Some? && D1.Some? && D2.Some? && tw.Some? && c0.Some? && c1.Some? && c2.Some?
                          && pi.c.Some? && pi.s1.Some? && pi.s2.Some?
    ensures st != Ok ==> st == Error && ok == prior
    ensures st == Ok ==>
      ok == Snizk2Holds(pi.c.value, pi.s1.value, pi.s2.value, tu.value, g.value, h.value, D1.value, D2.value,
                        tw.value, c0.value, c1.value, c2.value, m)
  {
    if pi == null || tu.None? || g.None? || h.None? || D1.None? || D2.None? || tw.None?
       || c0.None? || c1.None? || c2.None? {
      return Error, prior;
    }
    if pi.c.None? || pi.s1.None? || pi.s2.None? {
      return Error, prior;
    }
    var com := Snizk2Rebuilt(tu.value, g.value, h.value, D1.value, D2.value, tw.value,
                             c0.value, c1.value, c2.value, pi.c.value, pi.s1.value, pi.s2.value);
    var c' := HashToFr(Blake2, [tu.value, g.value, h.value, D1.value, D2.value, tw.value,
                                c0.value, c1.value, c2.value] + com, m);
    st := Ok;
    ok := c' == pi.c.value;
  }

  /**
   * Completeness of SNIZK2: for tilde_w = tilde_u^alpha, c0 = g^s,
   * c1 = g^alpha D1^s and c2 = h^alpha D2^s the signer's commitments are
   * exactly the ones the verifier rebuilds, so the proof passes.
   */
  lemma Snizk2Complete(tu: Elem, g: Elem, h: Elem, D1: Elem, D2: Elem, alpha: Elem, s: Elem,
                       m: seq<byte>, k1: Elem, k2: Elem)
    ensures var (tw, c0) := (Mul(tu, alpha), Mul(g, s));
            var (c1, c2) := (Add(Mul(g, alpha), Mul(D1, s)), Add(Mul(h, alpha), Mul(D2, s)));
            var c := Snizk2Challenge(tu, g, h, D1, D2, tw, c0, c1, c2, Snizk2Commitments(tu, g, h, D1, D2, k1, k2), m);
            Snizk2Holds(c, Sub(k1, Mul(c, alpha)), Sub(k2, Mul(c, s)), tu, g, h, D1, D2, tw, c0, c1, c2, m)
  {
    var (tw, c0) := (Mul(tu, alpha), Mul(g, s));
    var (c1, c2) := (Add(Mul(g, alpha), Mul(D1, s)), Add(Mul(h, alpha), Mul(D2, s)));
    var com := Snizk2Commitments(tu, g, h, D1, D2, k1, k2);
    var c := Snizk2Challenge(tu, g, h, D1, D2, tw, c0, c1, c2, com, m);
    var s1, s2 := Sub(k1, Mul(c, alpha)), Sub(k2, Mul(c, s));
    Schnorr(tu, k1, c, alpha);
    Schnorr(g, k2, c, s);
    Schnorr2(g, D1, k1, k2, c, alpha, s);
    Schnorr2(h, D2, k1, k2, c, alpha, s);
    assert Snizk2Rebuilt(tu, g, h, D1, D2, tw, c0, c1, c2, c, s1, s2) == com;
  }

  // ---------------------------------------------------------------------
  // NIZK3
  // ---------------------------------------------------------------------

  function Nizk3Challenge(g: Elem, c0: Elem, c1: Elem, c2: Elem, f1: Elem, f2: Elem, D1: Elem, D2: Elem,
                          t: seq<Elem>, m: seq<byte>): Elem
    requires |t| == 4
  {
    FrFromHash(Hash(Blake2, ElemsBytes([g, c0, c1, c2, f1, f2, D1, D2] + t) + m))
  }

  /** c1/f1 and c2/f2, written additively. */
  function Quotient(c: Elem, f: Elem): Elem
  {
    Add(c, Neg(f))
  }

  /** The signer's commitments as written: (c1/f1)^k1, g^k1, (c2/f2)^k2, g^k2. */
  function Nizk3Commitments(g: Elem, c1: Elem, c2: Elem, f1: Elem, f2: Elem, k1: Elem, k2: Elem): (t: seq<Elem>)
    ensures |t| == 4
  {
    [Mul(Quotient(c1, f1), k1), Mul(g, k1), Mul(Quotient(c2, f2), k2), Mul(g, k2)]
  }

  /**
   * The verifier's commitments as written: (c1/f1)^s1 c0^c, D1^s1 g^c,
   * (c2/f2)^s2 c0^c, D2^s2 g^c.
   */
  function Nizk3Rebuilt(g: Elem, c0: Elem, c1: Elem, c2: Elem, f1: Elem, f2: Elem, D1: Elem, D2: Elem,
                        c: Elem, s1: Elem, s2: Elem): (t: seq<Elem>)
    ensures |t| == 4
  {
    [Add(Mul(Quotient(c1, f1), s1), Mul(c0, c)),
     Add(Mul(D1, s1), Mul(g, c)),
     Add(Mul(Quotient(c2, f2), s2), Mul(c0, c)),
     Add(Mul(D2, s2), Mul(g, c))]
  }

  predicate Nizk3Holds(c: Elem, s1: Elem, s2: Elem, g: Elem, c0: Elem, c1: Elem, c2: Elem,
                       f1: Elem, f2: Elem, D1: Elem, D2: Elem, m: seq<byte>)
  {
    Nizk3Challenge(g, c0, c1, c2, f1, f2, D1, D2, Nizk3Rebuilt(g, c0, c1, c2, f1, f2, D1, D2, c, s1, s2), m) == c
  }

  /**
   * ksap23_nizk3_sign with nonces k1, k2: s1 = k1 - c*d1, s2 = k2 - c*d2.
   * Any NULL argument is IERROR and pi is left as it was.
   */
  method Nizk3Sign(pi: SpkRep?, d1: Option<Elem>, d2: Option<Elem>, g: Option<Elem>, c0: Option<Elem>,
                   c1: Option<Elem>, c2: Option<Elem>, f1: Option<Elem>, f2: Option<Elem>,
                   D1: Option<Elem>, D2: Option<Elem>, m: seq<byte>, k1: Elem, k2: Elem)
    returns (st: Status)
    modifies pi
    ensures st == Ok <==> pi != null && d1.Some? && d2.Some? && g.Some? && c0.Some? && c1.Some? && c2.Some? && f1.Some? && f2.Some? && D1.Some? && D2.Some?
    ensures st != Ok ==> st == Error && (pi != null ==> unchanged(pi))
    ensures st == Ok ==>
      && pi.c == Some(Nizk3Challenge(g.value, c0.value, c1.value, c2.value, f1.value, f2.value, D1.value, D2.value,
                                     Nizk3Commitments(g.value, c1.value, c2.value, f1.value, f2.value, k1, k2), m))
      && pi.s1 == Some(Sub(k1, Mul(pi.c.value, d1.value)))
      && pi.s2 == Some(Sub(k2, Mul(pi.c.value, d2.value)))
      && pi.s == old(pi.s)
  {
    if pi == null || d1.None? || d2.None? || g.None? || c0.None? || c1.None? || c2.None?
       || f1.None? || f2.None? || D1.None? || D2.None? {
      return Error;
    }
    var t := Nizk3Commitments(g.value, c1.value, c2.value, f1.value, f2.value, k1, k2);
    var c := HashToFr(Blake2, [g.value, c0.value, c1.value, c2.value, f1.value, f2.value, D1.value, D2.value] + t, m);
    pi.c := Some(c);
    pi.s1 := Some(Sub(k1, Mul(c, d1.value)));
    pi.s2 := Some(Sub(k2, Mul(c, d2.value)));
    st := Ok;
  }

  /** ksap23_nizk3_verify as written. */
  method Nizk3Verify(pi: SpkRep?, g: Option<Elem>, c0: Option<Elem>, c1: Option<Elem>, c2: Option<Elem>,
                     f1: Option<Elem>, f2: Option<Elem>, D1: Option<Elem>, D2: Option<Elem>, m: seq<byte>, prior: bool)
    returns (st: Status, ok: bool)
    ensures st == Ok <==> pi != null && g.Some? && c0.Some? && c1.Some? && c2.Some? && f1.Some? && f2.Some? && D1.Some? && D2.Some?
                          && pi.c.Some? && pi.s1.Some? && pi.s2.Some?
    ensures st != Ok ==> st == Error && ok == prior
    ensures st == Ok ==>
      ok == Nizk3Holds(pi.c.value, pi.s1.value, pi.s2.value, g.value, c0.value, c1.value, c2.value,
                       f1.value, f2.value, D1.value, D2.value, m)
  {
    if pi == null || g.None? || c0.None? || c1.None? || c2.None? || f1.None? || f2.None? || D1.None? || D2.None? {
      return Error, prior;
    }
    if pi.c.None? || pi.s1.None? || pi.s2.None? {
      return Error, prior;
    }
    var t := Nizk3Rebuilt(g.value, c0.value, c1.value, c2.value, f1.value, f2.value, D1.value, D2.value,
                          pi.c.value, pi.s1.value, pi.s2.value);
    var c' := HashToFr(Blake2, [g.value, c0.value, c1.value, c2.value, f1.value, f2.value, D1.value, D2.value] + t, m);
    st := Ok;
    ok := c' == pi.c.value;
  }

  /**
   * The as-written NIZK3 is not complete: for the honest statement
   * g = 1, d1 = 2, D1 = g^d1, nonce k1 = 0 and a challenge of 1, the
   * verifier's second commitment (D1^s1 g^c with the signer's s1 = k1 - c d1)
   * is R - 3, while the signer hashed g^k1 = 0, whatever the other inputs.
   * The challenges then agree only by a hash collision.
   */
  lemma Nizk3Incomplete(c0: Elem, c1: Elem, c2: Elem, f1: Elem, f2: Elem, D2: Elem, s2: Elem, k2: Elem)
    ensures var (g, d1, k1, c) := (1, 2, 0, 1);
            var s1 := Sub(k1, Mul(c, d1));
            var rebuilt := Nizk3Rebuilt(g, c0, c1, c2, f1, f2, Mul(g, d1), D2, c, s1, s2);
            var hashed := Nizk3Commitments(g, c1, c2, f1, f2, k1, k2);
            rebuilt[1] == R - 3 && hashed[1] == 0 && rebuilt[1] != hashed[1]
  {
    var s1 := Sub(0, Mul(1, 2));
    var rebuilt := Nizk3Rebuilt(1, c0, c1, c2, f1, f2, Mul(1, 2), D2, 1, s1, s2);
    var hashed := Nizk3Commitments(1, c1, c2, f1, f2, 0, k2);
    assert rebuilt[1] == Add(Mul(Mul(1, 2), s1), Mul(1, 1));
    assert hashed[1] == Mul(1, 0);
    SecondCommitments();
  }

  /** The arithmetic of the example: 2 (R - 2) + 1 = R - 3 and 1 * 0 = 0, mod R. */
  lemma SecondCommitments()
    ensures Add(Mul(Mul(1, 2), Sub(0, Mul(1, 2))), Mul(1, 1)) == R - 3 && Mul(1, 0) == 0
  {
    assert Mul(1, 2) == 2;
    ModShift(-2, 1);
    assert Sub(0, 2) == R - 2;
    ModShift(R - 4, 1);
    assert Mul(2, R - 2) == R - 4;
  }

  // --- corrected NIZK3 ---------------------------------------------------

  /** The signer's commitments of the equality-of-logarithms proof: c0^k1, g^k1, c0^k2, g^k2. */
  function Nizk3FixedCommitments(g: Elem, c0: Elem, k1: Elem, k2: Elem): (t: seq<Elem>)
    ensures |t| == 4
  {
    [Mul(c0, k1), Mul(g, k1), Mul(c0, k2), Mul(g, k2)]
  }

  /** Rebuilt commitments: c0^s1 (c1/f1)^c, g^s1 D1^c, c0^s2 (c2/f2)^c, g^s2 D2^c. */
  function Nizk3FixedRebuilt(g: Elem, c0: Elem, c1: Elem, c2: Elem, f1: Elem, f2: Elem, D1: Elem, D2: Elem,
                             c: Elem, s1: Elem, s2: Elem): (t: seq<Elem>)
    ensures |t| == 4
  {
    [Add(Mul(c0, s1), Mul(Quotient(c1, f1), c)),
     Add(Mul(g, s1), Mul(D1, c)),
     Add(Mul(c0, s2), Mul(Quotient(c2, f2), c)),
     Add(Mul(g, s2), Mul(D2, c))]
  }

  predicate Nizk3FixedHolds(c: Elem, s1: Elem, s2: Elem, g: Elem, c0: Elem, c1: Elem, c2: Elem,
                            f1: Elem, f2: Elem, D1: Elem, D2: Elem, m: seq<byte>)
  {
    Nizk3Challenge(g, c0, c1, c2, f1, f2, D1, D2, Nizk3FixedRebuilt(g, c0, c1, c2, f1, f2, D1, D2, c, s1, s2), m) == c
  }

  /** NIZK3 signing with the commitments of the corrected proof. */
  method Nizk3SignFixed(pi: SpkRep?, d1: Option<Elem>, d2: Option<Elem>, g: Option<Elem>, c0: Option<Elem>,
                        c1: Option<Elem>, c2: Option<Elem>, f1: Option<Elem>, f2: Option<Elem>,
                        D1: Option<Elem>, D2: Option<Elem>, m: seq<byte>, k1: Elem, k2: Elem)
    returns (st: Status)
    modifies pi
    ensures st == Ok <==> pi != null && d1.Some? && d2.Some? && g.Some? && c0.Some? && c1.Some? && c2.Some? && f1.Some? && f2.Some? && D1.Some? && D2.Some?
    ensures st != Ok ==> st == Error && (pi != null ==> unchanged(pi))
    ensures st == Ok ==>
      && pi.c == Some(Nizk3Challenge(g.value, c0.value, c1.value, c2.value, f1.value, f2.value, D1.value, D2.value,
                                     Nizk3FixedCommitments(g.value, c0.value, k1, k2), m))
      && pi.s1 == Some(Sub(k1, Mul(pi.c.value, d1.value)))
      && pi.s2 == Some(Sub(k2, Mul(pi.c.value, d2.value)))
      && pi.s == old(pi.s)
  {
    if pi == null || d1.None? || d2.None? || g.None? || c0.None? || c1.None? || c2.None?
       || f1.None? || f2.None? || D1.None? || D2.None? {
      return Error;
    }
    var t := Nizk3FixedCommitments(g.value, c0.value, k1, k2);
    var c := HashToFr(Blake2, [g.value, c0.value, c1.value, c2.value, f1.value, f2.value, D1.value, D2.value] + t, m);
    pi.c := Some(c);
    pi.s1 := Some(Sub(k1, Mul(c, d1.value)));
    pi.s2 := Some(Sub(k2, Mul(c, d2.value)));
    st := Ok;
  }

  /** NIZK3 verification with the commitments of the corrected proof. */
  method Nizk3VerifyFixed(pi: SpkRep?, g: Option<Elem>, c0: Option<Elem>, c1: Option<Elem>, c2: Option<Elem>,
                          f1: Option<Elem>, f2: Option<Elem>, D1: Option<Elem>, D2: Option<Elem>, m: seq<byte>, prior: bool)
    returns (st: Status, ok: bool)
    ensures st == Ok <==> pi != null && g.Some? && c0.Some? && c1.Some? && c2.Some? && f1.Some? && f2.Some? && D1.Some? && D2.Some?
                          && pi.c.Some? && pi.s1.Some? && pi.s2.Some?
    ensures st != Ok ==> st == Error && ok == prior
    ensures st == Ok ==>
      ok == Nizk3FixedHolds(pi.c.value, pi.s1.value, pi.s2.value, g.value, c0.value, c1.value, c2.value,
                            f1.value, f2.value, D1.value, D2.value, m)
  {
    if pi == null || g.None? || c0.None? || c1.None? || c2.None? || f1.None? || f2.None? || D1.None? || D2.None? {
      return Error, prior;
    }
    if pi.c.None? || pi.s1.None? || pi.s2.None? {
      return Error, prior;
    }
    var t := Nizk3FixedRebuilt(g.value, c0.value, c1.value, c2.value, f1.value, f2.value, D1.value, D2.value,
                               pi.c.value, pi.s1.value, pi.s2.value);
    var c' := HashToFr(Blake2, [g.value, c0.value, c1.value, c2.value, f1.value, f2.value, D1.value, D2.value] + t, m);
    st := Ok;
    ok := c' == pi.c.value;
  }

  /**
   * Completeness of the corrected NIZK3: when c1/f1 = c0^d1, D1 = g^d1,
   * c2/f2 = c0^d2 and D2 = g^d2, an honest proof passes.
   */
  lemma Nizk3FixedComplete(g: Elem, c0: Elem, c1: Elem, c2: Elem, f1: Elem, f2: Elem,
                           d1: Elem, d2: Elem, m: seq<byte>, k1: Elem, k2: Elem)
    requires Quotient(c1, f1) == Mul(c0, d1) && Quotient(c2, f2) == Mul(c0, d2)
    ensures var (D1, D2) := (Mul(g, d1), Mul(g, d2));
            var c := Nizk3Challenge(g, c0, c1, c2, f1, f2, D1, D2, Nizk3FixedCommitments(g, c0, k1, k2), m);
            Nizk3FixedHolds(c, Sub(k1, Mul(c, d1)), Sub(k2, Mul(c, d2)), g, c0, c1, c2, f1, f2, D1, D2, m)
  {
    var (D1, D2) := (Mul(g, d1), Mul(g, d2));
    var t := Nizk3FixedCommitments(g, c0, k1, k2);
    var c := Nizk3Challenge(g, c0, c1, c2, f1, f2, D1, D2, t, m);
    var s1, s2 := Sub(k1, Mul(c, d1)), Sub(k2, Mul(c, d2));
    Schnorr(c0, k1, c, d1);
    Schnorr(g, k1, c, d1);
    Schnorr(c0, k2, c, d2);
    Schnorr(g, k2, c, d2);
    assert Nizk3FixedRebuilt(g, c0, c1, c2, f1, f2, D1, D2, c, s1, s2) == t;
  }
}
