/**
 * Signatures of knowledge from src/crypto/spk.c: the Schnorr proof of a
 * discrete logarithm (spk_dlog_*) and the generic proof of knowledge of a
 * representation (spk_rep_*), whose relations are described by an index
 * table `i` and a grouping array `prods`. Nonces are parameters.
 */
module Spk {
  import opened Common
  import opened Field
  import opened Codec
  import opened Layout

  type U16 = x: int | 0 <= x <= 0xFFFF

  // ---------------------------------------------------------------------
  // Discrete-logarithm proof
  // ---------------------------------------------------------------------

  datatype DlogProof = DlogProof(s: Elem, c: Elem)

  /** c = Hash_SHA1(msg || G || g || commitment). */
  function DlogChallenge(msg: seq<byte>, G: Elem, g: Elem, com: Elem): Elem
  {
    FrFromHash(Hash(Sha1, msg + ToBytes(G1, G) + ToBytes(G1, g) + ToBytes(G1, com)))
  }

  /** spk_dlog_sign with nonce r: commitment g^r, response s = r - c*x. */
  function DlogSign(G: Option<Elem>, g: Option<Elem>, x: Option<Elem>, msg: seq<byte>, r: Elem): (res: Option<DlogProof>)
    ensures res.Some? <==> G.Some? && g.Some? && x.Some? && |msg| > 0
    ensures res.Some? ==> res.value.c == DlogChallenge(msg, G.value, g.value, Mul(g.value, r))
    ensures res.Some? ==> Eqv(res.value.s + res.value.c * x.value, r)
  {
    if G.None? || g.None? || x.None? || |msg| == 0 then None
    else
      var c := DlogChallenge(msg, G.value, g.value, Mul(g.value, r));
      ResponseEqv(r, c, x.value);
      Some(DlogProof(Sub(r, Mul(c, x.value)), c))
  }

  /** spk_dlog_verify: None is IERROR, otherwise the value of *ok. */
  function DlogVerify(G: Option<Elem>, g: Option<Elem>, pi: Option<DlogProof>, msg: seq<byte>): (ok: Option<bool>)
    ensures ok.Some? <==> G.Some? && g.Some? && pi.Some? && |msg| > 0
  {
    if G.None? || g.None? || pi.None? || |msg| == 0 then None
    else
      var com := Add(Mul(g.value, pi.value.s), Mul(G.value, pi.value.c));
      Some(DlogChallenge(msg, G.value, g.value, com) == pi.value.c)
  }

  /** Completeness: a proof made with x for G = g^x verifies. */
  lemma DlogComplete(g: Elem, x: Elem, msg: seq<byte>, r: Elem)
    requires |msg| > 0
    ensures DlogVerify(Some(Mul(g, x)), Some(g), DlogSign(Some(Mul(g, x)), Some(g), Some(x), msg, r), msg) == Some(true)
  {
    var G := Mul(g, x);
    var c := DlogChallenge(msg, G, g, Mul(g, r));
    // g^s * G^c = g^r
    Schnorr(g, r, c, x);
  }

  /** spk_dlog_export_bytearray_null: dump(s) || dump(c). */
  function DlogExport(pi: DlogProof): seq<byte>
  {
    FieldsBytes([Fr, Fr], [Some(pi.s), Some(pi.c)])
  }

  /**
   * spk_dlog_import_bytearray_null: reads s, then c right after it; the
   * consumed length is the sum of both. A zero length prefix leaves the
   * freshly initialised value in place.
   */
  function DlogImport(b: seq<byte>): Option<(DlogProof, nat)>
  {
    match ParseFields([Fr, Fr], b, 0, KeepFresh)
    case None => None
    case Some((vs, len)) =>
      Some((DlogProof(vs[0].value, vs[1].value), len))
  }

  lemma DlogSize(pi: DlogProof)
    ensures |DlogExport(pi)| == 2 * (IntSize + ByteSize(Fr))
    ensures PresentSize([Fr, Fr], [Some(pi.s), Some(pi.c)]) == 2 * ByteSize(Fr)
  {
    var ks, vs := [Fr, Fr], [Some(pi.s), Some(pi.c)];
    assert ks[1..] == [Fr] && vs[1..] == [Some(pi.c)];
    assert ks[1..][1..] == [] && vs[1..][1..] == [];
    FieldsBytesLength(ks, vs);
    assert |DlogExport(pi)| == IntSize * 2 + PresentSize(ks, vs);
    assert PresentSize(ks[1..], vs[1..]) == ByteSize(Fr) + PresentSize(ks[1..][1..], vs[1..][1..]);
  }

  /** Import inverts export, and the reported length is that of the export. */
  lemma DlogRoundTrip(pi: DlogProof, rest: seq<byte>)
    ensures |DlogExport(pi)| == 2 * (IntSize + ByteSize(Fr))
    ensures DlogImport(DlogExport(pi) + rest) == Some((pi, |DlogExport(pi)|))
  {
    DlogSize(pi);
    assert (DlogExport(pi) + rest)[0..] == DlogExport(pi) + rest;
    ParseFieldsOn([Fr, Fr], [Some(pi.s), Some(pi.c)], DlogExport(pi) + rest, 0, rest, KeepFresh);
  }

  // ---------------------------------------------------------------------
  // Representation proof
  // ---------------------------------------------------------------------

  /** spk_rep_t: challenge c, responses s[0..ns), and the two named responses
      that the KSAP23 proofs use. */
  class SpkRep {
    var c: Option<Elem>
    var s: seq<Option<Elem>>
    var s1: Option<Elem>
    var s2: Option<Elem>

    /** spk_rep_init(ns): ns empty response slots. */
    constructor (ns: U16)
      ensures c.None? && s1.None? && s2.None?
      ensures |s| == ns && forall j :: 0 <= j < ns ==> s[j].None?
    {
      c := None;
      s := seq(ns, _ => None);
      s1 := None;
      s2 := None;
    }
  }

  /**
   * spk_rep_copy. Copies c and the first src.ns responses; a NULL among them
   * makes pbcext_element_Fr_set fail, and then dst.c and dst.s[0..src.ns)
   * are reset to NULL.
   */
  method RepCopy(dst: SpkRep?, src: SpkRep?) returns (st: Status)
    requires dst != null && src != null ==> dst != src && |src.s| <= |dst.s|
    modifies dst
    ensures dst == null || src == null ==> st == Error
    ensures dst != null && src == null ==> unchanged(dst)
    ensures dst != null && src != null ==>
      && dst.s1 == old(dst.s1) && dst.s2 == old(dst.s2)
      && |dst.s| == old(|dst.s|)
      && dst.s[|src.s|..] == old(dst.s[|src.s|..])
      && (st == Ok <==> src.c.Some? && AllSome(src.s))
      && (st == Ok ==> dst.c == src.c && dst.s[..|src.s|] == src.s)
      && (st != Ok ==> st == Error && dst.c.None? && forall i :: 0 <= i < |src.s| ==> dst.s[i].None?)
  {
    if dst == null || src == null {
      return Error;
    }
    st := Ok;
    var n := |src.s|;
    if src.c.None? {
      st := Error;
    } else {
      dst.c := src.c;
      var i := 0;
      while i < n
        invariant 0 <= i <= n
        invariant |dst.s| == old(|dst.s|)
        invariant dst.s[..i] == src.s[..i]
        invariant dst.s[n..] == old(dst.s[n..])
        invariant AllSome(src.s[..i])
        invariant dst.c == src.c && dst.s1 == old(dst.s1) && dst.s2 == old(dst.s2)
      {
        if src.s[i].None? {
          st := Error;
          break;
        }
        dst.s := dst.s[i := src.s[i]];
        assert src.s[..i + 1] == src.s[..i] + [src.s[i]];
        i := i + 1;
      }
      if st == Ok {
        assert src.s[..n] == src.s;
      } else {
        assert !AllSome(src.s);
      }
    }
    if st == Error {
      dst.c := None;
      var i := 0;
      while i < n
        invariant 0 <= i <= n
        invariant |dst.s| == old(|dst.s|)
        invariant forall k :: 0 <= k < i ==> dst.s[k].None?
        invariant dst.s[n..] == old(dst.s[n..])
        invariant dst.c.None? && dst.s1 == old(dst.s1) && dst.s2 == old(dst.s2)
      {
        dst.s := dst.s[i := None];
        i := i + 1;
      }
    }
  }

  // --- the index table and the grouping of terms -----------------------

  /** The four bytes hashed for one index pair: low and high byte of each. */
  function IndexPairBytes(p: (U16, U16)): (r: seq<byte>)
    ensures |r| == 4
  {
    [(p.0 % 256) as byte, (p.0 / 256) as byte, (p.1 % 256) as byte, (p.1 / 256) as byte]
  }

  function IndexBytes(idx: seq<(U16, U16)>): (r: seq<byte>)
    ensures |r| == 4 * |idx|
  {
    if idx == [] then [] else IndexBytes(idx[..|idx| - 1]) + IndexPairBytes(idx[|idx| - 1])
  }

  /** Index tables of one length hash the same only if they are equal. */
  lemma {:induction false} IndexBytesInjective(a: seq<(U16, U16)>, b: seq<(U16, U16)>)
    requires |a| == |b|
    ensures IndexBytes(a) == IndexBytes(b) ==> a == b
  {
    if a != [] && IndexBytes(a) == IndexBytes(b) {
      var n := |a| - 1;
      var ea, eb := IndexBytes(a), IndexBytes(b);
      assert ea[..4 * n] == IndexBytes(a[..n]);
      assert eb[..4 * n] == IndexBytes(b[..n]);
      assert ea[4 * n..] == IndexPairBytes(a[n]);
      assert eb[4 * n..] == IndexPairBytes(b[n]);
      IndexBytesInjective(a[..n], b[..n]);
      var p, q := a[n], b[n];
      assert p.0 == (p.0 % 256) + 256 * (p.0 / 256);
      assert q.0 == (q.0 % 256) + 256 * (q.0 / 256);
      assert p.1 == (p.1 % 256) + 256 * (p.1 / 256);
      assert q.1 == (q.1 % 256) + 256 * (q.1 / 256);
      assert a == a[..n] + [p];
      assert b == b[..n] + [q];
    }
  }

  /** hash_update of every index pair, in table order. */
  method AppendIndices(t: seq<byte>, idx: seq<(U16, U16)>) returns (t': seq<byte>)
    ensures t' == t + IndexBytes(idx)
  {
    t' := t;
    var j := 0;
    while j < |idx|
      invariant 0 <= j <= |idx|
      invariant t' == t + IndexBytes(idx[..j])
    {
      assert idx[..j + 1][..j] == idx[..j];
      t' := t' + IndexPairBytes(idx[j]);
      j := j + 1;
    }
    assert idx[..|idx|] == idx;
  }

  function Total(ps: seq<U16>): nat
  {
    if ps == [] then 0 else Total(ps[..|ps| - 1]) + ps[|ps| - 1]
  }

  /** First term of group j: the running cursor `l` when group j starts. */
  function Off(ps: seq<U16>, j: nat): nat
    requires j <= |ps|
  {
    Total(ps[..j])
  }

  lemma OffStep(ps: seq<U16>, j: nat)
    requires j < |ps|
    ensures Off(ps, j + 1) == Off(ps, j) + ps[j]
  {
    assert ps[..j + 1][..j] == ps[..j];
  }

  lemma {:induction false} OffMono(ps: seq<U16>, j: nat, k: nat)
    requires j <= k <= |ps|
    ensures Off(ps, j) <= Off(ps, k)
  {
    if j < k {
      OffMono(ps, j, k - 1);
      OffStep(ps, k - 1);
    }
  }

  /** The slice [lo, hi) of the index table that group j covers. */
  function Group(ps: seq<U16>, j: nat): (r: (nat, nat))
    requires j < |ps|
    ensures r.0 == Off(ps, j) && r.1 == Off(ps, j + 1) && r.1 == r.0 + ps[j]
    ensures r.0 <= r.1 <= Total(ps)
  {
    OffStep(ps, j);
    OffMono(ps, j + 1, |ps|);
    assert ps[..|ps|] == ps;
    (Off(ps, j), Off(ps, j + 1))
  }

  /** a, then v[lo], ..., v[hi-1] added one by one in the group. */
  function Fold(a: Elem, v: seq<Elem>, lo: nat, hi: nat): Elem
    requires lo <= hi <= |v|
    decreases hi
  {
    if hi == lo then a else Add(Fold(a, v, lo, hi - 1), v[hi - 1])
  }

  function IntSum(v: seq<Elem>, lo: nat, hi: nat): int
    requires lo <= hi <= |v|
    decreases hi
  {
    if hi == lo then 0 else IntSum(v, lo, hi - 1) + v[hi - 1]
  }

  /** A fold is congruent to its start plus the integer sum of the terms. */
  lemma {:induction false} FoldEqv(a: Elem, v: seq<Elem>, lo: nat, hi: nat)
    requires lo <= hi <= |v|
    ensures Eqv(Fold(a, v, lo, hi), a + IntSum(v, lo, hi))
    decreases hi
  {
    if hi > lo {
      FoldEqv(a, v, lo, hi - 1);
      var f, t, x := Fold(a, v, lo, hi - 1), a + IntSum(v, lo, hi - 1), v[hi - 1];
      AddEqv(f, t, x, x);
      EqvSelf(f + x);
      assert Fold(a, v, lo, hi) == (f + x) % R;
      assert a + IntSum(v, lo, hi) == t + x;
    }
  }

  lemma {:induction false} IntSumFirst(v: seq<Elem>, lo: nat, hi: nat)
    requires lo < hi <= |v|
    ensures IntSum(v, lo, hi) == v[lo] + IntSum(v, lo + 1, hi)
    decreases hi
  {
    if hi > lo + 1 { IntSumFirst(v, lo, hi - 1); }
  }

  /** Termwise vt = gr - c*gx lifts to the sums. */
  lemma {:induction false} IntSumLinear(vt: seq<Elem>, gr: seq<Elem>, gx: seq<Elem>, c: Elem, lo: nat, hi: nat)
    requires lo <= hi <= |vt| && |vt| == |gr| == |gx|
    requires forall l :: lo <= l < hi ==> Eqv(vt[l], gr[l] - c * gx[l])
    ensures Eqv(IntSum(vt, lo, hi), IntSum(gr, lo, hi) - c * IntSum(gx, lo, hi))
    decreases hi
  {
    if hi > lo {
      var A, B, g, x := IntSum(gr, lo, hi - 1), IntSum(gx, lo, hi - 1), gr[hi - 1], gx[hi - 1];
      assert Eqv(IntSum(vt, lo, hi - 1) + vt[hi - 1], (A - c * B) + (g - c * x)) by {
        IntSumLinear(vt, gr, gx, c, lo, hi - 1);
        AddEqv(IntSum(vt, lo, hi - 1), A - c * B, vt[hi - 1], g - c * x);
      }
      PolyStep(A, B, g, x, c);
    }
  }

  // --- specification of spk_rep_sign and spk_rep_verify ------------------

  predicate IndexOk(idx: seq<(U16, U16)>, nx: nat, ng: nat)
  {
    forall l :: 0 <= l < |idx| ==> idx[l].0 < nx && idx[l].1 < ng
  }

  predicate GroupingOk(prods: seq<U16>, ni: nat)
  {
    (forall j :: 0 <= j < |prods| ==> prods[j] >= 1) && Total(prods) <= ni
  }

  /** gr[l] = g[i[l][1]]^r[i[l][0]]. */
  function RepTerms(g: seq<Elem>, r: seq<Elem>, idx: seq<(U16, U16)>): (v: seq<Elem>)
    requires IndexOk(idx, |r|, |g|)
    ensures |v| == |idx|
  {
    seq(|idx|, l requires 0 <= l < |idx| => Mul(g[idx[l].1], r[idx[l].0]))
  }

  /** Verifier's terms g[i[l][1]]^s[i[l][0]]. */
  function RepVerifyTerms(g: seq<Elem>, s: seq<Option<Elem>>, idx: seq<(U16, U16)>): (v: seq<Elem>)
    requires IndexOk(idx, |s|, |g|) && AllSome(s)
    ensures |v| == |idx|
  {
    seq(|idx|, l requires 0 <= l < |idx| => Mul(g[idx[l].1], s[idx[l].0].value))
  }

  /** Signer's product j: gr over group j's slice (the first term, then the rest added). */
  function SignProducts(gr: seq<Elem>, prods: seq<U16>): (p: seq<Elem>)
    requires GroupingOk(prods, |gr|)
    ensures |p| == |prods|
  {
    seq(|prods|, j requires 0 <= j < |prods| =>
      Fold(gr[Group(prods, j).0], gr, Group(prods, j).0 + 1, Group(prods, j).1))
  }

  /** Verifier's product j: y[j]^c, then the terms of group j's slice added. */
  function VerifyProducts(y: seq<Elem>, c: Elem, vt: seq<Elem>, prods: seq<U16>): (p: seq<Elem>)
    requires |y| == |prods| && GroupingOk(prods, |vt|)
    ensures |p| == |prods|
  {
    seq(|prods|, j requires 0 <= j < |prods| =>
      Fold(Mul(y[j], c), vt, Group(prods, j).0, Group(prods, j).1))
  }

  /** c = Hash_SHA1(msg, y[..], g[..], index pairs, products). */
  function RepChallenge(msg: seq<byte>, y: seq<Elem>, g: seq<Elem>, idx: seq<(U16, U16)>, prod: seq<Elem>): Elem
  {
    FrFromHash(Hash(Sha1, msg + ElemsBytes(y) + ElemsBytes(g) + IndexBytes(idx) + ElemsBytes(prod)))
  }

  predicate RepArgsOk(y: seq<Elem>, g: seq<Elem>, idx: seq<(U16, U16)>, msg: seq<byte>)
  {
    |y| > 0 && |g| > 0 && |idx| > 0 && |msg| > 0
  }

  /** The loop computing prod[] with the running cursor l (signer's side). */
  method SignProductsLoop(gr: seq<Elem>, prods: seq<U16>) returns (prod: seq<Elem>)
    requires GroupingOk(prods, |gr|)
    ensures prod == SignProducts(gr, prods)
  {
    prod := [];
    var l := 0;
    var j := 0;
    while j < |prods|
      invariant 0 <= j <= |prods| && |prod| == j
      invariant l == Off(prods, j)
      invariant forall k :: 0 <= k < j ==> prod[k] == SignProducts(gr, prods)[k]
    {
      var (lo, hi) := Group(prods, j);
      assert l == lo;
      var p := gr[l];
      l := l + 1;
      if prods[j] > 1 {
        var k := 0;
        while k < prods[j] - 1
          invariant 0 <= k <= prods[j] - 1
          invariant l == lo + 1 + k
          invariant p == Fold(gr[lo], gr, lo + 1, l)
        {
          p := Add(p, gr[l]);
          l := l + 1;
          k := k + 1;
        }
      }
      prod := prod + [p];
      j := j + 1;
    }
  }

  /** The loop computing prod[] with the running cursor l (verifier's side). */
  method VerifyProductsLoop(y: seq<Elem>, c: Elem, vt: seq<Elem>, prods: seq<U16>) returns (prod: seq<Elem>)
    requires |y| == |prods| && GroupingOk(prods, |vt|)
    ensures prod == VerifyProducts(y, c, vt, prods)
  {
    prod := [];
    var l := 0;
    var j := 0;
    while j < |prods|
      invariant 0 <= j <= |prods| && |prod| == j
      invariant l == Off(prods, j)
      invariant forall k :: 0 <= k < j ==> prod[k] == VerifyProducts(y, c, vt, prods)[k]
    {
      var (lo, hi) := Group(prods, j);
      assert l == lo;
      var p := Mul(y[j], c);
      if prods[j] >= 1 {
        var k := 0;
        while k < prods[j]
          invariant 0 <= k <= prods[j]
          invariant l == lo + k
          invariant p == Fold(Mul(y[j], c), vt, lo, l)
        {
          p := Add(p, vt[l]);
          l := l + 1;
          k := k + 1;
        }
      }
      prod := prod + [p];
      j := j + 1;
    }
  }

  /**
   * spk_rep_sign with nonces r[0..nx). Fails on a NULL pi or an empty y, g,
   * x, index table or message; otherwise pi.c is the challenge over the
   * signer's products and s[j] = r[j] - c*x[j] for every j < pi.ns.
   */
  method RepSign(pi: SpkRep?, y: seq<Elem>, g: seq<Elem>, x: seq<Elem>, idx: seq<(U16, U16)>,
                 prods: seq<U16>, msg: seq<byte>, r: seq<Elem>) returns (st: Status)
    requires |r| == |x| && IndexOk(idx, |x|, |g|) && |prods| == |y| && GroupingOk(prods, |idx|)
    requires pi != null ==> |pi.s| <= |x|
    modifies pi
    ensures st == Ok <==> pi != null && RepArgsOk(y, g, idx, msg) && |x| > 0
    ensures st != Ok ==> st == Error
    ensures pi != null && st == Error ==> unchanged(pi)
    ensures st == Ok ==>
      && pi.c == Some(RepChallenge(msg, y, g, idx, SignProducts(RepTerms(g, r, idx), prods)))
      && |pi.s| == old(|pi.s|)
      && (forall j :: 0 <= j < |pi.s| ==> pi.s[j] == Some(Sub(r[j], Mul(pi.c.value, x[j]))))
      && pi.s1 == old(pi.s1) && pi.s2 == old(pi.s2)
  {
    if pi == null || !RepArgsOk(y, g, idx, msg) || |x| == 0 {
      return Error;
    }
    // gr[j] = g[i[j][1]]^r[i[j][0]]
    var gr: seq<Elem> := [];
    var j := 0;
    while j < |idx|
      invariant 0 <= j <= |idx| && |gr| == j
      invariant forall l :: 0 <= l < j ==> gr[l] == Mul(g[idx[l].1], r[idx[l].0])
    {
      gr := gr + [Mul(g[idx[j].1], r[idx[j].0])];
      j := j + 1;
    }
    assert gr == RepTerms(g, r, idx);
    var prod := SignProductsLoop(gr, prods);
    var t := msg;
    t := AppendElems(t, y);
    t := AppendElems(t, g);
    t := AppendIndices(t, idx);
    t := AppendElems(t, prod);
    var c := FrFromHash(Hash(Sha1, t));
    pi.c := Some(c);
    Respond(pi, c, r, x);
    st := Ok;
  }

  /** The response loop of spk_rep_sign: s[j] = r[j] - c * x[j] for every slot. */
  method Respond(pi: SpkRep, c: Elem, r: seq<Elem>, x: seq<Elem>)
    requires |pi.s| <= |x| && |r| == |x|
    modifies pi
    ensures pi.c == old(pi.c) && pi.s1 == old(pi.s1) && pi.s2 == old(pi.s2) && |pi.s| == old(|pi.s|)
    ensures forall k :: 0 <= k < |pi.s| ==> pi.s[k] == Some(Sub(r[k], Mul(c, x[k])))
  {
    var n := |pi.s|;
    var j := 0;
    while j < n
      invariant 0 <= j <= n && |pi.s| == n
      invariant pi.c == old(pi.c) && pi.s1 == old(pi.s1) && pi.s2 == old(pi.s2)
      invariant forall k :: 0 <= k < j ==> pi.s[k] == Some(Sub(r[k], Mul(c, x[k])))
    {
      pi.s := pi.s[j := Some(Sub(r[j], Mul(c, x[j])))];
      j := j + 1;
    }
  }

  /**
   * spk_rep_verify. Fails on a NULL proof or an empty y, g, index table or
   * message; otherwise ok is whether the challenge recomputed over the
   * verifier's products equals pi.c.
   */
  method RepVerify(y: seq<Elem>, g: seq<Elem>, idx: seq<(U16, U16)>, prods: seq<U16>, pi: SpkRep?, msg: seq<byte>,
                   prior: bool)
    returns (st: Status, ok: bool)
    requires pi != null ==> pi.c.Some? && AllSome(pi.s) && IndexOk(idx, |pi.s|, |g|)
    requires |prods| == |y| && GroupingOk(prods, |idx|)
    ensures st == Ok <==> pi != null && RepArgsOk(y, g, idx, msg)
    ensures st != Ok ==> st == Error && ok == prior
    ensures st == Ok ==>
      (ok <==> RepChallenge(msg, y, g, idx, VerifyProducts(y, pi.c.value, RepVerifyTerms(g, pi.s, idx), prods)) == pi.c.value)
  {
    if pi == null || !RepArgsOk(y, g, idx, msg) {
      return Error, prior;
    }
    var vt := RepVerifyTerms(g, pi.s, idx);
    var prod := VerifyProductsLoop(y, pi.c.value, vt, prods);
    var t := msg;
    t := AppendElems(t, y);
    t := AppendElems(t, g);
    t := AppendIndices(t, idx);
    t := AppendElems(t, prod);
    var c := FrFromHash(Hash(Sha1, t));
    st, ok := Ok, c == pi.c.value;
  }

  /** y[j] is the product of g[i[l][1]]^x[i[l][0]] over group j's slice. */
  predicate RepStatement(y: seq<Elem>, g: seq<Elem>, x: seq<Elem>, idx: seq<(U16, U16)>, prods: seq<U16>)
    requires IndexOk(idx, |x|, |g|) && |prods| == |y| && GroupingOk(prods, |idx|)
  {
    forall j :: 0 <= j < |y| ==>
      y[j] == Fold(0, RepTerms(g, x, idx), Group(prods, j).0, Group(prods, j).1)
  }

  function Responses(r: seq<Elem>, x: seq<Elem>, c: Elem): (s: seq<Option<Elem>>)
    requires |r| == |x|
    ensures |s| == |x| && AllSome(s)
  {
    seq(|x|, j requires 0 <= j < |x| => Some(Sub(r[j], Mul(c, x[j]))))
  }

  /** One group: the verifier's product equals the signer's. */
  lemma RepGroupAgrees(y: Elem, g: seq<Elem>, x: seq<Elem>, r: seq<Elem>, idx: seq<(U16, U16)>, c: Elem, lo: nat, hi: nat)
    requires |r| == |x| && IndexOk(idx, |x|, |g|) && lo < hi <= |idx|
    requires y == Fold(0, RepTerms(g, x, idx), lo, hi)
    ensures Fold(Mul(y, c), RepVerifyTerms(g, Responses(r, x, c), idx), lo, hi)
         == Fold(RepTerms(g, r, idx)[lo], RepTerms(g, r, idx), lo + 1, hi)
  {
    var gr, gx := RepTerms(g, r, idx), RepTerms(g, x, idx);
    var vt := RepVerifyTerms(g, Responses(r, x, c), idx);
    RepTermsLinear(g, x, r, idx, c, lo, hi);
    FoldCancel(y, c, vt, gr, gx, lo, hi);
  }

  /** Each verifier term is the signer's r-term less c times its x-term. */
  lemma RepTermsLinear(g: seq<Elem>, x: seq<Elem>, r: seq<Elem>, idx: seq<(U16, U16)>, c: Elem, lo: nat, hi: nat)
    requires |r| == |x| && IndexOk(idx, |x|, |g|) && lo <= hi <= |idx|
    ensures Eqv(IntSum(RepVerifyTerms(g, Responses(r, x, c), idx), lo, hi),
                IntSum(RepTerms(g, r, idx), lo, hi) - c * IntSum(RepTerms(g, x, idx), lo, hi))
  {
    var gr, gx := RepTerms(g, r, idx), RepTerms(g, x, idx);
    var vt := RepVerifyTerms(g, Responses(r, x, c), idx);
    forall l | lo <= l < hi
      ensures Eqv(vt[l], gr[l] - c * gx[l])
    {
      TermEqv(g[idx[l].1], r[idx[l].0], x[idx[l].0], c);
    }
    IntSumLinear(vt, gr, gx, c, lo, hi);
  }

  /**
   * If the verifier terms sum to the r-terms less c times the x-terms, and
   * y is the sum of the x-terms, then y^c times the verifier terms is the
   * product of the r-terms.
   */
  lemma FoldCancel(y: Elem, c: Elem, vt: seq<Elem>, gr: seq<Elem>, gx: seq<Elem>, lo: nat, hi: nat)
    requires lo < hi <= |vt| && |vt| == |gr| == |gx|
    requires y == Fold(0, gx, lo, hi)
    requires Eqv(IntSum(vt, lo, hi), IntSum(gr, lo, hi) - c * IntSum(gx, lo, hi))
    ensures Fold(Mul(y, c), vt, lo, hi) == Fold(gr[lo], gr, lo + 1, hi)
  {
    var fv := Fold(Mul(y, c), vt, lo, hi);
    var fs := Fold(gr[lo], gr, lo + 1, hi);
    var V, G, X := IntSum(vt, lo, hi), IntSum(gr, lo, hi), IntSum(gx, lo, hi);
    assert Eqv(fv, y * c + V) by {
      FoldEqv(Mul(y, c), vt, lo, hi);
      EqvSelf(y * c);
      AddEqv(Mul(y, c), y * c, V, V);
    }
    assert Eqv(fv, G) by {
      FoldEqv(0, gx, lo, hi);
      CancelEqv(fv, y, c, V, G, X);
    }
    assert Eqv(fs, G) by {
      FoldEqv(gr[lo], gr, lo + 1, hi);
      IntSumFirst(gr, lo, hi);
    }
    ElemEqv(fv, fs);
  }

  /**
   * Completeness of the representation proof: when each y[j] is the product
   * of its group's terms, the verifier's products equal the signer's, so the
   * recomputed challenge is the signer's challenge.
   */
  lemma RepComplete(y: seq<Elem>, g: seq<Elem>, x: seq<Elem>, idx: seq<(U16, U16)>, prods: seq<U16>,
                    msg: seq<byte>, r: seq<Elem>)
    requires |r| == |x| && IndexOk(idx, |x|, |g|) && |prods| == |y| && GroupingOk(prods, |idx|)
    requires RepStatement(y, g, x, idx, prods)
    ensures var c := RepChallenge(msg, y, g, idx, SignProducts(RepTerms(g, r, idx), prods));
            RepChallenge(msg, y, g, idx, VerifyProducts(y, c, RepVerifyTerms(g, Responses(r, x, c), idx), prods)) == c
  {
    var gr := RepTerms(g, r, idx);
    var c := RepChallenge(msg, y, g, idx, SignProducts(gr, prods));
    var vt := RepVerifyTerms(g, Responses(r, x, c), idx);
    forall j | 0 <= j < |y|
      ensures VerifyProducts(y, c, vt, prods)[j] == SignProducts(gr, prods)[j]
    {
      RepGroupAgrees(y[j], g, x, r, idx, c, Group(prods, j).0, Group(prods, j).1);
    }
    assert VerifyProducts(y, c, vt, prods) == SignProducts(gr, prods);
  }
}
