/**
 * The KSAP23 join protocol (join_mgr.c and join_mem.c), four messages:
 *  - seq 0, manager: a random n;
 *  - seq 1, member: draws alpha, sets f1 = g^alpha, f2 = h^alpha,
 *    u = Hash(f1), w = u^alpha and answers n, f1, f2, u, w and a NIZK1 proof;
 *  - seq 2, manager: checks the proof against Hash(f1), records
 *    (f1, f2, u, w, pi) in the ledger under id n_entries and answers the
 *    credential v = u^x w^y;
 *  - seq 3, member: stores v when e(v, gg) = e(u, XX) e(w, YY).
 * A random draw is a parameter; None stands for pbcext_element_*_random
 * failing.
 */
module Join {
  import opened Common
  import opened Field
  import opened Codec
  import opened Layout
  import opened Spk
  import opened Nizk
  import opened Ledger
  import GroupKey
  import ManagerKey
  import MemberKey

  // ---------------------------------------------------------------------
  // The schedule
  // ---------------------------------------------------------------------

  /** ksap23_get_joinseq: the index of the last join message. */
  method GetJoinSeq() returns (st: Status, last: int)
    ensures st == Ok && last == JoinSeq
  {
    st, last := Ok, JoinSeq;
  }

  /** ksap23_get_joinstart: the manager sends the first message. */
  method GetJoinStart() returns (st: Status, start: int)
    ensures st == Ok && start == JoinStart
  {
    st, start := Ok, JoinStart;
  }

  /**
   * The steps ksap23_join_mem accepts: the member answers the manager's
   * opening message 0 with message 1 and closes the protocol on message 3.
   */
  predicate MemberStep(step: int)
  {
    step == 1 || step == 3
  }

  /**
   * The steps ksap23_join_mgr accepts: the opening message JoinStart = 0 and
   * message 2; together with MemberStep each message 0 .. JoinSeq has one sender.
   */
  predicate ManagerStep(step: int)
  {
    step == 0 || step == 2
  }

  // ---------------------------------------------------------------------
  // Messages
  // ---------------------------------------------------------------------

  /** pbcext_get_element_G1_bytes at the head of a message; a zero length keeps the fresh element. */
  function ReadG1(b: seq<byte>): Option<Elem>
  {
    match ReadSlot(G1, b, 0, KeepFresh)
    case None => None
    case Some((o, _)) => o
  }

  /** A dumped element reads back. */
  lemma ReadG1Dump(x: Elem, rest: seq<byte>)
    ensures ReadG1(Dump(G1, x) + rest) == Some(x)
  {
    var b := Dump(G1, x) + rest;
    assert b[0..] == b;
    GetDump(G1, x, rest);
  }

  /** The member's seq-1 message: n echoed back, f1, f2, u, w and the NIZK1 proof (c, s). */
  datatype Request = Request(n: Elem, f1: Elem, f2: Elem, u: Elem, w: Elem, c: Elem, s: Elem)

  const RequestKinds: seq<Kind> := [G1, G1, G1, G1, G1]

  function RequestFields(q: Request): (vs: seq<Option<Elem>>)
    ensures |vs| == |RequestKinds| && AllSome(vs)
  {
    [Some(q.n), Some(q.f1), Some(q.f2), Some(q.u), Some(q.w)]
  }

  /** The member's buffer: the dumps of n, f1, f2, u and w, then spk_rep_export of pi. */
  function RequestBytes(q: Request): seq<byte>
  {
    Dump(G1, q.n) + Dump(G1, q.f1) + Dump(G1, q.f2) + Dump(G1, q.u) + Dump(G1, q.w) + ProofBytes(q.c, q.s)
  }

  /**
   * The manager's seq-2 parse: five G1 reads at a running offset (a zero
   * length keeps the fresh element and does not advance), then the proof.
   */
  function ParseRequest(b: seq<byte>): Option<Request>
  {
    match ParseFields(RequestKinds, b, 0, KeepFresh)
    case None => None
    case Some((vs, off)) =>
      match ParseProof(b, off)
      case None => None
      case Some((c, s)) => Some(Request(vs[0].value, vs[1].value, vs[2].value, vs[3].value, vs[4].value, c, s))
  }

  /** The member's five dumps are the field table of the manager's parse. */
  lemma RequestLayout(q: Request)
    ensures RequestBytes(q) == FieldsBytes(RequestKinds, RequestFields(q)) + ProofBytes(q.c, q.s)
  {
    FieldsBytesFive(RequestKinds, RequestFields(q));
  }

  /** join_mgr's parse inverts join_mem's layout, whatever follows the message. */
  lemma RequestRoundTrip(q: Request, rest: seq<byte>)
    ensures ParseRequest(RequestBytes(q) + rest) == Some(q)
  {
    RequestFieldsRead(q, rest);
    RequestProofRead(q, rest);
  }

  /** The byte string of a request is its field table, then its proof. */
  lemma RequestSplit(q: Request, rest: seq<byte>)
    ensures RequestBytes(q) + rest == FieldsBytes(RequestKinds, RequestFields(q)) + (ProofBytes(q.c, q.s) + rest)
  {
    RequestLayout(q);
    Assoc(FieldsBytes(RequestKinds, RequestFields(q)), ProofBytes(q.c, q.s), rest);
  }

  /** The five fields read back from the head of a request. */
  lemma RequestFieldsRead(q: Request, rest: seq<byte>)
    ensures ParseFields(RequestKinds, RequestBytes(q) + rest, 0, KeepFresh)
            == Some((RequestFields(q), IntSize * |RequestKinds| + PresentSize(RequestKinds, RequestFields(q))))
  {
    var b := RequestBytes(q) + rest;
    RequestSplit(q, rest);
    assert b[0..] == b;
    ParseFieldsOn(RequestKinds, RequestFields(q), b, 0, ProofBytes(q.c, q.s) + rest, KeepFresh);
  }

  /** The proof reads back where the field table ends. */
  lemma RequestProofRead(q: Request, rest: seq<byte>)
    ensures ParseProof(RequestBytes(q) + rest, IntSize * |RequestKinds| + PresentSize(RequestKinds, RequestFields(q)))
            == Some((q.c, q.s))
  {
    RequestSplit(q, rest);
    RequestProofAt(q, RequestBytes(q) + rest, rest);
  }

  /** The proof follows the field table. */
  lemma RequestProofAt(q: Request, b: seq<byte>, rest: seq<byte>)
    requires b == FieldsBytes(RequestKinds, RequestFields(q)) + (ProofBytes(q.c, q.s) + rest)
    ensures ParseProof(b, IntSize * |RequestKinds| + PresentSize(RequestKinds, RequestFields(q))) == Some((q.c, q.s))
  {
    FieldsBytesLength(RequestKinds, RequestFields(q));
    ProofAfter(b, FieldsBytes(RequestKinds, RequestFields(q)), q.c, q.s, rest);
  }

  /** Whatever precedes it, a proof is read back at the offset where it starts. */
  lemma ProofAfter(b: seq<byte>, front: seq<byte>, c: Elem, s: Elem, rest: seq<byte>)
    requires b == front + (ProofBytes(c, s) + rest)
    ensures ParseProof(b, |front|) == Some((c, s))
  {
    assert b[0..] == b;
    Split(b, 0, front, ProofBytes(c, s) + rest);
    ParseProofOn(c, s, b, |front|, rest);
  }

  // ---------------------------------------------------------------------
  // The algebra of the join
  // ---------------------------------------------------------------------

  /**
   * What the member computes at seq 1 from n, the public g and h, its
   * draw alpha and the NIZK1 nonce k.
   */
  function RequestFor(n: Elem, g: Elem, h: Elem, alpha: Elem, k: Elem): (q: Request)
    ensures q.n == n && q.f1 == Mul(g, alpha) && q.f2 == Mul(h, alpha)
    ensures q.u == HashG1(q.f1) && q.w == Mul(q.u, alpha)
  {
    var f1 := Mul(g, alpha);
    var f2 := Mul(h, alpha);
    var u := HashG1(f1);
    var w := Mul(u, alpha);
    var c := Nizk1Challenge(g, h, u, f1, f2, w, Mul(g, k), Mul(h, k), Mul(u, k));
    Request(n, f1, f2, u, w, c, Sub(k, Mul(c, alpha)))
  }

  /** The seq-2 acceptance test: a parsed request whose NIZK1 holds for u' = Hash(f1), with x and y present. */
  predicate Admits(q: Option<Request>, g: Option<Elem>, h: Option<Elem>, x: Option<Elem>, y: Option<Elem>)
  {
    && q.Some? && g.Some? && h.Some?
    && Nizk1Holds(q.value.c, q.value.s, g.value, h.value, HashG1(q.value.f1), q.value.f1, q.value.f2, q.value.w)
    && x.Some? && y.Some?
  }

  /** An honest member's request is parsed back exactly and passes the manager's check. */
  lemma RequestAccepted(n: Elem, g: Elem, h: Elem, alpha: Elem, k: Elem, x: Elem, y: Elem)
    ensures var q := RequestFor(n, g, h, alpha, k);
            ParseRequest(RequestBytes(q)) == Some(q) && Admits(Some(q), Some(g), Some(h), Some(x), Some(y))
  {
    var q := RequestFor(n, g, h, alpha, k);
    RequestRoundTrip(q, []);
    assert RequestBytes(q) + [] == RequestBytes(q);
    Nizk1Complete(g, h, q.u, alpha, k);
  }

  /** The credential v = u^x w^y. */
  function Credential(u: Elem, w: Elem, x: Elem, y: Elem): Elem
  {
    Add(Mul(u, x), Mul(w, y))
  }

  /** e(v, gg) = e(u, XX) e(w, YY), written in the exponent. */
  predicate CredentialValid(v: Elem, u: Elem, w: Elem, gg: Elem, XX: Elem, YY: Elem)
  {
    Pair(v, gg) == Add(Pair(u, XX), Pair(w, YY))
  }

  /**
   * Join correctness: the manager's credential passes the member's seq-3
   * check when XX = gg^x and YY = gg^y, as setup makes them.
   */
  lemma JoinCorrect(u: Elem, w: Elem, x: Elem, y: Elem, gg: Elem)
    ensures CredentialValid(Credential(u, w, x, y), u, w, gg, Mul(gg, x), Mul(gg, y))
  {
    var v := Credential(u, w, x, y);
    EqvSelf(u * x);
    EqvSelf(w * y);
    SumEqv(Mul(u, x), u * x, Mul(w, y), w * y);
    MulEqv(v, u * x + w * y, gg, gg);
    EqvSelf(v * gg);
    EqvSelf(gg * x);
    EqvSelf(gg * y);
    MulEqv(u, u, Mul(gg, x), gg * x);
    MulEqv(w, w, Mul(gg, y), gg * y);
    EqvSelf(u * Mul(gg, x));
    EqvSelf(w * Mul(gg, y));
    SumEqv(Pair(u, Mul(gg, x)), u * (gg * x), Pair(w, Mul(gg, y)), w * (gg * y));
    assert (u * x + w * y) * gg == u * (gg * x) + w * (gg * y);
    ElemEqv(Pair(v, gg), Add(Pair(u, Mul(gg, x)), Pair(w, Mul(gg, y))));
  }

  /** The manager's seq-2 answer reads back at the member's seq 3 and passes its check. */
  lemma JoinCompletes(u: Elem, w: Elem, x: Elem, y: Elem, gg: Elem)
    ensures var v := Credential(u, w, x, y);
            ReadG1(Dump(G1, v)) == Some(v) && CredentialValid(v, u, w, gg, Mul(gg, x), Mul(gg, y))
  {
    var v := Credential(u, w, x, y);
    ReadG1Dump(v, []);
    assert Dump(G1, v) + [] == Dump(G1, v);
    JoinCorrect(u, w, x, y, gg);
  }

  /**
   * Randomising a credential keeps it valid: (u^r, v^r, w^r) passes the
   * pairing check whenever (u, v, w) does. Signing relies on this.
   */
  lemma {:induction false} CredentialScaled(v: Elem, u: Elem, w: Elem, gg: Elem, XX: Elem, YY: Elem, r: Elem)
    requires CredentialValid(v, u, w, gg, XX, YY)
    ensures CredentialValid(Mul(v, r), Mul(u, r), Mul(w, r), gg, XX, YY)
  {
    MulSwap(v, gg, r);
    MulSwap(u, XX, r);
    MulSwap(w, YY, r);
    MulAddDist(Pair(u, XX), Pair(w, YY), r);
  }

  // ---------------------------------------------------------------------
  // The member: ksap23_join_mem
  // ---------------------------------------------------------------------

  /**
   * ksap23_join_mem. Anything but seq 1 or 3, a NULL key or a NULL message
   * is IERROR. On a failure at seq 1, alpha, f1, f2, u and w are reset to
   * NULL; on a failure at seq 3, v is.
   */
  method JoinMem(mem: MemberKey.MemKey?, step: int, min: Option<seq<byte>>, grp: GroupKey.GrpKey,
                 alpha: Option<Elem>, k: Elem)
    returns (st: Status, mout: seq<byte>)
    modifies mem
    ensures mem == null || min.None? || !MemberStep(step) ==>
      st == Error && mout == [] && (mem != null ==> unchanged(mem))
    ensures st != Ok ==> st == Error && mout == []
    ensures mem != null && min.Some? && step == 1 ==>
      (st == Ok <==> ReadG1(min.value).Some? && alpha.Some? && grp.g.Some? && grp.h.Some?)
    ensures mem != null && min.Some? && step == 1 && st == Ok ==>
      var q := RequestFor(ReadG1(min.value).value, grp.g.value, grp.h.value, alpha.value, k);
      && mout == RequestBytes(q)
      && mem.alpha == alpha && mem.f1 == Some(q.f1) && mem.f2 == Some(q.f2)
      && mem.u == Some(q.u) && mem.w == Some(q.w) && mem.v == old(mem.v)
    ensures mem != null && min.Some? && step == 1 && st != Ok ==>
      && mem.alpha.None? && mem.f1.None? && mem.f2.None? && mem.u.None? && mem.w.None?
      && mem.v == old(mem.v)
    ensures mem != null && min.Some? && step == 3 ==>
      && mem.alpha == old(mem.alpha) && mem.f1 == old(mem.f1) && mem.f2 == old(mem.f2)
      && mem.u == old(mem.u) && mem.w == old(mem.w)
      && (st == Ok <==> && ReadG1(min.value).Some? && mem.u.Some? && mem.w.Some?
                        && grp.gg.Some? && grp.XX.Some? && grp.YY.Some?
                        && CredentialValid(ReadG1(min.value).value, mem.u.value, mem.w.value,
                                           grp.gg.value, grp.XX.value, grp.YY.value))
      && mem.v == (if st == Ok then ReadG1(min.value) else None)
  {
    if mem == null || min.None? || !MemberStep(step) {
      return Error, [];
    }
    if step == 1 {
      st, mout := RequestStep(mem, min.value, grp, alpha, k);
      if st == Error {
        mem.alpha, mem.f1, mem.f2, mem.u, mem.w := None, None, None, None, None;
      }
    } else {
      st := CredentialStep(mem, min.value, grp);
      mout := [];
      if st == Error {
        mem.v := None;
      }
    }
  }

  /** The seq-1 body of ksap23_join_mem, up to its first failure. */
  method RequestStep(mem: MemberKey.MemKey, b: seq<byte>, grp: GroupKey.GrpKey, alpha: Option<Elem>, k: Elem)
    returns (st: Status, mout: seq<byte>)
    modifies mem
    ensures st == Ok <==> ReadG1(b).Some? && alpha.Some? && grp.g.Some? && grp.h.Some?
    ensures st != Ok ==> st == Error && mout == []
    ensures mem.v == old(mem.v)
    ensures st == Ok ==>
      var q := RequestFor(ReadG1(b).value, grp.g.value, grp.h.value, alpha.value, k);
      && mout == RequestBytes(q)
      && mem.alpha == alpha && mem.f1 == Some(q.f1) && mem.f2 == Some(q.f2)
      && mem.u == Some(q.u) && mem.w == Some(q.w)
  {
    var n := ReadG1(b);
    if n.None? || alpha.None? {
      return Error, [];
    }
    mem.alpha := alpha;
    if grp.g.None? {
      return Error, [];
    }
    mem.f1 := Some(Mul(grp.g.value, alpha.value));
    if grp.h.None? {
      return Error, [];
    }
    mem.f2 := Some(Mul(grp.h.value, alpha.value));
    mem.u := Some(HashG1(mem.f1.value));
    mem.w := Some(Mul(mem.u.value, alpha.value));
    var pi := new SpkRep(1);
    var rc := Nizk1Sign(pi, grp.g, grp.h, mem.u, mem.f1, mem.f2, mem.w, mem.alpha, k);
    var bpi := ProofBytes(pi.c.value, Nizk1Response(pi.s).value);
    mout := Dump(G1, n.value);
    mout := mout + Dump(G1, mem.f1.value);
    mout := mout + Dump(G1, mem.f2.value);
    mout := mout + Dump(G1, mem.u.value);
    mout := mout + Dump(G1, mem.w.value);
    mout := mout + bpi;
    st := Ok;
  }

  /** The seq-3 body of ksap23_join_mem: store v, then compare the pairings. */
  method CredentialStep(mem: MemberKey.MemKey, b: seq<byte>, grp: GroupKey.GrpKey) returns (st: Status)
    modifies mem
    ensures mem.alpha == old(mem.alpha) && mem.f1 == old(mem.f1) && mem.f2 == old(mem.f2)
    ensures mem.u == old(mem.u) && mem.w == old(mem.w)
    ensures st == Ok <==> && ReadG1(b).Some? && mem.u.Some? && mem.w.Some?
                          && grp.gg.Some? && grp.XX.Some? && grp.YY.Some?
                          && CredentialValid(ReadG1(b).value, mem.u.value, mem.w.value,
                                             grp.gg.value, grp.XX.value, grp.YY.value)
    ensures st != Ok ==> st == Error
    ensures st == Ok ==> mem.v == ReadG1(b)
  {
    var v := ReadG1(b);
    if v.None? {
      return Error;
    }
    mem.v := v;
    if mem.v.None? || grp.gg.None? || mem.u.None? || grp.XX.None? || mem.w.None? || grp.YY.None? {
      return Error;
    }
    var e1 := Pair(mem.v.value, grp.gg.value);
    var e2 := Pair(mem.u.value, grp.XX.value);
    var e3 := Pair(mem.w.value, grp.YY.value);
    e2 := Add(e2, e3);
    st := if e1 != e2 then Error else Ok;
  }

  // ---------------------------------------------------------------------
  // The manager: ksap23_join_mgr
  // ---------------------------------------------------------------------

  /**
   * ksap23_join_mgr. Anything but seq 0 or 2, or a NULL ledger or key, is
   * IERROR. Seq 0 answers a fresh n and leaves the ledger alone; seq 2
   * parses the member's request, checks NIZK1 against Hash(f1), appends
   * (id = n_entries, f1, f2, u, w, pi) to the ledger and answers
   * v = u^x w^y. Every failure of seq 2 leaves the ledger as it was.
   */
  method JoinMgr(gml: Gml?, mgr: ManagerKey.MgrKey?, step: int, min: seq<byte>, grp: GroupKey.GrpKey?,
                 n: Option<Elem>)
    returns (st: Status, mout: seq<byte>)
    requires gml != null ==> gml.Valid()
    modifies gml
    ensures st != Ok ==> st == Error && mout == [] && (gml != null ==> unchanged(gml))
    ensures gml == null || mgr == null || grp == null || !ManagerStep(step) ==> st == Error
    ensures gml != null && mgr != null && grp != null && step == 0 ==>
      unchanged(gml) && (st == Ok <==> n.Some?) && (st == Ok ==> mout == Dump(G1, n.value))
    ensures gml != null && mgr != null && grp != null && step == 2 ==>
      (st == Ok <==> Admits(ParseRequest(min), grp.g, grp.h, mgr.x, mgr.y))
    ensures gml != null && mgr != null && grp != null && step == 2 && st == Ok ==>
      var q := ParseRequest(min).value;
      && gml.Valid() && gml.n == old(gml.n) + 1
      && gml.entries == old(gml.entries[..gml.n]) + [Some(Entry(old(gml.n), q.f1, q.f2, q.u, q.w, q.c, q.s))]
      && mout == Dump(G1, Credential(q.u, q.w, mgr.x.value, mgr.y.value))
  {
    if !ManagerStep(step) || gml == null || mgr == null || grp == null {
      return Error, [];
    }
    if step == 0 {
      if n.None? {
        return Error, [];
      }
      return Ok, Dump(G1, n.value);
    }
    var q := ParseRequest(min);
    if q.None? {
      return Error, [];
    }
    var req := q.value;
    var pi := new SpkRep(1);
    pi.c := Some(req.c);
    pi.s := [Some(req.s)];
    var uComp := HashG1(req.f1);
    var rc, ok := Nizk1Verify(pi, grp.g, grp.h, Some(uComp), Some(req.f1), Some(req.f2), Some(req.w), false);
    if rc == Error || !ok {
      return Error, [];
    }
    if mgr.y.None? || mgr.x.None? {
      return Error, [];
    }
    var wTmp := Mul(req.w, mgr.y.value);
    var uTmp := Mul(req.u, mgr.x.value);
    var v := Add(uTmp, wTmp);
    var entry := Entry(gml.n, req.f1, req.f2, req.u, req.w, req.c, req.s);
    rc := Insert(gml, entry);
    st, mout := Ok, Dump(G1, v);
  }
}
