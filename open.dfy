/**
 * ksap23_open: decrypt (f1, f2) from (c0, c1, c2) and look the pair up in
 * the ledger; exactly one matching entry names the signer.
 */
module Opening {
  import opened Common
  import opened Field
  import opened Codec
  import opened Ledger
  import opened Signing
  import GroupKey
  import ManagerKey
  import Signatures

  /** ElGamal decryption f = c (c0^z)^-1: the f with f c0^z = c. */
  function Recover(c: Elem, c0: Elem, z: Elem): (f: Elem)
    ensures Add(f, Mul(c0, z)) == c
  {
    AddNegCancel(c, Mul(c0, z));
    Add(c, Neg(Mul(c0, z)))
  }

  /**
   * Recovery inverts the signer's encryption: with c0 = g^s and
   * c = f (g^z)^s, the scalar z gives back f.
   */
  lemma {:induction false} RecoverDecrypts(f: Elem, g: Elem, z: Elem, s: Elem)
    ensures Recover(Add(f, Mul(Mul(g, z), s)), Mul(g, s), z) == f
  {
    var c := Add(f, Mul(Mul(g, z), s));
    var f' := Recover(c, Mul(g, s), z);
    MulSwap(g, s, z);
    AddCancelR(f', f, Mul(Mul(g, z), s));
  }

  /**
   * Recovery with any other scalar misses: when c0^zs differs from the
   * mask (g^z)^s, the recovered element is not f.
   */
  lemma {:induction false} RecoverWrongScalar(f: Elem, g: Elem, z: Elem, s: Elem, zs: Elem)
    requires Mul(Mul(g, s), zs) != Mul(Mul(g, z), s)
    ensures Recover(Add(f, Mul(Mul(g, z), s)), Mul(g, s), zs) != f
  {
    var c := Add(f, Mul(Mul(g, z), s));
    if Recover(c, Mul(g, s), zs) == f {
      assert Add(Mul(Mul(g, s), zs), f) == Add(Mul(Mul(g, z), s), f);
      AddCancelR(Mul(Mul(g, s), zs), Mul(Mul(g, z), s), f);
    }
  }

  /**
   * As written, the scalar is read from ZZ0 = g^z0 itself. With g = 2,
   * z0 = 1, s = 1 and f1 = 0, taking that scalar to be ZZ0's own value
   * recovers R - 2 instead of f1 = 0, while z0 recovers f1.
   */
  lemma OpenAsWrittenMisses()
    ensures var (g, z0, s, f1) := (2, 1, 1, 0);
            var (ZZ0, c0) := (Mul(g, z0), Mul(g, s));
            var c1 := Add(f1, Mul(ZZ0, s));
            && Recover(c1, c0, ZZ0) == R - 2 && Recover(c1, c0, ZZ0) != f1
            && Recover(c1, c0, z0) == f1
  {
    RecoverWrongScalar(0, 2, 1, 1, 2);
    RecoverDecrypts(0, 2, 1, 1);
  }

  // ---------------------------------------------------------------------
  // The ledger scan
  // ---------------------------------------------------------------------

  /** An entry matches when both its f1 and its f2 equal the recovered pair. */
  predicate Matches(e: Entry, ff1: Elem, ff2: Elem)
  {
    e.f1 == ff1 && e.f2 == ff2
  }

  /**
   * How the scan over the ledger ends, with the last id written to *index:
   * at a NULL slot, at a second match, or after the last slot with the
   * number of matches seen.
   */
  datatype ScanEnd = NullSlot(index: nat) | Second(index: nat) | Done(count: nat, index: nat)

  /** The scan of open.c over the slots from the front, having seen count matches. */
  function Scanned(slots: seq<Option<Entry>>, ff1: Elem, ff2: Elem, count: nat, index: nat): (end: ScanEnd)
    ensures count <= 1 && end.Done? ==> end.count <= 1
  {
    if slots == [] then Done(count, index)
    else if slots[0].None? then NullSlot(index)
    else if !Matches(slots[0].value, ff1, ff2) then Scanned(slots[1..], ff1, ff2, count, index)
    else if count + 1 > 1 then Second(slots[0].value.id)
    else Scanned(slots[1..], ff1, ff2, count + 1, slots[0].value.id)
  }

  /** Live slots that do not match are passed over. */
  lemma {:induction false} ScanSkip(slots: seq<Option<Entry>>, ff1: Elem, ff2: Elem, count: nat, index: nat, k: nat)
    requires k <= |slots|
    requires forall i :: 0 <= i < k ==> slots[i].Some? && !Matches(slots[i].value, ff1, ff2)
    ensures Scanned(slots, ff1, ff2, count, index) == Scanned(slots[k..], ff1, ff2, count, index)
  {
    if k > 0 {
      ScanSkip(slots[1..], ff1, ff2, count, index, k - 1);
      assert slots[1..][k - 1..] == slots[k..];
    }
  }

  /** A live ledger with no matching entry ends with no match and *index untouched. */
  lemma ScanNoMatch(slots: seq<Option<Entry>>, ff1: Elem, ff2: Elem, index: nat)
    requires AllLive(slots)
    requires forall i :: 0 <= i < |slots| ==> !Matches(slots[i].value, ff1, ff2)
    ensures Scanned(slots, ff1, ff2, 0, index) == Done(0, index)
  {
    ScanSkip(slots, ff1, ff2, 0, index, |slots|);
  }

  /** A live ledger with exactly one matching entry ends with that entry's id. */
  lemma ScanUnique(slots: seq<Option<Entry>>, ff1: Elem, ff2: Elem, index: nat, j: nat)
    requires AllLive(slots) && j < |slots|
    requires Matches(slots[j].value, ff1, ff2)
    requires forall i :: 0 <= i < |slots| && i != j ==> !Matches(slots[i].value, ff1, ff2)
    ensures Scanned(slots, ff1, ff2, 0, index) == Done(1, slots[j].value.id)
  {
    ScanSkip(slots, ff1, ff2, 0, index, j);
    var rest := slots[j + 1..];
    assert slots[j..][1..] == rest;
    ScanSkip(rest, ff1, ff2, 1, slots[j].value.id, |rest|);
  }

  /** Once a match has been seen, any further live match ends the scan. */
  lemma {:induction false} ScanSecond(slots: seq<Option<Entry>>, ff1: Elem, ff2: Elem, count: nat, index: nat, j: nat)
    requires count >= 1 && AllLive(slots) && j < |slots|
    requires Matches(slots[j].value, ff1, ff2)
    ensures Scanned(slots, ff1, ff2, count, index).Second?
  {
    if !Matches(slots[0].value, ff1, ff2) {
      ScanSecond(slots[1..], ff1, ff2, count, index, j - 1);
    }
  }

  /** A live ledger with two matching entries ends in IFAIL at the second. */
  lemma {:induction false} ScanTwo(slots: seq<Option<Entry>>, ff1: Elem, ff2: Elem, index: nat, j1: nat, j2: nat)
    requires AllLive(slots) && j1 < j2 < |slots|
    requires Matches(slots[j1].value, ff1, ff2) && Matches(slots[j2].value, ff1, ff2)
    ensures Scanned(slots, ff1, ff2, 0, index).Second?
  {
    if Matches(slots[0].value, ff1, ff2) {
      ScanSecond(slots[1..], ff1, ff2, 1, slots[0].value.id, j2 - 1);
    } else {
      ScanTwo(slots[1..], ff1, ff2, index, j1 - 1, j2 - 1);
    }
  }

  /** The loop of ksap23_open over slots 0 .. n-1, proved against Scanned. */
  method ScanLedger(gml: Gml, ff1: Elem, ff2: Elem, prior: nat) returns (end: ScanEnd)
    requires gml.Valid()
    ensures end == Scanned(gml.entries[..gml.n], ff1, ff2, 0, prior)
  {
    ghost var slots := gml.entries[..gml.n];
    var count: nat := 0;
    var index := prior;
    var i := 0;
    while i < gml.n
      invariant 0 <= i <= gml.n && count <= 1
      invariant Scanned(slots, ff1, ff2, 0, prior) == Scanned(slots[i..], ff1, ff2, count, index)
    {
      assert slots[i..][0] == Get(gml, i) && slots[i..][1..] == slots[i + 1..];
      var e := Get(gml, i);
      if e.None? {
        return NullSlot(index);
      }
      if Matches(e.value, ff1, ff2) {
        index := e.value.id;
        count := count + 1;
        if count > 1 {
          return Second(index);
        }
      }
      i := i + 1;
    }
    assert slots[i..] == [];
    end := Done(count, index);
  }

  // ---------------------------------------------------------------------
  // ksap23_open
  // ---------------------------------------------------------------------

  /** The elements open decrypts from, and the opener's public key. */
  predicate Decryptable(sig: Signatures.Signature, grp: GroupKey.GrpKey)
    reads sig, grp
  {
    sig.c0.Some? && sig.c1.Some? && sig.c2.Some? && grp.ZZ0.Some? && grp.ZZ1.Some?
  }

  /**
   * ksap23_open as written. The two scalars zs0, zs1 stand for what
   * pbcext_element_G1_mul reads when handed the group elements ZZ0 and ZZ1
   * as its Fr argument; z0 and z1 of the manager key are never read. After
   * a unique match the signature is exported, which always fails, so the
   * call never returns IOK.
   */
  method Open(sig: Signatures.Signature?, grp: GroupKey.GrpKey?, mgr: ManagerKey.MgrKey?, gml: Gml?,
              zs0: Elem, zs1: Elem, prior: nat)
    returns (st: Status, index: nat)
    requires gml != null ==> gml.Valid()
    ensures st != Ok
    ensures sig == null || grp == null || mgr == null || gml == null ==> st == Error && index == prior
    ensures sig != null && grp != null && mgr != null && gml != null ==>
      && (!Decryptable(sig, grp) ==> st == Error && index == prior)
      && (Decryptable(sig, grp) ==>
            var end := Scanned(gml.entries[..gml.n], Recover(sig.c1.value, sig.c0.value, zs0),
                               Recover(sig.c2.value, sig.c0.value, zs1), 0, prior);
            && index == end.index
            && (st == Fail <==> end.Second? || (end.Done? && end.count == 0))
            && (st != Fail ==> st == Error))
  {
    if sig == null || grp == null || mgr == null || gml == null {
      return Error, prior;
    }
    if !Decryptable(sig, grp) {
      return Error, prior;
    }
    var ff1 := Recover(sig.c1.value, sig.c0.value, zs0);
    var ff2 := Recover(sig.c2.value, sig.c0.value, zs1);
    var end := ScanLedger(gml, ff1, ff2, prior);
    index := end.index;
    if end.NullSlot? {
      return Error, index;
    }
    if end.Second? || end.count == 0 {
      return Fail, index;
    }
    var rc, bsig := Signatures.Export(sig);
    st := if rc == Error then Error else Ok;
  }

  /**
   * ksap23_open as intended: decrypt with the opener secrets z0, z1 of the
   * manager key and export with the corrected signature export. A unique
   * match of a complete signature is IOK with the signer's id.
   */
  method OpenFixed(sig: Signatures.Signature?, grp: GroupKey.GrpKey?, mgr: ManagerKey.MgrKey?, gml: Gml?,
                   prior: nat)
    returns (st: Status, index: nat)
    requires gml != null ==> gml.Valid()
    ensures sig == null || grp == null || mgr == null || gml == null ==> st == Error && index == prior
    ensures sig != null && grp != null && mgr != null && gml != null ==>
      && (!(Decryptable(sig, grp) && mgr.z0.Some? && mgr.z1.Some?) ==> st == Error && index == prior)
      && (Decryptable(sig, grp) && mgr.z0.Some? && mgr.z1.Some? ==>
            var end := Scanned(gml.entries[..gml.n], Recover(sig.c1.value, sig.c0.value, mgr.z0.value),
                               Recover(sig.c2.value, sig.c0.value, mgr.z1.value), 0, prior);
            && index == end.index
            && (st == Fail <==> end.Second? || (end.Done? && end.count == 0))
            && (st == Ok <==> end.Done? && end.count == 1 && sig.Complete())
            && (st != Ok && st != Fail ==> st == Error))
  {
    if sig == null || grp == null || mgr == null || gml == null {
      return Error, prior;
    }
    if !Decryptable(sig, grp) || mgr.z0.None? || mgr.z1.None? {
      return Error, prior;
    }
    var ff1 := Recover(sig.c1.value, sig.c0.value, mgr.z0.value);
    var ff2 := Recover(sig.c2.value, sig.c0.value, mgr.z1.value);
    var end := ScanLedger(gml, ff1, ff2, prior);
    index := end.index;
    if end.NullSlot? {
      return Error, index;
    }
    if end.Second? || end.count == 0 {
      return Fail, index;
    }
    Signatures.CompleteFields(sig);
    var rc, bsig := Signatures.ExportFixed(sig);
    st := if rc == Error then Error else Ok;
  }

  /**
   * Opening finds the signer: a signature made by an honest member under
   * opener keys ZZ0 = g^z0, ZZ1 = g^z1 decrypts, with z0 and z1, to the
   * member's (f1, f2); in a live ledger where exactly one entry holds that
   * pair the scan ends with that entry's id.
   */
  lemma {:induction false} OpenFindsSigner(mk: Member, g: Elem, h: Elem, z0: Elem, z1: Elem, r: Elem, s: Elem,
                                           m: seq<byte>, k1: Elem, k2: Elem,
                                           slots: seq<Option<Entry>>, j: nat, prior: nat)
    requires AllLive(slots) && j < |slots|
    requires slots[j].value.f1 == mk.f1 && slots[j].value.f2 == mk.f2
    requires forall i :: 0 <= i < |slots| && i != j ==> !Matches(slots[i].value, mk.f1, mk.f2)
    ensures var sg := SignOf(mk, g, h, Mul(g, z0), Mul(g, z1), r, s, m, k1, k2);
            Scanned(slots, Recover(sg.c1, sg.c0, z0), Recover(sg.c2, sg.c0, z1), 0, prior)
              == Done(1, slots[j].value.id)
  {
    RecoverDecrypts(mk.f1, g, z0, s);
    RecoverDecrypts(mk.f2, g, z1, s);
    ScanUnique(slots, mk.f1, mk.f2, prior, j);
  }
}
