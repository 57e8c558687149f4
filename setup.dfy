/**
 * ksap23_setup: a two-call key generation. The first call (group key with
 * no g yet) draws the issuer secrets x, y and the generators g, gg, and
 * fills XX = gg^x, YY = gg^y and h = Hash(g). The second call draws the
 * opener secrets z0, z1 and fills ZZ0 = g^z0, ZZ1 = g^z1.
 *
 * Each random draw is a parameter: None stands for a failed draw.
 */
module Setup {
  import opened Common
  import opened Field
  import opened Codec
  import opened Ledger
  import GroupKey
  import ManagerKey

  /**
   * The keys a completed setup leaves behind: every field present, and the
   * public half derived from the secret half.
   */
  predicate KeysAgree(grp: GroupKey.GrpKey, mgr: ManagerKey.MgrKey)
    reads grp, mgr
  {
    && grp.Complete() && mgr.x.Some? && mgr.y.Some? && mgr.z0.Some? && mgr.z1.Some?
    && grp.XX == Some(Mul(grp.gg.value, mgr.x.value))
    && grp.YY == Some(Mul(grp.gg.value, mgr.y.value))
    && grp.h == Some(HashG1(grp.g.value))
    && grp.ZZ0 == Some(Mul(grp.g.value, mgr.z0.value))
    && grp.ZZ1 == Some(Mul(grp.g.value, mgr.z1.value))
  }

  /**
   * ksap23_setup. A NULL key or ledger is IERROR and touches nothing. On a
   * failed first call every issuer field is reset, and on any failure the
   * opener fields are reset too.
   */
  method Setup(grp: GroupKey.GrpKey?, mgr: ManagerKey.MgrKey?, gml: Gml?,
               x: Option<Elem>, y: Option<Elem>, g: Option<Elem>, gg: Option<Elem>,
               z0: Option<Elem>, z1: Option<Elem>)
    returns (st: Status)
    modifies grp, mgr
    ensures st != Ok ==> st == Error
    ensures grp == null || mgr == null || gml == null ==>
      st == Error && (grp != null ==> unchanged(grp)) && (mgr != null ==> unchanged(mgr))
    ensures grp != null && mgr != null && gml != null && old(grp.g).None? ==>
      && (st == Ok <==> x.Some? && y.Some? && g.Some? && gg.Some?)
      && (st == Ok ==>
            && mgr.x == x && mgr.y == y && grp.g == g && grp.gg == gg
            && grp.XX == Some(Mul(gg.value, x.value)) && grp.YY == Some(Mul(gg.value, y.value))
            && grp.h == Some(HashG1(g.value))
            && mgr.z0 == old(mgr.z0) && mgr.z1 == old(mgr.z1)
            && grp.ZZ0 == old(grp.ZZ0) && grp.ZZ1 == old(grp.ZZ1))
      && (st != Ok ==> grp.Fields() == GroupKey.NoFields && mgr.Fields() == ManagerKey.NoFields)
    ensures grp != null && mgr != null && gml != null && old(grp.g).Some? ==>
      && (st == Ok <==> z0.Some? && z1.Some?)
      && mgr.x == old(mgr.x) && mgr.y == old(mgr.y)
      && grp.g == old(grp.g) && grp.gg == old(grp.gg) && grp.XX == old(grp.XX)
      && grp.YY == old(grp.YY) && grp.h == old(grp.h)
      && (st == Ok ==>
            && mgr.z0 == z0 && mgr.z1 == z1
            && grp.ZZ0 == Some(Mul(grp.g.value, z0.value)) && grp.ZZ1 == Some(Mul(grp.g.value, z1.value)))
      && (st != Ok ==> mgr.z0.None? && mgr.z1.None? && grp.ZZ0.None? && grp.ZZ1.None?)
  {
    if grp == null || mgr == null || gml == null {
      return Error;
    }
    var call := 0;
    if grp.g.None? {
      call := 1;
      st := IssuerKeys(grp, mgr, x, y, g, gg);
    } else {
      call := 2;
      st := OpenerKeys(grp, mgr, z0, z1);
    }
    if st == Error {
      if call == 1 {
        mgr.x, mgr.y := None, None;
        grp.g, grp.gg, grp.XX, grp.YY, grp.h := None, None, None, None, None;
      }
      mgr.z0, mgr.z1 := None, None;
      grp.ZZ0, grp.ZZ1 := None, None;
    }
  }

  /** The first call of ksap23_setup, up to its first failure. */
  method IssuerKeys(grp: GroupKey.GrpKey, mgr: ManagerKey.MgrKey,
                    x: Option<Elem>, y: Option<Elem>, g: Option<Elem>, gg: Option<Elem>)
    returns (st: Status)
    modifies grp, mgr
    ensures st == Ok <==> x.Some? && y.Some? && g.Some? && gg.Some?
    ensures st != Ok ==> st == Error
    ensures mgr.z0 == old(mgr.z0) && mgr.z1 == old(mgr.z1)
    ensures grp.ZZ0 == old(grp.ZZ0) && grp.ZZ1 == old(grp.ZZ1)
    ensures st == Ok ==>
      && mgr.x == x && mgr.y == y && grp.g == g && grp.gg == gg
      && grp.XX == Some(Mul(gg.value, x.value)) && grp.YY == Some(Mul(gg.value, y.value))
      && grp.h == Some(HashG1(g.value))
  {
    if x.None? {
      return Error;
    }
    mgr.x := x;
    if y.None? {
      return Error;
    }
    mgr.y := y;
    if g.None? {
      return Error;
    }
    grp.g := g;
    if gg.None? {
      return Error;
    }
    grp.gg := gg;
    grp.XX := Some(Mul(grp.gg.value, mgr.x.value));
    grp.YY := Some(Mul(grp.gg.value, mgr.y.value));
    grp.h := Some(HashG1(grp.g.value));
    st := Ok;
  }

  /** The second call of ksap23_setup, up to its first failure. */
  method OpenerKeys(grp: GroupKey.GrpKey, mgr: ManagerKey.MgrKey, z0: Option<Elem>, z1: Option<Elem>)
    returns (st: Status)
    requires grp.g.Some?
    modifies grp, mgr
    ensures st == Ok <==> z0.Some? && z1.Some?
    ensures st != Ok ==> st == Error
    ensures mgr.x == old(mgr.x) && mgr.y == old(mgr.y)
    ensures grp.g == old(grp.g) && grp.gg == old(grp.gg) && grp.XX == old(grp.XX)
    ensures grp.YY == old(grp.YY) && grp.h == old(grp.h)
    ensures st == Ok ==>
      && mgr.z0 == z0 && mgr.z1 == z1
      && grp.ZZ0 == Some(Mul(grp.g.value, z0.value)) && grp.ZZ1 == Some(Mul(grp.g.value, z1.value))
  {
    if z0.None? {
      return Error;
    }
    mgr.z0 := z0;
    if z1.None? {
      return Error;
    }
    mgr.z1 := z1;
    grp.ZZ0 := Some(Mul(grp.g.value, mgr.z0.value));
    grp.ZZ1 := Some(Mul(grp.g.value, mgr.z1.value));
    st := Ok;
  }

  /**
   * The intended use: both calls on freshly initialised keys. They succeed
   * exactly when every draw does, and then the keys agree.
   */
  method SetupBoth(x: Option<Elem>, y: Option<Elem>, g: Option<Elem>, gg: Option<Elem>,
                   z0: Option<Elem>, z1: Option<Elem>)
    returns (grp: GroupKey.GrpKey, mgr: ManagerKey.MgrKey, st1: Status, st2: Status)
    ensures st1 == Ok <==> x.Some? && y.Some? && g.Some? && gg.Some?
    ensures st1 == Ok ==> (st2 == Ok <==> z0.Some? && z1.Some?)
    ensures st1 == Ok && st2 == Ok ==>
      && KeysAgree(grp, mgr)
      && mgr.Fields() == [x, y, z0, z1] && grp.g == g && grp.gg == gg
  {
    grp := new GroupKey.GrpKey();
    mgr := new ManagerKey.MgrKey();
    var gml := new Gml();
    st1 := Setup(grp, mgr, gml, x, y, g, gg, z0, z1);
    st2 := Setup(grp, mgr, gml, x, y, g, gg, z0, z1);
  }
}
