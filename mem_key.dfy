/**
 * ksap23_mem_key_t: a member's secret alpha, the binding values f1 = g^alpha,
 * f2 = h^alpha, u, w = u^alpha, and the credential v.
 */
module MemberKey {
  import opened Common
  import opened Field
  import opened Codec
  import opened Layout

  /** Field kinds in export order: alpha, f1, f2, u, v, w. */
  const Kinds: seq<Kind> := [Fr, G1, G1, G1, G1, G1]

  /** GROUPSIG_ksap23_CODE, then GROUPSIG_KEY_MEMKEY. */
  const Header: seq<byte> := [SchemeCode as byte, MemKeyType as byte]

  const NoFields: seq<Option<Elem>> := [None, None, None, None, None, None]

  class MemKey {
    var alpha: Option<Elem>
    var f1: Option<Elem>
    var f2: Option<Elem>
    var u: Option<Elem>
    var v: Option<Elem>
    var w: Option<Elem>

    /** ksap23_mem_key_init: every field NULL. */
    constructor ()
      ensures Fields() == NoFields
    {
      alpha, f1, f2, u, v, w := None, None, None, None, None, None;
    }

    function Fields(): (vs: seq<Option<Elem>>)
      reads this
      ensures |vs| == |Kinds|
    {
      [alpha, f1, f2, u, v, w]
    }

    method SetFields(vs: seq<Option<Elem>>)
      requires |vs| == |Kinds|
      modifies this
      ensures Fields() == vs
    {
      alpha, f1, f2, u, v, w := vs[0], vs[1], vs[2], vs[3], vs[4], vs[5];
    }
  }

  /**
   * The fields ksap23_mem_key_copy leaves in dst, as written: f1 is copied
   * when the source holds u (not f1), so a source with u but no f1 fails,
   * and a source with f1 but no u leaves dst.f1 as it was.
   */
  function CopyAsWritten(d: seq<Option<Elem>>, s: seq<Option<Elem>>): (r: Option<seq<Option<Elem>>>)
    requires |d| == |s| == |Kinds|
    ensures r.None? <==> s[3].Some? && s[1].None?
    ensures r.Some? ==> |r.value| == |Kinds|
  {
    if s[3].Some? && s[1].None? then None
    else
      var o := Overlay(d, s);
      Some(o[1 := if s[3].Some? then s[1] else d[1]])
  }

  /** The as-written copy drops a source's f1 when its u is absent. */
  lemma CopyDropsF1()
    ensures var s := [None, Some(1), None, None, None, None];
            CopyAsWritten(NoFields, s) == Some(NoFields) && NoFields[1] != s[1]
  {
    var s: seq<Option<Elem>> := [None, Some(1), None, None, None, None];
    OverlayFields(NoFields, s, s);
    assert Overlay(NoFields, s)[1 := NoFields[1]] == NoFields;
  }

  /**
   * ksap23_mem_key_copy as written; on failure every destination field is
   * reset to NULL.
   */
  method Copy(dst: MemKey?, src: MemKey?) returns (st: Status)
    requires dst != null && src != null ==> dst != src
    modifies dst
    ensures dst == null || src == null ==> st == Error
    ensures dst != null && src == null ==> unchanged(dst)
    ensures dst != null && src != null ==>
      && (st == Ok <==> CopyAsWritten(old(dst.Fields()), old(src.Fields())).Some?)
      && (st == Ok ==> dst.Fields() == CopyAsWritten(old(dst.Fields()), old(src.Fields())).value)
      && (st != Ok ==> st == Error && dst.Fields() == NoFields)
  {
    if dst == null || src == null {
      return Error;
    }
    ghost var d, s := dst.Fields(), src.Fields();
    if src.alpha.Some? { dst.alpha := src.alpha; }
    assert dst.alpha == Pick(d[0], s[0]);
    if src.u.Some? {
      if src.f1.None? {
        dst.SetFields(NoFields);
        return Error;
      }
      dst.f1 := src.f1;
    }
    assert dst.f1 == (if s[3].Some? then s[1] else d[1]);
    if src.f2.Some? { dst.f2 := src.f2; }
    assert dst.f2 == Pick(d[2], s[2]);
    if src.u.Some? { dst.u := src.u; }
    assert dst.u == Pick(d[3], s[3]);
    if src.v.Some? { dst.v := src.v; }
    assert dst.v == Pick(d[4], s[4]);
    if src.w.Some? { dst.w := src.w; }
    CopyAsWrittenOf(d, s, dst.alpha, dst.f1, dst.f2, dst.u, dst.v, dst.w);
    st := Ok;
  }

  /** The fields left by a successful as-written copy, field by field. */
  lemma CopyAsWrittenOf(d: seq<Option<Elem>>, s: seq<Option<Elem>>, alpha: Option<Elem>, f1: Option<Elem>,
                        f2: Option<Elem>, u: Option<Elem>, v: Option<Elem>, w: Option<Elem>)
    requires |d| == |s| == |Kinds| && !(s[3].Some? && s[1].None?)
    requires alpha == Pick(d[0], s[0]) && f1 == (if s[3].Some? then s[1] else d[1])
    requires f2 == Pick(d[2], s[2]) && u == Pick(d[3], s[3])
    requires v == Pick(d[4], s[4]) && w == Pick(d[5], s[5])
    ensures CopyAsWritten(d, s) == Some([alpha, f1, f2, u, v, w])
  {
    var o := Overlay(d, s);
    assert o[1 := f1] == [alpha, f1, f2, u, v, w];
  }

  /** The fields left by a copy that sets each field the source holds. */
  lemma OverlayOf(d: seq<Option<Elem>>, s: seq<Option<Elem>>, alpha: Option<Elem>, f1: Option<Elem>,
                  f2: Option<Elem>, u: Option<Elem>, v: Option<Elem>, w: Option<Elem>)
    requires |d| == |s| == |Kinds|
    requires alpha == Pick(d[0], s[0]) && f1 == Pick(d[1], s[1])
    requires f2 == Pick(d[2], s[2]) && u == Pick(d[3], s[3])
    requires v == Pick(d[4], s[4]) && w == Pick(d[5], s[5])
    ensures Overlay(d, s) == [alpha, f1, f2, u, v, w]
  {
    OverlayFields(d, s, [alpha, f1, f2, u, v, w]);
  }

  /** ksap23_mem_key_copy with the f1 copy guarded by the source's f1. */
  method CopyFixed(dst: MemKey?, src: MemKey?) returns (st: Status)
    requires dst != null && src != null ==> dst != src
    modifies dst
    ensures st == Ok <==> dst != null && src != null
    ensures dst != null && src == null ==> unchanged(dst)
    ensures st != Ok ==> st == Error
    ensures st == Ok ==> dst.Fields() == Overlay(old(dst.Fields()), old(src.Fields()))
  {
    if dst == null || src == null {
      return Error;
    }
    ghost var d, s := dst.Fields(), src.Fields();
    if src.alpha.Some? { dst.alpha := src.alpha; }
    assert dst.alpha == Pick(d[0], s[0]);
    if src.f1.Some? { dst.f1 := src.f1; }
    assert dst.f1 == Pick(d[1], s[1]);
    if src.f2.Some? { dst.f2 := src.f2; }
    assert dst.f2 == Pick(d[2], s[2]);
    if src.u.Some? { dst.u := src.u; }
    assert dst.u == Pick(d[3], s[3]);
    if src.v.Some? { dst.v := src.v; }
    assert dst.v == Pick(d[4], s[4]);
    if src.w.Some? { dst.w := src.w; }
    OverlayOf(d, s, dst.alpha, dst.f1, dst.f2, dst.u, dst.v, dst.w);
    st := Ok;
  }

  /** ksap23_mem_key_get_size as written: four prefixes for six fields. */
  function GetSize(vs: seq<Option<Elem>>): int
    requires |vs| == |Kinds|
  {
    2 + IntSize * 4 + PresentSize(Kinds, vs)
  }

  /** The size the export actually writes: one prefix or zero slot per field. */
  function GetSizeFixed(vs: seq<Option<Elem>>): int
    requires |vs| == |Kinds|
  {
    2 + IntSize * 6 + PresentSize(Kinds, vs)
  }

  function Bytes(vs: seq<Option<Elem>>): seq<byte>
    requires |vs| == |Kinds|
  {
    RecordBytes(Header, Kinds, vs)
  }

  /**
   * ksap23_mem_key_export as written: whatever fields are present, the
   * counter ends eight bytes past GetSize, so the final check fails.
   */
  method Export(key: MemKey?) returns (st: Status, out: seq<byte>)
    ensures st == Error && out == []
  {
    if key == null {
      return Error, [];
    }
    st, out := ExportRecord(Header, Kinds, key.Fields(), SkipSlot, GetSize(key.Fields()));
  }

  /** ksap23_mem_key_export with the size check against the bytes it writes. */
  method ExportFixed(key: MemKey?) returns (st: Status, out: seq<byte>)
    ensures st == Ok <==> key != null
    ensures st == Ok ==> out == Bytes(key.Fields()) && |out| == GetSizeFixed(key.Fields())
    ensures st != Ok ==> st == Error
  {
    if key == null {
      return Error, [];
    }
    st, out := ExportRecord(Header, Kinds, key.Fields(), SkipSlot, GetSizeFixed(key.Fields()));
  }

  /**
   * ksap23_mem_key_import: code and type bytes, then six fields, a zero
   * length prefix meaning an absent field.
   */
  function Parse(b: seq<byte>): (r: Option<seq<Option<Elem>>>)
    ensures r.Some? ==> |b| >= 2 && b[0] == SchemeCode as byte && b[1] == MemKeyType as byte
    ensures r.Some? ==> |r.value| == |Kinds|
  {
    ParseRecord(Header, Kinds, b, MarkAbsent)
  }

  method Import(b: seq<byte>) returns (key: MemKey?)
    ensures key == null <==> Parse(b).None?
    ensures key != null ==> fresh(key) && key.Fields() == Parse(b).value
  {
    var r := ImportRecord(Header, Kinds, b, MarkAbsent);
    if r.None? {
      return null;
    }
    key := new MemKey();
    key.SetFields(r.value);
  }

  /** The round trip keeps both which fields are present and their values. */
  lemma RoundTrip(vs: seq<Option<Elem>>, rest: seq<byte>)
    requires |vs| == |Kinds|
    ensures Parse(Bytes(vs) + rest) == Some(vs)
  {
    RecordRoundTrip(Header, Kinds, vs, rest, MarkAbsent);
  }
}
