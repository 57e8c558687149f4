/**
 * ksap23_mgr_key_t: the issuer secrets x, y and the opener secrets z0, z1,
 * any of which may be absent (each authority holds only its own half).
 */
module ManagerKey {
  import opened Common
  import opened Field
  import opened Codec
  import opened Layout

  /** Field kinds in export order: x, y, z0, z1. */
  const Kinds: seq<Kind> := [Fr, Fr, Fr, Fr]

  /** GROUPSIG_ksap23_CODE, then GROUPSIG_KEY_MGRKEY. */
  const Header: seq<byte> := [SchemeCode as byte, MgrKeyType as byte]

  const NoFields: seq<Option<Elem>> := [None, None, None, None]

  class MgrKey {
    var x: Option<Elem>
    var y: Option<Elem>
    var z0: Option<Elem>
    var z1: Option<Elem>

    /** ksap23_mgr_key_init: every field NULL. */
    constructor ()
      ensures Fields() == NoFields
    {
      x, y, z0, z1 := None, None, None, None;
    }

    function Fields(): (vs: seq<Option<Elem>>)
      reads this
      ensures |vs| == |Kinds|
    {
      [x, y, z0, z1]
    }

    method SetFields(vs: seq<Option<Elem>>)
      requires |vs| == |Kinds|
      modifies this
      ensures Fields() == vs
    {
      x, y, z0, z1 := vs[0], vs[1], vs[2], vs[3];
    }
  }

  /**
   * ksap23_mgr_key_copy: each present source field is copied, an absent
   * one leaves the destination field as it was. It cannot fail once both
   * keys exist.
   */
  method Copy(dst: MgrKey?, src: MgrKey?) returns (st: Status)
    requires dst != null && src != null ==> dst != src
    modifies dst
    ensures st == Ok <==> dst != null && src != null
    ensures dst != null && src == null ==> unchanged(dst)
    ensures st != Ok ==> st == Error
    ensures st == Ok ==> dst.Fields() == Overlay(old(dst.Fields()), old(src.Fields()))
  {
    if dst == null || src == null {
      return Error;
    }
    if src.x.Some? { dst.x := src.x; }
    if src.y.Some? { dst.y := src.y; }
    if src.z0.Some? { dst.z0 := src.z0; }
    if src.z1.Some? { dst.z1 := src.z1; }
    assert dst.Fields() == Overlay(old(dst.Fields()), old(src.Fields()));
    st := Ok;
  }

  /** ksap23_mgr_key_get_size: 2 + 4 prefixes + the present scalars. */
  function GetSize(vs: seq<Option<Elem>>): int
    requires |vs| == |Kinds|
  {
    2 + IntSize * 4 + PresentSize(Kinds, vs)
  }

  function Bytes(vs: seq<Option<Elem>>): seq<byte>
    requires |vs| == |Kinds|
  {
    RecordBytes(Header, Kinds, vs)
  }

  /**
   * ksap23_mgr_key_export: x, y, z0, z1 as dumps, an absent one as four
   * zero bytes; the size check agrees, so it succeeds for every key.
   */
  method Export(key: MgrKey?) returns (st: Status, out: seq<byte>)
    ensures st == Ok <==> key != null
    ensures st == Ok ==> out == Bytes(key.Fields()) && |out| == GetSize(key.Fields())
    ensures st != Ok ==> st == Error
  {
    if key == null {
      return Error, [];
    }
    st, out := ExportRecord(Header, Kinds, key.Fields(), SkipSlot, GetSize(key.Fields()));
  }

  /**
   * ksap23_mgr_key_import: code and type bytes, then four fields, a zero
   * length prefix meaning an absent field.
   */
  function Parse(b: seq<byte>): (r: Option<seq<Option<Elem>>>)
    ensures r.Some? ==> |b| >= 2 && b[0] == SchemeCode as byte && b[1] == MgrKeyType as byte
    ensures r.Some? ==> |r.value| == |Kinds|
  {
    ParseRecord(Header, Kinds, b, MarkAbsent)
  }

  method Import(b: seq<byte>) returns (key: MgrKey?)
    ensures key == null <==> Parse(b).None?
    ensures key != null ==> fresh(key) && key.Fields() == Parse(b).value
  {
    var r := ImportRecord(Header, Kinds, b, MarkAbsent);
    if r.None? {
      return null;
    }
    key := new MgrKey();
    key.SetFields(r.value);
  }

  /** The round trip keeps both which fields are present and their values. */
  lemma RoundTrip(vs: seq<Option<Elem>>, rest: seq<byte>)
    requires |vs| == |Kinds|
    ensures Parse(Bytes(vs) + rest) == Some(vs)
  {
    RecordRoundTrip(Header, Kinds, vs, rest, MarkAbsent);
  }
}
