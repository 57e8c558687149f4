/**
 * ksap23_grp_key_t: the group public key (g, gg, XX, YY, ZZ0, ZZ1, h) and
 * its copy, size, export and import routines.
 */
module GroupKey {
  import opened Common
  import opened Field
  import opened Codec
  import opened Layout

  /** Field kinds in export order: g, gg, XX, YY, ZZ0, ZZ1, h. */
  const Kinds: seq<Kind> := [G1, G2, G2, G2, G1, G1, G1]

  /** GROUPSIG_ksap23_CODE, then GROUPSIG_KEY_GRPKEY. */
  const Header: seq<byte> := [SchemeCode as byte, GrpKeyType as byte]

  const NoFields: seq<Option<Elem>> := [None, None, None, None, None, None, None]

  class GrpKey {
    var g: Option<Elem>
    var gg: Option<Elem>
    var XX: Option<Elem>
    var YY: Option<Elem>
    var ZZ0: Option<Elem>
    var ZZ1: Option<Elem>
    var h: Option<Elem>

    /** ksap23_grp_key_init: every field NULL. */
    constructor ()
      ensures Fields() == NoFields
    {
      g, gg, XX, YY, ZZ0, ZZ1, h := None, None, None, None, None, None, None;
    }

    function Fields(): (vs: seq<Option<Elem>>)
      reads this
      ensures |vs| == |Kinds|
    {
      [g, gg, XX, YY, ZZ0, ZZ1, h]
    }

    predicate Complete()
      reads this
    {
      g.Some? && gg.Some? && XX.Some? && YY.Some? && ZZ0.Some? && ZZ1.Some? && h.Some?
    }

    method SetFields(vs: seq<Option<Elem>>)
      requires |vs| == |Kinds|
      modifies this
      ensures Fields() == vs
    {
      g, gg, XX, YY, ZZ0, ZZ1, h := vs[0], vs[1], vs[2], vs[3], vs[4], vs[5], vs[6];
    }
  }

  lemma CompleteFields(key: GrpKey)
    ensures key.Complete() <==> AllSome(key.Fields())
  {
    var vs := key.Fields();
    if AllSome(vs) {
      assert vs[0].Some? && vs[1].Some? && vs[2].Some? && vs[3].Some?;
      assert vs[4].Some? && vs[5].Some? && vs[6].Some?;
    }
  }

  /**
   * ksap23_grp_key_copy: every field is set from the source; a NULL source
   * field fails the copy, and then every destination field is reset.
   */
  method Copy(dst: GrpKey?, src: GrpKey?) returns (st: Status)
    requires dst != null && src != null ==> dst != src
    modifies dst
    ensures dst == null || src == null ==> st == Error
    ensures dst != null && src == null ==> unchanged(dst)
    ensures dst != null && src != null ==>
      && (st == Ok <==> AllSome(old(src.Fields())))
      && (st == Ok ==> dst.Fields() == old(src.Fields()))
      && (st != Ok ==> st == Error && dst.Fields() == NoFields)
  {
    if dst == null || src == null {
      return Error;
    }
    CompleteFields(src);
    if !src.Complete() {
      dst.SetFields(NoFields);
      return Error;
    }
    dst.SetFields(src.Fields());
    st := Ok;
  }

  /** ksap23_grp_key_get_size as written: six length prefixes for seven fields. */
  function GetSize(): int
  {
    2 + IntSize * 6 + ByteSize(G1) + ByteSize(G2) * 3 + ByteSize(G1) * 3
  }

  /** The size the export actually writes: one prefix per field. */
  function GetSizeFixed(): int
  {
    2 + IntSize * 7 + ByteSize(G1) + ByteSize(G2) * 3 + ByteSize(G1) * 3
  }

  /** The bytes of a complete group key: header, then g .. h as dumps. */
  function Bytes(vs: seq<Option<Elem>>): seq<byte>
    requires |vs| == |Kinds|
  {
    RecordBytes(Header, Kinds, vs)
  }

  /** A complete key takes GetSizeFixed bytes, four more than GetSize says. */
  lemma BytesLength(vs: seq<Option<Elem>>)
    requires |vs| == |Kinds| && AllSome(vs)
    ensures |Header| + IntSize * |Kinds| + PresentSize(Kinds, vs) == GetSizeFixed() == GetSize() + IntSize
  {
    PresentSizeFull(Kinds, vs);
    assert FullSize(Kinds) == 480 by {
      assert Kinds[1..][1..][1..][1..][1..][1..][1..] == [];
    }
  }

  /**
   * ksap23_grp_key_export as written: a NULL field fails the dump with
   * nothing handed over. A complete key writes seven prefixes where GetSize
   * counted six; those bytes reach the caller (handed) before the ctr check,
   * which then always fails, so the call returns IERROR and no size.
   */
  method Export(key: GrpKey?) returns (st: Status, out: seq<byte>, handed: seq<byte>)
    ensures st == Error && out == []
    ensures key != null && AllSome(key.Fields()) ==>
      handed == Bytes(key.Fields()) && |handed| == GetSize() + IntSize
    ensures key == null || !AllSome(key.Fields()) ==> handed == []
  {
    if key == null {
      return Error, [], [];
    }
    var vs := key.Fields();
    var ok, body := WriteFields(Kinds, vs, DumpFails);
    if !ok {
      return Error, [], [];
    }
    BytesLength(vs);
    FieldsBytesLength(Kinds, vs);
    handed := Header + body;
    var ctr := |handed|;
    assert ctr != GetSize();
    st, out := Error, [];
  }

  /** ksap23_grp_key_export with the size check against the bytes it writes. */
  method ExportFixed(key: GrpKey?) returns (st: Status, out: seq<byte>)
    ensures st == Ok <==> key != null && AllSome(key.Fields())
    ensures st == Ok ==> out == Bytes(key.Fields()) && |out| == GetSizeFixed()
    ensures st != Ok ==> st == Error
  {
    if key == null {
      return Error, [];
    }
    var vs := key.Fields();
    if AllSome(vs) {
      BytesLength(vs);
    }
    st, out := ExportRecord(Header, Kinds, vs, DumpFails, GetSizeFixed());
  }

  /**
   * ksap23_grp_key_import: code and type bytes, then the seven fields; a
   * zero-length field leaves the freshly initialised element.
   */
  function Parse(b: seq<byte>): (r: Option<seq<Option<Elem>>>)
    ensures r.Some? ==> |b| >= 2 && b[0] == SchemeCode as byte && b[1] == GrpKeyType as byte
    ensures r.Some? ==> |r.value| == |Kinds| && AllSome(r.value)
  {
    ParseRecord(Header, Kinds, b, KeepFresh)
  }

  method Import(b: seq<byte>) returns (key: GrpKey?)
    ensures key == null <==> Parse(b).None?
    ensures key != null ==> fresh(key) && key.Fields() == Parse(b).value
  {
    var r := ImportRecord(Header, Kinds, b, KeepFresh);
    if r.None? {
      return null;
    }
    key := new GrpKey();
    key.SetFields(r.value);
  }

  /** Import inverts the (corrected) export for every complete key. */
  lemma RoundTrip(vs: seq<Option<Elem>>, rest: seq<byte>)
    requires |vs| == |Kinds| && AllSome(vs)
    ensures Parse(Bytes(vs) + rest) == Some(vs)
  {
    RecordRoundTrip(Header, Kinds, vs, rest, KeepFresh);
  }
}
