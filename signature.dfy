/**
 * ksap23_signature_t: the randomised credential (uu, vv, ww), the ElGamal
 * style encryption (c0, c1, c2) of (f1, f2), and the SNIZK2 proof pi.
 */
module Signatures {
  import opened Common
  import opened Field
  import opened Codec
  import opened Layout
  import opened Spk

  /** Field kinds in export order: uu, vv, ww, c0, c1, c2 (pi is not exported). */
  const Kinds: seq<Kind> := [G1, G1, G1, G1, G1, G1]

  /** A signature starts with the scheme code only. */
  const Header: seq<byte> := [SchemeCode as byte]

  const NoFields: seq<Option<Elem>> := [None, None, None, None, None, None]

  class Signature {
    var uu: Option<Elem>
    var vv: Option<Elem>
    var ww: Option<Elem>
    var c0: Option<Elem>
    var c1: Option<Elem>
    var c2: Option<Elem>
    var pi: SpkRep?

    /** ksap23_signature_init: zeroed memory, so every field NULL. */
    constructor ()
      ensures Fields() == NoFields && pi == null
    {
      uu, vv, ww, c0, c1, c2 := None, None, None, None, None, None;
      pi := null;
    }

    function Fields(): (vs: seq<Option<Elem>>)
      reads this
      ensures |vs| == |Kinds|
    {
      [uu, vv, ww, c0, c1, c2]
    }

    predicate Complete()
      reads this
    {
      uu.Some? && vv.Some? && ww.Some? && c0.Some? && c1.Some? && c2.Some?
    }

    method SetFields(vs: seq<Option<Elem>>)
      requires |vs| == |Kinds|
      modifies this
      ensures Fields() == vs && pi == old(pi)
    {
      uu, vv, ww, c0, c1, c2 := vs[0], vs[1], vs[2], vs[3], vs[4], vs[5];
    }
  }

  lemma CompleteFields(sig: Signature)
    ensures sig.Complete() <==> AllSome(sig.Fields())
  {
    var vs := sig.Fields();
    if AllSome(vs) {
      assert vs[0].Some? && vs[1].Some? && vs[2].Some?;
      assert vs[3].Some? && vs[4].Some? && vs[5].Some?;
    }
  }

  /**
   * ksap23_signature_copy: the six elements are set from the source (a NULL
   * one fails and resets all six); pi is left alone.
   */
  method Copy(dst: Signature?, src: Signature?) returns (st: Status)
    requires dst != null && src != null ==> dst != src
    modifies dst
    ensures dst == null || src == null ==> st == Error
    ensures dst != null && src == null ==> unchanged(dst)
    ensures dst != null && src != null ==>
      && dst.pi == old(dst.pi)
      && (st == Ok <==> AllSome(old(src.Fields())))
      && (st == Ok ==> dst.Fields() == old(src.Fields()))
      && (st != Ok ==> st == Error && dst.Fields() == NoFields)
  {
    if dst == null || src == null {
      return Error;
    }
    CompleteFields(src);
    if !src.Complete() {
      dst.SetFields(NoFields);
      return Error;
    }
    dst.SetFields(src.Fields());
    st := Ok;
  }

  /** ksap23_signature_get_size as written: counts pi's c and s, which export never writes. */
  function GetSize(): int
  {
    1 + IntSize * 5 + ByteSize(G1) * 6 + ByteSize(Fr) * 2
  }

  /** The size the export actually writes: code byte and six G1 dumps. */
  function GetSizeFixed(): int
  {
    1 + IntSize * 6 + ByteSize(G1) * 6
  }

  function Bytes(vs: seq<Option<Elem>>): seq<byte>
    requires |vs| == |Kinds|
  {
    RecordBytes(Header, Kinds, vs)
  }

  lemma BytesLength(vs: seq<Option<Elem>>)
    requires |vs| == |Kinds| && AllSome(vs)
    ensures |Header| + IntSize * |Kinds| + PresentSize(Kinds, vs) == GetSizeFixed() == GetSize() - 60
  {
    PresentSizeFull(Kinds, vs);
    assert FullSize(Kinds) == 288 by {
      assert Kinds[1..][1..][1..][1..][1..][1..] == [];
    }
  }

  /**
   * ksap23_signature_export as written: a NULL element fails the dump, and
   * a complete signature writes 313 bytes where GetSize announced 373.
   */
  method Export(sig: Signature?) returns (st: Status, out: seq<byte>)
    ensures st == Error && out == []
  {
    if sig == null {
      return Error, [];
    }
    var vs := sig.Fields();
    if AllSome(vs) {
      BytesLength(vs);
    }
    st, out := ExportRecord(Header, Kinds, vs, DumpFails, GetSize());
  }

  /** ksap23_signature_export with the size check against the bytes it writes. */
  method ExportFixed(sig: Signature?) returns (st: Status, out: seq<byte>)
    ensures st == Ok <==> sig != null && AllSome(sig.Fields())
    ensures st == Ok ==> out == Bytes(sig.Fields()) && |out| == GetSizeFixed()
    ensures st != Ok ==> st == Error
  {
    if sig == null {
      return Error, [];
    }
    var vs := sig.Fields();
    if AllSome(vs) {
      BytesLength(vs);
    }
    st, out := ExportRecord(Header, Kinds, vs, DumpFails, GetSizeFixed());
  }

  /**
   * ksap23_signature_import: the code byte, then the six elements; a zero
   * length prefix leaves the freshly initialised element.
   */
  function Parse(b: seq<byte>): (r: Option<seq<Option<Elem>>>)
    ensures r.Some? ==> |b| >= 1 && b[0] == SchemeCode as byte
    ensures r.Some? ==> |r.value| == |Kinds| && AllSome(r.value)
  {
    ParseRecord(Header, Kinds, b, KeepFresh)
  }

  method Import(b: seq<byte>) returns (sig: Signature?)
    ensures sig == null <==> Parse(b).None?
    ensures sig != null ==> fresh(sig) && sig.Fields() == Parse(b).value && sig.pi == null
  {
    var r := ImportRecord(Header, Kinds, b, KeepFresh);
    if r.None? {
      return null;
    }
    sig := new Signature();
    sig.SetFields(r.value);
  }

  /** Import inverts the (corrected) export; pi does not travel. */
  lemma RoundTrip(vs: seq<Option<Elem>>, rest: seq<byte>)
    requires |vs| == |Kinds| && AllSome(vs)
    ensures Parse(Bytes(vs) + rest) == Some(vs)
  {
    RecordRoundTrip(Header, Kinds, vs, rest, KeepFresh);
  }
}
