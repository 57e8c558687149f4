/**
 * The byte layout shared by the KSAP23 exporters and importers: a table of
 * (kind, optional element) fields written one after another at a running
 * counter `ctr`, each as a pbcext dump. The C code repeats one block per
 * field; the model runs the same block over the key's field table.
 */
module Layout {
  import opened Common
  import opened Field
  import opened Codec

  /** What an exporter does with a NULL field. */
  datatype OnNull =
    | DumpFails   // passed to pbcext_dump_element_*_bytes, which fails (grp_key, signature)
    | SkipSlot    // `ctr += sizeof(int)` over zeroed memory (mgr_key, mem_key)

  /** What an importer does with a dump whose length prefix is zero. */
  datatype OnZero =
    | KeepFresh   // the freshly initialised element (value 0) stays, ctr += 0 (grp_key, signature)
    | MarkAbsent  // the field becomes NULL and ctr += sizeof(int) (mgr_key, mem_key)
    | RejectZero  // the import fails (gml entries)

  /** The bytes a field takes: its length prefix, and the element when present. */
  function SlotSize(k: Kind, o: Option<Elem>): nat
  {
    IntSize + (if o.Some? then ByteSize(k) else 0)
  }

  function Slot(k: Kind, o: Option<Elem>): (r: seq<byte>)
    ensures |r| == SlotSize(k, o)
  {
    match o
    case Some(x) => Dump(k, x)
    case None => ZeroSlot()
  }

  /** The bytes of a field table: each field's slot, in table order. */
  function FieldsBytes(ks: seq<Kind>, vs: seq<Option<Elem>>): seq<byte>
    requires |ks| == |vs|
  {
    if ks == [] then [] else Slot(ks[0], vs[0]) + FieldsBytes(ks[1..], vs[1..])
  }

  /** Sum of the byte sizes of the present fields. */
  function PresentSize(ks: seq<Kind>, vs: seq<Option<Elem>>): nat
    requires |ks| == |vs|
  {
    if ks == [] then 0
    else (if vs[0].Some? then ByteSize(ks[0]) else 0) + PresentSize(ks[1..], vs[1..])
  }

  function FullSize(ks: seq<Kind>): nat
  {
    if ks == [] then 0 else ByteSize(ks[0]) + FullSize(ks[1..])
  }

  predicate Exportable(mode: OnNull, vs: seq<Option<Elem>>)
  {
    mode == SkipSlot || AllSome(vs)
  }

  /** A table takes one length prefix per field plus the present elements. */
  lemma {:induction false} FieldsBytesLength(ks: seq<Kind>, vs: seq<Option<Elem>>)
    requires |ks| == |vs|
    ensures |FieldsBytes(ks, vs)| == IntSize * |ks| + PresentSize(ks, vs)
  {
    if ks != [] { FieldsBytesLength(ks[1..], vs[1..]); }
  }

  /** With every field present, the present size is the full size. */
  lemma {:induction false} PresentSizeFull(ks: seq<Kind>, vs: seq<Option<Elem>>)
    requires |ks| == |vs| && AllSome(vs)
    ensures PresentSize(ks, vs) == FullSize(ks)
  {
    if ks != [] { PresentSizeFull(ks[1..], vs[1..]); }
  }

  /** A five-field table is its five slots, in order. */
  lemma FieldsBytesFive(ks: seq<Kind>, vs: seq<Option<Elem>>)
    requires |ks| == |vs| == 5
    ensures FieldsBytes(ks, vs)
      == Slot(ks[0], vs[0]) + Slot(ks[1], vs[1]) + Slot(ks[2], vs[2]) + Slot(ks[3], vs[3]) + Slot(ks[4], vs[4])
  {
    var s0, s1, s2, s3, s4 := Slot(ks[0], vs[0]), Slot(ks[1], vs[1]), Slot(ks[2], vs[2]), Slot(ks[3], vs[3]), Slot(ks[4], vs[4]);
    assert FieldsBytes(ks[..1], vs[..1]) == s0 by {
      FieldsBytesSnoc(ks, vs, 0);
      assert FieldsBytes(ks[..0], vs[..0]) == [];
      assert [] + s0 == s0;
    }
    assert FieldsBytes(ks[..2], vs[..2]) == s0 + s1 by { FieldsBytesSnoc(ks, vs, 1); }
    assert FieldsBytes(ks[..3], vs[..3]) == s0 + s1 + s2 by { FieldsBytesSnoc(ks, vs, 2); }
    assert FieldsBytes(ks[..4], vs[..4]) == s0 + s1 + s2 + s3 by { FieldsBytesSnoc(ks, vs, 3); }
    assert FieldsBytes(ks[..5], vs[..5]) == s0 + s1 + s2 + s3 + s4 by { FieldsBytesSnoc(ks, vs, 4); }
    assert ks[..5] == ks && vs[..5] == vs;
  }

  lemma {:induction false} FieldsBytesSnoc(ks: seq<Kind>, vs: seq<Option<Elem>>, i: nat)
    requires |ks| == |vs| && i < |ks|
    ensures FieldsBytes(ks[..i + 1], vs[..i + 1]) == FieldsBytes(ks[..i], vs[..i]) + Slot(ks[i], vs[i])
  {
    if i > 0 {
      assert ks[..i + 1][1..] == ks[1..][..i];
      assert vs[..i + 1][1..] == vs[1..][..i];
      assert ks[..i][1..] == ks[1..][..i - 1];
      assert vs[..i][1..] == vs[1..][..i - 1];
      FieldsBytesSnoc(ks[1..], vs[1..], i - 1);
    }
  }

  /**
   * The export block of every field, in table order: a dump for a present
   * field, and for a NULL field either a failure or four untouched zero bytes.
   */
  method WriteFields(ks: seq<Kind>, vs: seq<Option<Elem>>, mode: OnNull) returns (ok: bool, out: seq<byte>)
    requires |ks| == |vs|
    ensures ok == Exportable(mode, vs)
    ensures ok ==> out == FieldsBytes(ks, vs)
  {
    out := [];
    var i := 0;
    while i < |ks|
      invariant 0 <= i <= |ks|
      invariant out + FieldsBytes(ks[i..], vs[i..]) == FieldsBytes(ks, vs)
      invariant mode == DumpFails ==> forall j :: 0 <= j < i ==> vs[j].Some?
    {
      if vs[i].None? && mode == DumpFails {
        assert !Exportable(mode, vs) by { assert !vs[i].Some?; }
        return false, [];
      }
      assert FieldsBytes(ks[i..], vs[i..]) == Slot(ks[i], vs[i]) + FieldsBytes(ks[i + 1..], vs[i + 1..]) by {
        assert ks[i..][1..] == ks[i + 1..];
        assert vs[i..][1..] == vs[i + 1..];
      }
      Assoc(out, Slot(ks[i], vs[i]), FieldsBytes(ks[i + 1..], vs[i + 1..]));
      out := out + Slot(ks[i], vs[i]);
      i := i + 1;
    }
    assert out + [] == out;
    ok := true;
  }

  /** One import block: read a dump at ctr and advance. */
  function ReadSlot(k: Kind, b: seq<byte>, ctr: nat, z: OnZero): Option<(Option<Elem>, nat)>
  {
    if ctr > |b| then None
    else
      match GetElem(k, b[ctr..])
      case Bad => None
      case Got(x, len) => Some((Some(x), ctr + len))
      case Absent =>
        match z
        case KeepFresh => Some((Some(0), ctr))
        case MarkAbsent => Some((None, ctr + IntSize))
        case RejectZero => None
  }

  /** The import blocks of a whole table, from ctr on. */
  function ParseFields(ks: seq<Kind>, b: seq<byte>, ctr: nat, z: OnZero): (r: Option<(seq<Option<Elem>>, nat)>)
    ensures r.Some? ==> |r.value.0| == |ks|
    ensures r.Some? && z != MarkAbsent ==> AllSome(r.value.0)
  {
    if ks == [] then Some(([], ctr))
    else
      match ReadSlot(ks[0], b, ctr, z)
      case None => None
      case Some((v, c)) =>
        match ParseFields(ks[1..], b, c, z)
        case None => None
        case Some((vs, c')) => Some(([v] + vs, c'))
  }

  lemma Assoc(a: seq<byte>, b: seq<byte>, c: seq<byte>)
    ensures (a + b) + c == a + (b + c)
  {
  }

  /** Bytes from offset at on that start with s, then t, hold s at [at, at + |s|) and t after it. */
  lemma Split(b: seq<byte>, at: nat, s: seq<byte>, t: seq<byte>)
    requires at <= |b| && b[at..] == s + t
    ensures at + |s| <= |b| && b[at..at + |s|] == s && b[at + |s|..] == t
  {
    assert b[at..at + |s|] == b[at..][..|s|];
    assert b[at + |s|..] == b[at..][|s|..];
  }

  /** The slots of a table lie one after another in b from offset at on. */
  predicate TableAt(ks: seq<Kind>, vs: seq<Option<Elem>>, b: seq<byte>, at: nat)
    requires |ks| == |vs|
    decreases ks
  {
    if ks == [] then true
    else
      var next: nat := at + SlotSize(ks[0], vs[0]);
      next <= |b| && b[at..next] == Slot(ks[0], vs[0]) && TableAt(ks[1..], vs[1..], b, next)
  }

  /** A table's bytes found at offset at place each of its slots. */
  lemma {:induction false} TableAtOf(ks: seq<Kind>, vs: seq<Option<Elem>>, b: seq<byte>, at: nat, rest: seq<byte>)
    requires |ks| == |vs|
    requires at <= |b| && b[at..] == FieldsBytes(ks, vs) + rest
    ensures TableAt(ks, vs, b, at)
    decreases ks
  {
    if ks != [] {
      var s := Slot(ks[0], vs[0]);
      var tail := FieldsBytes(ks[1..], vs[1..]);
      Assoc(s, tail, rest);
      Split(b, at, s, tail + rest);
      TableAtOf(ks[1..], vs[1..], b, at + |s|, rest);
    }
  }

  /** Reading one slot back from its own bytes, wherever they sit. */
  lemma ReadSlotAt(k: Kind, o: Option<Elem>, b: seq<byte>, at: nat, z: OnZero)
    requires o.Some? || z == MarkAbsent
    requires at + SlotSize(k, o) <= |b| && b[at..at + SlotSize(k, o)] == Slot(k, o)
    ensures ReadSlot(k, b, at, z) == Some((o, at + SlotSize(k, o)))
  {
    var rest := b[at + SlotSize(k, o)..];
    assert b[at..] == Slot(k, o) + rest;
    match o {
      case Some(x) => GetDump(k, x, rest);
      case None => GetZeroSlot(k, rest);
    }
  }

  /** Each slot of the table reads back at its place. */
  predicate TableReads(ks: seq<Kind>, vs: seq<Option<Elem>>, b: seq<byte>, at: nat, z: OnZero)
    requires |ks| == |vs|
    decreases ks
  {
    if ks == [] then true
    else
      var next: nat := at + SlotSize(ks[0], vs[0]);
      ReadSlot(ks[0], b, at, z) == Some((vs[0], next)) && TableReads(ks[1..], vs[1..], b, next, z)
  }

  lemma {:induction false} TableReadsOf(ks: seq<Kind>, vs: seq<Option<Elem>>, b: seq<byte>, at: nat, z: OnZero)
    requires |ks| == |vs| && TableAt(ks, vs, b, at)
    requires AllSome(vs) || z == MarkAbsent
    ensures TableReads(ks, vs, b, at, z)
    decreases ks
  {
    if ks != [] {
      ReadSlotAt(ks[0], vs[0], b, at, z);
      assert AllSome(vs) ==> AllSome(vs[1..]);
      TableReadsOf(ks[1..], vs[1..], b, at + SlotSize(ks[0], vs[0]), z);
    }
  }

  lemma {:induction false} ParseTable(ks: seq<Kind>, vs: seq<Option<Elem>>, b: seq<byte>, at: nat, z: OnZero)
    requires |ks| == |vs| && TableReads(ks, vs, b, at, z)
    ensures ParseFields(ks, b, at, z) == Some((vs, at + IntSize * |ks| + PresentSize(ks, vs)))
    decreases ks
  {
    if ks != [] {
      ParseTable(ks[1..], vs[1..], b, at + SlotSize(ks[0], vs[0]), z);
      assert [vs[0]] + vs[1..] == vs;
    }
  }

  /**
   * The import blocks invert the export blocks: a table whose slots lie
   * in b from offset at on reads back field for field, ending right
   * after its own bytes.
   */
  lemma ParseFieldsAt(ks: seq<Kind>, vs: seq<Option<Elem>>, b: seq<byte>, at: nat, z: OnZero)
    requires |ks| == |vs| && TableAt(ks, vs, b, at)
    requires AllSome(vs) || z == MarkAbsent
    ensures ParseFields(ks, b, at, z) == Some((vs, at + IntSize * |ks| + PresentSize(ks, vs)))
  {
    TableReadsOf(ks, vs, b, at, z);
    ParseTable(ks, vs, b, at, z);
  }

  lemma DropPrefix(pre: seq<byte>, t: seq<byte>)
    ensures (pre + t)[|pre|..] == t
  {
  }

  /** The same, for table bytes found at offset at and followed by anything. */
  lemma ParseFieldsOn(ks: seq<Kind>, vs: seq<Option<Elem>>, b: seq<byte>, at: nat, rest: seq<byte>, z: OnZero)
    requires |ks| == |vs|
    requires AllSome(vs) || z == MarkAbsent
    requires at <= |b| && b[at..] == FieldsBytes(ks, vs) + rest
    ensures ParseFields(ks, b, at, z) == Some((vs, at + IntSize * |ks| + PresentSize(ks, vs)))
  {
    TableAtOf(ks, vs, b, at, rest);
    ParseFieldsAt(ks, vs, b, at, z);
  }

  /** The same, for a table written after a prefix. */
  lemma ParseFieldsBack(ks: seq<Kind>, vs: seq<Option<Elem>>, pre: seq<byte>, rest: seq<byte>, z: OnZero)
    requires |ks| == |vs|
    requires AllSome(vs) || z == MarkAbsent
    ensures ParseFields(ks, pre + FieldsBytes(ks, vs) + rest, |pre|, z)
         == Some((vs, |pre| + IntSize * |ks| + PresentSize(ks, vs)))
  {
    Assoc(pre, FieldsBytes(ks, vs), rest);
    DropPrefix(pre, FieldsBytes(ks, vs) + rest);
    ParseFieldsOn(ks, vs, pre + FieldsBytes(ks, vs) + rest, |pre|, rest, z);
  }

  /** ParseFields with the fields already read put in front. */
  function Prefixed(vs: seq<Option<Elem>>, r: Option<(seq<Option<Elem>>, nat)>): Option<(seq<Option<Elem>>, nat)>
  {
    match r
    case None => None
    case Some((ws, c)) => Some((vs + ws, c))
  }

  lemma ParseFieldsStep(ks: seq<Kind>, b: seq<byte>, ctr: nat, z: OnZero, i: nat)
    requires i < |ks|
    requires ReadSlot(ks[i], b, ctr, z).Some?
    ensures ParseFields(ks[i..], b, ctr, z)
         == Prefixed([ReadSlot(ks[i], b, ctr, z).value.0],
                     ParseFields(ks[i + 1..], b, ReadSlot(ks[i], b, ctr, z).value.1, z))
  {
    assert ks[i..][0] == ks[i];
    assert ks[i..][1..] == ks[i + 1..];
  }

  lemma PrefixedAppend(vs: seq<Option<Elem>>, v: Option<Elem>, r: Option<(seq<Option<Elem>>, nat)>)
    ensures Prefixed(vs, Prefixed([v], r)) == Prefixed(vs + [v], r)
  {
    if r.Some? {
      assert vs + ([v] + r.value.0) == (vs + [v]) + r.value.0;
    }
  }

  /** The import blocks run in order with a running counter. */
  method ReadFields(ks: seq<Kind>, b: seq<byte>, start: nat, z: OnZero) returns (r: Option<(seq<Option<Elem>>, nat)>)
    ensures r == ParseFields(ks, b, start, z)
  {
    var vs: seq<Option<Elem>> := [];
    var ctr := start;
    var i := 0;
    assert ks[0..] == ks;
    match ParseFields(ks, b, start, z) {
      case None =>
      case Some(p) => assert [] + p.0 == p.0;
    }
    while i < |ks|
      invariant 0 <= i <= |ks| && |vs| == i
      invariant ParseFields(ks, b, start, z) == Prefixed(vs, ParseFields(ks[i..], b, ctr, z))
    {
      var got := ReadSlot(ks[i], b, ctr, z);
      if got.None? {
        assert ks[i..][0] == ks[i];
        return None;
      }
      ParseFieldsStep(ks, b, ctr, z, i);
      PrefixedAppend(vs, got.value.0, ParseFields(ks[i + 1..], b, got.value.1, z));
      vs := vs + [got.value.0];
      ctr := got.value.1;
      i := i + 1;
    }
    assert ks[|ks|..] == [];
    assert vs + [] == vs;
    r := Some((vs, ctr));
  }

  // ---------------------------------------------------------------------
  // Whole records: fixed header bytes (code, key type), then a field table
  // ---------------------------------------------------------------------

  /** The bytes an exporter emits: the header, then every field's slot. */
  function RecordBytes(header: seq<byte>, ks: seq<Kind>, vs: seq<Option<Elem>>): seq<byte>
    requires |ks| == |vs|
  {
    header + FieldsBytes(ks, vs)
  }

  /**
   * What an importer reads: the header bytes must match one by one, then
   * the field table is read right after them. Trailing bytes are ignored.
   */
  function ParseRecord(header: seq<byte>, ks: seq<Kind>, b: seq<byte>, z: OnZero): (r: Option<seq<Option<Elem>>>)
    ensures r.Some? ==> |header| <= |b| && b[..|header|] == header
    ensures r.Some? ==> |r.value| == |ks|
    ensures r.Some? && z != MarkAbsent ==> AllSome(r.value)
  {
    if |b| < |header| || b[..|header|] != header then None
    else
      match ParseFields(ks, b, |header|, z)
      case None => None
      case Some((vs, _)) => Some(vs)
  }

  /** A record reads back as the table that was written, whatever follows it. */
  lemma RecordRoundTrip(header: seq<byte>, ks: seq<Kind>, vs: seq<Option<Elem>>, rest: seq<byte>, z: OnZero)
    requires |ks| == |vs|
    requires AllSome(vs) || z == MarkAbsent
    ensures ParseRecord(header, ks, RecordBytes(header, ks, vs) + rest, z) == Some(vs)
  {
    var b := RecordBytes(header, ks, vs) + rest;
    assert b == header + FieldsBytes(ks, vs) + rest;
    assert b[..|header|] == header;
    ParseFieldsBack(ks, vs, header, rest, z);
  }

  /**
   * The body of every *_export: header, the field blocks at a running
   * counter, then the sanity check that the counter equals the size the
   * matching *_get_size announced.
   */
  method ExportRecord(header: seq<byte>, ks: seq<Kind>, vs: seq<Option<Elem>>, mode: OnNull, size: int)
    returns (st: Status, out: seq<byte>)
    requires |ks| == |vs|
    ensures st == Ok <==> Exportable(mode, vs) && |header| + IntSize * |ks| + PresentSize(ks, vs) == size
    ensures st == Ok ==> out == RecordBytes(header, ks, vs) && |out| == size
    ensures st != Ok ==> st == Error && out == []
  {
    var ok, body := WriteFields(ks, vs, mode);
    if !ok {
      return Error, [];
    }
    FieldsBytesLength(ks, vs);
    var ctr := |header| + |body|;
    if ctr != size {
      return Error, [];
    }
    st, out := Ok, header + body;
  }

  /** The body of every *_import: header checks, then the field blocks. */
  method ImportRecord(header: seq<byte>, ks: seq<Kind>, b: seq<byte>, z: OnZero) returns (r: Option<seq<Option<Elem>>>)
    ensures r == ParseRecord(header, ks, b, z)
  {
    if |b| < |header| || b[..|header|] != header {
      return None;
    }
    var got := ReadFields(ks, b, |header|, z);
    match got {
      case None => r := None;
      case Some((vs, _)) => r := Some(vs);
    }
  }

  /** One field after such a copy: the source's value if it has one. */
  function Pick(d: Option<Elem>, s: Option<Elem>): Option<Elem>
  {
    if s.Some? then s else d
  }

  /**
   * The result of a copy that sets each field the source holds and leaves
   * the others as they were.
   */
  function Overlay(dst: seq<Option<Elem>>, src: seq<Option<Elem>>): (r: seq<Option<Elem>>)
    requires |dst| == |src|
    ensures |r| == |src|
    ensures forall i :: 0 <= i < |r| && src[i].Some? ==> r[i] == src[i]
    ensures forall i :: 0 <= i < |r| && src[i].None? ==> r[i] == dst[i]
  {
    seq(|src|, i requires 0 <= i < |src| => Pick(dst[i], src[i]))
  }

  lemma OverlayFields(dst: seq<Option<Elem>>, src: seq<Option<Elem>>, r: seq<Option<Elem>>)
    requires |dst| == |src| == |r|
    requires forall i :: 0 <= i < |r| ==> r[i] == Pick(dst[i], src[i])
    ensures r == Overlay(dst, src)
  {
  }
}
