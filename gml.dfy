/**
 * The KSAP23 group membership list: a table of entries (id, f1, f2, u, w
 * and the member's NIZK1 proof) with append, remove, lookup and byte
 * export and import.
 */
module Ledger {
  import opened Common
  import opened Field
  import opened Codec
  import opened Layout

  /** ksap23_gml_entry_t with its data; pi is kept as its challenge c and its one response s. */
  datatype Entry = Entry(id: nat, f1: Elem, f2: Elem, u: Elem, w: Elem, c: Elem, s: Elem)

  /** Bytes of the uint64_t counters (the entry id and the ledger size). */
  const IdSize: nat := 8

  /** The four G1 elements of an entry's data, in export order. */
  const DataKinds: seq<Kind> := [G1, G1, G1, G1]

  function DataFields(e: Entry): (vs: seq<Option<Elem>>)
    ensures |vs| == |DataKinds| && AllSome(vs)
  {
    [Some(e.f1), Some(e.f2), Some(e.u), Some(e.w)]
  }

  /** The export of a one-response spk_rep: c, then s[0], as the entry importer reads them. */
  function ProofBytes(c: Elem, s: Elem): (r: seq<byte>)
    ensures |r| == 2 * (IntSize + ByteSize(Fr))
  {
    Dump(Fr, c) + Dump(Fr, s)
  }

  /**
   * ksap23_gml_entry_get_size: four G1 elements, two Fr elements and six
   * length prefixes; neither the id nor the padding below is counted.
   */
  function EntryGetSize(): int
  {
    4 * ByteSize(G1) + 2 * ByteSize(Fr) + IntSize * 6
  }

  /** What ksap23_gml_entry_export writes: the 8-byte id, the dumps of f1, f2, u and w, then the proof. */
  function EntryWritten(e: Entry): seq<byte>
  {
    EncodeLE(e.id, IdSize) + FieldsBytes(DataKinds, DataFields(e)) + ProofBytes(e.c, e.s)
  }

  lemma EntryWrittenLength(e: Entry)
    ensures |EntryWritten(e)| == 288
  {
    FieldsBytesLength(DataKinds, DataFields(e));
    PresentSizeFull(DataKinds, DataFields(e));
    assert FullSize(DataKinds) == 192 by {
      assert DataKinds[1..][1..][1..][1..] == [];
    }
  }

  /**
   * The exported entry: the allocation is get_size + sizeof(int) + 8 bytes,
   * so four zeroed bytes that nothing writes follow what is written.
   */
  function EntryBytes(e: Entry): seq<byte>
  {
    EntryWritten(e) + ZeroSlot()
  }

  /** An exported entry takes 292 bytes, twelve more than entry_get_size. */
  lemma EntryBytesLength(e: Entry)
    ensures |EntryBytes(e)| == EntryGetSize() + IntSize + IdSize == 292
  {
    EntryWrittenLength(e);
  }

  method EntryExport(e: Entry) returns (out: seq<byte>)
    ensures out == EntryBytes(e)
    ensures |out| == EntryGetSize() + IntSize + IdSize
  {
    EntryBytesLength(e);
    var size := EntryGetSize() + IntSize + IdSize;
    out := EncodeLE(e.id, IdSize);
    var ok, body := WriteFields(DataKinds, DataFields(e), DumpFails);
    out := out + body + Dump(Fr, e.c) + Dump(Fr, e.s);
    assert out == EntryWritten(e);
    out := out + seq(size - |out|, _ => 0 as byte);
    assert seq(IntSize, _ => 0 as byte) == ZeroSlot() by {
      assert ZeroSlot() == [0, 0, 0, 0];
    }
  }

  /**
   * ksap23_gml_entry_import on the buffer from offset `at` on: the id, then
   * f1, f2, u, w (a zero length is rejected), then the proof. An import at
   * the end of the buffer is refused (size 0), and one that would read the
   * id past the end fails.
   */
  function ParseEntry(b: seq<byte>, at: nat): (r: Option<Entry>)
    ensures r.Some? ==> r.value.id < Pow256(IdSize) && at + IdSize <= |b|
  {
    if at + IdSize > |b| then None
    else
      match ParseFields(DataKinds, b, at + IdSize, RejectZero)
      case None => None
      case Some((vs, ctr)) =>
        match ParseProof(b, ctr)
        case None => None
        case Some((c, s)) =>
          DecodeBound(b[at..at + IdSize]);
          Some(Entry(DecodeLE(b[at..at + IdSize]), vs[0].value, vs[1].value, vs[2].value, vs[3].value, c, s))
  }

  /** The proof part of an entry import: c (a zero length keeps the fresh element), then s[0] (a zero length is rejected). */
  function ParseProof(b: seq<byte>, ctr: nat): Option<(Elem, Elem)>
  {
    match ReadSlot(Fr, b, ctr, KeepFresh)
    case None => None
    case Some((c, ctr')) =>
      match ReadSlot(Fr, b, ctr', RejectZero)
      case None => None
      case Some((s, _)) => if c.None? || s.None? then None else Some((c.value, s.value))
  }

  /** The proof of an entry reads back from its bytes at offset at. */
  lemma ParseProofOn(c: Elem, s: Elem, b: seq<byte>, at: nat, more: seq<byte>)
    requires at <= |b| && b[at..] == ProofBytes(c, s) + more
    ensures ParseProof(b, at) == Some((c, s))
  {
    var dc, ds := Dump(Fr, c), Dump(Fr, s);
    Assoc(dc, ds, more);
    Split(b, at, dc, ds + more);
    Split(b, at + |dc|, ds, more);
    ReadSlotAt(Fr, Some(c), b, at, KeepFresh);
    ReadSlotAt(Fr, Some(s), b, at + |dc|, RejectZero);
  }

  /** The data fields of e read from offset at, ending at ctr. */
  predicate FieldsAt(b: seq<byte>, at: nat, e: Entry, ctr: nat)
  {
    ParseFields(DataKinds, b, at, RejectZero) == Some((DataFields(e), ctr))
  }

  lemma ParseEntryOf(b: seq<byte>, at: nat, e: Entry, ctr: nat)
    requires at + IdSize <= |b| && DecodeLE(b[at..at + IdSize]) == e.id
    requires FieldsAt(b, at + IdSize, e, ctr)
    requires ParseProof(b, ctr) == Some((e.c, e.s))
    ensures ParseEntry(b, at) == Some(e)
  {
  }

  /** Where the proof of an entry exported at offset at starts. */
  function ProofAt(at: nat, e: Entry): nat
  {
    at + IdSize + IntSize * |DataKinds| + PresentSize(DataKinds, DataFields(e))
  }

  lemma Regroup(head: seq<byte>, fields: seq<byte>, proof: seq<byte>, pad: seq<byte>, tail: seq<byte>)
    ensures (head + fields + proof + pad) + tail == head + (fields + (proof + (pad + tail)))
  {
  }

  /** An exported entry at offset at, split at the id, at the fields and at the proof. */
  lemma EntryWindows(b: seq<byte>, at: nat, e: Entry, tail: seq<byte>)
    requires at <= |b| && b[at..] == EntryBytes(e) + tail
    ensures at + IdSize <= |b| && b[at..at + IdSize] == EncodeLE(e.id, IdSize)
    ensures b[at + IdSize..] == FieldsBytes(DataKinds, DataFields(e)) + (ProofBytes(e.c, e.s) + (ZeroSlot() + tail))
    ensures ProofAt(at, e) <= |b| && b[ProofAt(at, e)..] == ProofBytes(e.c, e.s) + (ZeroSlot() + tail)
  {
    var head, fields, proof, pad := EncodeLE(e.id, IdSize), FieldsBytes(DataKinds, DataFields(e)), ProofBytes(e.c, e.s), ZeroSlot();
    Regroup(head, fields, proof, pad, tail);
    Split(b, at, head, fields + (proof + (pad + tail)));
    Split(b, at + |head|, fields, proof + (pad + tail));
    FieldsBytesLength(DataKinds, DataFields(e));
  }

  lemma EntryIdOn(b: seq<byte>, at: nat, e: Entry, tail: seq<byte>)
    requires e.id < Pow256(IdSize)
    requires at <= |b| && b[at..] == EntryBytes(e) + tail
    ensures at + IdSize <= |b| && DecodeLE(b[at..at + IdSize]) == e.id
  {
    EntryWindows(b, at, e, tail);
    DecodeEncode(e.id, IdSize);
  }

  /** The data fields of an exported entry read back after its id. */
  lemma {:induction false} EntryFieldsOn(b: seq<byte>, at: nat, e: Entry, tail: seq<byte>)
    requires at <= |b| && b[at..] == EntryBytes(e) + tail
    ensures FieldsAt(b, at + IdSize, e, ProofAt(at, e))
  {
    EntryWindows(b, at, e, tail);
    FieldsAtOf(b, at, e, ProofBytes(e.c, e.s) + (ZeroSlot() + tail));
  }

  lemma {:induction false} FieldsAtOf(b: seq<byte>, at: nat, e: Entry, rest: seq<byte>)
    requires at + IdSize <= |b| && b[at + IdSize..] == FieldsBytes(DataKinds, DataFields(e)) + rest
    ensures FieldsAt(b, at + IdSize, e, ProofAt(at, e))
  {
    var vs, n := DataFields(e), ProofAt(at, e);
    assert n == at + IdSize + IntSize * |DataKinds| + PresentSize(DataKinds, vs);
    ParseFieldsOn(DataKinds, vs, b, at + IdSize, rest, RejectZero);
  }

  lemma EntryProofOn(b: seq<byte>, at: nat, e: Entry, tail: seq<byte>)
    requires at <= |b| && b[at..] == EntryBytes(e) + tail
    ensures ParseProof(b, ProofAt(at, e)) == Some((e.c, e.s))
  {
    EntryWindows(b, at, e, tail);
    ParseProofOn(e.c, e.s, b, ProofAt(at, e), ZeroSlot() + tail);
  }

  /** An exported entry reads back from its bytes at offset at. */
  lemma EntryOn(b: seq<byte>, at: nat, e: Entry, tail: seq<byte>)
    requires e.id < Pow256(IdSize)
    requires at <= |b| && b[at..] == EntryBytes(e) + tail
    ensures ParseEntry(b, at) == Some(e)
  {
    EntryIdOn(b, at, e, tail);
    EntryFieldsOn(b, at, e, tail);
    EntryProofOn(b, at, e, tail);
    ParseEntryOf(b, at, e, ProofAt(at, e));
  }

  /** An exported entry reads back wherever it sits in the buffer. */
  lemma EntryRoundTrip(pre: seq<byte>, e: Entry, rest: seq<byte>)
    requires e.id < Pow256(IdSize)
    ensures ParseEntry(pre + EntryBytes(e) + rest, |pre|) == Some(e)
  {
    Assoc(pre, EntryBytes(e), rest);
    DropPrefix(pre, EntryBytes(e) + rest);
    EntryOn(pre + EntryBytes(e) + rest, |pre|, e, rest);
  }

  /** The entries of a ledger export, one after another. */
  function EntriesBytes(es: seq<Entry>): seq<byte>
  {
    if es == [] then [] else EntryBytes(es[0]) + EntriesBytes(es[1..])
  }

  lemma {:induction false} EntriesBytesSnoc(es: seq<Entry>, e: Entry)
    ensures EntriesBytes(es + [e]) == EntriesBytes(es) + EntryBytes(e)
  {
    if es != [] {
      assert (es + [e])[1..] == es[1..] + [e];
      EntriesBytesSnoc(es[1..], e);
    }
  }

  /** ksap23_gml_export's bytes: the count as a uint64_t, then every entry. */
  function GmlBytes(n: nat, es: seq<Entry>): seq<byte>
  {
    EncodeLE(n, IdSize) + EntriesBytes(es)
  }

  /** An entry import at an offset of the buffer (ParseEntry, for the ledger). */
  type EntryReader = (seq<byte>, nat) -> Option<Entry>

  /**
   * ksap23_gml_import's loop over the count read from the header: an entry
   * is imported at offset `read` (no bytes left there fails the import),
   * then `read` advances by `step`. The loop does not depend on the entry
   * format, so the entry import is a parameter.
   */
  function ParseEntries(entry: EntryReader, b: seq<byte>, read: nat, k: nat, step: nat): (r: Option<seq<Entry>>)
    ensures r.Some? ==> |r.value| == k
    decreases k
  {
    if k == 0 then Some([])
    else
      match entry(b, read)
      case None => None
      case Some(e) =>
        match ParseEntries(entry, b, read + step, k - 1, step)
        case None => None
        case Some(es) => Some([e] + es)
  }

  /** ksap23_gml_import with a given per-entry advance. */
  function ParseGml(b: seq<byte>, step: nat): (r: Option<seq<Entry>>)
    ensures r.Some? ==> |b| >= IdSize && |r.value| == DecodeLE(b[..IdSize])
  {
    if |b| < IdSize then None else ParseEntries(ParseEntry, b, IdSize, DecodeLE(b[..IdSize]), step)
  }

  /** The fixed import advance: the bytes an entry export actually takes. */
  function EntryStride(): nat
  {
    EntryGetSize() + IntSize + IdSize
  }

  predicate IdsFit(es: seq<Entry>)
  {
    forall i :: 0 <= i < |es| ==> es[i].id < Pow256(IdSize)
  }

  /** Entries written one after another read back when the import advances by the written size. */
  lemma {:induction false} EntriesRoundTrip(pre: seq<byte>, es: seq<Entry>, rest: seq<byte>)
    requires IdsFit(es)
    ensures ParseEntries(ParseEntry, pre + EntriesBytes(es) + rest, |pre|, |es|, EntryStride()) == Some(es)
  {
    var b, entry, step := pre + EntriesBytes(es) + rest, ParseEntry, EntryStride();
    forall i | 0 <= i < |es|
      ensures entry(b, |pre| + i * step) == Some(es[i])
    {
      EntryAt(pre, es, rest, i);
    }
    ParseEntriesAll(entry, b, |pre|, es, step);
  }

  /** Entry i of an export starts i strides after the first, and reads back there. */
  lemma {:induction false} EntryAt(pre: seq<byte>, es: seq<Entry>, rest: seq<byte>, i: nat)
    requires IdsFit(es) && i < |es|
    ensures ParseEntry(pre + EntriesBytes(es) + rest, |pre| + i * EntryStride()) == Some(es[i])
  {
    var front, e, back := EntriesBytes(es[..i]), es[i], EntriesBytes(es[i + 1..]);
    assert pre + EntriesBytes(es) + rest == (pre + front) + EntryBytes(e) + (back + rest) by {
      EntriesBytesAt(es, i);
      Regroup5(pre, front, EntryBytes(e), back, rest);
    }
    assert |pre + front| == |pre| + i * EntryStride() by {
      EntriesBytesLength(es[..i]);
    }
    EntryRoundTrip(pre + front, e, back + rest);
  }

  lemma Regroup5(a: seq<byte>, b: seq<byte>, c: seq<byte>, d: seq<byte>, e: seq<byte>)
    ensures a + (b + (c + d)) + e == (a + b) + c + (d + e)
  {
  }

  /** An export, split around its entry i. */
  lemma {:induction false} EntriesBytesAt(es: seq<Entry>, i: nat)
    requires i < |es|
    ensures EntriesBytes(es) == EntriesBytes(es[..i]) + (EntryBytes(es[i]) + EntriesBytes(es[i + 1..]))
  {
    if i == 0 {
      assert es[..0] == [];
      assert EntriesBytes(es) == [] + (EntryBytes(es[0]) + EntriesBytes(es[1..]));
    } else {
      var t := es[1..];
      EntriesBytesAt(t, i - 1);
      assert t[..i - 1] == es[..i][1..] && t[i - 1] == es[i] && t[i..] == es[i + 1..];
      assert EntriesBytes(es[..i]) == EntryBytes(es[0]) + EntriesBytes(t[..i - 1]);
      Assoc(EntryBytes(es[0]), EntriesBytes(t[..i - 1]), EntryBytes(es[i]) + EntriesBytes(es[i + 1..]));
    }
  }

  /** Every exported entry takes one stride. */
  lemma {:induction false} EntriesBytesLength(es: seq<Entry>)
    ensures |EntriesBytes(es)| == |es| * EntryStride()
  {
    if es != [] {
      EntriesBytesLength(es[1..]);
      EntryBytesLength(es[0]);
    }
  }

  /** Entries that read back one stride apart are read back by the import loop. */
  lemma {:induction false} ParseEntriesAll(entry: EntryReader, b: seq<byte>, at: nat, es: seq<Entry>, step: nat)
    requires forall i :: 0 <= i < |es| ==> entry(b, at + i * step) == Some(es[i])
    ensures ParseEntries(entry, b, at, |es|, step) == Some(es)
    decreases |es|
  {
    if es != [] {
      var tl := es[1..];
      forall i | 0 <= i < |tl|
        ensures entry(b, at + step + i * step) == Some(tl[i])
      {
        assert at + step + i * step == at + (i + 1) * step;
        assert tl[i] == es[i + 1];
      }
      ParseEntriesAll(entry, b, at + step, tl, step);
      assert entry(b, at + 0 * step) == Some(es[0]);
      assert [es[0]] + tl == es;
    }
  }

  /** With the fixed advance, importing an export gives back the entries. */
  lemma {:induction false} GmlRoundTripFixed(es: seq<Entry>)
    requires IdsFit(es) && |es| < Pow256(IdSize)
    ensures ParseGml(GmlBytes(|es|, es), EntryStride()) == Some(es)
  {
    var b := GmlBytes(|es|, es);
    assert b[..IdSize] == EncodeLE(|es|, IdSize);
    DecodeEncode(|es|, IdSize);
    EntriesRoundTrip(EncodeLE(|es|, IdSize), es, []);
    assert b == EncodeLE(|es|, IdSize) + EntriesBytes(es) + [];
  }

  /**
   * Read 280 bytes into an exported entry, an entry import finds the f1
   * length prefix on the entry's four zero bytes and fails.
   */
  lemma MisalignedEntryFails(pre: seq<byte>, e: Entry, tail: seq<byte>)
    ensures ParseEntry(pre + EntryBytes(e) + tail, |pre| + EntryGetSize()) == None
  {
    EntryWrittenLength(e);
    var b := pre + EntryBytes(e) + tail;
    var at := |pre| + EntryGetSize();
    assert b == (pre + EntryWritten(e)) + ZeroSlot() + tail;
    assert b[at + IdSize..] == ZeroSlot() + tail;
    GetZeroSlot(G1, tail);
    assert ReadSlot(G1, b, at + IdSize, RejectZero) == None;
    assert DataKinds[0] == G1;
  }

  /**
   * As written, the import advances by entry_get_size (280) while an entry
   * takes 292 bytes: the second entry is read from offset 288, where its f1
   * length prefix falls on the first entry's four zero bytes, so any ledger
   * of two or more entries fails to import.
   */
  lemma {:induction false} GmlImportAsWrittenFails(es: seq<Entry>)
    requires IdsFit(es) && 2 <= |es| < Pow256(IdSize)
    ensures ParseGml(GmlBytes(|es|, es), EntryGetSize()) == None
  {
    var b := GmlBytes(|es|, es);
    var head := EncodeLE(|es|, IdSize);
    assert b[..IdSize] == head;
    DecodeEncode(|es|, IdSize);
    var tail := EntriesBytes(es[1..]);
    assert b == head + EntryBytes(es[0]) + tail;
    MisalignedEntryFails(head, es[0], tail);
    ParseEntriesUnfold(ParseEntry, b, IdSize + EntryGetSize(), |es| - 1, EntryGetSize());
    ParseEntriesUnfold(ParseEntry, b, IdSize, |es|, EntryGetSize());
  }

  /** ksap23_gml_t: entries[0 .. n) are live; a removed slot holds NULL. */
  class Gml {
    var entries: seq<Option<Entry>>
    var n: nat

    /** ksap23_gml_init: an empty ledger. */
    constructor ()
      ensures entries == [] && n == 0 && Valid()
    {
      entries := [];
      n := 0;
    }

    /** The allocation holds at least n slots. */
    predicate Valid()
      reads this
    {
      n <= |entries|
    }
  }

  /**
   * ksap23_gml_get: entry i when i < n (possibly a NULL slot), NULL
   * otherwise. On a ledger with no NULL slot it is the i-th entry of the
   * export order.
   */
  function Get(gml: Gml?, i: int): (r: Option<Entry>)
    requires gml != null ==> gml.Valid()
    reads gml
    ensures r.Some? ==> gml != null && 0 <= i < gml.n && r == gml.entries[i]
    ensures gml != null && 0 <= i < gml.n ==> r == gml.entries[i]
    ensures gml != null && AllLive(gml.entries[..gml.n]) && 0 <= i < gml.n ==>
      r == Some(Live(gml.entries[..gml.n])[i])
  {
    if gml == null || i < 0 || i >= gml.n then None else gml.entries[i]
  }

  /**
   * ksap23_gml_insert: the allocation is resized to n + 1 slots (dropping any
   * slot beyond n) and the entry goes into slot n.
   */
  method Insert(gml: Gml?, e: Entry) returns (st: Status)
    requires gml != null ==> gml.Valid()
    modifies gml
    ensures st == Ok <==> gml != null
    ensures st != Ok ==> st == Error
    ensures gml != null ==>
      && gml.Valid()
      && gml.n == old(gml.n) + 1
      && gml.entries == old(gml.entries[..gml.n]) + [Some(e)]
      && Get(gml, old(gml.n)) == Some(e)
      && forall j :: 0 <= j < old(gml.n) ==> Get(gml, j) == old(Get(gml, j))
  {
    if gml == null {
      return Error;
    }
    gml.entries := gml.entries[..gml.n] + [Some(e)];
    gml.n := gml.n + 1;
    st := Ok;
  }

  /**
   * ksap23_gml_remove: slot i becomes NULL and n shrinks by one, without
   * shifting; the last live slot drops out of reach.
   */
  method Remove(gml: Gml?, i: int) returns (st: Status)
    requires gml != null ==> gml.Valid()
    modifies gml
    ensures st == Ok <==> gml != null && 0 <= i < old(gml.n)
    ensures st != Ok ==> st == Error
    ensures gml != null && st != Ok ==> gml.entries == old(gml.entries) && gml.n == old(gml.n)
    ensures gml != null && st == Ok ==>
      && gml.Valid()
      && gml.n == old(gml.n) - 1
      && gml.entries == old(gml.entries)[i := None]
      && Get(gml, i) == None
      && Get(gml, old(gml.n) - 1) == None
      && forall j :: 0 <= j < gml.n && j != i ==> Get(gml, j) == old(Get(gml, j))
  {
    if gml == null || i < 0 || i >= gml.n {
      return Error;
    }
    gml.entries := gml.entries[i := None];
    gml.n := gml.n - 1;
    st := Ok;
  }

  /** The live slots, all holding an entry. */
  predicate AllLive(slots: seq<Option<Entry>>)
  {
    forall i :: 0 <= i < |slots| ==> slots[i].Some?
  }

  function Live(slots: seq<Option<Entry>>): (es: seq<Entry>)
    requires AllLive(slots)
    ensures |es| == |slots| && forall i :: 0 <= i < |es| ==> slots[i] == Some(es[i])
  {
    if slots == [] then [] else [slots[0].value] + Live(slots[1..])
  }

  lemma LiveSnoc(slots: seq<Option<Entry>>, i: nat)
    requires i < |slots| && AllLive(slots[..i + 1])
    ensures Live(slots[..i + 1]) == Live(slots[..i]) + [slots[i].value]
  {
    var l, r := Live(slots[..i + 1]), Live(slots[..i]) + [slots[i].value];
    assert |l| == |r|;
    forall j | 0 <= j < |l| ensures l[j] == r[j] {
    }
  }

  /** The export loop over the live slots, in index order; a NULL slot fails. */
  method WriteEntries(slots: seq<Option<Entry>>) returns (ok: bool, out: seq<byte>)
    ensures ok == AllLive(slots)
    ensures ok ==> out == EntriesBytes(Live(slots))
  {
    out := [];
    var i := 0;
    assert WrittenSoFar(slots, 0, out);
    while i < |slots|
      invariant 0 <= i <= |slots|
      invariant WrittenSoFar(slots, i, out)
    {
      var slot := slots[i];
      if slot.None? {
        return false, [];
      }
      var bentry := EntryExport(slot.value);
      WriteStep(slots, i, out, bentry);
      out := out + bentry;
      i := i + 1;
    }
    assert slots[..|slots|] == slots;
    ok := true;
  }

  /** The first i slots are live and out holds their exports. */
  predicate WrittenSoFar(slots: seq<Option<Entry>>, i: nat, out: seq<byte>)
    requires i <= |slots|
  {
    AllLive(slots[..i]) && out == EntriesBytes(Live(slots[..i]))
  }

  lemma WriteStep(slots: seq<Option<Entry>>, i: nat, out: seq<byte>, bentry: seq<byte>)
    requires i < |slots| && slots[i].Some? && bentry == EntryBytes(slots[i].value)
    requires WrittenSoFar(slots, i, out)
    ensures WrittenSoFar(slots, i + 1, out + bentry)
  {
    assert slots[..i + 1] == slots[..i] + [slots[i]];
    LiveSnoc(slots, i);
    EntriesBytesSnoc(Live(slots[..i]), slots[i].value);
  }

  /**
   * ksap23_gml_export: the count, then each live entry's export in index
   * order; a NULL slot below n fails the export.
   */
  method Export(gml: Gml?) returns (st: Status, out: seq<byte>)
    requires gml != null ==> gml.Valid()
    ensures st == Ok <==> gml != null && AllLive(gml.entries[..gml.n])
    ensures st != Ok ==> st == Error
    ensures st == Ok ==> out == GmlBytes(gml.n, Live(gml.entries[..gml.n]))
  {
    if gml == null {
      return Error, [];
    }
    var ok, body := WriteEntries(gml.entries[..gml.n]);
    if !ok {
      return Error, [];
    }
    st, out := Ok, EncodeLE(gml.n, IdSize) + body;
  }

  /** The import loop: k entries from offset read, advancing by step. */
  method ReadEntries(entry: EntryReader, b: seq<byte>, read: nat, k: nat, step: nat) returns (r: Option<seq<Entry>>)
    ensures r == ParseEntries(entry, b, read, k, step)
  {
    ghost var want := ParseEntries(entry, b, read, k, step);
    var at: nat, es: seq<Entry>, left: nat := read, [], k;
    GlueEmpty(want);
    while left > 0
      invariant want == Glue(es, ParseEntries(entry, b, at, left, step))
    {
      var e := entry(b, at);
      if e.None? {
        ReadFails(entry, b, at, left, step, es, want);
        return None;
      }
      var es', at', left' := es + [e.value], at + step, left - 1;
      ReadStep(entry, b, at, left, step, es, e.value, want, es', at', left');
      es, at, left := es', at', left';
    }
    GlueNone(es);
    r := Some(es);
  }

  /** The slots of a freshly imported ledger. */
  function Slots(es: seq<Entry>): (slots: seq<Option<Entry>>)
    ensures |slots| == |es| && AllLive(slots) && Live(slots) == es
  {
    if es == [] then [] else [Some(es[0])] + Slots(es[1..])
  }

  /**
   * The body of ksap23_gml_import, with the per-entry advance as a
   * parameter: the count, then the entries.
   */
  method ImportWith(b: seq<byte>, step: nat) returns (gml: Gml?)
    ensures gml == null <==> ParseGml(b, step).None?
    ensures gml != null ==>
      && fresh(gml) && gml.Valid()
      && AllLive(gml.entries)
      && Live(gml.entries) == ParseGml(b, step).value
  {
    if |b| < IdSize {
      return null;
    }
    var n := DecodeLE(b[..IdSize]);
    var r := ReadEntries(ParseEntry, b, IdSize, n, step);
    if r.None? {
      return null;
    }
    gml := new Gml();
    gml.entries := Slots(r.value);
    gml.n := n;
  }

  /** The entries already read, put in front of what the rest of the loop reads. */
  function Glue(es: seq<Entry>, r: Option<seq<Entry>>): Option<seq<Entry>>
  {
    match r
    case None => None
    case Some(rs) => Some(es + rs)
  }

  lemma GlueEmpty(r: Option<seq<Entry>>)
    ensures Glue([], r) == r
  {
    if r.Some? {
      assert [] + r.value == r.value;
    }
  }

  lemma GlueNone(es: seq<Entry>)
    ensures Glue(es, Some([])) == Some(es)
  {
    assert es + [] == es;
  }

  lemma GlueAppend(es: seq<Entry>, e: Entry, r: Option<seq<Entry>>)
    ensures Glue(es, Glue([e], r)) == Glue(es + [e], r)
  {
    if r.Some? {
      assert es + ([e] + r.value) == (es + [e]) + r.value;
    }
  }

  /** One more entry read at `at`: it joins those already read. */
  lemma ReadStep(entry: EntryReader, b: seq<byte>, at: nat, left: nat, step: nat, es: seq<Entry>, e: Entry,
                 want: Option<seq<Entry>>, es': seq<Entry>, at': nat, left': nat)
    requires left > 0 && entry(b, at) == Some(e)
    requires want == Glue(es, ParseEntries(entry, b, at, left, step))
    requires es' == es + [e] && at' == at + step && left' == left - 1
    ensures want == Glue(es', ParseEntries(entry, b, at', left', step))
  {
    ParseEntriesUnfold(entry, b, at, left, step);
    GlueAppend(es, e, ParseEntries(entry, b, at', left', step));
  }

  /** An entry that does not read fails the whole import. */
  lemma ReadFails(entry: EntryReader, b: seq<byte>, at: nat, left: nat, step: nat, es: seq<Entry>, want: Option<seq<Entry>>)
    requires left > 0 && entry(b, at).None?
    requires want == Glue(es, ParseEntries(entry, b, at, left, step))
    ensures want == None
  {
    ParseEntriesUnfold(entry, b, at, left, step);
  }

  lemma ParseEntriesUnfold(entry: EntryReader, b: seq<byte>, read: nat, k: nat, step: nat)
    requires k > 0
    ensures entry(b, read).None? ==> ParseEntries(entry, b, read, k, step) == None
    ensures entry(b, read).Some? ==>
      ParseEntries(entry, b, read, k, step) == Glue([entry(b, read).value], ParseEntries(entry, b, read + step, k - 1, step))
  {
  }

  /** ksap23_gml_import as written: entries are stepped by entry_get_size. */
  method Import(b: seq<byte>) returns (gml: Gml?)
    ensures gml == null <==> ParseGml(b, EntryGetSize()).None?
    ensures gml != null ==>
      fresh(gml) && gml.Valid() && AllLive(gml.entries) && Live(gml.entries) == ParseGml(b, EntryGetSize()).value
  {
    gml := ImportWith(b, EntryGetSize());
  }

  /** ksap23_gml_import stepping by the bytes an entry export takes. */
  method ImportFixed(b: seq<byte>) returns (gml: Gml?)
    ensures gml == null <==> ParseGml(b, EntryStride()).None?
    ensures gml != null ==>
      fresh(gml) && gml.Valid() && AllLive(gml.entries) && Live(gml.entries) == ParseGml(b, EntryStride()).value
  {
    gml := ImportWith(b, EntryStride());
  }
}
