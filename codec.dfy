/**
 * Byte-level encodings used throughout the KSAP23 code:
 *   - pbcext_element_*_to_bytes: the bare fixed-width encoding of an element,
 *   - pbcext_dump_element_*_bytes: a 4-byte length prefix, then the encoding,
 *   - pbcext_get_element_*_bytes: the reader of a dump (a zero prefix reads
 *     as "nothing here", length 0),
 *   - hash_init/update/finalize and pbcext_element_*_from_hash.
 * An element (a residue below R) is encoded as a little-endian integer of
 * the element's byte size (Fr 32, G1 48, G2 96 bytes on BLS12-381).
 */
module Codec {
  import opened Common
  import opened Field

  newtype byte = b: int | 0 <= b < 256

  /** sizeof(int), the width of a dump's length prefix. */
  const IntSize: nat := 4

  datatype Kind = Fr | G1 | G2

  /** pbcext_element_*_byte_size. */
  function ByteSize(k: Kind): nat
  {
    match k
    case Fr => 32
    case G1 => 48
    case G2 => 96
  }

  function Pow256(n: nat): (p: nat)
    ensures p > 0
  {
    if n == 0 then 1 else 256 * Pow256(n - 1)
  }

  /** Little-endian encoding of v in n bytes (v is truncated to n bytes). */
  function EncodeLE(v: nat, n: nat): (r: seq<byte>)
    ensures |r| == n
  {
    if n == 0 then [] else [(v % 256) as byte] + EncodeLE(v / 256, n - 1)
  }

  function DecodeLE(s: seq<byte>): nat
  {
    if |s| == 0 then 0 else s[0] as int + 256 * DecodeLE(s[1..])
  }

  /** A decoded value fits the bytes it was read from. */
  lemma {:induction false} DecodeBound(s: seq<byte>)
    ensures DecodeLE(s) < Pow256(|s|)
  {
    if |s| > 0 { DecodeBound(s[1..]); }
  }

  /** Decoding inverts encoding for every value that fits. */
  lemma {:induction false} DecodeEncode(v: nat, n: nat)
    requires v < Pow256(n)
    ensures DecodeLE(EncodeLE(v, n)) == v
  {
    if n > 0 {
      var e := EncodeLE(v, n);
      assert e[1..] == EncodeLE(v / 256, n - 1);
      DecodeEncode(v / 256, n - 1);
    }
  }

  /** Encoding is injective on values that fit. */
  lemma EncodeInjective(a: nat, b: nat, n: nat)
    requires a < Pow256(n) && b < Pow256(n)
    ensures EncodeLE(a, n) == EncodeLE(b, n) ==> a == b
  {
    DecodeEncode(a, n);
    DecodeEncode(b, n);
  }

  lemma {:induction false} PowMono(m: nat, n: nat)
    requires m <= n
    ensures Pow256(m) <= Pow256(n)
  {
    if m < n { PowMono(m, n - 1); }
  }

  lemma {:induction false} PowAdd(m: nat, n: nat)
    ensures Pow256(m + n) == Pow256(m) * Pow256(n)
  {
    if m > 0 {
      PowAdd(m - 1, n);
      assert Pow256(m + n) == 256 * Pow256(m - 1 + n);
    }
  }

  lemma Pow256Of32()
    ensures Pow256(32) == 0x1_0000_0000_0000_0000_0000_0000_0000_0000_0000_0000_0000_0000_0000_0000_0000_0000
  {
    assert Pow256(2) == 0x1_0000;
    PowAdd(2, 2);
    assert Pow256(4) == 0x1_0000_0000;
    PowAdd(4, 4);
    assert Pow256(8) == 0x1_0000_0000_0000_0000;
    PowAdd(8, 8);
    assert Pow256(16) == 0x1_0000_0000_0000_0000_0000_0000_0000_0000;
    PowAdd(16, 16);
  }

  /** Every residue fits the byte size of every kind. */
  lemma ElemFits(k: Kind, x: Elem)
    ensures x < Pow256(ByteSize(k))
  {
    Pow256Of32();
    PowMono(32, ByteSize(k));
  }

  /** pbcext_element_*_to_bytes. */
  function ToBytes(k: Kind, x: Elem): (r: seq<byte>)
    ensures |r| == ByteSize(k)
  {
    EncodeLE(x, ByteSize(k))
  }

  /** pbcext_dump_element_*_bytes: length prefix, then the encoding. */
  function Dump(k: Kind, x: Elem): (r: seq<byte>)
    ensures |r| == IntSize + ByteSize(k)
  {
    EncodeLE(ByteSize(k), IntSize) + ToBytes(k, x)
  }

  /** The four zero bytes that read back as "no element". */
  function ZeroSlot(): (r: seq<byte>)
    ensures |r| == IntSize
  {
    EncodeLE(0, IntSize)
  }

  /** What pbcext_get_element_*_bytes reads at the head of a buffer. */
  datatype Got = Absent | Got(x: Elem, len: nat) | Bad

  function GetElem(k: Kind, b: seq<byte>): (r: Got)
    ensures r.Got? ==> r.len == IntSize + ByteSize(k) && r.len <= |b|
  {
    if |b| < IntSize then Bad
    else
      var size := DecodeLE(b[..IntSize]);
      if size == 0 then Absent
      else if size != ByteSize(k) || |b| < IntSize + size then Bad
      else
        var v := DecodeLE(b[IntSize..IntSize + size]);
        if v < R then Got(v, IntSize + size) else Bad
  }

  /** Reading back a dump yields the element and the dump's length. */
  lemma GetDump(k: Kind, x: Elem, rest: seq<byte>)
    ensures GetElem(k, Dump(k, x) + rest) == Got(x, IntSize + ByteSize(k))
  {
    var b := Dump(k, x) + rest;
    assert b[..IntSize] == EncodeLE(ByteSize(k), IntSize);
    assert ByteSize(k) < Pow256(IntSize);
    DecodeEncode(ByteSize(k), IntSize);
    assert b[IntSize..IntSize + ByteSize(k)] == ToBytes(k, x);
    ElemFits(k, x);
    DecodeEncode(x, ByteSize(k));
  }

  /** Four zero bytes read back as an absent element. */
  lemma GetZeroSlot(k: Kind, rest: seq<byte>)
    ensures GetElem(k, ZeroSlot() + rest) == Absent
  {
    var b := ZeroSlot() + rest;
    assert b[..IntSize] == EncodeLE(0, IntSize);
    DecodeEncode(0, IntSize);
  }

  /** The byte string fed to a hash for a list of G1 elements, in order. */
  function ElemsBytes(es: seq<Elem>): (r: seq<byte>)
    ensures |r| == ByteSize(G1) * |es|
  {
    if es == [] then [] else ElemsBytes(es[..|es| - 1]) + ToBytes(G1, es[|es| - 1])
  }

  lemma Halves(p: seq<byte>, q: seq<byte>, p': seq<byte>, q': seq<byte>)
    requires |p| == |p'| && p + q == p' + q'
    ensures p == p' && q == q'
  {
    assert p == (p + q)[..|p|] && p' == (p' + q')[..|p|];
    assert q == (p + q)[|p|..] && q' == (p' + q')[|p|..];
  }

  /** The last element of a list is recovered from the tail of its transcript. */
  lemma LastElemInjective(x: Elem, y: Elem)
    requires ToBytes(G1, x) == ToBytes(G1, y)
    ensures x == y
  {
    ElemFits(G1, x);
    ElemFits(G1, y);
    EncodeInjective(x, y, 48);
  }

  /** Distinct element lists of one length give distinct transcripts. */
  lemma {:induction false} ElemsBytesInjective(a: seq<Elem>, b: seq<Elem>)
    requires |a| == |b|
    ensures ElemsBytes(a) == ElemsBytes(b) ==> a == b
  {
    if a != [] && ElemsBytes(a) == ElemsBytes(b) {
      var n := |a| - 1;
      var pa, pb := ElemsBytes(a[..n]), ElemsBytes(b[..n]);
      var qa, qb := ToBytes(G1, a[n]), ToBytes(G1, b[n]);
      Halves(pa, qa, pb, qb);
      ElemsBytesInjective(a[..n], b[..n]);
      LastElemInjective(a[n], b[n]);
      assert a == a[..n] + [a[n]];
      assert b == b[..n] + [b[n]];
    }
  }

  /** The two hash algorithms the KSAP23 code uses. */
  datatype HashAlg = Sha1 | Blake2

  function DigestSize(alg: HashAlg): nat
  {
    match alg
    case Sha1 => 20
    case Blake2 => 64
  }

  /**
   * Stand-in for hash_finalize over everything passed to hash_update.
   * The model only ever relies on Hash being a function of the algorithm
   * and the transcript; this particular mixing is arbitrary.
   */
  function Hash(alg: HashAlg, t: seq<byte>): (d: seq<byte>)
    ensures |d| == DigestSize(alg)
  {
    EncodeLE(Mix(t), DigestSize(alg))
  }

  function Mix(t: seq<byte>): nat
  {
    if t == [] then 1 else Mix(t[..|t| - 1]) * 257 + t[|t| - 1] as int
  }

  /** pbcext_element_Fr_from_hash (stand-in). */
  function FrFromHash(d: seq<byte>): Elem
  {
    DecodeLE(d) % R
  }

  /** pbcext_element_G1_from_hash (stand-in). */
  function G1FromHash(d: seq<byte>): Elem
  {
    (DecodeLE(d) + 1) % R
  }

  /**
   * Hashing a G1 element into G1, as setup does for h = Hash(g) and the
   * join for u = Hash(f1): Blake2 over the element's dump, then
   * pbcext_element_G1_from_hash.
   */
  function HashG1(x: Elem): Elem
  {
    G1FromHash(Hash(Blake2, Dump(G1, x)))
  }

  /**
   * hash_update over a list of G1 elements: each element's bytes are
   * appended to the transcript in array order.
   */
  method AppendElems(t: seq<byte>, elems: seq<Elem>) returns (t': seq<byte>)
    ensures t' == t + ElemsBytes(elems)
  {
    t' := t;
    var i := 0;
    while i < |elems|
      invariant 0 <= i <= |elems|
      invariant t' == t + ElemsBytes(elems[..i])
    {
      assert elems[..i + 1][..i] == elems[..i];
      t' := t' + ToBytes(G1, elems[i]);
      i := i + 1;
    }
    assert elems[..|elems|] == elems;
  }

  /**
   * The Fiat-Shamir challenge of the KSAP23 proofs: the elements in array
   * order, then the message, hashed and mapped to Fr.
   */
  method HashToFr(alg: HashAlg, elems: seq<Elem>, m: seq<byte>) returns (c: Elem)
    ensures c == FrFromHash(Hash(alg, ElemsBytes(elems) + m))
  {
    var t := AppendElems([], elems);
    assert t == ElemsBytes(elems);
    t := t + m;
    c := FrFromHash(Hash(alg, t));
  }
}
