/**
 * Shared vocabulary of the KSAP23 model: the library's three return codes,
 * pointer-or-NULL values, and the scheme constants of ksap23.h.
 */
module Common {
  /** IOK, IFAIL and IERROR. */
  datatype Status = Ok | Fail | Error

  /** A field that the C code keeps as a pointer that may be NULL. */
  datatype Option<T> = None | Some(value: T)

  /** GROUPSIG_ksap23_CODE. */
  const SchemeCode: int := 5
  /** KSAP23_JOIN_START: the manager sends the first join message. */
  const JoinStart: int := 0
  /** KSAP23_JOIN_SEQ: the join protocol has three messages (0 .. 3). */
  const JoinSeq: int := 3

  /** Key type bytes GROUPSIG_KEY_GRPKEY, _MGRKEY and _MEMKEY. */
  const GrpKeyType: int := 0
  const MgrKeyType: int := 1
  const MemKeyType: int := 2

  /** UINT16_MAX and UINT64_MAX, the widths of ns and of a ledger id. */
  const U16Max: int := 0xFFFF
  const U64Max: int := 0xFFFF_FFFF_FFFF_FFFF

  predicate AllSome<T>(vs: seq<Option<T>>)
  {
    forall i :: 0 <= i < |vs| ==> vs[i].Some?
  }
}
