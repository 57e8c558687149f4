# KSAP23 accountable group signatures: a Dafny model

This project models the KSAP23 scheme of libgroupsig (`src/groupsig/ksap23/`) and the proofs of knowledge it uses (`src/crypto/spk.c`), and proves properties of the model. It covers:

- the byte serialisers of the group, manager and member keys and of signatures;
- the group membership list (GML): a ledger with insert, remove, get, export and import;
- the sigma-protocol engine: the Schnorr discrete-log proof and the generic representation proof;
- the three KSAP23 proofs: NIZK1 binds a join request, SNIZK2 signs, NIZK3 opens;
- the scheme itself: two-call setup, the member and manager halves of the join, sign, verify, open and judge.

Modelling choices:

- **Exponent abstraction.** Every G1, G2 or GT element and every Fr scalar is its discrete logarithm, an `Elem` in `[0, R)`, where R is the BLS12-381 group order.
  - The group operation is addition mod R.
  - `pbcext_element_*_mul` is multiplication mod R.
  - The pairing is multiplication mod R, and GT's operation is addition.
  - Completeness of every proof, and the pairing equations, become modular identities proved in module `Field`.
- **Element codec.** An element is written as a little-endian integer of the element's byte size: Fr 32, G1 48, G2 96. The pbcext dump puts a 4-byte length prefix before it, and a zero prefix marks an absent element.
- **Hashes.** Hashes and hash-to-group are fixed functions of the transcript bytes. Only the fact that prover and verifier hash the same bytes is used.
- **Inputs in place of effects.** Random draws (keys, nonces, the join nonce n, the signing randomness) are parameters. `None` stands for a failed draw.
- **Return codes.** NULL pointers are `Option`/nullable references. IOK, IFAIL and IERROR are `Status`. The caller's `*ok` and `*index` keep their prior value on the paths where the C code leaves them unwritten (parameter `prior` of the proof verifiers, `Verify`, `Open` and `Judge`). `spk_dlog_G1_verify` is a function whose IERROR is `None`.
- **Objects.** Keys, signatures, the `spk_rep_t` proof and the ledger are classes whose methods update their fields in place.
- **Loops.** The loops of the C code (hashing element arrays, grouping products, copying responses, writing and reading the ledger, the open scan) are `while` loops proved against recursive specification functions.
- **Constants.** The key type bytes GROUPSIG_KEY_GRPKEY/MGRKEY/MEMKEY are 0, 1 and 2; key.h is not part of this model. `mem_malloc` is taken to return zeroed memory, so fresh fields are NULL.
- **Proof layout.** `spk_rep_export` is not part of this model. A one-response proof is taken to export as dump(c) ‖ dump(s[0]), which is the layout the GML entry importer reads.

Where the code and its evident intent disagree, the model follows the code and adds a corrected twin; see "## Findings". Two exceptions are modelled by intent only, with no as-written twin: the storage of the NIZK1 response and the memory handling of SNIZK2 (see "## Left out").

## Model

| member | source | states |
|---|---|---|
| Codec.DecodeEncode | src/groupsig/ksap23/gml.c:361-363 | decoding the little-endian encoding of a value that fits gives the value back |
| Codec.EncodeInjective | src/groupsig/ksap23/gml.c:361-363 | two values that fit in n bytes with the same n-byte encoding are equal |
| Codec.GetDump | src/groupsig/ksap23/mgr_key.c:317-367 | reading a dumped element gives the element and consumes prefix plus element bytes, whatever follows |
| Codec.GetZeroSlot | src/groupsig/ksap23/mgr_key.c:317-367 | a zero length prefix reads as "nothing here" |
| Codec.ElemsBytesInjective | src/groupsig/ksap23/nizk.c:56-62 | equal-length element lists with the same transcript bytes are equal |
| Codec.AppendElems | src/groupsig/ksap23/nizk.c:56-62 | the hashing loop appends every element's bytes in array order |
| Codec.HashToFr | src/groupsig/ksap23/nizk.c:167-185 | the challenge is the hash of the elements in order, then the message, mapped to Fr |
| Layout.FieldsBytesLength | src/groupsig/ksap23/mgr_key.c:148-172 | a field table takes one 4-byte prefix per field plus the sizes of the present elements |
| Layout.WriteFields | src/groupsig/ksap23/grp_key.c:223-271 | the export loop succeeds exactly when the NULL policy allows the fields, and then writes every slot in table order |
| Layout.ReadFields | src/groupsig/ksap23/grp_key.c:338-385 | the import loop at a running counter computes the field parser |
| Layout.ParseFieldsBack | src/groupsig/ksap23/mgr_key.c:317-367 | parsing a written table gives back its fields and the counter just past it |
| Layout.RecordRoundTrip | src/groupsig/ksap23/mgr_key.c:174-367 | importing an exported record (header, then fields) gives back the fields, whatever follows |
| Layout.ExportRecord | src/groupsig/ksap23/grp_key.c:193-298 | export is IOK exactly when the fields can be written and the bytes written equal get_size; then the output is the record |
| Layout.ImportRecord | src/groupsig/ksap23/grp_key.c:300-394 | import checks the header and reads the fields in export order |
| Layout.Overlay | src/groupsig/ksap23/mgr_key.c:106-144 | a copy takes every present source field and keeps the destination's field where the source is NULL |
| Spk.DlogSign | src/crypto/spk.c:57-127 | a NULL argument or an empty message is IERROR; the challenge hashes msg, G, g and the commitment g^r; s + c x = r |
| Spk.DlogVerify | src/crypto/spk.c:129-197 | IERROR exactly on a NULL argument or an empty message |
| Spk.DlogComplete | src/crypto/spk.c:57-197 | a proof made for G = g^x verifies |
| Spk.DlogRoundTrip | src/crypto/spk.c:247-366 | import reads back exactly the exported proof (s, then c) and consumes its whole length |
| Spk.SpkRep.constructor | src/crypto/spk.c:368-385 | a fresh proof has no challenge and ns empty responses |
| Spk.RepCopy | src/crypto/spk.c:410-444 | a NULL dst or src is IERROR, and a NULL src leaves dst untouched; on IOK dst holds src's c and every response; on failure dst.c and dst.s[i] for i < src.ns are NULL |
| Spk.IndexBytesInjective | src/crypto/spk.c:551-556 | the 4-byte little-endian encoding of index pairs is injective |
| Spk.AppendIndices | src/crypto/spk.c:551-556 | the index loop appends every pair's four bytes in order |
| Spk.Group | src/crypto/spk.c:493-517 | product j covers the prods[j] consecutive terms starting at the sum of the earlier prods |
| Spk.SignProductsLoop | src/crypto/spk.c:493-517 | the signer's cursor loop computes each product over its slice |
| Spk.VerifyProductsLoop | src/crypto/spk.c:652-673 | the verifier's cursor loop computes y[j]^c times its slice of g^s terms |
| Spk.RepSign | src/crypto/spk.c:446-618 | IERROR on empty y, g, index table or message; on IOK c is the challenge over msg, y, g, the indices and the products, and s[j] = r[j] - c x[j] |
| Spk.RepVerify | src/crypto/spk.c:620-754 | IERROR on a NULL proof or empty arguments, with ok left at its prior value; on IOK ok says whether the recomputed challenge equals c |
| Spk.RepComplete | src/crypto/spk.c:446-754 | when every y[j] is the product of its terms, the verifier recomputes the signer's challenge |
| Nizk.Nizk1Sign | src/groupsig/ksap23/nizk.c:14-96 | any NULL input is IERROR with pi untouched; otherwise c hashes g, h, u, f1, f2, w and the three commitments, and s = k - c alpha |
| Nizk.Nizk1Verify | src/groupsig/ksap23/nizk.c:98-210 | any NULL input is IERROR with ok left at its prior value; otherwise ok is 1 exactly when the rebuilt challenge equals c |
| Nizk.Nizk1Complete | src/groupsig/ksap23/nizk.c:14-210 | with f1 = g^alpha, f2 = h^alpha, w = u^alpha the proof verifies |
| Nizk.Snizk2Sign | src/groupsig/ksap23/nizk.c:212-347 | any NULL input is IERROR; c hashes the 9 statement elements, the 4 commitments and m; s1 = k1 - c alpha, s2 = k2 - c s |
| Nizk.Snizk2Verify | src/groupsig/ksap23/nizk.c:349-474 | any NULL input is IERROR with ok left at its prior value; otherwise ok is 1 exactly when the rebuilt challenge equals c |
| Nizk.Snizk2Complete | src/groupsig/ksap23/nizk.c:212-474 | with tw = tu^alpha, c0 = g^s, c1 = g^alpha D1^s, c2 = h^alpha D2^s the proof verifies |
| Nizk.Nizk3Sign | src/groupsig/ksap23/nizk.c:476-618 | as written: c over the 8 statement elements, the commitments and m; s1 = k1 - c d1, s2 = k2 - c d2 |
| Nizk.Nizk3Verify | src/groupsig/ksap23/nizk.c:620-770 | as written: a NULL input is IERROR with ok left at its prior value; otherwise ok is 1 exactly when the rebuilt challenge equals c |
| Nizk.Nizk3Incomplete | src/groupsig/ksap23/nizk.c:540-712 | for g = 1, d1 = 2, k1 = 0, c = 1 and any other inputs, the second commitment of `Nizk3Rebuilt` is R - 3 while that of `Nizk3Commitments` is 0 |
| Nizk.Nizk3SignFixed | src/groupsig/ksap23/nizk.c:476-618 | the corrected prover commits to c0^k1 and c0^k2 for the two quotients |
| Nizk.Nizk3VerifyFixed | src/groupsig/ksap23/nizk.c:620-770 | the corrected verifier rebuilds the commitments from the same bases |
| Nizk.Nizk3FixedComplete | src/groupsig/ksap23/nizk.c:517-527 | when c1/f1 = c0^d1 and c2/f2 = c0^d2, the corrected proof verifies |
| GroupKey.GrpKey.constructor | src/groupsig/ksap23/grp_key.c:39-64 | all seven fields are NULL |
| GroupKey.Copy | src/groupsig/ksap23/grp_key.c:99-162 | a NULL dst or src is IERROR, and a NULL src leaves dst untouched; otherwise IOK exactly when every source field is present, and then dst equals src; on failure every dst field is NULL |
| GroupKey.BytesLength | src/groupsig/ksap23/grp_key.c:164-191 | a full export takes 2 + 7 prefixes + the element sizes, 4 bytes more than get_size |
| GroupKey.Export | src/groupsig/ksap23/grp_key.c:193-298 | as written: always IERROR and no size; a NULL field hands over nothing, while a complete key's bytes (GetSize + 4 of them) reach the caller before the failing ctr check |
| GroupKey.ExportFixed | src/groupsig/ksap23/grp_key.c:193-298 | IOK exactly for a key with every field present; the output is code, type, then g, gg, XX, YY, ZZ0, ZZ1, h |
| GroupKey.Parse | src/groupsig/ksap23/grp_key.c:300-394 | a parse succeeds only under code 5 and the GRPKEY type byte, with all seven fields |
| GroupKey.Import | src/groupsig/ksap23/grp_key.c:300-394 | import yields a fresh key holding the parsed fields, or NULL when the parse fails |
| GroupKey.RoundTrip | src/groupsig/ksap23/grp_key.c:223-385 | import(export(k)) = k, whatever follows the bytes |
| ManagerKey.MgrKey.constructor | src/groupsig/ksap23/mgr_key.c:36-59 | x, y, z0 and z1 are NULL |
| ManagerKey.Copy | src/groupsig/ksap23/mgr_key.c:91-146 | IOK exactly for two keys, and a NULL src leaves dst untouched; dst takes exactly the present source fields |
| ManagerKey.Export | src/groupsig/ksap23/mgr_key.c:174-277 | IOK for any key; a NULL field becomes a zero prefix; the length equals get_size |
| ManagerKey.Parse | src/groupsig/ksap23/mgr_key.c:279-376 | a parse succeeds only under code 5 and the MGRKEY type byte |
| ManagerKey.Import | src/groupsig/ksap23/mgr_key.c:279-376 | import yields a fresh key holding the parsed fields, or NULL |
| ManagerKey.RoundTrip | src/groupsig/ksap23/mgr_key.c:204-367 | import(export(k)) = k, presence of each field included |
| MemberKey.MemKey.constructor | src/groupsig/ksap23/mem_key.c:37-63 | all six fields are NULL |
| MemberKey.CopyAsWritten | src/groupsig/ksap23/mem_key.c:116-205 | the copy fails exactly when src has u but no f1 |
| MemberKey.CopyDropsF1 | src/groupsig/ksap23/mem_key.c:139-144 | a source with f1 but no u copies successfully and loses f1 |
| MemberKey.Copy | src/groupsig/ksap23/mem_key.c:116-205 | as written: a NULL src leaves dst untouched; otherwise the result is CopyAsWritten, and on failure every dst field is NULL |
| MemberKey.CopyFixed | src/groupsig/ksap23/mem_key.c:116-205 | IOK exactly for two keys, and a NULL src leaves dst untouched; dst takes exactly the present source fields |
| MemberKey.Export | src/groupsig/ksap23/mem_key.c:234-345 | as written: always IERROR with no output |
| MemberKey.ExportFixed | src/groupsig/ksap23/mem_key.c:234-345 | IOK for any key; code, type, then alpha, f1, f2, u, v, w with zero prefixes for NULL fields |
| MemberKey.Parse | src/groupsig/ksap23/mem_key.c:347-464 | a parse succeeds only under code 5 and the MEMKEY type byte |
| MemberKey.Import | src/groupsig/ksap23/mem_key.c:347-464 | import yields a fresh key holding the parsed fields, or NULL |
| MemberKey.RoundTrip | src/groupsig/ksap23/mem_key.c:264-455 | import(export(k)) = k, presence of each field included |
| Signatures.Signature.constructor | src/groupsig/ksap23/signature.c:38-62 | the six elements and pi are NULL |
| Signatures.Copy | src/groupsig/ksap23/signature.c:113-194 | a NULL dst or src is IERROR, and a NULL src leaves dst untouched; otherwise IOK exactly when all six source elements are present, and then dst holds them; on failure all six are NULL; pi is not copied |
| Signatures.BytesLength | src/groupsig/ksap23/signature.c:196-225 | a full export takes 313 bytes, 60 fewer than get_size |
| Signatures.Export | src/groupsig/ksap23/signature.c:227-328 | as written: always IERROR with no output |
| Signatures.ExportFixed | src/groupsig/ksap23/signature.c:227-328 | IOK exactly for a signature with all six elements; the output is the code byte, then uu, vv, ww, c0, c1, c2 |
| Signatures.Parse | src/groupsig/ksap23/signature.c:330-425 | a parse succeeds only under code 5, with all six elements |
| Signatures.Import | src/groupsig/ksap23/signature.c:330-425 | import yields a fresh signature with the parsed elements and no pi, or NULL |
| Signatures.RoundTrip | src/groupsig/ksap23/signature.c:254-417 | import(export(s)) restores the six elements |
| Ledger.Gml.constructor | src/groupsig/ksap23/gml.c:35-50 | a new ledger has n = 0 and no entries |
| Ledger.Insert | src/groupsig/ksap23/gml.c:75-95 | the entry lands at position n, n grows by one, earlier entries are unchanged |
| Ledger.Remove | src/groupsig/ksap23/gml.c:97-119 | i >= n is IERROR and changes nothing; otherwise slot i becomes NULL, n drops by one, and the former last entry is out of reach |
| Ledger.Get | src/groupsig/ksap23/gml.c:121-136 | a NULL ledger or an index at or past n gives NULL; an index below n gives that slot, which may be NULL after a remove; on a ledger without NULL slots it is the entry at that position of the export |
| Ledger.EntryExport | src/groupsig/ksap23/gml.c:340-412 | an entry exports as id, f1, f2, u, w, proof, then four unwritten zero bytes, 292 bytes in all |
| Ledger.EntryBytesLength | src/groupsig/ksap23/gml.c:306-357 | the exported entry is get_size + sizeof(int) + 8 = 292 bytes |
| Ledger.EntryRoundTrip | src/groupsig/ksap23/gml.c:414-558 | importing an exported entry at its offset gives back the entry |
| Ledger.WriteEntries | src/groupsig/ksap23/gml.c:155-178 | the export loop succeeds when every slot is live and writes every entry in index order |
| Ledger.Export | src/groupsig/ksap23/gml.c:138-190 | the export is the 8-byte count followed by every entry |
| Ledger.ReadEntries | src/groupsig/ksap23/gml.c:213-229 | the import loop reads count entries, advancing by a fixed step |
| Ledger.EntriesRoundTrip | src/groupsig/ksap23/gml.c:213-229 | entries written one after another read back when the step is the written size |
| Ledger.GmlRoundTripFixed | src/groupsig/ksap23/gml.c:138-241 | the corrected import reads back every exported ledger |
| Ledger.MisalignedEntryFails | src/groupsig/ksap23/gml.c:225-229 | reading an entry get_size bytes after the start of an exported entry fails |
| Ledger.GmlImportAsWrittenFails | src/groupsig/ksap23/gml.c:192-241 | as written, importing an exported ledger of two or more entries fails |
| Ledger.Import | src/groupsig/ksap23/gml.c:192-241 | import as written: the ledger parsed with a step of get_size, or NULL |
| Ledger.ImportFixed | src/groupsig/ksap23/gml.c:192-241 | import with a step of the exported entry size |
| Join.GetJoinSeq | src/groupsig/ksap23/join_mgr.c:35-38 | the last join message is number 3 |
| Join.GetJoinStart | src/groupsig/ksap23/join_mgr.c:40-43 | the manager sends message 0 |
| Join.RequestFor | src/groupsig/ksap23/join_mem.c:98-140 | f1 = g^alpha, f2 = h^alpha, u = Hash(f1), w = u^alpha |
| Join.RequestLayout | src/groupsig/ksap23/join_mem.c:157-200 | the member's message is the five dumps followed by the proof |
| Join.RequestRoundTrip | src/groupsig/ksap23/join_mgr.c:144-166 | the manager's parse gives back exactly the member's request |
| Join.RequestAccepted | src/groupsig/ksap23/join_mgr.c:144-197 | an honest member's request parses and passes the NIZK1 check against Hash(f1) |
| Join.JoinCorrect | src/groupsig/ksap23/join_mgr.c:199-210 | v = u^x w^y satisfies e(v, gg) = e(u, XX) e(w, YY) when XX = gg^x, YY = gg^y |
| Join.JoinCompletes | src/groupsig/ksap23/join_mem.c:229-257 | the manager's answer reads back at seq 3 and passes the member's pairing check |
| Join.CredentialScaled | src/groupsig/ksap23/verify.c:106-114 | raising u, v and w to a common r keeps the pairing equation |
| Join.JoinMem | src/groupsig/ksap23/join_mem.c:51-317 | steps other than 1 and 3 are IERROR; seq 1 stores the key values and outputs the request; seq 3 stores v and is IOK exactly when the pairing check holds; failures reset the fields of their step |
| Join.RequestStep | src/groupsig/ksap23/join_mem.c:88-200 | the seq-1 body is IOK exactly when n reads and alpha, g, h are present, and then builds the request |
| Join.CredentialStep | src/groupsig/ksap23/join_mem.c:229-257 | the seq-3 body is IOK exactly when v reads and the pairing check holds |
| Join.JoinMgr | src/groupsig/ksap23/join_mgr.c:67-228 | steps other than 0 and 2 are IERROR; seq 0 answers dump(n); seq 2 is IOK exactly when the request parses and passes NIZK1, then appends (n_entries, f1, f2, u, w, pi) and answers dump(u^x w^y); every failure leaves the ledger unchanged |
| Setup.Setup | src/groupsig/ksap23/setup.c:47-191 | NULL is IERROR; without g, IOK exactly when x, y, g, gg are drawn, setting XX, YY and h; with g, IOK exactly when z0, z1 are drawn, setting ZZ0, ZZ1 and keeping the issuer half; failures reset the fields of the call |
| Setup.IssuerKeys | src/groupsig/ksap23/setup.c:79-130 | the first call sets x, y, g, gg, XX = gg^x, YY = gg^y, h = Hash(g) |
| Setup.OpenerKeys | src/groupsig/ksap23/setup.c:138-160 | the second call sets z0, z1, ZZ0 = g^z0, ZZ1 = g^z1 |
| Setup.SetupBoth | src/groupsig/ksap23/setup.c:79-160 | two calls on fresh keys succeed exactly when every draw does, and then every field is present and the public half matches the secrets |
| Signing.SignCorrect | src/groupsig/ksap23/sign.c:60-131 | for an honest member key, SNIZK2 holds and the randomised credential passes the pairing check, whatever r, s and the nonces |
| Signing.Sign | src/groupsig/ksap23/sign.c:32-173 | NULL inputs are IERROR and change nothing; IOK exactly when r, s and the key fields are present, and then the signature holds the computed values; on failure all six elements and pi are NULL |
| Signing.SignSteps | src/groupsig/ksap23/sign.c:60-131 | uu, vv, ww = u^r, v^r, w^r; c0 = g^s, c1 = f1 ZZ0^s, c2 = f2 ZZ1^s; pi is SNIZK2 over them |
| Verification.Verify | src/groupsig/ksap23/verify.c:42-124 | NULL is IERROR; a failing SNIZK2 is IOK with ok = 0 before any pairing; otherwise ok is 1 exactly when e(vv, gg) = e(uu, XX) e(ww, YY) |
| Verification.SignedVerifies | src/groupsig/ksap23/verify.c:66-114 | the values an honest signature holds pass both checks of verify |
| Verification.SignThenVerify | src/groupsig/ksap23/sign.c:32-173 | sign then verify on the same message returns IOK with ok = 1, under the value semantics of the SNIZK2 commitments |
| Verification.ImportThenVerify | src/groupsig/ksap23/signature.c:400-417 | a signature read back by import never verifies: import leaves pi NULL, so verify is IERROR with ok at its prior value, for every input |
| Opening.Recover | src/groupsig/ksap23/open.c:78-90 | the recovered f satisfies f c0^z = c |
| Opening.RecoverDecrypts | src/groupsig/ksap23/open.c:78-90 | recovery with the opener secret z gives back the encrypted f |
| Opening.RecoverWrongScalar | src/groupsig/ksap23/open.c:78-90 | recovery with any scalar whose mask differs misses f |
| Opening.OpenAsWrittenMisses | src/groupsig/ksap23/open.c:78-84 | recovering with ZZ0 in place of z0 gives R - 2 instead of f1 = 0 for g = 2, z0 = 1, s = 1 |
| Opening.Scanned | src/groupsig/ksap23/open.c:92-111 | a scan started with at most one match ends with at most one |
| Opening.ScanNoMatch | src/groupsig/ksap23/open.c:92-111 | no matching entry: the scan ends with no match and *index untouched |
| Opening.ScanUnique | src/groupsig/ksap23/open.c:92-111 | exactly one matching entry: the scan ends with one match and that entry's id |
| Opening.ScanSecond | src/groupsig/ksap23/open.c:101-105 | a second match stops the scan there |
| Opening.ScanTwo | src/groupsig/ksap23/open.c:92-111 | two matching entries end the scan with a second match |
| Opening.ScanLedger | src/groupsig/ksap23/open.c:92-109 | the loop over slots 0 .. n-1 computes Scanned |
| Opening.Open | src/groupsig/ksap23/open.c:36-151 | as written: never IOK; IFAIL exactly on zero or a second match; *index is the last matched id |
| Opening.OpenFixed | src/groupsig/ksap23/open.c:36-151 | corrected: IOK exactly on a unique match of a complete signature, with *index its id |
| Opening.OpenFindsSigner | src/groupsig/ksap23/open.c:78-111 | an honest signature decrypts with z0, z1 to the signer's (f1, f2), and the scan finds the signer's entry |
| Judging.Proof.constructor | src/groupsig/ksap23/proof.h:37-41 | a new opening proof has no f1, f2 or pi |
| Judging.Judge | src/groupsig/ksap23/judge.c:36-104 | as written: always IERROR, and *ok is not written |
| Judging.JudgeFixed | src/groupsig/ksap23/judge.c:36-104 | corrected: IOK exactly when every input is present, and then ok is NIZK3 over the signature's exported bytes |
| Judging.QuotientMask | src/groupsig/ksap23/nizk.c:517-527 | removing f from f X leaves X |
| Judging.JudgeAcceptsOpening | src/groupsig/ksap23/judge.c:79-95 | an opening proof made with z0, z1 for an honest encryption is accepted |

## Left out

- Elliptic-curve, pairing and hash internals (`pbcext_*`, BLAKE2, SHA-1): replaced by the exponent abstraction and transcript functions. Soundness, zero-knowledge and unforgeability are not stated.
- Allocation failures and failures of the random number generator inside a proof: not modelled. Only the draws the scheme code makes are parameters that can fail.
- The scheme tags of the `groupsig_key_t`/`groupsig_signature_t` wrappers: every object is taken to be a KSAP23 object. A wrong-scheme argument is not modelled.
- NULL `ok`, `index`, `bytes` and `size` out-pointers: not modelled, since outputs are return values.
- `message_t` plumbing, `*_free`, `*_to_string`, logging and base64: not logic.
- `ksap23_gml_entry_init` and an entry without data: an `Entry` always holds its data, so the IERROR of open.c:94-96 for a data-less entry is not modelled; a NULL slot is.
- `ksap23_gml_entry_get_size` and the scheme check of `ksap23_gml_insert` are covered only as constants and by `Ledger.EntryBytesLength`.
- Join.JoinMgr: a failure after the ledger insert (join_mgr.c:232-264) is not modelled. That path frees an entry the ledger still holds; the model stops at the insert, so "the ledger is unchanged on failure" is claimed only up to join_mgr.c:228.
- Spk.RepSign and Spk.RepVerify: require every prods[j] >= 1. With prods[j] = 0 the signer still consumes one term but the verifier none; that case is not modelled.
- Spk.RepVerify: requires a non-NULL proof to have its challenge and every response present. With a NULL c or s[i] the C ignores the failing `pbcext_element_G1_mul` (spk.c:658, 665) and still compares at spk.c:730; the outcome depends on library code that is not part of this model.
- Spk.RepCopy: requires |src.s| <= |dst.s|. spk.c:425-429 writes dst->s[i] for every i < src->ns without checking dst->ns, so a smaller dst is written past its end; the model has no out-of-bounds writes.
- GroupKey.Copy, ManagerKey.Copy, MemberKey.Copy, MemberKey.CopyFixed and Signatures.Copy: require dst != src. Each copy sets a destination field to a fresh element before reading the same source field (grp_key.c:115-117, mgr_key.c:107-133, mem_key.c:139-144, signature.c:129-151). When dst and src alias, every copied field is replaced by whatever the pbcext init functions yield (library code not part of this model), and the call returns IOK.
- Spk.RepCopy: requires dst != src. When they alias, spk.c:422 and spk.c:427 replace src's c and s[i] with fresh elements before copying them onto themselves, so the proof is overwritten with whatever `pbcext_element_Fr_init` yields (library code not part of this model) and the old elements leak.
- GroupKey.Export: `handed` is the value of the bytes handed over, not the memory. As written, the seventh dump writes four bytes past the GetSize-byte buffer (grp_key.c:219, 268), `memcpy` at grp_key.c:277 overruns a caller buffer sized by get_size by four bytes, and when `*bytes` was NULL the free at grp_key.c:293 leaves the caller holding a dangling pointer.
- `spk_rep_export`/`spk_rep_import` are not part of this model. The layout dump(c) ‖ dump(s[0]) is assumed for one-response proofs.
- Nizk.Nizk3Sign and Nizk.Nizk3Verify: completeness of NIZK3 as written is not claimed; only the mismatch (`Nizk.Nizk3Incomplete`) and the corrected pair are proved.
- Opening.Open: the scalar that `pbcext_element_G1_mul` reads from the G1 elements ZZ0/ZZ1 is a parameter (zs0, zs1) of the model; its value depends on the library's memory layout.
- Opening.Open and Judging.Judge: the code after the signature export (the commented-out proof in open.c, the NIZK3 call in judge.c) is unreachable as written and is modelled only in the corrected twins.
- Nizk.Snizk2Sign, Nizk.Snizk2Verify and Verification.Verify: the model gives the intended value semantics of the SNIZK2 commitments, not the C memory handling. As written, `ksap23_snizk2_verify` declares com1..com4 NULL (nizk.c:363) and never allocates them before writing into them (nizk.c:383, 391, 403, 405, 415, 417), and uses an undeclared `len` (nizk.c:427). `ksap23_snizk2_sign` frees `temp` (nizk.c:275) and writes into it again (nizk.c:278). So the verify path as written cannot return IOK with ok = 1, and `Verification.SignThenVerify` holds only for the model's semantics.
- Nizk.Nizk1Sign and Nizk.Nizk1Verify: the response is modelled as the first slot `s[0]` of the proof's response array. As written, `ksap23_nizk1_sign` overwrites the array pointer `pi->s` itself with a single Fr (nizk.c:79-82), and `ksap23_nizk1_verify` passes `pi->s` as that scalar (nizk.c:144, 152, 160), while `spk_rep_t.s` is an array of Fr pointers (spk.c:376-377). The join crosses this type pun both ways: the member exports the proof with `spk_rep_export` (join_mem.c:187), which reads an array, and the manager verifies a proof built by `spk_rep_import` (join_mgr.c:164), whose `s` is an array. So `Join.RequestAccepted`, `Join.JoinMgr` and `Join.JoinCompletes` hold only under the `s[0]` reading.
- Spk.RepSign and Spk.RepVerify: require every index pair in range (`IndexOk`: i[l][0] below the number of secrets and i[l][1] below the number of bases), `Total(prods) <= ni`, `|r| == |x|`, `|prods| == |y|`, and on RepSign `|pi.s| <= |x|`. Nothing in spk.c checks these. They guard against out-of-bounds reads: `g[i[j][1]]` and `r[i[j][0]]` at spk.c:495, the cursor `l` walking `gr[]` by prods[j] without a comparison with ni (spk.c:498-517 and 652-673), `x[j]` and `r[j]` for every j < pi->ns at spk.c:577-582, and `g[i[l][1]]` and `pi->s[i[l][0]]` at spk.c:665. No caller of these functions is part of this model, so nothing shows the guards are met; the model has no out-of-bounds reads.
- Opening.Open, Opening.OpenFixed and Judging.JudgeFixed: the `groupsig_proof_t` wrapper and its inner `proof->proof` are merged into one nullable `Proof`, and Open takes no proof argument. As written, `ksap23_open` never checks `proof` (open.c:57-63), and on every IERROR its cleanup frees `proof->proof` and sets it to NULL (open.c:144-151). That covers every unique match, since the signature export always fails. So a NULL proof crashes open on those paths, and a caller's proof loses its contents. `ksap23_proof_init` leaves `proof->proof` NULL (proof.c:43), and `ksap23_judge` reads `proof->proof` (judge.c:62) and dereferences its `pi` unchecked (judge.c:80). So a fresh proof, or one emptied by a failed open, crashes judge where JudgeFixed returns IERROR. The model has no NULL dereference and no freeing.
- Join.JoinMem: `grp` is a non-NULL key. join_mem.c:71-75 never checks `grpkey`, and join_mem.c:78 dereferences it, so a NULL group key crashes; the model has no NULL dereference.
- Out-of-bounds reads: the importers never compare their running counter with the buffer size or the message length (grp_key.c:341-385, join_mgr.c:145-166, gml.c:219-226). The model reads a buffer too short for the next element as a failed import, not as a read past its end.
- Signatures.Export and Signatures.Import: the pi dumps and reads are commented out (signature.c:294-304, 400-417), so pi never travels in the bytes. `Verification.ImportThenVerify` shows the consequence: an imported signature never verifies. No corrected form that carries pi is modelled, because the source gives no pi layout to follow.
- Opening.Open: `bsig` is read uninitialised on the early exits that jump to the cleanup at open.c:142; the model has no uninitialised memory.
- Verification.Verify: on IERROR `*ok` keeps its prior value. On IOK the pairing is taken over the stored vv, gg, uu, XX, ww, YY, and a missing one of these is IERROR.
- `src/groupsig/ksap23/proof.c` is not part of this model: it wraps `ksap23_spk1_*`, which is not shown.
- Headers are used only for the field lists. Where gml.h and grp_key.h disagree with the .c files, the .c files are followed: G1 for ZZ0/ZZ1 and for the entry's f2, u, w, plus the entry's pi.
- The commented-out batch verification in verify.c and the duplicate cleanup block in join_mem.c are dead code.
- `ksap23_init`/`ksap23_clear` only initialise the curve library.

## Findings

| source | as written | input that shows it | evidently intended | confidence | as-written member | corrected member |
|---|---|---|---|---|---|---|
| src/groupsig/ksap23/grp_key.c:186 | get_size counts 6 length prefixes, but export writes 7, so the ctr != size check always fails | any group key with all seven fields present | count 7 prefixes, so a full key exports | high, not executed | GroupKey.Export, GroupKey.BytesLength | GroupKey.ExportFixed, GroupKey.RoundTrip |
| src/groupsig/ksap23/mem_key.c:227 | get_size counts 4 length prefixes for 6 fields, so the written length always exceeds it by 8 | any member key, e.g. a freshly initialised one | count 6 prefixes | high, not executed | MemberKey.Export | MemberKey.ExportFixed, MemberKey.RoundTrip |
| src/groupsig/ksap23/signature.c:220 | get_size = 1 + 5 prefixes + 6 G1 + 2 Fr = 373, while export writes 1 + 6 dumps = 313; export always fails, and so do open and judge, which export the signature | any complete signature | size = 1 + 6 prefixes + 6 G1 = 313 | high, not executed | Signatures.Export, Opening.Open, Judging.Judge | Signatures.ExportFixed, Opening.OpenFixed, Judging.JudgeFixed |
| src/groupsig/ksap23/gml.c:225-229 | import advances by entry_get_size (280 bytes) per entry, while each exported entry takes 292 | an exported ledger with two entries | advance by get_size + sizeof(int) + 8 | high, not executed | Ledger.Import, Ledger.GmlImportAsWrittenFails | Ledger.ImportFixed, Ledger.GmlRoundTripFixed |
| src/groupsig/ksap23/open.c:78-90 | the recovery multiplies c0 by the group elements ZZ0, ZZ1 where the scalars z0, z1 of the manager key belong | g = 2, z0 = 1, s = 1, f1 = 0 taking ZZ0's own value as the scalar | ff1 = c1 (c0^z0)^-1 with mgrkey's z0, z1 | high, not executed | Opening.Open, Opening.OpenAsWrittenMisses | Opening.OpenFixed, Opening.RecoverDecrypts, Opening.OpenFindsSigner |
| src/groupsig/ksap23/nizk.c:545-712 | the prover commits t2 = g^k1, t4 = g^k2, but the verifier rebuilds them as D1^s1 g^c and D2^s2 g^c, which differ from the prover's | g = 1, d1 = 2, k1 = 0, c = 1 | commit to c0^k1 and c0^k2 and rebuild as c0^s1 (c1/f1)^c and c0^s2 (c2/f2)^c | medium, not executed | Nizk.Nizk3Verify, Nizk.Nizk3Incomplete | Nizk.Nizk3VerifyFixed, Nizk.Nizk3FixedComplete |
| src/groupsig/ksap23/mem_key.c:139-144 | f1 is copied when src->u is present instead of when src->f1 is: a source with f1 but no u loses f1, and one with u but no f1 fails | src with only f1 present | guard the f1 copy on src->f1 | high, not executed | MemberKey.Copy, MemberKey.CopyDropsF1 | MemberKey.CopyFixed |
