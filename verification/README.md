# windows-accesstoken, modelled in Dafny

A model of the pure logic of the `windows-accesstoken` crate, a thin Rust
wrapper over the Windows access-token API:

- **Security identifiers** (`security.rs`): the SID packet decoder
  `from_raw` (the packet layout of section 2.4.2.2 of [MS-DTYP]), the derived
  structural equality, the `from_known` constructor with its 68-byte buffer
  and error path, and the `GroupSidAttributes` flag constants.
- **Access levels** (`level.rs`): the nine single `TokenAccessLevel` rights
  and the composite presets built from them.
- **Tokens and the information query** (`lib.rs`): `open_process` and
  `open_thread`, and the two-phase `token_information` negotiation: probe
  with a null buffer, classify the error code, fill a buffer of the reported
  length, decode.
- **Information kinds** (`information.rs`): the selector (`LEVEL`) and the
  decoder (`from_buf`) of `TokenElevation`, `LinkedToken` and `Groups`.
- **The `is-admin` example** (`examples/is-admin.rs`): `is_admin_token` and
  the `main` decision to fall back to the linked token of a limited
  (split, UAC) token.

The operating system is a parameter: every OS entry point (`OpenProcessToken`,
`OpenThreadToken`, `GetTokenInformation`, `CreateWellKnownSid`, with the
`GetLastError` code after each) is an oracle function from request to reply,
and results that depend on the OS are stated relative to that oracle. Two
calls differ as oracle inputs whenever their arguments differ; in
particular the null-buffer probe of `token_information` and a fill with a
real buffer of length 0 are different requests.
A decoder that would panic or read outside its buffer gives an explicit
`Fault` (`Panic` or `OutOfBounds`) rather than a value.

Modules: one per source file, three shared ones, and `GroupsLayout`, the
encoder that is the partner of the groups decoder:

| file | module | models |
|---|---|---|
| `wrappers.dfy` | `Wrappers` | `Option`, `Result` with an OS error code, faults and runs |
| `bytes.dfy` | `Bytes` | little-endian 32-bit reads and writes on `seq<bv8>`, zero-filled buffers |
| `flags.dfy` | `Flags` | the `bitflags` `contains` test |
| `level.dfy` | `Level` | `level.rs` |
| `security.dfy` | `Security` | `security.rs` |
| `token.dfy` | `Token` | `lib.rs` |
| `information.dfy` | `Information` | `information.rs` |
| `groups_layout.dfy` | `GroupsLayout` | the inverse of the groups decoder, for the round trip |
| `is_admin.dfy` | `IsAdmin` | `examples/is-admin.rs` |

## Model

| member | source | states |
|---|---|---|
| Security.ValidAttributesIsUnion | src/security.rs:121-135 | SE_GROUP_VALID_ATTRIBUTES (0xE000007F) is exactly the OR of the nine other group flags, and it contains SE_GROUP_ENABLED and SE_GROUP_LOGON_ID |
| Security.SidEqIsEquality | src/security.rs:11-21 | the derived field-by-field equality (revision, authority bytes, whole sub-authority sequence) holds exactly when the two SIDs are the same value |
| Security.ReadSubAuthorities | src/security.rs:150-154 | the sub-authority loop yields `count` words, word i being the little-endian u32 at offset 8 + 4i |
| Security.FromRaw | src/security.rs:138-161 | revision is byte 0, the sub-authority count is byte 1, the authority is bytes 2..8 in order, sub-authority i is the u32 at bytes 8+4i..8+4i+4 |
| Security.DecodeEncode | src/security.rs:138-161 | decoding the packet form of any SID, followed by any bytes, gives that SID back |
| Security.EncodeDecode | src/security.rs:138-161 | the packet form of a decoded SID is exactly the first 8 + 4·count bytes of the buffer it came from |
| Security.FromRawIgnoresTrailingBytes | src/security.rs:150-154 | appending bytes to a buffer never changes the decoded SID: only the first 8 + 4·count bytes are read |
| Security.AdministratorsPacket | src/security.rs:138-161 | the 16 bytes of S-1-5-32-544 decode to revision 1, authority 5, sub-authorities [32, 544], with any padding behind them |
| Security.CreateSidRequestFor | src/security.rs:163-171 | `from_known` passes the selector as a DWORD and a buffer of SID_MAX_SUB_AUTHORITIES·4 + 8 = 68 bytes |
| Security.FromKnown | src/security.rs:163-179 | CreateWellKnownSid is asked for the given selector with a 68-byte buffer; a failing call gives Err with the last OS error; otherwise the result is `from_raw` of the filled 68-byte buffer, in bounds, and then Ok, exactly when the count byte is at most 15; the packet form of an Ok SID is the first 8 + 4·count bytes of the zero-filled buffer |
| Security.FromKnownRoundTrip | src/security.rs:163-179 | a SID built by `from_known` decodes back from its own packet form |
| Level.SingleRightsArePowersOfTwo | src/level.rs:7-15 | the nine single rights are the powers of two 1 .. 256 in declaration order, pairwise disjoint |
| Level.ReadValue | src/level.rs:16 | Read is 0x20008 and contains Query |
| Level.WriteValue | src/level.rs:17-20 | Write is 0x200E0, contains the three adjust rights and contains neither Query nor QuerySource |
| Level.AllAccessValue | src/level.rs:21-30 | AllAccess is 0xF01FF: the required standard rights plus every single right; it contains Read and Write |
| Level.PresetOverlaps | src/level.rs:16-31 | MaximumAllowed is disjoint from AllAccess; Read and Write share only the standard read right 0x20000 |
| Flags.ContainsIsBitSubset | examples/is-admin.rs:36 | `contains(f)`, i.e. `attrs & f == f`, holds exactly when every set bit of f is set in attrs |
| Token.OpenProcess | src/lib.rs:27-37 | OpenProcessToken is asked for exactly the requested rights; a failing call gives Err with the last OS error, otherwise the token wraps the handle written |
| Token.OpenThread | src/lib.rs:39-58 | as OpenProcess for OpenThreadToken, with `open_as_self` passed as the BOOL 1 or 0, so the two flag values are different requests |
| Token.TokenInformation | src/lib.rs:60-89 | at most two calls, both for the token and the kind's selector, the first with a null buffer of length 0 and the second with a real buffer; a successful probe gives Ok(None) with no second call; ERROR_BAD_LENGTH or ERROR_INSUFFICIENT_BUFFER leads to a second call with exactly the reported length, any other code to Err with it; a failing second call gives Err with its code and the decoder is not called; otherwise the answer is the decoder's output on the filled buffer |
| Token.OkNoneOrigin | src/lib.rs:65-87 | Ok(None) arises exactly from a successful probe or from a decoder answering None |
| Token.ErrorOrigin | src/lib.rs:65-85 | an Err carries exactly a non-size probe code, or, after a size signal, the code of the failing second call |
| Information.ElevationOf | src/information.rs:31-35 | a word is Unknown exactly when it is not 1, 2 or 3 |
| Information.ElevationOfDiscriminant | src/information.rs:17-35 | classification inverts the declared discriminants: 1→Default, 2→Full, 3→Limited, and a known state is read back from its own discriminant |
| Information.ElevationFromBuf | src/information.rs:29-36 | panics exactly when the buffer is not 4 bytes long; otherwise answers Some classified word, never None |
| Information.ElevationExamples | src/information.rs:29-36 | the word 3 decodes to Limited and 99 to Unknown |
| Information.LinkedTokenFromBufAsWritten | src/information.rs:45-52 | the code as written: any buffer of at least 4 bytes (one 32-bit HANDLE) yields Some token wrapping the handle it holds, null or not |
| Information.LinkedTokenAsWrittenWrapsNull | src/information.rs:45-52 | as written, a buffer holding the null handle yields a token wrapping handle 0 |
| Information.LinkedTokenFromBuf | src/information.rs:45-52 | None exactly when the stored handle is null, otherwise a token wrapping that non-null handle |
| Information.LinkedTokenAgreesOffNull | src/information.rs:45-52 | the corrected decoder and the one as written agree on every buffer whose handle is not null |
| Information.GroupsFromBuf | src/information.rs:62-76 | fewer than 4 bytes panics; records or SIDs outside the buffer fault; otherwise Some list whose length is the count at bytes 0..4 and whose entry i is the SID record i refers to with record i's attribute bits unmasked |
| Information.NoGroups | src/information.rs:63-75 | a zero count yields Some empty list, whatever follows it |
| Information.LinkedTokenKind | src/information.rs:40-52 | the `LinkedToken` kind requests TokenLinkedToken and decodes with the decoder as written, `LinkedTokenFromBufAsWritten`: a buffer too short for a handle is a read past it, every other buffer gives Some token wrapping the handle it holds |
| Information.CorrectedLinkedTokenKind | src/information.rs:40-52 | the same selector with the corrected decoder `LinkedTokenFromBuf`: None exactly when the stored handle is null, otherwise a token wrapping that handle |
| Information.ElevationKind | src/information.rs:25-36 | the `TokenElevation` kind requests TokenElevationType and decodes with `ElevationFromBuf` |
| Information.GroupsKind | src/information.rs:57-76 | the `Groups` kind requests TokenGroups and decodes with `GroupsFromBuf` |
| Information.KindsRequestDistinctSelectors | src/information.rs:26-58 | TokenElevationType, TokenLinkedToken and TokenGroups are three different selectors |
| GroupsLayout.GroupsRoundTrip | src/information.rs:62-76 | a group list written out as count, records and SIDs decodes back to Some of the same list, entry by entry and in order |
| GroupsLayout.EncodedInBounds | src/information.rs:62-76 | every read the groups decoder makes on such a buffer stays inside it |
| IsAdmin.ScanGroups | examples/is-admin.rs:35-39 | the loop answers true exactly when some group's SID equals the administrators SID and its attributes contain SE_GROUP_ENABLED |
| IsAdmin.EnabledIsOneBit | examples/is-admin.rs:36 | the ENABLED test looks at bit 2 of the attributes and nothing else |
| IsAdmin.OrderIrrelevant | examples/is-admin.rs:35-39 | two group lists with the same entries in any order give the same answer |
| IsAdmin.DisabledAdminIgnored | examples/is-admin.rs:36 | inserting an entry without the ENABLED bit anywhere in the list changes nothing |
| IsAdmin.SplitTokenExample | examples/is-admin.rs:35-39 | an enabled administrators group counts, a deny-only one does not |
| IsAdmin.IsAdminToken | examples/is-admin.rs:31-43 | a failure building the administrators SID propagates before any query; otherwise the calls are those of the groups query, a decoded Some list gives Ok of whether it holds an enabled administrators group, None gives Ok(false), and query errors and decoder faults propagate |
| IsAdmin.IsAdminTokenAsksForGroups | examples/is-admin.rs:34 | every information call of `is_admin_token` asks for TokenGroups of the token it was given |
| IsAdmin.LinkedFallback | examples/is-admin.rs:16-28 | the linked token is asked for exactly when the elevation query answers Some(Limited); errors and faults of the elevation and linked-token queries propagate; any other elevation, or no linked token, gives Ok(false); a linked token gives the answer of `is_admin_token` on it, so the verdict is admin exactly when it is Limited and the linked token exists and is an administrator's |
| IsAdmin.Main | examples/is-admin.rs:8-29 | a token that cannot be opened ends with the OS error and no query; an own-token check that does not answer "no" decides the run, a "no" hands over to the linked-token fallback; the linked token is asked for exactly when the own token is not an administrator's and is Limited; the program reports admin exactly when its own token is an administrator's, or it is Limited and its linked token is an administrator's; it reports "not an admin" exactly when every query answers, the own token is not an administrator's, and it is not Limited, has no linked token, or its linked token is not an administrator's |
| IsAdmin.NullLinkedHandleChecked | examples/is-admin.rs:16-24 | for a Limited token whose linked-token buffer holds the null handle, the program runs `is_admin_token` on handle 0 and ends as that check ends; with the corrected decoder the same replies give no linked token |

## Left out

- The OS calls themselves (OpenProcessToken, OpenThreadToken, GetTokenInformation, CreateWellKnownSid, GetLastError) are oracle parameters; nothing is claimed about what Windows answers.
- Which SID each `WellKnownSid` selector produces is the OS's business: the selectors are the integers 0 .. 94 and only 26 (WinBuiltinAdministratorsSid) is used.
- `Drop` for `AccessToken` (CloseHandle, src/lib.rs:92-98) and `from_raw_handle` ownership: handle lifetime is not stateable over values.
- The `println!` output of the example is the verdict of `Main` (Ok(true) for "You are an admin", Ok(false) for "You are not an admin"); the printing itself and the process exit status are not modelled, and neither is the trivial test at src/lib.rs:100-106.
- Pointers are 32 bits wide throughout: a HANDLE is 4 bytes, and a SID_AND_ATTRIBUTES record is 8 bytes, a 32-bit SID reference then a 32-bit attribute word, read from byte 4 on as the code reads them. At that width the code's layout is the OS's. On a 64-bit target the code would read 16-byte records and an 8-byte handle, and its byte-4 array start would not match the OS's 8-byte-aligned array; that target is not modelled.
- The SID reference of a record is a byte offset into the same buffer. SIDs outside the buffer, pointer aliasing and alignment are not modelled.
- Native byte order is taken to be little-endian (Windows).
- The `GetLastError() as i32` cast keeps the same 32-bit pattern, so error codes are kept as `bv32`.
- DWORD buffer lengths are only passed between calls and never computed with, so they are natural numbers, not 32-bit words.
- Security.FromRaw: requires that the buffer hold the whole SID (8 + 4·count bytes), the obligation the `unsafe` function leaves to its callers; reading past it is undefined behaviour in the source.
- Token.OpenThread: whether the OS honours `open_as_self` is not modelled, only that the flag is passed on.

## Findings

| source | as written | input that shows it | evidently intended | confidence | as-written member | corrected member |
|---|---|---|---|---|---|---|
| src/information.rs:45-52 | `LinkedToken::from_buf` compares the buffer pointer with null, which a real buffer never is, so it always returns Some | a 4-byte buffer holding the null handle 0 gives Some token wrapping handle 0, on which `main` then runs `is_admin_token` | return None when the stored handle is null | not executed | Information.LinkedTokenFromBufAsWritten, Information.LinkedTokenAsWrittenWrapsNull, IsAdmin.NullLinkedHandleChecked | Information.LinkedTokenFromBuf, Information.LinkedTokenAgreesOffNull, Information.CorrectedLinkedTokenKind |

`IsAdmin.Main` models the program as written, so it uses
`Information.LinkedTokenKind` with the decoder as written; the corrected
kind answers "no linked token" for a null handle, and
`IsAdmin.NullLinkedHandleChecked` shows where the two differ.
