# AT-TLS session context cache, in Dafny

This project models the native core of Zowe common-java's AT-TLS support. A
Java application uses it to ask z/OS about the TLS session that AT-TLS
negotiated on one of its sockets. The session data comes from a single
blocking control call, `ioctl(SIOCTTLSCTL)`. The model covers:

- **Byte-code tables.** `load_enum_map` builds a table from codes to enum constants, and `get_enum` looks codes up in it.
- **Java enums.** `StatPolicy`, `StatConn`, `SecurityType`, `Fips140` and `Protocol`, with their `valueOf` searches. The tables are proved to answer exactly as `valueOf` does.
- **Fixed-length text fields.** `strnlen`, plus the `get_jstring` variants that read EBCDIC fields of the control block as Java strings.
- **The zos-utils `AttlsContext`.** It keeps loaded flags, lazily allocates its buffers and caches decoded values. In the model it is a class whose control call is an oracle (`Answer`). A ghost log records every request sent.
- **The attls `AttlsContext`.** It is the second native variant. It works on a by-value copy of the control block and never sets its loaded flags.
- **`InboundAttls`.** It is one thread's holder of the current context.
- **The user mapper's native side** (`javaUsermap.c` in both variants). It stages names in fixed arrays, then guards their lengths or fails to, and finally assembles the response.

Each module is one part of the program:

- `Base`: values shared by every module.
- `Lookup`: the `valueOf` search.
- `StatPolicyEnum`, `StatConnEnum`, `SecurityTypeEnum`, `Fips140Enum` and `ProtocolEnum`: the enums.
- `EnumMaps` and `Registry`: the native tables.
- `Text`: the text fields.
- `ControlCall`: the control block and the request bits.
- `Session`: what the two context variants share.
- `ZosUtilsContext` and `Attls`: the two context variants.
- `ZosUtilsScenarios` and `AttlsScenarios`: call sequences on each variant.
- `Inbound`: the per-thread holder.
- `UserMap`: the user mapper.

Calls the model cannot see become parameters:

- The kernel's answer: `Answer` and `Reply`.
- `__etoa`: a `Transcoder`.
- `a2e`/`e2a`: a per-byte `ByteMap`.
- `NewStringUTF`: a `Decoder`.
- The RACF services: `RacfAnswer` and `CertificateAnswer`.
- The success of native allocations: a `memory` flag.

Where a native method raises a Java exception, the model returns
`Outcome.Throw`.

Behaviours of the C code the model keeps:

- No control command clears the decoded caches. zos-utils `issueCommand` clears only the loaded flags (zos-utils/zossrc/AttlsContext.c:891-893). attls `issueCommand` clears nothing (attls/zossrc/AttlsContext.c:685-704). A cached value therefore survives a command.
- zos-utils `getProtocol` never writes `protocolCache` (zos-utils/zossrc/AttlsContext.c:724-745).
- attls never sets `queryLoaded` or `certificateLoaded`, and attls `clean` keeps the arrays (attls/zossrc/AttlsContext.c:402-475). Every getter without a cached value makes a control call.
- attls `requireCertificate` sends RETURN_CERTIFICATE without QUERY_ONLY (attls/zossrc/AttlsContext.c:449-453).

## Model

| member | source | states |
|---|---|---|
| Lookup.Find | attls/src/main/java/org/zowe/commons/attls/StatPolicy.java:47-52 | a found constant is in the list with the searched key; nothing is found exactly when no constant has the key |
| Lookup.FindOwnKey | attls/src/main/java/org/zowe/commons/attls/StatPolicy.java:47-52 | when the keys are distinct, searching for a constant's own key finds that constant |
| StatPolicyEnum.ValuesComplete | attls/src/main/java/org/zowe/commons/attls/StatPolicy.java:24-40 | every constant is in `values()`, at position code - 1 |
| StatPolicyEnum.CodesDistinct | attls/src/main/java/org/zowe/commons/attls/StatPolicy.java:24-40 | no two constants share a code |
| StatPolicyEnum.ValueOf | attls/src/main/java/org/zowe/commons/attls/StatPolicy.java:47-52 | a constant is returned exactly for codes 1 to 5, and its code is the argument |
| StatPolicyEnum.ValueOfValue | attls/src/main/java/org/zowe/commons/attls/StatPolicy.java:47-52 | decoding a constant's code gives that constant |
| StatPolicyEnum.ValueValueOf | attls/src/main/java/org/zowe/commons/attls/StatPolicy.java:47-52 | encoding a decoded constant gives the byte back |
| StatPolicyEnum.ValueOfExamples | zos-utils/src/test/java/org/zowe/commons/attls/StatPolicyTest.java:23-25 | codes 1 to 5 give OFF to APPLCNTRL in order; -1, 0 and 6 give null |
| StatConnEnum.ValuesComplete | zos-utils/src/main/java/org/zowe/commons/attls/StatConn.java:24-32 | every constant is in `values()`, at position code - 1 |
| StatConnEnum.CodesDistinct | zos-utils/src/main/java/org/zowe/commons/attls/StatConn.java:24-32 | no two constants share a code |
| StatConnEnum.ValueOf | zos-utils/src/main/java/org/zowe/commons/attls/StatConn.java:39-44 | a constant is returned exactly for codes 1 to 3, and its code is the argument |
| StatConnEnum.ValueOfValue | zos-utils/src/main/java/org/zowe/commons/attls/StatConn.java:39-44 | decoding a constant's code gives that constant |
| SecurityTypeEnum.ValuesComplete | attls/src/main/java/org/zowe/commons/attls/SecurityType.java:24-49 | every constant is in `values()`, at the position of its code |
| SecurityTypeEnum.CodesDistinct | attls/src/main/java/org/zowe/commons/attls/SecurityType.java:24-49 | no two constants share a code |
| SecurityTypeEnum.ValueOf | attls/src/main/java/org/zowe/commons/attls/SecurityType.java:56-62 | a constant is returned exactly for codes 0 to 6, and its code is the argument |
| SecurityTypeEnum.ValueOfValue | attls/src/main/java/org/zowe/commons/attls/SecurityType.java:56-62 | decoding a constant's code gives that constant |
| SecurityTypeEnum.ValueOfExamples | attls/src/test/java/org/zowe/commons/attls/SecurityTypeTest.java:23-25 | codes 0, 1 and 6 give UNKNOWN, TTLS_SEC_CLIENT and TTLS_SEC_SRV_CA_SAFCHK; 7 and -1 give null |
| Fips140Enum.ValuesComplete | zos-utils/src/main/java/org/zowe/commons/attls/Fips140.java:24-40 | every constant is in `values()`, at the position of its code |
| Fips140Enum.CodesDistinct | zos-utils/src/main/java/org/zowe/commons/attls/Fips140.java:24-40 | no two constants share a code |
| Fips140Enum.ValueOf | zos-utils/src/main/java/org/zowe/commons/attls/Fips140.java:47-53 | a constant is returned exactly for codes 0 to 4, and its code is the argument |
| Fips140Enum.ValueOfValue | zos-utils/src/main/java/org/zowe/commons/attls/Fips140.java:47-53 | decoding a constant's code gives that constant |
| Fips140Enum.ValueOfExamples | attls/src/test/java/org/zowe/commons/attls/Fips140Test.java:24-27 | codes 0, 2 and 4 give FIPS140_OFF, TTLS_FIPS140_LEVEL1 and TTLS_FIPS140_LEVEL3; 5 and -1 give null |
| ProtocolEnum.Ordinal | zos-utils/src/main/java/org/zowe/commons/attls/Protocol.java:24-49 | a constant's ordinal is its position in `values()` |
| ProtocolEnum.CodesDistinct | zos-utils/src/main/java/org/zowe/commons/attls/Protocol.java:24-49 | no two constants share a (version, mod) pair |
| ProtocolEnum.ValueOf | zos-utils/src/main/java/org/zowe/commons/attls/Protocol.java:58-64 | a constant is returned exactly for a known pair, and it has that version and mod |
| ProtocolEnum.ValueOfKey | zos-utils/src/main/java/org/zowe/commons/attls/Protocol.java:58-64 | decoding a constant's own pair gives that constant |
| ProtocolEnum.ValueOfExamples | attls/src/test/java/org/zowe/commons/attls/ProtocolTest.java:22-27 | (3,3) is TLS 1.2, (3,4) is TLS 1.3 and (0,0) is NON_SECURE; a negative byte in either position, or (2,1), gives null |
| ProtocolEnum.TlsVersionNumbers | zos-utils/src/main/java/org/zowe/commons/attls/Protocol.java:37-49 | the TLS constants carry record versions 0x0301 to 0x0304 (RFC 5246 appendix E, RFC 8446 section 4.2.1) |
| Base.ToJByte | zos-utils/zossrc/AttlsContext.c:335-338 | the `(jbyte)` cast keeps 0..127 and maps 128..255 to the negative byte 256 below |
| EnumMaps.LoadEnumMap | zos-utils/zossrc/AttlsContext.c:267-330 | a failed allocation raises OutOfMemoryError; otherwise the table has max code + 1 slots, and a slot holds a constant exactly when some constant has that code |
| EnumMaps.GetEnum | zos-utils/zossrc/AttlsContext.c:343-356 | a constant is returned exactly when the code is at most the maximum and its slot is filled; otherwise UnknownEnumValueException(class, code as a Java byte) is raised |
| EnumMaps.ResolveDefined | zos-utils/zossrc/AttlsContext.c:343-356 | in a table of distinct codes, looking up a constant's code returns that constant |
| EnumMaps.ResolveUndefined | zos-utils/zossrc/AttlsContext.c:343-356 | a code no constant has raises UnknownEnumValueException |
| Registry.LoadTables | zos-utils/zossrc/AttlsContext.c:423-429 | the four tables are built from the four enums' constants |
| Registry.StatPolicyTableAgrees | attls/src/main/java/org/zowe/commons/attls/StatPolicy.java:47-52 | for every byte, the native table answers as `StatPolicy.valueOf` does, and throws where it gives null |
| Registry.StatConnTableAgrees | zos-utils/src/main/java/org/zowe/commons/attls/StatConn.java:39-44 | for every byte, the native table answers as `StatConn.valueOf` does, and throws where it gives null |
| Registry.SecurityTypeTableAgrees | attls/src/main/java/org/zowe/commons/attls/SecurityType.java:56-62 | for every byte, the native table answers as `SecurityType.valueOf` does, and throws where it gives null |
| Registry.Fips140TableAgrees | zos-utils/src/main/java/org/zowe/commons/attls/Fips140.java:47-53 | for every byte, the native table answers as `Fips140.valueOf` does, and throws where it gives null |
| Registry.TableSizes | zos-utils/zossrc/AttlsContext.c:295-318 | the tables have 6, 4, 7 and 5 slots; slot 0 is empty in the StatPolicy and StatConn tables |
| Text.EffectiveLength | zos-utils/zossrc/AttlsContext.c:217-223 | 0 for a negative bound; otherwise the length lies within the bound, no byte before it is NUL, and the byte at it is NUL when it is below the bound |
| Text.EffectiveLengthUnique | zos-utils/zossrc/AttlsContext.c:217-223 | the first NUL, or else the bound, is the only length with those properties |
| Text.Strnlen | zos-utils/zossrc/AttlsContext.c:217-223 | the scan returns the index of the first NUL below `max`, or `max`, and 0 for a negative `max`; the copies at zos-utils/zossrc/javaUsermap.c:43-49 and attls/zossrc/javaUsermap.c:30-36 are the same scan |
| Text.StrnlenExample | zos-utils/zossrc/AttlsContext.c:217-223 | a 5-byte field holding three letters and two NULs has text length 3 |
| Text.GetJString | zos-utils/zossrc/AttlsContext.c:236-262 | null exactly for a null pointer or a negative length; OutOfMemoryError on a failed allocation; otherwise IllegalArgumentException("Cannot convert userID") or the conversion of a NUL-free prefix within the length |
| Text.GetJStringStopsAtNul | zos-utils/zossrc/AttlsContext.c:240-243 | a field with its first NUL at k is read as its first k bytes |
| Text.GetJStringWholeField | zos-utils/zossrc/AttlsContext.c:240-243 | a field with no NUL within the length is read in full |
| Text.CopyJString | attls/zossrc/AttlsContext.c:178-194 | never null; throws exactly when the conversion of the field fails, and then IllegalArgumentException("Cannot convert userID"); otherwise returns that conversion |
| ControlCall.QueryRequestType | zos-utils/zossrc/AttlsContext.c:599-602 | QUERY_ONLY is always set, RETURN_CERTIFICATE is set exactly when the certificate is loaded, and no command is set |
| ControlCall.LoadRequestType | attls/zossrc/AttlsContext.c:414-416 | starting from zero, QUERY_ONLY is set exactly for a query, RETURN_CERTIFICATE exactly for a certificate, and no command |
| ControlCall.CommandRequestType | zos-utils/zossrc/AttlsContext.c:896 | the command is the only bit set |
| ControlCall.CommandBlock | attls/zossrc/AttlsContext.c:689-692 | a command block carries only its command bit, with no buffer and length 0 |
| ControlCall.IoctlBuffer.constructor | attls/zossrc/AttlsContext.c:353-358 | a new control-block array is all zeros |
| ControlCall.Overwritten | zos-utils/zossrc/AttlsContext.c:604-608 | the kernel's certificate bytes replace the start of the buffer, and the rest is unchanged |
| ControlCall.WriteCertificate | zos-utils/zossrc/AttlsContext.c:604-608 | the buffer's new contents are the old ones overwritten by the certificate |
| ControlCall.Erase | zos-utils/zossrc/AttlsContext.c:481-491 | `cleanByteArray` leaves the array all zeros |
| Session.CallOutcome | attls/zossrc/AttlsContext.c:424-431 | an exception is raised exactly when rc < 0, and it is IoctlCallException(rc, errno, errno2) |
| Session.DecodeProtocol | attls/zossrc/AttlsContext.c:522-537 | the constant with the block's (version, mod) bytes, or UnknownEnumValueException with both bytes when no constant has them |
| Session.DecodeProtocolOfKey | zos-utils/zossrc/AttlsContext.c:731-739 | a block carrying a constant's pair decodes to that constant |
| ZosUtilsContext.Pending | zos-utils/zossrc/AttlsContext.c:630-653 | OutOfMemoryError when the allocation fails; otherwise nothing when the data are loaded, and the query's outcome when they are not |
| ZosUtilsContext.QueryBlock | zos-utils/zossrc/AttlsContext.c:598-605 | version 1, the query request type, and the certificate buffer with its length exactly when the certificate is loaded |
| ZosUtilsContext.AttlsContext.constructor | attls/src/main/java/org/zowe/commons/attls/AttlsContext.java:94-97 | the id and the flag are set; there are no arrays, flags or cached values, and no call has been made |
| ZosUtilsContext.AttlsContext.GetContext | zos-utils/zossrc/AttlsContext.c:502-562 | nothing changes when the allocation fails; otherwise the block is created when absent or zeroed on erase, and the certificate buffer is obtained when loading (the argument or `alwaysLoadCertificate`) and zeroed on erase otherwise |
| ZosUtilsContext.AttlsContext.Call | zos-utils/zossrc/AttlsContext.c:607-608 | the request is logged, the block receives the reply, and the certificate is written into an attached buffer |
| ZosUtilsContext.AttlsContext.Query | zos-utils/zossrc/AttlsContext.c:589-624 | one query on erased buffers; rc < 0 leaves the flags unchanged and raises IoctlCallException; on success `queryLoaded` is set, and `certificateLoaded` is set when the certificate was loaded |
| ZosUtilsContext.AttlsContext.RequireQuery | zos-utils/zossrc/AttlsContext.c:630-639 | when the query is loaded, the buffers are reused with no call; otherwise one query |
| ZosUtilsContext.AttlsContext.RequireCertificate | zos-utils/zossrc/AttlsContext.c:644-653 | when the certificate is loaded, the buffers are reused with no call; otherwise one query for it |
| ZosUtilsContext.AttlsContext.EraseArrays | zos-utils/zossrc/AttlsContext.c:664-667 | each of the three existing arrays is zeroed |
| ZosUtilsContext.AttlsContext.Clean | zos-utils/zossrc/AttlsContext.c:658-679 | both flags are false; the three arrays are zeroed, including one handed to a caller, and then dropped; every cached value is dropped; no call is made |
| ZosUtilsContext.AttlsContext.Forget | zos-utils/zossrc/AttlsContext.c:660-678 | after the field writes, no flag, array or cached value is left |
| ZosUtilsContext.AttlsContext.GetStatPolicy | zos-utils/zossrc/AttlsContext.c:684-699 | a cached value is returned with nothing done; otherwise `requireQuery` runs, its pending exception is thrown, or the table's answer for the reply's code is returned and cached when it is a constant |
| ZosUtilsContext.AttlsContext.GetStatConn | zos-utils/zossrc/AttlsContext.c:704-719 | as `GetStatPolicy`, for the connection status |
| ZosUtilsContext.AttlsContext.GetProtocol | zos-utils/zossrc/AttlsContext.c:724-745 | as `GetStatPolicy`, decoding the reply's two protocol bytes; the caches are never changed |
| ZosUtilsContext.AttlsContext.GetNegotiatedCipher2 | zos-utils/zossrc/AttlsContext.c:750-765 | a cached value is returned with nothing done; otherwise `get_jstring` of the 2-byte field after `requireQuery`, cached unless an exception is pending |
| ZosUtilsContext.AttlsContext.GetSecurityType | zos-utils/zossrc/AttlsContext.c:770-785 | as `GetStatPolicy`, for the security type |
| ZosUtilsContext.AttlsContext.GetUserId | zos-utils/zossrc/AttlsContext.c:790-805 | as `GetNegotiatedCipher2`, for the user ID field up to its declared length |
| ZosUtilsContext.AttlsContext.GetFips140 | zos-utils/zossrc/AttlsContext.c:810-825 | as `GetStatPolicy`, for the FIPS 140 level |
| ZosUtilsContext.AttlsContext.GetFlags | zos-utils/zossrc/AttlsContext.c:830-839 | the reply's flags byte as a Java byte, after `requireQuery`; never cached |
| ZosUtilsContext.AttlsContext.GetNegotiatedCipher4 | zos-utils/zossrc/AttlsContext.c:844-859 | as `GetNegotiatedCipher2`, for the 4-byte field |
| ZosUtilsContext.AttlsContext.GetCertificate | zos-utils/zossrc/AttlsContext.c:864-878 | the cached array, or after `requireCertificate` a new array of `TTLSi_Cert_Len` bytes from the certificate buffer, which becomes the cache |
| ZosUtilsContext.AttlsContext.IssueCommand | zos-utils/zossrc/AttlsContext.c:884-909 | both flags are cleared before the call; the command is sent alone on an erased block with no buffer; rc < 0 raises IoctlCallException; no cached value changes |
| ZosUtilsContext.AttlsContext.SendCommand | zos-utils/zossrc/AttlsContext.c:891-908 | after `getContext`: the flags are cleared, the command block is filled, and the call is made |
| ZosUtilsContext.AttlsContext.InitConnection | zos-utils/zossrc/AttlsContext.c:911-914 | `issueCommand` with INIT_CONNECTION |
| ZosUtilsContext.AttlsContext.ResetSession | zos-utils/zossrc/AttlsContext.c:916-919 | `issueCommand` with RESET_SESSION |
| ZosUtilsContext.AttlsContext.ResetCipher | zos-utils/zossrc/AttlsContext.c:921-924 | `issueCommand` with RESET_CIPHER |
| ZosUtilsContext.AttlsContext.StopConnection | zos-utils/zossrc/AttlsContext.c:926-929 | `issueCommand` with STOP_CONNECTION |
| ZosUtilsContext.AttlsContext.AllowHandShakeTimeout | zos-utils/zossrc/AttlsContext.c:931-934 | `issueCommand` with ALLOW_HANDSHAKE_TIMEOUT |
| ZosUtilsScenarios.RepeatedGetterCallsOnce | zos-utils/zossrc/AttlsContext.c:630-639 | a getter called twice makes one call and returns the same value |
| ZosUtilsScenarios.GettersShareOneQuery | zos-utils/zossrc/AttlsContext.c:630-639 | a second getter decodes the first getter's reply with no call |
| ZosUtilsScenarios.CleanForcesNewQuery | zos-utils/zossrc/AttlsContext.c:658-679 | after `clean`, the same getter calls again and answers from the new reply |
| ZosUtilsScenarios.AlwaysLoadCertificateSavesCall | zos-utils/zossrc/AttlsContext.c:531-534 | with `alwaysLoadCertificate`, the first query fetches the certificate, and `getCertificate` makes no call |
| ZosUtilsScenarios.CertificateOnDemand | zos-utils/zossrc/AttlsContext.c:644-653 | without it, `getCertificate` makes a second query, one that asks for the certificate |
| ZosUtilsScenarios.CommandKeepsCachedValues | zos-utils/zossrc/AttlsContext.c:891-893 | after a command, a cached value is returned with no call, and an uncached one is fetched with a new query |
| ZosUtilsScenarios.FailedCertificateQueryKeepsQueryLoaded | zos-utils/zossrc/AttlsContext.c:610-621 | a failed certificate query leaves `queryLoaded` set, so the next getter decodes the failed call's block with no call |
| ZosUtilsScenarios.CleanErasesReturnedCertificate | zos-utils/zossrc/AttlsContext.c:664-667 | `clean` zeroes the certificate array a caller already holds |
| Attls.LoadBlock | attls/zossrc/AttlsContext.c:409-419 | QUERY_ONLY exactly for a query, RETURN_CERTIFICATE exactly for a certificate, no command bit, and the buffer with its size exactly for a certificate |
| Attls.Raised | attls/zossrc/AttlsContext.c:440-453 | an exception is pending exactly when the data were not loaded and the call failed, and it is that call's IoctlCallException |
| Attls.AttlsContext.constructor | attls/src/main/java/org/zowe/commons/attls/AttlsContext.java:94-97 | the id and the flag are set; there are no arrays, flags or cached values, and no call has been made |
| Attls.AttlsContext.GetIoctl | attls/zossrc/AttlsContext.c:363-369 | the array is created when absent; the copy returned is all zeros |
| Attls.AttlsContext.GetCertificateBuffer | attls/zossrc/AttlsContext.c:384-389 | the existing buffer, or a new zeroed one of 10240 bytes stored in the field |
| Attls.AttlsContext.Call | attls/zossrc/AttlsContext.c:422 | the request is logged, the copy receives the reply, and the certificate is written into an attached buffer |
| Attls.AttlsContext.Load | attls/zossrc/AttlsContext.c:402-434 | one call on a zeroed copy, with the request bits of `LoadBlock`; the certificate is also loaded when `alwaysLoadCertificate` is set; the flags are not set; rc < 0 raises IoctlCallException |
| Attls.AttlsContext.RequireQuery | attls/zossrc/AttlsContext.c:440-444 | when `queryLoaded`, a zeroed copy with no call; otherwise `load(query)` |
| Attls.AttlsContext.RequireCertificate | attls/zossrc/AttlsContext.c:449-453 | when `certificateLoaded`, a zeroed copy with no call; otherwise `load(certificate)` without the query bit |
| Attls.AttlsContext.Clean | attls/zossrc/AttlsContext.c:458-475 | both flags are false, and the ten cached values, the certificate cache among them, are dropped; the arrays and their contents stay |
| Attls.AttlsContext.GetStatPolicy | attls/zossrc/AttlsContext.c:480-493 | a cached value is returned with nothing done; otherwise after `requireQuery` its pending exception, or the table's answer for the copy's code, which is cached when it is a constant |
| Attls.AttlsContext.GetStatConn | attls/zossrc/AttlsContext.c:498-511 | as `GetStatPolicy`, for the connection status |
| Attls.AttlsContext.GetProtocol | attls/zossrc/AttlsContext.c:516-542 | a cached value is returned with nothing done; otherwise the decoded protocol, cached on success |
| Attls.AttlsContext.FetchProtocol | attls/zossrc/AttlsContext.c:519-541 | the part of `getProtocol` after the cache check: `requireQuery`, decode, and store in `protocolCache` |
| Attls.AttlsContext.GetNegotiatedCipher2 | attls/zossrc/AttlsContext.c:547-560 | a cached value is returned with nothing done; otherwise the conversion of the 2-byte field, cached unless an exception is pending |
| Attls.AttlsContext.GetSecurityType | attls/zossrc/AttlsContext.c:565-578 | as `GetStatPolicy`, for the security type |
| Attls.AttlsContext.GetUserId | attls/zossrc/AttlsContext.c:583-596 | as `GetNegotiatedCipher2`, for the user ID field |
| Attls.AttlsContext.GetFips140 | attls/zossrc/AttlsContext.c:601-614 | as `GetStatPolicy`, for the FIPS 140 level |
| Attls.AttlsContext.GetFlags | attls/zossrc/AttlsContext.c:619-625 | the flags byte of the copy as a Java byte, after `requireQuery`; never cached |
| Attls.AttlsContext.GetNegotiatedCipher4 | attls/zossrc/AttlsContext.c:630-643 | as `GetNegotiatedCipher2`, for the 4-byte field |
| Attls.AttlsContext.GetNegotiatedKeyShare | attls/zossrc/AttlsContext.c:648-661 | as `GetNegotiatedCipher2`, for the key-share field |
| Attls.AttlsContext.GetCertificate | attls/zossrc/AttlsContext.c:666-679 | the cached array with nothing done; otherwise after `requireCertificate` its exception, or a new array of `TTLSi_Cert_Len` bytes from the buffer, which becomes the cache |
| Attls.AttlsContext.IssueCommand | attls/zossrc/AttlsContext.c:685-704 | the command is sent alone, with no buffer, on a zeroed copy; flags, buffers and cached values are kept; rc < 0 raises IoctlCallException |
| Attls.AttlsContext.InitConnection | attls/zossrc/AttlsContext.c:706-709 | `issueCommand` with INIT_CONNECTION |
| Attls.AttlsContext.ResetSession | attls/zossrc/AttlsContext.c:711-714 | `issueCommand` with RESET_SESSION |
| Attls.AttlsContext.ResetCipher | attls/zossrc/AttlsContext.c:716-719 | `issueCommand` with RESET_CIPHER |
| Attls.AttlsContext.StopConnection | attls/zossrc/AttlsContext.c:721-724 | `issueCommand` with STOP_CONNECTION |
| Attls.AttlsContext.AllowHandShakeTimeout | attls/zossrc/AttlsContext.c:726-729 | `issueCommand` with ALLOW_HANDSHAKE_TIMEOUT |
| Attls.AttlsContext.ResetWriteCipher | attls/zossrc/AttlsContext.c:731-734 | `issueCommand` with RESET_WRITE_CIPHER |
| Attls.AttlsContext.SendSessionTicket | attls/zossrc/AttlsContext.c:736-739 | `issueCommand` with SEND_SESSION_TICKET |
| AttlsScenarios.UncachedGettersCallEachTime | attls/zossrc/AttlsContext.c:402-434 | two different getters make two calls, since the flags stay false |
| AttlsScenarios.RepeatedGetterCached | attls/zossrc/AttlsContext.c:480-493 | a getter called twice answers from its cache the second time, with no call; after a failure it calls again |
| AttlsScenarios.CertificateAlone | attls/zossrc/AttlsContext.c:449-453 | `getCertificate` sends RETURN_CERTIFICATE without QUERY_ONLY and returns the bytes the kernel wrote |
| AttlsScenarios.AlwaysLoadCertificateCallsAgain | attls/zossrc/AttlsContext.c:411-413 | with `alwaysLoadCertificate`, a getter loads both, yet `getCertificate` calls again and copies what the second call wrote |
| AttlsScenarios.CleanKeepsReturnedCertificate | attls/zossrc/AttlsContext.c:458-475 | `clean` drops the cached certificate but leaves the handed-out array unchanged |
| AttlsScenarios.CommandKeepsCachedValues | attls/zossrc/AttlsContext.c:685-704 | after a command, a cached value is returned with no further call |
| Inbound.InboundAttls.constructor | attls/src/main/java/org/zowe/commons/attls/InboundAttls.java:25-32 | no context is held, and `alwaysLoadCertificate` is false |
| Inbound.InboundAttls.SetAlwaysLoadCertificate | attls/src/main/java/org/zowe/commons/attls/InboundAttls.java:31-32 | the flag takes the value, and the context is kept |
| Inbound.InboundAttls.Init | attls/src/main/java/org/zowe/commons/attls/InboundAttls.java:38-40 | a new context for the socket, taking the current flag, replaces any held one |
| Inbound.InboundAttls.Dispose | attls/src/main/java/org/zowe/commons/attls/InboundAttls.java:45-47 | no context is held afterwards |
| Inbound.InboundAttls.Get | attls/src/main/java/org/zowe/commons/attls/InboundAttls.java:54-58 | the held context, or ContextIsNotInitializedException exactly when none is held |
| Inbound.InboundAttls.Clean | attls/src/main/java/org/zowe/commons/attls/InboundAttls.java:64-66 | the held context's `clean`, or the not-initialized exception |
| Inbound.InboundAttls.GetStatPolicy | attls/src/main/java/org/zowe/commons/attls/InboundAttls.java:75-77 | the not-initialized exception when no context is held; otherwise what the context's `getStatPolicy` does |
| Inbound.InboundAttls.GetStatConn | attls/src/main/java/org/zowe/commons/attls/InboundAttls.java:79-81 | as `GetStatPolicy`, delegating `getStatConn` |
| Inbound.InboundAttls.GetProtocol | attls/src/main/java/org/zowe/commons/attls/InboundAttls.java:90-92 | as `GetStatPolicy`, delegating `getProtocol` |
| Inbound.InboundAttls.GetNegotiatedCipher2 | attls/src/main/java/org/zowe/commons/attls/InboundAttls.java:100-102 | as `GetStatPolicy`, delegating `getNegotiatedCipher2` |
| Inbound.InboundAttls.GetSecurityType | attls/src/main/java/org/zowe/commons/attls/InboundAttls.java:111-113 | as `GetStatPolicy`, delegating `getSecurityType` |
| Inbound.InboundAttls.GetUserId | attls/src/main/java/org/zowe/commons/attls/InboundAttls.java:121-123 | as `GetStatPolicy`, delegating `getUserId` |
| Inbound.InboundAttls.GetFips140 | attls/src/main/java/org/zowe/commons/attls/InboundAttls.java:132-134 | as `GetStatPolicy`, delegating `getFips140` |
| Inbound.InboundAttls.GetFlags | attls/src/main/java/org/zowe/commons/attls/InboundAttls.java:142-144 | as `GetStatPolicy`, delegating `getFlags` |
| Inbound.InboundAttls.GetNegotiatedCipher4 | attls/src/main/java/org/zowe/commons/attls/InboundAttls.java:152-154 | as `GetStatPolicy`, delegating `getNegotiatedCipher4` |
| Inbound.InboundAttls.GetNegotiatedKeyShare | attls/src/main/java/org/zowe/commons/attls/InboundAttls.java:162-164 | as `GetStatPolicy`, delegating `getNegotiatedKeyShare` |
| Inbound.InboundAttls.GetCertificate | attls/src/main/java/org/zowe/commons/attls/InboundAttls.java:172-174 | as `GetStatPolicy`, delegating `getCertificate` |
| Inbound.InboundAttls.ResetSession | attls/src/main/java/org/zowe/commons/attls/InboundAttls.java:181-183 | the not-initialized exception, or the context's `resetSession` |
| Inbound.InboundAttls.ResetCipher | attls/src/main/java/org/zowe/commons/attls/InboundAttls.java:190-192 | the not-initialized exception, or the context's `resetCipher` |
| Inbound.InitThenDispose | attls/src/test/java/org/zowe/commons/attls/InboundAttlsTest.java:49-63 | after `init` with the flag set, `get` returns a context for that socket with the flag; after `dispose`, `get` throws |
| Inbound.GetterWithoutContext | attls/src/test/java/org/zowe/commons/attls/InboundAttlsTest.java:86-111 | a getter with no context held throws ContextIsNotInitializedException |
| Inbound.GetterThroughHolder | attls/src/main/java/org/zowe/commons/attls/InboundAttls.java:75-77 | through the holder, the first getter of a new context makes one query call |
| UserMap.Staged | zos-utils/zossrc/javaUsermap.c:127-130 | the array has its fixed size, holds the converted text first, and holds zeros after it |
| UserMap.StagedRoundTrip | zos-utils/zossrc/javaUsermap.c:127-130 | when `e2a` undoes `a2e`, the staged text converts back to the input |
| UserMap.UserIdOf | zos-utils/zossrc/javaUsermap.c:148-150 | the string of the converted 9 bytes up to their first NUL, or all 9 when there is none |
| UserMap.UserIdTrimmed | zos-utils/zossrc/javaUsermap.c:148-150 | a user ID padded with NULs is read without its padding |
| UserMap.ConvertInPlace | zos-utils/zossrc/javaUsermap.c:130 | the first n bytes are converted, and the rest are unchanged |
| UserMap.Stage | zos-utils/zossrc/javaUsermap.c:127-130 | the zeroed array, after `memcpy` and `a2e`, is `Staged` |
| UserMap.ReadUserId | zos-utils/zossrc/javaUsermap.c:148-150 | converting the array in place and scanning it to its NUL gives `UserIdOf` |
| UserMap.GetUserIdForCertificate | zos-utils/zossrc/javaUsermap.c:101-118 | the call gets the certificate, its length and 9; the response carries the call's rc, errno and errno2 unchanged, with the user ID |
| UserMap.GetUserIdForDn | zos-utils/zossrc/javaUsermap.c:120-153 | a DN over 246 bytes, or a registry over 255 bytes, raises IllegalArgumentException with its message and makes no call; otherwise both are staged, and the response has safRc = racfRc = the RACF return code |
| UserMap.AttlsGetUserIdForCertificate | attls/zossrc/javaUsermap.c:65-93 | the call gets the certificate and its length; a pending exception after the call is thrown, with no response; otherwise the response passes the RACF return code twice, then the reason code |
| UserMap.AttlsGetUserIdForDn | attls/zossrc/javaUsermap.c:95-127 | as written: undefined (None) exactly when a name exceeds its array; otherwise the same request and response as the guarded variant |
| UserMap.LongDnOverflowsAttlsOnly | attls/zossrc/javaUsermap.c:96-99 | a 247-byte DN overruns the attls array, while zos-utils rejects it without a call |
| UserMap.VariantsAgreeWhenNamesFit | attls/zossrc/javaUsermap.c:95-127 | on names that fit, both variants return the same response |
| UserMap.UsermapGetJString | zos-utils/zossrc/javaUsermap.c:77-99 | null exactly for a null pointer or a negative length; IllegalArgumentException exactly when the conversion of the text prefix fails; otherwise that conversion; the copy at attls/zossrc/javaUsermap.c:40-63 behaves the same |

## Left out

- JNI plumbing is not modelled: `JNI_OnLoad`, `JNI_OnUnload`, `getEnv`, class, field and method lookups, global and local references, and `free_enum_map`. The enum constants are given to the table builder as fixed sequences.
- The `ioctl(SIOCTTLSCTL)` call, `errno` and `__errno2()` are an oracle answer (`Answer`). Kernel behaviour is not visible. The struct layout and numeric request bits (`ezbztlsc.h`) are not part of this model, so request types are sets of symbolic bits.
- ControlCall.Reply.WellFormed and ControlCall.Answer.WellFormed, which every getter and both `Call` methods require, assume that the kernel returns in-bounds lengths: `TTLSi_UserID_Len <= 8`, `0 <= TTLSi_Cert_Len <= 10240`, and at most 10240 certificate bytes. The C checks none of these. With a larger user ID length, `get_jstring` reads past the 8-byte field (zos-utils/zossrc/AttlsContext.c:797, attls/zossrc/AttlsContext.c:591). With a larger certificate length, `SetByteArrayRegion` reads past the 10240-byte buffer (zos-utils/zossrc/AttlsContext.c:872, attls/zossrc/AttlsContext.c:675). The model does not represent these out-of-bounds reads.
- EBCDIC/ASCII conversion (`__etoa`, `a2e`, `e2a`) and `NewStringUTF` are uninterpreted parameters.
- The RACF services (`__certificate`, `getUseridByDN`, `getUseridByCertificate`) are foreign calls. Their answers are parameters.
- UserMap.GetUserIdForCertificate: `errno` and `__errno2()` are read only after `ReleaseByteArrayElements`, `e2a` and `NewStringUTF` (zos-utils/zossrc/javaUsermap.c:111-117). The model takes them to be the values `__certificate` left, i.e. to survive those calls.
- ZosUtilsContext.AttlsContext.GetCertificate: when `certificateLoaded` is set, `requireCertificate` only pins the arrays again (zos-utils/zossrc/AttlsContext.c:644-648). The block still holds the `TTLSi_BufferPtr` stored by the earlier query (:604), and that query's `releaseContext` already released that pointer (:577). The copy at :872 therefore reads through a stale pointer, which on a copying JVM is freed memory. The model reads the current contents of the certificate array instead. So `ZosUtilsScenarios.AlwaysLoadCertificateSavesCall`, which proves the certificate comes back intact on this path, holds only where pinned arrays are not copies.
- `printf` debugging output in the attls user mapper is not modelled.
- `free` and the `Release*ArrayElements` bookkeeping are not modelled. Allocation failure is modelled only as OutOfMemoryError, through the `memory` flag. Allocation while the library loads is taken to succeed.
- The unchecked `__malloc31` in both `javaUsermap.c` copies of `get_jstring` is taken to succeed.
- The attls `get_jstring` calls a three-argument `strcpy` whose behaviour is undefined. It is modelled as a conversion of the whole field (`CopyJString`), and its length argument plays no part.
- `InboundAttls` keeps its contexts in a `ThreadLocal`. The model is one thread's slot.
- `System.loadLibrary`, the library extraction in `AttlsNativeLibraries`, and the JNI headers are not modelled.
- Pinned Java arrays (`GetByteArrayElements`) are modelled as the Java arrays themselves: a write through the pointer is a write to the array.
- The nine object-valued cache fields form one record field, `caches`. The certificate cache is its own array field.
- attls reads `alwaysLoadCertificate` through `GetStaticBooleanField` with the id of an instance field. The model reads the context's own flag.
- The attls control-block array is created and never written: the code works on a by-value copy. The model keeps the array's contents at zero and the copy in a local.
- UserMap.UserIdOf: when none of the 9 bytes written is NUL, `NewStringUTF` would read past the array. The model reads the 9 bytes.
- UserMap.GetUserIdForDn: the `GetStringUTFChars` buffer that is not released when a name is rejected is not modelled.

## Findings

| source | as written | input that shows it | evidently intended | confidence | as-written member | corrected member |
|---|---|---|---|---|---|---|
| attls/zossrc/javaUsermap.c:96-106 | the distinguished name and the registry are copied into 246- and 255-byte arrays with no length check | a distinguished name whose modified UTF-8 form has 247 bytes | reject names over 246 or 255 bytes with IllegalArgumentException before the mapping call, as the zos-utils copy does at zos-utils/zossrc/javaUsermap.c:122-137 | high; not executed | UserMap.AttlsGetUserIdForDn (with UserMap.LongDnOverflowsAttlsOnly) | UserMap.GetUserIdForDn (with UserMap.VariantsAgreeWhenNamesFit) |
