/**
 * The native side of `UserMapper`: mapping a client certificate or a
 * distinguished name to a RACF user ID. The inputs are copied into fixed,
 * zeroed arrays and converted in place from ASCII to EBCDIC, the mapping
 * service is called, and the 9-byte user ID it writes is converted back and
 * read up to its first NUL. Two variants exist: the zos-utils one guards the
 * lengths of the distinguished name and the registry before copying them,
 * the attls one does not and checks instead for a pending exception after
 * the certificate call.
 */
module UserMap {
  import opened Base
  import opened Text

  /** The size of the array the distinguished name is copied into. */
  const DnSize: nat := 246
  /** The size of the array the registry name is copied into. */
  const RegistrySize: nat := 255
  /** The size of the array the mapping service writes the user ID into. */
  const UserIdSize: nat := 9

  const DnTooLong: string := "Distinguished name is not allowed to be more than 246 characters"
  const RegistryTooLong: string := "Registry name is not allowed to be more than 255 characters"

  /** A per-byte code page conversion: `a2e` (ASCII to EBCDIC) or `e2a` (back). */
  type ByteMap = uint8 -> uint8

  /** `NewStringUTF`: the Java string a NUL-free modified UTF-8 byte string stands for. */
  type Decoder = seq<uint8> -> string

  /** Java's `MapperResponse(userId, rc, safRc, racfRc, racfRs)`. */
  datatype MapperResponse = MapperResponse(userId: string, rc: int, safRc: int, racfRc: int, racfRs: int)

  /** Java's `CertificateResponse(userId, rc, errno, errno2)`. */
  datatype CertificateResponse = CertificateResponse(userId: string, rc: int, errno: int, errno2: int)

  /**
   * What a RACF mapping service answers: its return value, the RACF return
   * and reason codes, and the bytes it leaves in the 9-byte user ID array.
   */
  datatype RacfAnswer = RacfAnswer(rc: int, returnCode: int, reasonCode: int, userId: seq<uint8>)
  {
    predicate WellFormed() { |userId| == UserIdSize }
  }

  /** What `__certificate` answers: its return value, `errno`, `__errno2()` and the user ID bytes. */
  datatype CertificateAnswer = CertificateAnswer(rc: int, errno: int, errno2: int, userId: seq<uint8>)
  {
    predicate WellFormed() { |userId| == UserIdSize }
  }

  /** The arguments `__certificate` receives: the certificate, its length, and the user ID array's size. */
  datatype CertificateRequest = CertificateRequest(certificate: seq<int8>, length: int, userIdLength: int)

  /** The arguments `getUseridByCertificate` receives: the certificate and its length; it takes no user ID size. */
  datatype CertificateLookup = CertificateLookup(certificate: seq<int8>, length: int)

  /** The arguments `getUseridByDN` receives: both staged arrays and the lengths of their text. */
  datatype DnRequest = DnRequest(dn: seq<uint8>, dnLength: int, registry: seq<uint8>, registryLength: int)

  /** `s` with every byte converted by `f`. */
  function Mapped(s: seq<uint8>, f: ByteMap): (m: seq<uint8>)
    ensures |m| == |s| && forall i :: 0 <= i < |s| ==> m[i] == f(s[i])
  {
    seq(|s|, i requires 0 <= i < |s| => f(s[i]))
  }

  /**
   * A `size`-byte array after `{0}`, `memcpy` of `bytes` and `a2e` on the
   * copied part: the converted text, then zeros to the end.
   */
  function Staged(bytes: seq<uint8>, size: nat, a2e: ByteMap): (a: seq<uint8>)
    requires |bytes| <= size
    ensures |a| == size
    ensures a[..|bytes|] == Mapped(bytes, a2e)
    ensures forall i :: |bytes| <= i < size ==> a[i] == 0
  {
    Mapped(bytes, a2e) + Zeros(size - |bytes|)
  }

  /** Staging loses nothing when `e2a` undoes `a2e`: the text converts back to the input. */
  lemma StagedRoundTrip(bytes: seq<uint8>, size: nat, a2e: ByteMap, e2a: ByteMap)
    requires |bytes| <= size
    requires forall b :: e2a(a2e(b)) == b
    ensures Mapped(Staged(bytes, size, a2e)[..|bytes|], e2a) == bytes
  {
    var back := Mapped(Staged(bytes, size, a2e)[..|bytes|], e2a);
    forall i | 0 <= i < |bytes|
      ensures back[i] == bytes[i]
    {
      assert Staged(bytes, size, a2e)[..|bytes|][i] == a2e(bytes[i]);
    }
  }

  /**
   * The user ID a response carries: the 9 bytes the service wrote, converted
   * by `e2a`, up to the first NUL, as `NewStringUTF` reads them: the prefix
   * decoded holds no NUL and ends at a NUL or at the end of the array.
   */
  function UserIdOf(written: seq<uint8>, e2a: ByteMap, decode: Decoder): (id: string)
    requires |written| == UserIdSize
    ensures exists n :: 0 <= n <= UserIdSize && 0 !in Mapped(written, e2a)[..n]
                        && (n < UserIdSize ==> Mapped(written, e2a)[n] == 0)
                        && id == decode(Mapped(written, e2a)[..n])
  {
    var text := Mapped(written, e2a);
    var n := EffectiveLength(text, UserIdSize);
    assert 0 !in text[..n] by {
      forall i | 0 <= i < n ensures text[..n][i] != 0 { }
    }
    decode(text[..n])
  }

  /**
   * A user ID shorter than the array, padded with NULs that `e2a` keeps, is
   * read without its padding.
   */
  lemma {:induction false} UserIdTrimmed(id: seq<uint8>, e2a: ByteMap, decode: Decoder)
    requires |id| < UserIdSize && 0 !in id
    requires e2a(0) == 0 && forall b :: b != 0 ==> e2a(b) != 0
    ensures UserIdOf(id + Zeros(UserIdSize - |id|), e2a, decode) == decode(Mapped(id, e2a))
  {
    var written := id + Zeros(UserIdSize - |id|);
    var text := Mapped(written, e2a);
    forall i | 0 <= i < |id| ensures text[i] != 0 {
      assert written[i] == id[i];
    }
    assert text[|id|] == 0 by { assert written[|id|] == 0; }
    EffectiveLengthUnique(text, UserIdSize, |id|);
    assert text[..|id|] == Mapped(id, e2a);
  }

  /** `e2a`/`a2e` on the first `n` bytes of `a`, in place; the rest stays. */
  method ConvertInPlace(a: array<uint8>, n: int, f: ByteMap)
    requires 0 <= n <= a.Length
    modifies a
    ensures a[..] == Mapped(old(a[..n]), f) + old(a[n..])
  {
    ghost var before := a[..];
    var i := 0;
    while i < n
      invariant 0 <= i <= n
      invariant forall j :: 0 <= j < i ==> a[j] == f(before[j])
      invariant forall j :: i <= j < a.Length ==> a[j] == before[j]
    {
      a[i] := f(a[i]);
      i := i + 1;
    }
    assert a[..] == Mapped(before[..n], f) + before[n..];
  }

  /** A zeroed `size`-byte array holding `bytes` converted by `a2e`: `{0}`, `memcpy`, then `a2e`. */
  method Stage(bytes: seq<uint8>, size: nat, a2e: ByteMap) returns (a: array<uint8>)
    requires |bytes| <= size
    ensures fresh(a)
    ensures a[..] == Staged(bytes, size, a2e)
  {
    a := new uint8[size](_ => 0);
    var i := 0;
    while i < |bytes|
      invariant 0 <= i <= |bytes|
      invariant a[..] == bytes[..i] + Zeros(size - i)
    {
      a[i] := bytes[i];
      i := i + 1;
      assert a[..] == bytes[..i] + Zeros(size - i);
    }
    assert bytes[..|bytes|] == bytes;
    ConvertInPlace(a, |bytes|, a2e);
    assert a[..] == Mapped(bytes, a2e) + Zeros(size - |bytes|);
  }

  /**
   * The service's user ID as the response carries it: the 9-byte array it
   * wrote, `e2a` in place, then read by `NewStringUTF` up to the first NUL.
   */
  method ReadUserId(written: seq<uint8>, e2a: ByteMap, decode: Decoder) returns (id: string)
    requires |written| == UserIdSize
    ensures id == UserIdOf(written, e2a, decode)
  {
    var useridRacf := new uint8[UserIdSize](i requires 0 <= i < UserIdSize => written[i]);
    assert useridRacf[..] == written;
    ConvertInPlace(useridRacf, UserIdSize, e2a);
    assert useridRacf[..] == Mapped(written, e2a);
    var n := Strnlen(useridRacf[..], UserIdSize);
    id := decode(useridRacf[..n]);
  }

  /**
   * zos-utils `getUserIDForCertificate`: calls `__certificate` with the
   * certificate as given and the 9-byte user ID array, and returns its
   * return value, `errno` and `__errno2()` unchanged with the user ID.
   */
  method GetUserIdForCertificate(certificate: seq<int8>, answer: CertificateAnswer, e2a: ByteMap, decode: Decoder)
    returns (r: CertificateResponse, request: CertificateRequest)
    requires answer.WellFormed()
    ensures request == CertificateRequest(certificate, |certificate|, UserIdSize)
    ensures r.rc == answer.rc && r.errno == answer.errno && r.errno2 == answer.errno2
    ensures r.userId == UserIdOf(answer.userId, e2a, decode)
  {
    request := CertificateRequest(certificate, |certificate|, UserIdSize);
    var id := ReadUserId(answer.userId, e2a, decode);
    r := CertificateResponse(id, answer.rc, answer.errno, answer.errno2);
  }

  /**
   * zos-utils `getUserIDForDN`: a distinguished name longer than 246 bytes,
   * or (once the name fits) a registry longer than 255 bytes, raises
   * `IllegalArgumentException` before `getUseridByDN` is called; otherwise
   * the service gets both names staged in EBCDIC, and its RACF return code
   * fills both the SAF and the RACF return code of the response.
   */
  method GetUserIdForDn(dn: seq<uint8>, registry: seq<uint8>, answer: RacfAnswer,
                        a2e: ByteMap, e2a: ByteMap, decode: Decoder)
    returns (r: Outcome<MapperResponse>, request: Option<DnRequest>)
    requires answer.WellFormed()
    ensures request.Some? <==> |dn| <= DnSize && |registry| <= RegistrySize
    ensures |dn| > DnSize ==> r == Throw(IllegalArgumentException(DnTooLong))
    ensures |dn| <= DnSize && |registry| > RegistrySize ==> r == Throw(IllegalArgumentException(RegistryTooLong))
    ensures request.Some? ==>
      request.value == DnRequest(Staged(dn, DnSize, a2e), |dn|, Staged(registry, RegistrySize, a2e), |registry|)
    ensures request.Some? ==> r.Return? && r.value.userId == UserIdOf(answer.userId, e2a, decode)
    ensures request.Some? ==> r.Return? && r.value.rc == answer.rc && r.value.racfRs == answer.reasonCode
    ensures r.Return? ==> r.value.safRc == answer.returnCode && r.value.racfRc == answer.returnCode
  {
    if |dn| > DnSize {
      return Throw(IllegalArgumentException(DnTooLong)), None;
    }
    var distinguishedName := Stage(dn, DnSize, a2e);
    if |registry| > RegistrySize {
      return Throw(IllegalArgumentException(RegistryTooLong)), None;
    }
    var registryEbcdic := Stage(registry, RegistrySize, a2e);
    request := Some(DnRequest(distinguishedName[..], |dn|, registryEbcdic[..], |registry|));
    var id := ReadUserId(answer.userId, e2a, decode);
    r := Return(MapperResponse(id, answer.rc, answer.returnCode, answer.returnCode, answer.reasonCode));
  }

  /**
   * attls `getUserIDForCertificate`: after `getUseridByCertificate`, a
   * pending exception is left to propagate and no response is built;
   * otherwise the response passes the RACF return code twice and then the
   * reason code.
   */
  method AttlsGetUserIdForCertificate(certificate: seq<int8>, answer: RacfAnswer, pending: Option<JavaException>,
                                      e2a: ByteMap, decode: Decoder)
    returns (r: Outcome<MapperResponse>, request: CertificateLookup)
    requires answer.WellFormed()
    ensures request == CertificateLookup(certificate, |certificate|)
    ensures r.Throw? <==> pending.Some?
    ensures pending.Some? ==> r.exception == pending.value
    ensures r.Return? ==> r.value.userId == UserIdOf(answer.userId, e2a, decode) && r.value.rc == answer.rc
    ensures r.Return? ==>
      r.value.safRc == answer.returnCode && r.value.racfRc == answer.returnCode && r.value.racfRs == answer.reasonCode
  {
    request := CertificateLookup(certificate, |certificate|);
    if pending.Some? {
      return Throw(pending.value), request;
    }
    var id := ReadUserId(answer.userId, e2a, decode);
    r := Return(MapperResponse(id, answer.rc, answer.returnCode, answer.returnCode, answer.reasonCode));
  }

  /**
   * attls `getUserIDForDN`, as written: the names are copied without a
   * length check, so a distinguished name over 246 bytes or a registry over
   * 255 bytes is written past its array, which is undefined behaviour
   * (`None`, with no request). Names that fit are mapped exactly as in the
   * zos-utils variant.
   */
  method AttlsGetUserIdForDn(dn: seq<uint8>, registry: seq<uint8>, answer: RacfAnswer,
                             a2e: ByteMap, e2a: ByteMap, decode: Decoder)
    returns (r: Option<MapperResponse>, request: Option<DnRequest>)
    requires answer.WellFormed()
    ensures r.None? <==> |dn| > DnSize || |registry| > RegistrySize
    ensures request.Some? <==> r.Some?
    ensures request.Some? ==>
      request.value == DnRequest(Staged(dn, DnSize, a2e), |dn|, Staged(registry, RegistrySize, a2e), |registry|)
    ensures r.Some? ==> r.value == MapperResponse(UserIdOf(answer.userId, e2a, decode), answer.rc,
                                                  answer.returnCode, answer.returnCode, answer.reasonCode)
  {
    if |dn| > DnSize {
      return None, None;
    }
    var distinguishedName := Stage(dn, DnSize, a2e);
    if |registry| > RegistrySize {
      return None, None;
    }
    var registryEbcdic := Stage(registry, RegistrySize, a2e);
    request := Some(DnRequest(distinguishedName[..], |dn|, registryEbcdic[..], |registry|));
    var id := ReadUserId(answer.userId, e2a, decode);
    r := Some(MapperResponse(id, answer.rc, answer.returnCode, answer.returnCode, answer.reasonCode));
  }

  /** A 247-byte distinguished name overruns the attls array, while zos-utils rejects it without a call. */
  method LongDnOverflowsAttlsOnly(answer: RacfAnswer, a2e: ByteMap, e2a: ByteMap, decode: Decoder)
    returns (asWritten: Option<MapperResponse>, guarded: Outcome<MapperResponse>, request: Option<DnRequest>)
    requires answer.WellFormed()
    ensures asWritten.None?
    ensures guarded == Throw(IllegalArgumentException(DnTooLong)) && request.None?
  {
    var dn: seq<uint8> := seq(DnSize + 1, _ => 0x41);
    var attlsRequest;
    asWritten, attlsRequest := AttlsGetUserIdForDn(dn, [], answer, a2e, e2a, decode);
    guarded, request := GetUserIdForDn(dn, [], answer, a2e, e2a, decode);
  }

  /** On names that fit, the two variants send the same request and build the same response. */
  method VariantsAgreeWhenNamesFit(dn: seq<uint8>, registry: seq<uint8>, answer: RacfAnswer,
                                   a2e: ByteMap, e2a: ByteMap, decode: Decoder)
    returns (asWritten: Option<MapperResponse>, guarded: Outcome<MapperResponse>)
    requires answer.WellFormed() && |dn| <= DnSize && |registry| <= RegistrySize
    ensures asWritten.Some? && guarded == Return(asWritten.value)
  {
    var q1, q2;
    asWritten, q1 := AttlsGetUserIdForDn(dn, registry, answer, a2e, e2a, decode);
    guarded, q2 := GetUserIdForDn(dn, registry, answer, a2e, e2a, decode);
    assert q1 == q2;
  }

  /**
   * `get_jstring` as both `javaUsermap.c` files define it: the allocation is
   * not checked, so only a null pointer, a negative length and a failed
   * conversion leave the happy path.
   */
  function UsermapGetJString(ebcdic: Option<seq<uint8>>, length: int, etoa: Transcoder): (r: Outcome<Option<string>>)
    requires ebcdic.Some? ==> length <= |ebcdic.value|
    ensures r == Return(None) <==> ebcdic.None? || length < 0
    ensures r.Throw? ==> r.exception == IllegalArgumentException(CannotConvertUserId)
    ensures ebcdic.Some? && 0 <= length ==>
      (r.Throw? <==> etoa(ebcdic.value[..EffectiveLength(ebcdic.value, length)]).None?)
    ensures r.Return? && r.value.Some? ==>
      r.value == etoa(ebcdic.value[..EffectiveLength(ebcdic.value, length)])
  {
    GetJString(ebcdic, length, etoa, true)
  }
}
