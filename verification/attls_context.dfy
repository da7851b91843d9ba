/**
 * The `AttlsContext` of the attls native library. It follows the same lazy
 * scheme as the zos-utils one, with three differences the code makes:
 *
 *  - the control block is a by-value copy of the Java `ioctl` array, which is
 *    never written back, so the array stays zeroed and a reuse reads zeros;
 *  - `load` asks for the query data and the certificate separately (a
 *    certificate request carries no query bit), and it never sets the loaded
 *    flags, so each getter whose value is not cached makes a control call;
 *  - `clean` only clears the flags and the cached values, and there is no
 *    allocation-failure path.
 */
module Attls {
  import opened Base
  import opened ControlCall
  import opened EnumMaps
  import opened Registry
  import opened Text
  import opened Session
  import StatPolicyEnum
  import StatConnEnum
  import ProtocolEnum
  import SecurityTypeEnum
  import Fips140Enum

  /**
   * The block `load` sends: version 1, the query bit when querying, the
   * certificate bit and buffer when loading the certificate.
   */
  function LoadBlock(query: bool, certificate: bool, reply: Reply): (b: Block)
    ensures QueryOnly in b.requestType <==> query
    ensures ReturnCertificate in b.requestType <==> certificate
    ensures forall c :: Do(c) !in b.requestType
    ensures b.bufferAttached == certificate && (b.bufferLen == CertBufferSize <==> certificate)
  {
    Block(Version1, LoadRequestType(query, certificate), certificate, if certificate then CertBufferSize else 0, reply)
  }

  /**
   * The block `requireQuery` or `requireCertificate` hands back: the copy of
   * the zeroed `ioctl` array when its data count as loaded, else the block
   * `load` sent, holding the kernel's reply.
   */
  function Required(loaded: bool, query: bool, certificate: bool, reply: Reply): Block
  {
    if loaded then ZeroBlock else LoadBlock(query, certificate, reply)
  }

  /** The exception pending after them: none on a reuse, else the outcome of the call. */
  function Raised(loaded: bool, answer: Answer): (e: Option<JavaException>)
    ensures e.Some? <==> !loaded && answer.rc < 0
    ensures e.Some? ==> e.value == Failure(answer)
  {
    if loaded then None else CallOutcome(answer)
  }

  class AttlsContext {
    const id: int
    const alwaysLoadCertificate: bool
    var ioctl: IoctlBuffer?
    var bufferCertificate: array?<uint8>
    var queryLoaded: bool
    var certificateLoaded: bool
    /** The nine object-valued cache fields, one slot each; `None` is Java's null. */
    var caches: CacheSlots
    var certificateCache: array?<uint8>
    /** Every control call made for this context, oldest first. */
    ghost var sent: seq<Request>

    /** Every cache field is null. */
    ghost predicate NothingCached()
      reads this
    {
      caches == NoCaches && certificateCache == null
    }

    /**
     * The `ioctl` array is never written, so it holds a zeroed block; the
     * certificate buffer has its size and is not the cached certificate.
     */
    ghost predicate Valid()
      reads this, ioctl
    {
      && (ioctl != null ==> ioctl.block == ZeroBlock)
      && (bufferCertificate != null ==>
            bufferCertificate.Length == CertBufferSize && bufferCertificate != certificateCache)
    }

    constructor (id: int, alwaysLoadCertificate: bool)
      ensures this.id == id && this.alwaysLoadCertificate == alwaysLoadCertificate
      ensures ioctl == null && bufferCertificate == null && certificateCache == null
      ensures !queryLoaded && !certificateLoaded && NothingCached() && sent == []
      ensures Valid()
    {
      this.id := id;
      this.alwaysLoadCertificate := alwaysLoadCertificate;
      ioctl := null;
      bufferCertificate := null;
      queryLoaded := false;
      certificateLoaded := false;
      caches := NoCaches;
      certificateCache := null;
      sent := [];
    }

    /** Neither loaded flag changed. */
    twostate predicate FlagsKept()
      reads this`queryLoaded, this`certificateLoaded
    {
      queryLoaded == old(queryLoaded) && certificateLoaded == old(certificateLoaded)
    }

    /** The certificate buffer is the one it was, with the contents it had. */
    twostate predicate BufferKept()
      reads this`bufferCertificate, bufferCertificate
    {
      && bufferCertificate == old(bufferCertificate)
      && (bufferCertificate != null ==> bufferCertificate[..] == old(bufferCertificate[..]))
    }

    /** The buffers, the flags and the call log are as they were. */
    twostate predicate Untouched()
      reads this`ioctl, this`bufferCertificate, this`queryLoaded, this`certificateLoaded, this`sent, bufferCertificate
    {
      && ioctl == old(ioctl) && BufferKept() && FlagsKept() && sent == old(sent)
    }

    /** No cache field changed. */
    twostate predicate CachesKept()
      reads this
    {
      caches == old(caches) && certificateCache == old(certificateCache)
    }

    /** The `ioctl` field holds the array it held, or a new one if it was null. */
    twostate predicate IoctlKeptOrNew()
      reads this`ioctl
    {
      && ioctl != null
      && (old(ioctl) == null ==> fresh(ioctl))
      && (old(ioctl) != null ==> ioctl == old(ioctl))
    }

    /**
     * The certificate buffer after the kernel wrote `answer`'s certificate
     * into it: a new zeroed buffer when there was none, else the old one over
     * its old contents.
     */
    twostate predicate CertificateWritten(answer: Answer)
      reads this`bufferCertificate, bufferCertificate
    {
      && bufferCertificate != null
      && |answer.certificate| <= bufferCertificate.Length
      && (old(bufferCertificate) == null ==>
            && fresh(bufferCertificate)
            && bufferCertificate[..] == Overwritten(Zeros(bufferCertificate.Length), answer.certificate))
      && (old(bufferCertificate) != null ==>
            && bufferCertificate == old(bufferCertificate)
            && bufferCertificate[..] == Overwritten(old(bufferCertificate[..]), answer.certificate))
    }

    /** `getIoctl`: a copy of the `ioctl` array's block, the array being created if null. */
    method GetIoctl() returns (ioc: Block)
      requires Valid()
      modifies this`ioctl
      ensures Valid() && IoctlKeptOrNew()
      ensures ioc == ZeroBlock
    {
      if ioctl == null {
        ioctl := new IoctlBuffer();
      }
      ioc := ioctl.block;
    }

    /** `getCertificateBuffer`: the certificate buffer, created zeroed if null. */
    method GetCertificateBuffer() returns (buffer: array<uint8>)
      requires Valid()
      modifies this`bufferCertificate
      ensures Valid()
      ensures buffer == bufferCertificate && buffer.Length == CertBufferSize
      ensures old(bufferCertificate) == null ==> fresh(buffer) && buffer[..] == Zeros(CertBufferSize)
      ensures old(bufferCertificate) != null ==> buffer == old(bufferCertificate)
    {
      if bufferCertificate == null {
        bufferCertificate := new uint8[CertBufferSize](_ => 0);
        assert bufferCertificate[..] == Zeros(CertBufferSize);
      }
      buffer := bufferCertificate;
    }

    /**
     * The control call on the block `ioc`: the kernel sees the request and
     * answers with its reply and, when the certificate buffer is attached, the
     * certificate written into it.
     */
    method Call(ioc: Block, answer: Answer) returns (out: Block, rc: int)
      requires answer.WellFormed()
      requires ioc.bufferAttached ==> bufferCertificate != null && bufferCertificate.Length == CertBufferSize
      modifies this`sent, if ioc.bufferAttached then {bufferCertificate} else {}
      ensures sent == old(sent) + [RequestOf(id, ioc)]
      ensures out == ioc.(reply := answer.reply)
      ensures ioc.bufferAttached ==>
        bufferCertificate[..] == Overwritten(old(bufferCertificate[..]), answer.certificate)
      ensures rc == answer.rc
    {
      sent := sent + [RequestOf(id, ioc)];
      if ioc.bufferAttached {
        WriteCertificate(bufferCertificate, answer.certificate);
      }
      out := ioc.(reply := answer.reply);
      rc := answer.rc;
    }

    /**
     * The state after `load`: one call sent, asking for the certificate when
     * it is asked for or always loaded, and the kernel's certificate in the
     * buffer then; the flags are left as they were.
     */
    twostate predicate Loaded(query: bool, certificate: bool, answer: Answer)
      reads this`ioctl, this`bufferCertificate, this`queryLoaded, this`certificateLoaded, this`sent, bufferCertificate
    {
      var load := certificate || alwaysLoadCertificate;
      && IoctlKeptOrNew()
      && sent == old(sent) + [RequestOf(id, LoadBlock(query, load, answer.reply))]
      && (if load then CertificateWritten(answer) else BufferKept())
      && FlagsKept()
    }

    /** `load`: one control call for the query data, the certificate, or both. */
    method Load(query: bool, certificate: bool, answer: Answer) returns (ioc: Block, pending: Option<JavaException>)
      requires Valid() && answer.WellFormed()
      modifies this`ioctl, this`bufferCertificate, this`sent, bufferCertificate
      ensures Valid() && Loaded(query, certificate, answer)
      ensures ioc == LoadBlock(query, certificate || alwaysLoadCertificate, answer.reply)
      ensures pending == CallOutcome(answer)
    {
      ioc := GetIoctl();
      var load := certificate || alwaysLoadCertificate;
      ioc := ioc.(version := Version1, requestType := LoadRequestType(query, load));
      if load {
        var buffer := GetCertificateBuffer();
      }
      ioc := ioc.(bufferAttached := load, bufferLen := if load then CertBufferSize else 0);
      var rc;
      ioc, rc := Call(ioc, answer);
      pending := if rc < 0 then Some(Failure(answer)) else None;
    }

    /** Reading the loaded data again: the `ioctl` array is obtained, nothing else changes. */
    twostate predicate Reused()
      reads this`ioctl, this`bufferCertificate, this`queryLoaded, this`certificateLoaded, this`sent, bufferCertificate
    {
      IoctlKeptOrNew() && BufferKept() && FlagsKept() && sent == old(sent)
    }

    /** The state after `requireQuery`: a reuse when the query is loaded, else a load of the query. */
    twostate predicate QueryRequired(answer: Answer)
      reads this`ioctl, this`bufferCertificate, this`queryLoaded, this`certificateLoaded, this`sent, bufferCertificate
    {
      if old(queryLoaded) then Reused() else Loaded(true, false, answer)
    }

    /** The state after `requireCertificate`: a reuse when the certificate is loaded, else a load of it alone. */
    twostate predicate CertificateRequired(answer: Answer)
      reads this`ioctl, this`bufferCertificate, this`queryLoaded, this`certificateLoaded, this`sent, bufferCertificate
    {
      if old(certificateLoaded) then Reused() else Loaded(false, true, answer)
    }

    /** `requireQuery`: the query data, loaded unless the flag says they are. */
    method RequireQuery(answer: Answer) returns (ioc: Block, pending: Option<JavaException>)
      requires Valid() && answer.WellFormed()
      modifies this`ioctl, this`bufferCertificate, this`sent, bufferCertificate
      ensures Valid() && QueryRequired(answer)
      ensures ioc == Required(old(queryLoaded), true, alwaysLoadCertificate, answer.reply)
      ensures pending == Raised(old(queryLoaded), answer)
    {
      if queryLoaded {
        ioc := GetIoctl();
        pending := None;
      } else {
        ioc, pending := Load(true, false, answer);
      }
    }

    /** `requireCertificate`: the certificate, loaded unless the flag says it is. */
    method RequireCertificate(answer: Answer) returns (ioc: Block, pending: Option<JavaException>)
      requires Valid() && answer.WellFormed()
      modifies this`ioctl, this`bufferCertificate, this`sent, bufferCertificate
      ensures Valid() && CertificateRequired(answer)
      ensures ioc == Required(old(certificateLoaded), false, true, answer.reply)
      ensures pending == Raised(old(certificateLoaded), answer)
    {
      if certificateLoaded {
        ioc := GetIoctl();
        pending := None;
      } else {
        ioc, pending := Load(false, true, answer);
      }
    }

    /** `clean`: clears both flags and every cached value; the arrays are kept as they are. */
    method Clean()
      requires Valid()
      modifies this`queryLoaded, this`certificateLoaded, this`caches, this`certificateCache
      ensures Valid()
      ensures !queryLoaded && !certificateLoaded && NothingCached()
      ensures ioctl == old(ioctl) && bufferCertificate == old(bufferCertificate) && sent == old(sent)
    {
      queryLoaded, certificateLoaded := false, false;
      caches := NoCaches;
      certificateCache := null;
    }

    /** The reply a getter decodes after `requireQuery`, given the state before the call. */
    twostate function QueryReply(answer: Answer): Reply
      reads this`queryLoaded
    {
      Required(old(queryLoaded), true, alwaysLoadCertificate, answer.reply).reply
    }

    /** The exception pending after `requireQuery`, given the state before the call. */
    twostate function QueryPending(answer: Answer): Option<JavaException>
      reads this`queryLoaded
    {
      Raised(old(queryLoaded), answer)
    }

    /** The state after a getter whose value was not cached: a `requireQuery`, and the certificate cache kept. */
    twostate predicate QueriedForValue(answer: Answer)
      reads this`ioctl, this`bufferCertificate, this`queryLoaded, this`certificateLoaded, this`sent, bufferCertificate, this`certificateCache
    {
      QueryRequired(answer) && certificateCache == old(certificateCache)
    }

    /**
     * `getStatPolicy`: the cached value with nothing else done, or the table's
     * constant for the code in the block `requireQuery` returned, cached on
     * success.
     */
    twostate predicate StatPolicyRead(tables: Tables, answer: Answer, new r: Outcome<StatPolicyEnum.StatPolicy>)
      requires tables.Valid()
      reads this, ioctl, bufferCertificate
    {
      if old(caches.statPolicy).Some? then
        r == Return(old(caches.statPolicy).value) && Untouched() && CachesKept()
      else
        && QueriedForValue(answer)
        && r == Fetched(QueryPending(answer), GetEnum(tables.statPolicy, QueryReply(answer).statPolicy))
        && caches == old(caches).(statPolicy := Cached(r))
    }

    method GetStatPolicy(tables: Tables, answer: Answer) returns (r: Outcome<StatPolicyEnum.StatPolicy>)
      requires Valid() && tables.Valid() && answer.WellFormed()
      modifies this`ioctl, this`bufferCertificate, this`sent, this`caches, bufferCertificate
      ensures Valid() && StatPolicyRead(tables, answer, r)
    {
      if caches.statPolicy.Some? {
        return Return(caches.statPolicy.value);
      }
      var ioc, pending := RequireQuery(answer);
      if pending.Some? {
        return Throw(pending.value);
      }
      r := GetEnum(tables.statPolicy, ioc.reply.statPolicy);
      if r.Return? {
        caches := caches.(statPolicy := Some(r.value));
      }
    }

    /** `getStatConn`: as `getStatPolicy`, for the connection status. */
    twostate predicate StatConnRead(tables: Tables, answer: Answer, new r: Outcome<StatConnEnum.StatConn>)
      requires tables.Valid()
      reads this, ioctl, bufferCertificate
    {
      if old(caches.statConn).Some? then
        r == Return(old(caches.statConn).value) && Untouched() && CachesKept()
      else
        && QueriedForValue(answer)
        && r == Fetched(QueryPending(answer), GetEnum(tables.statConn, QueryReply(answer).statConn))
        && caches == old(caches).(statConn := Cached(r))
    }

    method GetStatConn(tables: Tables, answer: Answer) returns (r: Outcome<StatConnEnum.StatConn>)
      requires Valid() && tables.Valid() && answer.WellFormed()
      modifies this`ioctl, this`bufferCertificate, this`sent, this`caches, bufferCertificate
      ensures Valid() && StatConnRead(tables, answer, r)
    {
      if caches.statConn.Some? {
        return Return(caches.statConn.value);
      }
      var ioc, pending := RequireQuery(answer);
      if pending.Some? {
        return Throw(pending.value);
      }
      r := GetEnum(tables.statConn, ioc.reply.statConn);
      if r.Return? {
        caches := caches.(statConn := Some(r.value));
      }
    }

    /** `getProtocol`: the protocol of the block's two bytes, cached on success. */
    twostate predicate ProtocolRead(answer: Answer, new r: Outcome<ProtocolEnum.Protocol>)
      reads this, ioctl, bufferCertificate
    {
      if old(caches.protocol).Some? then
        r == Return(old(caches.protocol).value) && Untouched() && CachesKept()
      else
        && QueriedForValue(answer)
        && r == Fetched(QueryPending(answer), DecodeProtocol(QueryReply(answer)))
        && caches == old(caches).(protocol := Cached(r))
    }

    method GetProtocol(answer: Answer) returns (r: Outcome<ProtocolEnum.Protocol>)
      requires Valid() && answer.WellFormed()
      modifies this`ioctl, this`bufferCertificate, this`sent, this`caches, bufferCertificate
      ensures Valid() && ProtocolRead(answer, r)
    {
      if caches.protocol.Some? {
        return Return(caches.protocol.value);
      }
      r := FetchProtocol(answer);
    }

    /** The part of `getProtocol` after a cache miss: `requireQuery`, then the decoding, cached on success. */
    method FetchProtocol(answer: Answer) returns (r: Outcome<ProtocolEnum.Protocol>)
      requires Valid() && answer.WellFormed() && caches.protocol.None?
      modifies this`ioctl, this`bufferCertificate, this`sent, this`caches, bufferCertificate
      ensures Valid() && QueriedForValue(answer)
      ensures r == Fetched(QueryPending(answer), DecodeProtocol(QueryReply(answer)))
      ensures caches == old(caches).(protocol := Cached(r))
    {
      var ioc, pending := RequireQuery(answer);
      if pending.Some? {
        return Throw(pending.value);
      }
      r := DecodeProtocol(ioc.reply);
      if r.Return? {
        caches := caches.(protocol := Some(r.value));
      }
    }

    /** `getNegotiatedCipher2`: the two-character cipher field decoded as a string, cached on success. */
    twostate predicate NegotiatedCipher2Read(answer: Answer, etoa: Transcoder, new r: Outcome<Option<string>>)
      reads this, ioctl, bufferCertificate
    {
      if old(caches.negotiatedCipher2).Some? then
        r == Return(old(caches.negotiatedCipher2)) && Untouched() && CachesKept()
      else
        && QueriedForValue(answer)
        && r == Fetched(QueryPending(answer), CopyJString(QueryReply(answer).cipher2, etoa))
        && caches == old(caches).(negotiatedCipher2 := CachedText(r))
    }

    method GetNegotiatedCipher2(answer: Answer, etoa: Transcoder) returns (r: Outcome<Option<string>>)
      requires Valid() && answer.WellFormed()
      modifies this`ioctl, this`bufferCertificate, this`sent, this`caches, bufferCertificate
      ensures Valid() && NegotiatedCipher2Read(answer, etoa, r)
    {
      if caches.negotiatedCipher2.Some? {
        return Return(caches.negotiatedCipher2);
      }
      var ioc, pending := RequireQuery(answer);
      if pending.Some? {
        return Throw(pending.value);
      }
      r := CopyJString(ioc.reply.cipher2, etoa);
      caches := caches.(negotiatedCipher2 := CachedText(r));
    }

    /** `getSecurityType`: as `getStatPolicy`, for the security type. */
    twostate predicate SecurityTypeRead(tables: Tables, answer: Answer, new r: Outcome<SecurityTypeEnum.SecurityType>)
      requires tables.Valid()
      reads this, ioctl, bufferCertificate
    {
      if old(caches.securityType).Some? then
        r == Return(old(caches.securityType).value) && Untouched() && CachesKept()
      else
        && QueriedForValue(answer)
        && r == Fetched(QueryPending(answer), GetEnum(tables.securityType, QueryReply(answer).securityType))
        && caches == old(caches).(securityType := Cached(r))
    }

    method GetSecurityType(tables: Tables, answer: Answer) returns (r: Outcome<SecurityTypeEnum.SecurityType>)
      requires Valid() && tables.Valid() && answer.WellFormed()
      modifies this`ioctl, this`bufferCertificate, this`sent, this`caches, bufferCertificate
      ensures Valid() && SecurityTypeRead(tables, answer, r)
    {
      if caches.securityType.Some? {
        return Return(caches.securityType.value);
      }
      var ioc, pending := RequireQuery(answer);
      if pending.Some? {
        return Throw(pending.value);
      }
      r := GetEnum(tables.securityType, ioc.reply.securityType);
      if r.Return? {
        caches := caches.(securityType := Some(r.value));
      }
    }

    /** `getUserId`: the user ID field decoded as a string (its length is not used), cached on success. */
    twostate predicate UserIdRead(answer: Answer, etoa: Transcoder, new r: Outcome<Option<string>>)
      reads this, ioctl, bufferCertificate
    {
      if old(caches.userId).Some? then
        r == Return(old(caches.userId)) && Untouched() && CachesKept()
      else
        && QueriedForValue(answer)
        && r == Fetched(QueryPending(answer), CopyJString(QueryReply(answer).userId, etoa))
        && caches == old(caches).(userId := CachedText(r))
    }

    method GetUserId(answer: Answer, etoa: Transcoder) returns (r: Outcome<Option<string>>)
      requires Valid() && answer.WellFormed()
      modifies this`ioctl, this`bufferCertificate, this`sent, this`caches, bufferCertificate
      ensures Valid() && UserIdRead(answer, etoa, r)
    {
      if caches.userId.Some? {
        return Return(caches.userId);
      }
      var ioc, pending := RequireQuery(answer);
      if pending.Some? {
        return Throw(pending.value);
      }
      r := CopyJString(ioc.reply.userId, etoa);
      caches := caches.(userId := CachedText(r));
    }

    /** `getFips140`: as `getStatPolicy`, for the FIPS 140 level. */
    twostate predicate Fips140Read(tables: Tables, answer: Answer, new r: Outcome<Fips140Enum.Fips140>)
      requires tables.Valid()
      reads this, ioctl, bufferCertificate
    {
      if old(caches.fips140).Some? then
        r == Return(old(caches.fips140).value) && Untouched() && CachesKept()
      else
        && QueriedForValue(answer)
        && r == Fetched(QueryPending(answer), GetEnum(tables.fips140, QueryReply(answer).fips140))
        && caches == old(caches).(fips140 := Cached(r))
    }

    method GetFips140(tables: Tables, answer: Answer) returns (r: Outcome<Fips140Enum.Fips140>)
      requires Valid() && tables.Valid() && answer.WellFormed()
      modifies this`ioctl, this`bufferCertificate, this`sent, this`caches, bufferCertificate
      ensures Valid() && Fips140Read(tables, answer, r)
    {
      if caches.fips140.Some? {
        return Return(caches.fips140.value);
      }
      var ioc, pending := RequireQuery(answer);
      if pending.Some? {
        return Throw(pending.value);
      }
      r := GetEnum(tables.fips140, ioc.reply.fips140);
      if r.Return? {
        caches := caches.(fips140 := Some(r.value));
      }
    }

    /** `getFlags`: the flags byte of the block `requireQuery` returned, as a Java byte; never cached. */
    twostate predicate FlagsRead(answer: Answer, new r: Outcome<int8>)
      reads this, ioctl, bufferCertificate
    {
      && QueryRequired(answer) && CachesKept()
      && r == Fetched(QueryPending(answer), Return(ToJByte(QueryReply(answer).flags)))
    }

    method GetFlags(answer: Answer) returns (r: Outcome<int8>)
      requires Valid() && answer.WellFormed()
      modifies this`ioctl, this`bufferCertificate, this`sent, bufferCertificate
      ensures Valid() && FlagsRead(answer, r)
    {
      var ioc, pending := RequireQuery(answer);
      if pending.Some? {
        return Throw(pending.value);
      }
      r := Return(ToJByte(ioc.reply.flags));
    }

    /** `getNegotiatedCipher4`: as `getNegotiatedCipher2`, for the four-character field. */
    twostate predicate NegotiatedCipher4Read(answer: Answer, etoa: Transcoder, new r: Outcome<Option<string>>)
      reads this, ioctl, bufferCertificate
    {
      if old(caches.negotiatedCipher4).Some? then
        r == Return(old(caches.negotiatedCipher4)) && Untouched() && CachesKept()
      else
        && QueriedForValue(answer)
        && r == Fetched(QueryPending(answer), CopyJString(QueryReply(answer).cipher4, etoa))
        && caches == old(caches).(negotiatedCipher4 := CachedText(r))
    }

    method GetNegotiatedCipher4(answer: Answer, etoa: Transcoder) returns (r: Outcome<Option<string>>)
      requires Valid() && answer.WellFormed()
      modifies this`ioctl, this`bufferCertificate, this`sent, this`caches, bufferCertificate
      ensures Valid() && NegotiatedCipher4Read(answer, etoa, r)
    {
      if caches.negotiatedCipher4.Some? {
        return Return(caches.negotiatedCipher4);
      }
      var ioc, pending := RequireQuery(answer);
      if pending.Some? {
        return Throw(pending.value);
      }
      r := CopyJString(ioc.reply.cipher4, etoa);
      caches := caches.(negotiatedCipher4 := CachedText(r));
    }

    /** `getNegotiatedKeyShare`: as `getNegotiatedCipher2`, for the four-character key share field. */
    twostate predicate NegotiatedKeyShareRead(answer: Answer, etoa: Transcoder, new r: Outcome<Option<string>>)
      reads this, ioctl, bufferCertificate
    {
      if old(caches.negotiatedKeyShare).Some? then
        r == Return(old(caches.negotiatedKeyShare)) && Untouched() && CachesKept()
      else
        && QueriedForValue(answer)
        && r == Fetched(QueryPending(answer), CopyJString(QueryReply(answer).keyShare, etoa))
        && caches == old(caches).(negotiatedKeyShare := CachedText(r))
    }

    method GetNegotiatedKeyShare(answer: Answer, etoa: Transcoder) returns (r: Outcome<Option<string>>)
      requires Valid() && answer.WellFormed()
      modifies this`ioctl, this`bufferCertificate, this`sent, this`caches, bufferCertificate
      ensures Valid() && NegotiatedKeyShareRead(answer, etoa, r)
    {
      if caches.negotiatedKeyShare.Some? {
        return Return(caches.negotiatedKeyShare);
      }
      var ioc, pending := RequireQuery(answer);
      if pending.Some? {
        return Throw(pending.value);
      }
      r := CopyJString(ioc.reply.keyShare, etoa);
      caches := caches.(negotiatedKeyShare := CachedText(r));
    }

    /**
     * `getCertificate`: the cached array with nothing else done; otherwise,
     * after `requireCertificate`, a new array of `TTLSi_Cert_Len` bytes copied
     * from the certificate buffer (none on a reuse, whose block is zeroed),
     * which becomes the cache.
     */
    twostate predicate CertificateRead(answer: Answer, new r: Outcome<array<uint8>>)
      reads this, ioctl, bufferCertificate, if r.Return? then {r.value} else {}
    {
      if old(certificateCache) != null then
        r.Return? && r.value == old(certificateCache) && Untouched() && CachesKept()
      else
        && CertificateRequired(answer)
        && caches == old(caches)
        && var pending := Raised(old(certificateLoaded), answer);
        && (pending.Some? ==> r == Throw(pending.value) && certificateCache == null)
        && (pending.None? ==>
              && r.Return? && fresh(r.value) && certificateCache == r.value
              && (if old(certificateLoaded) then r.value.Length == 0
                  else
                    && bufferCertificate != null && 0 <= answer.reply.certLen <= bufferCertificate.Length
                    && r.value[..] == bufferCertificate[..answer.reply.certLen]))
    }

    method GetCertificate(answer: Answer) returns (r: Outcome<array<uint8>>)
      requires Valid() && answer.WellFormed()
      modifies this`ioctl, this`bufferCertificate, this`sent, this`certificateCache, bufferCertificate
      ensures Valid() && CertificateRead(answer, r)
    {
      if certificateCache != null {
        return Return(certificateCache);
      }
      var ioc, pending := RequireCertificate(answer);
      if pending.Some? {
        return Throw(pending.value);
      }
      var len := ioc.reply.certLen;
      var out: array<uint8>;
      if ioc.bufferAttached {
        var buffer := bufferCertificate;
        out := new uint8[len](i requires 0 <= i < len reads buffer => buffer[i]);
      } else {
        out := new uint8[len](_ => 0);
      }
      certificateCache := out;
      r := Return(out);
    }

    /**
     * The state after `issueCommand`: the command was sent alone without a
     * buffer on a copy of the zeroed block; flags and buffer are kept.
     */
    twostate predicate CommandIssued(command: Command, answer: Answer)
      reads this`ioctl, this`bufferCertificate, this`queryLoaded, this`certificateLoaded, this`sent, bufferCertificate
    {
      && IoctlKeptOrNew()
      && sent == old(sent) + [RequestOf(id, CommandBlock(command, answer.reply))]
      && BufferKept() && FlagsKept()
    }

    /** `issueCommand`: one control call carrying `command`; the result is the exception it leaves pending. */
    method IssueCommand(command: Command, answer: Answer) returns (thrown: Option<JavaException>)
      requires Valid() && answer.WellFormed()
      modifies this`ioctl, this`sent
      ensures Valid() && CachesKept()
      ensures CommandIssued(command, answer)
      ensures thrown == CallOutcome(answer)
    {
      var ioc := GetIoctl();
      ioc := ioc.(version := Version1, requestType := CommandRequestType(command),
                  bufferAttached := false, bufferLen := 0);
      var reply, rc := Call(ioc, answer);
      thrown := if rc < 0 then Some(Failure(answer)) else None;
    }

    method InitConnection(answer: Answer) returns (thrown: Option<JavaException>)
      requires Valid() && answer.WellFormed()
      modifies this`ioctl, this`sent
      ensures Valid() && CachesKept()
      ensures CommandIssued(Command.InitConnection, answer)
      ensures thrown == CallOutcome(answer)
    {
      thrown := IssueCommand(Command.InitConnection, answer);
    }

    method ResetSession(answer: Answer) returns (thrown: Option<JavaException>)
      requires Valid() && answer.WellFormed()
      modifies this`ioctl, this`sent
      ensures Valid() && CachesKept()
      ensures CommandIssued(Command.ResetSession, answer)
      ensures thrown == CallOutcome(answer)
    {
      thrown := IssueCommand(Command.ResetSession, answer);
    }

    method ResetCipher(answer: Answer) returns (thrown: Option<JavaException>)
      requires Valid() && answer.WellFormed()
      modifies this`ioctl, this`sent
      ensures Valid() && CachesKept()
      ensures CommandIssued(Command.ResetCipher, answer)
      ensures thrown == CallOutcome(answer)
    {
      thrown := IssueCommand(Command.ResetCipher, answer);
    }

    method StopConnection(answer: Answer) returns (thrown: Option<JavaException>)
      requires Valid() && answer.WellFormed()
      modifies this`ioctl, this`sent
      ensures Valid() && CachesKept()
      ensures CommandIssued(Command.StopConnection, answer)
      ensures thrown == CallOutcome(answer)
    {
      thrown := IssueCommand(Command.StopConnection, answer);
    }

    method AllowHandShakeTimeout(answer: Answer) returns (thrown: Option<JavaException>)
      requires Valid() && answer.WellFormed()
      modifies this`ioctl, this`sent
      ensures Valid() && CachesKept()
      ensures CommandIssued(Command.AllowHandshakeTimeout, answer)
      ensures thrown == CallOutcome(answer)
    {
      thrown := IssueCommand(Command.AllowHandshakeTimeout, answer);
    }

    method ResetWriteCipher(answer: Answer) returns (thrown: Option<JavaException>)
      requires Valid() && answer.WellFormed()
      modifies this`ioctl, this`sent
      ensures Valid() && CachesKept()
      ensures CommandIssued(Command.ResetWriteCipher, answer)
      ensures thrown == CallOutcome(answer)
    {
      thrown := IssueCommand(Command.ResetWriteCipher, answer);
    }

    method SendSessionTicket(answer: Answer) returns (thrown: Option<JavaException>)
      requires Valid() && answer.WellFormed()
      modifies this`ioctl, this`sent
      ensures Valid() && CachesKept()
      ensures CommandIssued(Command.SendSessionTicket, answer)
      ensures thrown == CallOutcome(answer)
    {
      thrown := IssueCommand(Command.SendSessionTicket, answer);
    }
  }
}
