/**
 * The `AttlsContext` of the zos-utils native library: a Java object whose
 * native methods fetch the AT-TLS data of one socket lazily with a control
 * call, keep the raw control block and certificate buffer in byte-array
 * fields, and cache every decoded value in a field of its own until `clean`.
 *
 * The control block lives in the Java `ioctl` array and is updated in place
 * across calls; a query erases it first, a reuse reads it as it stands.
 */
module ZosUtilsContext {
  import opened Base
  import opened ControlCall
  import opened EnumMaps
  import opened Registry
  import opened Text
  import opened Session
  import StatPolicyEnum
  import StatConnEnum
  import ProtocolEnum
  import SecurityTypeEnum
  import Fips140Enum

  const OutOfMemory: JavaException := OutOfMemoryError(NotEnoughSpace)

  /**
   * The exception pending after `requireQuery` or `requireCertificate`: a
   * failed allocation first; then none when the data were already loaded, and
   * otherwise the outcome of the fresh query.
   */
  function Pending(loaded: bool, answer: Answer, memory: bool): (e: Option<JavaException>)
    ensures !memory ==> e == Some(OutOfMemory)
    ensures memory && loaded ==> e.None?
    ensures memory && !loaded ==> e == CallOutcome(answer)
  {
    if !memory then Some(OutOfMemory) else if loaded then None else CallOutcome(answer)
  }

  /** The block `query` sends: version 1, a query, with the certificate buffer exactly when loading it. */
  function QueryBlock(load: bool, reply: Reply): (b: Block)
    ensures b.requestType == QueryRequestType(load)
    ensures b.bufferAttached == load && (b.bufferLen == CertBufferSize <==> load)
  {
    Block(Version1, QueryRequestType(load), load, if load then CertBufferSize else 0, reply)
  }

  class AttlsContext {
    const id: int
    const alwaysLoadCertificate: bool
    var ioctl: IoctlBuffer?
    var bufferCertificate: array?<uint8>
    var queryLoaded: bool
    var certificateLoaded: bool
    /** The nine object-valued cache fields, one slot each; `None` is Java's null. */
    var caches: CacheSlots
    var certificateCache: array?<uint8>
    /** Every control call made for this context, oldest first. */
    ghost var sent: seq<Request>

    /** Every cache field is null. */
    ghost predicate NothingCached()
      reads this
    {
      caches == NoCaches && certificateCache == null
    }

    /** The buffers have their sizes, and the kernel's replies are well formed. */
    ghost predicate BuffersValid()
      reads this, ioctl
    {
      && (bufferCertificate != null ==>
            bufferCertificate.Length == CertBufferSize && bufferCertificate != certificateCache)
      && (ioctl != null ==> ioctl.block.reply.WellFormed())
    }

    /**
     * Besides, a loaded flag means the block holds the reply of a query (with
     * the certificate, for `certificateLoaded`).
     */
    ghost predicate Valid()
      reads this, ioctl
    {
      && BuffersValid()
      && (queryLoaded ==> ioctl != null && QueryOnly in ioctl.block.requestType)
      && (certificateLoaded ==>
            queryLoaded && bufferCertificate != null && ReturnCertificate in ioctl.block.requestType)
    }

    constructor (id: int, alwaysLoadCertificate: bool)
      ensures this.id == id && this.alwaysLoadCertificate == alwaysLoadCertificate
      ensures ioctl == null && bufferCertificate == null && certificateCache == null
      ensures !queryLoaded && !certificateLoaded && NothingCached() && sent == []
      ensures Valid()
    {
      this.id := id;
      this.alwaysLoadCertificate := alwaysLoadCertificate;
      ioctl := null;
      bufferCertificate := null;
      queryLoaded := false;
      certificateLoaded := false;
      caches := NoCaches;
      certificateCache := null;
      sent := [];
    }

    /** The buffers, the flags and the call log are as they were. */
    twostate predicate Untouched()
      reads this, ioctl, bufferCertificate
    {
      && ioctl == old(ioctl) && bufferCertificate == old(bufferCertificate)
      && (ioctl != null ==> ioctl.block == old(ioctl.block))
      && (bufferCertificate != null ==> bufferCertificate[..] == old(bufferCertificate[..]))
      && queryLoaded == old(queryLoaded) && certificateLoaded == old(certificateLoaded)
      && sent == old(sent)
    }

    /** No cache field changed. */
    twostate predicate CachesKept()
      reads this
    {
      caches == old(caches) && certificateCache == old(certificateCache)
    }

    /** The `ioctl` field holds the array it held, or a new one if it was null. */
    twostate predicate IoctlKeptOrNew()
      reads this
    {
      && ioctl != null
      && (old(ioctl) == null ==> fresh(ioctl))
      && (old(ioctl) != null ==> ioctl == old(ioctl))
    }

    /** `getContext`'s control block: a new zeroed one, or the old one, zeroed when erasing. */
    twostate predicate IoctlObtained(erase: bool)
      reads this, ioctl
    {
      && IoctlKeptOrNew()
      && (old(ioctl) == null ==> ioctl.block == ZeroBlock)
      && (old(ioctl) != null ==> ioctl.block == if erase then ZeroBlock else old(ioctl.block))
    }

    /**
     * `getContext`'s certificate buffer: when loading, a new zeroed one or the
     * old one, zeroed when erasing; otherwise the field is kept, and an
     * existing buffer is still zeroed when erasing.
     */
    twostate predicate CertificateBufferObtained(load: bool, erase: bool)
      reads this, bufferCertificate
    {
      if load then
        && bufferCertificate != null
        && (old(bufferCertificate) == null ==>
              fresh(bufferCertificate) && bufferCertificate[..] == Zeros(CertBufferSize))
        && (old(bufferCertificate) != null ==>
              && bufferCertificate == old(bufferCertificate)
              && bufferCertificate[..] == if erase then Zeros(CertBufferSize) else old(bufferCertificate[..]))
      else
        && bufferCertificate == old(bufferCertificate)
        && (bufferCertificate != null ==>
              bufferCertificate[..] == if erase then Zeros(bufferCertificate.Length) else old(bufferCertificate[..]))
    }

    /** The buffers after a successful `getContext`; it touches nothing else. */
    twostate predicate ContextObtained(loadCertificate: bool, erase: bool)
      reads this, ioctl, bufferCertificate
    {
      && IoctlObtained(erase)
      && CertificateBufferObtained(loadCertificate || alwaysLoadCertificate, erase)
      && queryLoaded == old(queryLoaded) && certificateLoaded == old(certificateLoaded)
      && sent == old(sent)
    }

    /**
     * `getContext`: fails with nothing changed when the native allocation
     * fails; otherwise obtains the control block and, when a certificate is
     * to be loaded (asked for, or always), the certificate buffer.
     */
    method GetContext(loadCertificate: bool, erase: bool, memory: bool) returns (ok: bool)
      requires Valid()
      modifies this, ioctl, bufferCertificate
      ensures BuffersValid() && (!erase ==> Valid())
      ensures ok == memory
      ensures !memory ==> Untouched()
      ensures memory ==> ContextObtained(loadCertificate, erase)
      ensures CachesKept()
    {
      if !memory {
        return false;
      }
      if ioctl == null {
        ioctl := new IoctlBuffer();
      } else if erase {
        ioctl.block := ZeroBlock;
      }
      var load := loadCertificate || alwaysLoadCertificate;
      if load {
        if bufferCertificate == null {
          bufferCertificate := new uint8[CertBufferSize](_ => 0);
          assert bufferCertificate[..] == Zeros(CertBufferSize);
        } else if erase {
          Erase(bufferCertificate);
        }
      } else if erase && bufferCertificate != null {
        Erase(bufferCertificate);
      }
      return true;
    }

    /**
     * The control call on the prepared block: the kernel sees the request,
     * writes its reply into the block and, when the certificate buffer is
     * attached, the certificate into the buffer.
     */
    method Call(answer: Answer) returns (rc: int)
      requires ioctl != null && answer.WellFormed()
      requires ioctl.block.bufferAttached ==>
        bufferCertificate != null && bufferCertificate.Length == CertBufferSize
      modifies this`sent, ioctl, if ioctl.block.bufferAttached then {bufferCertificate} else {}
      ensures sent == old(sent) + [RequestOf(id, old(ioctl.block))]
      ensures ioctl.block == old(ioctl.block).(reply := answer.reply)
      ensures old(ioctl.block).bufferAttached ==>
        bufferCertificate[..] == Overwritten(old(bufferCertificate[..]), answer.certificate)
      ensures rc == answer.rc
    {
      sent := sent + [RequestOf(id, ioctl.block)];
      if ioctl.block.bufferAttached {
        WriteCertificate(bufferCertificate, answer.certificate);
      }
      ioctl.block := ioctl.block.(reply := answer.reply);
      rc := answer.rc;
    }

    /**
     * The state after `query`: with the allocation failed nothing changed;
     * otherwise one query was sent on an erased block (asking for the
     * certificate when it is asked for or always loaded), the block holds the
     * reply, the certificate buffer what the kernel wrote over zeros, and on
     * success the loaded flags are set.
     */
    twostate predicate Queried(certificate: bool, answer: Answer, memory: bool)
      requires answer.WellFormed()
      reads this, ioctl, bufferCertificate
    {
      var load := certificate || alwaysLoadCertificate;
      if !memory then Untouched()
      else
        && IoctlKeptOrNew()
        && ioctl.block == QueryBlock(load, answer.reply)
        && sent == old(sent) + [RequestOf(id, QueryBlock(load, answer.reply))]
        && (if load then
              && bufferCertificate != null
              && (old(bufferCertificate) == null ==> fresh(bufferCertificate))
              && (old(bufferCertificate) != null ==> bufferCertificate == old(bufferCertificate))
              && bufferCertificate[..] == Overwritten(Zeros(CertBufferSize), answer.certificate)
            else
              && bufferCertificate == old(bufferCertificate)
              && (bufferCertificate != null ==> bufferCertificate[..] == Zeros(bufferCertificate.Length)))
        && (answer.rc < 0 ==> queryLoaded == old(queryLoaded) && certificateLoaded == old(certificateLoaded))
        && (0 <= answer.rc ==> queryLoaded && certificateLoaded == (old(certificateLoaded) || load))
    }

    /** `query`: one control call on erased buffers; the result is the exception it leaves pending. */
    method Query(certificate: bool, answer: Answer, memory: bool) returns (pending: Option<JavaException>)
      requires Valid() && answer.WellFormed() && !certificateLoaded
      modifies this, ioctl, bufferCertificate
      ensures Valid()
      ensures Queried(certificate, answer, memory) && CachesKept()
      ensures pending == Pending(false, answer, memory)
    {
      var ok := GetContext(certificate, true, memory);
      if !ok {
        return Some(OutOfMemory);
      }
      var load := certificate || alwaysLoadCertificate;
      ioctl.block := ioctl.block.(version := Version1, requestType := QueryRequestType(load),
                                  bufferAttached := load, bufferLen := if load then CertBufferSize else 0);
      var rc := Call(answer);
      if rc < 0 {
        return Some(Failure(answer));
      }
      queryLoaded := true;
      if load {
        certificateLoaded := true;
      }
      return None;
    }

    /** Reading the loaded block again: `getContext` without erasing, and no call. */
    twostate predicate Reused(loadCertificate: bool, memory: bool)
      reads this, ioctl, bufferCertificate
    {
      if memory then ContextObtained(loadCertificate, false) else Untouched()
    }

    /** The state after `requireQuery`: a reuse when the query is loaded, else a query. */
    twostate predicate QueryRequired(answer: Answer, memory: bool)
      requires answer.WellFormed()
      reads this, ioctl, bufferCertificate
    {
      if old(queryLoaded) then Reused(false, memory) else Queried(false, answer, memory)
    }

    /** The state after `requireCertificate`: a reuse when the certificate is loaded, else a query for it. */
    twostate predicate CertificateRequired(answer: Answer, memory: bool)
      requires answer.WellFormed()
      reads this, ioctl, bufferCertificate
    {
      if old(certificateLoaded) then Reused(true, memory) else Queried(true, answer, memory)
    }

    /** `requireQuery`: the query data, fetched only when they are not loaded. */
    method RequireQuery(answer: Answer, memory: bool) returns (pending: Option<JavaException>)
      requires Valid() && answer.WellFormed()
      modifies this, ioctl, bufferCertificate
      ensures Valid()
      ensures QueryRequired(answer, memory) && CachesKept()
      ensures pending == Pending(old(queryLoaded), answer, memory)
      ensures pending.None? ==> queryLoaded && ioctl != null
    {
      if queryLoaded {
        var ok := GetContext(false, false, memory);
        pending := if ok then None else Some(OutOfMemory);
      } else {
        pending := Query(false, answer, memory);
      }
    }

    /** `requireCertificate`: the certificate, fetched with a query only when it is not loaded. */
    method RequireCertificate(answer: Answer, memory: bool) returns (pending: Option<JavaException>)
      requires Valid() && answer.WellFormed()
      modifies this, ioctl, bufferCertificate
      ensures Valid()
      ensures CertificateRequired(answer, memory) && CachesKept()
      ensures pending == Pending(old(certificateLoaded), answer, memory)
      ensures pending.None? ==> certificateLoaded && ioctl != null && bufferCertificate != null
    {
      if certificateLoaded {
        var ok := GetContext(true, false, memory);
        pending := if ok then None else Some(OutOfMemory);
      } else {
        pending := Query(true, answer, memory);
      }
    }

    /** `cleanByteArray` on the three array fields: each existing array is zeroed. */
    method EraseArrays()
      requires Valid()
      modifies ioctl, bufferCertificate, certificateCache
      ensures ioctl != null ==> ioctl.block == ZeroBlock
      ensures bufferCertificate != null ==> bufferCertificate[..] == Zeros(CertBufferSize)
      ensures certificateCache != null ==> certificateCache[..] == Zeros(certificateCache.Length)
    {
      if ioctl != null {
        ioctl.block := ZeroBlock;
      }
      if bufferCertificate != null {
        Erase(bufferCertificate);
      }
      if certificateCache != null {
        Erase(certificateCache);
      }
    }

    /**
     * `clean`: clears both flags, zeroes and drops the three byte arrays
     * (including a certificate array already handed to a caller) and drops
     * every cached value.
     */
    method Clean()
      requires Valid()
      modifies this, ioctl, bufferCertificate, certificateCache
      ensures Valid()
      ensures ioctl == null && bufferCertificate == null && certificateCache == null
      ensures !queryLoaded && !certificateLoaded && NothingCached() && sent == old(sent)
      ensures old(ioctl) != null ==> old(ioctl).block == ZeroBlock
      ensures old(bufferCertificate) != null ==> old(bufferCertificate)[..] == Zeros(CertBufferSize)
      ensures old(certificateCache) != null ==>
        old(certificateCache)[..] == Zeros(old(certificateCache).Length)
    {
      EraseArrays();
      Forget();
    }

    /** The field assignments of `clean`: no flag, no array and no cached value is left. */
    method Forget()
      modifies this
      ensures ioctl == null && bufferCertificate == null && certificateCache == null
      ensures !queryLoaded && !certificateLoaded && NothingCached() && sent == old(sent)
      ensures Valid()
    {
      caches := NoCaches;
      queryLoaded, certificateLoaded := false, false;
      ioctl, bufferCertificate, certificateCache := null, null, null;
    }

    /** `getStatPolicy`: the cached value, or the table's constant for the reply's code, cached on success. */
    method GetStatPolicy(tables: Tables, answer: Answer, memory: bool)
      returns (r: Outcome<StatPolicyEnum.StatPolicy>)
      requires Valid() && tables.Valid() && answer.WellFormed()
      modifies this, ioctl, bufferCertificate
      ensures Valid()
      ensures old(caches.statPolicy).Some? ==>
        r == Return(old(caches.statPolicy).value) && Untouched() && CachesKept()
      ensures old(caches.statPolicy).None? ==>
        && QueryRequired(answer, memory)
        && var pending := Pending(old(queryLoaded), answer, memory);
        && (pending.Some? ==> r == Throw(pending.value))
        && (pending.None? ==> ioctl != null && r == GetEnum(tables.statPolicy, ioctl.block.reply.statPolicy))
        && caches == old(caches).(statPolicy := Cached(r))
        && certificateCache == old(certificateCache)
    {
      if caches.statPolicy.Some? {
        return Return(caches.statPolicy.value);
      }
      var pending := RequireQuery(answer, memory);
      if pending.Some? {
        return Throw(pending.value);
      }
      r := GetEnum(tables.statPolicy, ioctl.block.reply.statPolicy);
      if r.Return? {
        caches := caches.(statPolicy := Some(r.value));
      }
    }

    /** `getStatConn`: as `getStatPolicy`, for the connection status. */
    method GetStatConn(tables: Tables, answer: Answer, memory: bool)
      returns (r: Outcome<StatConnEnum.StatConn>)
      requires Valid() && tables.Valid() && answer.WellFormed()
      modifies this, ioctl, bufferCertificate
      ensures Valid()
      ensures old(caches.statConn).Some? ==>
        r == Return(old(caches.statConn).value) && Untouched() && CachesKept()
      ensures old(caches.statConn).None? ==>
        && QueryRequired(answer, memory)
        && var pending := Pending(old(queryLoaded), answer, memory);
        && (pending.Some? ==> r == Throw(pending.value))
        && (pending.None? ==> ioctl != null && r == GetEnum(tables.statConn, ioctl.block.reply.statConn))
        && caches == old(caches).(statConn := Cached(r))
        && certificateCache == old(certificateCache)
    {
      if caches.statConn.Some? {
        return Return(caches.statConn.value);
      }
      var pending := RequireQuery(answer, memory);
      if pending.Some? {
        return Throw(pending.value);
      }
      r := GetEnum(tables.statConn, ioctl.block.reply.statConn);
      if r.Return? {
        caches := caches.(statConn := Some(r.value));
      }
    }

    /**
     * `getProtocol`: the protocol of the reply's two bytes; the value is never
     * stored, so `caches.protocol` stays as it was.
     */
    method GetProtocol(answer: Answer, memory: bool) returns (r: Outcome<ProtocolEnum.Protocol>)
      requires Valid() && answer.WellFormed()
      modifies this, ioctl, bufferCertificate
      ensures Valid() && CachesKept()
      ensures old(caches.protocol).Some? ==> r == Return(old(caches.protocol).value) && Untouched()
      ensures old(caches.protocol).None? ==>
        && QueryRequired(answer, memory)
        && var pending := Pending(old(queryLoaded), answer, memory);
        && (pending.Some? ==> r == Throw(pending.value))
        && (pending.None? ==> ioctl != null && r == DecodeProtocol(ioctl.block.reply))
    {
      if caches.protocol.Some? {
        return Return(caches.protocol.value);
      }
      var pending := RequireQuery(answer, memory);
      if pending.Some? {
        return Throw(pending.value);
      }
      r := DecodeProtocol(ioctl.block.reply);
    }

    /** `getNegotiatedCipher2`: the two-character cipher field as a string, cached unless an exception. */
    method GetNegotiatedCipher2(answer: Answer, etoa: Transcoder, memory: bool, textMemory: bool)
      returns (r: Outcome<Option<string>>)
      requires Valid() && answer.WellFormed()
      modifies this, ioctl, bufferCertificate
      ensures Valid()
      ensures old(caches.negotiatedCipher2).Some? ==>
        r == Return(old(caches.negotiatedCipher2)) && Untouched() && CachesKept()
      ensures old(caches.negotiatedCipher2).None? ==>
        && QueryRequired(answer, memory)
        && var pending := Pending(old(queryLoaded), answer, memory);
        && (pending.Some? ==> r == Throw(pending.value))
        && (pending.None? ==>
              ioctl != null && r == GetJString(Some(ioctl.block.reply.cipher2), 2, etoa, textMemory))
        && caches == old(caches).(negotiatedCipher2 := CachedText(r))
        && certificateCache == old(certificateCache)
    {
      if caches.negotiatedCipher2.Some? {
        return Return(caches.negotiatedCipher2);
      }
      var pending := RequireQuery(answer, memory);
      if pending.Some? {
        return Throw(pending.value);
      }
      r := GetJString(Some(ioctl.block.reply.cipher2), 2, etoa, textMemory);
      caches := caches.(negotiatedCipher2 := CachedText(r));
    }

    /** `getSecurityType`: as `getStatPolicy`, for the security type. */
    method GetSecurityType(tables: Tables, answer: Answer, memory: bool)
      returns (r: Outcome<SecurityTypeEnum.SecurityType>)
      requires Valid() && tables.Valid() && answer.WellFormed()
      modifies this, ioctl, bufferCertificate
      ensures Valid()
      ensures old(caches.securityType).Some? ==>
        r == Return(old(caches.securityType).value) && Untouched() && CachesKept()
      ensures old(caches.securityType).None? ==>
        && QueryRequired(answer, memory)
        && var pending := Pending(old(queryLoaded), answer, memory);
        && (pending.Some? ==> r == Throw(pending.value))
        && (pending.None? ==>
              ioctl != null && r == GetEnum(tables.securityType, ioctl.block.reply.securityType))
        && caches == old(caches).(securityType := Cached(r))
        && certificateCache == old(certificateCache)
    {
      if caches.securityType.Some? {
        return Return(caches.securityType.value);
      }
      var pending := RequireQuery(answer, memory);
      if pending.Some? {
        return Throw(pending.value);
      }
      r := GetEnum(tables.securityType, ioctl.block.reply.securityType);
      if r.Return? {
        caches := caches.(securityType := Some(r.value));
      }
    }

    /**
     * `getUserId`: the user ID field up to its length (or a NUL) as a string;
     * a negative length gives null.
     */
    method GetUserId(answer: Answer, etoa: Transcoder, memory: bool, textMemory: bool)
      returns (r: Outcome<Option<string>>)
      requires Valid() && answer.WellFormed()
      modifies this, ioctl, bufferCertificate
      ensures Valid()
      ensures old(caches.userId).Some? ==>
        r == Return(old(caches.userId)) && Untouched() && CachesKept()
      ensures old(caches.userId).None? ==>
        && QueryRequired(answer, memory)
        && var pending := Pending(old(queryLoaded), answer, memory);
        && (pending.Some? ==> r == Throw(pending.value))
        && (pending.None? ==>
              ioctl != null && r == GetJString(Some(ioctl.block.reply.userId), ioctl.block.reply.userIdLen, etoa, textMemory))
        && caches == old(caches).(userId := CachedText(r))
        && certificateCache == old(certificateCache)
    {
      if caches.userId.Some? {
        return Return(caches.userId);
      }
      var pending := RequireQuery(answer, memory);
      if pending.Some? {
        return Throw(pending.value);
      }
      r := GetJString(Some(ioctl.block.reply.userId), ioctl.block.reply.userIdLen, etoa, textMemory);
      caches := caches.(userId := CachedText(r));
    }

    /** `getFips140`: as `getStatPolicy`, for the FIPS 140 level. */
    method GetFips140(tables: Tables, answer: Answer, memory: bool)
      returns (r: Outcome<Fips140Enum.Fips140>)
      requires Valid() && tables.Valid() && answer.WellFormed()
      modifies this, ioctl, bufferCertificate
      ensures Valid()
      ensures old(caches.fips140).Some? ==>
        r == Return(old(caches.fips140).value) && Untouched() && CachesKept()
      ensures old(caches.fips140).None? ==>
        && QueryRequired(answer, memory)
        && var pending := Pending(old(queryLoaded), answer, memory);
        && (pending.Some? ==> r == Throw(pending.value))
        && (pending.None? ==> ioctl != null && r == GetEnum(tables.fips140, ioctl.block.reply.fips140))
        && caches == old(caches).(fips140 := Cached(r))
        && certificateCache == old(certificateCache)
    {
      if caches.fips140.Some? {
        return Return(caches.fips140.value);
      }
      var pending := RequireQuery(answer, memory);
      if pending.Some? {
        return Throw(pending.value);
      }
      r := GetEnum(tables.fips140, ioctl.block.reply.fips140);
      if r.Return? {
        caches := caches.(fips140 := Some(r.value));
      }
    }

    /** `getFlags`: the flags byte of the query data, as a Java byte; never cached. */
    method GetFlags(answer: Answer, memory: bool) returns (r: Outcome<int8>)
      requires Valid() && answer.WellFormed()
      modifies this, ioctl, bufferCertificate
      ensures Valid() && CachesKept() && QueryRequired(answer, memory)
      ensures var pending := Pending(old(queryLoaded), answer, memory);
        && (pending.Some? ==> r == Throw(pending.value))
        && (pending.None? ==> ioctl != null && r == Return(ToJByte(ioctl.block.reply.flags)))
    {
      var pending := RequireQuery(answer, memory);
      if pending.Some? {
        return Throw(pending.value);
      }
      r := Return(ToJByte(ioctl.block.reply.flags));
    }

    /** `getNegotiatedCipher4`: as `getNegotiatedCipher2`, for the four-character field. */
    method GetNegotiatedCipher4(answer: Answer, etoa: Transcoder, memory: bool, textMemory: bool)
      returns (r: Outcome<Option<string>>)
      requires Valid() && answer.WellFormed()
      modifies this, ioctl, bufferCertificate
      ensures Valid()
      ensures old(caches.negotiatedCipher4).Some? ==>
        r == Return(old(caches.negotiatedCipher4)) && Untouched() && CachesKept()
      ensures old(caches.negotiatedCipher4).None? ==>
        && QueryRequired(answer, memory)
        && var pending := Pending(old(queryLoaded), answer, memory);
        && (pending.Some? ==> r == Throw(pending.value))
        && (pending.None? ==>
              ioctl != null && r == GetJString(Some(ioctl.block.reply.cipher4), 4, etoa, textMemory))
        && caches == old(caches).(negotiatedCipher4 := CachedText(r))
        && certificateCache == old(certificateCache)
    {
      if caches.negotiatedCipher4.Some? {
        return Return(caches.negotiatedCipher4);
      }
      var pending := RequireQuery(answer, memory);
      if pending.Some? {
        return Throw(pending.value);
      }
      r := GetJString(Some(ioctl.block.reply.cipher4), 4, etoa, textMemory);
      caches := caches.(negotiatedCipher4 := CachedText(r));
    }

    /**
     * `getCertificate`: the cached array, or a new array holding the first
     * `TTLSi_Cert_Len` bytes of the certificate buffer, which becomes the cache.
     */
    method GetCertificate(answer: Answer, memory: bool) returns (r: Outcome<array<uint8>>)
      requires Valid() && answer.WellFormed()
      modifies this, ioctl, bufferCertificate
      ensures Valid()
      ensures old(certificateCache) != null ==>
        r.Return? && r.value == old(certificateCache) && Untouched() && CachesKept()
      ensures old(certificateCache) == null ==>
        && CertificateRequired(answer, memory)
        && caches == old(caches)
        && var pending := Pending(old(certificateLoaded), answer, memory);
        && (pending.Some? ==> r == Throw(pending.value) && certificateCache == null)
        && (pending.None? ==>
              && ioctl != null && bufferCertificate != null && r.Return? && fresh(r.value)
              && r.value[..] == bufferCertificate[..ioctl.block.reply.certLen]
              && certificateCache == r.value)
    {
      if certificateCache != null {
        return Return(certificateCache);
      }
      var pending := RequireCertificate(answer, memory);
      if pending.Some? {
        return Throw(pending.value);
      }
      var len := ioctl.block.reply.certLen;
      var buffer := bufferCertificate;
      var out := new uint8[len](i requires 0 <= i < len reads buffer => buffer[i]);
      certificateCache := out;
      r := Return(out);
    }

    /**
     * The state after `issueCommand`: with the allocation failed nothing
     * changed; otherwise the flags are cleared, the command was sent alone on
     * an erased block without a buffer, the block holds the reply, an existing
     * certificate buffer is zeroed (or obtained, when always loading), and no
     * cached value is touched.
     */
    twostate predicate CommandIssued(command: Command, answer: Answer, memory: bool)
      reads this, ioctl, bufferCertificate
    {
      if !memory then Untouched()
      else
        && IoctlKeptOrNew()
        && ioctl.block == CommandBlock(command, answer.reply)
        && sent == old(sent) + [RequestOf(id, CommandBlock(command, answer.reply))]
        && CertificateBufferObtained(alwaysLoadCertificate, true)
        && !queryLoaded && !certificateLoaded
    }

    /** `issueCommand`: one control call carrying `command`. */
    method IssueCommand(command: Command, answer: Answer, memory: bool) returns (thrown: Option<JavaException>)
      requires Valid() && answer.WellFormed()
      modifies this, ioctl, bufferCertificate
      ensures Valid() && CachesKept()
      ensures CommandIssued(command, answer, memory)
      ensures thrown == Pending(false, answer, memory)
    {
      var ok := GetContext(false, true, memory);
      if !ok {
        return Some(OutOfMemory);
      }
      thrown := SendCommand(command, answer);
    }

    /** The part of `issueCommand` after `getContext`: clear the flags, fill the block, call. */
    method SendCommand(command: Command, answer: Answer) returns (thrown: Option<JavaException>)
      requires ioctl != null && answer.WellFormed()
      modifies this`queryLoaded, this`certificateLoaded, this`sent, ioctl
      ensures ioctl.block == CommandBlock(command, answer.reply)
      ensures sent == old(sent) + [RequestOf(id, CommandBlock(command, answer.reply))]
      ensures !queryLoaded && !certificateLoaded
      ensures thrown == CallOutcome(answer)
    {
      queryLoaded := false;
      certificateLoaded := false;
      ioctl.block := ioctl.block.(version := Version1, requestType := CommandRequestType(command),
                                  bufferAttached := false, bufferLen := 0);
      var rc := Call(answer);
      thrown := if rc < 0 then Some(Failure(answer)) else None;
    }

    method InitConnection(answer: Answer, memory: bool) returns (thrown: Option<JavaException>)
      requires Valid() && answer.WellFormed()
      modifies this, ioctl, bufferCertificate
      ensures Valid() && CachesKept()
      ensures CommandIssued(Command.InitConnection, answer, memory)
      ensures thrown == Pending(false, answer, memory)
    {
      thrown := IssueCommand(Command.InitConnection, answer, memory);
    }

    method ResetSession(answer: Answer, memory: bool) returns (thrown: Option<JavaException>)
      requires Valid() && answer.WellFormed()
      modifies this, ioctl, bufferCertificate
      ensures Valid() && CachesKept()
      ensures CommandIssued(Command.ResetSession, answer, memory)
      ensures thrown == Pending(false, answer, memory)
    {
      thrown := IssueCommand(Command.ResetSession, answer, memory);
    }

    method ResetCipher(answer: Answer, memory: bool) returns (thrown: Option<JavaException>)
      requires Valid() && answer.WellFormed()
      modifies this, ioctl, bufferCertificate
      ensures Valid() && CachesKept()
      ensures CommandIssued(Command.ResetCipher, answer, memory)
      ensures thrown == Pending(false, answer, memory)
    {
      thrown := IssueCommand(Command.ResetCipher, answer, memory);
    }

    method StopConnection(answer: Answer, memory: bool) returns (thrown: Option<JavaException>)
      requires Valid() && answer.WellFormed()
      modifies this, ioctl, bufferCertificate
      ensures Valid() && CachesKept()
      ensures CommandIssued(Command.StopConnection, answer, memory)
      ensures thrown == Pending(false, answer, memory)
    {
      thrown := IssueCommand(Command.StopConnection, answer, memory);
    }

    method AllowHandShakeTimeout(answer: Answer, memory: bool) returns (thrown: Option<JavaException>)
      requires Valid() && answer.WellFormed()
      modifies this, ioctl, bufferCertificate
      ensures Valid() && CachesKept()
      ensures CommandIssued(Command.AllowHandshakeTimeout, answer, memory)
      ensures thrown == Pending(false, answer, memory)
    {
      thrown := IssueCommand(Command.AllowHandshakeTimeout, answer, memory);
    }
  }
}
