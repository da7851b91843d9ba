/**
 * `InboundAttls`: the per-thread holder of the AT-TLS context of the
 * connection a thread is serving. It creates a context on `init`, drops it on
 * `dispose`, and forwards each call to the context it holds, throwing
 * `ContextIsNotInitializedException` when there is none.
 *
 * The Java class keeps its state in statics: a `ThreadLocal` of contexts and
 * the `alwaysLoadCertificate` flag. An object of the class below is that state
 * as one thread sees it: its own slot of the thread-local and the flag.
 */
module Inbound {
  import opened Base
  import opened ControlCall
  import opened EnumMaps
  import opened Registry
  import opened Text
  import opened Session
  import opened Attls
  import StatPolicyEnum
  import StatConnEnum
  import ProtocolEnum
  import SecurityTypeEnum
  import Fips140Enum

  const NotInitialized: JavaException := ContextIsNotInitializedException

  class InboundAttls {
    /** This thread's value of `contexts`; null when none was set or it was removed. */
    var context: AttlsContext?
    var alwaysLoadCertificate: bool

    constructor ()
      ensures context == null && !alwaysLoadCertificate
    {
      context := null;
      alwaysLoadCertificate := false;
    }

    /** A context held is a valid one. */
    ghost predicate Valid()
      reads this, context, if context != null then {context.ioctl} else {}
    {
      context != null ==> context.Valid()
    }

    /** The generated setter of `alwaysLoadCertificate`. */
    method SetAlwaysLoadCertificate(value: bool)
      modifies this`alwaysLoadCertificate
      ensures alwaysLoadCertificate == value && context == old(context)
    {
      alwaysLoadCertificate := value;
    }

    /**
     * `init`: a new context for socket `id`, taking the current
     * `alwaysLoadCertificate`, replaces whatever context this thread held.
     */
    method Init(id: int)
      modifies this`context
      ensures context != null && fresh(context) && Valid()
      ensures context.id == id && context.alwaysLoadCertificate == alwaysLoadCertificate
      ensures !context.queryLoaded && !context.certificateLoaded && context.NothingCached()
      ensures context.ioctl == null && context.bufferCertificate == null && context.sent == []
    {
      context := new AttlsContext(id, alwaysLoadCertificate);
    }

    /** `dispose`: this thread holds no context any more. */
    method Dispose()
      modifies this`context
      ensures context == null && alwaysLoadCertificate == old(alwaysLoadCertificate)
    {
      context := null;
    }

    /** `get`: the context this thread holds, or `ContextIsNotInitializedException`. */
    method Get() returns (r: Outcome<AttlsContext>)
      ensures r.Throw? <==> context == null
      ensures r.Throw? ==> r.exception == NotInitialized
      ensures r.Return? ==> r.value == context
    {
      if context == null {
        return Throw(NotInitialized);
      }
      return Return(context);
    }

    /** `clean`: the held context's `clean`. */
    method Clean() returns (thrown: Option<JavaException>)
      requires Valid()
      modifies context
      ensures context == old(context) && Valid()
      ensures context == null ==> thrown == Some(NotInitialized)
      ensures context != null ==>
        && thrown.None?
        && !context.queryLoaded && !context.certificateLoaded && context.NothingCached()
        && context.ioctl == old(context.ioctl) && context.bufferCertificate == old(context.bufferCertificate)
        && context.sent == old(context.sent)
    {
      var c := Get();
      if c.Throw? {
        return Some(c.exception);
      }
      c.value.Clean();
      thrown := None;
    }

    /** `getStatPolicy`: the held context's `getStatPolicy`. */
    method GetStatPolicy(tables: Tables, answer: Answer) returns (r: Outcome<StatPolicyEnum.StatPolicy>)
      requires Valid() && tables.Valid() && answer.WellFormed()
      modifies context, if context != null then {context.bufferCertificate} else {}
      ensures context == old(context) && Valid()
      ensures context == null ==> r == Throw(NotInitialized)
      ensures context != null ==> context.StatPolicyRead(tables, answer, r)
    {
      var c := Get();
      if c.Throw? {
        return Throw(c.exception);
      }
      r := c.value.GetStatPolicy(tables, answer);
    }

    /** `getStatConn`: the held context's `getStatConn`. */
    method GetStatConn(tables: Tables, answer: Answer) returns (r: Outcome<StatConnEnum.StatConn>)
      requires Valid() && tables.Valid() && answer.WellFormed()
      modifies context, if context != null then {context.bufferCertificate} else {}
      ensures context == old(context) && Valid()
      ensures context == null ==> r == Throw(NotInitialized)
      ensures context != null ==> context.StatConnRead(tables, answer, r)
    {
      var c := Get();
      if c.Throw? {
        return Throw(c.exception);
      }
      r := c.value.GetStatConn(tables, answer);
    }

    /** `getProtocol`: the held context's `getProtocol`. */
    method GetProtocol(answer: Answer) returns (r: Outcome<ProtocolEnum.Protocol>)
      requires Valid() && answer.WellFormed()
      modifies context, if context != null then {context.bufferCertificate} else {}
      ensures context == old(context) && Valid()
      ensures context == null ==> r == Throw(NotInitialized)
      ensures context != null ==> context.ProtocolRead(answer, r)
    {
      var c := Get();
      if c.Throw? {
        return Throw(c.exception);
      }
      r := c.value.GetProtocol(answer);
    }

    /** `getNegotiatedCipher2`: the held context's `getNegotiatedCipher2`. */
    method GetNegotiatedCipher2(answer: Answer, etoa: Transcoder) returns (r: Outcome<Option<string>>)
      requires Valid() && answer.WellFormed()
      modifies context, if context != null then {context.bufferCertificate} else {}
      ensures context == old(context) && Valid()
      ensures context == null ==> r == Throw(NotInitialized)
      ensures context != null ==> context.NegotiatedCipher2Read(answer, etoa, r)
    {
      var c := Get();
      if c.Throw? {
        return Throw(c.exception);
      }
      r := c.value.GetNegotiatedCipher2(answer, etoa);
    }

    /** `getSecurityType`: the held context's `getSecurityType`. */
    method GetSecurityType(tables: Tables, answer: Answer) returns (r: Outcome<SecurityTypeEnum.SecurityType>)
      requires Valid() && tables.Valid() && answer.WellFormed()
      modifies context, if context != null then {context.bufferCertificate} else {}
      ensures context == old(context) && Valid()
      ensures context == null ==> r == Throw(NotInitialized)
      ensures context != null ==> context.SecurityTypeRead(tables, answer, r)
    {
      var c := Get();
      if c.Throw? {
        return Throw(c.exception);
      }
      r := c.value.GetSecurityType(tables, answer);
    }

    /** `getUserId`: the held context's `getUserId`. */
    method GetUserId(answer: Answer, etoa: Transcoder) returns (r: Outcome<Option<string>>)
      requires Valid() && answer.WellFormed()
      modifies context, if context != null then {context.bufferCertificate} else {}
      ensures context == old(context) && Valid()
      ensures context == null ==> r == Throw(NotInitialized)
      ensures context != null ==> context.UserIdRead(answer, etoa, r)
    {
      var c := Get();
      if c.Throw? {
        return Throw(c.exception);
      }
      r := c.value.GetUserId(answer, etoa);
    }

    /** `getFips140`: the held context's `getFips140`. */
    method GetFips140(tables: Tables, answer: Answer) returns (r: Outcome<Fips140Enum.Fips140>)
      requires Valid() && tables.Valid() && answer.WellFormed()
      modifies context, if context != null then {context.bufferCertificate} else {}
      ensures context == old(context) && Valid()
      ensures context == null ==> r == Throw(NotInitialized)
      ensures context != null ==> context.Fips140Read(tables, answer, r)
    {
      var c := Get();
      if c.Throw? {
        return Throw(c.exception);
      }
      r := c.value.GetFips140(tables, answer);
    }

    /** `getFlags`: the held context's `getFlags`. */
    method GetFlags(answer: Answer) returns (r: Outcome<int8>)
      requires Valid() && answer.WellFormed()
      modifies context, if context != null then {context.bufferCertificate} else {}
      ensures context == old(context) && Valid()
      ensures context == null ==> r == Throw(NotInitialized)
      ensures context != null ==> context.FlagsRead(answer, r)
    {
      var c := Get();
      if c.Throw? {
        return Throw(c.exception);
      }
      r := c.value.GetFlags(answer);
    }

    /** `getNegotiatedCipher4`: the held context's `getNegotiatedCipher4`. */
    method GetNegotiatedCipher4(answer: Answer, etoa: Transcoder) returns (r: Outcome<Option<string>>)
      requires Valid() && answer.WellFormed()
      modifies context, if context != null then {context.bufferCertificate} else {}
      ensures context == old(context) && Valid()
      ensures context == null ==> r == Throw(NotInitialized)
      ensures context != null ==> context.NegotiatedCipher4Read(answer, etoa, r)
    {
      var c := Get();
      if c.Throw? {
        return Throw(c.exception);
      }
      r := c.value.GetNegotiatedCipher4(answer, etoa);
    }

    /** `getNegotiatedKeyShare`: the held context's `getNegotiatedKeyShare`. */
    method GetNegotiatedKeyShare(answer: Answer, etoa: Transcoder) returns (r: Outcome<Option<string>>)
      requires Valid() && answer.WellFormed()
      modifies context, if context != null then {context.bufferCertificate} else {}
      ensures context == old(context) && Valid()
      ensures context == null ==> r == Throw(NotInitialized)
      ensures context != null ==> context.NegotiatedKeyShareRead(answer, etoa, r)
    {
      var c := Get();
      if c.Throw? {
        return Throw(c.exception);
      }
      r := c.value.GetNegotiatedKeyShare(answer, etoa);
    }

    /** `getCertificate`: the held context's `getCertificate`. */
    method GetCertificate(answer: Answer) returns (r: Outcome<array<uint8>>)
      requires Valid() && answer.WellFormed()
      modifies context, if context != null then {context.bufferCertificate} else {}
      ensures context == old(context) && Valid()
      ensures context == null ==> r == Throw(NotInitialized)
      ensures context != null ==> context.CertificateRead(answer, r)
    {
      var c := Get();
      if c.Throw? {
        return Throw(c.exception);
      }
      r := c.value.GetCertificate(answer);
    }

    /** `resetSession`: the held context's `resetSession`. */
    method ResetSession(answer: Answer) returns (thrown: Option<JavaException>)
      requires Valid() && answer.WellFormed()
      modifies context
      ensures context == old(context) && Valid()
      ensures context == null ==> thrown == Some(NotInitialized)
      ensures context != null ==>
        context.CommandIssued(Command.ResetSession, answer) && context.CachesKept() && thrown == CallOutcome(answer)
    {
      var c := Get();
      if c.Throw? {
        return Some(c.exception);
      }
      thrown := c.value.ResetSession(answer);
    }

    /** `resetCipher`: the held context's `resetCipher`. */
    method ResetCipher(answer: Answer) returns (thrown: Option<JavaException>)
      requires Valid() && answer.WellFormed()
      modifies context
      ensures context == old(context) && Valid()
      ensures context == null ==> thrown == Some(NotInitialized)
      ensures context != null ==>
        context.CommandIssued(Command.ResetCipher, answer) && context.CachesKept() && thrown == CallOutcome(answer)
    {
      var c := Get();
      if c.Throw? {
        return Some(c.exception);
      }
      thrown := c.value.ResetCipher(answer);
    }
  }

  /**
   * A thread's life: `init` with the flag set gives a context for that socket
   * taking the flag, `get` returns it, and after `dispose` `get` throws.
   */
  method InitThenDispose(id: int) returns (h: InboundAttls, r1: Outcome<AttlsContext>, r2: Outcome<AttlsContext>)
    ensures r1.Return? && r1.value.id == id && r1.value.alwaysLoadCertificate
    ensures r2 == Throw(NotInitialized)
  {
    h := new InboundAttls();
    h.SetAlwaysLoadCertificate(true);
    h.Init(id);
    r1 := h.Get();
    h.Dispose();
    r2 := h.Get();
  }

  /** A getter with no context held throws and sends nothing. */
  method GetterWithoutContext(tables: Tables, answer: Answer) returns (h: InboundAttls, r: Outcome<StatPolicyEnum.StatPolicy>)
    requires tables.Valid() && answer.WellFormed()
    ensures r == Throw(NotInitialized) && h.context == null
  {
    h := new InboundAttls();
    r := h.GetStatPolicy(tables, answer);
  }

  /** Through the holder, the first getter of a new context loads the query data with one call. */
  method GetterThroughHolder(tables: Tables, id: int, answer: Answer)
    returns (h: InboundAttls, r: Outcome<StatPolicyEnum.StatPolicy>)
    requires tables.Valid() && answer.WellFormed()
    ensures h.context != null
    ensures r == Fetched(CallOutcome(answer), GetEnum(tables.statPolicy, answer.reply.statPolicy))
    ensures h.context.sent == [RequestOf(id, LoadBlock(true, false, ZeroReply))]
  {
    h := new InboundAttls();
    h.Init(id);
    r := h.GetStatPolicy(tables, answer);
  }
}
