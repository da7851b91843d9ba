/**
 * Sequences of calls on a new attls `AttlsContext`, each with the kernel
 * answers it meets, and what they return and send. Since the loaded flags are
 * never set, only a cached value spares a control call: each getter without
 * a cached value calls the kernel again, the certificate is fetched on its
 * own even when always loaded, and `clean` leaves the arrays as they are.
 */
module AttlsScenarios {
  import opened Base
  import opened ControlCall
  import opened EnumMaps
  import opened Registry
  import opened Session
  import opened Attls
  import StatPolicyEnum
  import StatConnEnum

  /** The request `load` sends for the query data, the certificate, or both. */
  function LoadRequest(id: int, query: bool, certificate: bool): Request
  {
    RequestOf(id, LoadBlock(query, certificate, ZeroReply))
  }

  /** Two getters without cached values make two calls, each decoding its own reply. */
  method UncachedGettersCallEachTime(tables: Tables, id: int, first: Answer, second: Answer)
    returns (c: AttlsContext, r1: Outcome<StatPolicyEnum.StatPolicy>, r2: Outcome<StatConnEnum.StatConn>)
    requires tables.Valid() && first.WellFormed() && second.WellFormed()
    ensures r1 == Fetched(CallOutcome(first), GetEnum(tables.statPolicy, first.reply.statPolicy))
    ensures r2 == Fetched(CallOutcome(second), GetEnum(tables.statConn, second.reply.statConn))
    ensures c.sent == [LoadRequest(id, true, false), LoadRequest(id, true, false)]
    ensures !c.queryLoaded && !c.certificateLoaded
  {
    c := new AttlsContext(id, false);
    r1 := c.GetStatPolicy(tables, first);
    r2 := c.GetStatConn(tables, second);
  }

  /** A getter called twice answers from its cache the second time, without a call. */
  method RepeatedGetterCached(tables: Tables, id: int, first: Answer, second: Answer)
    returns (c: AttlsContext, r1: Outcome<StatPolicyEnum.StatPolicy>, r2: Outcome<StatPolicyEnum.StatPolicy>)
    requires tables.Valid() && first.WellFormed() && second.WellFormed() && 0 <= first.rc
    ensures r1 == GetEnum(tables.statPolicy, first.reply.statPolicy)
    ensures r1.Return? ==> r2 == r1 && c.sent == [LoadRequest(id, true, false)]
    ensures r1.Throw? ==> r2 == Fetched(CallOutcome(second), GetEnum(tables.statPolicy, second.reply.statPolicy))
  {
    c := new AttlsContext(id, false);
    r1 := c.GetStatPolicy(tables, first);
    r2 := c.GetStatPolicy(tables, second);
  }

  /**
   * The certificate is asked for alone, without the query bit, and read from
   * the buffer the kernel wrote it into.
   */
  method CertificateAlone(id: int, first: Answer)
    returns (c: AttlsContext, r: Outcome<array<uint8>>)
    requires first.WellFormed() && 0 <= first.rc
    ensures c.sent == [LoadRequest(id, false, true)]
    ensures r.Return?
    ensures r.value[..] == Overwritten(Zeros(CertBufferSize), first.certificate)[..first.reply.certLen]
  {
    c := new AttlsContext(id, false);
    r := c.GetCertificate(first);
  }

  /**
   * With `alwaysLoadCertificate` a getter loads the certificate along with
   * the query data, yet `getCertificate` still makes a call of its own and
   * copies what that call wrote over the first certificate.
   */
  method AlwaysLoadCertificateCallsAgain(tables: Tables, id: int, first: Answer, second: Answer)
    returns (c: AttlsContext, r1: Outcome<StatPolicyEnum.StatPolicy>, r2: Outcome<array<uint8>>)
    requires tables.Valid() && first.WellFormed() && second.WellFormed() && 0 <= second.rc
    ensures r1 == Fetched(CallOutcome(first), GetEnum(tables.statPolicy, first.reply.statPolicy))
    ensures c.sent == [LoadRequest(id, true, true), LoadRequest(id, false, true)]
    ensures r2.Return?
    ensures r2.value[..] ==
      Overwritten(Overwritten(Zeros(CertBufferSize), first.certificate), second.certificate)[..second.reply.certLen]
  {
    c := new AttlsContext(id, true);
    r1 := c.GetStatPolicy(tables, first);
    r2 := c.GetCertificate(second);
  }

  /** `clean` drops the cached certificate but leaves the array handed out as it was. */
  method CleanKeepsReturnedCertificate(id: int, first: Answer)
    returns (c: AttlsContext, r: Outcome<array<uint8>>)
    requires first.WellFormed() && 0 <= first.rc
    ensures r.Return?
    ensures r.value[..] == Overwritten(Zeros(CertBufferSize), first.certificate)[..first.reply.certLen]
    ensures c.certificateCache == null && c.bufferCertificate != null
  {
    c := new AttlsContext(id, false);
    r := c.GetCertificate(first);
    c.Clean();
  }

  /** A command leaves the cached values: a getter called after it answers from its cache without a call. */
  method CommandKeepsCachedValues(tables: Tables, id: int, first: Answer, second: Answer, third: Answer)
    returns (c: AttlsContext, r1: Outcome<StatPolicyEnum.StatPolicy>, r3: Outcome<StatPolicyEnum.StatPolicy>)
    requires tables.Valid() && first.WellFormed() && second.WellFormed() && third.WellFormed()
    requires 0 <= first.rc
    ensures r1 == GetEnum(tables.statPolicy, first.reply.statPolicy)
    ensures r1.Return? ==> r3 == r1
    ensures r1.Return? ==> c.sent == [LoadRequest(id, true, false), RequestOf(id, CommandBlock(ResetSession, ZeroReply))]
  {
    c := new AttlsContext(id, false);
    r1 := c.GetStatPolicy(tables, first);
    var thrown := c.ResetSession(second);
    r3 := c.GetStatPolicy(tables, third);
  }
}
