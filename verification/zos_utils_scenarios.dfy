/**
 * Sequences of calls on a new zos-utils `AttlsContext`, each with the kernel
 * answers it meets, and what they return and send. They show the caching
 * discipline the class promises: one control call serves every getter until
 * `clean`, the certificate costs a second call unless it is always loaded,
 * and a command forgets the loaded data but not the cached values.
 */
module ZosUtilsScenarios {
  import opened Base
  import opened ControlCall
  import opened EnumMaps
  import opened Registry
  import opened Session
  import opened ZosUtilsContext
  import StatPolicyEnum
  import StatConnEnum

  /** The request of a query, with or without the certificate. */
  function QueryRequest(id: int, load: bool): Request
  {
    RequestOf(id, QueryBlock(load, ZeroReply))
  }

  /** A getter called twice makes one control call and answers the same both times. */
  method RepeatedGetterCallsOnce(tables: Tables, id: int, first: Answer, second: Answer)
    returns (c: AttlsContext, r1: Outcome<StatPolicyEnum.StatPolicy>, r2: Outcome<StatPolicyEnum.StatPolicy>)
    requires tables.Valid() && first.WellFormed() && second.WellFormed() && 0 <= first.rc
    ensures r1 == GetEnum(tables.statPolicy, first.reply.statPolicy) && r2 == r1
    ensures c.sent == [QueryRequest(id, false)]
  {
    c := new AttlsContext(id, false);
    r1 := c.GetStatPolicy(tables, first, true);
    r2 := c.GetStatPolicy(tables, second, true);
  }

  /** A second getter decodes the reply the first one fetched, without a call. */
  method GettersShareOneQuery(tables: Tables, id: int, first: Answer, second: Answer)
    returns (c: AttlsContext, r1: Outcome<StatPolicyEnum.StatPolicy>, r2: Outcome<StatConnEnum.StatConn>)
    requires tables.Valid() && first.WellFormed() && second.WellFormed() && 0 <= first.rc
    ensures r1 == GetEnum(tables.statPolicy, first.reply.statPolicy)
    ensures r2 == GetEnum(tables.statConn, first.reply.statConn)
    ensures c.sent == [QueryRequest(id, false)]
  {
    c := new AttlsContext(id, false);
    r1 := c.GetStatPolicy(tables, first, true);
    r2 := c.GetStatConn(tables, second, true);
  }

  /** After `clean` the same getter fetches again and answers from the new reply. */
  method CleanForcesNewQuery(tables: Tables, id: int, first: Answer, second: Answer)
    returns (c: AttlsContext, r1: Outcome<StatPolicyEnum.StatPolicy>, r2: Outcome<StatPolicyEnum.StatPolicy>)
    requires tables.Valid() && first.WellFormed() && second.WellFormed() && 0 <= first.rc
    ensures r1 == GetEnum(tables.statPolicy, first.reply.statPolicy)
    ensures r2 == Fetched(CallOutcome(second), GetEnum(tables.statPolicy, second.reply.statPolicy))
    ensures c.sent == [QueryRequest(id, false), QueryRequest(id, false)]
  {
    c := new AttlsContext(id, false);
    r1 := c.GetStatPolicy(tables, first, true);
    c.Clean();
    r2 := c.GetStatPolicy(tables, second, true);
  }

  /**
   * With `alwaysLoadCertificate` the first query fetches the certificate too,
   * and `getCertificate` answers from it without a second call.
   */
  method AlwaysLoadCertificateSavesCall(tables: Tables, id: int, first: Answer, second: Answer)
    returns (c: AttlsContext, r1: Outcome<StatPolicyEnum.StatPolicy>, r2: Outcome<array<uint8>>)
    requires tables.Valid() && first.WellFormed() && second.WellFormed() && 0 <= first.rc
    ensures r1 == GetEnum(tables.statPolicy, first.reply.statPolicy)
    ensures r2.Return?
    ensures r2.value[..] == Overwritten(Zeros(CertBufferSize), first.certificate)[..first.reply.certLen]
    ensures c.sent == [QueryRequest(id, true)]
  {
    c := new AttlsContext(id, true);
    r1 := c.GetStatPolicy(tables, first, true);
    r2 := c.GetCertificate(second, true);
  }

  /** Without it, the certificate needs a second query, which asks for the certificate. */
  method CertificateOnDemand(tables: Tables, id: int, first: Answer, second: Answer)
    returns (c: AttlsContext, r1: Outcome<StatPolicyEnum.StatPolicy>, r2: Outcome<array<uint8>>)
    requires tables.Valid() && first.WellFormed() && second.WellFormed() && 0 <= first.rc && 0 <= second.rc
    ensures r1 == GetEnum(tables.statPolicy, first.reply.statPolicy)
    ensures r2.Return?
    ensures r2.value[..] == Overwritten(Zeros(CertBufferSize), second.certificate)[..second.reply.certLen]
    ensures c.sent == [QueryRequest(id, false), QueryRequest(id, true)]
  {
    c := new AttlsContext(id, false);
    r1 := c.GetStatPolicy(tables, first, true);
    r2 := c.GetCertificate(second, true);
  }

  /**
   * A command clears the loaded flags but not the caches: a cached value is
   * still returned without a call, while an uncached one is fetched anew.
   */
  method CommandKeepsCachedValues(tables: Tables, id: int, first: Answer, second: Answer, third: Answer)
    returns (c: AttlsContext, r1: Outcome<StatPolicyEnum.StatPolicy>, r3: Outcome<StatPolicyEnum.StatPolicy>,
             r4: Outcome<StatConnEnum.StatConn>)
    requires tables.Valid() && first.WellFormed() && second.WellFormed() && third.WellFormed()
    requires 0 <= first.rc
    ensures r1 == GetEnum(tables.statPolicy, first.reply.statPolicy)
    ensures r1.Return? ==> r3 == r1
    ensures r4 == Fetched(CallOutcome(third), GetEnum(tables.statConn, third.reply.statConn))
    ensures r1.Return? ==> c.sent == [QueryRequest(id, false), RequestOf(id, CommandBlock(ResetSession, ZeroReply)),
                                      QueryRequest(id, false)]
  {
    c := new AttlsContext(id, false);
    r1 := c.GetStatPolicy(tables, first, true);
    var thrown := c.ResetSession(second, true);
    r3 := c.GetStatPolicy(tables, third, true);
    r4 := c.GetStatConn(tables, third, true);
  }

  /**
   * A failed certificate query leaves the query data marked as loaded over
   * the failed call's block: the next getter decodes that block without a call.
   */
  method FailedCertificateQueryKeepsQueryLoaded(tables: Tables, id: int, first: Answer, second: Answer,
                                                third: Answer)
    returns (c: AttlsContext, r2: Outcome<array<uint8>>, r3: Outcome<StatConnEnum.StatConn>)
    requires tables.Valid() && first.WellFormed() && second.WellFormed() && third.WellFormed()
    requires 0 <= first.rc && second.rc < 0
    ensures r2 == Throw(Failure(second))
    ensures r3 == GetEnum(tables.statConn, second.reply.statConn)
    ensures c.sent == [QueryRequest(id, false), QueryRequest(id, true)]
  {
    c := new AttlsContext(id, false);
    var r1 := c.GetStatPolicy(tables, first, true);
    r2 := c.GetCertificate(second, true);
    r3 := c.GetStatConn(tables, third, true);
  }

  /** The certificate array handed out is the cache itself: `clean` zeroes it under the caller. */
  method CleanErasesReturnedCertificate(id: int, first: Answer)
    returns (c: AttlsContext, r: Outcome<array<uint8>>)
    requires first.WellFormed() && 0 <= first.rc
    ensures r.Return? && r.value.Length == first.reply.certLen
    ensures r.value[..] == Zeros(first.reply.certLen)
  {
    c := new AttlsContext(id, false);
    r := c.GetCertificate(first, true);
    c.Clean();
  }
}
