/**
 * What the two native variants of the context share: the decoded cache slots
 * of `AttlsContext` (all but the certificate cache, which is a byte array),
 * the decoding of the two protocol bytes through `Protocol.valueOf`, the
 * exception a failed control call raises, and how a getter combines that
 * exception, the decoded value and its cache slot.
 */
module Session {
  import opened Base
  import opened ControlCall
  import StatPolicyEnum
  import StatConnEnum
  import ProtocolEnum
  import SecurityTypeEnum
  import Fips140Enum

  /** The nine object-valued cache fields; `None` is Java's null. */
  datatype CacheSlots = CacheSlots(
    statPolicy: Option<StatPolicyEnum.StatPolicy>,
    statConn: Option<StatConnEnum.StatConn>,
    protocol: Option<ProtocolEnum.Protocol>,
    negotiatedCipher2: Option<string>,
    securityType: Option<SecurityTypeEnum.SecurityType>,
    userId: Option<string>,
    fips140: Option<Fips140Enum.Fips140>,
    negotiatedCipher4: Option<string>,
    negotiatedKeyShare: Option<string>)

  const NoCaches: CacheSlots := CacheSlots(None, None, None, None, None, None, None, None, None)

  /** The exception a control call leaves pending: one exactly for a negative return code. */
  function CallOutcome(answer: Answer): (e: Option<JavaException>)
    ensures e.Some? <==> answer.rc < 0
    ensures e.Some? ==> e.value == IoctlCallException(answer.rc, answer.errno, answer.errno2)
  {
    if answer.rc < 0 then Some(Failure(answer)) else None
  }

  /** A getter's result: the pending exception if there is one, else the decoded value. */
  function Fetched<T>(pending: Option<JavaException>, decoded: Outcome<T>): Outcome<T>
  {
    match pending
    case Some(e) => Throw(e)
    case None => decoded
  }

  /** What a getter stores in its cache field: the value it returns, or null after an exception. */
  function Cached<T>(r: Outcome<T>): Option<T>
  {
    match r
    case Return(v) => Some(v)
    case Throw(_) => None
  }

  /** The same for a getter of a string that may be null. */
  function CachedText(r: Outcome<Option<string>>): Option<string>
  {
    match r
    case Return(v) => v
    case Throw(_) => None
  }

  /**
   * `Protocol.valueOf` on the reply's version and modification bytes (each
   * cast to a Java byte); an unknown pair raises `UnknownEnumValueException`
   * carrying both bytes.
   */
  function DecodeProtocol(reply: Reply): (r: Outcome<ProtocolEnum.Protocol>)
    ensures r.Return? <==> ProtocolEnum.Known(ToJByte(reply.protocolVersion), ToJByte(reply.protocolMod))
    ensures r.Return? ==> ProtocolEnum.Version(r.value) == ToJByte(reply.protocolVersion)
    ensures r.Return? ==> ProtocolEnum.Mod(r.value) == ToJByte(reply.protocolMod)
    ensures r.Throw? ==> r.exception == UnknownEnumPairException(
      ProtocolClass, ToJByte(reply.protocolVersion), ToJByte(reply.protocolMod))
  {
    var version := ToJByte(reply.protocolVersion);
    var mod := ToJByte(reply.protocolMod);
    match ProtocolEnum.ValueOf(version, mod)
    case Some(p) => Return(p)
    case None => Throw(UnknownEnumPairException(ProtocolClass, version, mod))
  }

  /** The version and modification bytes of a protocol, as the reply carries them. */
  lemma DecodeProtocolOfKey(p: ProtocolEnum.Protocol, reply: Reply)
    requires reply.protocolVersion == ProtocolEnum.Version(p) && reply.protocolMod == ProtocolEnum.Mod(p)
    ensures DecodeProtocol(reply) == Return(p)
  {
    ProtocolEnum.ValueOfKey(p);
  }
}
