/**
 * The AT-TLS control call (the `SIOCTTLSCTL` ioctl) as the native code uses
 * it: a control block holding the request (version, request type, certificate
 * buffer) and, after the call, the kernel's reply. The kernel itself is an
 * oracle: each call's `Answer` is a parameter of the operation that makes it.
 *
 * The platform header that fixes the block's byte layout and the numeric
 * request-type bits (`ezbztlsc.h`) is not part of this model: the block is a
 * record of the fields the code reads and writes, and a request type is the
 * set of request bits it combines.
 */
module ControlCall {
  import opened Base

  /** `BUFFER_CERTIFICATE_LENGTH`: the size of the certificate buffer. */
  const CertBufferSize: nat := 10240

  /** `TTLSi_Ver`: unset in a zeroed block, `TTLS_VERSION1` in every request. */
  datatype Version = Unset | Version1

  /** The control commands a connection can be sent. */
  datatype Command =
    | InitConnection
    | ResetSession
    | ResetCipher
    | StopConnection
    | AllowHandshakeTimeout
    | ResetWriteCipher
    | SendSessionTicket

  /** One bit of `TTLSi_Req_Type`. */
  datatype RequestBit = QueryOnly | ReturnCertificate | Do(command: Command)

  /** The reply fields of the block that the getters decode. */
  datatype Reply = Reply(
    statPolicy: uint8,
    statConn: uint8,
    protocolVersion: uint8,
    protocolMod: uint8,
    cipher2: seq<uint8>,
    securityType: uint8,
    userId: seq<uint8>,
    userIdLen: int,
    fips140: uint8,
    flags: uint8,
    cipher4: seq<uint8>,
    keyShare: seq<uint8>,
    certLen: int)
  {
    /**
     * The shape the kernel's reply has: fixed-size text fields, a user ID
     * length within its field and a certificate length within the buffer.
     */
    ghost predicate WellFormed()
    {
      && |cipher2| == 2 && |cipher4| == 4 && |keyShare| == 4
      && |userId| == 8 && userIdLen <= 8
      && 0 <= certLen <= CertBufferSize
    }
  }

  const ZeroReply: Reply := Reply(0, 0, 0, 0, Zeros(2), 0, Zeros(8), 0, 0, 0, Zeros(4), Zeros(4), 0)

  /** The control block: the request part the caller fills, and the reply. */
  datatype Block = Block(
    version: Version,
    requestType: set<RequestBit>,
    bufferAttached: bool,   // TTLSi_BufferPtr is the certificate buffer, not NULL
    bufferLen: int,         // TTLSi_BufferLen
    reply: Reply)

  /** A block of zero bytes. */
  const ZeroBlock: Block := Block(Unset, {}, false, 0, ZeroReply)

  /** What one control call sent to the kernel, for socket `socket`. */
  datatype Request = Request(socket: int, version: Version, requestType: set<RequestBit>,
                             bufferAttached: bool, bufferLen: int)

  function RequestOf(socket: int, b: Block): Request
  {
    Request(socket, b.version, b.requestType, b.bufferAttached, b.bufferLen)
  }

  /**
   * The kernel's side of one call: the return code with `errno` and the
   * reason code, the reply it writes into the block, and the bytes it writes
   * into the certificate buffer when one is attached.
   */
  datatype Answer = Answer(rc: int, errno: int, errno2: int, reply: Reply, certificate: seq<uint8>)
  {
    ghost predicate WellFormed()
    {
      reply.WellFormed() && |certificate| <= CertBufferSize
    }
  }

  /** The exception a negative return code becomes. */
  function Failure(a: Answer): JavaException
  {
    IoctlCallException(a.rc, a.errno, a.errno2)
  }

  /**
   * The request type of a query: always a query, asking for the certificate
   * as well exactly when it is to be loaded, never a command.
   */
  function QueryRequestType(loadCertificate: bool): (t: set<RequestBit>)
    ensures QueryOnly in t
    ensures ReturnCertificate in t <==> loadCertificate
    ensures forall c :: Do(c) !in t
  {
    if loadCertificate then {QueryOnly, ReturnCertificate} else {QueryOnly}
  }

  /**
   * The request type built from nothing by OR-ing in the query and the
   * certificate bits on demand.
   */
  function LoadRequestType(query: bool, certificate: bool): (t: set<RequestBit>)
    ensures QueryOnly in t <==> query
    ensures ReturnCertificate in t <==> certificate
    ensures forall c :: Do(c) !in t
  {
    (if query then {QueryOnly} else {}) + (if certificate then {ReturnCertificate} else {})
  }

  /** The request type of a command: that command's bit alone. */
  function CommandRequestType(c: Command): (t: set<RequestBit>)
    ensures forall b :: b in t <==> b == Do(c)
  {
    {Do(c)}
  }

  /** The block a command is sent in: version 1, the command alone, no buffer. */
  function CommandBlock(command: Command, reply: Reply): (b: Block)
    ensures forall bit :: bit in b.requestType <==> bit == Do(command)
    ensures !b.bufferAttached && b.bufferLen == 0
  {
    Block(Version1, CommandRequestType(command), false, 0, reply)
  }

  /** The Java `byte[] ioctl` field: the raw control block, updated in place. */
  class IoctlBuffer {
    var block: Block

    /** `NewByteArray`: a block of zero bytes. */
    constructor ()
      ensures block == ZeroBlock
    {
      block := ZeroBlock;
    }
  }

  /** `bytes` written over the start of `buffer`. */
  function Overwritten(buffer: seq<uint8>, bytes: seq<uint8>): (r: seq<uint8>)
    requires |bytes| <= |buffer|
    ensures |r| == |buffer|
    ensures forall i :: 0 <= i < |bytes| ==> r[i] == bytes[i]
    ensures forall i :: |bytes| <= i < |buffer| ==> r[i] == buffer[i]
  {
    bytes + buffer[|bytes|..]
  }

  /** The kernel writing `bytes` at the start of the certificate buffer. */
  method WriteCertificate(buffer: array<uint8>, bytes: seq<uint8>)
    requires |bytes| <= buffer.Length
    modifies buffer
    ensures buffer[..] == Overwritten(old(buffer[..]), bytes)
  {
    forall i | 0 <= i < |bytes| {
      buffer[i] := bytes[i];
    }
  }

  /** `memset(.., 0, ..)` or `Arrays.fill(.., 0)` on a byte array. */
  method Erase(buffer: array<uint8>)
    modifies buffer
    ensures buffer[..] == Zeros(buffer.Length)
  {
    forall i | 0 <= i < buffer.Length {
      buffer[i] := 0;
    }
  }
}
