/** The `SecurityType` enum: the role the connection plays in the TLS handshake. */
module SecurityTypeEnum {
  import opened Base
  import Lookup

  datatype SecurityType =
    | Unknown          // AT-TLS is not enabled
    | Client
    | Server
    | ServerCaPass     // server with client authentication, ClientAuthType PassThru
    | ServerCaFull     // ClientAuthType Full
    | ServerCaReqd     // ClientAuthType Required
    | ServerCaSafChk   // ClientAuthType SAFCheck

  /** `getValue()`. */
  function Value(t: SecurityType): int8
  {
    match t
    case Unknown => 0
    case Client => 1
    case Server => 2
    case ServerCaPass => 3
    case ServerCaFull => 4
    case ServerCaReqd => 5
    case ServerCaSafChk => 6
  }

  /** `values()`, in declaration order. */
  const Values: seq<SecurityType> :=
    [Unknown, Client, Server, ServerCaPass, ServerCaFull, ServerCaReqd, ServerCaSafChk]

  lemma ValuesComplete(t: SecurityType)
    ensures t in Values && Values[Value(t)] == t
  {
  }

  lemma CodesDistinct()
    ensures Lookup.KeysDistinct(Values, Value)
  {
  }

  /** `valueOf(byte)`: the constant with that code, or null. */
  function ValueOf(b: int8): (r: Option<SecurityType>)
    ensures r.Some? <==> 0 <= b <= 6
    ensures r.Some? ==> Value(r.value) == b
  {
    var r := Lookup.Find(Values, Value, b);
    assert 0 <= b <= 6 ==> Value(Values[b]) == b;
    r
  }

  lemma ValueOfValue(t: SecurityType)
    ensures ValueOf(Value(t)) == Some(t)
  {
    CodesDistinct();
    ValuesComplete(t);
    Lookup.FindOwnKey(Values, Value, Value(t));
  }

  /** The unit test's cases: 1 is a client, an out-of-range code is null. */
  lemma ValueOfExamples()
    ensures ValueOf(0) == Some(Unknown) && ValueOf(1) == Some(Client) && ValueOf(6) == Some(ServerCaSafChk)
    ensures ValueOf(7) == None && ValueOf(-1) == None
  {
    ValueOfValue(Unknown);
    ValueOfValue(Client);
    ValueOfValue(ServerCaSafChk);
  }
}
