/** The `StatConn` enum: the secure state of a connection. */
module StatConnEnum {
  import opened Base
  import Lookup

  datatype StatConn =
    | NotSecure     // connection is not secure
    | HsInProgress  // handshake in progress
    | Secure        // connection is secure

  /** `getValue()`. */
  function Value(c: StatConn): int8
  {
    match c
    case NotSecure => 1
    case HsInProgress => 2
    case Secure => 3
  }

  /** `values()`, in declaration order. */
  const Values: seq<StatConn> := [NotSecure, HsInProgress, Secure]

  lemma ValuesComplete(c: StatConn)
    ensures c in Values && Values[Value(c) - 1] == c
  {
  }

  lemma CodesDistinct()
    ensures Lookup.KeysDistinct(Values, Value)
  {
  }

  /** `valueOf(byte)`: the constant with that code, or null. */
  function ValueOf(b: int8): (r: Option<StatConn>)
    ensures r.Some? <==> 1 <= b <= 3
    ensures r.Some? ==> Value(r.value) == b
  {
    var r := Lookup.Find(Values, Value, b);
    assert 1 <= b <= 3 ==> Value(Values[b - 1]) == b;
    r
  }

  lemma ValueOfValue(c: StatConn)
    ensures ValueOf(Value(c)) == Some(c)
  {
    CodesDistinct();
    ValuesComplete(c);
    Lookup.FindOwnKey(Values, Value, Value(c) - 1);
  }
}
