/** The `StatPolicy` enum: the AT-TLS policy status of a connection. */
module StatPolicyEnum {
  import opened Base
  import Lookup

  datatype StatPolicy =
    | Off         // AT-TLS function is off
    | NoPolicy    // no policy defined for the connection
    | NotEnabled  // policy defined, AT-TLS not enabled
    | Enabled     // policy defined, AT-TLS enabled
    | ApplCntrl   // AT-TLS enabled and application controlled

  /** `getValue()`: the byte the control block carries for each constant. */
  function Value(p: StatPolicy): int8
  {
    match p
    case Off => 1
    case NoPolicy => 2
    case NotEnabled => 3
    case Enabled => 4
    case ApplCntrl => 5
  }

  /** `values()`, in declaration order. */
  const Values: seq<StatPolicy> := [Off, NoPolicy, NotEnabled, Enabled, ApplCntrl]

  lemma ValuesComplete(p: StatPolicy)
    ensures p in Values && Values[Value(p) - 1] == p
  {
  }

  lemma CodesDistinct()
    ensures Lookup.KeysDistinct(Values, Value)
  {
  }

  /** `valueOf(byte)`: the constant with that code, or null. */
  function ValueOf(b: int8): (r: Option<StatPolicy>)
    ensures r.Some? <==> 1 <= b <= 5
    ensures r.Some? ==> Value(r.value) == b
  {
    var r := Lookup.Find(Values, Value, b);
    assert 1 <= b <= 5 ==> Value(Values[b - 1]) == b;
    r
  }

  /** Decoding a constant's own code gives the constant back. */
  lemma ValueOfValue(p: StatPolicy)
    ensures ValueOf(Value(p)) == Some(p)
  {
    CodesDistinct();
    ValuesComplete(p);
    Lookup.FindOwnKey(Values, Value, Value(p) - 1);
  }

  /** Encoding a decoded constant gives the byte back. */
  lemma ValueValueOf(b: int8)
    requires ValueOf(b).Some?
    ensures Value(ValueOf(b).value) == b
  {
  }

  /** The cases the unit test checks, among them -1 mapping to null. */
  lemma ValueOfExamples()
    ensures ValueOf(1) == Some(Off) && ValueOf(2) == Some(NoPolicy) && ValueOf(3) == Some(NotEnabled)
    ensures ValueOf(4) == Some(Enabled) && ValueOf(5) == Some(ApplCntrl)
    ensures ValueOf(-1) == None && ValueOf(0) == None && ValueOf(6) == None
  {
    ValueOfValue(Off);
    ValueOfValue(NoPolicy);
    ValueOfValue(NotEnabled);
    ValueOfValue(Enabled);
    ValueOfValue(ApplCntrl);
  }
}
