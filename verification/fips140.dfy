/** The `Fips140` enum: the FIPS 140 mode of the connection. */
module Fips140Enum {
  import opened Base
  import Lookup

  datatype Fips140 =
    | Fips140Off     // FIPS compliance is not set
    | Fips140On
    | Fips140Level1
    | Fips140Level2
    | Fips140Level3

  /** `getValue()`. */
  function Value(f: Fips140): int8
  {
    match f
    case Fips140Off => 0
    case Fips140On => 1
    case Fips140Level1 => 2
    case Fips140Level2 => 3
    case Fips140Level3 => 4
  }

  /** `values()`, in declaration order. */
  const Values: seq<Fips140> := [Fips140Off, Fips140On, Fips140Level1, Fips140Level2, Fips140Level3]

  lemma ValuesComplete(f: Fips140)
    ensures f in Values && Values[Value(f)] == f
  {
  }

  lemma CodesDistinct()
    ensures Lookup.KeysDistinct(Values, Value)
  {
  }

  /** `valueOf(byte)`: the constant with that code, or null. */
  function ValueOf(b: int8): (r: Option<Fips140>)
    ensures r.Some? <==> 0 <= b <= 4
    ensures r.Some? ==> Value(r.value) == b
  {
    var r := Lookup.Find(Values, Value, b);
    assert 0 <= b <= 4 ==> Value(Values[b]) == b;
    r
  }

  lemma ValueOfValue(f: Fips140)
    ensures ValueOf(Value(f)) == Some(f)
  {
    CodesDistinct();
    ValuesComplete(f);
    Lookup.FindOwnKey(Values, Value, Value(f));
  }

  /** The unit test's cases. */
  lemma ValueOfExamples()
    ensures ValueOf(0) == Some(Fips140Off) && ValueOf(2) == Some(Fips140Level1)
    ensures ValueOf(4) == Some(Fips140Level3) && ValueOf(5) == None && ValueOf(-1) == None
  {
    ValueOfValue(Fips140Off);
    ValueOfValue(Fips140Level1);
    ValueOfValue(Fips140Level3);
  }
}
