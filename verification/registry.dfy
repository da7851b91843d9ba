/**
 * The four code tables the native library builds once when it is loaded
 * (StatPolicy, StatConn, SecurityType and Fips140; Protocol is resolved
 * through its own `valueOf` because its constants have two-byte keys), and
 * the proof that each table answers exactly as the enum's `valueOf` does.
 */
module Registry {
  import opened Base
  import opened EnumMaps
  import Lookup
  import StatPolicyEnum
  import StatConnEnum
  import SecurityTypeEnum
  import Fips140Enum

  datatype Tables = Tables(
    statPolicy: EnumMap<StatPolicyEnum.StatPolicy>,
    statConn: EnumMap<StatConnEnum.StatConn>,
    securityType: EnumMap<SecurityTypeEnum.SecurityType>,
    fips140: EnumMap<Fips140Enum.Fips140>)
  {
    /** What the lookups need: every table has `maxValue + 1` slots. */
    ghost predicate Valid()
    {
      statPolicy.Valid() && statConn.Valid() && securityType.Valid() && fips140.Valid()
    }
  }

  /** Each table was built from its enum's constants and names its enum class. */
  ghost predicate Loaded(t: Tables)
  {
    && t.statPolicy.category == StatPolicyClass
    && TableOf(t.statPolicy, StatPolicyEnum.Values, StatPolicyEnum.Value)
    && t.statConn.category == StatConnClass
    && TableOf(t.statConn, StatConnEnum.Values, StatConnEnum.Value)
    && t.securityType.category == SecurityTypeClass
    && TableOf(t.securityType, SecurityTypeEnum.Values, SecurityTypeEnum.Value)
    && t.fips140.category == Fips140Class
    && TableOf(t.fips140, Fips140Enum.Values, Fips140Enum.Value)
  }

  /**
   * The four `load_enum_map` calls of the library's load hook (allocation
   * during library load is taken to succeed).
   */
  method LoadTables() returns (t: Tables)
    ensures Loaded(t) && t.Valid()
  {
    var policy := LoadEnumMap(StatPolicyClass, StatPolicyEnum.Values, StatPolicyEnum.Value, true);
    var conn := LoadEnumMap(StatConnClass, StatConnEnum.Values, StatConnEnum.Value, true);
    var security := LoadEnumMap(SecurityTypeClass, SecurityTypeEnum.Values, SecurityTypeEnum.Value, true);
    var fips := LoadEnumMap(Fips140Class, Fips140Enum.Values, Fips140Enum.Value, true);
    t := Tables(policy.value, conn.value, security.value, fips.value);
  }

  /** The outcome a table lookup must have when `valueOf` is the reference. */
  function Expected<T>(category: Category, code: uint8, reference: Option<T>): Outcome<T>
  {
    match reference
    case Some(e) => Return(e)
    case None => Throw(UnknownEnumValueException(category, ToJByte(code)))
  }

  /** StatPolicy codes 1 to 5 occupy slots 1 to 5; slot 0 stays empty. */
  lemma StatPolicyTableAgrees(t: Tables, code: uint8)
    requires Loaded(t)
    ensures GetEnum(t.statPolicy, code) == Expected(StatPolicyClass, code, StatPolicyEnum.ValueOf(ToJByte(code)))
  {
    if 1 <= code <= 5 {
      var p := StatPolicyEnum.Values[code - 1];
      assert StatPolicyEnum.Value(p) == code;
      StatPolicyEnum.CodesDistinct();
      ResolveDefined(t.statPolicy, StatPolicyEnum.Values, StatPolicyEnum.Value, code - 1);
      StatPolicyEnum.ValueOfValue(p);
    } else {
      ResolveUndefined(t.statPolicy, StatPolicyEnum.Values, StatPolicyEnum.Value, code);
    }
  }

  lemma StatConnTableAgrees(t: Tables, code: uint8)
    requires Loaded(t)
    ensures GetEnum(t.statConn, code) == Expected(StatConnClass, code, StatConnEnum.ValueOf(ToJByte(code)))
  {
    if 1 <= code <= 3 {
      var c := StatConnEnum.Values[code - 1];
      assert StatConnEnum.Value(c) == code;
      StatConnEnum.CodesDistinct();
      ResolveDefined(t.statConn, StatConnEnum.Values, StatConnEnum.Value, code - 1);
      StatConnEnum.ValueOfValue(c);
    } else {
      ResolveUndefined(t.statConn, StatConnEnum.Values, StatConnEnum.Value, code);
    }
  }

  lemma SecurityTypeTableAgrees(t: Tables, code: uint8)
    requires Loaded(t)
    ensures GetEnum(t.securityType, code)
         == Expected(SecurityTypeClass, code, SecurityTypeEnum.ValueOf(ToJByte(code)))
  {
    if code <= 6 {
      var s := SecurityTypeEnum.Values[code];
      assert SecurityTypeEnum.Value(s) == code;
      SecurityTypeEnum.CodesDistinct();
      ResolveDefined(t.securityType, SecurityTypeEnum.Values, SecurityTypeEnum.Value, code);
      SecurityTypeEnum.ValueOfValue(s);
    } else {
      ResolveUndefined(t.securityType, SecurityTypeEnum.Values, SecurityTypeEnum.Value, code);
    }
  }

  lemma Fips140TableAgrees(t: Tables, code: uint8)
    requires Loaded(t)
    ensures GetEnum(t.fips140, code) == Expected(Fips140Class, code, Fips140Enum.ValueOf(ToJByte(code)))
  {
    if code <= 4 {
      var f := Fips140Enum.Values[code];
      assert Fips140Enum.Value(f) == code;
      Fips140Enum.CodesDistinct();
      ResolveDefined(t.fips140, Fips140Enum.Values, Fips140Enum.Value, code);
      Fips140Enum.ValueOfValue(f);
    } else {
      ResolveUndefined(t.fips140, Fips140Enum.Values, Fips140Enum.Value, code);
    }
  }

  /** The table sizes the highest codes give: 6, 4, 7 and 5 slots. */
  lemma TableSizes(t: Tables)
    requires Loaded(t)
    ensures |t.statPolicy.values| == 6 && t.statPolicy.values[0].None?
    ensures |t.statConn.values| == 4 && t.statConn.values[0].None?
    ensures |t.securityType.values| == 7 && |t.fips140.values| == 5
  {
    assert StatPolicyEnum.Value(StatPolicyEnum.Values[4]) == 5;
    assert StatConnEnum.Value(StatConnEnum.Values[2]) == 3;
    assert SecurityTypeEnum.Value(SecurityTypeEnum.Values[6]) == 6;
    assert Fips140Enum.Value(Fips140Enum.Values[4]) == 4;
  }
}
