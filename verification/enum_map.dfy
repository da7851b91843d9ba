/**
 * The native side's fast code-to-constant table (`EnumMap`): an array indexed
 * by an enum's byte code, built once from the enum's constants, and the
 * lookup that turns a control-block byte into a constant or an
 * `UnknownEnumValueException`.
 */
module EnumMaps {
  import opened Base
  import Lookup

  /**
   * The table for one enum class: slot `c` holds the constant with code `c`,
   * or nothing; there are `maxValue + 1` slots.
   */
  datatype EnumMap<T> = EnumMap(category: Category, maxValue: int, values: seq<Option<T>>)
  {
    ghost predicate Valid()
    {
      0 <= maxValue && |values| == maxValue + 1
    }
  }

  /** Some constant of `constants` has code `c`. */
  ghost predicate HasCode<T>(constants: seq<T>, value: T -> int8, c: int)
  {
    exists i :: 0 <= i < |constants| && value(constants[i]) == c
  }

  /**
   * `m` is the table of `constants`: its size is one more than the largest
   * code (and at least one), a slot is filled exactly when some constant has
   * that code, and a filled slot holds a constant with that code.
   */
  ghost predicate TableOf<T>(m: EnumMap<T>, constants: seq<T>, value: T -> int8)
  {
    && m.Valid()
    && (forall i :: 0 <= i < |constants| ==> value(constants[i]) <= m.maxValue)
    && (m.maxValue == 0 || HasCode(constants, value, m.maxValue))
    && (forall c :: 0 <= c <= m.maxValue ==> (m.values[c].Some? <==> HasCode(constants, value, c)))
    && (forall c :: 0 <= c <= m.maxValue && m.values[c].Some? ==>
          m.values[c].value in constants && value(m.values[c].value) == c)
  }

  /**
   * `load_enum_map`: finds the highest code (starting from 0), allocates
   * `max + 1` empty slots and puts every constant into the slot of its code.
   * `memory` says whether the native allocations succeed.
   */
  method LoadEnumMap<T(==)>(category: Category, constants: seq<T>, value: T -> int8, memory: bool)
    returns (r: Outcome<EnumMap<T>>)
    requires forall i :: 0 <= i < |constants| ==> 0 <= value(constants[i])
    ensures !memory ==> r == Throw(OutOfMemoryError(NotEnoughSpace))
    ensures memory ==> r.Return? && r.value.category == category && TableOf(r.value, constants, value)
  {
    if !memory {
      return Throw(OutOfMemoryError(NotEnoughSpace));
    }
    var maxValue: int := 0;
    for i := 0 to |constants|
      invariant 0 <= maxValue
      invariant forall j :: 0 <= j < i ==> value(constants[j]) <= maxValue
      invariant maxValue == 0 || exists j :: 0 <= j < i && value(constants[j]) == maxValue
    {
      if value(constants[i]) > maxValue {
        maxValue := value(constants[i]);
      }
    }
    var slots := new Option<T>[maxValue + 1](_ => None);
    for i := 0 to |constants|
      invariant forall c :: 0 <= c <= maxValue ==>
        (slots[c].Some? <==> exists j :: 0 <= j < i && value(constants[j]) == c)
      invariant forall c :: 0 <= c <= maxValue && slots[c].Some? ==>
        slots[c].value in constants && value(slots[c].value) == c
    {
      slots[value(constants[i])] := Some(constants[i]);
    }
    r := Return(EnumMap(category, maxValue, slots[..]));
  }

  /**
   * `get_enum`: the constant in slot `code`; a code above the highest slot or
   * an empty slot raises `UnknownEnumValueException` carrying the code as a
   * Java byte.
   */
  function GetEnum<T>(m: EnumMap<T>, code: uint8): (r: Outcome<T>)
    requires m.Valid()
    ensures r.Return? <==> code <= m.maxValue && m.values[code].Some?
    ensures r.Return? ==> m.values[code] == Some(r.value)
    ensures r.Throw? ==> r.exception == UnknownEnumValueException(m.category, ToJByte(code))
  {
    if m.maxValue < code then Throw(UnknownEnumValueException(m.category, ToJByte(code)))
    else match m.values[code]
      case None => Throw(UnknownEnumValueException(m.category, ToJByte(code)))
      case Some(e) => Return(e)
  }

  /** Resolving the code of a constant of a table's enum gives that constant. */
  lemma ResolveDefined<T>(m: EnumMap<T>, constants: seq<T>, value: T -> int8, i: int)
    requires TableOf(m, constants, value) && Lookup.KeysDistinct(constants, value)
    requires 0 <= i < |constants| && 0 <= value(constants[i])
    ensures GetEnum(m, value(constants[i]) as uint8) == Return(constants[i])
  {
    var c := value(constants[i]);
    assert HasCode(constants, value, c);
  }

  /** Resolving a code no constant has raises the unknown-value exception. */
  lemma ResolveUndefined<T>(m: EnumMap<T>, constants: seq<T>, value: T -> int8, code: uint8)
    requires TableOf(m, constants, value)
    requires !HasCode(constants, value, code)
    ensures GetEnum(m, code) == Throw(UnknownEnumValueException(m.category, ToJByte(code)))
  {
  }
}
