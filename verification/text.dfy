/**
 * Reading a bounded, possibly NUL-terminated EBCDIC field of the control
 * block as a Java string: `strnlen` finds how much of the field is text, and
 * `get_jstring` copies that much, converts it to ASCII and makes a string.
 */
module Text {
  import opened Base

  /**
   * The platform's `__etoa` conversion followed by `NewStringUTF`: the string
   * the EBCDIC bytes stand for, or `None` when the conversion fails.
   */
  type Transcoder = seq<uint8> -> Option<string>

  /**
   * How many bytes of `txt` are text when at most `max` may be: the index of
   * the first NUL below `max`, or `max` itself, and 0 for a negative bound.
   */
  function EffectiveLength(txt: seq<uint8>, max: int): (n: int)
    requires max <= |txt|
    ensures max < 0 ==> n == 0
    ensures 0 <= max ==> 0 <= n <= max
    ensures forall i :: 0 <= i < n ==> txt[i] != 0
    ensures 0 <= n < max ==> txt[n] == 0
    decreases max
  {
    if max <= 0 then 0
    else if txt[0] == 0 then 0
    else
      var n := 1 + EffectiveLength(txt[1..], max - 1);
      assert forall i :: 1 <= i < n ==> txt[i] == txt[1..][i - 1];
      n
  }

  /** The first NUL (or the bound) is the only length with the properties above. */
  lemma EffectiveLengthUnique(txt: seq<uint8>, max: int, n: int)
    requires 0 <= n <= max <= |txt|
    requires forall i :: 0 <= i < n ==> txt[i] != 0
    requires n < max ==> txt[n] == 0
    ensures n == EffectiveLength(txt, max)
  {
  }

  /** `strnlen`: scans at most `max` bytes for a NUL. */
  method Strnlen(txt: seq<uint8>, max: int) returns (n: int)
    requires max <= |txt|
    ensures n == EffectiveLength(txt, max)
  {
    if max < 0 {
      return 0;
    }
    var i := 0;
    while i < max
      invariant 0 <= i <= max
      invariant forall j :: 0 <= j < i ==> txt[j] != 0
    {
      if txt[i] == 0 {
        EffectiveLengthUnique(txt, max, i);
        return i;
      }
      i := i + 1;
    }
    EffectiveLengthUnique(txt, max, max);
    return max;
  }

  /** A field padded with NULs: "ABC" in EBCDIC followed by two NULs has length 3 within 5. */
  lemma StrnlenExample()
    ensures EffectiveLength([0xC1, 0xC2, 0xC3, 0, 0], 5) == 3
  {
    EffectiveLengthUnique([0xC1, 0xC2, 0xC3, 0, 0], 5, 3);
  }

  /** The outcome of converting the copied bytes: a string, or the conversion error. */
  function Converted(s: Option<string>): Outcome<Option<string>>
  {
    match s
    case None => Throw(IllegalArgumentException(CannotConvertUserId))
    case Some(x) => Return(Some(x))
  }

  /**
   * `get_jstring`: a null pointer or a negative length gives a Java null; a
   * failed allocation (`memory` false) an `OutOfMemoryError`; otherwise the
   * bytes before the first NUL within `length` are converted, and a failed
   * conversion raises `IllegalArgumentException`.
   */
  function GetJString(ebcdic: Option<seq<uint8>>, length: int, etoa: Transcoder, memory: bool)
    : (r: Outcome<Option<string>>)
    requires ebcdic.Some? ==> length <= |ebcdic.value|
    ensures r == Return(None) <==> ebcdic.None? || length < 0
    ensures ebcdic.Some? && 0 <= length && !memory ==> r == Throw(OutOfMemoryError(NotEnoughSpace))
    ensures r.Throw? && memory ==> r.exception == IllegalArgumentException(CannotConvertUserId)
    ensures r.Return? && r.value.Some? ==>
      exists n :: 0 <= n <= length && etoa(ebcdic.value[..n]) == r.value && 0 !in ebcdic.value[..n]
  {
    if ebcdic.None? || length < 0 then Return(None)
    else
      var txt := ebcdic.value;
      var n := EffectiveLength(txt, length);
      if !memory then Throw(OutOfMemoryError(NotEnoughSpace))
      else Converted(etoa(txt[..n]))
  }

  /** A field holding a NUL at `k`, and none before, is read as its first `k` bytes. */
  lemma GetJStringStopsAtNul(txt: seq<uint8>, length: int, etoa: Transcoder, k: int)
    requires 0 <= k < length <= |txt|
    requires txt[k] == 0 && forall i :: 0 <= i < k ==> txt[i] != 0
    ensures GetJString(Some(txt), length, etoa, true) == Converted(etoa(txt[..k]))
  {
    EffectiveLengthUnique(txt, length, k);
  }

  /** A field with no NUL within `length` is read in full. */
  lemma GetJStringWholeField(txt: seq<uint8>, length: int, etoa: Transcoder)
    requires 0 <= length <= |txt|
    requires forall i :: 0 <= i < length ==> txt[i] != 0
    ensures GetJString(Some(txt), length, etoa, true) == Converted(etoa(txt[..length]))
  {
    EffectiveLengthUnique(txt, length, length);
  }

  /**
   * The decode of the other variant, whose copy has no bound: the whole field
   * is handed to the conversion, and a failed conversion raises
   * `IllegalArgumentException`; it never yields a Java null.
   */
  function CopyJString(field: seq<uint8>, etoa: Transcoder): (r: Outcome<Option<string>>)
    ensures r != Return(None)
    ensures r.Throw? <==> etoa(field).None?
    ensures r.Throw? ==> r.exception == IllegalArgumentException(CannotConvertUserId)
    ensures r.Return? ==> r.value == etoa(field)
  {
    Converted(etoa(field))
  }
}
