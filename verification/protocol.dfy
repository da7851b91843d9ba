/**
 * The `Protocol` enum: the negotiated protocol, identified by the pair of
 * bytes (version, modification) the control block reports.
 */
module ProtocolEnum {
  import opened Base
  import Lookup

  datatype Protocol = NonSecure | Ssl2 | Ssl3 | Tls1 | Tls1_1 | Tls1_2 | Tls1_3

  /** `getVersion()`. */
  function Version(p: Protocol): int8
  {
    match p
    case NonSecure => 0
    case Ssl2 => 2
    case _ => 3
  }

  /** `getMod()`. */
  function Mod(p: Protocol): int8
  {
    match p
    case NonSecure => 0
    case Ssl2 => 0
    case Ssl3 => 0
    case Tls1 => 1
    case Tls1_1 => 2
    case Tls1_2 => 3
    case Tls1_3 => 4
  }

  /** The pair `valueOf` compares. */
  function Key(p: Protocol): (int8, int8)
  {
    (Version(p), Mod(p))
  }

  /** `values()`, in declaration order. */
  const Values: seq<Protocol> := [NonSecure, Ssl2, Ssl3, Tls1, Tls1_1, Tls1_2, Tls1_3]

  /** `ordinal()`: the position of a constant in `values()`. */
  function Ordinal(p: Protocol): (i: nat)
    ensures i < |Values| && Values[i] == p
  {
    match p
    case NonSecure => 0
    case Ssl2 => 1
    case Ssl3 => 2
    case Tls1 => 3
    case Tls1_1 => 4
    case Tls1_2 => 5
    case Tls1_3 => 6
  }

  /** The pairs that name a constant. */
  predicate Known(version: int8, mod: int8)
  {
    (version == 0 && mod == 0) || (version == 2 && mod == 0) || (version == 3 && 0 <= mod <= 4)
  }

  lemma CodesDistinct()
    ensures Lookup.KeysDistinct(Values, Key)
  {
  }

  /** `valueOf(byte, byte)`: the constant with that version and modification, or null. */
  function ValueOf(version: int8, mod: int8): (r: Option<Protocol>)
    ensures r.Some? <==> Known(version, mod)
    ensures r.Some? ==> Version(r.value) == version && Mod(r.value) == mod
  {
    var r := Lookup.Find(Values, Key, (version, mod));
    assert version == 0 && mod == 0 ==> Key(Values[0]) == (version, mod);
    assert version == 2 && mod == 0 ==> Key(Values[1]) == (version, mod);
    assert version == 3 && 0 <= mod <= 4 ==> Key(Values[2 + mod]) == (version, mod);
    r
  }

  lemma ValueOfKey(p: Protocol)
    ensures ValueOf(Version(p), Mod(p)) == Some(p)
  {
    CodesDistinct();
    Lookup.FindOwnKey(Values, Key, Ordinal(p));
  }

  /** The unit test's cases: a negative byte in either position gives null. */
  lemma ValueOfExamples()
    ensures ValueOf(3, 3) == Some(Tls1_2) && ValueOf(3, 4) == Some(Tls1_3) && ValueOf(0, 0) == Some(NonSecure)
    ensures ValueOf(-1, 0) == None && ValueOf(0, -1) == None && ValueOf(-1, -1) == None
    ensures ValueOf(2, 1) == None
  {
    ValueOfKey(Tls1_2);
    ValueOfKey(Tls1_3);
    ValueOfKey(NonSecure);
  }

  /**
   * The TLS constants carry the record-layer version numbers: major 3 and
   * minor 1 to 4 for TLS 1.0 to 1.3 (RFC 5246 appendix E, RFC 8446 section 4.2.1).
   */
  lemma TlsVersionNumbers(p: Protocol)
    requires p in {Tls1, Tls1_1, Tls1_2, Tls1_3}
    ensures 0x0301 <= Version(p) * 256 + Mod(p) <= 0x0304
  {
  }
}
