/**
 * Values shared by every part of the AT-TLS model: optional values, the two
 * byte flavours (the C side's unsigned char and Java's signed byte), and the
 * Java exceptions the native code leaves pending.
 */
module Base {

  datatype Option<T> = None | Some(value: T)

  /** An unsigned C byte, as the control block and the EBCDIC buffers hold them. */
  type uint8 = x: int | 0 <= x < 256

  /** A Java `byte`. */
  type int8 = x: int | -128 <= x < 128

  /** The C cast `(jbyte) b` of an unsigned byte: two's complement reinterpretation. */
  function ToJByte(b: uint8): (j: int8)
    ensures 0 <= b < 128 ==> j == b
    ensures 128 <= b ==> j < 0 && j + 256 == b
  {
    if b < 128 then b else b - 256
  }

  /** `n` zero bytes: what a fresh Java array or a `memset(.., 0, ..)` holds. */
  function Zeros(n: nat): (z: seq<uint8>)
    ensures |z| == n && forall i :: 0 <= i < n ==> z[i] == 0
  {
    seq(n, _ => 0)
  }

  /** The enum classes whose constants the native side resolves. */
  datatype Category = StatPolicyClass | StatConnClass | SecurityTypeClass | Fips140Class | ProtocolClass

  const NotEnoughSpace: string := "Not enough space to allocate memory in native code"
  const CannotConvertUserId: string := "Cannot convert userID"

  /** The Java exceptions the native methods raise. */
  datatype JavaException =
    | IoctlCallException(rc: int, errorNo: int, errorNo2: int)
    | UnknownEnumValueException(category: Category, value: int8)
    | UnknownEnumPairException(category: Category, value: int8, value2: int8)
    | IllegalArgumentException(message: string)
    | OutOfMemoryError(message: string)
    | ContextIsNotInitializedException

  /** What a Java call ends with: a returned value or a thrown exception. */
  datatype Outcome<T> = Return(value: T) | Throw(exception: JavaException)
}
