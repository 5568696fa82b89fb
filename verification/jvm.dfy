/**
 * The Java-level values the model works with: UTF-16 strings, octets,
 * 32- and 64-bit two's-complement integers, and the exceptions the
 * modelled code throws.
 */
module Jvm {

  /** A UTF-16 code unit, the element of a java.lang.String. */
  type JChar = c: int | 0 <= c < 0x1_0000

  /** A java.lang.String, as its sequence of UTF-16 code units. */
  type JString = seq<JChar>

  /** One octet of a byte[] or a stream (Java's signed byte, read unsigned). */
  type Byte = b: int | 0 <= b < 0x100

  const INT32_MIN: int := -0x8000_0000
  const INT32_MAX: int := 0x7FFF_FFFF
  const INT64_MIN: int := -0x8000_0000_0000_0000
  const INT64_MAX: int := 0x7FFF_FFFF_FFFF_FFFF

  /** Java `int`. */
  type Int32 = x: int | INT32_MIN <= x <= INT32_MAX

  /** Java `long`. */
  type Int64 = x: int | INT64_MIN <= x <= INT64_MAX

  /** A Java array or list: its length is an `int`. */
  type JList<T> = s: seq<T> | |s| <= INT32_MAX

  const TAB: JChar := 9
  const LF: JChar := 10

  /** Java `int` subtraction, which wraps around modulo 2^32. */
  function Sub32(a: Int32, b: Int32): (r: Int32)
    ensures INT32_MIN <= a - b <= INT32_MAX ==> r == a - b
    ensures a - b > INT32_MAX ==> r == a - b - 0x1_0000_0000
    ensures a - b < INT32_MIN ==> r == a - b + 0x1_0000_0000
  {
    var d := a - b;
    if d > INT32_MAX then d - 0x1_0000_0000 else if d < INT32_MIN then d + 0x1_0000_0000 else d
  }

  /** Java `long` subtraction, which wraps around modulo 2^64. */
  function Sub64(a: Int64, b: Int64): (r: Int64)
    ensures INT64_MIN <= a - b <= INT64_MAX ==> r == a - b
    ensures a - b > INT64_MAX ==> r == a - b - 0x1_0000_0000_0000_0000
    ensures a - b < INT64_MIN ==> r == a - b + 0x1_0000_0000_0000_0000
  {
    var d := a - b;
    if d > INT64_MAX then d - 0x1_0000_0000_0000_0000 else if d < INT64_MIN then d + 0x1_0000_0000_0000_0000 else d
  }

  /** The Java string literal written as the Dafny string `s` (all literals here are ASCII). */
  function Lit(s: string): (r: JString)
    ensures |r| == |s|
  {
    if s == [] then []
    else [if s[0] as int < 0x1_0000 then s[0] as int else 0xFFFD] + Lit(s[1..])
  }


  /** The exceptions the modelled code can throw. */
  datatype JavaException =
    | UTFDataFormatException(encodedLength: int)   // writeUTF of a string over 65535 encoded bytes
    | IOException                                  // the writer target failed
    | NullPointerException(message: JString)
    | IllegalArgumentException(message: JString)
    | ClassCastException
    | RuntimeException(message: JString, cause: JavaException)
}
