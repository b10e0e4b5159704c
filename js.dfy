/** The JavaScript values the core inspects at its API boundary, and the way it fails. */
module Js {

  /** One octet of a Node `Buffer`. */
  newtype byte = b: int | 0 <= b < 256

  /** One UTF-16 code unit: JavaScript strings are sequences of these, and `length` counts them. */
  newtype codeUnit = u: int | 0 <= u < 0x1_0000

  /**
   * A JavaScript argument as far as the core looks at it: a `Buffer`, a
   * string (its UTF-16 code units), or any other value (a number,
   * `undefined`, an object, ...).
   */
  datatype Value = Buf(bytes: seq<byte>) | Str(units: seq<codeUnit>) | Other

  /** The UTF-16 code units of one Unicode scalar value: one below U+10000, a surrogate pair above. */
  function CharUnits(c: char): (units: seq<codeUnit>)
    ensures |units| == if c as int < 0x1_0000 then 1 else 2
    ensures c as int < 0x1_0000 ==> units[0] as int == c as int
    ensures c as int >= 0x1_0000 ==>
      0xD800 <= units[0] as int < 0xDC00 && 0xDC00 <= units[1] as int < 0xE000 &&
      0x1_0000 + (units[0] as int - 0xD800) * 0x400 + (units[1] as int - 0xDC00) == c as int
  {
    var n := c as int;
    if n < 0x1_0000 then [n as codeUnit]
    else [(0xD800 + (n - 0x1_0000) / 0x400) as codeUnit, (0xDC00 + (n - 0x1_0000) % 0x400) as codeUnit]
  }

  /**
   * A string literal as JavaScript holds it: its UTF-16 code units. Every
   * character gives one or two units, characters of the Basic Multilingual
   * Plane exactly one.
   */
  function Utf16(s: string): (units: seq<codeUnit>)
    ensures |s| <= |units| <= 2 * |s|
    ensures (forall i :: 0 <= i < |s| ==> s[i] as int < 0x1_0000) ==>
      |units| == |s| && forall i :: 0 <= i < |s| ==> units[i] as int == s[i] as int
  {
    if s == [] then []
    else
      CharUnits(s[0]) + Utf16(s[1..])
  }

  /** The code units of two strings joined are those of the first followed by those of the second. */
  lemma {:induction false} Utf16Append(s: string, t: string)
    ensures Utf16(s + t) == Utf16(s) + Utf16(t)
  {
    if s == [] {
      assert s + t == t;
    } else {
      assert (s + t)[1..] == s[1..] + t;
      Utf16Append(s[1..], t);
    }
  }

  /** `new TypeError(message)`, the only exception the core throws. */
  datatype TypeError = TypeError(message: string)

  /** The outcome of a call that may throw synchronously. */
  datatype Result<T> = Ok(value: T) | Throws(error: TypeError)

  /** A value that may be `undefined`. */
  datatype Option<T> = None | Some(value: T)
}
