/**
 * The primitives of crypto.js. HMAC-SHA-256 and HMAC-SHA-512 (RFC 2104 over
 * the hashes of FIPS 180-4) are not defined here: every operation that uses
 * one receives it as a function value, and all that is known of it is its
 * digest length (32 and 64 bytes, section 6.2 and 6.4 of FIPS 180-4).
 */
module Crypto {
  import opened Js

  /** What an HMAC accepts as key or data: a buffer, or a string it encodes first. */
  type Binary = v: Value | !v.Other? witness Buf([])

  /** Some keyed function with the output length of HMAC-SHA-256. */
  type Mac256 = f: (Binary, Binary) -> seq<byte> | forall key, data :: |f(key, data)| == 32
    witness (key: Binary, data: Binary) => seq<byte>(32, _ => 0)

  /** Some keyed function with the output length of HMAC-SHA-512. */
  type Mac512 = f: (Binary, Binary) -> seq<byte> | forall key, data :: |f(key, data)| == 64
    witness (key: Binary, data: Binary) => seq<byte>(64, _ => 0)

  /** `hmac256(key, data)`: a deterministic function of key and data, 32 bytes long. */
  function Hmac256(mac: Mac256, key: Binary, data: Binary): (digest: seq<byte>)
    ensures |digest| == 32
  {
    mac(key, data)
  }

  /** `hmac512(key, data)`: a deterministic function of key and data, 64 bytes long. */
  function Hmac512(mac: Mac512, key: Binary, data: Binary): (digest: seq<byte>)
    ensures |digest| == 64
  {
    mac(key, data)
  }

  /**
   * `isBufferN(x, length)`: only a buffer passes, and only for its own
   * length; a string or any other value fails whatever its length.
   */
  function IsBufferN(x: Value, length: int): (b: bool)
    ensures b ==> x.Buf? && |x.bytes| == length
    ensures x.Buf? ==> (b <==> length == |x.bytes|)
    ensures x.Str? ==> !b
  {
    x.Buf? && |x.bytes| == length
  }
}
