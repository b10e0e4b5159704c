/** The parts of Node's `Buffer` that the core relies on. */
module Buffers {
  import opened Js

  /** The bytes of all parts, in order. */
  function Flatten(parts: seq<seq<byte>>): (all: seq<byte>)
    ensures |parts| == 1 ==> all == parts[0]
    ensures |parts| == 2 ==> all == parts[0] + parts[1]
  {
    if parts == [] then [] else parts[0] + Flatten(parts[1..])
  }

  /**
   * `Buffer.concat(parts, totalLength)`: an empty buffer for an empty list;
   * otherwise a buffer of exactly `totalLength` bytes that starts with the
   * parts' bytes, truncated when they are longer and followed by zero bytes
   * when they are shorter.
   */
  function Concat(parts: seq<seq<byte>>, totalLength: nat): (r: seq<byte>)
    ensures parts == [] ==> r == []
    ensures parts != [] ==> |r| == totalLength
    ensures parts != [] && |Flatten(parts)| >= totalLength ==> r == Flatten(parts)[..totalLength]
    ensures parts != [] && |Flatten(parts)| <= totalLength ==>
      r[..|Flatten(parts)|] == Flatten(parts) &&
      forall i :: |Flatten(parts)| <= i < totalLength ==> r[i] == 0
  {
    var all := Flatten(parts);
    if parts == [] then []
    else if |all| >= totalLength then all[..totalLength]
    else all + seq(totalLength - |all|, _ => 0)
  }

  /** Concatenating two buffers into exactly their combined length loses and adds nothing. */
  lemma ConcatPair(a: seq<byte>, b: seq<byte>)
    ensures Concat([a, b], |a| + |b|) == a + b
    ensures |a| == 32 && |b| == 32 ==> Concat([a, b], 64) == a + b
  {
  }

  /** The lower-case hexadecimal digit for a value below 16. */
  function HexDigit(n: int): (c: char)
    requires 0 <= n < 16
    ensures n < 10 ==> '0' <= c <= '9'
    ensures 10 <= n ==> 'a' <= c <= 'f'
  {
    if n < 10 then (48 + n) as char else (87 + n) as char
  }

  /** `buffer.toString('hex')`: two lower-case hexadecimal digits per byte, high nibble first. */
  function Hex(b: seq<byte>): (s: string)
    ensures |s| == 2 * |b|
    ensures forall i :: 0 <= i < |b| ==>
      s[2 * i] == HexDigit(b[i] as int / 16) && s[2 * i + 1] == HexDigit(b[i] as int % 16)
  {
    if b == [] then ""
    else [HexDigit(b[0] as int / 16), HexDigit(b[0] as int % 16)] + Hex(b[1..])
  }

  /** Distinct buffers have distinct hexadecimal strings. */
  lemma HexInjective(a: seq<byte>, b: seq<byte>)
    ensures Hex(a) == Hex(b) ==> a == b
  {
  }
}
