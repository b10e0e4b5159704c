/** The client-side derivations of index.js: the hash `P` and the pepper-keyed `kdf`. */
module Client {
  import opened Js
  import opened Buffers
  import opened Crypto

  /** `isPasscode(x)`: a string of at least four UTF-16 code units; no buffer or other value passes. */
  function IsPasscode(x: Value): (b: bool)
    ensures b ==> x.Str?
    ensures x.Str? ==> (b <==> |x.units| >= 4)
  {
    x.Str? && |x.units| >= 4
  }

  /**
   * The length `isPasscode` checks counts code units, not characters: two
   * characters beyond the Basic Multilingual Plane are long enough, three
   * digits are not, and four are.
   */
  lemma PasscodeCountsCodeUnits()
    ensures IsPasscode(Str(Utf16("\U{1F600}\U{1F600}")))
    ensures !IsPasscode(Str(Utf16("123"))) && IsPasscode(Str(Utf16("1234")))
  {
  }

  /**
   * `prepare(salt, passcode)`: the salt is validated before the passcode,
   * and a valid pair gives the 32-byte `hmac256(salt, passcode)`.
   */
  function Prepare(mac: Mac256, salt: Value, passcode: Value): (r: Result<seq<byte>>)
    ensures r.Ok? <==> salt.Buf? && |salt.bytes| == 32 && passcode.Str? && |passcode.units| >= 4
    ensures !(salt.Buf? && |salt.bytes| == 32) ==> r == Throws(TypeError("Bad salt"))
    ensures salt.Buf? && |salt.bytes| == 32 && r.Throws? ==> r.error == TypeError("Bad passcode")
    ensures r.Ok? ==> |r.value| == 32 && r.value == Hmac256(mac, salt, passcode)
  {
    if !IsBufferN(salt, 32) then Throws(TypeError("Bad salt"))
    else if !IsPasscode(passcode) then Throws(TypeError("Bad passcode"))
    else Ok(Hmac256(mac, salt, passcode))
  }

  /** The key of `kdf`, `Buffer.concat([salt, pepper], 64)`: salt first, pepper last. */
  function KdfKey(salt: seq<byte>, pepper: seq<byte>): (key: seq<byte>)
    requires |salt| == 32 && |pepper| == 32
    ensures |key| == 64 && key[..32] == salt && key[32..] == pepper
  {
    ConcatPair(salt, pepper);
    Concat([salt, pepper], 64)
  }

  /**
   * `kdf(salt, pepper, passcode)`: validates the salt, then the pepper, then
   * the passcode, and gives `hmac256(salt ‖ pepper, passcode)`.
   */
  function Kdf(mac: Mac256, salt: Value, pepper: Value, passcode: Value): (r: Result<seq<byte>>)
    ensures r.Ok? <==>
      salt.Buf? && |salt.bytes| == 32 && pepper.Buf? && |pepper.bytes| == 32 &&
      passcode.Str? && |passcode.units| >= 4
    ensures !(salt.Buf? && |salt.bytes| == 32) ==> r == Throws(TypeError("Bad salt"))
    ensures salt.Buf? && |salt.bytes| == 32 && !(pepper.Buf? && |pepper.bytes| == 32) ==>
      r == Throws(TypeError("Bad pepper"))
    ensures salt.Buf? && |salt.bytes| == 32 && pepper.Buf? && |pepper.bytes| == 32 && r.Throws? ==>
      r.error == TypeError("Bad passcode")
    ensures r.Ok? ==> |r.value| == 32 && r.value == Hmac256(mac, Buf(salt.bytes + pepper.bytes), passcode)
  {
    if !IsBufferN(salt, 32) then Throws(TypeError("Bad salt"))
    else if !IsBufferN(pepper, 32) then Throws(TypeError("Bad pepper"))
    else if !IsPasscode(passcode) then Throws(TypeError("Bad passcode"))
    else
      var key := KdfKey(salt.bytes, pepper.bytes);
      assert key == salt.bytes + pepper.bytes;
      Ok(Hmac256(mac, Buf(key), passcode))
  }

  /**
   * `kdf` under a salt and passcode that `prepare` accepts fails only on the
   * pepper, and never on a pepper of the size `respond` releases.
   */
  lemma KdfAcceptsWhatPrepareAccepts(mac: Mac256, salt: Value, pepper: seq<byte>, passcode: Value)
    requires Prepare(mac, salt, passcode).Ok?
    ensures |pepper| == 32 <==> Kdf(mac, salt, Buf(pepper), passcode).Ok?
    ensures |pepper| != 32 ==> Kdf(mac, salt, Buf(pepper), passcode) == Throws(TypeError("Bad pepper"))
  {
  }
}
