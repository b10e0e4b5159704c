/**
 * The server side of server.js: `notarize` builds a commitment to a hash `P`
 * under the server secret `e`, and `respond` checks a resubmitted `P`
 * against it while the attempt count for its nonce stays at most 5.
 */
module Server {
  import opened Js
  import opened Buffers
  import opened Crypto

  /** `{ commitment, pepper }`. */
  datatype Derivation = Derivation(commitment: seq<byte>, pepper: seq<byte>)

  /**
   * `deriveCommitment(e, I, P)`: with `K = hmac512(e, I ‖ P)`, the
   * commitment is `I` followed by the first half of `K`, and the pepper is
   * the second half of `K`.
   */
  function DeriveCommitment(mac: Mac512, e: seq<byte>, nonce: seq<byte>, hash: seq<byte>): (d: Derivation)
    ensures |d.commitment| == 64 && |d.pepper| == 32
    ensures |nonce| == 32 && |hash| == 32 ==>
      var k := Hmac512(mac, Buf(e), Buf(nonce + hash));
      d.commitment[..32] == nonce && d.commitment[32..] + d.pepper == k
  {
    var preimage := Concat([nonce, hash], 64);
    var k := Hmac512(mac, Buf(e), Buf(preimage));
    var verify := k[..32];
    var pepper := k[32..];
    ConcatPair(nonce, hash);
    ConcatPair(nonce, verify);
    Derivation(Concat([nonce, verify], 64), pepper)
  }

  /**
   * `notarize(e, P)`, where `nonce` stands for the 32 bytes `randomBytes(32)`
   * draws: the secret is checked before the hash, and both come out as a
   * commitment that starts with the nonce.
   */
  function Notarize(mac: Mac512, e: Value, hash: Value, nonce: seq<byte>): (r: Result<Derivation>)
    requires |nonce| == 32
    ensures r.Ok? <==> e.Buf? && |e.bytes| == 32 && hash.Buf? && |hash.bytes| == 32
    ensures !(e.Buf? && |e.bytes| == 32) ==> r == Throws(TypeError("Bad secret"))
    ensures e.Buf? && |e.bytes| == 32 && r.Throws? ==> r.error == TypeError("Bad hash")
    ensures r.Ok? ==>
      var k := Hmac512(mac, e, Buf(nonce + hash.bytes));
      |r.value.commitment| == 64 && r.value.commitment[..32] == nonce &&
      r.value.commitment[32..] == k[..32] && r.value.pepper == k[32..]
  {
    if !IsBufferN(e, 32) then Throws(TypeError("Bad secret"))
    else if !IsBufferN(hash, 32) then Throws(TypeError("Bad hash"))
    else Ok(DeriveCommitment(mac, e.bytes, nonce, hash.bytes))
  }

  /** `notarize` rejects its arguments before it draws a nonce: a failure is the same whatever nonce would come. */
  lemma NotarizeFailsBeforeNonce(mac: Mac512, e: Value, hash: Value, nonce: seq<byte>, other: seq<byte>)
    requires |nonce| == 32 && |other| == 32
    requires Notarize(mac, e, hash, nonce).Throws?
    ensures Notarize(mac, e, hash, other) == Notarize(mac, e, hash, nonce)
  {
  }

  /** What `queryCb` hands back: an error of the store, or the attempt count stored for the nonce. */
  datatype QueryReply = QueryFailed(error: string) | Attempts(count: int)

  /**
   * What `respond` does once the query has answered:
   * `ReportError(err)` is `callback(err)`, `Locked` is `callback()`,
   * `Ban(I)` is `banCb(I, callback)`, `Success(n, pepper)` is
   * `callback(null, { attempts: n, pepper })`.
   */
  datatype Action =
    | ReportError(error: string)
    | Locked
    | Ban(nonce: seq<byte>)
    | Success(attempts: int, pepper: seq<byte>)

  /** The arguments `respond`'s query callback captures, once validated. */
  datatype Pending = Pending(secret: seq<byte>, commitment: seq<byte>, hash: seq<byte>)
  {
    predicate Valid()
    {
      |secret| == 32 && |commitment| == 64 && |hash| == 32
    }

    /** `I`, the nonce `respond` queries the store for. */
    function Nonce(): (nonce: seq<byte>)
      requires Valid()
      ensures |nonce| == 32 && commitment == nonce + commitment[32..]
    {
      commitment[..32]
    }
  }

  /**
   * The synchronous part of `respond(e, commitment, P, ...)`: the secret,
   * then the commitment, then the hash are checked, and only arguments that
   * pass reach the store. Nothing here depends on the store.
   */
  function Respond(e: Value, commitment: Value, hash: Value): (r: Result<Pending>)
    ensures r.Ok? <==>
      e.Buf? && |e.bytes| == 32 && commitment.Buf? && |commitment.bytes| == 64 &&
      hash.Buf? && |hash.bytes| == 32
    ensures !(e.Buf? && |e.bytes| == 32) ==> r == Throws(TypeError("Bad secret"))
    ensures e.Buf? && |e.bytes| == 32 && !(commitment.Buf? && |commitment.bytes| == 64) ==>
      r == Throws(TypeError("Bad commitment"))
    ensures e.Buf? && |e.bytes| == 32 && commitment.Buf? && |commitment.bytes| == 64 && r.Throws? ==>
      r.error == TypeError("Bad hash")
    ensures r.Ok? ==>
      r.value.Valid() && r.value == Pending(e.bytes, commitment.bytes, hash.bytes)
  {
    if !IsBufferN(e, 32) then Throws(TypeError("Bad secret"))
    else if !IsBufferN(commitment, 64) then Throws(TypeError("Bad commitment"))
    else if !IsBufferN(hash, 32) then Throws(TypeError("Bad hash"))
    else Ok(Pending(e.bytes, commitment.bytes, hash.bytes))
  }

  /**
   * The query callback of `respond`: a store error is passed on as is; a
   * count above 5 locks without any comparison; otherwise the commitment is
   * recomputed, and a mismatch bans the nonce while a match releases the
   * pepper with the queried count unchanged.
   */
  function Resume(mac: Mac512, p: Pending, reply: QueryReply): (a: Action)
    requires p.Valid()
    ensures reply.QueryFailed? ==> a == ReportError(reply.error)
    ensures reply.Attempts? && reply.count > 5 ==> a == Locked
    ensures reply.Attempts? && reply.count <= 5 ==>
      var k := Hmac512(mac, Buf(p.secret), Buf(p.Nonce() + p.hash));
      a == if p.commitment[32..] == k[..32] then Success(reply.count, k[32..]) else Ban(p.Nonce())
  {
    match reply
    case QueryFailed(err) => ReportError(err)
    case Attempts(n) =>
      if n > 5 then Locked
      else
        var d := DeriveCommitment(mac, p.secret, p.Nonce(), p.hash);
        if d.commitment != p.commitment then Ban(p.Nonce())
        else Success(n, d.pepper)
  }

  /**
   * Round trip: what `notarize` commits to under a nonce, `respond` accepts
   * with the same secret and hash while the count is at most 5, releasing
   * the same pepper and reporting the count it read.
   */
  lemma NotarizeRespondRoundTrip(mac: Mac512, e: seq<byte>, nonce: seq<byte>, hash: seq<byte>, count: int)
    requires |e| == 32 && |nonce| == 32 && |hash| == 32 && count <= 5
    ensures Notarize(mac, Buf(e), Buf(hash), nonce).Ok?
    ensures var d := Notarize(mac, Buf(e), Buf(hash), nonce).value;
      Respond(Buf(e), Buf(d.commitment), Buf(hash)).Ok? &&
      Resume(mac, Respond(Buf(e), Buf(d.commitment), Buf(hash)).value, Attempts(count)) == Success(count, d.pepper)
  {
  }

  /**
   * Conversely, `respond` succeeds only on the whole 64-byte commitment that
   * `notarize` gives for the supplied secret, hash and the commitment's own
   * nonce, and then releases that notarization's pepper.
   */
  lemma SuccessOnlyForNotarized(mac: Mac512, p: Pending, reply: QueryReply)
    requires p.Valid()
    requires Resume(mac, p, reply).Success?
    ensures reply.Attempts? && reply.count <= 5
    ensures var d := Notarize(mac, Buf(p.secret), Buf(p.hash), p.Nonce());
      d.Ok? && p.commitment == d.value.commitment && Resume(mac, p, reply).pepper == d.value.pepper
  {
  }

  /** A count of 5 still reaches the comparison; from 6 on every response is `callback()`, a valid commitment included. */
  lemma LockoutThreshold(mac: Mac512, p: Pending, count: int)
    requires p.Valid()
    ensures count <= 5 ==> Resume(mac, p, Attempts(count)).Success? || Resume(mac, p, Attempts(count)) == Ban(p.Nonce())
    ensures count > 5 <==> Resume(mac, p, Attempts(count)) == Locked
  {
  }
}
