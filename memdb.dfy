/**
 * `memdb` of test/index.js: an in-memory attempt-counter store, a map from
 * `_h(I)` to the count stored for nonce `I`, and its use with `respond`.
 */
module MemDb {
  import opened Js
  import opened Buffers
  import opened Crypto
  import Client
  import Server

  /**
   * `_h(I)`, `hex(hmac256('mem', I))`: the map key of nonce `I`. Equal
   * nonces share one key, and two nonces share a key exactly when their
   * tags do.
   */
  function CounterKey(mac: Mac256, nonce: seq<byte>): (key: string)
    ensures |key| == 64
    ensures forall i :: 0 <= i < |key| ==> '0' <= key[i] <= '9' || 'a' <= key[i] <= 'f'
  {
    HexChars(Hmac256(mac, Str(Utf16("mem")), Buf(nonce)));
    Hex(Hmac256(mac, Str(Utf16("mem")), Buf(nonce)))
  }

  lemma {:induction false} HexChars(b: seq<byte>)
    ensures forall i :: 0 <= i < |Hex(b)| ==> '0' <= Hex(b)[i] <= '9' || 'a' <= Hex(b)[i] <= 'f'
  {
    if b != [] {
      HexChars(b[1..]);
      assert Hex(b)[2..] == Hex(b[1..]);
    }
  }

  /** Two nonces share a counter exactly when their `hmac256('mem', ·)` tags are equal. */
  lemma SharedCounter(mac: Mac256, a: seq<byte>, b: seq<byte>)
    ensures CounterKey(mac, a) == CounterKey(mac, b) <==>
            Hmac256(mac, Str(Utf16("mem")), Buf(a)) == Hmac256(mac, Str(Utf16("mem")), Buf(b))
  {
    HexInjective(Hmac256(mac, Str(Utf16("mem")), Buf(a)), Hmac256(mac, Str(Utf16("mem")), Buf(b)));
  }

  /** The count `query` reports for a key: the stored one, or 0 when there is none. */
  function Lookup(memory: map<string, int>, key: string): (n: int)
    ensures key in memory ==> n == memory[key]
    ensures key !in memory ==> n == 0
    ensures (forall k :: k in memory ==> memory[k] != 0) ==> (n == 0 <==> key !in memory)
  {
    if key in memory then memory[key] else 0
  }

  /**
   * The memory after `limit` for a key: afterwards `query` reports exactly
   * the given count, whose entry exists unless the count is 0; no other key
   * changes; the key count goes up by one only for a new key set, and down by
   * one only for a present key deleted.
   */
  function Updated(memory: map<string, int>, key: string, limit: int): (m: map<string, int>)
    ensures Lookup(m, key) == limit
    ensures key in m <==> limit != 0
    ensures forall other :: other != key ==> (other in m <==> other in memory)
    ensures forall other :: other != key ==> Lookup(m, other) == Lookup(memory, other)
    ensures |m| ==
      if limit == 0 then (if key in memory then |memory| - 1 else |memory|)
      else (if key in memory then |memory| else |memory| + 1)
  {
    if limit == 0 then memory - {key} else memory[key := limit]
  }

  /** The object `memdb()` returns, over its `memory` object. */
  class Store {
    /** The `hmac256` that `_h` uses. */
    const mac: Mac256
    var memory: map<string, int>
    /** The nonces `query` has been asked about, oldest first. */
    ghost var queries: seq<seq<byte>>

    /** No count of 0 is ever stored: `limit(I, 0)` deletes instead. */
    predicate Valid()
      reads this
    {
      forall key :: key in memory ==> memory[key] != 0
    }

    /** `memdb()`: a store that holds no entries. */
    constructor (mac: Mac256)
      ensures Valid() && this.mac == mac && memory == map[] && queries == []
    {
      this.mac := mac;
      memory := map[];
      queries := [];
    }

    /**
     * `query(I, callback)`: reports the count stored for `I`, 0 for a nonce
     * never stored, and never fails. The memory is not modified; the nonce
     * is logged.
     */
    method Query(nonce: seq<byte>) returns (reply: Server.QueryReply)
      modifies this`queries
      ensures memory == old(memory) && queries == old(queries) + [nonce]
      ensures reply == Server.Attempts(Lookup(memory, CounterKey(mac, nonce)))
      ensures Valid() ==> (reply.count == 0 <==> CounterKey(mac, nonce) !in memory)
    {
      var key := CounterKey(mac, nonce);
      if key in memory {
        reply := Server.Attempts(memory[key]);
      } else {
        reply := Server.Attempts(0);
      }
      queries := queries + [nonce];
    }

    /** `limit(I, limit, callback)`: sets or, for 0, deletes the entry of `I` only. */
    method Limit(nonce: seq<byte>, limit: int)
      requires Valid()
      modifies this`memory
      ensures Valid()
      ensures memory == Updated(old(memory), CounterKey(mac, nonce), limit)
      ensures Lookup(memory, CounterKey(mac, nonce)) == limit
      ensures forall key :: key != CounterKey(mac, nonce) ==> Lookup(memory, key) == Lookup(old(memory), key)
    {
      var key := CounterKey(mac, nonce);
      if limit == 0 {
        memory := memory - {key};
      } else {
        memory := memory[key := limit];
      }
    }

    /** `_count()`: the number of stored keys; 0 exactly when nothing is stored. */
    function Count(): (n: nat)
      reads this
      ensures n == |memory.Keys|
      ensures n == 0 <==> memory == map[]
    {
      |memory|
    }

    /** `_limitOf(I)`: the count stored for `I`, or `undefined`. */
    function LimitOf(nonce: seq<byte>): (v: Option<int>)
      reads this
      ensures v.Some? <==> CounterKey(mac, nonce) in memory
      ensures v.Some? ==> v.value == Lookup(memory, CounterKey(mac, nonce))
      ensures Valid() ==> v != Some(0)
    {
      var key := CounterKey(mac, nonce);
      if key in memory then Some(memory[key]) else None
    }
  }

  /**
   * `respond(e, commitment, P, db.query, banCb, callback)` against a
   * store: a rejected argument throws before the store is asked anything;
   * otherwise the store is asked once, for the commitment's nonce, and its
   * reply decides the action. Neither step changes the stored counts; a
   * `Ban` is carried out by the caller's `banCb`.
   */
  method RespondWith(db: Store, mac: Mac512, e: Value, commitment: Value, hash: Value)
    returns (r: Result<Server.Action>)
    modifies db`queries
    ensures db.memory == old(db.memory)
    ensures Server.Respond(e, commitment, hash).Throws? ==>
      db.queries == old(db.queries) && r == Throws(Server.Respond(e, commitment, hash).error)
    ensures Server.Respond(e, commitment, hash).Ok? ==>
      var p := Server.Respond(e, commitment, hash).value;
      db.queries == old(db.queries) + [p.Nonce()] &&
      r == Ok(Server.Resume(mac, p, Server.Attempts(Lookup(db.memory, CounterKey(db.mac, p.Nonce())))))
  {
    var pending := Server.Respond(e, commitment, hash);
    if pending.Throws? {
      return Throws(pending.error);
    }
    var p := pending.value;
    var reply := db.Query(p.Nonce());
    r := Ok(Server.Resume(mac, p, reply));
  }

  /**
   * The "protocol is OK" scenario: a fresh store, `P1 = prepare(seed,
   * '1234')`, a notarization of `P1`, then a response with a freshly
   * prepared `P2`. The response is the one `respond` gives against the
   * store's count for the nonce: success with 0 attempts and the notarized
   * pepper. The store is asked once, for the nonce, and stays empty.
   */
  method ProtocolIsOk(mac256: Mac256, mac512: Mac512, e: seq<byte>, seed: seq<byte>, nonce: seq<byte>)
    returns (db: Store, pepper1: seq<byte>, result: Result<Server.Action>)
    requires |e| == 32 && |seed| == 32 && |nonce| == 32
    ensures fresh(db) && db.mac == mac256 && db.Valid()
    ensures db.memory == map[] && db.Count() == 0 && db.queries == [nonce]
    ensures Client.Prepare(mac256, Buf(seed), Str(Utf16("1234"))).Ok?
    ensures var p := Client.Prepare(mac256, Buf(seed), Str(Utf16("1234"))).value;
      var d := Server.Notarize(mac512, Buf(e), Buf(p), nonce);
      d.Ok? && pepper1 == d.value.pepper &&
      Server.Respond(Buf(e), Buf(d.value.commitment), Buf(p)).Ok? &&
      result == Ok(Server.Resume(mac512, Server.Respond(Buf(e), Buf(d.value.commitment), Buf(p)).value,
                                 Server.Attempts(Lookup(db.memory, CounterKey(db.mac, nonce)))))
    ensures result == Ok(Server.Success(0, pepper1))
  {
    Client.PasscodeCountsCodeUnits();
    db := new Store(mac256);
    var p1 := Client.Prepare(mac256, Buf(seed), Str(Utf16("1234"))).value;
    var notarized := Server.Notarize(mac512, Buf(e), Buf(p1), nonce).value;
    pepper1 := notarized.pepper;
    var p2 := Client.Prepare(mac256, Buf(seed), Str(Utf16("1234"))).value;
    Server.NotarizeRespondRoundTrip(mac512, e, nonce, p1, 0);
    result := RespondWith(db, mac512, Buf(e), Buf(notarized.commitment), Buf(p2));
  }
}
