# habanero: a passcode-commitment protocol, modelled in Dafny

The model covers the small passcode-commitment protocol of this repository.

- **Client.** A client turns a 32-byte seed and a passcode into a 32-byte hash `P = hmac256(seed, passcode)` (`prepare`). It can also derive a key from seed, pepper and passcode (`kdf`).
- **Server, notarize.** The server makes a 64-byte commitment `I ‖ verify` and a 32-byte pepper from its 32-byte secret `e` and `P` (`notarize`). Both halves come from `K = hmac512(e, I ‖ P)`, and `I` is a fresh 32-byte nonce.
- **Server, respond.** Later the server checks a resubmitted `P` against a commitment (`respond`). It asks an attempt-counter store for the nonce's count. The call then ends in one of four ways:
  - a store error is passed on;
  - a count above 5 locks;
  - a mismatch hands the nonce to the caller's ban callback;
  - a match releases the pepper together with the count.
- **Store.** The test suite's in-memory counter store (`memdb`) is modelled as a class over a map.

HMAC-SHA-256 and HMAC-SHA-512 stay abstract. Every operation that uses one takes it as a function value of type `Crypto.Mac256` or `Crypto.Mac512`. Those types say only that every output is 32 or 64 bytes long. Nothing else about them is assumed, collision resistance included. `prepare`, `kdf`, `notarize` and `respond` are modelled as Dafny functions of their arguments, so each is deterministic: `prepare` given equal inputs gives equal results.

Files, one module each:
- `js.dfy`: the JavaScript values the core inspects, strings as UTF-16 code units, and `TypeError` throws.
- `buffers.dfy`: the Node `Buffer` behaviour the core relies on, `Buffer.concat` with a total length and `toString('hex')`.
- `crypto.dfy`: `crypto.js`.
- `client.dfy`: `index.js`.
- `server.dfy`: `server.js`.
- `memdb.dfy`: `memdb` and its use with `respond` in `test/index.js`.

`respond` is split the way its JavaScript is:
- `Server.Respond` is the synchronous part. It validates the arguments and yields the `Pending` state captured by the query callback, whose `Nonce()` is the `I` passed to `queryCb`. It has no store input, so a validation failure cannot depend on the store or reach it.
- `Server.Resume` is the callback body, given the store's reply. It returns the one `Action` `respond` then takes.
- `MemDb.RespondWith` composes the two with a `MemDb.Store`. The store keeps a ghost log of the nonces its `query` was asked about, and the contract states how that log grows.

Where the tests expect otherwise (test/index.js:73-85, 118-125), the model follows `server.js`. On a mismatch the code calls `banCb(I, callback)` and does not itself increment any counter. On a match it does not clear the counter. The lockout test is `attempts > 5`, so a count of exactly 5 is still compared.

## Model

| member | source | states |
|---|---|---|
| `Buffers.Concat` | server.js:5 | `Buffer.concat(parts, n)` is empty for an empty list. Otherwise it is exactly `n` bytes long: the parts' bytes cut to `n`, or those bytes followed by zero bytes up to `n`. |
| `Buffers.ConcatPair` | server.js:5-9 | Concatenating two buffers into their combined length (32 + 32 into 64) gives exactly `a + b`. |
| `Buffers.Hex` | test/index.js:11 | `toString('hex')` gives two characters per byte: the lower-case hex digit of the high nibble, then that of the low nibble. |
| `Buffers.HexInjective` | test/index.js:11 | Distinct buffers have distinct hex strings. |
| `Crypto.Hmac256` | crypto.js:3-5 | `hmac256(key, data)` is a function of key and data with a 32-byte digest. |
| `Crypto.Hmac512` | crypto.js:7-9 | `hmac512(key, data)` is a function of key and data with a 64-byte digest. |
| `Crypto.IsBufferN` | crypto.js:11-13 | `isBufferN(x, n)` passes only a buffer, and a buffer exactly for its own length. A string fails whatever its length. |
| `Js.Utf16` | index.js:4 | A string's `length` lies between its character count and twice that. For a string of characters of the Basic Multilingual Plane, the units are exactly the characters' values. |
| `Js.CharUnits` | index.js:4 | A character of the Basic Multilingual Plane is one code unit, its own value. A character beyond it is a high surrogate followed by a low surrogate that decode back to it. |
| `Js.Utf16Append` | index.js:4 | The code units of two joined strings are those of the first followed by those of the second. |
| `Client.IsPasscode` | index.js:3-5 | `isPasscode` holds only for strings, and for a string exactly when it has at least 4 code units. |
| `Client.PasscodeCountsCodeUnits` | index.js:4 | Two characters beyond the Basic Multilingual Plane make a valid passcode, as their `length` is 4; `'123'` does not, and `'1234'` does. |
| `Client.Prepare` | index.js:7-11 | Succeeds exactly for a 32-byte buffer salt and a passcode string of length at least 4. Otherwise it throws "Bad salt" first, then "Bad passcode". A success is the 32-byte `hmac256(salt, passcode)`. |
| `Client.KdfKey` | index.js:18 | The kdf key is 64 bytes: the salt's 32, then the pepper's 32. |
| `Client.Kdf` | index.js:14-20 | Checks "Bad salt", then "Bad pepper" (32-byte buffer), then "Bad passcode", in that order. Succeeds exactly when all three pass, with the 32-byte `hmac256(salt ‖ pepper, passcode)`. |
| `Client.KdfAcceptsWhatPrepareAccepts` | index.js:7-20 | When `prepare` accepts a salt and passcode, `kdf` with them fails only on a pepper that is not 32 bytes, and then with "Bad pepper". |
| `Server.DeriveCommitment` | server.js:4-11 | The commitment is 64 bytes and the pepper 32. For a 32-byte `I` and `P`, with `K = hmac512(e, I ‖ P)`: the commitment starts with `I`, and its last 32 bytes followed by the pepper are exactly `K`. |
| `Server.Notarize` | server.js:13-19 | Succeeds exactly for a 32-byte buffer secret and hash. Otherwise it throws "Bad secret" first, then "Bad hash". A success is `I ‖ K[0..32]` with pepper `K[32..64]`. |
| `Server.NotarizeFailsBeforeNonce` | server.js:14-17 | A rejected `notarize` fails the same way whatever nonce it would have drawn. |
| `Server.Pending.Nonce` | server.js:26 | The queried `I` is the commitment's first 32 bytes; the commitment is `I` followed by the rest. |
| `Server.Respond` | server.js:21-28 | Reaches the store exactly for a 32-byte secret, a 64-byte commitment and a 32-byte hash. Otherwise it throws "Bad secret", then "Bad commitment", then "Bad hash", in that order, before any query. |
| `Server.Resume` | server.js:28-36 | A store error is passed on unchanged. A count above 5 gives `callback()` with no comparison and no ban. Otherwise, a tail equal to `hmac512(e, I ‖ P)[0..32]` gives `callback(null, {attempts, pepper})` with the queried count unchanged and `pepper = K[32..64]`. Any other tail gives `banCb(I, ...)`. |
| `Server.NotarizeRespondRoundTrip` | server.js:13-36 | For any 32-byte `e`, `I` and `P` and any count of at most 5, responding with the notarized commitment and the same `P` succeeds with that count and the notarized pepper. |
| `Server.SuccessOnlyForNotarized` | server.js:30-35 | A success implies the count was at most 5. It also implies the whole 64-byte commitment equals the one `notarize` gives for that secret, hash and nonce, and the released pepper is that notarization's pepper. |
| `Server.LockoutThreshold` | server.js:30 | Counts up to 5 end in success or a ban of `I`. Exactly the counts above 5 end in `callback()`, a valid commitment included. |
| `MemDb.CounterKey` | test/index.js:10-12 | `_h(I)` is a 64-character lower-case hex string. |
| `MemDb.SharedCounter` | test/index.js:10-12 | Two nonces share one counter exactly when their `hmac256('mem', I)` tags are equal. |
| `MemDb.Lookup` | test/index.js:13-17 | `query`'s count for a key: the stored count, or 0 when none is stored. When no 0 is stored, it is 0 exactly for an absent key. |
| `MemDb.Updated` | test/index.js:18-27 | The memory after `limit(I, n)`. `query(I)` then reports `n`, and the entry exists exactly when `n != 0`. Every other key keeps its presence and count. Storing at a new key adds one key and at a present key none; deleting a present key removes one and an absent key none. |
| `MemDb.Store.constructor` | test/index.js:8-9 | A fresh store holds no entries. |
| `MemDb.Store.Query` | test/index.js:13-17 | Reports the stored count, or 0 for a nonce never stored. It never fails and does not change the memory; it logs the nonce. While no 0 is stored, it reports 0 exactly for an absent key. |
| `MemDb.Store.Limit` | test/index.js:18-26 | Deletes the entry of `_h(I)` for 0 and stores the count otherwise. `query(I)` then reports that count, every other key is unchanged, and no 0 is ever stored. |
| `MemDb.Store.Count` | test/index.js:27 | `_count()` is the number of distinct stored keys, 0 exactly when nothing is stored. |
| `MemDb.Store.LimitOf` | test/index.js:28 | `_limitOf(I)` is defined exactly when `_h(I)` is stored, and then it is the stored count, never 0. |
| `MemDb.RespondWith` | server.js:21-36 | A rejected argument throws and the store's query log stays as it was. Otherwise the log grows by exactly the commitment's nonce, and the store's count for it decides the action. The stored counts are not changed. |
| `MemDb.ProtocolIsOk` | test/index.js:32-54 | Fresh store, `prepare(seed, '1234')`, notarize, prepare again, respond. The returned `pepper1` is the pepper `notarize` gave. The result is `respond`'s action against the returned store's count for the nonce, and that action is success with 0 attempts and the same pepper. The store was asked once, for the nonce, and its memory is still empty, so `_count()` is 0. |

## Left out

- HMAC internals: the model assumes only the 32- or 64-byte digest length of the `create-hmac` library, and no collision resistance.
- String-to-bytes encoding for HMAC input: it is treated as part of the abstract HMAC, which accepts a string or a buffer as `Crypto.Binary`.
- Randomness: `randomBytes(32)` in `notarize` becomes the 32-byte `nonce` parameter.
- Non-determinism of `notarize`: the "commit is not deterministic" test is a probabilistic claim about random nonces and is not modelled.
- Asynchrony: callbacks are modelled as one synchronous sequence (validate, query, decide).
- Concurrency: concurrent `respond` calls on one nonce, including the race between reading a count and banning, are not modelled.
- Timing: `Buffer.equals` is modelled as plain equality, and its timing side channel is not modelled.
- `banCb`: it is the caller's function, so `respond` ends with `Ban(I)` and the model does not say what the ban does. With `memdb`, `banCb(I, callback)` would hand `callback` to `limit` as the count; that mismatch of signatures is not modelled.
- Test names: the tests call `server.commit` and `server.get`, which `server.js` does not export. `MemDb.ProtocolIsOk` uses `notarize` and `respond` instead.
- Counter tests: the increment and cap-at-5 expectations (test/index.js:69-97) and the reset-on-success expectations (test/index.js:118-125) describe behaviour `server.js` does not have. They are not stated.
- Query errors: an error is a tagged `QueryFailed(error)` string. JavaScript truthiness of `err`, for example a falsy `0` or `''` read as no error, is not modelled.
- Attempt counts: counts are integers. Non-numeric counts, for example `undefined > 5`, are not modelled.
- JavaScript values: they are a buffer, a string of UTF-16 code units, or "other". Lone surrogates are representable as code units, but `Js.Utf16` produces only well-formed strings from literals.
- Buffer aliasing: `slice` returns a view that shares memory with the commitment. The model copies the bytes, and aliasing is not modelled.
- `memdb.limit` with a non-number: `limit === 0` is compared on integers only.
- `memdb` key lookup: plain-object property lookup cannot meet the prototype's property names, because every key is a 64-character hex string. So a map models `memory` exactly.
- `memdb` callbacks: the callback `limit` and `query` call is the return of the method.
- Test harness: the tape assertions themselves are not modelled.
