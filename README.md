# Session store of MemeWhisper, modelled in Dafny

This project models the session-token lifecycle of MemeWhisper's session
store (`internal/store/SessionStore.go`):

- **Token generation.** Twenty random bytes are encoded in base32 with the
  standard alphabet of section 6 of RFC 4648 and then lower-cased.
- **Session-ID derivation.** A session ID is the lower-case hex rendering of
  SHA-256 over the token's bytes.
- **Create, validate and invalidate.** These operations work on the
  `sessions` table, and each one runs in a database transaction.
- **Sliding expiry.** Validation rejects a session whose expiry has passed.
  It renews the expiry to now + 30 days once less than 15 days are left.

Files:

- `bytes.dfy` (module `Bytes`): octets, and `[]byte(s)` as the UTF-8
  encoding of a string.
- `base32.dfy` (module `Base32`): `base32.StdEncoding.EncodeToString`, with
  padding, for inputs of any length. A decoder is its partner and proves the
  encoding injective.
- `hex.dfy` (module `Hex`): `hex.EncodeToString`, with a decoder as its
  partner.
- `strings.dfy` (module `Strings`): `strings.ToLower` on ASCII text.
- `errors.dfy` (module `StoreErrors`): the sentinel errors of
  `internal/store/store.go` that the session store returns, as one datatype,
  plus the `Result` and `Option` shapes.
- `session_store.dfy` (module `Store`): tokens and session IDs. It also has
  the three operations as pure transitions over the table
  (`CreateOutcome`, `ValidateOutcome`, `InvalidateOutcome`), and the class
  `SessionStore`. The class holds the table as a `map` field. Its methods
  `CreateSession`, `ValidateSessionToken` and `InvalidateSession` work the
  way the Go code does. They open a transaction by copying the map, apply
  the statement to the copy, and publish the copy only on `Commit`. Every
  other exit drops the copy, which is what the deferred `tx.Rollback()`
  does. Each method is proved equal to its transition function.
- `session_properties.dfy` (module `SessionProperties`): properties that
  relate several operations. These are renewal, idle expiry, the expired
  path, invalidation, and a concrete timeline.

External effects are inputs:

- SHA-256 is a function given to the store's constructor, typed to return
  32 bytes.
- The outcome of the `crypto/rand` read is an `Option` of 20 bytes.
- The failures the code reacts to are a `Faults` value: `Begin`, the one
  statement the operation depends on (INSERT, SELECT or DELETE), and
  `Commit`.
- Each call to `time.Now()` within an operation reads one instant, `now`.
  It is measured in nanoseconds, the unit of Go's `time.Duration`.

Behaviour of the code worth knowing:

- **Expired sessions are not purged.** On the expired path the `DELETE` at
  `internal/store/SessionStore.go:126` runs inside the transaction. The
  function then returns at line 127 without committing, so the deferred
  `Rollback` at line 113 undoes the delete. The row stays, and every later
  validation reports it expired again
  (`SessionProperties.ExpiredRowSurvives`, `SessionProperties.StoreTimeline`).
- **`InvalidateSession` does not hash its argument.** It deletes the row
  whose key equals its argument verbatim, so callers must pass the session
  ID, not the token.
- **`CreateSession` takes the token as an argument.** It returns the stored
  record rather than the token, and its errors are the sentinel errors of
  `store.go`.
- **A renewed session still ends.** After a renewal at day 20 the session
  expires at day 50, so a validation at day 51 fails
  (`SessionProperties.Timeline`), and so does every later one
  (`SessionProperties.ExpiredRowSurvives`).

## Model

| member | source | states |
|---|---|---|
| `Base32.Encode` | internal/store/SessionStore.go:49 | `base32.StdEncoding.EncodeToString`: groups of 5 bytes become 8 symbols, most significant bits first, and a short last group is zero-filled and padded with '='; no ensures of its own, its meaning is in `DecodeEncode`, `EncodeInjective`, `EncodeLength` and `EncodeAlphabet` |
| `Base32.DecodeEncode` | internal/store/SessionStore.go:49 | decoding the standard base32 encoding of any byte string gives the bytes back, padding included |
| `Base32.EncodeInjective` | internal/store/SessionStore.go:49 | distinct byte strings have distinct base32 encodings |
| `Base32.EncodeLength` | internal/store/SessionStore.go:49 | the encoding has 8 characters per started group of 5 bytes (32 for 20 bytes) |
| `Base32.EncodeAlphabet` | internal/store/SessionStore.go:49 | every character is from the RFC 4648 section 6 alphabet or is '='; '=' occurs only when the length is not a multiple of 5 |
| `Base32.SymbolIsStandard` | internal/store/SessionStore.go:49 | the symbol for value v is the v-th character of "ABCDEFGHIJKLMNOPQRSTUVWXYZ234567" |
| `Base32.JoinSplit` | internal/store/SessionStore.go:49 | the 8 quintets of a 5-byte group carry all 40 of its bits |
| `Base32.DecodeEncodeGroup` | internal/store/SessionStore.go:49 | one group of 1 to 5 bytes, zero-filled and padded with '=', decodes back to exactly those bytes |
| `Strings.ToLower` | internal/store/SessionStore.go:49 | the result has the input's length, holds no capital letter, shifts each capital A-Z to its small letter and keeps every other character |
| `Strings.LowerCharMeaning` | internal/store/SessionStore.go:49 | lower-casing maps each capital to its small letter and leaves every other character alone |
| `Strings.ToLowerInjective` | internal/store/SessionStore.go:49 | lower-casing is injective on strings without small letters, such as base32 output |
| `Hex.Encode` | internal/store/SessionStore.go:60 | `hex.EncodeToString`: each byte becomes two lower-case hex digits, high nibble first; no ensures of its own, its meaning is in `EncodeShape` and `DecodeEncode` |
| `Hex.EncodeShape` | internal/store/SessionStore.go:60 | the hex rendering has two characters per byte, all in 0-9a-f |
| `Hex.DecodeEncode` | internal/store/SessionStore.go:60 | decoding the hex rendering gives the bytes back, so distinct digests have distinct renderings |
| `Hex.DigitIsStandard` | internal/store/SessionStore.go:60 | the digit for value v is the v-th character of "0123456789abcdef", and reading it gives v |
| `Bytes.Utf8` | internal/store/SessionStore.go:59 | `[]byte(token)`: the UTF-8 bytes of the string, 1 to 4 per character as `Utf8Char` states; no ensures of its own, its value on ASCII tokens is in `Utf8OfAscii` |
| `Bytes.Utf8OfAscii` | internal/store/SessionStore.go:59 | `[]byte(token)` of an ASCII token is one byte per character, equal to its code |
| `Store.EncodeToken` | internal/store/SessionStore.go:49 | `strings.ToLower(base32.StdEncoding.EncodeToString(bytes))`; no ensures of its own, its shape is in `TokenShape` and its injectivity in `TokenInjective` |
| `Store.TokenShape` | internal/store/SessionStore.go:42-51 | a token made from 20 bytes has 32 characters, all in a-z or 2-7, and no '=' padding |
| `Store.TokenInjective` | internal/store/SessionStore.go:42-49 | distinct random byte strings give distinct tokens |
| `Store.GenerateSessionToken` | internal/store/SessionStore.go:41-52 | a failed random read returns FailedToGenerateRandomBytes and no token; otherwise the token is the lower-cased base32 of the 20 bytes, 32 characters of a-z and 2-7 |
| `Store.SessionId` | internal/store/SessionStore.go:59-60 | lower-case hex of SHA-256 over the token's UTF-8 bytes, the same function at lines 103-104; no ensures of its own, its shape is in `SessionIdShape` and its injectivity up to the digest in `SessionIdDeterminesDigest` |
| `Store.SessionIdShape` | internal/store/SessionStore.go:59-60 | a session ID is 64 lower-case hex characters |
| `Store.SessionIdDeterminesDigest` | internal/store/SessionStore.go:103-104 | two tokens share a session ID only if their SHA-256 digests are equal |
| `Store.DueForRenewal` | internal/store/SessionStore.go:130 | the renewal test: now strictly after expiresAt - 15 days; its consequences are in `ValidateOutcome`, `RenewalExtendsExpiry` and `NoSecondRenewalWithinWindow` |
| `Store.CreateOutcome` | internal/store/SessionStore.go:58-95 | success exactly when Begin, the INSERT and Commit succeed and the ID is absent; then one row {ID, userID, now + 30 days} is added and returned, and all other rows are unchanged; each failure returns its sentinel error and leaves the table unchanged |
| `Store.ValidateOutcome` | internal/store/SessionStore.go:102-145 | success exactly when Begin, the SELECT and Commit succeed, the row exists and now is not after its expiry; then ID and user are kept, and the expiry becomes now + 30 days if now is after expiry - 15 days, otherwise the row is returned as stored; only that row may change; every error (start, scan, expired, commit) leaves the table unchanged |
| `Store.InvalidateOutcome` | internal/store/SessionStore.go:151-179 | success exactly when Begin, the DELETE and Commit succeed, whether or not the row existed; then only the row keyed by the given ID verbatim is gone; a failure returns its sentinel error and leaves the table unchanged |
| `Store.SessionStore.constructor` | internal/store/SessionStore.go:28-35 | the store starts over the given table and hash function |
| `Store.SessionStore.CreateSession` | internal/store/SessionStore.go:58-95 | derives the ID from the token, inserts in a transaction copy published only on commit; result and new table are those of CreateOutcome; rows stay keyed by their ID |
| `Store.SessionStore.ValidateSessionToken` | internal/store/SessionStore.go:102-145 | derives the ID by the same function as CreateSession, and a returned session carries exactly that ID; the expired path's delete is dropped with the uncommitted copy; result and new table are those of ValidateOutcome |
| `Store.SessionStore.InvalidateSession` | internal/store/SessionStore.go:151-179 | deletes in a transaction copy published only on commit; result and new table are those of InvalidateOutcome |
| `SessionProperties.RenewalExtendsExpiry` | internal/store/SessionStore.go:130-134 | a renewal moves the expiry strictly forward, by more than 15 days |
| `SessionProperties.ValidatedSessionHasWindowLeft` | internal/store/SessionStore.go:124-134 | a session that validates at now expires no earlier than now + 15 days |
| `SessionProperties.NoSecondRenewalWithinWindow` | internal/store/SessionStore.go:130-134 | after a renewal at now, validating again within 15 days returns the same record and writes nothing |
| `SessionProperties.ExpiredRowSurvives` | internal/store/SessionStore.go:113-128 | an expired validation leaves the table unchanged (the delete is rolled back), so later validations report it expired again |
| `SessionProperties.ExpiryBoundaryAccepted` | internal/store/SessionStore.go:124-128 | a session whose expiry equals now is accepted, and one nanosecond later it is expired |
| `SessionProperties.CreateThenValidate` | internal/store/SessionStore.go:58-145 | a token validated within 30 days of its creation resolves to the created row, with the same user |
| `SessionProperties.InvalidateThenValidate` | internal/store/SessionStore.go:102-179 | after its session ID is invalidated, the token fails validation with FailedToScanSession once Begin succeeds |
| `SessionProperties.InvalidateIdempotent` | internal/store/SessionStore.go:151-179 | invalidating twice succeeds and leaves the same table as invalidating once |
| `SessionProperties.ValidateTrace` | internal/store/SessionStore.go:102-145 | a run of fault-free validations yields one result per request, each a session or a scan or expiry error, and never adds or removes a row |
| `SessionProperties.ActiveSessionNeverExpires` | internal/store/SessionStore.go:124-134 | a session with 15 days left that is then used at least every 15 days validates on every request |
| `SessionProperties.OperationsKeepBoundedLifetime` | internal/store/SessionStore.go:58-179 | no operation leaves a row expiring more than 30 days after the instant it runs at |
| `SessionProperties.IdleSessionExpires` | internal/store/SessionStore.go:124-128 | once more than 30 days pass after the last operation, no session validates |
| `SessionProperties.Timeline` | internal/store/SessionStore.go:58-145 | created at day 0, the session expires at day 30; validated at day 20 it is renewed to day 50; at day 51 it is expired |
| `SessionProperties.StoreTimeline` | internal/store/SessionStore.go:58-145 | the same timeline through the class's methods, with a second expired result because the row is kept |

## Left out

- SHA-256 and `crypto/rand` internals: both are external code. The hash is a parameter that returns 32 bytes, and the random read is an input.
- zap logging, the SQL text and the database driver: they have no effect on results. The table is a map, and a statement's failure is an input.
- The results of the `Exec` calls at `internal/store/SessionStore.go:126` and `:133`: the code ignores them, and the model treats both statements as succeeding.
- A `Commit` that reports an error after the database did commit: the model treats a failed commit as publishing nothing.
- Concurrency between requests and the database's isolation level: each operation is modelled as atomic over the whole table.
- Clock details: the separate `time.Now()` reads are one instant, and Go's monotonic clock reading is not modelled. PostgreSQL rounds a stored `expires_at` to microseconds, and that rounding is not modelled either.
- Fixed-width integers: user IDs and instants are unbounded integers, so Go's 64-bit overflow is not modelled.
- Store.GenerateSessionToken: modelled as a pure function of the random read. It ignores the store's receiver, which the Go code uses only for logging.
- Strings.ToLower: covers ASCII only. Go's Unicode case mapping is left out because it is applied here only to base32 output.
- Bytes.Utf8: turns a string into its UTF-8 bytes. Go strings that hold invalid UTF-8 are not modelled.
- Base32.Decode and Hex.Decode: partners used to prove injectivity. They are not models of Go's decoders, which report malformed input.
- The user-store errors of `internal/store/store.go`, and the files `UserStore.go`, `MemeStore.go`, the routers, config, database, cache, validator and response packages: these are not part of this model. They are single SQL statements, wiring or plain structs.
