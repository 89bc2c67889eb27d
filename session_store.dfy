/**
 * The session store of internal/store/SessionStore.go: bearer tokens, the
 * session ID derived from a token, and the three transactional operations
 * on the `sessions` table (create, validate with sliding renewal,
 * invalidate).
 *
 * The table is a map from session ID to row. A transaction is a private
 * copy of that map: statements change the copy, `Commit` publishes it, and
 * the deferred `Rollback` of every other exit path simply drops it.
 */
module Store {
  import opened Bytes
  import opened StoreErrors
  import Base32
  import Hex
  import Strings

  // ----- Time -----

  /** Instants and durations are in nanoseconds, the unit of Go's `time.Duration`. */
  const Hour: int := 3_600_000_000_000
  const Day: int := 24 * Hour
  /** `time.Hour * 24 * 30`: the lifetime given at creation and at renewal. */
  const SessionLifetime: int := 30 * Day
  /** `15 * 24 * time.Hour`: a session is renewed once it has less than this left. */
  const RenewalWindow: int := 15 * Day

  // ----- Records -----

  /** `models.Session`, one row of the `sessions` table (id, user_id, expires_at). */
  datatype Session = Session(id: string, userId: int, expiresAt: int)

  /** The `sessions` table, keyed by its primary key `id`. */
  type Table = map<string, Session>

  /** Every row is stored under its own ID. */
  predicate WellKeyed(t: Table) {
    forall id :: id in t ==> t[id].id == id
  }

  // ----- Tokens -----

  /** `make([]byte, 20)`: the number of random bytes in a token. */
  const TokenBytes: nat := 20

  /** A character of the lower-cased base32 alphabet. */
  predicate IsTokenChar(c: char) {
    'a' <= c <= 'z' || '2' <= c <= '7'
  }

  /** `strings.ToLower(base32.StdEncoding.EncodeToString(bytes))`. */
  function EncodeToken(bytes: seq<Byte>): (token: string) {
    Strings.ToLower(Base32.Encode(bytes))
  }

  /** A token made of 20 bytes has 32 characters, all from the lower-cased alphabet, so no '=' padding. */
  lemma TokenShape(bytes: seq<Byte>)
    requires |bytes| == TokenBytes
    ensures |EncodeToken(bytes)| == 32
    ensures forall c :: c in EncodeToken(bytes) ==> IsTokenChar(c) && c != Base32.Padding
  {
    var e := Base32.Encode(bytes);
    Base32.EncodeLength(bytes);
    Base32.EncodeAlphabet(bytes);
    forall c | c in EncodeToken(bytes) ensures IsTokenChar(c) {
      var i :| 0 <= i < |e| && EncodeToken(bytes)[i] == c;
      assert e[i] in e;
      Strings.LowerCharMeaning(e[i]);
    }
  }

  /** Distinct random bytes give distinct tokens: base32 and lower-casing both lose nothing. */
  lemma TokenInjective(a: seq<Byte>, b: seq<Byte>)
    requires EncodeToken(a) == EncodeToken(b)
    ensures a == b
  {
    Base32.EncodeAlphabet(a);
    Base32.EncodeAlphabet(b);
    Strings.ToLowerInjective(Base32.Encode(a), Base32.Encode(b));
    Base32.EncodeInjective(a, b);
  }

  /**
   * `GenerateSessionToken`. The read of 20 bytes from `crypto/rand` is the
   * input `random`: `None` when the read fails.
   */
  function GenerateSessionToken(random: Option<seq<Byte>>): (r: Result<string>)
    requires random.Some? ==> |random.value| == TokenBytes
    ensures r.Err? <==> random.None?
    ensures r.Err? ==> r.error == FailedToGenerateRandomBytes
    ensures r.Ok? ==> |r.value| == 32 && forall c :: c in r.value ==> IsTokenChar(c)
    ensures r.Ok? ==> r.value == EncodeToken(random.value)
  {
    match random
    case None => Err(FailedToGenerateRandomBytes)
    case Some(bytes) =>
      TokenShape(bytes);
      Ok(EncodeToken(bytes))
  }

  // ----- Session IDs -----

  /** The output of SHA-256. */
  type Digest = d: seq<Byte> | |d| == 32 witness seq(32, _ => 0)

  /** `sha256.Sum256`, a parameter of the store. */
  type Hash = seq<Byte> -> Digest

  /** `hex.EncodeToString(sha256.Sum256([]byte(token)))`: the key a token is stored under. */
  function SessionId(sha256: Hash, token: string): (id: string) {
    Hex.Encode(sha256(Utf8(token)))
  }

  /** A session ID has 64 characters, all lower-case hex digits. */
  lemma SessionIdShape(sha256: Hash, token: string)
    ensures |SessionId(sha256, token)| == 64
    ensures forall c :: c in SessionId(sha256, token) ==> Hex.IsHexDigit(c)
  {
    Hex.EncodeShape(sha256(Utf8(token)));
  }

  /** Two tokens share a session ID only when SHA-256 gives them the same digest. */
  lemma SessionIdDeterminesDigest(sha256: Hash, t1: string, t2: string)
    requires SessionId(sha256, t1) == SessionId(sha256, t2)
    ensures sha256(Utf8(t1)) == sha256(Utf8(t2))
  {
    Hex.DecodeEncode(sha256(Utf8(t1)));
    Hex.DecodeEncode(sha256(Utf8(t2)));
  }

  // ----- Operations on the table, as transitions -----

  /**
   * Failures of the database that the code reacts to: `Begin`, the
   * statement the operation depends on (the INSERT, the SELECT or the
   * DELETE), and `Commit`.
   */
  datatype Faults = Faults(beginFails: bool, statementFails: bool, commitFails: bool)

  /** What an operation returns and the table it leaves behind. */
  datatype Outcome<+T> = Outcome(result: Result<T>, table: Table)

  /** The renewal test of ValidateSessionToken: `now` is after `expiresAt - 15 days`. */
  predicate DueForRenewal(s: Session, now: int) {
    now > s.expiresAt - RenewalWindow
  }

  /** `CreateSession` on session ID `id` at instant `now`. */
  function CreateOutcome(t: Table, id: string, userId: int, now: int, f: Faults): (o: Outcome<Session>)
    ensures o.result.Ok? <==> !f.beginFails && id !in t && !f.statementFails && !f.commitFails
    ensures o.result.Ok? ==>
              && o.result.value == Session(id, userId, now + SessionLifetime)
              && o.table.Keys == t.Keys + {id}
              && o.table[id] == o.result.value
              && forall k :: k in t ==> o.table[k] == t[k]
    ensures o.result.Err? ==> o.table == t
    ensures f.beginFails ==> o.result == Err(FailedToStartTransaction)
    ensures !f.beginFails && (id in t || f.statementFails) ==> o.result == Err(FailedToCreateSession)
    ensures !f.beginFails && id !in t && !f.statementFails && f.commitFails ==>
              o.result == Err(FailedToCommitTransaction)
    ensures WellKeyed(t) ==> WellKeyed(o.table)
  {
    var session := Session(id, userId, now + SessionLifetime);
    if f.beginFails then Outcome(Err(FailedToStartTransaction), t)
    else if id in t || f.statementFails then Outcome(Err(FailedToCreateSession), t)
    else if f.commitFails then Outcome(Err(FailedToCommitTransaction), t)
    else Outcome(Ok(session), t[id := session])
  }

  /** `ValidateSessionToken` of a token whose session ID is `id`, at instant `now`. */
  function ValidateOutcome(t: Table, id: string, now: int, f: Faults): (o: Outcome<Session>)
    ensures o.result.Ok? <==>
              !f.beginFails && id in t && !f.statementFails && now <= t[id].expiresAt && !f.commitFails
    ensures o.result.Err? ==> o.table == t
    ensures o.result.Ok? ==>
              && o.result.value.id == t[id].id
              && o.result.value.userId == t[id].userId
              && (DueForRenewal(t[id], now) ==> o.result.value.expiresAt == now + SessionLifetime)
              && (!DueForRenewal(t[id], now) ==> o.result.value == t[id])
              && o.table.Keys == t.Keys
              && o.table[id] == o.result.value
              && forall k :: k in t && k != id ==> o.table[k] == t[k]
    ensures f.beginFails ==> o.result == Err(FailedToStartTransaction)
    ensures !f.beginFails && (id !in t || f.statementFails) ==> o.result == Err(FailedToScanSession)
    ensures !f.beginFails && id in t && !f.statementFails && now > t[id].expiresAt ==>
              o.result == Err(SessionExpired)
    ensures !f.beginFails && id in t && !f.statementFails && now <= t[id].expiresAt && f.commitFails ==>
              o.result == Err(FailedToCommitTransaction)
    ensures WellKeyed(t) ==> WellKeyed(o.table)
  {
    if f.beginFails then Outcome(Err(FailedToStartTransaction), t)
    else if id !in t || f.statementFails then Outcome(Err(FailedToScanSession), t)
    else
      var session := t[id];
      if now > session.expiresAt then
        // The DELETE runs in the transaction, which is then rolled back.
        Outcome(Err(SessionExpired), t)
      else
        var renewed := if DueForRenewal(session, now) then session.(expiresAt := now + SessionLifetime) else session;
        if f.commitFails then Outcome(Err(FailedToCommitTransaction), t)
        else Outcome(Ok(renewed), t[id := renewed])
  }

  /** `InvalidateSession(sessionID)`: the key is used as given, without hashing. */
  function InvalidateOutcome(t: Table, sessionId: string, f: Faults): (o: Outcome<()>)
    ensures o.result.Ok? <==> !f.beginFails && !f.statementFails && !f.commitFails
    ensures o.result.Ok? ==>
              && sessionId !in o.table
              && o.table.Keys == t.Keys - {sessionId}
              && forall k :: k in o.table ==> o.table[k] == t[k]
    ensures o.result.Err? ==> o.table == t
    ensures f.beginFails ==> o.result == Err(FailedToStartTransaction)
    ensures !f.beginFails && f.statementFails ==> o.result == Err(FailedToDeleteSession)
    ensures !f.beginFails && !f.statementFails && f.commitFails ==> o.result == Err(FailedToCommitTransaction)
    ensures WellKeyed(t) ==> WellKeyed(o.table)
  {
    if f.beginFails then Outcome(Err(FailedToStartTransaction), t)
    else if f.statementFails then Outcome(Err(FailedToDeleteSession), t)
    else if f.commitFails then Outcome(Err(FailedToCommitTransaction), t)
    else Outcome(Ok(()), t - {sessionId})
  }

  // ----- The store -----

  /** `sessionStore`: the database connection is the `sessions` table it gives access to. */
  class SessionStore {
    const sha256: Hash
    var sessions: Table

    ghost predicate Valid()
      reads this
    {
      WellKeyed(sessions)
    }

    /** `NewSessionStore(conn, logger)` over a table that already holds `sessions`. */
    constructor (sha256: Hash, sessions: Table)
      requires WellKeyed(sessions)
      ensures Valid()
      ensures this.sha256 == sha256 && this.sessions == sessions
    {
      this.sha256 := sha256;
      this.sessions := sessions;
    }

    method CreateSession(token: string, userId: int, now: int, faults: Faults) returns (r: Result<Session>)
      requires Valid()
      modifies this
      ensures Valid()
      ensures var o := CreateOutcome(old(sessions), SessionId(sha256, token), userId, now, faults);
              r == o.result && sessions == o.table
    {
      var id := SessionId(sha256, token);
      var session := Session(id, userId, now + SessionLifetime);
      if faults.beginFails {
        return Err(FailedToStartTransaction);
      }
      var tx := sessions;
      // INSERT: the primary key rejects a second row with the same ID.
      if id in tx || faults.statementFails {
        return Err(FailedToCreateSession);
      }
      tx := tx[id := session];
      if faults.commitFails {
        return Err(FailedToCommitTransaction);
      }
      sessions := tx;
      return Ok(session);
    }

    method ValidateSessionToken(token: string, now: int, faults: Faults) returns (r: Result<Session>)
      requires Valid()
      modifies this
      ensures Valid()
      ensures var o := ValidateOutcome(old(sessions), SessionId(sha256, token), now, faults);
              r == o.result && sessions == o.table
      ensures r.Ok? ==> r.value.id == SessionId(sha256, token)
    {
      var id := SessionId(sha256, token);
      if faults.beginFails {
        return Err(FailedToStartTransaction);
      }
      var tx := sessions;
      // SELECT id, user_id, expires_at ... WHERE id = $1
      if id !in tx || faults.statementFails {
        return Err(FailedToScanSession);
      }
      var session := tx[id];
      if now > session.expiresAt {
        tx := tx - {id};
        // Returned without Commit: the deferred Rollback drops tx.
        return Err(SessionExpired);
      }
      if now > session.expiresAt - RenewalWindow {
        session := session.(expiresAt := now + SessionLifetime);
        tx := tx[id := session];
      }
      if faults.commitFails {
        return Err(FailedToCommitTransaction);
      }
      sessions := tx;
      return Ok(session);
    }

    method InvalidateSession(sessionId: string, faults: Faults) returns (r: Result<()>)
      requires Valid()
      modifies this
      ensures Valid()
      ensures var o := InvalidateOutcome(old(sessions), sessionId, faults);
              r == o.result && sessions == o.table
    {
      if faults.beginFails {
        return Err(FailedToStartTransaction);
      }
      var tx := sessions;
      if faults.statementFails {
        return Err(FailedToDeleteSession);
      }
      tx := tx - {sessionId};
      if faults.commitFails {
        return Err(FailedToCommitTransaction);
      }
      sessions := tx;
      return Ok(());
    }
  }
}
