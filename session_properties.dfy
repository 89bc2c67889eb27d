/**
 * Properties of the session lifecycle that relate several operations:
 * sliding renewal keeps an active user logged in, an idle session dies
 * within one lifetime, and what invalidation and expiry leave behind.
 */
module SessionProperties {
  import opened StoreErrors
  import opened Store

  const NoFaults: Faults := Faults(false, false, false)

  /** Renewal moves the expiry strictly forward, by more than the renewal window. */
  lemma RenewalExtendsExpiry(t: Table, id: string, now: int, f: Faults)
    requires ValidateOutcome(t, id, now, f).result.Ok?
    requires DueForRenewal(t[id], now)
    ensures ValidateOutcome(t, id, now, f).result.value.expiresAt > t[id].expiresAt + RenewalWindow
  {
  }

  /** A session that validates has at least the renewal window (15 days) left afterwards. */
  lemma ValidatedSessionHasWindowLeft(t: Table, id: string, now: int, f: Faults)
    requires ValidateOutcome(t, id, now, f).result.Ok?
    ensures ValidateOutcome(t, id, now, f).result.value.expiresAt >= now + RenewalWindow
  {
  }

  /**
   * After a renewal at `now`, validating again within the renewal window
   * writes nothing: the row is renewed at most once per half lifetime.
   */
  lemma NoSecondRenewalWithinWindow(t: Table, id: string, now: int, later: int)
    requires ValidateOutcome(t, id, now, NoFaults).result.Ok?
    requires DueForRenewal(t[id], now)
    requires now <= later <= now + RenewalWindow
    ensures var o := ValidateOutcome(t, id, now, NoFaults);
            var o' := ValidateOutcome(o.table, id, later, NoFaults);
            o'.result == o.result && o'.table == o.table
  {
  }

  /**
   * An expired session is reported as expired and, because its DELETE is
   * rolled back, it is still there: validating it again at the same or a
   * later instant reports it expired again rather than missing.
   */
  lemma ExpiredRowSurvives(t: Table, id: string, now: int, later: int)
    requires ValidateOutcome(t, id, now, NoFaults).result == Err(SessionExpired)
    requires now <= later
    ensures ValidateOutcome(t, id, now, NoFaults).table == t
    ensures id in t
    ensures ValidateOutcome(t, id, later, NoFaults).result == Err(SessionExpired)
  {
  }

  /** The expiry test is strict: a session expiring exactly now is still accepted. */
  lemma ExpiryBoundaryAccepted(t: Table, id: string, now: int)
    requires id in t && t[id].expiresAt == now
    ensures ValidateOutcome(t, id, now, NoFaults).result.Ok?
    ensures ValidateOutcome(t, id, now + 1, NoFaults).result == Err(SessionExpired)
  {
  }

  /** A token used right after it was stored resolves to the row created for it. */
  lemma CreateThenValidate(t: Table, sha256: Hash, token: string, userId: int, now: int, later: int)
    requires CreateOutcome(t, SessionId(sha256, token), userId, now, NoFaults).result.Ok?
    requires now <= later <= now + SessionLifetime
    ensures var t' := CreateOutcome(t, SessionId(sha256, token), userId, now, NoFaults).table;
            var r := ValidateOutcome(t', SessionId(sha256, token), later, NoFaults).result;
            r.Ok? && r.value.userId == userId && r.value.id == SessionId(sha256, token)
  {
  }

  /** After invalidating a token's session ID, the token no longer validates. */
  lemma InvalidateThenValidate(t: Table, sha256: Hash, token: string, now: int, f: Faults)
    requires InvalidateOutcome(t, SessionId(sha256, token), NoFaults).result.Ok?
    requires !f.beginFails
    ensures var t' := InvalidateOutcome(t, SessionId(sha256, token), NoFaults).table;
            ValidateOutcome(t', SessionId(sha256, token), now, f).result == Err(FailedToScanSession)
  {
  }

  /** Invalidating twice is the same as invalidating once; the second call also succeeds. */
  lemma InvalidateIdempotent(t: Table, id: string)
    ensures var o := InvalidateOutcome(t, id, NoFaults);
            var o' := InvalidateOutcome(o.table, id, NoFaults);
            o'.result.Ok? && o'.table == o.table
  {
  }

  // ----- Sliding expiry over a sequence of requests -----

  /** The results of a run of validations, and the table after the last one. */
  datatype Trace = Trace(results: seq<Result<Session>>, table: Table)

  /** Validating the same session ID at each instant of `times` in turn, without faults. */
  function ValidateTrace(t: Table, id: string, times: seq<int>): (tr: Trace)
    ensures |tr.results| == |times|
    ensures forall i :: 0 <= i < |times| ==>
              tr.results[i].Ok? || tr.results[i] in {Err(FailedToScanSession), Err(SessionExpired)}
    ensures tr.table.Keys == t.Keys
    decreases |times|
  {
    if times == [] then Trace([], t)
    else
      var first := ValidateOutcome(t, id, times[0], NoFaults);
      var rest := ValidateTrace(first.table, id, times[1..]);
      Trace([first.result] + rest.results, rest.table)
  }

  /** Requests in order, none of them more than the renewal window after the one before (or after `start`). */
  predicate ActiveUse(start: int, times: seq<int>) {
    && (|times| > 0 ==> start <= times[0] <= start + RenewalWindow)
    && (forall i :: 1 <= i < |times| ==> times[i - 1] <= times[i] <= times[i - 1] + RenewalWindow)
  }

  /**
   * Sliding expiry keeps an active user logged in indefinitely: a session
   * that has the renewal window left at `start` and is then used at least
   * once every 15 days validates on every request.
   */
  lemma {:induction false} ActiveSessionNeverExpires(t: Table, id: string, start: int, times: seq<int>)
    requires id in t && t[id].expiresAt >= start + RenewalWindow
    requires ActiveUse(start, times)
    ensures forall i :: 0 <= i < |times| ==> ValidateTrace(t, id, times).results[i].Ok?
    decreases |times|
  {
    if times != [] {
      var first := ValidateOutcome(t, id, times[0], NoFaults);
      var t' := first.table;
      assert t'[id].expiresAt >= times[0] + RenewalWindow;
      assert ActiveUse(times[0], times[1..]) by {
        forall i | 1 <= i < |times[1..]|
          ensures times[1..][i - 1] <= times[1..][i] <= times[1..][i - 1] + RenewalWindow
        {
          assert times[1..][i] == times[i + 1];
        }
      }
      ActiveSessionNeverExpires(t', id, times[0], times[1..]);
      var rest := ValidateTrace(t', id, times[1..]);
      assert ValidateTrace(t, id, times).results == [first.result] + rest.results;
    }
  }

  // ----- Idle sessions end -----

  /** No row outlives `now` by more than one session lifetime. */
  predicate BoundedLifetime(t: Table, now: int) {
    forall k :: k in t ==> t[k].expiresAt <= now + SessionLifetime
  }

  /** Every operation at an instant `now` keeps the bound for any earlier bound instant. */
  lemma OperationsKeepBoundedLifetime(t: Table, before: int, now: int, id: string, userId: int, f: Faults)
    requires BoundedLifetime(t, before) && before <= now
    ensures BoundedLifetime(CreateOutcome(t, id, userId, now, f).table, now)
    ensures BoundedLifetime(ValidateOutcome(t, id, now, f).table, now)
    ensures BoundedLifetime(InvalidateOutcome(t, id, f).table, now)
  {
  }

  /**
   * An idle session dies: once no request has touched the table for more
   * than a lifetime, no session ID validates.
   */
  lemma IdleSessionExpires(t: Table, id: string, last: int, now: int, f: Faults)
    requires BoundedLifetime(t, last)
    requires now > last + SessionLifetime
    ensures !ValidateOutcome(t, id, now, f).result.Ok?
  {
  }

  // ----- A concrete timeline -----

  /**
   * Created at day 0, the session expires at day 30; validated at day 20
   * it is renewed to day 50; at day 51 it is expired.
   */
  lemma Timeline(sha256: Hash, token: string, d0: int)
    ensures var id := SessionId(sha256, token);
            var c := CreateOutcome(map[], id, 42, d0, NoFaults);
            var v1 := ValidateOutcome(c.table, id, d0 + 20 * Day, NoFaults);
            var v2 := ValidateOutcome(v1.table, id, d0 + 51 * Day, NoFaults);
            && c.result == Ok(Session(id, 42, d0 + 30 * Day))
            && v1.result == Ok(Session(id, 42, d0 + 50 * Day))
            && v2.result == Err(SessionExpired)
  {
  }

  /**
   * The same timeline driven through the store's methods: their contracts
   * alone decide every outcome, including that the expired row is kept.
   */
  method StoreTimeline(sha256: Hash, token: string, d0: int)
    returns (created: Result<Session>, renewed: Result<Session>, expired: Result<Session>, again: Result<Session>)
    ensures created == Ok(Session(SessionId(sha256, token), 42, d0 + 30 * Day))
    ensures renewed == Ok(Session(SessionId(sha256, token), 42, d0 + 50 * Day))
    ensures expired == Err(SessionExpired) && again == Err(SessionExpired)
  {
    var store := new SessionStore(sha256, map[]);
    created := store.CreateSession(token, 42, d0, NoFaults);
    renewed := store.ValidateSessionToken(token, d0 + 20 * Day, NoFaults);
    expired := store.ValidateSessionToken(token, d0 + 51 * Day, NoFaults);
    again := store.ValidateSessionToken(token, d0 + 52 * Day, NoFaults);
  }
}
