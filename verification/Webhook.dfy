/** The webhook outbox: claiming deliveries under expiring leases, settling them
    by compare-and-swap on the lease token, backing off, opening circuits,
    dead-lettering, replaying and purging.

    Tables are maps from row id to row, and each transaction is one step.
    Times are nanoseconds. */
module Webhook {
  import opened Wrappers
  import opened Sql
  import Text

  const SECOND: int := 1_000_000_000
  const MINUTE: int := 60 * SECOND
  const DAY: int := 24 * 60 * MINUTE
  const MAX_ATTEMPTS: int := 8
  const CIRCUIT_FAILURES: int := 5
  const WORKER_BATCH: int := 20
  const WORKER_LEASE: int := 30 * SECOND

  datatype Status = Pending | Delivering | Retry | Delivered | DeadLetter

  datatype Delivery = Delivery(
    eventId: nat, targetId: nat, status: Status, attempts: int, nextAttemptAt: int,
    leaseToken: Option<nat>, leaseExpiresAt: Option<int>,
    lastHttpStatus: Option<int>, lastErrorCode: Option<string>,
    deliveredAt: Option<int>, updatedAt: int)

  datatype Target = Target(active: bool, consecutiveFailures: int, circuitOpenUntil: Option<int>, updatedAt: int)

  datatype DeadLetterRow = DeadLetterRow(reasonCode: string, replayedAt: Option<int>)

  datatype Event = Event(occurredAt: int)

  datatype Db = Db(
    targets: map<nat, Target>, deliveries: map<nat, Delivery>,
    deadLetters: map<nat, DeadLetterRow>, events: map<nat, Event>)

  /** What a worker holds in memory after claiming a delivery. */
  datatype Claim = Claim(id: nat, eventId: nat, targetId: nat, token: nat, attempts: int, failures: int)

  datatype Error = InvalidArgument | LeaseLost | NotFound | ForeignKeyViolation

  // ----- Enqueue -----

  predicate CircuitClosed(t: Target, now: int) {
    t.circuitOpenUntil.None? || t.circuitOpenUntil.value <= now
  }

  /** The targets that get a delivery of an event published at `now`. */
  function Recipients(db: Db, now: int): set<nat> {
    set t | t in db.targets && db.targets[t].active && CircuitClosed(db.targets[t], now)
  }

  /** The event and one pending delivery per recipient, with the given new ids. */
  function AfterEnqueue(db: Db, eventId: nat, now: int, ids: map<nat, nat>): Db {
    db.(events := db.events[eventId := Event(now)],
        deliveries := map d | d in db.deliveries.Keys + ids.Keys ::
          if d in ids then NewDelivery(eventId, ids[d], now) else db.deliveries[d])
  }

  function NewDelivery(eventId: nat, targetId: nat, now: int): Delivery {
    Delivery(eventId, targetId, Pending, 0, now, None, None, None, None, None, now)
  }

  // ----- Claim -----

  predicate Due(d: Delivery, now: int) {
    match d.status
    case Pending => d.nextAttemptAt <= now
    case Retry => d.nextAttemptAt <= now
    case Delivering => d.leaseExpiresAt.Some? && d.leaseExpiresAt.value <= now
    case _ => false
  }

  predicate Claimable(db: Db, id: nat, now: int)
    requires id in db.deliveries
  {
    var d := db.deliveries[id];
    && d.targetId in db.targets
    && db.targets[d.targetId].active
    && CircuitClosed(db.targets[d.targetId], now)
    && Due(d, now)
  }

  /** The due rows that no other transaction has locked, by next attempt. */
  function DueRows(db: Db, now: int, locked: set<nat>): map<nat, int> {
    map id | id in db.deliveries && id !in locked && Claimable(db, id, now) :: db.deliveries[id].nextAttemptAt
  }

  /** The rows that a claim takes: the earliest due ones, up to the limit. */
  function Candidates(db: Db, now: int, limit: nat, locked: set<nat>): seq<nat> {
    Limit(OrderBy(DueRows(db, now, locked)), limit)
  }

  function Leased(d: Delivery, now: int, lease: int, token: nat): Delivery {
    d.(status := Delivering, attempts := d.attempts + 1,
       leaseToken := Some(token), leaseExpiresAt := Some(now + lease), updatedAt := now)
  }

  function AfterClaim(db: Db, ids: seq<nat>, now: int, lease: int, token: nat): Db {
    db.(deliveries := map id | id in db.deliveries ::
          if id in ids then Leased(db.deliveries[id], now, lease, token) else db.deliveries[id])
  }

  predicate Joined(db: Db, id: nat) {
    id in db.deliveries && db.deliveries[id].targetId in db.targets
  }

  function ClaimOf(db: Db, id: nat, token: nat): Claim
    requires Joined(db, id)
  {
    var d := db.deliveries[id];
    Claim(id, d.eventId, d.targetId, token, d.attempts, db.targets[d.targetId].consecutiveFailures)
  }

  function ScanClaims(db: Db, rows: seq<nat>, token: nat): (claims: seq<Claim>)
    requires forall id :: id in rows ==> Joined(db, id)
    ensures |claims| == |rows|
    ensures forall i :: 0 <= i < |rows| ==> claims[i] == ClaimOf(db, rows[i], token)
  {
    if rows == [] then [] else ScanClaims(db, rows[..|rows| - 1], token) + [ClaimOf(db, rows[|rows| - 1], token)]
  }

  /** What the claim returns: the leased rows joined with their targets, by id. */
  function ClaimsOf(db: Db, ids: seq<nat>, token: nat): seq<Claim>
    requires forall id :: id in ids ==> Joined(db, id)
  {
    ScanClaims(db, ById(ids), token)
  }

  lemma CandidatesAreClaimable(db: Db, now: int, limit: nat, locked: set<nat>)
    ensures forall id :: id in Candidates(db, now, limit, locked) ==>
      id in db.deliveries && id !in locked && Claimable(db, id, now)
  {
    LimitIsComplete(DueRows(db, now, locked), limit);
  }

  lemma ClaimedRowsAreJoined(db: Db, ids: seq<nat>, now: int, lease: int, token: nat)
    requires forall id :: id in ids ==> Joined(db, id)
    ensures forall id :: id in ids ==> Joined(AfterClaim(db, ids, now, lease, token), id)
  {
  }

  // ----- Settle -----

  /** The compare-and-swap: the row still carries the claim's lease. */
  predicate Holds(db: Db, c: Claim) {
    c.id in db.deliveries
    && db.deliveries[c.id].leaseToken == Some(c.token)
    && db.deliveries[c.id].status == Delivering
  }

  function UpdateTarget(targets: map<nat, Target>, id: nat, failures: int, openUntil: Option<int>,
      now: int): map<nat, Target>
  {
    if id in targets
    then targets[id := targets[id].(consecutiveFailures := failures, circuitOpenUntil := openUntil, updatedAt := now)]
    else targets
  }

  function FailuresOf(targets: map<nat, Target>, id: nat): int {
    if id in targets then targets[id].consecutiveFailures else 0
  }

  function AfterDelivered(db: Db, c: Claim, now: int, status: int): Result<Db, Error> {
    if !Holds(db, c) then Err(LeaseLost)
    else
      Ok(db.(deliveries := db.deliveries[c.id := db.deliveries[c.id].(
               status := Delivered, deliveredAt := Some(now), lastHttpStatus := Some(status), lastErrorCode := None,
               leaseToken := None, leaseExpiresAt := None, updatedAt := now)],
             targets := UpdateTarget(db.targets, c.targetId, 0, None, now)))
  }

  function AfterFailed(db: Db, c: Claim, now: int, next: int, status: Option<int>, code: string,
                       dead: bool, openUntil: Option<int>): Result<Db, Error>
  {
    if !Holds(db, c) then Err(LeaseLost)
    else
      Ok(db.(deliveries := db.deliveries[c.id := db.deliveries[c.id].(
               status := if dead then DeadLetter else Retry, nextAttemptAt := next,
               lastHttpStatus := status, lastErrorCode := Some(code),
               leaseToken := None, leaseExpiresAt := None, updatedAt := now)],
             targets := UpdateTarget(db.targets, c.targetId, FailuresOf(db.targets, c.targetId) + 1, openUntil, now),
             deadLetters := if dead && c.id !in db.deadLetters
                            then db.deadLetters[c.id := DeadLetterRow(code, None)] else db.deadLetters))
  }

  function AfterReplay(db: Db, id: nat, now: int): Result<Db, Error> {
    if id !in db.deliveries || db.deliveries[id].status != DeadLetter then Err(NotFound)
    else
      Ok(db.(deliveries := db.deliveries[id := db.deliveries[id].(
               status := Pending, attempts := 0, nextAttemptAt := now,
               lastErrorCode := None, lastHttpStatus := None, updatedAt := now)],
             deadLetters := if id in db.deadLetters
                            then db.deadLetters[id := db.deadLetters[id].(replayedAt := Some(now))]
                            else db.deadLetters))
  }

  // ----- Retention -----

  predicate Terminal(d: Delivery) { d.status == Delivered || d.status == DeadLetter }

  predicate Purgeable(db: Db, id: nat, cutoff: int) {
    id in db.deliveries && Terminal(db.deliveries[id]) && db.deliveries[id].updatedAt < cutoff
  }

  predicate Orphan(deliveries: map<nat, Delivery>, eventId: nat) {
    forall d :: d in deliveries ==> deliveries[d].eventId != eventId
  }

  function KeptDeadLetters(db: Db, cutoff: int): map<nat, DeadLetterRow> {
    map d | d in db.deadLetters && !Purgeable(db, d, cutoff) :: db.deadLetters[d]
  }

  function KeptDeliveries(db: Db, cutoff: int): map<nat, Delivery> {
    map d | d in db.deliveries && !Purgeable(db, d, cutoff) :: db.deliveries[d]
  }

  function KeptEvents(events: map<nat, Event>, deliveries: map<nat, Delivery>, cutoff: int): map<nat, Event> {
    map e | e in events && !(events[e].occurredAt < cutoff && Orphan(deliveries, e)) :: events[e]
  }

  /** Dead letters, then their deliveries, then the events nobody refers to. */
  function AfterRetention(db: Db, current: int, deliveryDays: int, eventDays: int): Db {
    var kept := KeptDeliveries(db, current - deliveryDays * DAY);
    db.(deadLetters := KeptDeadLetters(db, current - deliveryDays * DAY),
        deliveries := kept,
        events := KeptEvents(db.events, kept, current - eventDays * DAY))
  }

  // ----- The store -----

  lemma PurgedRemoved(db: Db, purged: set<nat>, cutoff: int)
    requires purged == set d | d in db.deliveries && Purgeable(db, d, cutoff)
    ensures db.deadLetters - purged == KeptDeadLetters(db, cutoff)
    ensures db.deliveries - purged == KeptDeliveries(db, cutoff)
  {
  }

  lemma OrphansRemoved(events: map<nat, Event>, deliveries: map<nat, Delivery>, orphans: set<nat>, cutoff: int)
    requires orphans == set e | e in events && events[e].occurredAt < cutoff && Orphan(deliveries, e)
    ensures events - orphans == KeptEvents(events, deliveries, cutoff)
  {
  }

  class DeliveryStore {
    var db: Db

    constructor (db: Db)
      ensures this.db == db
    {
      this.db := db;
    }

    /** `token` is the fresh lease token and `locked` the rows that other
        transactions hold, which the query skips. */
    method Claim(now: int, lease: int, limit: int, token: nat, locked: set<nat>) returns (r: Result<seq<Claim>, Error>)
      modifies this
      ensures limit <= 0 ==> r == Err(InvalidArgument) && db == old(db)
      ensures limit > 0 ==>
        var ids := Candidates(old(db), now, limit, locked);
        && db == AfterClaim(old(db), ids, now, lease, token)
        && (forall id :: id in ids ==> Joined(db, id))
        && r == Ok(ClaimsOf(db, ids, token))
    {
      if limit <= 0 {
        return Err(InvalidArgument);
      }
      var candidates := Candidates(db, now, limit, locked);
      CandidatesAreClaimable(db, now, limit, locked);
      db := db.(deliveries := map id | id in db.deliveries ::
        if id in candidates then Leased(db.deliveries[id], now, lease, token) else db.deliveries[id]);
      ClaimedRowsAreJoined(old(db), candidates, now, lease, token);
      var claimed := Scan(ById(candidates), token);
      return Ok(claimed);
    }

    method Scan(rows: seq<nat>, token: nat) returns (claimed: seq<Claim>)
      requires forall id :: id in rows ==> Joined(db, id)
      ensures claimed == ScanClaims(db, rows, token)
    {
      claimed := [];
      for i := 0 to |rows|
        invariant claimed == ScanClaims(db, rows[..i], token)
      {
        assert rows[..i + 1][..i] == rows[..i];
        claimed := claimed + [ClaimOf(db, rows[i], token)];
      }
      assert rows[..|rows|] == rows;
    }

    method MarkDelivered(c: Claim, now: int, status: int) returns (r: Result<(), Error>)
      modifies this
      ensures match AfterDelivered(old(db), c, now, status)
        case Ok(next) => r == Ok(()) && db == next
        case Err(e) => r == Err(e) && db == old(db)
    {
      if !Holds(db, c) {
        return Err(LeaseLost);
      }
      db := db.(deliveries := db.deliveries[c.id := db.deliveries[c.id].(
        status := Delivered, deliveredAt := Some(now), lastHttpStatus := Some(status), lastErrorCode := None,
        leaseToken := None, leaseExpiresAt := None, updatedAt := now)]);
      db := db.(targets := UpdateTarget(db.targets, c.targetId, 0, None, now));
      return Ok(());
    }

    method MarkFailed(c: Claim, now: int, next: int, status: Option<int>, code: string, dead: bool,
        openUntil: Option<int>)
      returns (r: Result<(), Error>)
      modifies this
      ensures match AfterFailed(old(db), c, now, next, status, code, dead, openUntil)
        case Ok(after) => r == Ok(()) && db == after
        case Err(e) => r == Err(e) && db == old(db)
    {
      var state := Retry;
      if dead {
        state := DeadLetter;
      }
      if !Holds(db, c) {
        return Err(LeaseLost);
      }
      db := db.(deliveries := db.deliveries[c.id := db.deliveries[c.id].(
        status := state, nextAttemptAt := next, lastHttpStatus := status, lastErrorCode := Some(code),
        leaseToken := None, leaseExpiresAt := None, updatedAt := now)]);
      db := db.(targets :=
        UpdateTarget(db.targets, c.targetId, FailuresOf(db.targets, c.targetId) + 1, openUntil, now));
      if dead {
        if c.id !in db.deadLetters {
          db := db.(deadLetters := db.deadLetters[c.id := DeadLetterRow(code, None)]);
        }
      }
      return Ok(());
    }

    method Replay(id: nat, now: int) returns (r: Result<(), Error>)
      modifies this
      ensures match AfterReplay(old(db), id, now)
        case Ok(next) => r == Ok(()) && db == next
        case Err(e) => r == Err(e) && db == old(db)
    {
      if id !in db.deliveries || db.deliveries[id].status != DeadLetter {
        return Err(NotFound);
      }
      db := db.(deliveries := db.deliveries[id := db.deliveries[id].(
        status := Pending, attempts := 0, nextAttemptAt := now,
        lastErrorCode := None, lastHttpStatus := None, updatedAt := now)]);
      if id in db.deadLetters {
        db := db.(deadLetters := db.deadLetters[id := db.deadLetters[id].(replayedAt := Some(now))]);
      }
      return Ok(());
    }

    /** The three deletes in order; each checks the foreign keys that would block
        it, and the order means that none ever does. */
    method RunRetentionOnce(current: int, deliveryDays: int, eventDays: int) returns (r: Result<(), Error>)
      modifies this
      ensures r == Ok(())
      ensures db == AfterRetention(old(db), current, deliveryDays, eventDays)
    {
      var deliveryCutoff, eventCutoff := current - deliveryDays * DAY, current - eventDays * DAY;
      hide KeptDeadLetters;
      hide KeptDeliveries;
      hide KeptEvents;
      var purged := set d | d in db.deliveries && Purgeable(db, d, deliveryCutoff);
      PurgedRemoved(db, purged, deliveryCutoff);
      db := db.(deadLetters := db.deadLetters - purged);
      if db.deadLetters.Keys * purged != {} {
        return Err(ForeignKeyViolation);
      }
      db := db.(deliveries := db.deliveries - purged);
      var orphans := set e | e in db.events && db.events[e].occurredAt < eventCutoff && Orphan(db.deliveries, e);
      if exists d :: d in db.deliveries && db.deliveries[d].eventId in orphans {
        return Err(ForeignKeyViolation);
      }
      OrphansRemoved(db.events, db.deliveries, orphans, eventCutoff);
      db := db.(events := db.events - orphans);
      return Ok(());
    }
  }

  // ----- The worker -----

  /** How sending one claimed delivery ends. */
  datatype Attempt =
    | UrlDecryptFailed
    | SecretDecryptFailed
    | EndpointRejected
    | RenderFailed
    | RequestFailed
    | NetworkError
    | Responded(status: int)

  /** One attempt, the clock when it is settled and the jitter drawn for it. */
  datatype Work = Work(attempt: Attempt, now: int, jitter: real)

  predicate Success(a: Attempt) { a.Responded? && 200 <= a.status < 300 }

  predicate Permanent(a: Attempt) {
    match a
    case EndpointRejected => true
    case RenderFailed => true
    case Responded(status) => 400 <= status < 500 && status != 408 && status != 429
    case _ => false
  }

  function FailureCode(a: Attempt): string {
    match a
    case UrlDecryptFailed => "decrypt_failed"
    case SecretDecryptFailed => "decrypt_failed"
    case EndpointRejected => "endpoint_rejected"
    case RenderFailed => "render_failed"
    case RequestFailed => "request_failed"
    case NetworkError => "network_error"
    case Responded(status) => "http_" + Text.Itoa(status)
  }

  function HttpStatus(a: Attempt): Option<int> {
    if a.Responded? then Some(a.status) else None
  }

  function Pow2(n: nat): nat { if n == 0 then 1 else 2 * Pow2(n - 1) }

  /** The undisturbed wait after the n-th attempt: 2^min(n-1, 9) seconds. Before
      the first, the power is a fraction that truncates to zero. */
  function BaseDelay(attempts: int): int {
    if attempts < 1 then 0 else Pow2(if attempts - 1 <= 9 then attempts - 1 else 9) * SECOND
  }

  /** The wait with jitter drawn from [0, 1), truncated to a whole nanosecond. */
  function Delay(attempts: int, jitter: real): int {
    Jittered(BaseDelay(attempts), jitter)
  }

  function Jittered(delay: int, jitter: real): int {
    (delay as real * (0.8 + 0.4 * jitter)).Floor
  }

  predicate IsDead(c: Claim, a: Attempt) { Permanent(a) || c.attempts >= MAX_ATTEMPTS }

  predicate OpensCircuit(c: Claim, a: Attempt) {
    c.failures + 1 >= CIRCUIT_FAILURES && !IsDead(c, a)
  }

  function OpenUntil(c: Claim, w: Work): Option<int> {
    if OpensCircuit(c, w.attempt) then Some(w.now + MINUTE) else None
  }

  function NextAttempt(c: Claim, w: Work): int {
    var next := w.now + Delay(c.attempts, w.jitter);
    if OpensCircuit(c, w.attempt) && next < w.now + MINUTE then w.now + MINUTE else next
  }

  /** What settling a claim with the result of its attempt does. */
  function AfterWork(db: Db, c: Claim, w: Work): Result<Db, Error> {
    if Success(w.attempt) then AfterDelivered(db, c, w.now, w.attempt.status)
    else AfterFailed(db, c, w.now, NextAttempt(c, w), HttpStatus(w.attempt), FailureCode(w.attempt),
                     IsDead(c, w.attempt), OpenUntil(c, w))
  }

  /** Settling claims one after another; a lost lease is skipped over. Fewer works
      than claims means the worker stopped part of the way. */
  function AfterAllWork(db: Db, claims: seq<Claim>, work: seq<Work>): Db
    decreases |claims|
  {
    if claims == [] || work == [] then db
    else
      var next := match AfterWork(db, claims[0], work[0]) case Ok(d) => d case Err(_) => db;
      AfterAllWork(next, claims[1..], work[1..])
  }

  class Worker {
    const store: DeliveryStore

    constructor (store: DeliveryStore)
      ensures this.store == store
    {
      this.store := store;
    }

    method Fail(c: Claim, a: Attempt, permanent: bool, now: int, jitter: real) returns (r: Result<(), Error>)
      requires permanent == Permanent(a) && !Success(a)
      modifies store
      ensures match AfterWork(old(store.db), c, Work(a, now, jitter))
        case Ok(next) => r == Ok(()) && store.db == next
        case Err(e) => r == Err(e) && store.db == old(store.db)
    {
      var dead := permanent || c.attempts >= MAX_ATTEMPTS;
      var delay := BaseDelay(c.attempts);
      delay := Jittered(delay, jitter);
      var next := now + delay;
      var openUntil: Option<int> := None;
      if c.failures + 1 >= CIRCUIT_FAILURES && !dead {
        var value := now + MINUTE;
        openUntil := Some(value);
        if next < value {
          next := value;
        }
      }
      r := store.MarkFailed(c, now, next, HttpStatus(a), FailureCode(a), dead, openUntil);
    }

    /** Sends one claimed delivery, whose attempt ends as `w` says, and settles it. */
    method Deliver(c: Claim, w: Work) returns (r: Result<(), Error>)
      modifies store
      ensures match AfterWork(old(store.db), c, w)
        case Ok(next) => r == Ok(()) && store.db == next
        case Err(e) => r == Err(e) && store.db == old(store.db)
    {
      if w.attempt.UrlDecryptFailed? || w.attempt.SecretDecryptFailed? {
        r := Fail(c, w.attempt, false, w.now, w.jitter);
        return;
      }
      if w.attempt.EndpointRejected? || w.attempt.RenderFailed? {
        r := Fail(c, w.attempt, true, w.now, w.jitter);
        return;
      }
      if w.attempt.RequestFailed? || w.attempt.NetworkError? {
        r := Fail(c, w.attempt, false, w.now, w.jitter);
        return;
      }
      var status := w.attempt.status;
      if status >= 200 && status < 300 {
        r := store.MarkDelivered(c, w.now, status);
        return;
      }
      var permanent := status >= 400 && status < 500 && status != 408 && status != 429;
      r := Fail(c, w.attempt, permanent, w.now, w.jitter);
    }

    /** Sends and settles a batch of claims in turn; errors do not stop it. */
    method Process(claims: seq<Claim>, work: seq<Work>)
      modifies store
      ensures store.db == AfterAllWork(old(store.db), claims, work)
    {
      var i := 0;
      while i < |claims| && i < |work|
        invariant 0 <= i <= |claims| && i <= |work|
        invariant AfterAllWork(old(store.db), claims, work) == AfterAllWork(store.db, claims[i..], work[i..])
      {
        var outcome := Deliver(claims[i], work[i]);
        assert claims[i..][1..] == claims[i + 1..];
        assert work[i..][1..] == work[i + 1..];
        i := i + 1;
      }
    }

    /** One cycle: claim a batch, then process it. */
    method Run(now: int, token: nat, locked: set<nat>, work: seq<Work>) returns (claims: seq<Claim>)
      modifies store
      ensures
        var ids := Candidates(old(store.db), now, 20, locked);
        var leased := AfterClaim(old(store.db), ids, now, 30_000_000_000, token);
        && (forall id :: id in ids ==> Joined(leased, id))
        && claims == ClaimsOf(leased, ids, token)
        && store.db == AfterAllWork(leased, claims, work)
    {
      ghost var ids := Candidates(store.db, now, WORKER_BATCH, locked);
      CandidatesAreClaimable(store.db, now, WORKER_BATCH, locked);
      ClaimedRowsAreJoined(store.db, ids, now, WORKER_LEASE, token);
      var claimed := store.Claim(now, WORKER_LEASE, WORKER_BATCH, token, locked);
      claims := claimed.value;
      Process(claims, work);
    }
  }

  // ----- Backoff and circuits -----

  lemma {:induction false} Pow2Grows(m: nat, n: nat)
    requires m <= n
    ensures 1 <= Pow2(m) <= Pow2(n)
  {
    if m < n {
      Pow2Grows(m, n - 1);
    } else if n > 0 {
      Pow2Grows(n - 1, n - 1);
    }
  }

  /** Every wait lies within a fifth of 2^min(n-1, 9) seconds, below 1.2 times it. */
  lemma DelayBounds(attempts: int, jitter: real)
    requires attempts >= 1 && 0.0 <= jitter < 1.0
    ensures 8 * BaseDelay(attempts) <= 10 * Delay(attempts, jitter) < 12 * BaseDelay(attempts)
    ensures 1_000_000_000 <= BaseDelay(attempts) <= 512_000_000_000
  {
    var n := if attempts - 1 <= 9 then attempts - 1 else 9;
    Pow2Grows(0, n);
    Pow2Grows(n, 9);
    JitterBounds(Pow2(n), jitter);
  }

  lemma JitterBounds(seconds: int, jitter: real)
    requires seconds >= 1 && 0.0 <= jitter < 1.0
    ensures 8 * (seconds * SECOND) <= 10 * Jittered(seconds * SECOND, jitter) < 12 * (seconds * SECOND)
  {
    var delay, factor := seconds * SECOND, 0.8 + 0.4 * jitter;
    var low, high := seconds * 800_000_000, seconds * 1_200_000_000;
    ScaledBetween(delay as real, 0.8, factor, 1.2);
    assert delay as real * 0.8 == low as real;
    assert delay as real * 1.2 == high as real;
    FloorBetween(delay as real * factor, low, high);
    assert Jittered(delay, jitter) == (delay as real * factor).Floor;
  }

  lemma ScaledBetween(base: real, low: real, factor: real, high: real)
    requires base > 0.0 && low <= factor < high
    ensures base * low <= base * factor < base * high
  {
    assert base * (factor - low) >= 0.0;
    assert base * (high - factor) > 0.0;
  }

  lemma FloorBetween(x: real, low: int, high: int)
    requires low as real <= x < high as real
    ensures low <= x.Floor < high
  {
  }

  /** The first nine waits double; later ones stay at 512 seconds. */
  lemma BackoffDoubles(attempts: int)
    requires attempts >= 1
    ensures BaseDelay(attempts + 1) == if attempts <= 9 then 2 * BaseDelay(attempts) else BaseDelay(attempts)
  {
  }

  /** A settled failure opens its target's circuit exactly when the claim saw four
      or more failures and the delivery is not dead-lettered; it then schedules the
      next attempt no earlier than the circuit reopens. */
  lemma FailureOpensCircuitIff(db: Db, c: Claim, w: Work)
    requires Holds(db, c) && c.targetId in db.targets && !Success(w.attempt)
    ensures
      var after := AfterWork(db, c, w).value;
      var t, d := after.targets[c.targetId], after.deliveries[c.id];
      && (!CircuitClosed(t, w.now) <==> c.failures >= 4 && !Permanent(w.attempt) && c.attempts < 8)
      && (t.circuitOpenUntil.Some? ==> t.circuitOpenUntil.value == w.now + 60_000_000_000 <= d.nextAttemptAt)
  {
  }

  /** A circuit need not stay open: a dead-lettering failure claimed before it
      opened closes it again while the failure counter keeps growing. */
  lemma OpenCircuitMayClose()
    ensures exists db: Db, a: Claim, b: Claim, w: Work, v: Work ::
      && AfterWork(db, a, w).Ok? && AfterWork(AfterWork(db, a, w).value, b, v).Ok?
      && !Success(w.attempt) && !Success(v.attempt) && a.targetId == b.targetId && w.now == v.now
      && a.targetId in db.targets
      && var one, two := AfterWork(db, a, w).value, AfterWork(AfterWork(db, a, w).value, b, v).value;
      && a.targetId in one.targets && a.targetId in two.targets
      && !CircuitClosed(one.targets[a.targetId], w.now)
      && CircuitClosed(two.targets[a.targetId], w.now)
      && two.targets[a.targetId].consecutiveFailures > one.targets[a.targetId].consecutiveFailures >= CIRCUIT_FAILURES
  {
    var row := NewDelivery(1, 1, 0);
    var db := Db(map[1 := Target(true, 4, None, 0)],
                 map[1 := Leased(row, 0, MINUTE, 7), 2 := Leased(row, 0, MINUTE, 7)], map[], map[1 := Event(0)]);
    var a, b := Claim(1, 1, 1, 7, 1, 4), Claim(2, 1, 1, 7, 1, 4);
    var w, v := Work(NetworkError, 5, 0.0), Work(Responded(400), 5, 0.0);
    var one := AfterWork(db, a, w).value;
    assert Holds(one, b);
    assert AfterWork(one, b, v).Ok?;
  }

  // ----- Claims and retention -----

  /** A lease that has not expired is never taken over. */
  lemma LiveLeaseIsNotClaimed(db: Db, now: int, limit: nat, locked: set<nat>, id: nat)
    requires id in db.deliveries && db.deliveries[id].status == Delivering
    requires db.deliveries[id].leaseExpiresAt.Some? && now < db.deliveries[id].leaseExpiresAt.value
    ensures id !in Candidates(db, now, limit, locked)
  {
    CandidatesAreClaimable(db, now, limit, locked);
  }

  /** A claim takes due work in order: whatever it leaves behind although free and
      due comes after everything it took, and it leaves something only at the limit. */
  lemma ClaimTakesTheEarliest(db: Db, now: int, limit: nat, locked: set<nat>, id: nat)
    requires id in db.deliveries && id !in locked && Claimable(db, id, now)
    requires id !in Candidates(db, now, limit, locked)
    ensures |Candidates(db, now, limit, locked)| == limit
    ensures forall c :: c in Candidates(db, now, limit, locked) ==>
      && c in db.deliveries
      && db.deliveries[c].nextAttemptAt <= db.deliveries[id].nextAttemptAt
  {
    var due := DueRows(db, now, locked);
    LimitIsComplete(due, limit);
    forall c | c in Candidates(db, now, limit, locked)
      ensures c in db.deliveries && db.deliveries[c].nextAttemptAt <= db.deliveries[id].nextAttemptAt
    {
      LimitKeepsTheFirst(due, limit, c, id);
    }
  }

  /** Retention never removes unfinished work, its event, or a dead letter whose
      delivery stays. */
  lemma RetentionSparesLiveWork(db: Db, current: int, deliveryDays: int, eventDays: int, d: nat)
    requires d in db.deliveries && db.deliveries[d].eventId in db.events
    requires !(db.deliveries[d].status in {Delivered, DeadLetter})
             || db.deliveries[d].updatedAt >= current - deliveryDays * 86_400_000_000_000
    ensures
      var after := AfterRetention(db, current, deliveryDays, eventDays);
      && d in after.deliveries && after.deliveries[d] == db.deliveries[d]
      && db.deliveries[d].eventId in after.events
      && (d in db.deadLetters ==> d in after.deadLetters && after.deadLetters[d] == db.deadLetters[d])
  {
    var kept := KeptDeliveries(db, current - deliveryDays * DAY);
    assert kept[d] == db.deliveries[d];
    assert !Orphan(kept, db.deliveries[d].eventId);
  }
}
