/** When deliveries are attempted, in every run: leases last, waits and open circuits are
    respected, due work is taken in order, and finished work is kept for its days. All
    of it in terms of the steps' own times. */
module WebhookTiming {
  import opened Wrappers
  import Text
  import opened Sql
  import opened Webhook
  import opened WebhookRuns

  // ----- What a step does to one delivery -----

  /** The batch returns a claim of the delivery. */
  ghost predicate ClaimsIt(s: System, step: Step, d: nat) {
    step.ClaimBatch?
    && exists i :: |s.claims| <= i < |Next(s, step).claims| && Next(s, step).claims[i].id == d
  }

  /** A settlement of the delivery that takes effect. */
  predicate Settles(s: System, step: Step, d: nat) {
    step.Settle? && step.claim < |s.claims| && s.claims[step.claim].id == d && Next(s, step) != s
  }

  /** A replay of the delivery that takes effect. */
  predicate Replays(s: System, step: Step, d: nat) {
    step.ReplayDelivery? && step.delivery == d && Next(s, step) != s
  }

  lemma CandidatesAreJoined(s: System, now: int, lease: int, limit: nat, token: nat, locked: set<nat>)
    ensures var ids := Candidates(s.db, now, limit, locked);
      forall id :: id in ids ==>
        && id in s.db.deliveries && id !in locked && Claimable(s.db, id, now)
        && Joined(AfterClaim(s.db, ids, now, lease, token), id)
  {
    CandidatesAreClaimable(s.db, now, limit, locked);
    ClaimedRowsAreJoined(s.db, Candidates(s.db, now, limit, locked), now, lease, token);
    hide Candidates;
    hide AfterClaim;
  }

  lemma BatchAdds(s: System, step: Step, ids: seq<nat>)
    requires step.ClaimBatch? && ids == Candidates(s.db, step.now, step.limit, step.locked)
    requires forall id :: id in ids ==>
      id in s.db.deliveries && Joined(AfterClaim(s.db, ids, step.now, step.lease, step.token), id)
    ensures Next(s, step) == WithClaims(s, AfterClaim(s.db, ids, step.now, step.lease, step.token), ids, step.token)
  {
    hide Candidates;
    hide AfterClaim;
    hide WithClaims;
    hide Joined;
  }

  lemma ClaimsAddedAre(s: System, db: Db, ids: seq<nat>, token: nat)
    requires forall id :: id in ids ==> id in s.db.deliveries && Joined(db, id)
    ensures var n := WithClaims(s, db, ids, token);
      && n.db == db && |n.claims| == |s.claims| + |ById(ids)|
      && forall i :: 0 <= i < |ById(ids)| ==> n.claims[|s.claims| + i].id == ById(ids)[i]
  {
    hide Joined;
    hide TakenOver;
    hide ById;
    hide ClaimOf;
    var added := ClaimsOf(db, ids, token);
    ScannedIds(db, ById(ids), token);
    hide ClaimsOf;
    hide ScanClaims;
    assert WithClaims(s, db, ids, token).claims == s.claims + added;
  }

  lemma ScannedIds(db: Db, rows: seq<nat>, token: nat)
    requires forall id :: id in rows ==> Joined(db, id)
    ensures forall i :: 0 <= i < |rows| ==> ScanClaims(db, rows, token)[i].id == rows[i]
  {
    hide ScanClaims;
    forall i | 0 <= i < |rows| ensures ScanClaims(db, rows, token)[i].id == rows[i] {
      assert rows[i] in rows;
    }
  }

  lemma BatchIs(s: System, step: Step)
    requires step.ClaimBatch?
    ensures var ids := Candidates(s.db, step.now, step.limit, step.locked);
      && (forall id :: id in ids ==> id in s.db.deliveries && id !in step.locked && Claimable(s.db, id, step.now))
      && Next(s, step).db == AfterClaim(s.db, ids, step.now, step.lease, step.token)
      && |Next(s, step).claims| == |s.claims| + |ById(ids)|
      && forall i :: 0 <= i < |ById(ids)| ==> Next(s, step).claims[|s.claims| + i].id == ById(ids)[i]
  {
    hide *;
    var ids := Candidates(s.db, step.now, step.limit, step.locked);
    CandidatesAreJoined(s, step.now, step.lease, step.limit, step.token, step.locked);
    BatchAdds(s, step, ids);
    ClaimsAddedAre(s, AfterClaim(s.db, ids, step.now, step.lease, step.token), ids, step.token);
  }

  lemma ClaimsItIff(s: System, step: Step, d: nat)
    requires step.ClaimBatch?
    ensures ClaimsIt(s, step, d) <==> d in Candidates(s.db, step.now, step.limit, step.locked)
  {
    BatchIs(s, step);
    var ids := Candidates(s.db, step.now, step.limit, step.locked);
    var n := Next(s, step);
    hide Next;
    hide Candidates;
    hide AfterClaim;
    hide Claimable;
    hide ById;
    if ClaimsIt(s, step, d) {
      var i :| |s.claims| <= i < |n.claims| && n.claims[i].id == d;
      assert n.claims[|s.claims| + (i - |s.claims|)].id == ById(ids)[i - |s.claims|];
    }
    if d in ids {
      var k :| 0 <= k < |ById(ids)| && ById(ids)[k] == d;
      assert n.claims[|s.claims| + k].id == d;
    }
  }

  /** What may become of a delivery's row. */
  ghost predicate RowMoves(s: System, step: Step, d: nat, before: Delivery, n: System) {
    || (d in n.db.deliveries && n.db.deliveries[d] == before)
    || (ClaimsIt(s, step, d) && d in n.db.deliveries
        && n.db.deliveries[d] == Leased(before, step.now, step.lease, step.token))
    || Settles(s, step, d) || Replays(s, step, d)
    || (step.Retain? && d !in n.db.deliveries && Terminal(before)
        && before.updatedAt < step.now - step.deliveryDays * 86_400_000_000_000)
  }

  lemma ClaimMoves(s: System, step: Step, d: nat)
    requires d in s.db.deliveries && step.ClaimBatch?
    ensures RowMoves(s, step, d, s.db.deliveries[d], Next(s, step))
  {
    BatchIs(s, step);
    ClaimsItIff(s, step, d);
    hide Next;
    hide ClaimsIt;
    hide Candidates;
    hide Claimable;
  }

  lemma StepMoves(s: System, step: Step, d: nat)
    requires Enabled(s, step) && d in s.db.deliveries && d in s.usedIds
    ensures RowMoves(s, step, d, s.db.deliveries[d], Next(s, step))
  {
    if step.ClaimBatch? {
      ClaimMoves(s, step, d);
    }
    hide ClaimsIt;
    hide AfterClaim;
    hide Candidates;
    hide NextAttempt;
    hide OpenUntil;
    hide IsDead;
  }

  // ----- Leases -----

  ghost predicate LeasedUntil(s: System, d: nat, bound: int) {
    d in s.db.deliveries && s.db.deliveries[d].status == Delivering
    && s.db.deliveries[d].leaseExpiresAt.Some? && s.db.deliveries[d].leaseExpiresAt.value >= bound
  }

  /** A batch that takes a leased delivery comes after the lease. */
  lemma TakesAfterLease(s: System, step: Step, d: nat, bound: int)
    requires LeasedUntil(s, d, bound) && step.ClaimBatch? && ClaimsIt(s, step, d)
    ensures step.now >= bound
  {
    ClaimsItIff(s, step, d);
    BatchIs(s, step);
    hide ClaimsIt;
    hide Next;
    hide Candidates;
  }

  lemma LeaseStays(s: System, step: Step, d: nat, bound: int)
    requires Inv(s) && Enabled(s, step) && LeasedUntil(s, d, bound)
    requires !Settles(s, step, d) && !Replays(s, step, d)
    requires ClaimsIt(s, step, d) ==> step.ClaimBatch? && step.lease >= 0
    ensures LeasedUntil(Next(s, step), d, bound)
  {
    StepMoves(s, step, d);
    if ClaimsIt(s, step, d) {
      TakesAfterLease(s, step, d, bound);
    }
    hide Next;
    hide Inv;
    hide ClaimsIt;
    hide Settles;
    hide Replays;
  }

  lemma LeaseStarts(s: System, step: Step, d: nat)
    requires step.ClaimBatch? && ClaimsIt(s, step, d)
    ensures LeasedUntil(Next(s, step), d, step.now + step.lease)
  {
    ClaimsItIff(s, step, d);
    BatchIs(s, step);
    hide ClaimsIt;
    hide Next;
    hide Candidates;
    hide Claimable;
  }

  lemma RunStep(states: seq<System>, steps: seq<Step>, k: nat)
    requires Execution(states, steps) && k < |steps|
    ensures Inv(states[k]) && Enabled(states[k], steps[k]) && states[k + 1] == Next(states[k], steps[k])
  {
    EveryRunKeepsInv(states, steps, k);
    hide Inv;
    hide Enabled;
    hide Next;
  }

  /** Nobody settles or replays the delivery from step i up to step j. */
  ghost predicate LeftAlone(states: seq<System>, steps: seq<Step>, i: nat, j: nat, d: nat)
    requires |steps| < |states|
  {
    forall q :: i <= q < j && q < |steps| ==> !Settles(states[q], steps[q], d) && !Replays(states[q], steps[q], d)
  }

  ghost predicate LeasesNotNegative(states: seq<System>, steps: seq<Step>, i: nat, j: nat, d: nat)
    requires |steps| < |states|
  {
    forall q :: i <= q < j && q < |steps| && steps[q].ClaimBatch? && ClaimsIt(states[q], steps[q], d) ==>
      steps[q].lease >= 0
  }

  lemma AloneBefore(states: seq<System>, steps: seq<Step>, i: nat, j: nat, d: nat)
    requires j < |steps| < |states| && i <= j && LeftAlone(states, steps, i, j + 1, d)
    ensures LeftAlone(states, steps, i, j, d)
    ensures !Settles(states[j], steps[j], d) && !Replays(states[j], steps[j], d)
  {
    hide Settles;
    hide Replays;
  }

  lemma LeasesBefore(states: seq<System>, steps: seq<Step>, i: nat, j: nat, d: nat)
    requires j < |steps| < |states| && i <= j && LeasesNotNegative(states, steps, i, j + 1, d)
    ensures LeasesNotNegative(states, steps, i, j, d)
    ensures ClaimsIt(states[j], steps[j], d) ==> steps[j].ClaimBatch? && steps[j].lease >= 0
  {
    assert ClaimsIt(states[j], steps[j], d) ==> steps[j].ClaimBatch?;
    hide ClaimsIt;
  }

  lemma {:induction false} LeasedBetween(states: seq<System>, steps: seq<Step>, k: nat, m: nat, d: nat)
    requires Execution(states, steps) && k < m <= |steps| && |states| == |steps| + 1
    requires steps[k].ClaimBatch? && ClaimsIt(states[k], steps[k], d)
    requires LeftAlone(states, steps, k + 1, m, d) && LeasesNotNegative(states, steps, k + 1, m, d)
    ensures LeasedUntil(states[m], d, steps[k].now + steps[k].lease)
    decreases m
  {
    hide *;
    RunStep(states, steps, m - 1);
    if m == k + 1 {
      LeaseStarts(states[k], steps[k], d);
    } else {
      AloneBefore(states, steps, k + 1, m - 1, d);
      LeasesBefore(states, steps, k + 1, m - 1, d);
      LeasedBetween(states, steps, k, m - 1, d);
      LeaseStays(states[m - 1], steps[m - 1], d, steps[k].now + steps[k].lease);
    }
  }

  /** A claim keeps its delivery for the whole lease: until it is settled, no batch takes
      the delivery again before `now + lease`. Batches in between, if any, hold leases
      that are not negative. */
  lemma LeaseLasts(states: seq<System>, steps: seq<Step>, k: nat, m: nat, d: nat)
    requires Execution(states, steps) && k < m < |steps| && steps[k].ClaimBatch? && steps[m].ClaimBatch?
    requires ClaimsIt(states[k], steps[k], d) && ClaimsIt(states[m], steps[m], d)
    requires LeftAlone(states, steps, k + 1, m, d) && LeasesNotNegative(states, steps, k + 1, m, d)
    ensures steps[m].now >= steps[k].now + steps[k].lease
  {
    assert |states| == |steps| + 1;
    hide *;
    LeasedBetween(states, steps, k, m, d);
    TakesAfterLease(states[m], steps[m], d, steps[k].now + steps[k].lease);
  }

  // ----- What a batch takes -----

  /** Free, due work of an active target whose circuit is closed: waiting and its time
      has come, or leased and the lease is over. */
  predicate MayBeTaken(db: Db, d: nat, now: int, locked: set<nat>) {
    && d in db.deliveries && d !in locked
    && db.deliveries[d].targetId in db.targets
    && var row, target := db.deliveries[d], db.targets[db.deliveries[d].targetId];
    && target.active
    && !(target.circuitOpenUntil.Some? && now < target.circuitOpenUntil.value)
    && match row.status
       case Pending => row.nextAttemptAt <= now
       case Retry => row.nextAttemptAt <= now
       case Delivering => row.leaseExpiresAt.Some? && row.leaseExpiresAt.value <= now
       case _ => false
  }

  /** A batch takes only work that may be taken; whatever of it is left comes, by next
      attempt and id, after all that was taken, and then the batch is full. */
  lemma TakesWhatIsDue(s: System, step: Step, d: nat)
    requires Enabled(s, step) && step.ClaimBatch?
    ensures ClaimsIt(s, step, d) ==> MayBeTaken(s.db, d, step.now, step.locked)
    ensures MayBeTaken(s.db, d, step.now, step.locked) && !ClaimsIt(s, step, d) ==>
      && |Next(s, step).claims| == |s.claims| + step.limit
      && forall e :: ClaimsIt(s, step, e) ==> ComesBefore(s.db, e, d)
  {
    var ids := Candidates(s.db, step.now, step.limit, step.locked);
    BatchIs(s, step);
    hide *;
    forall e ensures ClaimsIt(s, step, e) <==> e in ids {
      ClaimsItIff(s, step, e);
    }
    if d in ids {
      MayTake(s.db, d, step.now, step.locked);
    }
    if MayBeTaken(s.db, d, step.now, step.locked) && d !in ids {
      LeftBehind(s.db, step.now, step.limit, step.locked, d);
    }
  }

  lemma MayTake(db: Db, d: nat, now: int, locked: set<nat>)
    requires d in db.deliveries && d !in locked && Claimable(db, d, now)
    ensures MayBeTaken(db, d, now, locked)
  {
  }

  /** Earlier next attempt, or the same and a smaller id. */
  predicate ComesBefore(db: Db, e: nat, d: nat)
    requires d in db.deliveries
  {
    && e in db.deliveries
    && (db.deliveries[e].nextAttemptAt < db.deliveries[d].nextAttemptAt
        || (db.deliveries[e].nextAttemptAt == db.deliveries[d].nextAttemptAt && e < d))
  }

  lemma LeftBehind(db: Db, now: int, limit: nat, locked: set<nat>, d: nat)
    requires MayBeTaken(db, d, now, locked) && d !in Candidates(db, now, limit, locked)
    ensures |ById(Candidates(db, now, limit, locked))| == limit
    ensures forall e :: e in Candidates(db, now, limit, locked) ==> ComesBefore(db, e, d)
  {
    var due, ids := DueRows(db, now, locked), Candidates(db, now, limit, locked);
    assert d in due;
    LimitIsComplete(due, limit);
    forall e | e in ids ensures ComesBefore(db, e, d) {
      LimitKeepsTheFirst(due, limit, e, d);
    }
    OrderByHasNoRepeats(due);
    SameLength(ids);
  }

  lemma SameLength(ids: seq<nat>)
    requires forall i, j :: 0 <= i < j < |ids| ==> ids[i] != ids[j]
    ensures |ById(ids)| == |ids|
  {
    DistinctSize(ids);
  }

  lemma {:induction false} DistinctSize(ids: seq<nat>)
    requires forall i, j :: 0 <= i < j < |ids| ==> ids[i] != ids[j]
    ensures |Elements(ids)| == |ids|
    decreases |ids|
  {
    if ids == [] {
      assert Elements(ids) == {};
    } else {
      assert ids[0] !in ids[1..];
      assert forall i :: i in ids <==> i == ids[0] || i in ids[1..];
      assert Elements(ids) == {ids[0]} + Elements(ids[1..]);
      DistinctSize(ids[1..]);
    }
  }

  // ----- What a settlement decides -----

  /** Attempts that are never repeated: the endpoint is refused, the payload cannot be
      rendered, or the receiver answers 4xx other than 408 and 429. */
  predicate NeverRepeated(a: Attempt) {
    a.EndpointRejected? || a.RenderFailed?
    || (a.Responded? && 400 <= a.status <= 499 && a.status != 408 && a.status != 429)
  }

  function CodeOf(a: Attempt): string {
    if a.UrlDecryptFailed? || a.SecretDecryptFailed? then "decrypt_failed"
    else if a.EndpointRejected? then "endpoint_rejected"
    else if a.RenderFailed? then "render_failed"
    else if a.RequestFailed? then "request_failed"
    else if a.NetworkError? then "network_error"
    else "http_" + Text.Itoa(a.status)
  }

  /** 2^min(n-1, 9) whole seconds. */
  function Seconds(n: int): int
    requires n >= 1
  {
    Pow2(if n <= 10 then n - 1 else 9)
  }

  /** That long, stretched by the jitter to between 0.8 and 1.2 times. */
  function Wait(n: int, jitter: real): int
    requires n >= 1
  {
    ((Seconds(n) * 1_000_000_000) as real * (0.8 + 0.4 * jitter)).Floor
  }

  /** A delivered row, its target's failures forgotten and its circuit closed. */
  predicate DeliveredBy(c: Claim, w: Work, row: Delivery, target: Target) {
    && row.status == Delivered && row.deliveredAt == Some(w.now) && row.updatedAt == w.now
    && w.attempt.Responded? && row.lastHttpStatus == Some(w.attempt.status) && row.lastErrorCode.None?
    && target.consecutiveFailures == 0 && target.circuitOpenUntil.None?
  }

  /** A failed row: dead-lettered when it is not to be repeated or was the eighth
      attempt, and otherwise due after its wait, or after the minute its target's circuit
      is now open if that is longer. */
  predicate FailedBy(c: Claim, w: Work, row: Delivery, before: Target, target: Target) {
    && row.lastErrorCode == Some(CodeOf(w.attempt)) && row.updatedAt == w.now
    && row.lastHttpStatus == (if w.attempt.Responded? then Some(w.attempt.status) else None)
    && target.consecutiveFailures == before.consecutiveFailures + 1
    && if NeverRepeated(w.attempt) || c.attempts >= 8 then
         row.status == DeadLetter && target.circuitOpenUntil.None?
       else
         && row.status == Retry && c.attempts >= 1
         && var wait := Wait(c.attempts, w.jitter);
            if c.failures >= 4 then
              && target.circuitOpenUntil == Some(w.now + 60_000_000_000)
              && row.nextAttemptAt == w.now + if wait < 60_000_000_000 then 60_000_000_000 else wait
            else
              target.circuitOpenUntil.None? && row.nextAttemptAt == w.now + wait
  }

  lemma WaitIs(c: Claim, w: Work)
    requires c.attempts >= 1 && 0.0 <= w.jitter < 1.0
    ensures var wait := Wait(c.attempts, w.jitter);
      NextAttempt(c, w) == w.now +
        if OpensCircuit(c, w.attempt) && wait < 60_000_000_000 then 60_000_000_000 else wait
  {
    assert BaseDelay(c.attempts) == Seconds(c.attempts) * 1_000_000_000;
    hide BaseDelay;
    hide Pow2;
    hide IsDead;
  }

  lemma WaitBounds(n: int, jitter: real)
    requires n >= 1 && 0.0 <= jitter < 1.0
    ensures 8 * Seconds(n) * 1_000_000_000 <= Wait(n, jitter) * 10 < 12 * Seconds(n) * 1_000_000_000
  {
    DelayBounds(n, jitter);
    assert BaseDelay(n) == Seconds(n) * 1_000_000_000;
    hide BaseDelay;
    hide Pow2;
  }

  lemma FailureIs(db: Db, c: Claim, w: Work)
    requires Holds(db, c) && c.targetId in db.targets && c.attempts >= 1 && 0.0 <= w.jitter < 1.0
    requires !Success(w.attempt)
    ensures AfterWork(db, c, w).Ok?
    ensures var n := AfterWork(db, c, w).value;
      FailedBy(c, w, n.deliveries[c.id], db.targets[c.targetId], n.targets[c.targetId])
  {
    WaitIs(c, w);
    hide NextAttempt;
    hide Wait;
  }

  /** What every settlement that takes effect leaves behind. */
  lemma SettlementOutcome(states: seq<System>, steps: seq<Step>, k: nat, d: nat)
    requires Execution(states, steps) && k < |steps| && Settles(states[k], steps[k], d)
    ensures var s, n, c, w := states[k], states[k + 1], states[k].claims[steps[k].claim], steps[k].work;
      && c.id == d && d in n.db.deliveries && c.targetId in s.db.targets && c.targetId in n.db.targets
      && if w.attempt.Responded? && 200 <= w.attempt.status <= 299
         then DeliveredBy(c, w, n.db.deliveries[d], n.db.targets[c.targetId])
         else FailedBy(c, w, n.db.deliveries[d], s.db.targets[c.targetId], n.db.targets[c.targetId])
  {
    RunStep(states, steps, k);
    var s, c, w := states[k], states[k].claims[steps[k].claim], steps[k].work;
    SettlesHolds(s, steps[k], d);
    if !Success(w.attempt) {
      FailureIs(s.db, c, w);
    } else {
      hide FailedBy;
    }
    hide FailedBy;
    hide Inv;
    hide Enabled;
  }

  lemma SettlesHolds(s: System, step: Step, d: nat)
    requires Inv(s) && Enabled(s, step) && Settles(s, step, d)
    ensures Holds(s.db, s.claims[step.claim]) && s.claims[step.claim].targetId in s.db.targets
    ensures s.claims[step.claim].attempts >= 1 && 0.0 <= step.work.jitter < 1.0
    ensures AfterWork(s.db, s.claims[step.claim], step.work).Ok?
    ensures Next(s, step).db == AfterWork(s.db, s.claims[step.claim], step.work).value
  {
    assert Leases(s);
    hide NextAttempt;
    hide OpenUntil;
    hide IsDead;
  }

  // ----- Waits and circuits are respected -----

  /** The row waits for its next attempt. */
  predicate WaitsUntil(s: System, d: nat, at: int) {
    d in s.db.deliveries && s.db.deliveries[d].status == Retry && s.db.deliveries[d].leaseToken.None?
    && s.db.deliveries[d].nextAttemptAt == at
  }

  lemma WaitStays(s: System, step: Step, d: nat, at: int)
    requires Inv(s) && Enabled(s, step) && WaitsUntil(s, d, at)
    ensures ClaimsIt(s, step, d) ==> step.ClaimBatch? && step.now >= at
    ensures !ClaimsIt(s, step, d) ==> WaitsUntil(Next(s, step), d, at)
  {
    assert ClaimsIt(s, step, d) ==> step.ClaimBatch?;
    StepMoves(s, step, d);
    if ClaimsIt(s, step, d) {
      TakesWhatIsDue(s, step, d);
    } else {
      NotHeld(s, step, d);
    }
    hide Next;
    hide Inv;
    hide ClaimsIt;
    hide Settles;
    hide Replays;
  }

  /** A row without a lease that is not dead-lettered is neither settled nor replayed. */
  lemma NotHeld(s: System, step: Step, d: nat)
    requires d in s.db.deliveries && s.db.deliveries[d].leaseToken.None? && s.db.deliveries[d].status != DeadLetter
    ensures !Settles(s, step, d) && !Replays(s, step, d)
  {
  }

  lemma {:induction false} WaitsBetween(states: seq<System>, steps: seq<Step>, k: nat, m: nat, d: nat, at: int)
    requires Execution(states, steps) && k <= m <= |steps| && |states| == |steps| + 1 && WaitsUntil(states[k], d, at)
    requires forall q :: k <= q < m ==> !ClaimsIt(states[q], steps[q], d)
    ensures WaitsUntil(states[m], d, at)
    decreases m
  {
    hide *;
    if k < m {
      WaitsBetween(states, steps, k, m - 1, d, at);
      RunStep(states, steps, m - 1);
      WaitStays(states[m - 1], steps[m - 1], d, at);
    }
  }

  /** The first claim after a settled failure that is to be repeated comes no earlier
      than four fifths of 2^min(n-1, 9) seconds later, and no earlier than a minute when
      the claim had seen four failures of its target. */
  lemma BackoffIsRespected(states: seq<System>, steps: seq<Step>, k: nat, m: nat, d: nat)
    requires Execution(states, steps) && k < m < |steps|
    requires steps[k].Settle? && Settles(states[k], steps[k], d) && !Success(steps[k].work.attempt)
    requires var c := states[k].claims[steps[k].claim]; !NeverRepeated(steps[k].work.attempt) && c.attempts < 8
    requires steps[m].ClaimBatch? && ClaimsIt(states[m], steps[m], d)
    requires forall q :: k < q < m ==> !ClaimsIt(states[q], steps[q], d)
    ensures var c, wait := states[k].claims[steps[k].claim], steps[m].now - steps[k].work.now;
      && c.attempts >= 1 && wait * 10 >= 8 * Seconds(c.attempts) * 1_000_000_000
      && (c.failures >= 4 ==> wait >= 60_000_000_000)
  {
    assert |states| == |steps| + 1;
    SettlementOutcome(states, steps, k, d);
    RunStep(states, steps, k);
    RunStep(states, steps, m);
    SettledIsFree(states[k], steps[k], d);
    SettlesHolds(states[k], steps[k], d);
    WaitBounds(states[k].claims[steps[k].claim].attempts, steps[k].work.jitter);
    var at := states[k + 1].db.deliveries[d].nextAttemptAt;
    hide ClaimsIt;
    hide Settles;
    hide Next;
    hide Execution;
    hide Inv;
    hide Enabled;
    hide Seconds;
    hide Wait;
    WaitsBetween(states, steps, k + 1, m, d, at);
    WaitStays(states[m], steps[m], d, at);
  }

  lemma SettledIsFree(s: System, step: Step, d: nat)
    requires Inv(s) && Enabled(s, step) && Settles(s, step, d)
    ensures d in Next(s, step).db.deliveries && Next(s, step).db.deliveries[d].leaseToken.None?
  {
    SettlesHolds(s, step, d);
    hide Inv;
    hide NextAttempt;
    hide OpenUntil;
    hide IsDead;
  }

  /** The target's circuit is open until `at`. */
  predicate OpenUntilThen(s: System, t: nat, at: int) {
    t in s.db.targets && s.db.targets[t].circuitOpenUntil == Some(at)
  }

  /** A settlement of some delivery of the target that takes effect. */
  predicate SettlesTarget(s: System, step: Step, t: nat) {
    step.Settle? && step.claim < |s.claims| && s.claims[step.claim].targetId == t && Next(s, step) != s
  }

  lemma CircuitStays(s: System, step: Step, t: nat, at: int)
    requires Enabled(s, step) && OpenUntilThen(s, t, at) && !SettlesTarget(s, step, t)
    ensures OpenUntilThen(Next(s, step), t, at)
  {
    if step.ClaimBatch? {
      BatchIs(s, step);
    }
    hide Candidates;
    hide Claimable;
    hide ById;
    hide NextAttempt;
    hide OpenUntil;
    hide IsDead;
  }

  lemma {:induction false} CircuitBetween(states: seq<System>, steps: seq<Step>, k: nat, m: nat, t: nat, at: int)
    requires Execution(states, steps) && k <= m <= |steps| && |states| == |steps| + 1
    requires OpenUntilThen(states[k], t, at) && forall q :: k <= q < m ==> !SettlesTarget(states[q], steps[q], t)
    ensures OpenUntilThen(states[m], t, at)
    decreases m
  {
    hide *;
    if k < m {
      CircuitBetween(states, steps, k, m - 1, t, at);
      RunStep(states, steps, m - 1);
      CircuitStays(states[m - 1], steps[m - 1], t, at);
    }
  }

  /** A settled failure that opened its target's circuit keeps it open for a minute:
      until another settlement of that target, no batch before then takes any of its
      deliveries and no publication before then makes it one. */
  lemma CircuitIsRespected(states: seq<System>, steps: seq<Step>, k: nat, m: nat, d: nat)
    requires Execution(states, steps) && k < m < |steps|
    requires steps[k].Settle? && Settles(states[k], steps[k], d) && !Success(steps[k].work.attempt)
    requires var c := states[k].claims[steps[k].claim];
      && !NeverRepeated(steps[k].work.attempt) && c.attempts < 8 && c.failures >= 4
      && forall q :: k < q < m ==> !SettlesTarget(states[q], steps[q], c.targetId)
    ensures var t := states[k].claims[steps[k].claim].targetId;
      && (steps[m].ClaimBatch? && steps[m].now < steps[k].work.now + 60_000_000_000 ==>
            forall e :: e in states[m].db.deliveries && states[m].db.deliveries[e].targetId == t ==>
              !ClaimsIt(states[m], steps[m], e))
      && (steps[m].Publish? && steps[m].now < steps[k].work.now + 60_000_000_000 ==> t !in steps[m].ids.Values)
  {
    OpensForAMinute(states, steps, k, d);
    assert |states| == |steps| + 1;
    hide *;
    var t, at := states[k].claims[steps[k].claim].targetId, steps[k].work.now + 60_000_000_000;
    RunStep(states, steps, m);
    CircuitBetween(states, steps, k + 1, m, t, at);
    NoWorkWhileOpen(states[m], steps[m], t, at);
  }

  lemma OpensForAMinute(states: seq<System>, steps: seq<Step>, k: nat, d: nat)
    requires Execution(states, steps) && k < |steps|
    requires steps[k].Settle? && Settles(states[k], steps[k], d) && !Success(steps[k].work.attempt)
    requires var c := states[k].claims[steps[k].claim];
      !NeverRepeated(steps[k].work.attempt) && c.attempts < 8 && c.failures >= 4
    ensures OpenUntilThen(states[k + 1], states[k].claims[steps[k].claim].targetId,
                          steps[k].work.now + 60_000_000_000)
  {
    SettlementOutcome(states, steps, k, d);
    hide Execution;
    hide Next;
    hide Wait;
    hide NeverRepeated;
  }

  lemma NoWorkWhileOpen(s: System, step: Step, t: nat, at: int)
    requires Enabled(s, step) && OpenUntilThen(s, t, at)
    ensures step.ClaimBatch? && step.now < at ==>
      forall e :: e in s.db.deliveries && s.db.deliveries[e].targetId == t ==> !ClaimsIt(s, step, e)
    ensures step.Publish? && step.now < at ==> t !in step.ids.Values
  {
    hide ClaimsIt;
    hide Next;
    if step.ClaimBatch? && step.now < at {
      forall e | e in s.db.deliveries && s.db.deliveries[e].targetId == t ensures !ClaimsIt(s, step, e) {
        TakesWhatIsDue(s, step, e);
      }
    }
  }

  // ----- Publishing -----

  /** The delivery tells the target of the event. */
  predicate Tells(db: Db, d: nat, event: nat, target: nat) {
    d in db.deliveries && db.deliveries[d].eventId == event && db.deliveries[d].targetId == target
  }

  /** A publication gives each active target with a closed circuit one delivery of the
      event, due at once, and gives no other target any. */
  lemma PublishReaches(states: seq<System>, steps: seq<Step>, k: nat, t: nat)
    requires Execution(states, steps) && k < |steps| && steps[k].Publish? && t in states[k].db.targets
    ensures var target, after, e, now := states[k].db.targets[t], states[k + 1].db, steps[k].event, steps[k].now;
      && e !in states[k].db.events && e in after.events && after.events[e].occurredAt == now
      && ((exists d :: Tells(after, d, e, t)) <==>
            target.active && !(target.circuitOpenUntil.Some? && now < target.circuitOpenUntil.value))
      && (forall d, f :: Tells(after, d, e, t) && Tells(after, f, e, t) ==> d == f)
      && (forall d :: d in after.deliveries && after.deliveries[d].eventId == e ==>
            && d !in states[k].db.deliveries && after.deliveries[d].status == Pending
            && after.deliveries[d].attempts == 0 && after.deliveries[d].nextAttemptAt == now)
      && (forall d :: d in states[k].db.deliveries ==>
            d in after.deliveries && after.deliveries[d] == states[k].db.deliveries[d])
  {
    RunStep(states, steps, k);
    PublishedRows(states[k], steps[k], t);
    var step, after := steps[k], states[k + 1].db;
    hide Next;
    hide Execution;
    hide Inv;
    hide Enabled;
    forall d ensures Tells(after, d, step.event, t) <==> d in step.ids && step.ids[d] == t {
    }
    PublishesOnce(states[k], step);
  }

  lemma PublishesOnce(s: System, step: Step)
    requires Enabled(s, step) && step.Publish?
    ensures step.event !in s.db.events
    ensures forall a, b :: a in step.ids && b in step.ids && step.ids[a] == step.ids[b] ==> a == b
  {
  }

  lemma PublishedRows(s: System, step: Step, t: nat)
    requires Inv(s) && Enabled(s, step) && step.Publish? && t in s.db.targets
    ensures var target, after := s.db.targets[t], Next(s, step).db;
      && after.events == s.db.events[step.event := Event(step.now)]
      && (forall d :: d in after.deliveries <==> d in s.db.deliveries || d in step.ids)
      && (forall d :: d in step.ids ==>
            d !in s.db.deliveries && after.deliveries[d] == NewDelivery(step.event, step.ids[d], step.now))
      && (forall d :: d in s.db.deliveries ==>
            after.deliveries[d] == s.db.deliveries[d] && s.db.deliveries[d].eventId != step.event)
      && ((exists d :: d in step.ids && step.ids[d] == t) <==>
            target.active && !(target.circuitOpenUntil.Some? && step.now < target.circuitOpenUntil.value))
  {
    assert References(s);
    hide Inv;
    if t in Recipients(s.db, step.now) {
      assert t in step.ids.Values;
      var d :| d in step.ids && step.ids[d] == t;
    }
    forall d | d in step.ids && step.ids[d] == t ensures t in Recipients(s.db, step.now) {
      assert step.ids[d] in step.ids.Values;
    }
  }

  // ----- Finished work is kept -----

  /** A finished row, last written at `at`. */
  predicate FinishedAt(s: System, d: nat, at: int) {
    d in s.db.deliveries && Terminal(s.db.deliveries[d]) && s.db.deliveries[d].leaseToken.None?
    && s.db.deliveries[d].updatedAt == at
  }

  lemma FinishedStays(s: System, step: Step, d: nat, at: int)
    requires Inv(s) && Enabled(s, step) && FinishedAt(s, d, at) && !Replays(s, step, d)
    ensures d in Next(s, step).db.deliveries ==> FinishedAt(Next(s, step), d, at)
    ensures d !in Next(s, step).db.deliveries ==>
      step.Retain? && at < step.now - step.deliveryDays * 86_400_000_000_000
  {
    StepMoves(s, step, d);
    NotSettled(s, step, d);
    if step.ClaimBatch? {
      TakesWhatIsDue(s, step, d);
    }
    assert ClaimsIt(s, step, d) ==> step.ClaimBatch?;
    hide Next;
    hide Inv;
    hide ClaimsIt;
    hide Settles;
    hide Replays;
  }

  lemma NotSettled(s: System, step: Step, d: nat)
    requires d in s.db.deliveries && s.db.deliveries[d].leaseToken.None?
    ensures !Settles(s, step, d)
  {
  }

  lemma {:induction false} FinishedBetween(states: seq<System>, steps: seq<Step>, k: nat, m: nat, d: nat, at: int)
    requires Execution(states, steps) && k <= m <= |steps| && |states| == |steps| + 1
    requires FinishedAt(states[k], d, at) && forall q :: k <= q <= m ==> d in states[q].db.deliveries
    requires forall q :: k <= q < m ==> !Replays(states[q], steps[q], d)
    ensures FinishedAt(states[m], d, at)
    decreases m
  {
    hide *;
    if k < m {
      FinishedBetween(states, steps, k, m - 1, d, at);
      RunStep(states, steps, m - 1);
      FinishedStays(states[m - 1], steps[m - 1], d, at);
    }
  }

  /** A delivery that was delivered or dead-lettered, and not replayed since, is removed
      only by a retention run later than its settlement by more than the days kept. */
  lemma FinishedIsKept(states: seq<System>, steps: seq<Step>, k: nat, m: nat, d: nat)
    requires Execution(states, steps) && k < m < |steps|
    requires steps[k].Settle? && Settles(states[k], steps[k], d)
    requires states[k + 1].db.deliveries[d].status in {Delivered, DeadLetter}
    requires forall q :: k < q <= m ==> d in states[q].db.deliveries && !Replays(states[q], steps[q], d)
    requires d !in states[m + 1].db.deliveries
    ensures steps[m].Retain?
    ensures steps[k].work.now < steps[m].now - steps[m].deliveryDays * 86_400_000_000_000
  {
    assert |states| == |steps| + 1;
    SettlementOutcome(states, steps, k, d);
    RunStep(states, steps, k);
    RunStep(states, steps, m);
    SettledIsFree(states[k], steps[k], d);
    hide Settles;
    hide Replays;
    hide Next;
    hide Execution;
    hide Inv;
    hide Enabled;
    hide Wait;
    FinishedBetween(states, steps, k + 1, m, d, steps[k].work.now);
    FinishedStays(states[m], steps[m], d, steps[k].work.now);
  }

  /** Retention removes exactly the finished deliveries last written before the days
      kept, their dead letters with them, and exactly the old events nobody refers to. */
  lemma RetentionRemovesIff(db: Db, current: int, deliveryDays: int, eventDays: int)
    ensures var after := AfterRetention(db, current, deliveryDays, eventDays);
      && (forall d :: d in db.deliveries ==>
            (d in after.deliveries <==>
              !(db.deliveries[d].status in {Delivered, DeadLetter}
                && db.deliveries[d].updatedAt < current - deliveryDays * 86_400_000_000_000)))
      && (forall d :: d in after.deliveries ==> d in db.deliveries && after.deliveries[d] == db.deliveries[d])
      && (forall d :: d in db.deadLetters && d in db.deliveries ==>
            (d in after.deadLetters <==> d in after.deliveries))
      && (forall d :: d in after.deadLetters ==> d in db.deadLetters && after.deadLetters[d] == db.deadLetters[d])
      && (forall e :: e in db.events ==>
            (e in after.events <==>
              db.events[e].occurredAt >= current - eventDays * 86_400_000_000_000
              || exists d :: d in after.deliveries && after.deliveries[d].eventId == e))
      && (forall e :: e in after.events ==> e in db.events && after.events[e] == db.events[e])
      && after.targets == db.targets
  {
  }

  // ----- Replaying -----

  /** A replay has an effect exactly on a dead-lettered delivery; it is then due at once
      with all its attempts ahead, and its dead letter keeps the reason and the time. */
  lemma ReplayRestarts(states: seq<System>, steps: seq<Step>, k: nat)
    requires Execution(states, steps) && k < |steps| && steps[k].ReplayDelivery?
    ensures var s, n, d, now := states[k], states[k + 1], steps[k].delivery, steps[k].now;
      && (n != s <==> d in s.db.deliveries && s.db.deliveries[d].status == DeadLetter)
      && (n != s ==>
            && d in n.db.deliveries && n.db.deliveries[d].status == Pending && n.db.deliveries[d].attempts == 0
            && n.db.deliveries[d].nextAttemptAt == now && n.db.deliveries[d].lastErrorCode.None?
            && d in s.db.deadLetters
            && n.db.deadLetters == s.db.deadLetters[d := DeadLetterRow(s.db.deadLetters[d].reasonCode, Some(now))])
  {
    RunStep(states, steps, k);
    assert Shapes(states[k]);
    hide Inv;
    if states[k + 1].log != states[k].log {
      assert |states[k + 1].log| == |states[k].log| + 1;
    }
  }

  // ----- What a claim carries -----

  lemma AddedClaims(s: System, step: Step, i: nat)
    requires step.ClaimBatch? && |s.claims| <= i < |Next(s, step).claims|
    ensures var c, n := Next(s, step).claims[i], Next(s, step);
      && ClaimsIt(s, step, c.id) && Joined(n.db, c.id) && c == ClaimOf(n.db, c.id, step.token)
      && (forall j :: |s.claims| <= j < i ==> n.claims[j].id < c.id)
  {
    hide *;
    var ids := Candidates(s.db, step.now, step.limit, step.locked);
    var db, k := AfterClaim(s.db, ids, step.now, step.lease, step.token), i - |s.claims|;
    CandidatesAreJoined(s, step.now, step.lease, step.limit, step.token, step.locked);
    BatchAdds(s, step, ids);
    ClaimsAddedAre(s, db, ids, step.token);
    ScannedIs(s, db, ids, step.token);
    ByIdAscends(ids);
    ClaimsItIff(s, step, ById(ids)[k]);
    assert Next(s, step).claims[|s.claims| + k].id == ById(ids)[k];
    forall j | |s.claims| <= j < i ensures Next(s, step).claims[j].id < ById(ids)[k] {
      assert Next(s, step).claims[|s.claims| + (j - |s.claims|)].id == ById(ids)[j - |s.claims|];
    }
  }

  lemma ByIdAscends(ids: seq<nat>)
    ensures forall i, j :: 0 <= i < j < |ById(ids)| ==> ById(ids)[i] < ById(ids)[j]
    ensures forall i :: 0 <= i < |ById(ids)| ==> ById(ids)[i] in ids
  {
    AscendingIsStrict(Elements(ids));
  }

  lemma ScannedIs(s: System, db: Db, ids: seq<nat>, token: nat)
    requires forall id :: id in ids ==> id in s.db.deliveries && Joined(db, id)
    ensures var n := WithClaims(s, db, ids, token);
      && n.db == db && |n.claims| == |s.claims| + |ById(ids)|
      && forall i :: 0 <= i < |ById(ids)| ==> n.claims[|s.claims| + i] == ClaimOf(db, ById(ids)[i], token)
  {
    hide TakenOver;
    hide Joined;
    hide ClaimOf;
    hide ById;
    var added := ClaimsOf(db, ids, token);
    assert |added| == |ById(ids)| && forall i :: 0 <= i < |added| ==> added[i] == ClaimOf(db, ById(ids)[i], token);
    hide ClaimsOf;
    hide ScanClaims;
    assert WithClaims(s, db, ids, token).claims == s.claims + added;
  }

  /** A claim carries what the worker settles it with: its own delivery's event and target,
      the batch's token, the attempt it is, and the target's failures as they stand; the
      row is leased under that token, and the batch is in id order. */
  lemma ClaimCarries(states: seq<System>, steps: seq<Step>, k: nat, i: nat)
    requires Execution(states, steps) && k < |steps| && |states| == |steps| + 1 && steps[k].ClaimBatch?
    requires |states[k].claims| <= i < |states[k + 1].claims|
    ensures var s, n, c, step := states[k], states[k + 1], states[k + 1].claims[i], steps[k];
      && c.id in s.db.deliveries && c.id in n.db.deliveries && c.targetId in s.db.targets
      && var before, after := s.db.deliveries[c.id], n.db.deliveries[c.id];
         && c.eventId == before.eventId && c.targetId == before.targetId && c.token == step.token
         && c.attempts == before.attempts + 1 && c.failures == s.db.targets[c.targetId].consecutiveFailures
         && after == before.(status := Delivering, attempts := before.attempts + 1, leaseToken := Some(step.token),
                             leaseExpiresAt := Some(step.now + step.lease), updatedAt := step.now)
         && (forall j :: |s.claims| <= j < i ==> n.claims[j].id < c.id)
  {
    hide *;
    RunStep(states, steps, k);
    CarriedBy(states[k], steps[k], i);
  }

  lemma CarriedBy(s: System, step: Step, i: nat)
    requires step.ClaimBatch? && |s.claims| <= i < |Next(s, step).claims|
    ensures var n, c := Next(s, step), Next(s, step).claims[i];
      && c.id in s.db.deliveries && c.id in n.db.deliveries && c.targetId in s.db.targets
      && var before, after := s.db.deliveries[c.id], n.db.deliveries[c.id];
         && c.eventId == before.eventId && c.targetId == before.targetId && c.token == step.token
         && c.attempts == before.attempts + 1 && c.failures == s.db.targets[c.targetId].consecutiveFailures
         && after == before.(status := Delivering, attempts := before.attempts + 1, leaseToken := Some(step.token),
                             leaseExpiresAt := Some(step.now + step.lease), updatedAt := step.now)
         && (forall j :: |s.claims| <= j < i ==> n.claims[j].id < c.id)
  {
    hide ClaimsIt;
    hide Next;
    hide Candidates;
    hide Claimable;
    AddedClaims(s, step, i);
    ClaimsItIff(s, step, Next(s, step).claims[i].id);
    BatchIs(s, step);
  }
}
