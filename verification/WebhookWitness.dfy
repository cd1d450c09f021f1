/** A run from the empty tables in which an open circuit closes although the target only
    ever failed: one delivery fails four times, then two deliveries are claimed together,
    the failure of the first opens the circuit and a permanent failure of the second, whose
    claim is as old, writes NULL over it. */
module WebhookWitness {
  import opened Wrappers
  import opened Sql
  import opened Webhook
  import opened WebhookRuns

  /** When delivery 1 may be attempted again after n failures. */
  function DueAt(n: nat): int { if n == 0 then 0 else DueAt(n - 1) + Delay(n, 0.0) }

  function TargetAfter(n: nat): Target { Target(true, n, None, if n == 0 then 0 else DueAt(n - 1)) }

  function RowAfter(n: nat): Delivery {
    if n == 0 then NewDelivery(1, 1, 0)
    else Delivery(1, 1, Retry, n, DueAt(n), None, None, None, Some("network_error"), None, DueAt(n - 1))
  }

  function Failing(n: nat): Db {
    Db(map[1 := TargetAfter(n)], map[1 := RowAfter(n)], map[], map[1 := Event(0)])
  }

  /** After n failures of delivery 1; id 2 and the tokens from n on are unused. */
  ghost predicate Reached(states: seq<System>, steps: seq<Step>, n: nat) {
    && Execution(states, steps)
    && states[|steps|].db == Failing(n) && states[|steps|].usedIds == {1}
    && forall t :: t in states[|steps|].usedTokens ==> t < n
  }

  /** Any run goes on with any enabled step. */
  lemma GoesOn(before: seq<System>, taken: seq<Step>, step: Step, next: System)
    returns (states: seq<System>, steps: seq<Step>)
    requires Execution(before, taken) && Enabled(before[|taken|], step) && next == Next(before[|taken|], step)
    ensures Execution(states, steps) && steps == taken + [step] && states == before + [next]
    ensures states[|steps|] == next
  {
    states, steps := before + [next], taken + [step];
    hide Next;
    hide Enabled;
    forall k | 0 <= k < |steps| ensures Enabled(states[k], steps[k]) && states[k + 1] == Next(states[k], steps[k]) {
      assert k < |taken| ==> steps[k] == taken[k] && states[k + 1] == before[k + 1];
    }
  }

  lemma TargetAdded()
    ensures Enabled(Init, AddTarget(1, 0)) && Next(Init, AddTarget(1, 0)) == Added()
  {
  }

  function Added(): System { System(Db(map[1 := TargetAfter(0)], map[], map[], map[]), [], [], {}, {}) }

  lemma FirstPublished()
    ensures Enabled(Added(), Publish(1, 0, map[1 := 1]))
    ensures Next(Added(), Publish(1, 0, map[1 := 1])) == System(Failing(0), [], [], {1}, {})
  {
    var step, after := Publish(1, 0, map[1 := 1]), AfterEnqueue(Added().db, 1, 0, map[1 := 1]);
    assert step.ids[1] == 1;
    assert Recipients(Added().db, 0) == {1} && step.ids.Values == {1};
    assert after.deliveries == Failing(0).deliveries && after.events == Failing(0).events;
    assert {} + step.ids.Keys == {1};
  }

  lemma Starts() returns (states: seq<System>, steps: seq<Step>)
    ensures Reached(states, steps, 0)
  {
    TargetAdded();
    FirstPublished();
    assert Execution([Init], []);
    states, steps := GoesOn([Init], [], AddTarget(1, 0), Added());
    states, steps := GoesOn(states, steps, Publish(1, 0, map[1 := 1]), System(Failing(0), [], [], {1}, {}));
    hide Execution;
    hide Failing;
  }

  lemma OneRow(key: map<nat, int>)
    requires key.Keys == {1}
    ensures OrderBy(key) == [1]
  {
    assert |key| == 1;
    assert OrderBy(key)[0] in key;
  }

  lemma TwoRows(key: map<nat, int>)
    requires key.Keys == {1, 2} && key[1] == key[2]
    ensures OrderBy(key) == [1, 2]
  {
    var ids := OrderBy(key);
    OrderByIsOrdered(key);
    assert |key| == 2;
    assert ids[0] in key && ids[1] in key && Before(key, ids[0], ids[1]);
  }

  lemma ByIdOfStrict(ids: seq<nat>)
    requires Strict(ids)
    ensures ById(ids) == ids
  {
    AscendingIsStrict(Elements(ids));
    StrictIsUnique(ById(ids), ids);
  }

  lemma TakesOne(db: Db, now: int)
    requires db.deliveries.Keys == {1} && Claimable(db, 1, now)
    ensures Candidates(db, now, WORKER_BATCH, {}) == [1]
  {
    hide OrderBy;
    assert DueRows(db, now, {}).Keys == {1};
    OneRow(DueRows(db, now, {}));
    hide DueRows;
  }

  lemma TakesTwo(db: Db, now: int)
    requires db.deliveries.Keys == {1, 2} && Claimable(db, 1, now) && Claimable(db, 2, now)
    requires db.deliveries[1].nextAttemptAt == db.deliveries[2].nextAttemptAt
    ensures Candidates(db, now, WORKER_BATCH, {}) == [1, 2]
  {
    hide OrderBy;
    assert DueRows(db, now, {}).Keys == {1, 2};
    TwoRows(DueRows(db, now, {}));
    hide DueRows;
  }

  /** The worker's claim of free and due rows leases just those. */
  lemma Claims(s: System, now: int, token: nat, ids: seq<nat>) returns (after: System)
    requires Strict(ids) && Candidates(s.db, now, WORKER_BATCH, {}) == ids
    ensures after == Next(s, ClaimBatch(now, WORKER_LEASE, WORKER_BATCH, token, {}))
    ensures after.db == AfterClaim(s.db, ids, now, WORKER_LEASE, token)
    ensures |after.claims| == |s.claims| + |ids| && forall id :: id in ids ==> Joined(after.db, id)
    ensures forall i :: 0 <= i < |ids| ==> after.claims[|s.claims| + i] == ClaimOf(after.db, ids[i], token)
    ensures after.usedIds == s.usedIds && after.usedTokens == s.usedTokens + {token}
  {
    hide *;
    AreJoined(s.db, now, token, ids);
    var db := AfterClaim(s.db, ids, now, WORKER_LEASE, token);
    after := WithClaims(s, db, ids, token);
    ClaimIs(s, now, token, ids);
    ClaimsInOrder(db, ids, token);
    WithClaimsAre(s, db, ids, token);
  }

  lemma WithClaimsAre(s: System, db: Db, ids: seq<nat>, token: nat)
    requires forall id :: id in ids ==> id in s.db.deliveries && Joined(db, id)
    ensures
      var after := WithClaims(s, db, ids, token);
      && after.db == db && after.claims == s.claims + ClaimsOf(db, ids, token)
      && after.usedIds == s.usedIds && after.usedTokens == s.usedTokens + {token}
  {
    hide Joined;
    hide ClaimsOf;
    hide TakenOver;
  }

  lemma AreJoined(db: Db, now: int, token: nat, ids: seq<nat>)
    requires Candidates(db, now, WORKER_BATCH, {}) == ids
    ensures forall id :: id in ids ==> id in db.deliveries && Joined(AfterClaim(db, ids, now, WORKER_LEASE, token), id)
  {
    CandidatesAreClaimable(db, now, WORKER_BATCH, {});
    ClaimedRowsAreJoined(db, ids, now, WORKER_LEASE, token);
    hide Candidates;
    hide AfterClaim;
  }

  lemma ClaimIs(s: System, now: int, token: nat, ids: seq<nat>)
    requires Candidates(s.db, now, WORKER_BATCH, {}) == ids
    requires forall id :: id in ids ==>
      id in s.db.deliveries && Joined(AfterClaim(s.db, ids, now, WORKER_LEASE, token), id)
    ensures Next(s, ClaimBatch(now, WORKER_LEASE, WORKER_BATCH, token, {})) ==
      WithClaims(s, AfterClaim(s.db, ids, now, WORKER_LEASE, token), ids, token)
  {
    hide Candidates;
    hide AfterClaim;
    hide WithClaims;
    hide Joined;
  }

  lemma ClaimsInOrder(db: Db, ids: seq<nat>, token: nat)
    requires Strict(ids) && forall id :: id in ids ==> Joined(db, id)
    ensures |ClaimsOf(db, ids, token)| == |ids|
    ensures forall i :: 0 <= i < |ids| ==> ClaimsOf(db, ids, token)[i] == ClaimOf(db, ids[i], token)
  {
    ByIdOfStrict(ids);
    hide ById;
    hide Joined;
    hide ClaimOf;
  }

  // ----- Four failures of delivery 1 -----

  lemma OneDue(n: nat)
    ensures Candidates(Failing(n), DueAt(n), WORKER_BATCH, {}) == [1]
  {
    assert DueAt(0) == 0;
    hide DueAt;
    hide Candidates;
    TakesOne(Failing(n), DueAt(n));
  }

  function Leasing(n: nat): Db {
    Failing(n).(deliveries := map[1 := Leased(RowAfter(n), DueAt(n), WORKER_LEASE, n)])
  }

  lemma LeasedOne(n: nat)
    ensures AfterClaim(Failing(n), [1], DueAt(n), WORKER_LEASE, n) == Leasing(n)
    ensures ClaimOf(Leasing(n), 1, n) == Claim(1, 1, 1, n, n + 1, n)
  {
    hide DueAt;
    assert AfterClaim(Failing(n), [1], DueAt(n), WORKER_LEASE, n).deliveries == Leasing(n).deliveries;
  }

  lemma WaitsAgain(n: nat)
    requires n < 4
    ensures
      var c, w := Claim(1, 1, 1, n, n + 1, n), Work(NetworkError, DueAt(n), 0.0);
      NextAttempt(c, w) == DueAt(n + 1) && OpenUntil(c, w) == None && !IsDead(c, w.attempt)
  {
    assert DueAt(n + 1) == DueAt(n) + Delay(n + 1, 0.0);
    hide Delay;
    hide DueAt;
  }

  lemma FailedOnce(n: nat)
    requires n < 4
    ensures AfterWork(Leasing(n), Claim(1, 1, 1, n, n + 1, n), Work(NetworkError, DueAt(n), 0.0)) == Ok(Failing(n + 1))
  {
    WaitsAgain(n);
    RowFails(n);
    hide DueAt;
    hide NextAttempt;
    hide OpenUntil;
    hide IsDead;
    hide AfterFailed;
    hide Leasing;
    hide Failing;
  }

  lemma RowFails(n: nat)
    ensures
      AfterFailed(Leasing(n), Claim(1, 1, 1, n, n + 1, n), DueAt(n), DueAt(n + 1), None, "network_error", false, None)
      == Ok(Failing(n + 1))
  {
    var c := Claim(1, 1, 1, n, n + 1, n);
    hide DueAt;
    assert Holds(Leasing(n), c);
    hide Holds;
    var after := AfterFailed(Leasing(n), c, DueAt(n), DueAt(n + 1), None, "network_error", false, None).value;
    assert after.targets == Failing(n + 1).targets && after.deliveries == Failing(n + 1).deliveries;
  }

  lemma SettlesOne(s: System, n: nat, i: nat)
    requires n < 4 && s.db == Leasing(n) && i < |s.claims| && s.claims[i] == Claim(1, 1, 1, n, n + 1, n)
    ensures
      var after := Next(s, Settle(i, Work(NetworkError, DueAt(n), 0.0)));
      after.db == Failing(n + 1) && after.usedIds == s.usedIds && after.usedTokens == s.usedTokens
  {
    FailedOnce(n);
    hide AfterWork;
    hide DueAt;
    hide Leasing;
    hide Failing;
  }

  lemma FailsAgain(before: seq<System>, taken: seq<Step>, n: nat) returns (states: seq<System>, steps: seq<Step>)
    requires Reached(before, taken, n) && n < 4
    ensures Reached(states, steps, n + 1)
  {
    var s, claim := before[|taken|], ClaimBatch(DueAt(n), WORKER_LEASE, WORKER_BATCH, n, {});
    var i, settle := |s.claims|, Settle(|s.claims|, Work(NetworkError, DueAt(n), 0.0));
    OneDue(n);
    LeasedOne(n);
    hide Failing;
    hide Leasing;
    hide DueAt;
    hide Next;
    hide Candidates;
    hide AfterClaim;
    hide ClaimOf;
    hide Joined;
    hide Execution;
    var leased := Claims(s, DueAt(n), n, [1]);
    states, steps := GoesOn(before, taken, claim, leased);
    assert leased.claims[i + 0] == Claim(1, 1, 1, n, n + 1, n);
    SettlesOne(leased, n, i);
    states, steps := GoesOn(states, steps, settle, Next(leased, settle));
  }

  lemma {:induction false} FailsTimes(n: nat) returns (states: seq<System>, steps: seq<Step>)
    requires n <= 4
    ensures Reached(states, steps, n)
  {
    if n == 0 {
      states, steps := Starts();
    } else {
      states, steps := FailsTimes(n - 1);
      states, steps := FailsAgain(states, steps, n - 1);
    }
  }

  // ----- Two deliveries claimed together -----

  function Both(): Db {
    Failing(4).(deliveries := map[1 := RowAfter(4), 2 := NewDelivery(2, 1, DueAt(4))],
                events := map[1 := Event(0), 2 := Event(DueAt(4))])
  }

  lemma TwoDue()
    ensures Candidates(Both(), DueAt(4), WORKER_BATCH, {}) == [1, 2]
  {
    hide DueAt;
    hide Candidates;
    TakesTwo(Both(), DueAt(4));
  }

  function LeasingBoth(): Db {
    Both().(deliveries := map[
      1 := Leased(RowAfter(4), DueAt(4), WORKER_LEASE, 4),
      2 := Leased(NewDelivery(2, 1, DueAt(4)), DueAt(4), WORKER_LEASE, 4)])
  }

  lemma LeasedTwo()
    ensures AfterClaim(Both(), [1, 2], DueAt(4), WORKER_LEASE, 4) == LeasingBoth()
    ensures ClaimOf(LeasingBoth(), 1, 4) == Claim(1, 1, 1, 4, 5, 4)
    ensures ClaimOf(LeasingBoth(), 2, 4) == Claim(2, 2, 1, 4, 1, 4)
  {
    hide DueAt;
    assert AfterClaim(Both(), [1, 2], DueAt(4), WORKER_LEASE, 4).deliveries == LeasingBoth().deliveries;
  }

  /** A failure settled next opens the target's circuit; another, settled at the same
      instant, closes it and still counts as a failure. */
  ghost predicate ClosesOpenCircuit(before: System, first: Step, middle: System, second: Step, after: System, t: nat) {
    && first.Settle? && second.Settle? && first.work.now == second.work.now
    && !Success(first.work.attempt) && !Success(second.work.attempt)
    && before.log < middle.log < after.log
    && t in middle.db.targets && t in after.db.targets
    && !CircuitClosed(middle.db.targets[t], second.work.now)
    && CircuitClosed(after.db.targets[t], second.work.now)
    && after.db.targets[t].consecutiveFailures > middle.db.targets[t].consecutiveFailures >= CIRCUIT_FAILURES
  }

  function First(i: nat): Step { Settle(i, Work(NetworkError, DueAt(4), 0.0)) }

  function Second(i: nat): Step { Settle(i + 1, Work(Responded(400), DueAt(4), 0.0)) }

  lemma SettlesFirst(s: System, i: nat) returns (middle: System)
    requires s.db == LeasingBoth() && i + 1 < |s.claims| && s.claims[i] == Claim(1, 1, 1, 4, 5, 4)
    ensures middle == Next(s, First(i)) && middle.claims == s.claims && s.log < middle.log
    ensures middle.db.deliveries == LeasingBoth().deliveries[1 := middle.db.deliveries[1]]
    ensures middle.db.targets == map[1 := Target(true, 5, Some(DueAt(4) + MINUTE), DueAt(4))]
  {
    middle := Next(s, First(i));
    hide DueAt;
    hide NextAttempt;
    assert Holds(s.db, s.claims[i]);
  }

  lemma SettlesSecond(s: System, i: nat) returns (after: System)
    requires i + 1 < |s.claims| && s.claims[i + 1] == Claim(2, 2, 1, 4, 1, 4)
    requires 2 in s.db.deliveries && s.db.deliveries[2] == LeasingBoth().deliveries[2]
    requires s.db.targets == map[1 := Target(true, 5, Some(DueAt(4) + MINUTE), DueAt(4))]
    ensures after == Next(s, Second(i)) && s.log < after.log
    ensures after.db.targets == map[1 := Target(true, 6, None, DueAt(4))]
  {
    after := Next(s, Second(i));
    hide DueAt;
    hide NextAttempt;
    assert Holds(s.db, s.claims[i + 1]);
  }

  lemma BothPublished(s: System)
    requires s.db == Failing(4) && s.usedIds == {1}
    ensures Enabled(s, Publish(2, DueAt(4), map[2 := 1])) && Next(s, Publish(2, DueAt(4), map[2 := 1])).db == Both()
  {
    hide DueAt;
    var step := Publish(2, DueAt(4), map[2 := 1]);
    assert step.ids[2] == 1;
    assert Recipients(s.db, DueAt(4)) == {1} && step.ids.Values == {1};
    assert Next(s, step).db.deliveries == Both().deliveries;
  }

  lemma PublishesBoth() returns (states: seq<System>, steps: seq<Step>)
    ensures Execution(states, steps) && states[|steps|].db == Both()
    ensures forall t :: t in states[|steps|].usedTokens ==> t < 4
  {
    states, steps := FailsTimes(4);
    var s, publish := states[|steps|], Publish(2, DueAt(4), map[2 := 1]);
    BothPublished(s);
    states, steps := GoesOn(states, steps, publish, Next(s, publish));
    hide *;
  }

  lemma ClaimsBoth() returns (states: seq<System>, steps: seq<Step>, i: nat)
    ensures Execution(states, steps) && states[|steps|].db == LeasingBoth() && i + 1 < |states[|steps|].claims|
    ensures states[|steps|].claims[i] == Claim(1, 1, 1, 4, 5, 4)
    ensures states[|steps|].claims[i + 1] == Claim(2, 2, 1, 4, 1, 4)
  {
    hide Both;
    hide LeasingBoth;
    hide DueAt;
    hide Next;
    hide Candidates;
    hide AfterClaim;
    hide ClaimOf;
    hide Joined;
    assert Strict([1, 2]);
    hide Strict;
    states, steps := PublishesBoth();
    hide Execution;
    var due, claim := states[|steps|], ClaimBatch(DueAt(4), WORKER_LEASE, WORKER_BATCH, 4, {});
    TwoDue();
    LeasedTwo();
    i := |due.claims|;
    var ids := [1, 2];
    var leased := Claims(due, DueAt(4), 4, ids);
    states, steps := GoesOn(states, steps, claim, leased);
    assert leased.claims[i + 0] == ClaimOf(leased.db, ids[0], 4);
    assert leased.claims[i + 1] == ClaimOf(leased.db, ids[1], 4);
  }

  /** In this run an open circuit is closed by a failure. */
  lemma OpenCircuitCloses() returns (states: seq<System>, steps: seq<Step>)
    ensures Execution(states, steps) && |steps| >= 2
    ensures
      var k := |steps| - 2;
      ClosesOpenCircuit(states[k], steps[k], states[k + 1], steps[k + 1], states[k + 2], 1)
  {
    var i;
    states, steps, i := ClaimsBoth();
    var before := states[|steps|];
    var middle := SettlesFirst(before, i);
    assert middle.db.deliveries[2] == LeasingBoth().deliveries[2];
    var after := SettlesSecond(middle, i);
    assert ClosesOpenCircuit(before, First(i), middle, Second(i), after, 1);
    hide ClosesOpenCircuit;
    hide Next;
    hide LeasingBoth;
    hide Execution;
    hide DueAt;
    states, steps := GoesOn(states, steps, First(i), middle);
    states, steps := GoesOn(states, steps, Second(i), after);
  }
}
