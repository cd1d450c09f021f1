/** Every interleaving of any number of webhook workers, their crashes and
    takeovers, replays, retention and target changes.

    A run is a sequence of steps. Any claim a worker ever received may be settled
    at any later moment, once, twice or never: a crashed worker is one that never
    settles, a slow one settles after its lease was taken over. */
module WebhookRuns {
  import opened Wrappers
  import opened Sql
  import opened Webhook

  /** History kept beside the tables: claim batches with the deliveries they took
      over from another lease, settlements that went through, replays. */
  datatype Entry =
    | Batch(takenOver: set<nat>)
    | Settled(claim: nat, delivery: nat, target: nat, failed: bool)
    | Replayed(delivery: nat)

  datatype System = System(db: Db, claims: seq<Claim>, log: seq<Entry>, usedIds: set<nat>, usedTokens: set<nat>)

  datatype Step =
    | AddTarget(target: nat, now: int)
    | SetTargetStatus(target: nat, active: bool, now: int)
    | Publish(event: nat, now: int, ids: map<nat, nat>)
    | ClaimBatch(now: int, lease: int, limit: nat, token: nat, locked: set<nat>)
    | Settle(claim: nat, work: Work)
    | ReplayDelivery(delivery: nat, now: int)
    | Retain(now: int, deliveryDays: int, eventDays: int)

  const Init: System := System(Db(map[], map[], map[], map[]), [], [], {}, {})

  /** What the environment guarantees: new ids and lease tokens were never used,
      a publication makes one delivery per recipient, jitter lies in [0, 1). */
  ghost predicate Enabled(s: System, step: Step) {
    match step
    case AddTarget(t, _) => t !in s.db.targets
    case SetTargetStatus(t, _, _) => t in s.db.targets
    case Publish(e, now, ids) =>
      && e !in s.db.events
      && ids.Keys !! s.usedIds
      && ids.Values == Recipients(s.db, now)
      && (forall a, b :: a in ids && b in ids && a != b ==> ids[a] != ids[b])
    case ClaimBatch(_, _, limit, token, _) => limit > 0 && token !in s.usedTokens
    case Settle(i, w) => i < |s.claims| && 0.0 <= w.jitter < 1.0
    case ReplayDelivery(_, _) => true
    case Retain(_, dd, ed) => dd > 0 && ed > 0
  }

  function AfterClaimBatch(s: System, now: int, lease: int, limit: nat, token: nat, locked: set<nat>): System {
    var ids := Candidates(s.db, now, limit, locked);
    var db := AfterClaim(s.db, ids, now, lease, token);
    CandidatesAreClaimable(s.db, now, limit, locked);
    ClaimedRowsAreJoined(s.db, ids, now, lease, token);
    WithClaims(s, db, ids, token)
  }

  function WithClaims(s: System, db: Db, ids: seq<nat>, token: nat): System
    requires forall id :: id in ids ==> id in s.db.deliveries && Joined(db, id)
  {
    System(db, s.claims + ClaimsOf(db, ids, token),
           s.log + [Batch(TakenOver(s.db, set d | d in ids))], s.usedIds, s.usedTokens + {token})
  }

  function TakenOver(db: Db, ids: set<nat>): set<nat> {
    set d | d in ids && d in db.deliveries && db.deliveries[d].status == Delivering
  }

  function Next(s: System, step: Step): System {
    match step
    case AddTarget(t, now) => s.(db := s.db.(targets := s.db.targets[t := Target(true, 0, None, now)]))
    case SetTargetStatus(t, active, now) =>
      if t in s.db.targets
      then s.(db := s.db.(targets := s.db.targets[t := s.db.targets[t].(active := active, updatedAt := now)]))
      else s
    case Publish(e, now, ids) => s.(db := AfterEnqueue(s.db, e, now, ids), usedIds := s.usedIds + ids.Keys)
    case ClaimBatch(now, lease, limit, token, locked) => AfterClaimBatch(s, now, lease, limit, token, locked)
    case Settle(i, w) =>
      if i >= |s.claims| then s
      else
        var c := s.claims[i];
        (match AfterWork(s.db, c, w)
         case Ok(db) => s.(db := db, log := s.log + [Settled(i, c.id, c.targetId, !Success(w.attempt))])
         case Err(_) => s)
    case ReplayDelivery(d, now) =>
      (match AfterReplay(s.db, d, now)
       case Ok(db) => s.(db := db, log := s.log + [Replayed(d)])
       case Err(_) => s)
    case Retain(now, dd, ed) => s.(db := AfterRetention(s.db, now, dd, ed))
  }

  ghost predicate Execution(states: seq<System>, steps: seq<Step>) {
    && |states| == |steps| + 1
    && states[0] == Init
    && forall k :: 0 <= k < |steps| ==> Enabled(states[k], steps[k]) && states[k + 1] == Next(states[k], steps[k])
  }

  // ----- Reading the history -----

  ghost predicate IsSettled(log: seq<Entry>, claim: nat) {
    exists k :: 0 <= k < |log| && log[k].Settled? && log[k].claim == claim
  }

  /** No later claim took the delivery over. */
  ghost predicate Latest(claims: seq<Claim>, i: nat)
    requires i < |claims|
  {
    forall j :: i < j < |claims| ==> claims[j].id != claims[i].id
  }

  function FailuresThen(n: nat, e: Entry, d: nat): nat {
    match e
    case Settled(_, delivery, _, failed) => if delivery == d && failed then n + 1 else n
    case Replayed(delivery) => if delivery == d then 0 else n
    case Batch(_) => n
  }

  /** Settled failures of a delivery since it was published or last replayed. */
  function Failures(log: seq<Entry>, d: nat): nat {
    if log == [] then 0 else FailuresThen(Failures(log[..|log| - 1], d), log[|log| - 1], d)
  }

  function TakeoversThen(n: nat, e: Entry, d: nat): nat {
    match e
    case Batch(takenOver) => if d in takenOver then n + 1 else n
    case Replayed(delivery) => if delivery == d then 0 else n
    case Settled(_, _, _, _) => n
  }

  /** Times its lease was taken over in the same period. */
  function Takeovers(log: seq<Entry>, d: nat): nat {
    if log == [] then 0 else TakeoversThen(Takeovers(log[..|log| - 1], d), log[|log| - 1], d)
  }

  function StreakThen(n: nat, e: Entry, t: nat): nat {
    match e
    case Settled(_, _, target, failed) => if target != t then n else if failed then n + 1 else 0
    case _ => n
  }

  /** Settled failures of a target since its last settled success. */
  function Streak(log: seq<Entry>, t: nat): nat {
    if log == [] then 0 else StreakThen(Streak(log[..|log| - 1], t), log[|log| - 1], t)
  }

  // ----- The invariant -----

  /** Foreign keys: no dead letter outlives its delivery, no delivery its event or target. */
  ghost predicate References(s: System) {
    && (forall d :: d in s.db.deliveries ==>
          && d in s.usedIds
          && s.db.deliveries[d].targetId in s.db.targets
          && s.db.deliveries[d].eventId in s.db.events)
    && (forall d :: d in s.db.deadLetters ==> d in s.db.deliveries)
  }

  /** What each status says about the rest of the row. */
  predicate RowShape(d: Delivery, hasDeadLetter: bool) {
    && (d.status == Delivering <==> d.leaseToken.Some?)
    && (d.status == Delivering <==> d.leaseExpiresAt.Some?)
    && (d.status == Delivering ==> d.attempts >= 1)
    && (d.status == Pending ==> d.attempts == 0)
    && (d.status == Retry ==> 1 <= d.attempts < MAX_ATTEMPTS)
    && (d.status == Delivered ==> d.deliveredAt.Some? && d.attempts >= 1)
    && (d.status == DeadLetter ==> hasDeadLetter && d.attempts >= 1)
  }

  ghost predicate Shapes(s: System) {
    forall d :: d in s.db.deliveries ==> RowShape(s.db.deliveries[d], d in s.db.deadLetters)
  }

  ghost predicate Owner(s: System, d: nat, i: nat) {
    && d in s.db.deliveries
    && i < |s.claims| && s.claims[i].id == d
    && s.db.deliveries[d].leaseToken == Some(s.claims[i].token)
    && s.claims[i].attempts == s.db.deliveries[d].attempts
    && s.claims[i].targetId == s.db.deliveries[d].targetId
  }

  /** A claim can be settled exactly when nobody took its delivery over and it
      was not settled before; every leased row belongs to such a claim. */
  ghost predicate Leases(s: System) {
    && (forall i :: 0 <= i < |s.claims| ==>
          && s.claims[i].token in s.usedTokens && s.claims[i].id in s.usedIds
          && s.claims[i].targetId in s.db.targets && s.claims[i].attempts >= 1)
    && (forall i, j :: 0 <= i < j < |s.claims| && s.claims[i].id == s.claims[j].id ==>
          s.claims[i].token != s.claims[j].token)
    && (forall i :: 0 <= i < |s.claims| ==>
          (Holds(s.db, s.claims[i]) <==> Latest(s.claims, i) && !IsSettled(s.log, i)))
    && (forall d :: d in s.db.deliveries && s.db.deliveries[d].leaseToken.Some? ==>
          exists i :: Owner(s, d, i))
  }

  ghost predicate SettledOnce(s: System) {
    && (forall k :: 0 <= k < |s.log| && s.log[k].Settled? ==> s.log[k].claim < |s.claims|)
    && (forall k, m :: 0 <= k < m < |s.log| && s.log[k].Settled? && s.log[m].Settled? ==>
          s.log[k].claim != s.log[m].claim)
  }

  /** The target's failure counter is the number of settled failures since its
      last settled success. */
  ghost predicate Counters(s: System) {
    && (forall t :: t in s.db.targets ==> s.db.targets[t].consecutiveFailures == Streak(s.log, t))
    && (forall t :: t !in s.db.targets ==> Streak(s.log, t) == 0)
  }

  /** Attempts are settled failures and takeovers, plus the attempt under way or
      the successful one. */
  predicate AttemptsAccounted(d: Delivery, failures: nat, takeovers: nat) {
    match d.status
    case Pending => failures == 0 && takeovers == 0
    case Retry => d.attempts == failures + takeovers
    case Delivering => d.attempts == failures + takeovers + 1 && failures < MAX_ATTEMPTS
    case Delivered => d.attempts == failures + takeovers + 1 && failures < MAX_ATTEMPTS
    case DeadLetter => d.attempts == failures + takeovers && failures <= MAX_ATTEMPTS
  }

  ghost predicate Attempts(s: System) {
    && (forall d :: d in s.db.deliveries ==>
          AttemptsAccounted(s.db.deliveries[d], Failures(s.log, d), Takeovers(s.log, d)))
    && (forall d :: d !in s.usedIds ==> Failures(s.log, d) == 0 && Takeovers(s.log, d) == 0)
  }

  ghost predicate Inv(s: System) {
    References(s) && Shapes(s) && Leases(s) && SettledOnce(s) && Counters(s) && Attempts(s)
  }

  // ----- Steps keep the invariant -----

  lemma Appended(log: seq<Entry>, e: Entry)
    ensures (log + [e])[..|log|] == log && (log + [e])[|log|] == e
    ensures forall i :: IsSettled(log + [e], i) <==> IsSettled(log, i) || (e.Settled? && e.claim == i)
  {
    forall i ensures IsSettled(log + [e], i) <==> IsSettled(log, i) || (e.Settled? && e.claim == i) {
      if IsSettled(log, i) {
        var k :| 0 <= k < |log| && log[k].Settled? && log[k].claim == i;
        assert (log + [e])[k] == log[k];
      }
      if e.Settled? && e.claim == i {
        assert (log + [e])[|log|].claim == i;
      }
    }
  }

  /** Two claims that hold the same row are the same claim. */
  lemma OneHolder(s: System, i: nat, j: nat)
    requires Leases(s) && i < |s.claims| && j < |s.claims|
    requires s.claims[i].id == s.claims[j].id && s.claims[i].token == s.claims[j].token
    ensures i == j
  {
  }

  lemma HolderOwns(s: System, i: nat)
    requires Inv(s) && i < |s.claims| && Holds(s.db, s.claims[i])
    ensures Owner(s, s.claims[i].id, i)
  {
    var d := s.claims[i].id;
    var o :| Owner(s, d, o);
    OneHolder(s, i, o);
  }

  lemma TargetStepKeepsInv(s: System, step: Step)
    requires Inv(s) && Enabled(s, step)
    requires step.AddTarget? || step.SetTargetStatus?
    ensures Inv(Next(s, step))
  {
    var n := Next(s, step);
    assert forall i :: 0 <= i < |s.claims| ==> Holds(n.db, s.claims[i]) == Holds(s.db, s.claims[i]);
    assert forall d, i :: d in s.db.deliveries ==> Owner(n, d, i) == Owner(s, d, i);
  }

  lemma PublishKeepsLeases(s: System, step: Step)
    requires Inv(s) && Enabled(s, step) && step.Publish?
    ensures Leases(Next(s, step))
  {
    var n := Next(s, step);
    assert forall i :: 0 <= i < |s.claims| ==> s.claims[i].id !in step.ids;
    assert forall i :: 0 <= i < |s.claims| ==> Holds(n.db, s.claims[i]) == Holds(s.db, s.claims[i]);
    assert forall d, i :: Owner(s, d, i) ==> Owner(n, d, i);
  }

  lemma PublishKeepsInv(s: System, step: Step)
    requires Inv(s) && Enabled(s, step) && step.Publish?
    ensures Inv(Next(s, step))
  {
    PublishKeepsLeases(s, step);
    forall d | d in step.ids ensures step.ids[d] in s.db.targets {
      assert step.ids[d] in step.ids.Values;
    }
  }

  lemma RetainKeepsInv(s: System, step: Step)
    requires Inv(s) && Enabled(s, step) && step.Retain?
    ensures Inv(Next(s, step))
  {
    RetainKeepsTables(s, step);
    RetainKeepsLeases(s, step);
    hide References;
    hide Shapes;
    hide Leases;
  }

  lemma RetainKeepsTables(s: System, step: Step)
    requires References(s) && Shapes(s) && step.Retain?
    ensures References(Next(s, step)) && Shapes(Next(s, step))
  {
    var n := Next(s, step);
    forall d | d in n.db.deliveries ensures n.db.deliveries[d].eventId in n.db.events {
      assert !Orphan(n.db.deliveries, n.db.deliveries[d].eventId);
    }
    hide Orphan;
  }

  lemma RetainKeepsLeases(s: System, step: Step)
    requires Leases(s) && step.Retain?
    ensures Leases(Next(s, step))
  {
    var n := Next(s, step);
    assert forall d :: d in n.db.deliveries ==> d in s.db.deliveries && n.db.deliveries[d] == s.db.deliveries[d];
    assert forall i :: 0 <= i < |s.claims| ==> Holds(n.db, s.claims[i]) == Holds(s.db, s.claims[i]);
    assert forall d, i :: d in n.db.deliveries ==> Owner(n, d, i) == Owner(s, d, i);
    hide KeptDeadLetters;
    hide KeptEvents;
  }

  /** How one entry changes the counts. */
  lemma CountsAppended(log: seq<Entry>, e: Entry)
    ensures forall d :: Failures(log + [e], d) == FailuresThen(Failures(log, d), e, d)
    ensures forall d :: Takeovers(log + [e], d) == TakeoversThen(Takeovers(log, d), e, d)
    ensures forall t :: Streak(log + [e], t) == StreakThen(Streak(log, t), e, t)
  {
    assert (log + [e])[..|log|] == log;
  }

  lemma ReplayKeepsLeases(s: System, d: nat, now: int)
    requires Inv(s) && AfterReplay(s.db, d, now).Ok?
    ensures Leases(Next(s, ReplayDelivery(d, now))) && SettledOnce(Next(s, ReplayDelivery(d, now)))
  {
    var n := Next(s, ReplayDelivery(d, now));
    Appended(s.log, Replayed(d));
    assert forall i :: 0 <= i < |s.claims| ==> Holds(n.db, s.claims[i]) == Holds(s.db, s.claims[i]);
    assert forall r, i :: r in s.db.deliveries && Owner(s, r, i) ==> r != d && Owner(n, r, i);
  }

  lemma ReplayKeepsTables(s: System, d: nat, now: int)
    requires Inv(s) && AfterReplay(s.db, d, now).Ok?
    ensures References(Next(s, ReplayDelivery(d, now))) && Shapes(Next(s, ReplayDelivery(d, now)))
  {
  }

  lemma ReplayKeepsCounts(s: System, d: nat, now: int)
    requires Inv(s) && AfterReplay(s.db, d, now).Ok?
    ensures Counters(Next(s, ReplayDelivery(d, now))) && Attempts(Next(s, ReplayDelivery(d, now)))
  {
    CountsAppended(s.log, Replayed(d));
  }

  lemma ReplayKeepsInv(s: System, step: Step)
    requires Inv(s) && Enabled(s, step) && step.ReplayDelivery?
    ensures Inv(Next(s, step))
  {
    if AfterReplay(s.db, step.delivery, step.now).Ok? {
      ReplayKeepsLeases(s, step.delivery, step.now);
      ReplayKeepsTables(s, step.delivery, step.now);
      ReplayKeepsCounts(s, step.delivery, step.now);
    }
  }

  // ----- Settling -----

  /** What settling claim i leaves behind, all other rows staying as they were. */
  ghost predicate SettlesTo(s: System, i: nat, w: Work, n: System)
    requires i < |s.claims| && s.claims[i].id in s.db.deliveries && s.claims[i].targetId in s.db.targets
  {
    var c := s.claims[i];
    && n.claims == s.claims && n.usedIds == s.usedIds && n.usedTokens == s.usedTokens
    && n.log == s.log + [Settled(i, c.id, c.targetId, !Success(w.attempt))]
    && n.db.events == s.db.events
    && n.db.deliveries.Keys == s.db.deliveries.Keys
    && (forall d :: d in s.db.deliveries && d != c.id ==> n.db.deliveries[d] == s.db.deliveries[d])
    && SettledRow(c, w, s.db.deliveries[c.id], n.db.deliveries[c.id])
    && n.db.deadLetters.Keys == s.db.deadLetters.Keys
         + (if !Success(w.attempt) && IsDead(c, w.attempt) then {c.id} else {})
    && n.db.targets.Keys == s.db.targets.Keys
    && (forall t :: t in s.db.targets && t != c.targetId ==> n.db.targets[t] == s.db.targets[t])
    && n.db.targets[c.targetId].consecutiveFailures ==
         (if Success(w.attempt) then 0 else s.db.targets[c.targetId].consecutiveFailures + 1)
  }

  predicate SettledRow(c: Claim, w: Work, before: Delivery, after: Delivery) {
    && after.leaseToken.None? && after.leaseExpiresAt.None?
    && after.attempts == before.attempts
    && after.targetId == before.targetId && after.eventId == before.eventId
    && after.status == (if Success(w.attempt) then Delivered else if IsDead(c, w.attempt) then DeadLetter else Retry)
    && (Success(w.attempt) ==> after.deliveredAt.Some?)
  }

  lemma SettleStep(s: System, i: nat, w: Work)
    requires Inv(s) && i < |s.claims| && Holds(s.db, s.claims[i])
    ensures s.claims[i].targetId in s.db.targets
    ensures SettlesTo(s, i, w, Next(s, Settle(i, w)))
  {
  }

  lemma SettleKeepsLeases(s: System, i: nat, w: Work, n: System)
    requires Leases(s) && i < |s.claims| && Holds(s.db, s.claims[i])
    requires s.claims[i].targetId in s.db.targets && SettlesTo(s, i, w, n)
    ensures Leases(n)
  {
    var c := s.claims[i];
    Appended(s.log, Settled(i, c.id, c.targetId, !Success(w.attempt)));
    assert Latest(s.claims, i) && !IsSettled(s.log, i);
    forall j | 0 <= j < |s.claims|
      ensures Holds(n.db, s.claims[j]) <==> Latest(s.claims, j) && !IsSettled(n.log, j)
    {
      if s.claims[j].id == c.id && j < i {
        assert !Latest(s.claims, j);
      }
      assert s.claims[j].id != c.id ==> Holds(n.db, s.claims[j]) == Holds(s.db, s.claims[j]);
    }
    forall d | d in n.db.deliveries && n.db.deliveries[d].leaseToken.Some?
      ensures exists j :: Owner(n, d, j)
    {
      var j :| Owner(s, d, j);
      assert Owner(n, d, j);
    }
  }

  lemma SettleIsOnce(s: System, i: nat, w: Work, n: System)
    requires Leases(s) && SettledOnce(s) && i < |s.claims| && Holds(s.db, s.claims[i])
    requires s.claims[i].targetId in s.db.targets && SettlesTo(s, i, w, n)
    ensures SettledOnce(n)
  {
    assert !IsSettled(s.log, i);
  }

  lemma SettleKeepsCounts(s: System, i: nat, w: Work, n: System)
    requires Inv(s) && i < |s.claims| && Holds(s.db, s.claims[i]) && SettlesTo(s, i, w, n)
    ensures Counters(n) && Attempts(n)
  {
    var c := s.claims[i];
    HolderOwns(s, i);
    CountsAppended(s.log, Settled(i, c.id, c.targetId, !Success(w.attempt)));
    assert AttemptsAccounted(n.db.deliveries[c.id], Failures(n.log, c.id), Takeovers(n.log, c.id));
  }

  lemma SettleKeepsTables(s: System, i: nat, w: Work, n: System)
    requires References(s) && Shapes(s)
    requires i < |s.claims| && Owner(s, s.claims[i].id, i) && Holds(s.db, s.claims[i]) && SettlesTo(s, i, w, n)
    ensures References(n) && Shapes(n)
  {
    var c := s.claims[i];
    assert RowShape(n.db.deliveries[c.id], c.id in n.db.deadLetters);
  }

  lemma SettleKeepsInv(s: System, step: Step)
    requires Inv(s) && Enabled(s, step) && step.Settle?
    ensures Inv(Next(s, step))
  {
    var i, w, n := step.claim, step.work, Next(s, step);
    if Holds(s.db, s.claims[i]) {
      SettleStep(s, i, w);
      HolderOwns(s, i);
      SettleKeepsTables(s, i, w, n);
      SettleIsOnce(s, i, w, n);
      SettleKeepsLeases(s, i, w, n);
      SettleKeepsCounts(s, i, w, n);
    } else {
      assert n == s;
    }
  }

  // ----- Claiming -----

  /** What a claim leaves behind: the rows in `ids` leased under `token`, and one
      new claim for each, in the order `byId`. */
  ghost predicate ClaimsTo(s: System, ids: set<nat>, byId: seq<nat>, token: nat, n: System) {
    && n.usedIds == s.usedIds && n.usedTokens == s.usedTokens + {token}
    && Lists(byId, ids)
    && RowsLeased(s.db, ids, token, n.db)
    && ClaimsAdded(s.claims, byId, token, n)
    && n.log == s.log + [Batch(TakenOver(s.db, ids))]
  }

  ghost predicate Lists(byId: seq<nat>, ids: set<nat>) {
    && (forall k :: 0 <= k < |byId| ==> byId[k] in ids)
    && (forall d :: d in ids ==> d in byId)
    && (forall k, m :: 0 <= k < m < |byId| ==> byId[k] != byId[m])
  }

  ghost predicate RowsLeased(before: Db, ids: set<nat>, token: nat, after: Db) {
    && after.targets == before.targets && after.events == before.events && after.deadLetters == before.deadLetters
    && after.deliveries.Keys == before.deliveries.Keys
    && (forall d :: d in before.deliveries && d !in ids ==> after.deliveries[d] == before.deliveries[d])
    && (forall d :: d in ids ==> d in before.deliveries && LeasedRow(before.deliveries[d], after.deliveries[d], token))
  }

  ghost predicate ClaimsAdded(claims: seq<Claim>, byId: seq<nat>, token: nat, n: System) {
    && |n.claims| == |claims| + |byId| && claims <= n.claims
    && (forall k :: 0 <= k < |byId| ==> NewClaim(n.claims[|claims| + k], byId[k], token, n.db))
  }

  predicate LeasedRow(before: Delivery, after: Delivery, token: nat) {
    && before.status in {Pending, Retry, Delivering}
    && after.status == Delivering && after.leaseToken == Some(token) && after.leaseExpiresAt.Some?
    && after.attempts == before.attempts + 1
    && after.targetId == before.targetId && after.eventId == before.eventId
  }

  predicate NewClaim(c: Claim, d: nat, token: nat, db: Db) {
    && c.id == d && c.token == token
    && d in db.deliveries && c.attempts == db.deliveries[d].attempts && c.targetId == db.deliveries[d].targetId
  }

  lemma LeaseStep(db: Db, chosen: seq<nat>, now: int, lease: int, token: nat)
    requires forall id :: id in chosen ==> id in db.deliveries && Claimable(db, id, now)
    ensures RowsLeased(db, (set d | d in chosen), token, AfterClaim(db, chosen, now, lease, token))
  {
  }

  lemma ScanStep(claims: seq<Claim>, byId: seq<nat>, token: nat, n: System)
    requires forall id :: id in byId ==> Joined(n.db, id)
    requires n.claims == claims + ScanClaims(n.db, byId, token)
    ensures ClaimsAdded(claims, byId, token, n)
  {
    var added := ScanClaims(n.db, byId, token);
    forall k | 0 <= k < |byId| ensures NewClaim(n.claims[|claims| + k], byId[k], token, n.db) {
      assert byId[k] in byId;
      assert n.claims[|claims| + k] == added[k];
    }
  }

  lemma ClaimStep(s: System, chosen: seq<nat>, now: int, lease: int, token: nat)
    requires forall id :: id in chosen ==> id in s.db.deliveries && Claimable(s.db, id, now)
    requires forall id :: id in chosen ==> Joined(AfterClaim(s.db, chosen, now, lease, token), id)
    ensures ClaimsTo(s, (set d | d in chosen), ById(chosen), token,
                     WithClaims(s, AfterClaim(s.db, chosen, now, lease, token), chosen, token))
  {
    hide AfterClaim;
    hide ScanClaims;
    hide RowsLeased;
    hide ClaimsAdded;
    hide ById;
    hide Joined;
    hide Claimable;
    var db := AfterClaim(s.db, chosen, now, lease, token);
    var n := WithClaims(s, db, chosen, token);
    ByIdHasNoRepeats(chosen);
    LeaseStep(s.db, chosen, now, lease, token);
    ScanStep(s.claims, ById(chosen), token, n);
  }

  lemma ClaimKeepsTables(s: System, ids: set<nat>, byId: seq<nat>, token: nat, n: System)
    requires References(s) && Shapes(s) && ClaimsTo(s, ids, byId, token, n)
    ensures References(n) && Shapes(n)
  {
    forall d | d in n.db.deliveries
      ensures RowShape(n.db.deliveries[d], d in n.db.deadLetters)
    {
      if d in ids {
        assert LeasedRow(s.db.deliveries[d], n.db.deliveries[d], token);
      }
    }
  }

  lemma ClaimKeepsCounts(s: System, ids: set<nat>, byId: seq<nat>, token: nat, n: System)
    requires References(s) && Shapes(s) && Counters(s) && Attempts(s) && ClaimsTo(s, ids, byId, token, n)
    ensures Counters(n) && Attempts(n)
  {
    CountsAppended(s.log, n.log[|s.log|]);
    forall d | d in n.db.deliveries
      ensures AttemptsAccounted(n.db.deliveries[d], Failures(n.log, d), Takeovers(n.log, d))
    {
      if d in ids {
        assert LeasedRow(s.db.deliveries[d], n.db.deliveries[d], token);
      }
    }
  }

  /** A new claim ends every older claim on the same delivery. */
  lemma RetakenClaimEnds(s: System, ids: set<nat>, byId: seq<nat>, token: nat, n: System, i: nat)
    requires Leases(s) && token !in s.usedTokens && ClaimsTo(s, ids, byId, token, n)
    requires i < |s.claims| && s.claims[i].id in ids
    ensures !Holds(n.db, n.claims[i]) && !Latest(n.claims, i)
  {
    var d := s.claims[i].id;
    assert n.claims[i] == s.claims[i];
    var k :| 0 <= k < |byId| && byId[k] == d;
    assert NewClaim(n.claims[|s.claims| + k], d, token, n.db);
    assert LeasedRow(s.db.deliveries[d], n.db.deliveries[d], token);
  }

  lemma OtherClaimStays(s: System, ids: set<nat>, byId: seq<nat>, token: nat, n: System, i: nat)
    requires Leases(s) && token !in s.usedTokens && ClaimsTo(s, ids, byId, token, n)
    requires i < |s.claims| && s.claims[i].id !in ids
    ensures Holds(n.db, n.claims[i]) <==> Holds(s.db, s.claims[i])
    ensures Latest(n.claims, i) <==> Latest(s.claims, i)
  {
    var d := s.claims[i].id;
    assert n.claims[i] == s.claims[i];
    forall j | |s.claims| <= j < |n.claims| ensures n.claims[j].id != d {
      assert NewClaim(n.claims[|s.claims| + (j - |s.claims|)], byId[j - |s.claims|], token, n.db);
    }
    assert forall j :: i < j < |s.claims| ==> n.claims[j] == s.claims[j];
  }

  lemma OldClaimAfterBatch(s: System, ids: set<nat>, byId: seq<nat>, token: nat, n: System, i: nat)
    requires Leases(s) && token !in s.usedTokens && ClaimsTo(s, ids, byId, token, n)
    requires i < |s.claims|
    ensures Holds(n.db, n.claims[i]) <==> Latest(n.claims, i) && !IsSettled(n.log, i)
  {
    hide Holds;
    hide Latest;
    hide ClaimsTo;
    if s.claims[i].id in ids {
      RetakenClaimEnds(s, ids, byId, token, n, i);
    } else {
      OtherClaimStays(s, ids, byId, token, n, i);
      ClaimLogs(s, ids, byId, token, n);
      Appended(s.log, Batch(TakenOver(s.db, ids)));
    }
  }

  lemma ClaimLogs(s: System, ids: set<nat>, byId: seq<nat>, token: nat, n: System)
    requires ClaimsTo(s, ids, byId, token, n)
    ensures n.log == s.log + [Batch(TakenOver(s.db, ids))]
  {
  }

  lemma NewClaimAfterBatch(s: System, ids: set<nat>, byId: seq<nat>, token: nat, n: System, k: nat)
    requires SettledOnce(s) && ClaimsTo(s, ids, byId, token, n)
    requires k < |byId|
    ensures var i := |s.claims| + k;
      Holds(n.db, n.claims[i]) && Latest(n.claims, i) && !IsSettled(n.log, i)
  {
    Appended(s.log, Batch(TakenOver(s.db, ids)));
    var i := |s.claims| + k;
    assert NewClaim(n.claims[i], byId[k], token, n.db);
    assert LeasedRow(s.db.deliveries[byId[k]], n.db.deliveries[byId[k]], token);
    forall j | i < j < |n.claims| ensures n.claims[j].id != byId[k] {
      assert NewClaim(n.claims[|s.claims| + (j - |s.claims|)], byId[j - |s.claims|], token, n.db);
    }
  }

  lemma ClaimMovesLeases(s: System, ids: set<nat>, byId: seq<nat>, token: nat, n: System, i: nat)
    requires Leases(s) && SettledOnce(s) && token !in s.usedTokens && ClaimsTo(s, ids, byId, token, n)
    requires i < |n.claims|
    ensures Holds(n.db, n.claims[i]) <==> Latest(n.claims, i) && !IsSettled(n.log, i)
  {
    if i < |s.claims| {
      OldClaimAfterBatch(s, ids, byId, token, n, i);
    } else {
      NewClaimAfterBatch(s, ids, byId, token, n, i - |s.claims|);
    }
  }

  lemma ClaimsAreKnown(s: System, ids: set<nat>, byId: seq<nat>, token: nat, n: System, i: nat)
    requires References(s) && Shapes(s) && Leases(s) && ClaimsTo(s, ids, byId, token, n) && i < |n.claims|
    ensures n.claims[i].token in n.usedTokens && n.claims[i].id in n.usedIds
    ensures n.claims[i].targetId in n.db.targets && n.claims[i].attempts >= 1
  {
    if i < |s.claims| {
      assert n.claims[i] == s.claims[i];
    } else {
      var d := byId[i - |s.claims|];
      assert NewClaim(n.claims[i], d, token, n.db);
      assert LeasedRow(s.db.deliveries[d], n.db.deliveries[d], token);
    }
  }

  lemma ClaimsStayDistinct(s: System, ids: set<nat>, byId: seq<nat>, token: nat, n: System, i: nat, j: nat)
    requires Leases(s) && token !in s.usedTokens && ClaimsTo(s, ids, byId, token, n)
    requires i < j < |n.claims|
    ensures n.claims[i].id == n.claims[j].id ==> n.claims[i].token != n.claims[j].token
  {
    if j < |s.claims| {
      assert n.claims[i] == s.claims[i] && n.claims[j] == s.claims[j];
    } else {
      assert NewClaim(n.claims[j], byId[j - |s.claims|], token, n.db);
      if i < |s.claims| {
        assert n.claims[i] == s.claims[i];
      } else {
        assert NewClaim(n.claims[i], byId[i - |s.claims|], token, n.db);
        assert byId[i - |s.claims|] != byId[j - |s.claims|];
      }
    }
  }

  lemma NewClaimOwns(s: System, ids: set<nat>, byId: seq<nat>, token: nat, n: System, k: nat)
    requires ClaimsTo(s, ids, byId, token, n) && k < |byId|
    ensures Owner(n, byId[k], |s.claims| + k)
  {
    assert NewClaim(n.claims[|s.claims| + k], byId[k], token, n.db);
    assert LeasedRow(s.db.deliveries[byId[k]], n.db.deliveries[byId[k]], token);
  }

  lemma OldOwnerStays(s: System, ids: set<nat>, byId: seq<nat>, token: nat, n: System, d: nat, i: nat)
    requires ClaimsTo(s, ids, byId, token, n) && Owner(s, d, i) && d !in ids
    ensures Owner(n, d, i)
  {
    assert n.claims[i] == s.claims[i];
  }

  lemma ClaimKeepsOwners(s: System, ids: set<nat>, byId: seq<nat>, token: nat, n: System, d: nat)
    requires Leases(s) && ClaimsTo(s, ids, byId, token, n)
    requires d in n.db.deliveries && n.db.deliveries[d].leaseToken.Some?
    ensures exists i :: Owner(n, d, i)
  {
    if d in ids {
      var k :| 0 <= k < |byId| && byId[k] == d;
      NewClaimOwns(s, ids, byId, token, n, k);
    } else {
      var i :| Owner(s, d, i);
      OldOwnerStays(s, ids, byId, token, n, d, i);
    }
  }

  lemma ClaimKeepsLeases(s: System, ids: set<nat>, byId: seq<nat>, token: nat, n: System)
    requires References(s) && Shapes(s) && Leases(s) && SettledOnce(s)
    requires token !in s.usedTokens && ClaimsTo(s, ids, byId, token, n)
    ensures Leases(n)
  {
    forall i | 0 <= i < |n.claims|
      ensures Holds(n.db, n.claims[i]) <==> Latest(n.claims, i) && !IsSettled(n.log, i)
      ensures n.claims[i].token in n.usedTokens && n.claims[i].id in n.usedIds
      ensures n.claims[i].targetId in n.db.targets && n.claims[i].attempts >= 1
    {
      ClaimMovesLeases(s, ids, byId, token, n, i);
      ClaimsAreKnown(s, ids, byId, token, n, i);
    }
    forall i, j | 0 <= i < j < |n.claims|
      ensures n.claims[i].id == n.claims[j].id ==> n.claims[i].token != n.claims[j].token
    {
      ClaimsStayDistinct(s, ids, byId, token, n, i, j);
    }
    forall d | d in n.db.deliveries && n.db.deliveries[d].leaseToken.Some?
      ensures exists i :: Owner(n, d, i)
    {
      ClaimKeepsOwners(s, ids, byId, token, n, d);
    }
  }

  lemma ClaimKeepsInv(s: System, step: Step)
    requires Inv(s) && Enabled(s, step) && step.ClaimBatch?
    ensures Inv(Next(s, step))
  {
    var chosen := Candidates(s.db, step.now, step.limit, step.locked);
    CandidatesAreClaimable(s.db, step.now, step.limit, step.locked);
    ClaimedRowsAreJoined(s.db, chosen, step.now, step.lease, step.token);
    var n := Next(s, step);
    ClaimStep(s, chosen, step.now, step.lease, step.token);
    var ids := set d | d in chosen;
    ClaimKeepsTables(s, ids, ById(chosen), step.token, n);
    ClaimKeepsCounts(s, ids, ById(chosen), step.token, n);
    ClaimKeepsLeases(s, ids, ById(chosen), step.token, n);
    ClaimSettlesNothing(s, ids, ById(chosen), step.token, n);
  }

  lemma ClaimSettlesNothing(s: System, ids: set<nat>, byId: seq<nat>, token: nat, n: System)
    requires SettledOnce(s) && ClaimsTo(s, ids, byId, token, n)
    ensures SettledOnce(n)
  {
  }

  // ----- Results over every run -----

  lemma {:induction false} EveryRunKeepsInv(states: seq<System>, steps: seq<Step>, k: nat)
    requires Execution(states, steps) && k <= |steps|
    ensures Inv(states[k])
  {
    if k > 0 {
      EveryRunKeepsInv(states, steps, k - 1);
      var s, step := states[k - 1], steps[k - 1];
      match step {
        case AddTarget(_, _) => TargetStepKeepsInv(s, step);
        case SetTargetStatus(_, _, _) => TargetStepKeepsInv(s, step);
        case Publish(_, _, _) => PublishKeepsInv(s, step);
        case ClaimBatch(_, _, _, _, _) => ClaimKeepsInv(s, step);
        case Settle(_, _) => SettleKeepsInv(s, step);
        case ReplayDelivery(_, _) => ReplayKeepsInv(s, step);
        case Retain(_, _, _) => RetainKeepsInv(s, step);
      }
    }
  }

  /** Lease safety: in every run each claim is settled at most once. */
  lemma EachClaimSettledOnce(states: seq<System>, steps: seq<Step>, k: nat)
    requires Execution(states, steps) && k <= |steps|
    ensures forall a, b :: 0 <= a < b < |states[k].log| && states[k].log[a].Settled? && states[k].log[b].Settled? ==>
      states[k].log[a].claim != states[k].log[b].claim
  {
    EveryRunKeepsInv(states, steps, k);
  }

  /** Lease safety: settling a claim has an effect exactly when it was not settled
      before and no later claim took the delivery over. */
  lemma SettlingWorksIff(states: seq<System>, steps: seq<Step>, k: nat, i: nat, w: Work)
    requires Execution(states, steps) && k <= |steps| && i < |states[k].claims|
    ensures Next(states[k], Settle(i, w)) != states[k]
      <==> Latest(states[k].claims, i) && !IsSettled(states[k].log, i)
  {
    EveryRunKeepsInv(states, steps, k);
    if Holds(states[k].db, states[k].claims[i]) {
      assert |Next(states[k], Settle(i, w)).log| == |states[k].log| + 1;
    }
  }

  /** A worker whose lease a later claim took over changes nothing any more: not
      the delivery, nor its target's counter, nor its dead letter. */
  lemma TakenOverClaimIsInert(states: seq<System>, steps: seq<Step>, k: nat, i: nat, j: nat, w: Work)
    requires Execution(states, steps) && k <= |steps|
    requires i < j < |states[k].claims| && states[k].claims[i].id == states[k].claims[j].id
    ensures Next(states[k], Settle(i, w)) == states[k]
    ensures states[k].claims[i].token != states[k].claims[j].token
  {
    EveryRunKeepsInv(states, steps, k);
    SettlingWorksIff(states, steps, k, i, w);
    assert !Latest(states[k].claims, i);
  }

  /** What every reachable row looks like, and the foreign keys that always hold. */
  lemma DeliveryStates(states: seq<System>, steps: seq<Step>, k: nat, d: nat)
    requires Execution(states, steps) && k <= |steps| && d in states[k].db.deliveries
    ensures
      var db := states[k].db;
      var row := db.deliveries[d];
      && (row.status == Delivering <==> row.leaseToken.Some? && row.leaseExpiresAt.Some?)
      && (row.leaseToken.Some? <==> row.leaseExpiresAt.Some?)
      && (row.status == Delivering ==> row.attempts >= 1)
      && (row.status == Pending ==> row.attempts == 0)
      && (row.status == Retry ==> 1 <= row.attempts <= 7)
      && (row.status == Delivered ==> row.deliveredAt.Some?)
      && (row.status == DeadLetter ==> d in db.deadLetters)
      && row.eventId in db.events && row.targetId in db.targets
      && db.deadLetters.Keys <= db.deliveries.Keys
  {
    EveryRunKeepsInv(states, steps, k);
  }

  /** A target's failure counter always equals its settled failures since its last
      settled success. */
  lemma FailureCounterIsStreak(states: seq<System>, steps: seq<Step>, k: nat, t: nat)
    requires Execution(states, steps) && k <= |steps| && t in states[k].db.targets
    ensures states[k].db.targets[t].consecutiveFailures == Streak(states[k].log, t)
  {
    EveryRunKeepsInv(states, steps, k);
  }

  /** Bounded retry: between replays no delivery fails more than eight times, eight
      failures leave it dead-lettered, and without takeovers it is attempted at
      most eight times. */
  lemma BoundedRetry(states: seq<System>, steps: seq<Step>, k: nat, d: nat)
    requires Execution(states, steps) && k <= |steps| && d in states[k].db.deliveries
    ensures
      var row := states[k].db.deliveries[d];
      var failures, takeovers := Failures(states[k].log, d), Takeovers(states[k].log, d);
      && failures <= 8
      && (failures == 8 ==> row.status == DeadLetter)
      && (row.status == Retry ==> failures + takeovers <= 7)
      && row.attempts <= failures + takeovers + 1
      && (takeovers == 0 ==> row.attempts <= 8)
  {
    EveryRunKeepsInv(states, steps, k);
  }

  /** The first settled failure at or past the eighth attempt dead-letters the
      delivery, however many crashes inflated the count. */
  lemma FailureAtLimitDeadLetters(states: seq<System>, steps: seq<Step>, k: nat, i: nat, w: Work)
    requires Execution(states, steps) && k <= |steps| && i < |states[k].claims|
    requires states[k].claims[i].attempts >= 8 && !Success(w.attempt)
    requires Next(states[k], Settle(i, w)) != states[k]
    ensures
      var c, after := states[k].claims[i], Next(states[k], Settle(i, w)).db;
      c.id in after.deliveries && after.deliveries[c.id].status == DeadLetter && c.id in after.deadLetters
  {
    EveryRunKeepsInv(states, steps, k);
    SettlingWorksIff(states, steps, k, i, w);
    SettleStep(states[k], i, w);
  }

  // ----- The reason kept by a dead letter -----

  ghost predicate RemembersReason(s: System, d: nat, reason: string) {
    && d in s.usedIds
    && (d in s.db.deliveries <==> d in s.db.deadLetters)
    && (d in s.db.deadLetters ==> s.db.deadLetters[d].reasonCode == reason)
  }

  lemma StepRemembersReason(s: System, step: Step, d: nat, reason: string)
    requires Inv(s) && Enabled(s, step) && RemembersReason(s, d, reason)
    ensures RemembersReason(Next(s, step), d, reason)
  {
    if step.ClaimBatch? {
      var chosen := Candidates(s.db, step.now, step.limit, step.locked);
      CandidatesAreClaimable(s.db, step.now, step.limit, step.locked);
      ClaimedRowsAreJoined(s.db, chosen, step.now, step.lease, step.token);
      LeaseStep(s.db, chosen, step.now, step.lease, step.token);
    } else if step.Settle? && Holds(s.db, s.claims[step.claim]) {
      SettleStep(s, step.claim, step.work);
    }
  }

  /** A dead letter keeps the reason of the first failure that created it, through
      replays and later failures, because the insert does nothing on conflict. */
  lemma {:induction false} DeadLetterKeepsFirstReason(states: seq<System>, steps: seq<Step>, k: nat, m: nat, d: nat)
    requires Execution(states, steps) && k <= m <= |steps| && d in states[k].db.deadLetters
    ensures RemembersReason(states[m], d, states[k].db.deadLetters[d].reasonCode)
    decreases m
  {
    if m == k {
      EveryRunKeepsInv(states, steps, k);
    } else {
      DeadLetterKeepsFirstReason(states, steps, k, m - 1, d);
      EveryRunKeepsInv(states, steps, m - 1);
      StepRemembersReason(states[m - 1], steps[m - 1], d, states[k].db.deadLetters[d].reasonCode);
    }
  }

  // ----- The worker loop is such a run -----

  /** Settling consecutive claims, starting with claim `first`. */
  function SettleEach(s: System, first: nat, work: seq<Work>): System
    decreases |work|
  {
    if work == [] || first >= |s.claims| then s
    else SettleEach(Next(s, Settle(first, work[0])), first + 1, work[1..])
  }

  /** What `Worker.Process` does to the tables is what the steps do, one by one. */
  lemma {:induction false} WorkerLoopIsARun(s: System, first: nat, work: seq<Work>)
    requires first <= |s.claims|
    ensures SettleEach(s, first, work).db == AfterAllWork(s.db, s.claims[first..], work)
    decreases |work|
  {
    if work != [] && first < |s.claims| {
      var n := Next(s, Settle(first, work[0]));
      assert s.claims[first..][1..] == s.claims[first + 1..] == n.claims[first + 1..];
      WorkerLoopIsARun(n, first + 1, work[1..]);
    }
  }
}
