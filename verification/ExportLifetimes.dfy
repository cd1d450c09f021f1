/** What becomes of an export job over time: who may download it, until when, and which
    job a worker takes. All of it in terms of the requests' own times. */
module ExportLifetimes {
  import opened Wrappers
  import opened Hashing
  import Sql
  import Text
  import Aead
  import opened Values
  import opened Export
  import opened ExportRuns

  // ----- Jobs are what was requested -----

  /** The row of a job that this request created: of its actor and key, and expiring a day
      after it. */
  predicate Requests(step: Step, id: nat, j: Job) {
    && step.Create? && step.id == id
    && j.kind == step.actor.kind && j.subject == step.actor.subject && j.key == step.key
    && j.filters == step.filters && j.format == step.format
    && j.fingerprint == Sha256(step.filters + ['\0'] + step.format)
    && j.createdAt == step.now && j.expiresAt == step.now + 86_400_000_000_000
  }

  lemma CreatedAsRequested(c: Aead.Cryptor, s: State, step: Step, id: nat)
    requires Aead.ValidCryptor(c) && Enabled(c, s, step) && id in Next(c, s, step).db.jobs && id !in s.db.jobs
    ensures Requests(step, id, Next(c, s, step).db.jobs[id])
  {
    SameKeysAfter(c, s, step);
    assert step.Create?;
    assert Next(c, s, step) == Created(s, step);
    CreateAddsOne(s, step);
    hide Next;
    hide Created;
    hide Existing;
    hide Enabled;
  }

  /** In every run every job is what some request asked for. */
  lemma {:induction false} JobIsAsRequested(c: Aead.Cryptor, states: seq<State>, steps: seq<Step>, i: nat, id: nat)
      returns (b: nat)
    requires Aead.ValidCryptor(c) && Execution(c, states, steps) && i < |states| && id in states[i].db.jobs
    ensures b < i && Requests(steps[b], id, states[i].db.jobs[id])
    decreases i
  {
    assert i > 0;
    var s, step := states[i - 1], steps[i - 1];
    assert Enabled(c, s, step) && states[i] == Next(c, s, step);
    hide Next;
    hide Enabled;
    if id in s.db.jobs {
      b := JobIsAsRequested(c, states, steps, i - 1, id);
      SameKeysAfter(c, s, step);
    } else {
      CreatedAsRequested(c, s, step, id);
      b := i - 1;
    }
  }

  /** The fingerprint tells requests apart: filters are JSON, without a zero character. */
  lemma SameRequestIff(j: Job, filters: string, format: string)
    requires j.fingerprint == Sha256(j.filters + ['\0'] + j.format) && '\0' !in j.filters && '\0' !in filters
    ensures j.fingerprint == Fingerprint(filters, format) <==> j.filters == filters && j.format == format
  {
    if j.fingerprint == Fingerprint(filters, format) {
      Text.SplitAtDelimiter(j.filters, filters, '\0', j.format, format);
    }
  }

  /** Retrying a request, under the requester's key, answers with its job exactly for the
      same filters and format, and adds nothing either way. */
  lemma RetryIsAnswered(c: Aead.Cryptor, states: seq<State>, steps: seq<Step>, i: nat, id: nat, filters: string,
      format: string, synchronous: bool, other: nat, now: int)
    requires Aead.ValidCryptor(c) && Execution(c, states, steps) && i < |states| && id in states[i].db.jobs
    requires '\0' !in states[i].db.jobs[id].filters && '\0' !in filters
    ensures var db, j := states[i].db, states[i].db.jobs[id];
      var answer := CreateAnswer(db.jobs, Actor(j.kind, j.subject), j.key, filters, format, synchronous, other);
      && AfterCreate(db, Actor(j.kind, j.subject), j.key, filters, format, synchronous, other, now) == db
      && (j.filters == filters && j.format == format ==> answer == Ok((id, synchronous && j.status == Processing)))
      && (j.filters != filters || j.format != format ==> answer == Err(IdempotencyMismatch))
  {
    var b := JobIsAsRequested(c, states, steps, i, id);
    RetryFindsItsJob(c, states, steps, i, id, filters, format, synchronous, other, now);
    SameRequestIff(states[i].db.jobs[id], filters, format);
    hide Execution;
    hide AfterCreate;
    hide CreateAnswer;
    hide Fingerprint;
  }

  /** A request under a new key makes one job, waiting for a worker or, when synchronous,
      in its requester's hands. */
  lemma NewKeyMakesAJob(c: Aead.Cryptor, s: State, step: Step)
    requires Aead.ValidCryptor(c) && Enabled(c, s, step) && step.Create?
    requires forall id :: id in s.db.jobs ==>
      !(s.db.jobs[id].kind == step.actor.kind && s.db.jobs[id].subject == step.actor.subject
        && s.db.jobs[id].key == step.key)
    ensures var n := Next(c, s, step);
      && n.db.jobs.Keys == s.db.jobs.Keys + {step.id} && Requests(step, step.id, n.db.jobs[step.id])
      && n.db.jobs[step.id].status == (if step.synchronous then Processing else Pending)
      && n.db.jobs[step.id].payload.None? && n.db.jobs[step.id].downloadedAt.None?
      && n.db.log == s.db.log + [Requested(step.id)]
      && n.processors == if step.synchronous then s.processors[step.processor := step.id] else s.processors
  {
    assert Existing(s.db.jobs, step.actor, step.key) == {};
    assert Sql.Ascending({}) == [];
    CreateCases(s, step);
    hide Created;
    hide Existing;
  }

  // ----- Downloads -----

  /** A download succeeds exactly for a ready job of the same actor, less than a day after
      its request; it releases the bytes that were stored and leaves none. */
  lemma DownloadsIff(c: Aead.Cryptor, states: seq<State>, steps: seq<Step>, i: nat) returns (b: nat)
    requires Aead.ValidCryptor(c) && Execution(c, states, steps) && i < |steps| && steps[i].Consume?
    ensures var s, n, step := states[i], states[i + 1], steps[i];
      if step.id !in s.db.jobs then n == s
      else
        && b < i && Requests(steps[b], step.id, s.db.jobs[step.id])
        && (n != s <==>
              && steps[b].actor == step.actor && s.db.jobs[step.id].status == Ready
              && step.now < steps[b].now + 86_400_000_000_000)
        && (n != s ==>
              && PayloadOf(s.db.log, step.id).Some?
              && n.db.log == s.db.log + [Downloaded(step.id, PayloadOf(s.db.log, step.id).value)]
              && n.db.jobs == s.db.jobs[step.id := s.db.jobs[step.id].(
                   status := Expired, downloadedAt := Some(step.later), payload := None)])
  {
    var s, step := states[i], steps[i];
    assert states[i + 1] == Next(c, s, step);
    b := 0;
    if step.id in s.db.jobs {
      b := JobIsAsRequested(c, states, steps, i, step.id);
      EveryRunKeepsInv(c, states, steps, i);
      var j := s.db.jobs[step.id];
      assert JobOk(c, j, PayloadOf(s.db.log, step.id), WasDownloaded(s.db.log, step.id));
      hide Execution;
      hide Inv;
      hide PayloadOf;
      hide WasDownloaded;
      ConsumableIff(c, j, PayloadOf(s.db.log, step.id), WasDownloaded(s.db.log, step.id), step.now);
      hide Consumable;
      assert |s.db.log + [Downloaded(step.id, "")]| == |s.db.log| + 1;
    }
  }

  lemma ConsumableIff(c: Aead.Cryptor, j: Job, payload: Option<string>, downloaded: bool, now: int)
    requires JobOk(c, j, payload, downloaded)
    ensures Consumable(c, j, now).Ok? <==> j.status == Ready && now < j.expiresAt
    ensures Consumable(c, j, now).Ok? ==> payload == Some(Consumable(c, j, now).value)
  {
  }

  // ----- Workers and expiry -----

  /** Pending, not past its day and not being taken by another worker. */
  predicate Free(j: Job, id: nat, now: int, locked: set<nat>) {
    j.status == Pending && now < j.expiresAt && id !in locked
  }

  /** A worker takes the oldest free job, if there is one, and that is all it does. */
  lemma TakesTheOldest(c: Aead.Cryptor, s: State, step: Step)
    requires Aead.ValidCryptor(c) && Enabled(c, s, step) && step.Take?
    ensures var n := Next(c, s, step);
      if exists id :: id in s.db.jobs && Free(s.db.jobs[id], id, step.now, step.locked) then
        && step.processor in n.processors
        && var id := n.processors[step.processor];
           && id in s.db.jobs && Free(s.db.jobs[id], id, step.now, step.locked)
           && (forall o :: o in s.db.jobs && o != id && Free(s.db.jobs[o], o, step.now, step.locked) ==>
                 s.db.jobs[id].createdAt < s.db.jobs[o].createdAt
                 || (s.db.jobs[id].createdAt == s.db.jobs[o].createdAt && id < o))
           && n == State(s.db.(jobs := s.db.jobs[id := s.db.jobs[id].(status := Processing)]),
                         s.processors[step.processor := id])
      else n == s
  {
    var pending := Takeable(s.db.jobs, step.now, step.locked);
    assert forall id :: id in pending <==> id in s.db.jobs && Free(s.db.jobs[id], id, step.now, step.locked);
    if pending != map[] {
      assert Sql.First(pending) in pending;
      assert Sql.IsFirst(pending, Sql.First(pending));
      forall o | o in pending && o != Sql.First(pending) ensures Sql.Before(pending, Sql.First(pending), o) {
      }
    } else {
      forall id | id in s.db.jobs ensures !Free(s.db.jobs[id], id, step.now, step.locked) {
        assert id !in pending;
      }
    }
  }

  /** A processor that finishes or fails decides its job only while the job is being
      processed. */
  lemma ProcessorDecides(c: Aead.Cryptor, s: State, step: Step)
    requires Aead.ValidCryptor(c) && Enabled(c, s, step) && (step.Finish? || step.Fail?)
    requires s.processors[step.processor] in s.db.jobs
    ensures var n, id := Next(c, s, step), s.processors[step.processor];
      var j := s.db.jobs[id];
      && n.processors == s.processors - {step.processor} && n.db.jobs.Keys == s.db.jobs.Keys
      && (forall o :: o in s.db.jobs && o != id ==> n.db.jobs[o] == s.db.jobs[o])
      && (j.status != Processing ==> n.db == s.db)
      && (j.status == Processing && step.Finish? && step.random.Some? ==>
            && n.db.jobs[id].status == Ready && n.db.jobs[id].rowCount == Some(step.rows)
            && n.db.jobs[id].payload.Some?
            && Aead.DecryptBytes(c, n.db.jobs[id].payload.value) == Ok(step.bytes)
            && n.db.log == s.db.log + [Readied(id, step.bytes)])
      && (j.status == Processing && (step.Fail? || step.random.None?) ==>
            n.db.jobs[id] == j.(status := Failed) && n.db.log == s.db.log)
  {
  }

  /** Expiry ends exactly the jobs past their day that are not over, and destroys what
      they hold. */
  lemma ExpiryIff(c: Aead.Cryptor, s: State, step: Step, id: nat)
    requires Aead.ValidCryptor(c) && step.Expire? && id in s.db.jobs
    ensures var n, j := Next(c, s, step), s.db.jobs[id];
      && id in n.db.jobs && n.db.log == s.db.log
      && n.db.jobs[id] ==
           if j.expiresAt <= step.now && j.status != Failed && j.status != Expired
           then j.(status := Expired, payload := None) else j
  {
  }
}
