/** Creates, retries, processors, expiry and downloads of export jobs in any
    interleaving. */
module ExportRuns {
  import opened Wrappers
  import opened Hashing
  import Sql
  import Aead
  import opened Values
  import opened Export

  /** A processor works on one job outside any transaction; several may work on the
      same one. */
  datatype State = State(db: Db, processors: map<nat, nat>)

  datatype Step =
    | Create(actor: Actor, key: nat, filters: string, format: string, synchronous: bool, id: nat, processor: nat,
      now: int)
    | Take(now: int, locked: set<nat>, processor: nat)
    | Finish(processor: nat, bytes: string, rows: nat, version: int, random: Option<Aead.Nonce>)
    | Fail(processor: nat)
    | Crash(processor: nat)
    | Consume(actor: Actor, id: nat, now: int, later: int)
    | Expire(now: int)

  function At(c: Aead.Cryptor, version: int): Aead.Cryptor { c.(current := version) }

  predicate Enabled(c: Aead.Cryptor, s: State, step: Step) {
    match step
    case Create(_, _, _, _, _, id, processor, _) => id !in s.db.jobs && processor !in s.processors
    case Take(_, _, processor) => processor !in s.processors
    case Finish(processor, _, _, version, _) => processor in s.processors && version in c.keys
    case Fail(processor) => processor in s.processors
    case Crash(processor) => processor in s.processors
    case Consume(_, _, _, _) => true
    case Expire(_) => true
  }

  /** A caller that is told to goes on to process the job itself. */
  function Created(s: State, step: Step): State
    requires step.Create?
  {
    var r := CreateAnswer(s.db.jobs, step.actor, step.key, step.filters, step.format, step.synchronous, step.id);
    State(AfterCreate(s.db, step.actor, step.key, step.filters, step.format, step.synchronous, step.id, step.now),
          if r.Ok? && r.value.1 then s.processors[step.processor := r.value.0] else s.processors)
  }

  function Next(c: Aead.Cryptor, s: State, step: Step): State
    requires Aead.ValidCryptor(c)
  {
    match step
    case Create(_, _, _, _, _, _, _, _) => Created(s, step)
    case Take(now, locked, processor) =>
      var pending := Takeable(s.db.jobs, now, locked);
      if pending == map[] then s
      else State(AfterTake(s.db, Sql.First(pending)), s.processors[processor := Sql.First(pending)])
    case Finish(processor, bytes, rows, version, random) =>
      if processor !in s.processors || version !in c.keys then s
      else
        (match Aead.EncryptBytes(At(c, version), bytes, random)
         case Err(_) => State(AfterFail(s.db, s.processors[processor]), s.processors - {processor})
         case Ok(sealed) =>
           State(AfterFinish(s.db, s.processors[processor], bytes, rows, sealed), s.processors - {processor}))
    case Fail(processor) =>
      if processor !in s.processors then s
      else State(AfterFail(s.db, s.processors[processor]), s.processors - {processor})
    case Crash(processor) => s.(processors := s.processors - {processor})
    case Consume(actor, id, now, later) =>
      if !Owned(s.db.jobs, id, actor) then s
      else
        (match Consumable(c, s.db.jobs[id], now)
         case Err(_) => s
         case Ok(bytes) => s.(db := AfterConsume(s.db, id, bytes, later)))
    case Expire(now) => s.(db := AfterExpire(s.db, now))
  }

  // ----- The audit trail -----

  predicate WasRequested(log: seq<Event>, id: nat) { Requested(id) in log }

  function PayloadOf(log: seq<Event>, id: nat): Option<string> {
    if log == [] then None
    else
      var e := log[|log| - 1];
      if e.Readied? && e.id == id then Some(e.bytes) else PayloadOf(log[..|log| - 1], id)
  }

  predicate WasDownloaded(log: seq<Event>, id: nat) {
    exists k :: 0 <= k < |log| && log[k].Downloaded? && log[k].id == id
  }

  /** Each entry against the history before it: one request, one payload and one
      download per job, and the download releases that payload. */
  ghost predicate EventOk(past: seq<Event>, e: Event) {
    match e
    case Requested(id) => !WasRequested(past, id) && PayloadOf(past, id).None? && !WasDownloaded(past, id)
    case Readied(id, _) => WasRequested(past, id) && PayloadOf(past, id).None? && !WasDownloaded(past, id)
    case Downloaded(id, bytes) =>
      WasRequested(past, id) && PayloadOf(past, id) == Some(bytes) && !WasDownloaded(past, id)
  }

  ghost predicate LogOk(log: seq<Event>) {
    forall k :: 0 <= k < |log| ==> EventOk(log[..k], log[k])
  }

  // ----- Invariants -----

  /** A payload exists exactly while the job is ready, and opens to what its one
      processor stored; it was downloaded exactly when the trail says so. */
  predicate JobOk(c: Aead.Cryptor, j: Job, payload: Option<string>, downloaded: bool) {
    && (j.payload.Some? <==> j.status == Ready)
    && (j.status == Ready ==> payload.Some? && Aead.DecryptBytes(c, j.payload.value) == Ok(payload.value))
    && (j.status in {Pending, Processing, Failed} ==> payload.None?)
    && (j.downloadedAt.Some? <==> downloaded)
    && (downloaded ==> j.status == Expired)
  }

  ghost predicate Inv(c: Aead.Cryptor, s: State) {
    && LogOk(s.db.log)
    && (forall id :: id in s.db.jobs <==> WasRequested(s.db.log, id))
    && (forall id :: id !in s.db.jobs ==> PayloadOf(s.db.log, id).None? && !WasDownloaded(s.db.log, id))
    && (forall id :: id in s.db.jobs ==> JobOk(c, s.db.jobs[id], PayloadOf(s.db.log, id), WasDownloaded(s.db.log, id)))
    && (forall p :: p in s.processors ==> s.processors[p] in s.db.jobs)
  }

  /** The unique constraint on requester and key. */
  ghost predicate OneJobPerKey(jobs: map<nat, Job>) {
    forall i, j :: i in jobs && j in jobs && SameKey(jobs[i], jobs[j]) ==> i == j
  }

  predicate SameKey(a: Job, b: Job) { a.kind == b.kind && a.subject == b.subject && a.key == b.key }

  lemma StepKeepsOneJobPerKey(c: Aead.Cryptor, s: State, step: Step)
    requires Aead.ValidCryptor(c) && Enabled(c, s, step) && OneJobPerKey(s.db.jobs)
    ensures OneJobPerKey(Next(c, s, step).db.jobs)
  {
    if step.Create? {
      var same := Sql.Ascending(Existing(s.db.jobs, step.actor, step.key));
      if same == [] {
        assert |Existing(s.db.jobs, step.actor, step.key)| == 0;
        forall id | id in s.db.jobs ensures !SameRequest(s.db.jobs[id], step.actor, step.key) {
          assert id !in Existing(s.db.jobs, step.actor, step.key);
        }
      }
    }
    SameKeysAfter(c, s, step);
    hide Next;
    hide Existing;
  }

  lemma CreateAddsOne(s: State, step: Step)
    requires step.Create? && step.id !in s.db.jobs
    ensures var n, isNew := Created(s, step), Sql.Ascending(Existing(s.db.jobs, step.actor, step.key)) == [];
      && (forall id :: id in s.db.jobs ==> id in n.db.jobs && n.db.jobs[id] == s.db.jobs[id])
      && (forall id :: id in n.db.jobs && id !in s.db.jobs ==> isNew && id == step.id)
      && (isNew ==>
            && step.id in n.db.jobs
            && n.db.jobs[step.id] ==
                 NewJob(step.actor, step.key, step.filters, step.format, step.synchronous, step.now))
  {
    hide NewJob;
    hide Existing;
    hide CreateAnswer;
  }

  lemma OthersKeepColumns(c: Aead.Cryptor, s: State, step: Step)
    requires Aead.ValidCryptor(c) && !step.Create?
    ensures Next(c, s, step).db.jobs.Keys == s.db.jobs.Keys
    ensures forall id :: id in s.db.jobs ==> SameColumns(s.db.jobs[id], Next(c, s, step).db.jobs[id])
  {
    hide Aead.EncryptBytes;
    hide Consumable;
    hide Takeable;
  }

  /** What never changes in a row. */
  predicate SameColumns(a: Job, b: Job) {
    && SameKey(a, b) && a.fingerprint == b.fingerprint && a.filters == b.filters && a.format == b.format
    && a.createdAt == b.createdAt && a.expiresAt == b.expiresAt
  }

  lemma SameKeysAfter(c: Aead.Cryptor, s: State, step: Step)
    requires Aead.ValidCryptor(c) && Enabled(c, s, step)
    ensures forall id :: id in s.db.jobs ==>
      id in Next(c, s, step).db.jobs && SameColumns(s.db.jobs[id], Next(c, s, step).db.jobs[id])
    ensures forall id :: id in Next(c, s, step).db.jobs && id !in s.db.jobs ==>
      step.Create? && id == step.id && SameRequest(Next(c, s, step).db.jobs[id], step.actor, step.key)
      && Sql.Ascending(Existing(s.db.jobs, step.actor, step.key)) == []
  {
    hide Existing;
    if step.Create? {
      assert Next(c, s, step) == Created(s, step);
      CreateAddsOne(s, step);
    } else {
      OthersKeepColumns(c, s, step);
    }
    hide Next;
    hide Created;
    hide Enabled;
  }

  lemma Appended(log: seq<Event>, e: Event)
    ensures forall id :: WasRequested(log + [e], id) <==> WasRequested(log, id) || e == Requested(id)
    ensures forall id ::
      PayloadOf(log + [e], id) == if e.Readied? && e.id == id then Some(e.bytes) else PayloadOf(log, id)
    ensures forall id :: WasDownloaded(log + [e], id) <==> WasDownloaded(log, id) || (e.Downloaded? && e.id == id)
    ensures LogOk(log) && EventOk(log, e) ==> LogOk(log + [e])
  {
    var all := log + [e];
    assert all[..|log|] == log;
    forall k | 0 <= k < |log| ensures all[..k] == log[..k] && all[k] == log[k] {
    }
    forall id ensures WasDownloaded(all, id) <==> WasDownloaded(log, id) || (e.Downloaded? && e.id == id) {
      if WasDownloaded(log, id) {
        var k :| 0 <= k < |log| && log[k].Downloaded? && log[k].id == id;
        assert all[k] == log[k];
      }
      if e.Downloaded? && e.id == id {
        assert all[|log|] == e;
      }
    }
  }

  function PayloadAfter(log: seq<Event>, e: Event): Option<string> {
    if e.Readied? then Some(e.bytes) else PayloadOf(log, e.id)
  }

  /** One entry is added, and the row it speaks of written to match. */
  lemma EntryKeeps(c: Aead.Cryptor, s: State, e: Event, job: Job, processors: map<nat, nat>)
    requires Inv(c, s) && EventOk(s.db.log, e) && (e.id in s.db.jobs || e.Requested?)
    requires JobOk(c, job, PayloadAfter(s.db.log, e), WasDownloaded(s.db.log, e.id) || e.Downloaded?)
    requires forall p :: p in processors ==> processors[p] in s.db.jobs || processors[p] == e.id
    ensures Inv(c, State(Db(s.db.jobs[e.id := job], s.db.log + [e]), processors))
  {
    Appended(s.db.log, e);
    hide LogOk;
    hide EventOk;
    hide PayloadOf;
    hide WasDownloaded;
    hide WasRequested;
    hide JobOk;
  }

  lemma ProcessorKeeps(c: Aead.Cryptor, s: State, processor: nat, id: nat)
    requires Inv(c, s) && id in s.db.jobs
    ensures Inv(c, s.(processors := s.processors[processor := id]))
  {
    hide LogOk;
    hide JobOk;
  }

  lemma NewJobKeeps(c: Aead.Cryptor, s: State, step: Step)
    requires Inv(c, s) && Enabled(c, s, step) && step.Create?
    ensures var job := NewJob(step.actor, step.key, step.filters, step.format, step.synchronous, step.now);
      Inv(c, State(Db(s.db.jobs[step.id := job], s.db.log + [Requested(step.id)]),
                   if step.synchronous then s.processors[step.processor := step.id] else s.processors))
  {
    hide LogOk;
    hide PayloadOf;
    hide WasDownloaded;
    hide WasRequested;
    var job := NewJob(step.actor, step.key, step.filters, step.format, step.synchronous, step.now);
    EntryKeeps(c, s, Requested(step.id), job,
               if step.synchronous then s.processors[step.processor := step.id] else s.processors);
  }

  lemma CreateCases(s: State, step: Step)
    requires step.Create?
    ensures Created(s, step) ==
      if Sql.Ascending(Existing(s.db.jobs, step.actor, step.key)) == [] then
        State(Db(s.db.jobs[step.id :=
                             NewJob(step.actor, step.key, step.filters, step.format, step.synchronous, step.now)],
                 s.db.log + [Requested(step.id)]),
              if step.synchronous then s.processors[step.processor := step.id] else s.processors)
      else
        var existing := Sql.Ascending(Existing(s.db.jobs, step.actor, step.key))[0];
        if s.db.jobs[existing].fingerprint == Fingerprint(step.filters, step.format) && step.synchronous
          && s.db.jobs[existing].status == Processing
        then s.(processors := s.processors[step.processor := existing]) else s
  {
    hide NewJob;
    hide Existing;
  }

  lemma CreateKeeps(c: Aead.Cryptor, s: State, step: Step)
    requires Aead.ValidCryptor(c) && Inv(c, s) && Enabled(c, s, step) && step.Create?
    ensures Inv(c, Next(c, s, step))
  {
    NewJobKeeps(c, s, step);
    CreateCases(s, step);
    var same := Sql.Ascending(Existing(s.db.jobs, step.actor, step.key));
    if same != [] {
      assert same[0] in same;
      ProcessorKeeps(c, s, step.processor, same[0]);
    }
    hide Inv;
    hide NewJob;
    hide Created;
    hide Existing;
    hide Fingerprint;
  }

  /** Only one job changes, and keeps its payload state. */
  lemma StatusKeeps(c: Aead.Cryptor, s: State, id: nat, job: Job, processors: map<nat, nat>)
    requires Inv(c, s) && id in s.db.jobs && JobOk(c, job, PayloadOf(s.db.log, id), WasDownloaded(s.db.log, id))
    requires forall p :: p in processors ==> processors[p] in s.db.jobs
    ensures Inv(c, State(s.db.(jobs := s.db.jobs[id := job]), processors))
  {
    hide LogOk;
    hide PayloadOf;
    hide WasDownloaded;
    hide WasRequested;
    hide JobOk;
  }

  lemma TakeKeeps(c: Aead.Cryptor, s: State, step: Step)
    requires Aead.ValidCryptor(c) && Inv(c, s) && step.Take?
    ensures Inv(c, Next(c, s, step))
  {
    var pending := Takeable(s.db.jobs, step.now, step.locked);
    if pending != map[] {
      var id := Sql.First(pending);
      hide LogOk;
      hide PayloadOf;
      hide WasDownloaded;
      StatusKeeps(c, s, id, s.db.jobs[id].(status := Processing), s.processors[step.processor := id]);
    }
  }

  lemma FailKeeps(c: Aead.Cryptor, s: State, processor: nat)
    requires Inv(c, s) && processor in s.processors
    ensures Inv(c, State(AfterFail(s.db, s.processors[processor]), s.processors - {processor}))
  {
    hide LogOk;
    hide PayloadOf;
    hide WasDownloaded;
    hide WasRequested;
  }

  lemma FinishKeeps(c: Aead.Cryptor, s: State, step: Step)
    requires Aead.ValidCryptor(c) && Inv(c, s) && Enabled(c, s, step) && step.Finish?
    ensures Inv(c, Next(c, s, step))
  {
    var id := s.processors[step.processor];
    var sealed := Aead.EncryptBytes(At(c, step.version), step.bytes, step.random);
    if sealed.Err? {
      FailKeeps(c, s, step.processor);
    } else {
      hide LogOk;
      hide PayloadOf;
      hide WasDownloaded;
      hide WasRequested;
      if s.db.jobs[id].status == Processing {
        EntryKeeps(c, s, Readied(id, step.bytes),
                   s.db.jobs[id].(status := Ready, rowCount := Some(step.rows), payload := Some(sealed.value)),
                   s.processors - {step.processor});
      }
    }
  }

  lemma ConsumeKeeps(c: Aead.Cryptor, s: State, step: Step)
    requires Aead.ValidCryptor(c) && Inv(c, s) && step.Consume?
    ensures Inv(c, Next(c, s, step))
  {
    hide LogOk;
    hide PayloadOf;
    hide WasDownloaded;
    hide WasRequested;
    if step.id in s.db.jobs && Consumable(c, s.db.jobs[step.id], step.now).Ok? {
      var bytes := Consumable(c, s.db.jobs[step.id], step.now).value;
      EntryKeeps(c, s, Downloaded(step.id, bytes),
                 s.db.jobs[step.id].(status := Expired, downloadedAt := Some(step.later), payload := None),
                 s.processors);
    }
  }

  lemma ExpireKeeps(c: Aead.Cryptor, s: State, step: Step)
    requires Aead.ValidCryptor(c) && Inv(c, s) && step.Expire?
    ensures Inv(c, Next(c, s, step))
  {
    hide LogOk;
    hide PayloadOf;
    hide WasDownloaded;
    hide WasRequested;
  }

  lemma StepKeepsInv(c: Aead.Cryptor, s: State, step: Step)
    requires Aead.ValidCryptor(c) && Inv(c, s) && Enabled(c, s, step)
    ensures Inv(c, Next(c, s, step))
  {
    match step
    case Create(_, _, _, _, _, _, _, _) => CreateKeeps(c, s, step);
    case Take(_, _, _) => TakeKeeps(c, s, step);
    case Finish(_, _, _, _, _) => FinishKeeps(c, s, step);
    case Fail(processor) => FailKeeps(c, s, processor);
    case Crash(_) =>
    case Consume(_, _, _, _) => ConsumeKeeps(c, s, step);
    case Expire(_) => ExpireKeeps(c, s, step);
  }

  // ----- One way only -----

  function Rank(status: Status): nat {
    match status
    case Pending => 0
    case Processing => 1
    case Ready => 2
    case Failed => 3
    case Expired => 3
  }

  /** A job only moves forward; once failed or expired, downloaded or not, it stays so
      whatever late processors do. */
  lemma StatusMovesForward(c: Aead.Cryptor, s: State, step: Step, id: nat)
    requires Aead.ValidCryptor(c) && Enabled(c, s, step) && id in s.db.jobs
    ensures var n := Next(c, s, step);
      id in n.db.jobs && Rank(n.db.jobs[id].status) >= Rank(s.db.jobs[id].status)
      && (s.db.jobs[id].status in {Failed, Expired} ==>
           n.db.jobs[id].status == s.db.jobs[id].status && n.db.jobs[id].payload == s.db.jobs[id].payload)
  {
    hide NewJob;
    if step.Create? {
      CreateLeavesJobs(s, step, id);
      hide Created;
    } else {
      hide Existing;
    }
  }

  lemma CreateLeavesJobs(s: State, step: Step, id: nat)
    requires step.Create? && step.id !in s.db.jobs && id in s.db.jobs
    ensures id in Created(s, step).db.jobs && Created(s, step).db.jobs[id] == s.db.jobs[id]
  {
    hide NewJob;
  }

  // ----- Runs -----

  ghost predicate Execution(c: Aead.Cryptor, states: seq<State>, steps: seq<Step>)
    requires Aead.ValidCryptor(c)
  {
    && |states| == |steps| + 1 && states[0] == State(Db(map[], []), map[])
    && forall i :: 0 <= i < |steps| ==> Enabled(c, states[i], steps[i]) && states[i + 1] == Next(c, states[i], steps[i])
  }

  lemma {:induction false} EveryRunKeepsInv(c: Aead.Cryptor, states: seq<State>, steps: seq<Step>, i: nat)
    requires Aead.ValidCryptor(c) && Execution(c, states, steps) && i < |states|
    ensures Inv(c, states[i])
  {
    if i > 0 {
      hide Next;
      hide Enabled;
      hide Inv;
      EveryRunKeepsInv(c, states, steps, i - 1);
      StepKeepsInv(c, states[i - 1], steps[i - 1]);
    }
  }

  lemma {:induction false} EveryRunHasOneJobPerKey(c: Aead.Cryptor, states: seq<State>, steps: seq<Step>, i: nat)
    requires Aead.ValidCryptor(c) && Execution(c, states, steps) && i < |states|
    ensures OneJobPerKey(states[i].db.jobs)
  {
    if i > 0 {
      hide Next;
      hide Enabled;
      hide OneJobPerKey;
      EveryRunHasOneJobPerKey(c, states, steps, i - 1);
      StepKeepsOneJobPerKey(c, states[i - 1], steps[i - 1]);
    }
  }

  /** So in every run the retry of a request that has a job finds that job. */
  lemma RetryFindsItsJob(c: Aead.Cryptor, states: seq<State>, steps: seq<Step>, i: nat, id: nat, filters: string,
      format: string, synchronous: bool, other: nat, now: int)
    requires Aead.ValidCryptor(c) && Execution(c, states, steps) && i < |states| && id in states[i].db.jobs
    ensures var db, j := states[i].db, states[i].db.jobs[id];
      && AfterCreate(db, Actor(j.kind, j.subject), j.key, filters, format, synchronous, other, now) == db
      && CreateAnswer(db.jobs, Actor(j.kind, j.subject), j.key, filters, format, synchronous, other) ==
           if j.fingerprint == Fingerprint(filters, format) then Ok((id, synchronous && j.status == Processing))
           else Err(IdempotencyMismatch)
  {
    EveryRunHasOneJobPerKey(c, states, steps, i);
    var db, j := states[i].db, states[i].db.jobs[id];
    forall x | x in Existing(db.jobs, Actor(j.kind, j.subject), j.key) ensures x == id {
      assert SameKey(db.jobs[x], j);
    }
    assert Existing(db.jobs, Actor(j.kind, j.subject), j.key) == {id};
    RetryFindsTheJob(db, Actor(j.kind, j.subject), j.key, filters, format, synchronous, id, other, now);
  }

  lemma {:induction false} TerminalForever(c: Aead.Cryptor, states: seq<State>, steps: seq<Step>, i: nat, j: nat,
      id: nat)
    requires Aead.ValidCryptor(c) && Execution(c, states, steps) && i <= j < |states|
    requires id in states[i].db.jobs && states[i].db.jobs[id].status in {Failed, Expired}
    ensures id in states[j].db.jobs && states[j].db.jobs[id].status == states[i].db.jobs[id].status
    ensures states[j].db.jobs[id].payload.None?
    decreases j
  {
    hide Next;
    hide Enabled;
    EveryRunKeepsInv(c, states, steps, j);
    if i < j {
      TerminalForever(c, states, steps, i, j - 1, id);
      EveryRunKeepsInv(c, states, steps, j - 1);
      StatusMovesForward(c, states[j - 1], steps[j - 1], id);
    }
  }

  /** At most one Consume ever releases bytes for a job; it releases the bytes its one
      completed processor stored, and the trail shows that download exactly then. */
  lemma ConsumedAtMostOnce(c: Aead.Cryptor, states: seq<State>, steps: seq<Step>, i: nat, k: nat, m: nat)
    requires Aead.ValidCryptor(c) && Execution(c, states, steps) && i < |states|
    requires k <= m < |states[i].db.log| && states[i].db.log[k].Downloaded? && states[i].db.log[m].Downloaded?
    requires states[i].db.log[k].id == states[i].db.log[m].id
    ensures k == m
    ensures exists r :: 0 <= r < k && states[i].db.log[r] == Readied(states[i].db.log[k].id, states[i].db.log[k].bytes)
    ensures states[i].db.log[k].id in states[i].db.jobs && states[i].db.jobs[states[i].db.log[k].id].downloadedAt.Some?
  {
    EveryRunKeepsInv(c, states, steps, i);
    var log := states[i].db.log;
    assert EventOk(log[..k], log[k]) && EventOk(log[..m], log[m]);
    assert forall x :: 0 <= x < m ==> log[..m][x] == log[x];
    var r := PayloadIndex(log, k, log[k].id);
    assert WasDownloaded(log, log[k].id);
  }

  lemma {:induction false} PayloadIndex(log: seq<Event>, k: nat, id: nat) returns (r: nat)
    requires k <= |log| && PayloadOf(log[..k], id).Some?
    ensures r < k && log[r] == Readied(id, PayloadOf(log[..k], id).value)
    decreases k
  {
    assert log[..k][..k - 1] == log[..k - 1];
    if log[k - 1].Readied? && log[k - 1].id == id {
      r := k - 1;
    } else {
      r := PayloadIndex(log, k - 1, id);
    }
  }

  /** Every job has exactly one requested entry, however often its creation was retried,
      and a downloaded entry exactly when it was consumed. */
  lemma OneRequestEach(c: Aead.Cryptor, states: seq<State>, steps: seq<Step>, i: nat, id: nat)
    requires Aead.ValidCryptor(c) && Execution(c, states, steps) && i < |states| && id in states[i].db.jobs
    ensures multiset(states[i].db.log)[Requested(id)] == 1
    ensures WasDownloaded(states[i].db.log, id) <==> states[i].db.jobs[id].downloadedAt.Some?
  {
    EveryRunKeepsInv(c, states, steps, i);
    RequestedOnce(states[i].db.log, id);
  }

  lemma {:induction false} RequestedOnce(log: seq<Event>, id: nat)
    requires LogOk(log)
    ensures multiset(log)[Requested(id)] == if WasRequested(log, id) then 1 else 0
    decreases |log|
  {
    if log != [] {
      var n := |log| - 1;
      assert log == log[..n] + [log[n]];
      assert EventOk(log[..n], log[n]);
      forall k | 0 <= k < n ensures EventOk(log[..n][..k], log[..n][k]) {
        assert log[..n][..k] == log[..k];
      }
      RequestedOnce(log[..n], id);
    }
  }
}
