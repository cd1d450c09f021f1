/** Any number of requests, retries, rollbacks and cleanups in any interleaving. */
module IdempotencyRuns {
  import opened Wrappers
  import opened Hashing
  import Aead
  import opened Values
  import opened Idempotency

  /** A transaction whose insert met a committed row and will read it, one that holds
      the claim of its key, or one that also ran Complete. */
  datatype Stage = Reading | Claimed(claim: Record) | Done(record: Record, response: Response)

  datatype Tx = Tx(request: Request, begunAt: int, stage: Stage)

  /** What became known outside: an effect committed with its response, records
      removed, a response replayed, a request refused. */
  datatype Event =
    | Committed(request: Request, response: Response, expiresAt: int)
    | Cleaned(ids: set<Id>, at: int)
    | Replayed(request: Request, response: Response, at: int)
    | Refused(request: Request, error: Error)

  /** `records` are the committed rows. */
  datatype State = State(records: map<Id, Record>, txs: map<nat, Tx>, log: seq<Event>)

  datatype Step =
    | Begin(tx: nat, request: Request, now: int)
    | Read(tx: nat)
    | Finish(tx: nat, response: Response, version: int, random: Option<Aead.Nonce>)
    | Commit(tx: nat)
    | Rollback(tx: nat)
    | Cleanup(now: int, limit: nat, locked: set<Id>, purged: set<Id>)

  predicate Holds(t: Tx, id: Id) { !t.stage.Reading? && IdOf(t.request) == id }

  /** Some open transaction has inserted this key; another insert waits for it. */
  predicate Held(txs: map<nat, Tx>, id: Id) {
    exists t :: t in txs && Holds(txs[t], id)
  }

  /** DELETE of up to `limit` expired rows that no other transaction has locked, those
      that expired first. */
  ghost predicate Purges(records: map<Id, Record>, now: int, limit: nat, locked: set<Id>, purged: set<Id>) {
    && 1 <= limit <= 10_000 && |purged| <= limit && purged !! locked
    && (forall id :: id in purged ==> id in records && records[id].expiresAt <= now)
    && (forall id :: id in records && id !in purged && id !in locked && records[id].expiresAt <= now ==>
          |purged| == limit && forall p :: p in purged ==> records[p].expiresAt <= records[id].expiresAt)
  }

  function At(c: Aead.Cryptor, version: int): Aead.Cryptor { c.(current := version) }

  /** The handlers run Begin, the effect, Complete and the commit in this order; a
      transaction that fails anywhere rolls back. */
  ghost predicate Enabled(c: Aead.Cryptor, s: State, step: Step) {
    match step
    case Begin(tx, request, _) => tx !in s.txs && (ValidRequest(request) ==> !Held(s.txs, IdOf(request)))
    case Read(tx) => tx in s.txs && s.txs[tx].stage.Reading?
    case Finish(tx, _, version, _) => tx in s.txs && s.txs[tx].stage.Claimed? && version in c.keys
    case Commit(tx) => tx in s.txs && s.txs[tx].stage.Done?
    case Rollback(tx) => tx in s.txs
    case Cleanup(now, limit, locked, purged) => Purges(s.records, now, limit, locked, purged)
  }

  function Next(c: Aead.Cryptor, s: State, step: Step): State
    requires Aead.ValidCryptor(c)
  {
    match step
    case Begin(tx, request, now) =>
      if !ValidRequest(request) then s.(log := s.log + [Refused(request, Invalid)])
      else if IdOf(request) in s.records then s.(txs := s.txs[tx := Tx(request, now, Reading)])
      else s.(txs := s.txs[tx := Tx(request, now, Claimed(Claim(request, now)))])
    case Read(tx) => if tx in s.txs then AfterRead(c, s, tx) else s
    case Finish(tx, response, version, random) =>
      if tx !in s.txs || !s.txs[tx].stage.Claimed? || version !in c.keys then s
      else
        var t := s.txs[tx];
        var done := Finished(At(c, version), t.stage.claim, response, random);
        if ValidResponse(response) && done.Ok? then s.(txs := s.txs[tx := t.(stage := Done(done.value, response))])
        else s.(txs := s.txs - {tx})
    case Commit(tx) =>
      if tx !in s.txs || !s.txs[tx].stage.Done? then s
      else
        var t := s.txs[tx];
        State(s.records[IdOf(t.request) := t.stage.record], s.txs - {tx},
              s.log + [Committed(t.request, t.stage.response, t.stage.record.expiresAt)])
    case Rollback(tx) => s.(txs := s.txs - {tx})
    case Cleanup(now, _, _, purged) => s.(records := s.records - purged, log := s.log + [Cleaned(purged, now)])
  }

  function AfterRead(c: Aead.Cryptor, s: State, tx: nat): State
    requires tx in s.txs
  {
    var t := s.txs[tx];
    var event :=
      if IdOf(t.request) !in s.records then Refused(t.request, NoRow)
      else
        match Found(c, s.records[IdOf(t.request)], t.request, t.begunAt)
        case Err(e) => Refused(t.request, e)
        case Ok(response) => Replayed(t.request, response, t.begunAt);
    s.(txs := s.txs - {tx}, log := s.log + [event])
  }

  // ----- Invariants -----

  predicate Concerns(e: Event, id: Id) {
    (e.Committed? && IdOf(e.request) == id) || (e.Cleaned? && id in e.ids)
  }

  /** The last commit or cleanup of a key. */
  function Latest(log: seq<Event>, id: Id): Option<Event> {
    if log == [] then None
    else if Concerns(log[|log| - 1], id) then Some(log[|log| - 1])
    else Latest(log[..|log| - 1], id)
  }

  /** The key has a live record, committed by this event. */
  predicate LiveBy(log: seq<Event>, id: Id, e: Event) {
    Latest(log, id) == Some(e) && e.Committed?
  }

  predicate Live(log: seq<Event>, id: Id) {
    Latest(log, id).Some? && Latest(log, id).value.Committed?
  }

  /** What each event says, against the history before it. */
  ghost predicate EventOk(past: seq<Event>, e: Event) {
    match e
    case Committed(request, response, _) => !Live(past, IdOf(request)) && ValidResponse(response)
    case Cleaned(ids, at) => forall id :: id in ids ==> Live(past, id) && Latest(past, id).value.expiresAt <= at
    case Replayed(request, response, at) =>
      Live(past, IdOf(request))
      && var made := Latest(past, IdOf(request)).value;
         made.response == response && made.request.fingerprint == request.fingerprint && at < made.expiresAt
    case Refused(_, error) => error != InProgress && error != Undecryptable
  }

  ghost predicate LogOk(log: seq<Event>) {
    forall k :: 0 <= k < |log| ==> EventOk(log[..k], log[k])
  }

  /** The row is complete and opens to exactly the response its effect gave. */
  predicate Stored(c: Aead.Cryptor, row: Record, made: Event) {
    made.Committed? && row.status == Completed && row.httpStatus == Some(made.response.status)
      && row.contentType == made.response.contentType
    && row.response.Some? && Aead.DecryptBytes(c, row.response.value) == Ok(made.response.body)
    && row.fingerprint == made.request.fingerprint && row.expiresAt == made.expiresAt
  }

  ghost predicate Rows(c: Aead.Cryptor, records: map<Id, Record>, log: seq<Event>) {
    && (forall id :: id in records ==> Live(log, id) && Stored(c, records[id], Latest(log, id).value))
    && (forall id :: Live(log, id) ==> id in records)
  }

  /** What an open claim will commit. */
  predicate ClaimOk(c: Aead.Cryptor, t: Tx) {
    match t.stage
    case Reading => true
    case Claimed(claim) => claim == Claim(t.request, t.begunAt)
    case Done(record, response) =>
      ValidResponse(response) && Stored(c, record, Committed(t.request, response, record.expiresAt))
  }

  /** Claims are exclusive, and their keys have no committed row. */
  ghost predicate Claims(c: Aead.Cryptor, s: State) {
    && (forall t :: t in s.txs ==> ClaimOk(c, s.txs[t]))
    && (forall t :: t in s.txs && !s.txs[t].stage.Reading? ==> IdOf(s.txs[t].request) !in s.records)
    && (forall t, u :: t in s.txs && u in s.txs && t != u && Holds(s.txs[t], IdOf(s.txs[u].request)) ==>
         s.txs[u].stage.Reading?)
  }

  ghost predicate Inv(c: Aead.Cryptor, s: State) {
    LogOk(s.log) && Rows(c, s.records, s.log) && Claims(c, s)
  }

  lemma Appended(log: seq<Event>, e: Event)
    ensures forall id :: Latest(log + [e], id) == if Concerns(e, id) then Some(e) else Latest(log, id)
    ensures LogOk(log) && EventOk(log, e) ==> LogOk(log + [e])
  {
    assert (log + [e])[..|log|] == log;
    forall k | 0 <= k < |log| ensures (log + [e])[..k] == log[..k] {
    }
  }

  lemma BeginKeeps(c: Aead.Cryptor, s: State, step: Step)
    requires Aead.ValidCryptor(c) && Inv(c, s) && Enabled(c, s, step) && step.Begin?
    ensures Inv(c, Next(c, s, step))
  {
    hide LogOk;
    hide Latest;
    if !ValidRequest(step.request) {
      Appended(s.log, Refused(step.request, Invalid));
    } else {
      forall t | t in s.txs ensures !Holds(s.txs[t], IdOf(step.request)) {
      }
    }
  }

  lemma ReadKeeps(c: Aead.Cryptor, s: State, step: Step)
    requires Aead.ValidCryptor(c) && Inv(c, s) && Enabled(c, s, step) && step.Read?
    ensures Inv(c, Next(c, s, step))
  {
    hide LogOk;
    hide Latest;
    var n := AfterRead(c, s, step.tx);
    Appended(s.log, n.log[|s.log|]);
  }

  lemma FinishKeeps(c: Aead.Cryptor, s: State, step: Step)
    requires Aead.ValidCryptor(c) && Inv(c, s) && Enabled(c, s, step) && step.Finish?
    ensures Inv(c, Next(c, s, step))
  {
    hide LogOk;
    hide Latest;
    hide Rows;
  }

  lemma CommitKeeps(c: Aead.Cryptor, s: State, step: Step)
    requires Aead.ValidCryptor(c) && Inv(c, s) && Enabled(c, s, step) && step.Commit?
    ensures Inv(c, Next(c, s, step))
  {
    hide LogOk;
    hide Latest;
    var t := s.txs[step.tx];
    var e := Committed(t.request, t.stage.response, t.stage.record.expiresAt);
    Appended(s.log, e);
    assert ClaimOk(c, t);
    assert Holds(t, IdOf(t.request));
  }

  lemma CleanupKeeps(c: Aead.Cryptor, s: State, step: Step)
    requires Aead.ValidCryptor(c) && Inv(c, s) && Enabled(c, s, step) && step.Cleanup?
    ensures Inv(c, Next(c, s, step))
  {
    hide LogOk;
    hide Latest;
    Appended(s.log, Cleaned(step.purged, step.now));
  }

  lemma StepKeepsInv(c: Aead.Cryptor, s: State, step: Step)
    requires Aead.ValidCryptor(c) && Inv(c, s) && Enabled(c, s, step)
    ensures Inv(c, Next(c, s, step))
  {
    match step
    case Begin(_, _, _) => BeginKeeps(c, s, step);
    case Read(_) => ReadKeeps(c, s, step);
    case Finish(_, _, _, _) => FinishKeeps(c, s, step);
    case Commit(_) => CommitKeeps(c, s, step);
    case Rollback(_) =>
    case Cleanup(_, _, _, _) => CleanupKeeps(c, s, step);
  }

  // ----- Runs -----

  ghost predicate Execution(c: Aead.Cryptor, states: seq<State>, steps: seq<Step>)
    requires Aead.ValidCryptor(c)
  {
    && |states| == |steps| + 1 && states[0] == State(map[], map[], [])
    && forall i :: 0 <= i < |steps| ==> Enabled(c, states[i], steps[i]) && states[i + 1] == Next(c, states[i], steps[i])
  }

  lemma {:induction false} EveryRunKeepsInv(c: Aead.Cryptor, states: seq<State>, steps: seq<Step>, i: nat)
    requires Aead.ValidCryptor(c) && Execution(c, states, steps) && i < |states|
    ensures Inv(c, states[i])
  {
    if i > 0 {
      hide Next;
      hide Enabled;
      EveryRunKeepsInv(c, states, steps, i - 1);
      StepKeepsInv(c, states[i - 1], steps[i - 1]);
    }
  }

  /** No committed record is ever half done, so no request is told to wait for one and
      every stored response opens. */
  lemma NoCommittedRecordIsProcessing(c: Aead.Cryptor, states: seq<State>, steps: seq<Step>, i: nat)
    requires Aead.ValidCryptor(c) && Execution(c, states, steps) && i < |states|
    ensures forall id :: id in states[i].records ==> states[i].records[id].status == Completed
    ensures forall e :: e in states[i].log && e.Refused? ==> e.error != InProgress && e.error != Undecryptable
  {
    EveryRunKeepsInv(c, states, steps, i);
    var log := states[i].log;
    forall e | e in log && e.Refused? ensures e.error != InProgress && e.error != Undecryptable {
      var k :| 0 <= k < |log| && log[k] == e;
      assert EventOk(log[..k], log[k]);
    }
  }

  /** Event i is the last before k that concerns the key. */
  ghost predicate LastBefore(log: seq<Event>, i: nat, k: nat, id: Id) {
    i < k <= |log| && Concerns(log[i], id) && forall m :: i < m < k ==> !Concerns(log[m], id)
  }

  lemma {:induction false} LatestIndex(log: seq<Event>, k: nat, id: Id) returns (i: nat)
    requires k <= |log| && Latest(log[..k], id).Some?
    ensures LastBefore(log, i, k, id) && log[i] == Latest(log[..k], id).value
    decreases k
  {
    assert log[..k][..k - 1] == log[..k - 1];
    if Concerns(log[k - 1], id) {
      i := k - 1;
    } else {
      i := LatestIndex(log, k - 1, id);
    }
  }

  lemma {:induction false} SomeIsLatest(log: seq<Event>, i: nat, k: nat, id: Id)
    requires i < k <= |log| && Concerns(log[i], id)
    ensures Latest(log[..k], id).Some?
    decreases k
  {
    assert log[..k][..k - 1] == log[..k - 1];
    if !Concerns(log[k - 1], id) {
      SomeIsLatest(log, i, k - 1, id);
    }
  }

  /** The first event after i that concerns the key. */
  lemma FirstConcern(log: seq<Event>, i: nat, j: nat, id: Id) returns (k: nat)
    requires i < j < |log| && Concerns(log[i], id) && Concerns(log[j], id)
    ensures k <= j && Concerns(log[k], id) && LastBefore(log, i, k, id)
  {
    k := i + 1;
    while !Concerns(log[k], id)
      invariant i < k <= j && LastBefore(log, i, k, id)
      decreases j - k
    {
      k := k + 1;
    }
  }

  lemma LatestIsLastBefore(log: seq<Event>, i: nat, k: nat, id: Id)
    requires LastBefore(log, i, k, id)
    ensures Latest(log[..k], id) == Some(log[i])
  {
    SomeIsLatest(log, i, k, id);
    var x := LatestIndex(log, k, id);
    assert x == i;
  }

  /** The record that event i left was removed by the cleanup at k, after it expired. */
  ghost predicate RemovedBy(log: seq<Event>, i: nat, k: nat)
    requires i < |log| && log[i].Committed?
  {
    i < k < |log| && log[k].Cleaned? && IdOf(log[i].request) in log[k].ids && log[i].expiresAt <= log[k].at
  }

  lemma RemovedBefore(log: seq<Event>, i: nat, j: nat) returns (k: nat)
    requires LogOk(log) && i < j < |log| && log[i].Committed? && log[j].Committed?
    requires IdOf(log[i].request) == IdOf(log[j].request)
    ensures k < j && RemovedBy(log, i, k)
  {
    var id := IdOf(log[i].request);
    k := FirstConcern(log, i, j, id);
    LatestIsLastBefore(log, i, k, id);
    assert EventOk(log[..k], log[k]);
  }

  /** The replay at k answers with the effect at i: the last event for its key, with the
      same response and fingerprint, not yet expired. */
  ghost predicate AnsweredBy(log: seq<Event>, i: nat, k: nat)
    requires k < |log| && log[k].Replayed?
  {
    i < |log| && LastBefore(log, i, k, IdOf(log[k].request)) && log[i].Committed?
    && log[i].response == log[k].response && log[i].request.fingerprint == log[k].request.fingerprint
    && log[k].at < log[i].expiresAt
  }

  lemma AnsweringEffect(log: seq<Event>, k: nat) returns (i: nat)
    requires LogOk(log) && k < |log| && log[k].Replayed?
    ensures AnsweredBy(log, i, k)
  {
    assert EventOk(log[..k], log[k]);
    i := LatestIndex(log, k, IdOf(log[k].request));
  }

  function Count(log: seq<Event>, id: Id, commits: bool): nat {
    if log == [] then 0
    else
      Count(log[..|log| - 1], id, commits)
      + if Concerns(log[|log| - 1], id) && log[|log| - 1].Committed? == commits then 1 else 0
  }

  lemma {:induction false} CountsBalance(log: seq<Event>, id: Id)
    requires LogOk(log)
    ensures Count(log, id, true) == Count(log, id, false) + if Live(log, id) then 1 else 0
    decreases |log|
  {
    if log != [] {
      var n := |log| - 1;
      assert EventOk(log[..n], log[n]);
      forall k | 0 <= k < n ensures EventOk(log[..n][..k], log[..n][k]) {
        assert log[..n][..k] == log[..k];
      }
      CountsBalance(log[..n], id);
    }
  }

  // ----- What every run promises -----

  /** In every run of concurrent and retried requests, of two effects for one key the
      first one's record expired and was cleaned up before the second. */
  lemma OneEffectPerRecord(c: Aead.Cryptor, states: seq<State>, steps: seq<Step>, n: nat, i: nat, j: nat)
      returns (k: nat)
    requires Aead.ValidCryptor(c) && Execution(c, states, steps) && n < |states| && i < j < |states[n].log|
    requires states[n].log[i].Committed? && states[n].log[j].Committed?
    requires IdOf(states[n].log[i].request) == IdOf(states[n].log[j].request)
    ensures k < j && RemovedBy(states[n].log, i, k)
  {
    EveryRunKeepsInv(c, states, steps, n);
    k := RemovedBefore(states[n].log, i, j);
  }

  /** Effects for a key outnumber its cleanups by one exactly while it has a committed
      record: at most one effect commits while a record lives. */
  lemma EffectsBalance(c: Aead.Cryptor, states: seq<State>, steps: seq<Step>, n: nat, id: Id)
    requires Aead.ValidCryptor(c) && Execution(c, states, steps) && n < |states|
    ensures Count(states[n].log, id, true) == Count(states[n].log, id, false) + if id in states[n].records then 1 else 0
  {
    EveryRunKeepsInv(c, states, steps, n);
    CountsBalance(states[n].log, id);
  }

  /** Every replay in every run gives the status, type and body of the one effect whose
      record is live, to a request with the same fingerprint, before expiry. */
  lemma ReplayIsThatEffect(c: Aead.Cryptor, states: seq<State>, steps: seq<Step>, n: nat, k: nat) returns (i: nat)
    requires Aead.ValidCryptor(c) && Execution(c, states, steps) && n < |states|
    requires k < |states[n].log| && states[n].log[k].Replayed?
    ensures AnsweredBy(states[n].log, i, k)
  {
    EveryRunKeepsInv(c, states, steps, n);
    i := AnsweringEffect(states[n].log, k);
  }

  /** The request's fingerprint is that of its operation and some payload, as the
      handlers compute it. */
  predicate Fingerprinted(r: Request, payload: string) {
    '\0' !in r.operation && r.fingerprint == Fingerprint(r.operation, payload)
  }

  /** All of it together, over any run: effects for one key are apart by an expiry and a
      cleanup; each replay repeats the response of the effect whose record is live; the
      payloads of the two requests are the same; nobody is told to wait or gets a
      response that does not open; and a key has a record exactly when its effects
      outnumber its cleanups. */
  lemma MutationsRunOnce(c: Aead.Cryptor, states: seq<State>, steps: seq<Step>, n: nat)
    requires Aead.ValidCryptor(c) && Execution(c, states, steps) && n < |states|
    ensures var log := states[n].log;
      && (forall i, j :: 0 <= i < j < |log| && SameKeyEffects(log[i], log[j]) ==>
           exists k :: i < k < j && RemovedBy(log, i, k))
      && (forall k :: 0 <= k < |log| && log[k].Replayed? ==> exists i :: 0 <= i < k && RepeatsPayload(log, i, k))
      && (forall k :: 0 <= k < |log| && log[k].Refused? ==> log[k].error != InProgress && log[k].error != Undecryptable)
      && (forall id :: id in states[n].records <==> Count(log, id, true) > Count(log, id, false))
  {
    var log := states[n].log;
    forall i, j | 0 <= i < j < |log| && SameKeyEffects(log[i], log[j])
      ensures exists k :: i < k < j && RemovedBy(log, i, k)
    {
      var k := OneEffectPerRecord(c, states, steps, n, i, j);
    }
    forall k | 0 <= k < |log| && log[k].Replayed? ensures exists i :: 0 <= i < k && RepeatsPayload(log, i, k) {
      var i := ReplayIsThatEffect(c, states, steps, n, k);
      SamePayload(log, i, k);
    }
    NoCommittedRecordIsProcessing(c, states, steps, n);
    forall k | 0 <= k < |log| && log[k].Refused? ensures log[k].error != InProgress && log[k].error != Undecryptable {
      assert log[k] in log;
    }
    forall id ensures id in states[n].records <==> Count(log, id, true) > Count(log, id, false) {
      EffectsBalance(c, states, steps, n, id);
    }
  }

  predicate SameKeyEffects(a: Event, b: Event) {
    a.Committed? && b.Committed? && IdOf(a.request) == IdOf(b.request)
  }

  ghost predicate RepeatsPayload(log: seq<Event>, i: nat, k: nat)
    requires k < |log| && log[k].Replayed?
  {
    AnsweredBy(log, i, k)
    && forall made, asked :: Fingerprinted(log[i].request, made) && Fingerprinted(log[k].request, asked) ==>
         made == asked
  }

  lemma SamePayload(log: seq<Event>, i: nat, k: nat)
    requires k < |log| && log[k].Replayed? && AnsweredBy(log, i, k)
    ensures RepeatsPayload(log, i, k)
  {
    forall made, asked | Fingerprinted(log[i].request, made) && Fingerprinted(log[k].request, asked)
      ensures made == asked
    {
      FingerprintSeparates(log[i].request.operation, made, log[k].request.operation, asked);
    }
  }
}
