/** How long an effect answers for its key: its record lives from the begin of its
    request for the request's ttl, every retry in that time is answered from it, and a
    second effect comes only after that time and a cleanup. */
module IdempotencyLifetimes {
  import opened Wrappers
  import opened Hashing
  import Aead
  import opened Idempotency
  import opened IdempotencyRuns

  // ----- Claims expire a ttl after they began -----

  predicate ExpiresAfterTtl(t: Tx) {
    match t.stage
    case Reading => true
    case Claimed(claim) => claim.expiresAt == t.begunAt + t.request.ttl
    case Done(record, _) => record.expiresAt == t.begunAt + t.request.ttl
  }

  lemma StepKeepsTtl(c: Aead.Cryptor, s: State, step: Step)
    requires Aead.ValidCryptor(c) && Enabled(c, s, step)
    requires forall t :: t in s.txs ==> ExpiresAfterTtl(s.txs[t])
    ensures forall t :: t in Next(c, s, step).txs ==> ExpiresAfterTtl(Next(c, s, step).txs[t])
  {
    hide AfterRead;
    hide Held;
    if step.Read? {
      ReadEnds(c, s, step.tx);
    }
  }

  lemma ReadEnds(c: Aead.Cryptor, s: State, tx: nat)
    requires tx in s.txs
    ensures AfterRead(c, s, tx).txs == s.txs - {tx} && |AfterRead(c, s, tx).log| == |s.log| + 1
    ensures AfterRead(c, s, tx).log[..|s.log|] == s.log && !AfterRead(c, s, tx).log[|s.log|].Committed?
  {
  }

  lemma {:induction false} ClaimsExpireAfterTtl(c: Aead.Cryptor, states: seq<State>, steps: seq<Step>, n: nat)
    requires Aead.ValidCryptor(c) && Execution(c, states, steps) && n < |states|
    ensures forall t :: t in states[n].txs ==> ExpiresAfterTtl(states[n].txs[t])
  {
    hide Next;
    hide Enabled;
    hide ExpiresAfterTtl;
    if n > 0 {
      ClaimsExpireAfterTtl(c, states, steps, n - 1);
      StepKeepsTtl(c, states[n - 1], steps[n - 1]);
    }
  }

  /** Step b began the transaction that is open as `t`. */
  predicate BeganAt(steps: seq<Step>, b: nat, tx: nat, t: Tx) {
    b < |steps| && steps[b] == Begin(tx, t.request, t.begunAt)
  }

  lemma OpenStays(c: Aead.Cryptor, s: State, step: Step, tx: nat)
    requires Aead.ValidCryptor(c) && Enabled(c, s, step) && tx in Next(c, s, step).txs
    ensures var t := Next(c, s, step).txs[tx];
      || step == Begin(tx, t.request, t.begunAt)
      || (tx in s.txs && s.txs[tx].request == t.request && s.txs[tx].begunAt == t.begunAt)
  {
    hide AfterRead;
    hide Held;
    if step.Read? {
      ReadEnds(c, s, step.tx);
    }
  }

  /** Every open transaction has a begin. */
  lemma {:induction false} OpenBegan(c: Aead.Cryptor, states: seq<State>, steps: seq<Step>, n: nat, tx: nat)
      returns (b: nat)
    requires Aead.ValidCryptor(c) && Execution(c, states, steps) && n < |states| && tx in states[n].txs
    ensures b < n && BeganAt(steps, b, tx, states[n].txs[tx])
    decreases n
  {
    assert n > 0;
    hide Next;
    hide Enabled;
    OpenStays(c, states[n - 1], steps[n - 1], tx);
    if BeganAt(steps, n - 1, tx, states[n].txs[tx]) {
      b := n - 1;
    } else {
      b := OpenBegan(c, states, steps, n - 1, tx);
    }
  }

  // ----- Committed effects -----

  /** The request of the effect at i began at step b, and its record expires when its ttl
      has passed since. */
  predicate LivesFrom(steps: seq<Step>, b: nat, e: Event) {
    && b < |steps| && steps[b].Begin? && e.Committed? && steps[b].request == e.request
    && e.expiresAt == steps[b].now + e.request.ttl
  }

  lemma CommitLives(c: Aead.Cryptor, states: seq<State>, steps: seq<Step>, n: nat) returns (b: nat)
    requires Aead.ValidCryptor(c) && Execution(c, states, steps) && n < |steps| && steps[n].Commit?
    ensures |states[n + 1].log| == |states[n].log| + 1 && states[n].log <= states[n + 1].log
    ensures b < n && LivesFrom(steps, b, states[n + 1].log[|states[n].log|])
    ensures steps[b].Begin? && steps[b].tx == steps[n].tx
  {
    assert Enabled(c, states[n], steps[n]);
    b := OpenBegan(c, states, steps, n, steps[n].tx);
    ClaimsExpireAfterTtl(c, states, steps, n);
    assert ExpiresAfterTtl(states[n].txs[steps[n].tx]);
  }

  lemma OthersDoNotCommit(c: Aead.Cryptor, s: State, step: Step)
    requires Aead.ValidCryptor(c) && Enabled(c, s, step)
    ensures s.log <= Next(c, s, step).log && |Next(c, s, step).log| <= |s.log| + 1
    ensures !step.Commit? ==>
      forall k :: |s.log| <= k < |Next(c, s, step).log| ==> !Next(c, s, step).log[k].Committed?
  {
    hide AfterRead;
    hide Held;
    if step.Read? {
      ReadEnds(c, s, step.tx);
    }
  }

  /** In every run the record of an effect expires exactly its request's ttl after that
      request began. */
  lemma {:induction false} RecordLivesForTtl(c: Aead.Cryptor, states: seq<State>, steps: seq<Step>, n: nat, k: nat)
      returns (b: nat)
    requires Aead.ValidCryptor(c) && Execution(c, states, steps) && n < |states|
    requires k < |states[n].log| && states[n].log[k].Committed?
    ensures b < n && LivesFrom(steps, b, states[n].log[k])
    decreases n
  {
    assert n > 0;
    hide Next;
    hide LivesFrom;
    assert Enabled(c, states[n - 1], steps[n - 1]);
    OthersDoNotCommit(c, states[n - 1], steps[n - 1]);
    hide Enabled;
    if k < |states[n - 1].log| {
      assert states[n].log[k] == states[n - 1].log[k];
      b := RecordLivesForTtl(c, states, steps, n - 1, k);
    } else {
      b := CommitLives(c, states, steps, n - 1);
    }
  }

  /** Between two effects for one key a cleanup ran, no earlier than the first request's
      begin plus its ttl. */
  lemma EffectsAreATtlApart(c: Aead.Cryptor, states: seq<State>, steps: seq<Step>, n: nat, i: nat, j: nat)
      returns (b: nat, k: nat)
    requires Aead.ValidCryptor(c) && Execution(c, states, steps) && n < |states| && i < j < |states[n].log|
    requires states[n].log[i].Committed? && states[n].log[j].Committed?
    requires states[n].log[i].request.actor == states[n].log[j].request.actor
    requires states[n].log[i].request.operation == states[n].log[j].request.operation
    requires states[n].log[i].request.key == states[n].log[j].request.key
    ensures b < n && steps[b].Begin? && steps[b].request == states[n].log[i].request
    ensures i < k < j && states[n].log[k].Cleaned? && IdOf(states[n].log[i].request) in states[n].log[k].ids
    ensures states[n].log[k].at >= steps[b].now + steps[b].request.ttl
  {
    k := OneEffectPerRecord(c, states, steps, n, i, j);
    b := RecordLivesForTtl(c, states, steps, n, i);
    hide Execution;
  }

  // ----- Retries -----

  /** The effect at i, begun at step b, is the last word on the key at the end of `log`. */
  ghost predicate AnswersFor(log: seq<Event>, i: nat, steps: seq<Step>, b: nat, id: Id) {
    LastBefore(log, i, |log|, id) && log[i].Committed? && IdOf(log[i].request) == id && LivesFrom(steps, b, log[i])
  }

  /** Whoever reads a committed record is answered from the one effect that made it:
      another fingerprint is refused as a mismatch; the same one gets the response if it
      began before the effect's begin plus ttl, and is told so if it began later. */
  lemma RetryIsAnswered(c: Aead.Cryptor, states: seq<State>, steps: seq<Step>, n: nat) returns (i: nat, b: nat)
    requires Aead.ValidCryptor(c) && Execution(c, states, steps) && n < |steps| && steps[n].Read?
    ensures steps[n].tx in states[n].txs
    ensures var r, at := states[n].txs[steps[n].tx].request, states[n].txs[steps[n].tx].begunAt;
      if IdOf(r) !in states[n].records then states[n + 1].log == states[n].log + [Refused(r, NoRow)]
      else
        && b < n && AnswersFor(states[n].log, i, steps, b, IdOf(r))
        && states[n].log[i].request.actor == r.actor && states[n].log[i].request.operation == r.operation
        && states[n].log[i].request.key == r.key
        && states[n + 1].log == states[n].log + [
             if states[n].log[i].request.fingerprint != r.fingerprint then Refused(r, FingerprintMismatch)
             else if at < steps[b].now + steps[b].request.ttl then Replayed(r, states[n].log[i].response, at)
             else Refused(r, Expired)]
  {
    assert Enabled(c, states[n], steps[n]) && states[n + 1] == Next(c, states[n], steps[n]);
    var t := states[n].txs[steps[n].tx];
    EveryRunKeepsInv(c, states, steps, n);
    i, b := 0, 0;
    if IdOf(t.request) in states[n].records {
      i := MadeBy(c, states[n], IdOf(t.request));
      b := RecordLivesForTtl(c, states, steps, n, i);
      FoundIs(c, states[n].records[IdOf(t.request)], states[n].log[i], t.request, t.begunAt);
    }
    hide Execution;
    hide Inv;
    hide Found;
    hide Enabled;
  }

  lemma MadeBy(c: Aead.Cryptor, s: State, id: Id) returns (i: nat)
    requires Inv(c, s) && id in s.records
    ensures LastBefore(s.log, i, |s.log|, id) && s.log[i].Committed? && IdOf(s.log[i].request) == id
    ensures Stored(c, s.records[id], s.log[i])
  {
    assert s.log[..|s.log|] == s.log;
    assert Live(s.log, id) && Stored(c, s.records[id], Latest(s.log, id).value);
    hide Inv;
    hide Stored;
    i := LatestIndex(s.log, |s.log|, id);
  }

  lemma FoundIs(c: Aead.Cryptor, row: Record, made: Event, r: Request, now: int)
    requires Stored(c, row, made)
    ensures Found(c, row, r, now) ==
      if made.request.fingerprint != r.fingerprint then Err(FingerprintMismatch)
      else if now < made.expiresAt then Ok(made.response) else Err(Expired)
  {
  }

  // ----- Claims, effects and refusals -----

  /** A well-formed request: a key, an operation, a positive ttl, and an actor that is
      the shared token without an issuer or a user with one. */
  predicate WellFormed(r: Request) {
    && r.key != 0 && r.operation != "" && r.ttl > 0 && r.actor.subject != ""
    && ((r.actor.kind == "shared_admin_token" && r.actor.issuer == "")
        || (r.actor.kind == "oidc_user" && r.actor.issuer != ""))
  }

  /** A malformed request is refused and leaves nothing; a well-formed one claims its
      key unless a committed record has it, and then it goes to read that one. */
  lemma BeginClaims(c: Aead.Cryptor, s: State, step: Step)
    requires Aead.ValidCryptor(c) && Enabled(c, s, step) && step.Begin?
    ensures var n, r := Next(c, s, step), step.request;
      if !WellFormed(r) then n == s.(log := s.log + [Refused(r, Invalid)])
      else
        && n.records == s.records && n.log == s.log && n.txs.Keys == s.txs.Keys + {step.tx}
        && n.txs[step.tx].request == r && n.txs[step.tx].begunAt == step.now
        && (n.txs[step.tx].stage.Claimed? <==> IdOf(r) !in s.records)
        && (n.txs[step.tx].stage.Reading? <==> IdOf(r) in s.records)
  {
    hide Held;
  }

  /** A claim is completed exactly by a storable response, with randomness to seal it,
      and what a commit then makes known is that response; otherwise it rolls back. */
  lemma FinishAndCommit(c: Aead.Cryptor, s: State, step: Step)
    requires Aead.ValidCryptor(c) && Enabled(c, s, step)
    ensures step.Finish? ==>
      var n, t, p := Next(c, s, step), s.txs[step.tx], step.response;
      if 200 <= p.status <= 299 && p.body != "" && |p.contentType| <= 128 && step.random.Some?
      then step.tx in n.txs && n.txs[step.tx].request == t.request && n.txs[step.tx].stage.Done?
        && n.txs[step.tx].stage.response == p
      else n == s.(txs := s.txs - {step.tx})
    ensures step.Commit? ==>
      var n, t := Next(c, s, step), s.txs[step.tx];
      && IdOf(t.request) in n.records && n.txs == s.txs - {step.tx} && |n.log| == |s.log| + 1
      && s.log <= n.log && n.log[|s.log|].Committed?
      && n.log[|s.log|].request == t.request && n.log[|s.log|].response == t.stage.response
  {
    hide AfterRead;
    hide Held;
  }
}
