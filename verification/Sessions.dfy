/** Admin sessions: created under the session policy, renewed by use, ended by either
    expiry or by revocation. */
module Sessions {
  import opened Wrappers
  import opened Hashing
  import Settings
  import Sql

  /** `tokenHash` is unique; instants and durations are in nanoseconds. */
  datatype Session = Session(
    tokenHash: Digest, issuer: string, subject: string, createdAt: int, lastUsedAt: int,
    expiresAt: int, idleExpiresAt: int, revokedAt: Option<int>)

  type Table = map<nat, Session>

  datatype Policy = Policy(absolute: int, idle: int)

  datatype Error = Incomplete | InvalidPolicy | NoSession | DuplicateToken | AlreadyRevoked | CurrentSession | NotActive

  datatype Status = Revoked | Expired | IdleExpired | Active

  const SECOND: int := 1_000_000_000

  predicate Usable(p: Policy) { p.absolute > 0 && p.idle > 0 && p.idle <= p.absolute }

  function HashCredential(token: string): Digest { Sha256(token) }

  // ----- Statements -----

  function NewSession(token: string, issuer: string, subject: string, p: Policy, now: int): Session {
    Session(HashCredential(token), issuer, subject, now, now, now + p.absolute, now + p.idle, None)
  }

  /** The WHERE clause of an authentication, beside the token hash. */
  predicate Live(s: Session, at: int) {
    s.revokedAt.None? && s.expiresAt > at && s.idleExpiresAt > at
  }

  function Min(a: int, b: int): int { if a <= b then a else b }

  function Max(a: int, b: int): int { if a >= b then a else b }

  /** `seconds` is the idle policy in whole seconds. */
  function Renewed(s: Session, at: int, seconds: int): Session {
    s.(lastUsedAt := Max(s.lastUsedAt, at), idleExpiresAt := Min(s.expiresAt, at + seconds * SECOND))
  }

  /** idleTTL / time.Second. */
  function WholeSeconds(p: Policy): int
    requires p.idle > 0
  {
    p.idle / SECOND
  }

  function ByToken(table: Table, hash: Digest): set<nat> {
    set id | id in table && table[id].tokenHash == hash
  }

  function AfterUse(table: Table, hash: Digest, at: int, seconds: int): Table {
    map id | id in table ::
      if table[id].tokenHash == hash && Live(table[id], at) then Renewed(table[id], at, seconds) else table[id]
  }

  function AfterRevoke(table: Table, id: nat, at: int): Table {
    if id in table && table[id].revokedAt.None? then table[id := table[id].(revokedAt := Some(at))] else table
  }

  predicate Ends(s: Session, id: nat, issuer: string, subject: string, current: nat, at: int) {
    s.issuer == issuer && s.subject == subject && id != current && Live(s, at)
  }

  function AfterRevokePrincipal(table: Table, issuer: string, subject: string, current: nat, at: int): Table {
    map id | id in table ::
      if Ends(table[id], id, issuer, subject, current, at) then table[id].(revokedAt := Some(at)) else table[id]
  }

  /** The status an operator is shown. */
  function EffectiveStatus(s: Session, now: int): Status {
    if s.revokedAt.Some? then Revoked
    else if now >= s.expiresAt then Expired
    else if now >= s.idleExpiresAt then IdleExpired
    else Active
  }

  ghost predicate UniqueTokens(table: Table) {
    forall i, j :: i in table && j in table && table[i].tokenHash == table[j].tokenHash ==> i == j
  }

  /** The token is that of this session, which is neither revoked nor past either end. */
  predicate Accepts(table: Table, id: nat, token: string, now: int) {
    && id in table && table[id].tokenHash == Sha256(token)
    && table[id].revokedAt.None? && now < table[id].expiresAt && now < table[id].idleExpiresAt
  }

  /** Only this session moves: last used now, unless that was later, and idle until the
      policy's whole seconds from now, but no later than its absolute end. */
  ghost predicate RenewedAt(before: Table, after: Table, id: nat, policy: Policy, now: int) {
    && id in before && after.Keys == before.Keys
    && (forall other :: other in before && other != id ==> after[other] == before[other])
    && (var s, n, until := before[id], after[id], now + policy.idle - policy.idle % 1_000_000_000;
        && n.tokenHash == s.tokenHash && n.issuer == s.issuer && n.subject == s.subject
        && n.createdAt == s.createdAt && n.expiresAt == s.expiresAt && n.revokedAt == s.revokedAt
        && n.lastUsedAt == (if s.lastUsedAt < now then now else s.lastUsedAt)
        && n.idleExpiresAt == if until < s.expiresAt then until else s.expiresAt)
  }

  class Manager {
    var table: Table

    constructor (table: Table)
      ensures this.table == table
    {
      this.table := table;
    }

    /** `complete` says that the identity is complete; `id` is the new row's id. */
    method Create(token: string, issuer: string, subject: string, complete: bool, policy: Policy, id: nat,
        now: int) returns (r: Result<(), Error>)
      requires id !in table
      modifies this
      ensures r.Ok? <==>
        && complete && 0 < policy.idle <= policy.absolute
        && forall other :: other in old(table) ==> old(table)[other].tokenHash != Sha256(token)
      ensures r.Ok? ==>
        table == old(table)[id :=
          Session(Sha256(token), issuer, subject, now, now, now + policy.absolute, now + policy.idle, None)]
      ensures r.Ok? ==> Live(table[id], now) && table[id].idleExpiresAt <= table[id].expiresAt
      ensures r.Err? ==> table == old(table)
    {
      if !complete {
        return Err(Incomplete);
      }
      if policy.absolute <= 0 || policy.idle <= 0 || policy.idle > policy.absolute {
        return Err(InvalidPolicy);
      }
      if ByToken(table, HashCredential(token)) != {} {
        ghost var other := Sql.Pick(ByToken(table, HashCredential(token)));
        return Err(DuplicateToken);
      }
      assert forall other :: other in table ==> other !in ByToken(table, HashCredential(token));
      table := table[id := Session(
        HashCredential(token), issuer, subject, now, now, now + policy.absolute, now + policy.idle, None)];
      return Ok(());
    }

    /** Accepts exactly a token of a live session, and renews that session. */
    method Authenticate(token: string, policy: Policy, now: int) returns (r: Result<nat, Error>)
      modifies this
      ensures r.Ok? ==> 0 < policy.idle <= policy.absolute
      ensures r.Ok? ==> Accepts(old(table), r.value, token, now)
      ensures r.Ok? ==> RenewedAt(old(table), table, r.value, policy, now)
      ensures r.Ok? && UniqueTokens(old(table)) ==>
        table == AfterUse(old(table), HashCredential(token), now, WholeSeconds(policy))
      ensures r.Err? ==> table == old(table)
      ensures r.Err? && 0 < policy.idle <= policy.absolute ==> forall id :: !Accepts(table, id, token, now)
    {
      if policy.absolute <= 0 || policy.idle <= 0 || policy.idle > policy.absolute {
        return Err(InvalidPolicy);
      }
      var found := set id | id in table && table[id].tokenHash == HashCredential(token) && Live(table[id], now);
      if found == {} {
        forall id ensures !Accepts(table, id, token, now) {
          assert id !in found;
        }
        return Err(NoSession);
      }
      var id :| id in found;
      var seconds := policy.idle / SECOND;
      table := table[id := table[id].(
        lastUsedAt := if table[id].lastUsedAt >= now then table[id].lastUsedAt else now,
        idleExpiresAt :=
          if table[id].expiresAt <= now + seconds * SECOND then table[id].expiresAt else now + seconds * SECOND)];
      return Ok(id);
    }

    method Revoke(id: nat, at: int) returns (r: Result<(), Error>)
      modifies this
      ensures table == AfterRevoke(old(table), id, at)
      ensures r.Ok? <==> id in old(table) && old(table)[id].revokedAt.None?
    {
      if id !in table || table[id].revokedAt.Some? {
        return Err(AlreadyRevoked);
      }
      table := table[id := table[id].(revokedAt := Some(at))];
      return Ok(());
    }

    method RevokeOther(id: nat, current: nat, at: int) returns (r: Result<(), Error>)
      modifies this
      ensures id == current ==> r == Err(CurrentSession) && table == old(table)
      ensures id != current ==> (r.Ok? <==>
        && id in old(table) && old(table)[id].revokedAt.None?
        && at < old(table)[id].expiresAt && at < old(table)[id].idleExpiresAt)
      ensures id != current ==> table == if r.Ok? then AfterRevoke(old(table), id, at) else old(table)
    {
      if id == current {
        return Err(CurrentSession);
      }
      if id !in table || !Live(table[id], at) {
        return Err(NotActive);
      }
      table := table[id := table[id].(revokedAt := Some(at))];
      return Ok(());
    }

    method RevokePrincipal(issuer: string, subject: string, current: nat, at: int) returns (n: nat)
      modifies this
      ensures table == AfterRevokePrincipal(old(table), issuer, subject, current, at)
      ensures table.Keys == old(table).Keys
      ensures forall id :: id in table ==>
        table[id] ==
          if id != current && old(table)[id].issuer == issuer && old(table)[id].subject == subject
             && old(table)[id].revokedAt.None? && at < old(table)[id].expiresAt && at < old(table)[id].idleExpiresAt
          then old(table)[id].(revokedAt := Some(at)) else old(table)[id]
      ensures n == |set id | id in table && table[id] != old(table)[id]|
    {
      var ended := set id | id in table && Ends(table[id], id, issuer, subject, current, at);
      n := |ended|;
      table := map id | id in table :: if id in ended then table[id].(revokedAt := Some(at)) else table[id];
      assert ended == set id | id in table && table[id] != old(table)[id];
    }
  }

  /** The list shows a session as active exactly when its token would authenticate. */
  lemma ShownActiveIffLive(s: Session, now: int)
    ensures EffectiveStatus(s, now) == Active <==> Live(s, now)
  {
  }

  // ----- Runs -----

  /** Policies may change between any two steps. */
  datatype Step =
    | Login(token: string, issuer: string, subject: string, policy: Policy, id: nat, at: int)
    | Use(token: string, policy: Policy, at: int)
    | Revoke(id: nat, at: int)
    | RevokeOther(id: nat, current: nat, at: int)
    | RevokePrincipal(issuer: string, subject: string, current: nat, at: int)

  function Next(t: Table, step: Step): Table {
    match step
    case Login(token, issuer, subject, policy, id, at) =>
      if id in t || !Usable(policy) || ByToken(t, HashCredential(token)) != {} then t
      else t[id := NewSession(token, issuer, subject, policy, at)]
    case Use(token, policy, at) =>
      if Usable(policy) then AfterUse(t, HashCredential(token), at, WholeSeconds(policy)) else t
    case Revoke(id, at) => AfterRevoke(t, id, at)
    case RevokeOther(id, current, at) =>
      if id != current && id in t && Live(t[id], at) then AfterRevoke(t, id, at) else t
    case RevokePrincipal(issuer, subject, current, at) => AfterRevokePrincipal(t, issuer, subject, current, at)
  }

  ghost predicate Execution(states: seq<Table>, steps: seq<Step>) {
    && |states| == |steps| + 1 && states[0] == map[]
    && forall i :: 0 <= i < |steps| ==> states[i + 1] == Next(states[i], steps[i])
  }

  ghost predicate Inv(t: Table) {
    && UniqueTokens(t)
    && forall id :: id in t ==> t[id].idleExpiresAt <= t[id].expiresAt && t[id].createdAt <= t[id].lastUsedAt
  }

  lemma StepKeepsInv(t: Table, step: Step)
    requires Inv(t)
    ensures Inv(Next(t, step))
  {
    if step.Login? {
      forall id | id in t && ByToken(t, HashCredential(step.token)) == {}
        ensures t[id].tokenHash != HashCredential(step.token)
      {
        assert id !in ByToken(t, HashCredential(step.token));
      }
    }
  }

  /** Whatever the policy becomes, no session idles past its absolute end. */
  lemma {:induction false} IdleNeverPassesAbsolute(states: seq<Table>, steps: seq<Step>, i: nat)
    requires Execution(states, steps) && i < |states|
    ensures Inv(states[i])
  {
    hide Next;
    if i > 0 {
      IdleNeverPassesAbsolute(states, steps, i - 1);
      StepKeepsInv(states[i - 1], steps[i - 1]);
    }
  }

  /** What one step may do to a session that exists. */
  lemma StepOnSession(t: Table, step: Step, id: nat)
    requires id in t
    ensures id in Next(t, step)
    ensures var s, n := t[id], Next(t, step)[id];
      && n.tokenHash == s.tokenHash && n.issuer == s.issuer && n.subject == s.subject && n.createdAt == s.createdAt
      && n.expiresAt == s.expiresAt && n.lastUsedAt >= s.lastUsedAt
      && (s.revokedAt.Some? ==> n == s)
      && (n.idleExpiresAt != s.idleExpiresAt || n.lastUsedAt != s.lastUsedAt ==> step.Use? && Live(s, step.at))
  {
  }

  /** Revocation is permanent, the absolute end never moves and the last use never goes
      back. */
  lemma {:induction false} RevocationIsPermanent(states: seq<Table>, steps: seq<Step>, i: nat, j: nat, id: nat)
    requires Execution(states, steps) && i <= j < |states| && id in states[i]
    ensures id in states[j] && states[j][id].expiresAt == states[i][id].expiresAt
    ensures states[j][id].lastUsedAt >= states[i][id].lastUsedAt
    ensures states[i][id].revokedAt.Some? ==> states[j][id] == states[i][id]
    decreases j
  {
    hide Next;
    if i < j {
      RevocationIsPermanent(states, steps, i, j - 1, id);
      StepOnSession(states[j - 1], steps[j - 1], id);
    }
  }

  /** A session that is not live at some instant is never live again at that instant or
      later, if no step after that bears an earlier one. */
  lemma {:induction false} DeadStaysDead(states: seq<Table>, steps: seq<Step>, i: nat, j: nat, id: nat, at: int,
      later: int)
    requires Execution(states, steps) && i <= j < |states| && id in states[i] && !Live(states[i][id], at) && at <= later
    requires forall k :: i <= k < j ==> at <= steps[k].at
    ensures id in states[j] && !Live(states[j][id], at) && !Live(states[j][id], later)
    decreases j
  {
    hide Next;
    if i < j {
      DeadStaysDead(states, steps, i, j - 1, id, at, later);
      DeadStaysDead(states, steps, i, j - 1, id, at, steps[j - 1].at);
      StepOnSession(states[j - 1], steps[j - 1], id);
    }
  }

  /** Revoking a principal ends every other session it had, for good. */
  lemma PrincipalIsOut(states: seq<Table>, steps: seq<Step>, i: nat, j: nat, id: nat, later: int)
    requires Execution(states, steps) && i < j < |states| && steps[i].RevokePrincipal? && id in states[i]
    requires states[i][id].issuer == steps[i].issuer && states[i][id].subject == steps[i].subject
    requires id != steps[i].current
    requires steps[i].at <= later && forall k :: i < k < j ==> steps[i].at <= steps[k].at
    ensures id in states[j] && !Live(states[j][id], later)
  {
    StepOnSession(states[i], steps[i], id);
    assert !Live(states[i + 1][id], steps[i].at);
    hide Next;
    DeadStaysDead(states, steps, i + 1, j, id, steps[i].at, later);
  }

  // ----- Lifetimes -----

  /** A use that authenticates the session. */
  predicate Uses(t: Table, step: Step, id: nat) {
    step.Use? && 0 < step.policy.idle <= step.policy.absolute && Accepts(t, id, step.token, step.at)
  }

  /** Nothing but a use moves the idle end. */
  lemma OnlyUseRenews(t: Table, step: Step, id: nat)
    requires Inv(t) && id in t
    ensures id in Next(t, step)
    ensures !Uses(t, step, id) ==>
      Next(t, step)[id].idleExpiresAt == t[id].idleExpiresAt && Next(t, step)[id].expiresAt == t[id].expiresAt
    ensures Uses(t, step, id) ==> RenewedAt(t, Next(t, step), id, step.policy, step.at)
  {
  }

  lemma {:induction false} IdleEndStays(states: seq<Table>, steps: seq<Step>, i: nat, j: nat, id: nat)
    requires Execution(states, steps) && i <= j < |states| && id in states[i]
    requires forall k :: i <= k < j ==> !Uses(states[k], steps[k], id)
    ensures id in states[j] && states[j][id].idleExpiresAt == states[i][id].idleExpiresAt
    ensures states[j][id].expiresAt == states[i][id].expiresAt
    decreases j
  {
    hide Next;
    hide Uses;
    if i < j {
      IdleEndStays(states, steps, i, j - 1, id);
      IdleNeverPassesAbsolute(states, steps, j - 1);
      OnlyUseRenews(states[j - 1], steps[j - 1], id);
    }
  }

  /** A session lives for the idle time from its login, and no longer without a use: its
      token is accepted at `at` exactly if it is not revoked and `at` comes before login
      plus idle. */
  lemma UnusedSessionLapses(states: seq<Table>, steps: seq<Step>, i: nat, j: nat, id: nat, at: int)
    requires Execution(states, steps) && i < j < |states| && steps[i].Login?
    requires id == steps[i].id && id !in states[i] && id in states[i + 1]
    requires forall k :: i < k < j ==> !Uses(states[k], steps[k], id)
    ensures id in states[j] && states[j][id].expiresAt == steps[i].at + steps[i].policy.absolute
    ensures Accepts(states[j], id, steps[i].token, at) <==>
      states[j][id].revokedAt.None? && at < steps[i].at + steps[i].policy.idle
  {
    IdleEndStays(states, steps, i + 1, j, id);
    SameToken(states, steps, i + 1, j, id);
    hide Execution;
  }

  lemma {:induction false} SameToken(states: seq<Table>, steps: seq<Step>, i: nat, j: nat, id: nat)
    requires Execution(states, steps) && i <= j < |states| && id in states[i]
    ensures id in states[j] && states[j][id].tokenHash == states[i][id].tokenHash
    decreases j
  {
    hide Next;
    if i < j {
      SameToken(states, steps, i, j - 1, id);
      StepOnSession(states[j - 1], steps[j - 1], id);
    }
  }

  /** After its last use it lives for that use's whole idle seconds, but never past its
      absolute end. */
  lemma UsedSessionLapses(states: seq<Table>, steps: seq<Step>, i: nat, j: nat, id: nat, at: int)
    requires Execution(states, steps) && i < j < |states| && Uses(states[i], steps[i], id)
    requires forall k :: i < k < j ==> !Uses(states[k], steps[k], id)
    ensures id in states[j]
    ensures var idle := steps[i].policy.idle - steps[i].policy.idle % 1_000_000_000;
      Accepts(states[j], id, steps[i].token, at) <==>
        states[j][id].revokedAt.None? && at < states[j][id].expiresAt && at < steps[i].at + idle
  {
    IdleNeverPassesAbsolute(states, steps, i);
    OnlyUseRenews(states[i], steps[i], id);
    IdleEndStays(states, steps, i + 1, j, id);
    SameToken(states, steps, i, j, id);
    hide Execution;
    hide Next;
  }

  /** The policy that any reachable settings yield is one sessions can be created
      under, and its idle time is a whole number of seconds. */
  lemma SettingsPolicyIsUsable(states: seq<Settings.State>, attempts: seq<Settings.Attempt>, i: nat)
    requires Settings.Execution(states, attempts) && i < |states|
    ensures Settings.SessionPolicy(Settings.View(states[i].stored)).Ok?
    ensures var p := Settings.SessionPolicy(Settings.View(states[i].stored)).value;
      Usable(Policy(p.0, p.1)) && WholeSeconds(Policy(p.0, p.1)) * SECOND == p.1
  {
    Settings.EveryRunIsConsistent(states, attempts, i);
    Settings.SessionPolicyIsUsable(states[i].stored);
    hide Settings.View;
    hide Settings.SessionPolicy;
  }
}
