/** A batch transaction beside the application's own, one row operation at a time:
    row locks, SKIP LOCKED, uncommitted writes, commits and rollbacks in any order. */
module RewrapRuns {
  import opened Wrappers
  import opened Sql
  import Aead
  import opened Values
  import opened Rewrap

  /** The batch holds the locks of `ids`; `copies` are the rows as it read them, `work`
      its own uncommitted updates of the first `done` of them. */
  datatype Batch = Batch(ids: seq<nat>, copies: Table, done: nat, work: Table)

  /** `locks` says which application transaction locked a row and `pending` what it
      will commit (None deletes the row). `written` is the table the application
      alone would have produced. */
  datatype State = State(
    rows: Table, locks: map<nat, nat>, pending: map<nat, map<nat, Option<StoredValue>>>,
    batch: Option<Batch>, failure: Option<Error>, written: Table)

  datatype Step =
    | Write(tx: nat, id: nat, value: Option<StoredValue>)
    | Commit(tx: nat)
    | Rollback(tx: nat)
    | Select(size: nat)
    | RewrapNext(random: Option<Aead.Nonce>)
    | CommitBatch
    | AbortBatch

  function Written(s: State, tx: nat): map<nat, Option<StoredValue>> {
    if tx in s.pending then s.pending[tx] else map[]
  }

  function Applied(rows: Table, writes: map<nat, Option<StoredValue>>): Table {
    map id | id in rows.Keys + writes.Keys && (id in writes ==> writes[id].Some?) ::
      if id in writes then writes[id].value else rows[id]
  }

  predicate Enabled(c: Cryptor, s: State, step: Step) {
    match step
    case Write(tx, id, value) =>
      (id in s.locks ==> s.locks[id] == tx) && (s.batch.Some? ==> id !in s.batch.value.ids)
    case Commit(tx) => tx in s.pending
    case Rollback(tx) => tx in s.pending
    case Select(size) => s.batch.None?
    case RewrapNext(random) => s.batch.Some? && s.batch.value.done < |s.batch.value.ids|
    case CommitBatch => s.batch.Some? && s.batch.value.done == |s.batch.value.ids|
    case AbortBatch => s.batch.Some?
  }

  /** The compare-and-swap of the update, against the row as it now is. */
  predicate Unchanged(rows: Table, id: nat, v: StoredValue) {
    id in rows && rows[id].keyVersion == v.keyVersion && rows[id].cipher == v.cipher && rows[id].nonce == v.nonce
  }

  function RowOutcome(c: Cryptor, rows: Table, id: nat, copy: StoredValue,
      random: Option<Aead.Nonce>): Result<StoredValue, Error>
    requires Aead.ValidCryptor(c)
  {
    match RewrapRow(c, copy, c.current, random)
    case Err(e) => Err(e)
    case Ok(v) => if Unchanged(rows, id, copy) then Ok(v.(plain := rows[id].plain)) else Err(CasConflict)
  }

  function ReleaseTx(s: State, tx: nat): State {
    s.(locks := map id | id in s.locks && s.locks[id] != tx :: s.locks[id], pending := s.pending - {tx})
  }

  function Next(c: Cryptor, s: State, step: Step): State
    requires Aead.ValidCryptor(c) && Enabled(c, s, step)
  {
    match step
    case Write(tx, id, value) =>
      s.(locks := s.locks[id := tx], pending := s.pending[tx := Written(s, tx)[id := value]])
    case Commit(tx) =>
      ReleaseTx(s, tx).(rows := Applied(s.rows, s.pending[tx]), written := Applied(s.written, s.pending[tx]))
    case Rollback(tx) => ReleaseTx(s, tx)
    case Select(size) =>
      var ids := BatchIds(s.rows, c.current, size, s.locks.Keys);
      s.(batch := Some(Batch(ids, s.rows, 0, map[])), failure := None)
    case RewrapNext(random) =>
      var b := s.batch.value;
      var id := b.ids[b.done];
      if id !in b.copies then s
      else
        (match RowOutcome(c, s.rows, id, b.copies[id], random)
         case Err(e) => s.(batch := None, failure := Some(e))
         case Ok(v) => s.(batch := Some(b.(done := b.done + 1, work := b.work[id := v]))))
    case CommitBatch => s.(rows := s.rows + s.batch.value.work, batch := None)
    case AbortBatch => s.(batch := None)
  }

  // ----- What every step keeps -----

  ghost predicate LocksHeld(s: State) {
    forall tx, id :: tx in s.pending && id in s.pending[tx] ==> id in s.locks && s.locks[id] == tx
  }

  ghost predicate BatchInv(c: Cryptor, rows: Table, locks: map<nat, nat>, b: Batch)
    requires Aead.ValidCryptor(c)
  {
    && Strict(b.ids) && b.done <= |b.ids|
    && (forall id :: id in b.ids ==> id !in locks && id in rows && id in b.copies && b.copies[id] == rows[id])
    && (forall id :: id in b.work ==> id in b.ids && Refreshed(c, rows[id], b.work[id]))
  }

  ghost predicate Inv(c: Cryptor, s: State)
    requires Aead.ValidCryptor(c)
  {
    && Progress(c, s.written, s.rows)
    && LocksHeld(s)
    && (s.batch.Some? ==> BatchInv(c, s.rows, s.locks, s.batch.value))
    && s.failure != Some(CasConflict)
  }

  lemma WriteKeeps(c: Cryptor, s: State, tx: nat, id: nat, value: Option<StoredValue>)
    requires Aead.ValidCryptor(c) && Inv(c, s) && Enabled(c, s, Write(tx, id, value))
    ensures Inv(c, Next(c, s, Write(tx, id, value)))
  {
  }

  lemma ReleaseKeeps(c: Cryptor, s: State, tx: nat)
    requires Aead.ValidCryptor(c) && Inv(c, s)
    ensures Inv(c, ReleaseTx(s, tx))
  {
  }

  lemma AppliedKeepsProgress(c: Cryptor, written: Table, rows: Table, writes: map<nat, Option<StoredValue>>)
    requires Aead.ValidCryptor(c) && Progress(c, written, rows)
    ensures Progress(c, Applied(written, writes), Applied(rows, writes))
  {
  }

  lemma CommitKeeps(c: Cryptor, s: State, tx: nat)
    requires Aead.ValidCryptor(c) && Inv(c, s) && tx in s.pending
    ensures Inv(c, Next(c, s, Commit(tx)))
  {
    AppliedKeepsProgress(c, s.written, s.rows, s.pending[tx]);
    ReleaseKeeps(c, s, tx);
    if s.batch.Some? {
      var b := s.batch.value;
      forall id | id in b.ids ensures id !in s.pending[tx] {
        assert id !in s.locks;
      }
    }
  }

  lemma SelectedBatch(c: Cryptor, rows: Table, locks: map<nat, nat>, size: nat)
    requires Aead.ValidCryptor(c)
    ensures BatchInv(c, rows, locks, Batch(BatchIds(rows, c.current, size, locks.Keys), rows, 0, map[]))
  {
    var ids := BatchIds(rows, c.current, size, locks.Keys);
    BatchIdsAreStale(rows, c.current, size, locks.Keys, ids);
    hide BatchIds;
    hide Refreshed;
    hide Stale;
    hide Strict;
  }

  lemma SelectIs(c: Cryptor, s: State, size: nat)
    requires Aead.ValidCryptor(c) && s.batch.None?
    ensures Next(c, s, Select(size)) ==
      s.(batch := Some(Batch(BatchIds(s.rows, c.current, size, s.locks.Keys), s.rows, 0, map[])), failure := None)
  {
    hide BatchIds;
  }

  lemma SelectKeeps(c: Cryptor, s: State, size: nat)
    requires Aead.ValidCryptor(c) && Inv(c, s) && s.batch.None?
    ensures Inv(c, Next(c, s, Select(size)))
  {
    hide BatchIds;
    hide BatchInv;
    hide Next;
    hide Progress;
    SelectIs(c, s, size);
    SelectedBatch(c, s.rows, s.locks, size);
  }

  /** The row is locked since it was read, so the swap cannot fail. */
  lemma LockedRowIsUnchanged(c: Cryptor, s: State, random: Option<Aead.Nonce>)
    requires Aead.ValidCryptor(c) && Inv(c, s) && Enabled(c, s, RewrapNext(random))
    ensures var b := s.batch.value;
      var id := b.ids[b.done];
      && id in b.copies && id in s.rows && Unchanged(s.rows, id, b.copies[id])
      && RowOutcome(c, s.rows, id, b.copies[id], random) == RewrapRow(c, s.rows[id], c.current, random)
  {
    var b := s.batch.value;
    assert b.ids[b.done] in b.ids;
  }

  lemma RewrapNextKeeps(c: Cryptor, s: State, random: Option<Aead.Nonce>)
    requires Aead.ValidCryptor(c) && Inv(c, s) && Enabled(c, s, RewrapNext(random))
    ensures Inv(c, Next(c, s, RewrapNext(random)))
  {
    LockedRowIsUnchanged(c, s, random);
    var b := s.batch.value;
    var id := b.ids[b.done];
    if RewrapRow(c, s.rows[id], c.current, random).Ok? {
      RewrappedRow(c, s.rows[id], random);
    }
  }

  lemma CommitBatchKeeps(c: Cryptor, s: State)
    requires Aead.ValidCryptor(c) && Inv(c, s) && Enabled(c, s, CommitBatch)
    ensures Inv(c, Next(c, s, CommitBatch))
  {
    var after := s.rows + s.batch.value.work;
    assert Progress(c, s.rows, after);
    ProgressComposes(c, s.written, s.rows, after);
  }

  lemma StepKeepsInv(c: Cryptor, s: State, step: Step)
    requires Aead.ValidCryptor(c) && Inv(c, s) && Enabled(c, s, step)
    ensures Inv(c, Next(c, s, step))
  {
    match step
    case Write(tx, id, value) => WriteKeeps(c, s, tx, id, value);
    case Commit(tx) => CommitKeeps(c, s, tx);
    case Rollback(tx) => ReleaseKeeps(c, s, tx);
    case Select(size) => SelectKeeps(c, s, size);
    case RewrapNext(random) => RewrapNextKeeps(c, s, random);
    case CommitBatch => CommitBatchKeeps(c, s);
    case AbortBatch =>
  }

  // ----- Runs -----

  ghost predicate Initial(s: State) {
    s.locks == map[] && s.pending == map[] && s.batch.None? && s.failure.None? && s.written == s.rows
  }

  ghost predicate Execution(c: Cryptor, states: seq<State>, steps: seq<Step>)
    requires Aead.ValidCryptor(c)
  {
    && |states| == |steps| + 1 && Initial(states[0])
    && forall i :: 0 <= i < |steps| ==> Enabled(c, states[i], steps[i]) && states[i + 1] == Next(c, states[i], steps[i])
  }

  lemma {:induction false} EveryRunKeepsInv(c: Cryptor, states: seq<State>, steps: seq<Step>, i: nat)
    requires Aead.ValidCryptor(c) && Execution(c, states, steps) && i < |states|
    ensures Inv(c, states[i])
  {
    if i == 0 {
      assert Progress(c, states[0].written, states[0].rows);
    } else {
      EveryRunKeepsInv(c, states, steps, i - 1);
      StepKeepsInv(c, states[i - 1], steps[i - 1]);
    }
  }

  /** In every interleaving, the campaign is invisible to whoever reads the values:
      each row exists, and reads, as if only the application had written. */
  lemma RewrapIsInvisible(c: Cryptor, e: Cryptor, states: seq<State>, steps: seq<Step>, i: nat)
    requires Aead.ValidCryptor(c) && Extends(c, e) && Execution(c, states, steps) && i < |states|
    ensures states[i].rows.Keys == states[i].written.Keys
    ensures forall id :: id in states[i].rows ==>
      DecodeValue(e, states[i].rows[id]) == DecodeValue(e, states[i].written[id])
    ensures states[i].failure != Some(CasConflict)
  {
    EveryRunKeepsInv(c, states, steps, i);
    forall id | id in states[i].rows
      ensures DecodeValue(e, states[i].rows[id]) == DecodeValue(e, states[i].written[id])
    {
      RefreshedReadsTheSame(c, e, states[i].written[id], states[i].rows[id]);
    }
  }

  /** A row changes only when a transaction that wrote it commits, or when a batch
      commits; the batch moves its version to the current one, sealed by that key,
      and a batch that is aborted or fails changes no row. */
  lemma OnlyCommitsChangeRows(c: Cryptor, s: State, step: Step, id: nat)
    requires Aead.ValidCryptor(c) && Inv(c, s) && Enabled(c, s, step) && id in s.rows
    requires var t := Next(c, s, step); id !in t.rows || t.rows[id] != s.rows[id]
    ensures
      || (step.Commit? && id in s.pending[step.tx])
      || (step.CommitBatch? && id in s.batch.value.ids && id !in s.locks && id in Next(c, s, step).rows
          && Refreshed(c, s.rows[id], Next(c, s, step).rows[id])
          && Next(c, s, step).rows[id].keyVersion == Some(c.current))
  {
  }
}
