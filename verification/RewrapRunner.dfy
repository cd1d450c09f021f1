/** The campaign runner: configuration checks, a read-only preflight over every
    encrypted row, and the progress loop. */
module RewrapRunner {
  import opened Wrappers
  import opened Sql
  import Aead
  import opened Values
  import opened Rewrap

  /** Durations and clock readings are in one unit of the wall clock. */
  datatype Config = Config(
    jobIdIsUuid: bool, target: int, batchSize: int, dryRun: bool, confirmedWrite: bool,
    maxDuration: int, noProgressTimeout: int)

  const DEFAULT_NO_PROGRESS: int := 30_000_000_000

  predicate ValidConfig(config: Config, current: int) {
    && config.jobIdIsUuid
    && config.target > 0 && config.target == current
    && 1 <= config.batchSize <= 1000
    && config.maxDuration > 0
    && config.dryRun != config.confirmedWrite
  }

  datatype Summary = Summary(scanned: nat, rewrapped: nat, batches: nat, lockedRetries: nat, remaining: nat)

  // ----- What happens around the campaign -----

  /** A write by the application: an upserted or deleted value row. */
  datatype Write = Put(id: nat, value: StoredValue) | Delete(id: nat)

  function Apply(rows: Table, w: Write): Table {
    match w
    case Put(id, value) => rows[id := value]
    case Delete(id) => rows - {id}
  }

  function ApplyAll(rows: Table, writes: seq<Write>): Table {
    if writes == [] then rows
    else Apply(ApplyAll(rows, writes[..|writes| - 1]), writes[|writes| - 1])
  }

  /** One round of the progress loop: the application's writes before the batch and
      between the batch and the count, the rows others hold locked, the nonces the
      random source can deliver, and the clock reading after the batch. */
  datatype Turn = Turn(before: seq<Write>, locked: set<nat>, randoms: seq<Aead.Nonce>, between: seq<Write>, now: int)

  /** `turns` are the rounds that fit in the campaign's deadline. */
  datatype World = World(lockHeld: bool, during: seq<Write>, safety: bool, start: int, turns: seq<Turn>)

  predicate QuietTurn(t: Turn, batchSize: int) {
    t.before == [] && t.between == [] && t.locked == {} && |t.randoms| >= batchSize
  }

  predicate Quiet(world: World, batchSize: int) {
    && world.during == []
    && forall i :: 0 <= i < |world.turns| ==> QuietTurn(world.turns[i], batchSize)
  }

  predicate AuthenticWrite(c: Cryptor, w: Write) {
    w.Put? && w.value.cipher.Some? ==> AuthenticateRow(c, w.value).Ok?
  }

  predicate AuthenticWrites(c: Cryptor, writes: seq<Write>) {
    forall i :: 0 <= i < |writes| ==> AuthenticWrite(c, writes[i])
  }

  predicate AuthenticTurns(c: Cryptor, turns: seq<Turn>) {
    forall i :: 0 <= i < |turns| ==> AuthenticWrites(c, turns[i].before) && AuthenticWrites(c, turns[i].between)
  }

  lemma ApplyAllSnoc(rows: Table, writes: seq<Write>, w: Write)
    ensures ApplyAll(rows, writes + [w]) == Apply(ApplyAll(rows, writes), w)
  {
    assert (writes + [w])[..|writes|] == writes;
  }

  lemma {:induction false} ApplyAllConcat(rows: Table, a: seq<Write>, b: seq<Write>)
    ensures ApplyAll(rows, a + b) == ApplyAll(ApplyAll(rows, a), b)
    decreases |b|
  {
    if b == [] {
      assert a + b == a;
    } else {
      var n := |b| - 1;
      assert a + b == (a + b[..n]) + [b[n]];
      ApplyAllSnoc(rows, a + b[..n], b[n]);
      ApplyAllConcat(rows, a, b[..n]);
    }
  }

  /** Application writes land on the rewrapped table as they would on the other. */
  lemma {:induction false} WritesKeepProgress(c: Cryptor, rows: Table, after: Table, writes: seq<Write>)
    requires Aead.ValidCryptor(c) && Progress(c, rows, after)
    ensures Progress(c, ApplyAll(rows, writes), ApplyAll(after, writes))
    decreases |writes|
  {
    if writes != [] {
      WritesKeepProgress(c, rows, after, writes[..|writes| - 1]);
    }
  }

  lemma {:induction false} WritesKeepAuthentic(c: Cryptor, rows: Table, writes: seq<Write>)
    requires Authentic(c, rows) && AuthenticWrites(c, writes)
    ensures Authentic(c, ApplyAll(rows, writes))
    decreases |writes|
  {
    if writes != [] {
      var n := |writes| - 1;
      WritesKeepAuthentic(c, rows, writes[..n]);
      var table := ApplyAll(rows, writes[..n]);
      forall id | id in EncryptedIds(Apply(table, writes[n]))
        ensures AuthenticateRow(c, Apply(table, writes[n])[id]).Ok?
      {
        assert AuthenticWrite(c, writes[n]);
        assert id in table && Apply(table, writes[n])[id] == table[id] ==> id in EncryptedIds(table);
      }
    }
  }

  // ----- Inventory of key versions -----

  function Versions(rows: Table): set<int> {
    set id | id in EncryptedIds(rows) && rows[id].keyVersion.Some? :: rows[id].keyVersion.value
  }

  predicate HasUnversioned(rows: Table) {
    exists id :: id in EncryptedIds(rows) && rows[id].keyVersion.None?
  }

  /** The verdict on the key versions in use: a row without a positive version is
      malformed whatever else is stored; a version up to the target must be loaded;
      and no version may be newer than the target. */
  predicate InventoryVerdict(rows: Table, keys: set<int>, target: int, r: Result<(), Error>) {
    if HasUnversioned(rows) || (exists v :: v in Versions(rows) && v <= 0) then r == Err(Malformed)
    else if exists v :: v in Versions(rows) && v <= target && v !in keys then r == Err(MissingKey)
    else if exists v :: v in Versions(rows) && v > target then r == Err(InvalidConfig)
    else r == Ok(())
  }

  /** Walks the versions in ascending order, rows without one first. */
  method CheckInventory(rows: Table, keys: set<int>, target: int) returns (r: Result<(), Error>)
    ensures InventoryVerdict(rows, keys, target, r)
  {
    if HasUnversioned(rows) {
      return Err(Malformed);
    }
    var left := Versions(rows);
    while left != {}
      invariant left <= Versions(rows)
      invariant forall v :: v in Versions(rows) && v !in left ==> 0 < v <= target && v in keys
      invariant forall v, w :: v in Versions(rows) && v !in left && w in left ==> v < w
      decreases |left|
    {
      var version := Least(left);
      if version <= 0 {
        return Err(Malformed);
      }
      if version > target {
        return Err(InvalidConfig);
      }
      if version !in keys {
        return Err(MissingKey);
      }
      left := left - {version};
    }
    return Ok(());
  }

  lemma AuthenticInventory(c: Cryptor, rows: Table)
    requires Authentic(c, rows)
    ensures !HasUnversioned(rows) && forall v :: v in Versions(rows) ==> v > 0 && v in c.keys
  {
  }

  // ----- Preflight -----

  /** Rows are met in id order; the first one that fails decides the error. */
  predicate AuthenticatedUpTo(c: Cryptor, rows: Table, all: seq<nat>, n: nat) {
    n <= |all| && forall k :: 0 <= k < n ==> all[k] in rows && AuthenticateRow(c, rows[all[k]]).Ok?
  }

  /** `n` rows of `all` are behind the cursor. */
  predicate CursorAt(all: seq<nat>, cursor: Option<nat>, n: nat) {
    n <= |all| && cursor == if n == 0 then None else Some(all[n - 1])
  }

  function PastCursor(rows: Table, cursor: Option<nat>): set<nat> {
    set id | id in EncryptedIds(rows) && (cursor.None? || id > cursor.value)
  }

  lemma PastCursorIsRest(rows: Table, all: seq<nat>, cursor: Option<nat>, n: nat)
    requires all == Ascending(EncryptedIds(rows)) && CursorAt(all, cursor, n)
    ensures Ascending(PastCursor(rows, cursor)) == all[n..]
  {
    if n == 0 {
      assert PastCursor(rows, cursor) == EncryptedIds(rows);
    } else {
      PageAfterCursor(EncryptedIds(rows), all, n);
      assert PastCursor(rows, cursor) == set i | i in EncryptedIds(rows) && i > all[n - 1];
    }
  }

  lemma SliceIsListed(rows: Table, all: seq<nat>, n: nat, page: seq<nat>)
    requires all == Ascending(EncryptedIds(rows)) && n <= |all| && page <= all[n..]
    ensures forall k :: 0 <= k < |page| ==> page[k] in rows
  {
    forall k | 0 <= k < |page| ensures page[k] in rows {
      assert page[k] == all[n..][k] == all[n + k];
      assert all[n + k] in EncryptedIds(rows);
    }
  }

  /** The query for one page: the next `pageSize` rows of the whole list, or the rest. */
  method QueryPage(rows: Table, ghost all: seq<nat>, cursor: Option<nat>, ghost n: nat,
      pageSize: nat) returns (page: seq<nat>)
    requires all == Ascending(EncryptedIds(rows)) && CursorAt(all, cursor, n)
    ensures page <= all[n..] && |page| <= pageSize && (|page| < pageSize ==> n + |page| == |all|)
    ensures forall k :: 0 <= k < |page| ==> page[k] in rows
  {
    page := Page(PastCursor(rows, cursor), pageSize);
    PastCursorIsRest(rows, all, cursor, n);
    LimitIsPrefix(all[n..], pageSize);
    SliceIsListed(rows, all, n, page);
  }

  /** Every encrypted row was read, or the first that fails was reached. */
  ghost predicate ScanVerdict(c: Cryptor, rows: Table, all: seq<nat>, scanned: nat, r: Result<(), Error>) {
    && AuthenticatedUpTo(c, rows, all, scanned)
    && if scanned == |all| then r == Ok(())
       else all[scanned] in rows && r.Err? && AuthenticateRow(c, rows[all[scanned]]) == r
  }

  lemma ScanIsExact(c: Cryptor, rows: Table, all: seq<nat>, scanned: nat, r: Result<(), Error>)
    requires all == Ascending(EncryptedIds(rows)) && ScanVerdict(c, rows, all, scanned, r)
    ensures r.Ok? <==> Authentic(c, rows)
    ensures r.Err? ==> r.error in ROW_ERRORS
  {
    if scanned == |all| {
      forall id | id in EncryptedIds(rows) ensures AuthenticateRow(c, rows[id]).Ok? {
        assert id in all;
        var k :| 0 <= k < |all| && all[k] == id;
      }
    } else {
      assert all[scanned] in EncryptedIds(rows);
    }
  }

  /** The rows of one page in order, up to the first that fails. */
  method AuthenticatePage(c: Cryptor, rows: Table, page: seq<nat>) returns (read: nat, r: Result<(), Error>)
    requires forall k :: 0 <= k < |page| ==> page[k] in rows
    ensures ScanVerdict(c, rows, page, read, r)
  {
    read := 0;
    while read < |page|
      invariant AuthenticatedUpTo(c, rows, page, read)
    {
      var row := AuthenticateRow(c, rows[page[read]]);
      if row.Err? {
        return read, row;
      }
      read := read + 1;
    }
    return read, Ok(());
  }

  /** The cursor moves past a page that was read to its end; a page cut short decides. */
  lemma PageAdvances(c: Cryptor, rows: Table, all: seq<nat>, n: nat, page: seq<nat>, read: nat, r: Result<(), Error>)
    requires AuthenticatedUpTo(c, rows, all, n) && page <= all[n..]
    requires ScanVerdict(c, rows, page, read, r)
    ensures AuthenticatedUpTo(c, rows, all, n + read)
    ensures all[..n + read] == all[..n] + page[..read]
    ensures r.Err? ==> ScanVerdict(c, rows, all, n + read, r)
    ensures r.Ok? && read > 0 ==> CursorAt(all, Some(page[read - 1]), n + read)
  {
    forall k | 0 <= k < |page| ensures all[n + k] == page[k] {
      assert all[n..][k] == page[k];
    }
    forall k | n <= k < n + read ensures all[k] in rows && AuthenticateRow(c, rows[all[k]]).Ok? {
      assert all[n + (k - n)] == page[k - n];
    }
  }

  /** Authenticates the encrypted rows page by page. Success means that every one of
      them was read exactly once, in id order, and authenticates; a failure is that
      of the first row that does not. */
  method AuthenticateAll(c: Cryptor, rows: Table, pageSize: nat) returns (scanned: nat, r: Result<(), Error>,
      ghost seen: seq<nat>)
    requires pageSize > 0
    ensures r.Ok? <==> Authentic(c, rows)
    ensures r.Err? ==> r.error in ROW_ERRORS
    ensures ScanVerdict(c, rows, Ascending(EncryptedIds(rows)), scanned, r)
    ensures seen == Ascending(EncryptedIds(rows))[..scanned]
  {
    ghost var all := Ascending(EncryptedIds(rows));
    var cursor: Option<nat> := None;
    scanned, seen := 0, [];
    while true
      invariant CursorAt(all, cursor, scanned) && AuthenticatedUpTo(c, rows, all, scanned)
      invariant seen == all[..scanned]
      decreases |all| - scanned
    {
      var page := QueryPage(rows, all, cursor, scanned, pageSize);
      var read, verdict := AuthenticatePage(c, rows, page);
      PageAdvances(c, rows, all, scanned, page, read, verdict);
      scanned, seen := scanned + read, seen + page[..read];
      if verdict.Err? || |page| < pageSize {
        ScanIsExact(c, rows, all, scanned, verdict);
        return scanned, verdict, seen;
      }
      cursor := Some(page[read - 1]);
    }
  }

  /** The read-only half of a campaign. It passes exactly when every encrypted row
      authenticates and none is newer than the target. */
  method Preflight(c: Cryptor, rows: Table, target: int, pageSize: nat) returns (scanned: nat, r: Result<(), Error>)
    requires pageSize > 0
    ensures r.Ok? <==> Authentic(c, rows) && forall v :: v in Versions(rows) ==> v <= target
    ensures r.Ok? ==> scanned == |EncryptedIds(rows)|
    ensures r.Err? ==> r.error in ROW_ERRORS || r.error == InvalidConfig
    ensures Authentic(c, rows) && r.Err? ==> r.error == InvalidConfig
  {
    hide AuthenticateRow;
    hide Versions;
    scanned := 0;
    var inventory := CheckInventory(rows, c.keys.Keys, target);
    if Authentic(c, rows) {
      AuthenticInventory(c, rows);
    }
    if inventory.Err? {
      return scanned, inventory;
    }
    var n, verdict, _ := AuthenticateAll(c, rows, pageSize);
    return n, verdict;
  }

  // ----- The runner -----

  /** Rows `ids[i..]` are still to be rewrapped, and the work so far leads where the
      whole batch leads. */
  ghost predicate BatchUnderway(c: Cryptor, rows: Table, work: Table, ids: seq<nat>, i: nat, target: int,
      randoms: seq<Aead.Nonce>, left: seq<Aead.Nonce>)
    requires Aead.ValidCryptor(c)
  {
    && i <= |ids| && (forall id :: id in ids ==> id in rows)
    && (forall id :: id in ids[i..] ==> id in work && work[id] == rows[id])
    && BatchOutcome(c, rows, ids, target, randoms) == BatchOutcome(c, work, ids[i..], target, left)
  }

  lemma BatchStep(c: Cryptor, rows: Table, work: Table, ids: seq<nat>, i: nat, target: int,
      randoms: seq<Aead.Nonce>, left: seq<Aead.Nonce>)
    requires Aead.ValidCryptor(c) && Strict(ids) && BatchUnderway(c, rows, work, ids, i, target, randoms, left)
    requires i < |ids|
    ensures ids[i] in rows
    ensures
      var step := RewrapRow(c, rows[ids[i]], target, Aead.FirstNonce(left));
      if step.Err? then BatchOutcome(c, rows, ids, target, randoms) == Err(step.error)
      else BatchUnderway(c, rows, work[ids[i] := step.value], ids, i + 1, target, randoms, Aead.LaterNonces(left))
  {
    assert ids[i..][0] == ids[i] && ids[i..][1..] == ids[i + 1..];
    assert ids[i] in ids[i..];
    assert forall id :: id in ids[i + 1..] ==> id in ids[i..];
    assert ids[i] !in ids[i + 1..];
  }

  /** Rewraps the row as selected, `row`, onto the row as the update finds it. The
      check of the new ciphertext and the compare-and-swap hold because the selected
      row is locked, so `RewrapRow` has no such errors. */
  method RewrapOne(c: Cryptor, row: StoredValue, found: StoredValue, target: int,
      random: Option<Aead.Nonce>) returns (r: Result<StoredValue, Error>)
    requires Aead.ValidCryptor(c) && found == row
    ensures r == RewrapRow(c, row, target, random)
  {
    var authentic := AuthenticateRow(c, row);
    if authentic.Err? {
      return Err(authentic.error);
    }
    var version := row.keyVersion.value;
    var plaintext := Opened(c, row);
    if plaintext.Err? {
      return Err(Authentication);
    }
    var rewrapped := Aead.EncryptBytes(c, plaintext.value, random);
    if rewrapped.Err? {
      return Err(Entropy);
    }
    var verified := Aead.DecryptBytes(c, rewrapped.value);
    if verified != Ok(plaintext.value) {
      return Err(Verification);
    }
    if found.keyVersion != Some(version) || found.cipher != row.cipher || found.nonce != row.nonce {
      return Err(CasConflict);
    }
    var e := rewrapped.value;
    return Ok(found.(cipher := Some(e.cipher), nonce := Some(e.nonce), keyVersion := Some(target)));
  }

  /** The selected rows one after the other, on the transaction's own copy. */
  method RewrapAll(c: Cryptor, rows: Table, ids: seq<nat>, target: int,
      randoms: seq<Aead.Nonce>) returns (r: Result<Table, Error>)
    requires Aead.ValidCryptor(c) && Strict(ids) && forall id :: id in ids ==> id in rows
    ensures r == BatchOutcome(c, rows, ids, target, randoms)
  {
    var work, left := rows, randoms;
    for i := 0 to |ids|
      invariant BatchUnderway(c, rows, work, ids, i, target, randoms, left)
    {
      BatchStep(c, rows, work, ids, i, target, randoms, left);
      assert ids[i] in ids[i..];
      var updated := RewrapOne(c, rows[ids[i]], work[ids[i]], target, Aead.FirstNonce(left));
      if updated.Err? {
        return Err(updated.error);
      }
      work, left := work[ids[i] := updated.value], Aead.LaterNonces(left);
    }
    return Ok(work);
  }

  /** The batch took `n` rows and left its outcome, or failed and left no trace. */
  ghost predicate Committed(outcome: Result<Table, Error>, n: nat, before: Table, after: Table, r: Result<nat, Error>) {
    match outcome
    case Ok(table) => r == Ok(n) && after == table
    case Err(e) => r == Err(e) && after == before
  }

  const ROW_ERRORS: set<Error> := {Malformed, MissingKey, Authentication, Entropy}

  lemma {:induction false} BatchErrors(c: Cryptor, rows: Table, ids: seq<nat>, target: int, randoms: seq<Aead.Nonce>)
    requires Aead.ValidCryptor(c) && forall id :: id in ids ==> id in rows
    ensures BatchOutcome(c, rows, ids, target, randoms).Err? ==>
      BatchOutcome(c, rows, ids, target, randoms).error in ROW_ERRORS
    decreases |ids|
  {
    if ids != [] {
      assert ids[0] in ids;
      assert forall id :: id in ids[1..] ==> id in ids;
      var step := RewrapRow(c, rows[ids[0]], target, Aead.FirstNonce(randoms));
      if step.Ok? {
        BatchErrors(c, rows[ids[0] := step.value], ids[1..], target, Aead.LaterNonces(randoms));
      }
    }
  }

  lemma BatchSize(rows: Table, target: int, batchSize: nat, ids: seq<nat>)
    requires ids == BatchIds(rows, target, batchSize, {})
    ensures |ids| == if batchSize < |StaleIds(rows, target)| then batchSize else |StaleIds(rows, target)|
  {
    assert StaleIds(rows, target) - {} == StaleIds(rows, target);
    PageOfAscending(StaleIds(rows, target), batchSize);
  }

  /** A round took a full batch, or everything that was left. */
  predicate TookBatch(stale: nat, batchSize: nat, processed: nat, remaining: nat) {
    processed == (if batchSize < stale then batchSize else stale) && remaining == stale - processed
  }

  function Timeout(config: Config): int {
    if config.noProgressTimeout <= 0 then DEFAULT_NO_PROGRESS else config.noProgressTimeout
  }

  /** All application writes of these rounds, in order. */
  function AllWrites(turns: seq<Turn>): seq<Write> {
    if turns == [] then []
    else AllWrites(turns[..|turns| - 1]) + turns[|turns| - 1].before + turns[|turns| - 1].between
  }

  /** The writes seen by a campaign that stopped in some round. */
  ghost predicate IsHistory(turns: seq<Turn>, seen: seq<Write>) {
    exists i :: 0 <= i <= |turns|
      && (seen == AllWrites(turns[..i]) || (i < |turns| && seen == AllWrites(turns[..i]) + turns[i].before))
  }

  predicate Calm(turns: seq<Turn>, batchSize: int) {
    forall i :: 0 <= i < |turns| ==> QuietTurn(turns[i], batchSize)
  }

  /** After i calm rounds that left something to do. */
  predicate Draining(stale: nat, batchSize: nat, i: nat, left: nat, s: Summary) {
    && s.rewrapped + left == stale && s.lockedRetries == 0 && s.batches == i && s.rewrapped == i * batchSize
    && (i > 0 ==> left > 0)
  }

  /** Every stale row was rewrapped once, in as few batches as possible. */
  predicate Drained(stale: nat, batchSize: nat, s: Summary) {
    && s.rewrapped == stale && s.lockedRetries == 0
    && stale <= s.batches * batchSize
    && (s.batches > 0 ==> (s.batches - 1) * batchSize < stale)
  }

  predicate Enough(turns: seq<Turn>, stale: nat) { |turns| >= 1 && |turns| >= stale }

  lemma NothingYet(c: Cryptor, rows: Table)
    requires Aead.ValidCryptor(c)
    ensures ApplyAll(rows, []) == rows && Progress(c, rows, rows)
  {
  }

  lemma TurnHistory(c: Cryptor, start: Table, rows: Table, seen: seq<Write>, t: Turn)
    requires Aead.ValidCryptor(c) && Progress(c, ApplyAll(start, seen), rows)
    ensures Progress(c, ApplyAll(start, seen + t.before), ApplyAll(rows, t.before))
    ensures Progress(c, ApplyAll(start, seen + t.before + t.between), ApplyAll(ApplyAll(rows, t.before), t.between))
  {
    ApplyAllConcat(start, seen, t.before);
    WritesKeepProgress(c, ApplyAll(start, seen), rows, t.before);
    ApplyAllConcat(start, seen + t.before, t.between);
    WritesKeepProgress(c, ApplyAll(start, seen + t.before), ApplyAll(rows, t.before), t.between);
  }

  lemma DrainStep(stale: nat, batchSize: nat, i: nat, left: nat, s: Summary, processed: nat, remaining: nat,
      next: Summary)
    requires batchSize > 0 && Draining(stale, batchSize, i, left, s) && TookBatch(left, batchSize, processed, remaining)
    requires next.lockedRetries == s.lockedRetries && next.rewrapped == s.rewrapped + processed
    requires next.batches == if processed > 0 then s.batches + 1 else s.batches
    ensures i * batchSize >= i
    ensures remaining == 0 ==> Drained(stale, batchSize, next)
    ensures remaining > 0 ==> processed > 0 && Draining(stale, batchSize, i + 1, remaining, next) && i + 1 < stale
  {
    assert (i + 1) * batchSize == i * batchSize + batchSize;
    MultipleIsNoLess(i, batchSize);
    MultipleIsNoLess(i + 1, batchSize);
  }

  lemma StillDraining(stale: nat, batchSize: nat, i: nat, left: nat, s: Summary)
    requires batchSize > 0 && i > 0 && Draining(stale, batchSize, i, left, s)
    ensures i < stale
  {
    MultipleIsNoLess(i, batchSize);
  }

  lemma {:induction false} MultipleIsNoLess(i: nat, n: nat)
    requires n > 0
    ensures i * n >= i
  {
    if i > 0 {
      MultipleIsNoLess(i - 1, n);
      assert i * n == (i - 1) * n + n;
    }
  }

  /** The writes the application made until the campaign ended: none yet, those during
      the preflight, or also those of the rounds it went through. */
  ghost predicate CampaignHistory(world: World, seen: seq<Write>) {
    seen == [] || seen == world.during || exists h :: IsHistory(world.turns, h) && seen == world.during + h
  }

  /** The clock when the campaign started its loop, or after the batch of a round. */
  function ReadingAt(world: World, k: int): int
    requires -1 <= k < |world.turns|
  {
    if k < 0 then world.start else world.turns[k].now
  }

  /** Some round ended the configured time, or half a minute, after an earlier reading. */
  ghost predicate Stalled(config: Config, world: World) {
    exists k, i :: -1 <= k < i < |world.turns|
      && world.turns[i].now - ReadingAt(world, k) >=
           if config.noProgressTimeout <= 0 then 30_000_000_000 else config.noProgressTimeout
  }

  /** No encrypted row names a version above the target. */
  predicate NoneNewer(rows: Table, target: int) {
    forall id :: id in rows && rows[id].cipher.Some? && rows[id].keyVersion.Some? ==>
      rows[id].keyVersion.value <= target
  }

  lemma NoneNewerIff(rows: Table, target: int)
    ensures NoneNewer(rows, target) <==> forall v :: v in Versions(rows) ==> v <= target
  {
    forall id | id in rows && rows[id].cipher.Some? && rows[id].keyVersion.Some?
      ensures rows[id].keyVersion.value in Versions(rows)
    {
      assert id in EncryptedIds(rows);
    }
  }

  lemma WhatIsCounted(rows: Table, target: int)
    ensures EncryptedIds(rows) == set id | id in rows && rows[id].cipher.Some?
    ensures StaleIds(rows, target) ==
      set id | id in rows && rows[id].cipher.Some? && rows[id].keyVersion != Some(target)
    ensures StaleIds(rows, target) == {} ==>
      forall id :: id in rows && rows[id].cipher.Some? ==> rows[id].keyVersion == Some(target)
  {
    forall id | id in rows && rows[id].cipher.Some? && rows[id].keyVersion != Some(target)
      ensures id in StaleIds(rows, target)
    {
    }
  }

  class Runner {
    const cryptor: Cryptor
    var rows: Table

    constructor (cryptor: Cryptor, rows: Table)
      ensures this.cryptor == cryptor && this.rows == rows
    {
      this.cryptor, this.rows := cryptor, rows;
    }

    /** One transaction: all the stale rows it could lock are rewrapped, or nothing
        changes. The re-read of the new ciphertext and the compare-and-swap of the
        update never fail, because the rows stay locked. */
    method ProcessBatch(target: int, batchSize: nat, locked: set<nat>,
        randoms: seq<Aead.Nonce>) returns (r: Result<nat, Error>)
      requires Aead.ValidCryptor(cryptor)
      modifies this
      ensures
        var ids := BatchIds(old(rows), target, batchSize, locked);
        Committed(BatchOutcome(cryptor, old(rows), ids, target, randoms), |ids|, old(rows), rows, r)
    {
      var ids := BatchIds(rows, target, batchSize, locked);
      BatchIdsAreStale(rows, target, batchSize, locked, ids);
      var work := RewrapAll(cryptor, rows, ids, target, randoms);
      if work.Err? {
        return Err(work.error);
      }
      rows := work.value;
      return Ok(|ids|);
    }

    /** One round of the progress loop: the batch, the application's writes around it,
        and the count of what remains. */
    method RunTurn(batchSize: nat, t: Turn) returns (batch: Result<nat, Error>, remaining: nat)
      requires Aead.ValidCryptor(cryptor) && batchSize > 0
      modifies this
      ensures batch.Err? ==> rows == ApplyAll(old(rows), t.before) && batch.error in ROW_ERRORS
      ensures batch.Ok? ==> Progress(cryptor, ApplyAll(ApplyAll(old(rows), t.before), t.between), rows)
      ensures remaining == |StaleIds(rows, cryptor.current)|
      ensures (cryptor.current > 0 && Authentic(cryptor, old(rows))
               && AuthenticWrites(cryptor, t.before) && AuthenticWrites(cryptor, t.between)) ==>
        Authentic(cryptor, rows) && (batch.Err? ==> batch.error == Entropy && |t.randoms| < batchSize)
      ensures batch.Ok? && QuietTurn(t, batchSize) ==>
        TookBatch(|StaleIds(old(rows), cryptor.current)|, batchSize, batch.value, remaining)
    {
      var target := cryptor.current;
      hide BatchIds;
      hide BatchOutcome;
      hide AuthenticateRow;
      rows := ApplyAll(rows, t.before);
      ghost var found := rows;
      ghost var ids := BatchIds(rows, target, batchSize, t.locked);
      BatchIdsAreStale(rows, target, batchSize, t.locked, ids);
      batch := ProcessBatch(target, batchSize, t.locked, t.randoms);
      BatchErrors(cryptor, found, ids, target, t.randoms);
      if batch.Ok? {
        BatchPreserves(cryptor, found, ids, t.randoms);
        WritesKeepProgress(cryptor, found, rows, t.between);
        if QuietTurn(t, batchSize) {
          BatchShrinksStale(cryptor, found, ids, rows);
          BatchSize(found, target, batchSize, ids);
        }
      }
      if cryptor.current > 0 && Authentic(cryptor, old(rows)) && AuthenticWrites(cryptor, t.before)
        && AuthenticWrites(cryptor, t.between) {
        WritesKeepAuthentic(cryptor, old(rows), t.before);
        AuthenticBatchSucceeds(cryptor, found, ids, t.randoms);
        WritesKeepAuthentic(cryptor, rows, t.between);
      }
      if batch.Ok? {
        rows := ApplyAll(rows, t.between);
      }
      remaining := |StaleIds(rows, target)|;
    }

    /** The progress loop. Whatever the application writes meanwhile, every row reads
        as if only those writes had happened. Success leaves nothing off the target;
        without other writers or lock holders it is reached, in as few batches as the
        stale rows fill. */
    method Drain(config: Config, world: World) returns (summary: Summary, r: Result<(), Error>, ghost seen: seq<Write>)
      requires Aead.ValidCryptor(cryptor) && ValidConfig(config, cryptor.current)
      modifies this
      ensures IsHistory(world.turns, seen) && Progress(cryptor, ApplyAll(old(rows), seen), rows)
      ensures r.Ok? ==> summary.remaining == 0 && StaleIds(rows, cryptor.current) == {}
      ensures r.Err? ==> r.error in ROW_ERRORS + {NoProgress, Canceled}
      ensures r == Err(NoProgress) ==> Stalled(config, world)
      ensures Authentic(cryptor, old(rows)) && AuthenticTurns(cryptor, world.turns) ==>
        Authentic(cryptor, rows) && (r.Err? ==> r.error in {Entropy, NoProgress, Canceled})
      ensures Authentic(cryptor, old(rows)) && Calm(world.turns, config.batchSize) ==> seen == []
      ensures (Authentic(cryptor, old(rows)) && Calm(world.turns, config.batchSize)
               && Enough(world.turns, |StaleIds(old(rows), cryptor.current)|)) ==>
        r.Ok? && Drained(|StaleIds(old(rows), cryptor.current)|, config.batchSize, summary)
    {
      hide Progress;
      hide Authentic;
      hide ApplyAll;
      hide StaleIds;
      ghost var start := rows;
      ghost var stale := |StaleIds(rows, cryptor.current)|;
      var lastProgress := world.start;
      ghost var progressed := -1;
      summary, seen := Summary(0, 0, 0, 0, 0), [];
      NothingYet(cryptor, start);
      for i := 0 to |world.turns|
        invariant seen == AllWrites(world.turns[..i]) && Progress(cryptor, ApplyAll(start, seen), rows)
        invariant Authentic(cryptor, start) && AuthenticTurns(cryptor, world.turns) ==> Authentic(cryptor, rows)
        invariant Calm(world.turns, config.batchSize) ==> seen == []
        invariant -1 <= progressed < i && lastProgress == ReadingAt(world, progressed)
        invariant Authentic(cryptor, start) && Calm(world.turns, config.batchSize) ==>
          Draining(stale, config.batchSize, i, |StaleIds(rows, cryptor.current)|, summary)
      {
        var t := world.turns[i];
        assert AllWrites(world.turns[..i + 1]) == seen + t.before + t.between by {
          assert world.turns[..i + 1][..i] == world.turns[..i];
        }
        TurnHistory(cryptor, start, rows, seen, t);
        ghost var table, found, before := rows, |StaleIds(rows, cryptor.current)|, summary;
        var batch, remaining := RunTurn(config.batchSize, t);
        if batch.Err? {
          seen := seen + t.before;
          return summary, Err(batch.error), seen;
        }
        ProgressComposes(cryptor, ApplyAll(start, seen + t.before + t.between),
          ApplyAll(ApplyAll(table, t.before), t.between), rows);
        seen := seen + t.before + t.between;
        if batch.value > 0 {
          summary := summary.(batches := summary.batches + 1, rewrapped := summary.rewrapped + batch.value);
          lastProgress, progressed := t.now, i;
        }
        if Authentic(cryptor, start) && Calm(world.turns, config.batchSize) {
          DrainStep(stale, config.batchSize, i, found, before, batch.value, remaining, summary);
        }
        summary := summary.(remaining := remaining);
        if remaining == 0 {
          return summary, Ok(()), seen;
        }
        if batch.value == 0 {
          summary := summary.(lockedRetries := summary.lockedRetries + 1);
          if t.now - lastProgress >= Timeout(config) {
            return summary, Err(NoProgress), seen;
          }
        }
      }
      if Authentic(cryptor, start) && Calm(world.turns, config.batchSize) && |world.turns| > 0 {
        StillDraining(stale, config.batchSize, |world.turns|, |StaleIds(rows, cryptor.current)|, summary);
      }
      return summary, Err(Canceled), seen;
    }

    /** A whole campaign. `lockHeld` says that another campaign holds the advisory
        lock, `during` are the application's writes while the preflight reads its
        snapshot. */
    method Run(config: Config, world: World) returns (summary: Summary, r: Result<(), Error>, ghost seen: seq<Write>)
      requires Aead.ValidCryptor(cryptor)
      modifies this
      ensures CampaignHistory(world, seen) && Progress(cryptor, ApplyAll(old(rows), seen), rows)
      ensures (!config.jobIdIsUuid || config.target <= 0 || config.target != cryptor.current
               || config.batchSize < 1 || config.batchSize > 1000 || config.maxDuration <= 0
               || config.dryRun == config.confirmedWrite) ==>
        r == Err(InvalidConfig) && rows == old(rows)
      ensures world.lockHeld ==> (r == Err(InvalidConfig) || r == Err(CampaignLocked)) && rows == old(rows)
      ensures !config.dryRun && !world.safety ==>
        r.Err? && (rows == old(rows) || rows == ApplyAll(old(rows), world.during))
      ensures config.dryRun ==> rows == old(rows) || rows == ApplyAll(old(rows), world.during)
      ensures r.Ok? ==> !world.lockHeld && Authentic(cryptor, old(rows))
      ensures r.Ok? ==> NoneNewer(old(rows), config.target)
      ensures r.Ok? ==> summary.scanned == |set id | id in old(rows) && old(rows)[id].cipher.Some?|
      ensures r.Ok? ==>
        summary.remaining ==
          |set id | id in rows && rows[id].cipher.Some? && rows[id].keyVersion != Some(config.target)|
      ensures r.Ok? && !config.dryRun ==>
        forall id :: id in rows && rows[id].cipher.Some? ==> rows[id].keyVersion == Some(config.target)
      ensures r == Err(NoProgress) ==> Stalled(config, world)
      ensures r.Err? ==> r.error !in {Verification, CasConflict}
      ensures (Authentic(cryptor, old(rows)) && AuthenticWrites(cryptor, world.during)
               && AuthenticTurns(cryptor, world.turns)) ==>
        Authentic(cryptor, rows) && (r.Err? ==> r.error !in {Malformed, MissingKey, Authentication})
      ensures (config.jobIdIsUuid && 0 < config.target == cryptor.current && 1 <= config.batchSize <= 1000
               && config.maxDuration > 0 && !config.dryRun && config.confirmedWrite
               && !world.lockHeld && world.safety && Quiet(world, config.batchSize)
               && Authentic(cryptor, old(rows)) && NoneNewer(old(rows), config.target)
               && Enough(world.turns, |StaleIds(old(rows), config.target)|)) ==>
        r.Ok? && seen == [] && Drained(|StaleIds(old(rows), config.target)|, config.batchSize, summary)
      ensures (config.jobIdIsUuid && 0 < config.target == cryptor.current && 1 <= config.batchSize <= 1000
               && config.maxDuration > 0 && config.dryRun && !config.confirmedWrite && !world.lockHeld
               && Authentic(cryptor, old(rows)) && NoneNewer(old(rows), config.target)) ==>
        r.Ok?
    {
      hide Progress;
      hide Authentic;
      hide ApplyAll;
      hide StaleIds;
      hide IsHistory;
      hide NoneNewer;
      summary, seen := Summary(0, 0, 0, 0, 0), [];
      NothingYet(cryptor, rows);
      if !ValidConfig(config, cryptor.current) {
        return summary, Err(InvalidConfig), seen;
      }
      if world.lockHeld {
        return summary, Err(CampaignLocked), seen;
      }
      var snapshot := rows;
      rows := ApplyAll(rows, world.during);
      seen := world.during;
      NothingYet(cryptor, rows);
      if Authentic(cryptor, snapshot) && AuthenticWrites(cryptor, world.during) {
        WritesKeepAuthentic(cryptor, snapshot, world.during);
      }
      var scanned, verdict := Preflight(cryptor, snapshot, config.target, config.batchSize);
      NoneNewerIff(snapshot, config.target);
      summary := summary.(scanned := scanned);
      if verdict.Err? {
        return summary, verdict, seen;
      }
      WhatIsCounted(snapshot, config.target);
      if config.dryRun {
        WhatIsCounted(rows, config.target);
        summary := summary.(remaining := |StaleIds(rows, config.target)|);
        return summary, Ok(()), seen;
      }
      if !world.safety {
        return summary, Err(SafetyEvidence), seen;
      }
      var drained, outcome, history := Drain(config, world);
      ApplyAllConcat(snapshot, world.during, history);
      WhatIsCounted(rows, config.target);
      return drained.(scanned := scanned), outcome, seen + history;
    }
  }
}
