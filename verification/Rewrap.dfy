/** The AES key rewrap campaign: re-encrypting every stored secret under the target
    key version in locked, verified batches, beside live writers. */
module Rewrap {
  import opened Wrappers
  import opened Sql
  import Aead
  import opened Values

  type Cryptor = Aead.Cryptor
  type Table = map<nat, StoredValue>

  datatype Error =
    | InvalidConfig | CampaignLocked | SafetyEvidence
    | Malformed | MissingKey | Authentication | Verification | CasConflict
    | Entropy | NoProgress | Canceled

  /** `key_version IS DISTINCT FROM target`, so a missing version is stale too. */
  predicate Stale(v: StoredValue, target: int) {
    v.cipher.Some? && v.keyVersion != Some(target)
  }

  function StaleIds(rows: Table, target: int): set<nat> {
    set id | id in rows && Stale(rows[id], target)
  }

  function EncryptedIds(rows: Table): set<nat> {
    set id | id in rows && rows[id].cipher.Some?
  }

  // ----- One row -----

  function AuthenticateRow(c: Cryptor, v: StoredValue): Result<(), Error> {
    if v.plain.Some? || v.keyVersion.None? || v.keyVersion.value <= 0 then Err(Malformed)
    else if v.keyVersion.value !in c.keys then Err(MissingKey)
    else if |Bytes(v.nonce)| != Aead.NONCE_SIZE
         || (if v.cipher.Some? then Aead.CipherLength(v.cipher.value) else 0) < Aead.OVERHEAD
    then Err(Malformed)
    else if Opened(c, v).Err? then Err(Authentication)
    else Ok(())
  }

  function Opened(c: Cryptor, v: StoredValue): Result<string, Aead.Error> {
    if v.cipher.None? || v.keyVersion.None? then Err(Aead.OpenFailed)
    else Aead.DecryptBytes(c, Aead.Encrypted(v.cipher.value, Bytes(v.nonce), v.keyVersion.value))
  }

  /** A row authenticates exactly when it is sealed by the key its positive version names,
      under its own full-size nonce, and has no plain text beside it. It then reads as
      what was sealed. */
  lemma AuthenticRowIff(c: Cryptor, v: StoredValue)
    ensures AuthenticateRow(c, v).Ok? <==>
      && v.plain.None? && v.keyVersion.Some? && v.keyVersion.value > 0 && v.keyVersion.value in c.keys
      && v.nonce.Some? && |v.nonce.value| == 12 && v.cipher.Some? && v.cipher.value.Sealed?
      && v.cipher.value.key == c.keys[v.keyVersion.value] && v.cipher.value.nonce == v.nonce.value
    ensures AuthenticateRow(c, v).Ok? ==> DecodeValue(c, v) == Ok(v.cipher.value.plain)
    ensures AuthenticateRow(c, v) == Err(MissingKey) <==>
      v.plain.None? && v.keyVersion.Some? && v.keyVersion.value > 0 && v.keyVersion.value !in c.keys
  {
  }

  /** The row re-encrypted under the cryptor's current key, recorded as `target`. */
  function RewrapRow(c: Cryptor, v: StoredValue, target: int, random: Option<Aead.Nonce>): Result<StoredValue, Error>
    requires Aead.ValidCryptor(c)
  {
    if AuthenticateRow(c, v).Err? then Err(AuthenticateRow(c, v).error)
    else
      match Aead.EncryptBytes(c, Opened(c, v).value, random)
      case Err(_) => Err(Entropy)
      case Ok(e) => Ok(v.(cipher := Some(e.cipher), nonce := Some(e.nonce), keyVersion := Some(target)))
  }

  /** Rewrapping keeps the plaintext exactly when the version it records names the
      key that sealed the new ciphertext, which the target check of `Run` enforces. */
  lemma RewrapKeepsPlaintextIff(c: Cryptor, v: StoredValue, target: int, random: Option<Aead.Nonce>)
    requires Aead.ValidCryptor(c) && RewrapRow(c, v, target, random).Ok?
    ensures DecodeValue(c, RewrapRow(c, v, target, random).value) == DecodeValue(c, v)
      <==> target in c.keys && c.keys[target] == c.keys[c.current]
  {
  }

  /** `w` is `v` itself, or `v` moved to the current version: sealed by the key that
      version names, and opening to the text `v` opened to. */
  predicate Refreshed(c: Cryptor, v: StoredValue, w: StoredValue)
    requires Aead.ValidCryptor(c)
  {
    w == v ||
    (&& v.cipher.Some? && w.cipher.Some? && w.plain == v.plain && w.nonce.Some?
     && w.keyVersion == Some(c.current)
     && w.cipher.value.Sealed? && w.cipher.value.key == c.keys[c.current]
     && DecodeValue(c, v).Ok? && DecodeValue(c, w) == DecodeValue(c, v))
  }

  lemma RewrappedRow(c: Cryptor, v: StoredValue, random: Option<Aead.Nonce>)
    requires Aead.ValidCryptor(c) && RewrapRow(c, v, c.current, random).Ok?
    ensures
      var w := RewrapRow(c, v, c.current, random).value;
      && Refreshed(c, v, w) && DecodeValue(c, w).Ok? && !Stale(w, c.current) && w.cipher.Some?
      && (c.current > 0 ==> AuthenticateRow(c, w).Ok?)
  {
  }

  /** Whoever knows the keys of `c` reads the same text, or the same failure. */
  lemma RefreshedReadsTheSame(c: Cryptor, e: Cryptor, v: StoredValue, w: StoredValue)
    requires Aead.ValidCryptor(c) && Extends(c, e) && Refreshed(c, v, w)
    ensures DecodeValue(e, w) == DecodeValue(e, v)
  {
  }

  // ----- One batch -----

  /** The rows one batch takes: stale ones nobody else has locked, lowest ids first. */
  function BatchIds(rows: Table, target: int, batchSize: nat, locked: set<nat>): seq<nat> {
    Page(StaleIds(rows, target) - locked, batchSize)
  }

  lemma BatchIdsAreStale(rows: Table, target: int, batchSize: nat, locked: set<nat>, ids: seq<nat>)
    requires ids == BatchIds(rows, target, batchSize, locked)
    ensures Strict(ids) && |ids| <= batchSize
    ensures forall id :: id in ids ==> id in StaleIds(rows, target) && id !in locked
    ensures batchSize > 0 && ids == [] ==> StaleIds(rows, target) <= locked
  {
    var free := StaleIds(rows, target) - locked;
    PageOfAscending(free, batchSize);
    if batchSize > 0 && ids == [] {
      assert |free| == 0;
      assert free == {};
      assert forall id :: id in StaleIds(rows, target) && id !in locked ==> id in free;
    }
  }

  /** The table after one batch. The random source delivers the listed nonces and
      then fails. */
  function BatchOutcome(c: Cryptor, rows: Table, ids: seq<nat>, target: int,
      randoms: seq<Aead.Nonce>): Result<Table, Error>
    requires Aead.ValidCryptor(c) && forall id :: id in ids ==> id in rows
    decreases |ids|
  {
    if ids == [] then Ok(rows)
    else
      match RewrapRow(c, rows[ids[0]], target, Aead.FirstNonce(randoms))
      case Err(e) => Err(e)
      case Ok(v) => BatchOutcome(c, rows[ids[0] := v], ids[1..], target, Aead.LaterNonces(randoms))
  }

  /** Every row of `after` is that of `rows`, as it was or refreshed. */
  ghost predicate Progress(c: Cryptor, rows: Table, after: Table)
    requires Aead.ValidCryptor(c)
  {
    after.Keys == rows.Keys && forall id :: id in rows ==> Refreshed(c, rows[id], after[id])
  }

  /** What a committed batch did: exactly the rows it took moved to the current
      version, and nothing was lost. */
  ghost predicate BatchDone(c: Cryptor, rows: Table, ids: seq<nat>, after: Table)
    requires Aead.ValidCryptor(c)
  {
    && Progress(c, rows, after)
    && (forall id :: id in rows && id !in ids ==> after[id] == rows[id])
    && (forall id :: id in rows && id in ids ==> !Stale(after[id], c.current) && DecodeValue(c, after[id]).Ok?)
  }

  lemma {:induction false} BatchPreserves(c: Cryptor, rows: Table, ids: seq<nat>, randoms: seq<Aead.Nonce>)
    requires Aead.ValidCryptor(c) && Strict(ids) && forall id :: id in ids ==> id in rows
    requires BatchOutcome(c, rows, ids, c.current, randoms).Ok?
    ensures BatchDone(c, rows, ids, BatchOutcome(c, rows, ids, c.current, randoms).value)
    decreases |ids|
  {
    if ids != [] {
      assert ids[0] in ids;
      RewrappedRow(c, rows[ids[0]], Aead.FirstNonce(randoms));
      var v := RewrapRow(c, rows[ids[0]], c.current, Aead.FirstNonce(randoms)).value;
      assert forall id :: id in ids <==> id == ids[0] || id in ids[1..];
      assert ids[0] !in ids[1..];
      BatchPreserves(c, rows[ids[0] := v], ids[1..], Aead.LaterNonces(randoms));
    }
  }

  /** A batch removes exactly the rows it took from the stale ones. */
  lemma BatchShrinksStale(c: Cryptor, rows: Table, ids: seq<nat>, after: Table)
    requires Aead.ValidCryptor(c) && Strict(ids)
    requires (forall id :: id in ids ==> id in StaleIds(rows, c.current))
    requires BatchDone(c, rows, ids, after)
    ensures StaleIds(after, c.current) == StaleIds(rows, c.current) - Elements(ids)
    ensures |StaleIds(after, c.current)| == |StaleIds(rows, c.current)| - |ids|
  {
    var before, left, taken := StaleIds(rows, c.current), StaleIds(after, c.current), Elements(ids);
    assert left == before - taken;
    StrictSize(ids);
    RemoveSubset(before, taken);
  }

  lemma RemoveSubset(all: set<nat>, taken: set<nat>)
    requires taken <= all
    ensures |all - taken| == |all| - |taken|
  {
    assert all == (all - taken) + taken;
  }

  lemma ProgressComposes(c: Cryptor, a: Table, b: Table, d: Table)
    requires Aead.ValidCryptor(c) && Progress(c, a, b) && Progress(c, b, d)
    ensures Progress(c, a, d)
  {
  }

  /** A campaign that stopped anywhere and was run again to the end leaves the same
      rows, versions and texts as one that was never interrupted. */
  lemma RerunReachesTheSame(c: Cryptor, e: Cryptor, rows: Table, crashed: Table, rerun: Table, straight: Table)
    requires Aead.ValidCryptor(c) && Extends(c, e)
    requires Progress(c, rows, crashed) && Progress(c, crashed, rerun) && Progress(c, rows, straight)
    requires StaleIds(rerun, c.current) == {} && StaleIds(straight, c.current) == {}
    ensures rerun.Keys == straight.Keys
    ensures forall id :: id in rerun ==>
      && DecodeValue(e, rerun[id]) == DecodeValue(e, straight[id]) == DecodeValue(e, rows[id])
      && rerun[id].keyVersion == straight[id].keyVersion
  {
    ProgressComposes(c, rows, crashed, rerun);
    forall id | id in rows
      ensures
        && DecodeValue(e, rerun[id]) == DecodeValue(e, straight[id]) == DecodeValue(e, rows[id])
        && rerun[id].keyVersion == straight[id].keyVersion
    {
      RefreshedReadsTheSame(c, e, rows[id], rerun[id]);
      RefreshedReadsTheSame(c, e, rows[id], straight[id]);
      assert id !in StaleIds(rerun, c.current) && id !in StaleIds(straight, c.current);
    }
  }

  // ----- Authentic tables -----

  ghost predicate Authentic(c: Cryptor, rows: Table) {
    forall id :: id in EncryptedIds(rows) ==> AuthenticateRow(c, rows[id]).Ok?
  }

  /** Once every encrypted row authenticates, no batch can meet a malformed row, a
      missing key or an authentication failure; with enough randomness it succeeds,
      and the table stays authentic. */
  lemma {:induction false} AuthenticBatchSucceeds(c: Cryptor, rows: Table, ids: seq<nat>, randoms: seq<Aead.Nonce>)
    requires Aead.ValidCryptor(c) && c.current > 0
    requires Authentic(c, rows) && Strict(ids) && forall id :: id in ids ==> id in EncryptedIds(rows)
    ensures BatchOutcome(c, rows, ids, c.current, randoms).Err? ==>
      BatchOutcome(c, rows, ids, c.current, randoms).error == Entropy && |randoms| < |ids|
    ensures BatchOutcome(c, rows, ids, c.current, randoms).Ok? ==>
      Authentic(c, BatchOutcome(c, rows, ids, c.current, randoms).value)
    decreases |ids|
  {
    if ids != [] {
      assert ids[0] in ids;
      assert AuthenticateRow(c, rows[ids[0]]).Ok?;
      if randoms != [] {
        var v := RewrapRow(c, rows[ids[0]], c.current, Aead.FirstNonce(randoms)).value;
        RewrappedRow(c, rows[ids[0]], Aead.FirstNonce(randoms));
        var after := rows[ids[0] := v];
        assert EncryptedIds(after) == EncryptedIds(rows);
        assert forall id :: id in ids[1..] ==> id in ids;
        AuthenticBatchSucceeds(c, after, ids[1..], Aead.LaterNonces(randoms));
      }
    }
  }

  /** A batch takes the lowest free rows: whatever stale row it leaves although nobody has
      it locked comes after all it took, and then the batch is full. */
  lemma BatchTakesTheLowest(rows: Table, target: int, batchSize: nat, locked: set<nat>, id: nat)
    requires id in rows && rows[id].cipher.Some? && rows[id].keyVersion != Some(target) && id !in locked
    requires id !in BatchIds(rows, target, batchSize, locked)
    ensures |BatchIds(rows, target, batchSize, locked)| == batchSize
    ensures forall k :: k in BatchIds(rows, target, batchSize, locked) ==> k < id
  {
    var free := StaleIds(rows, target) - locked;
    var all, ids := Ascending(free), BatchIds(rows, target, batchSize, locked);
    assert id in free;
    AscendingIsStrict(free);
    LimitIsPrefix(all, batchSize);
    assert id in all;
    var b :| 0 <= b < |all| && all[b] == id;
    DroppedIsBeyond(all, batchSize, b);
    forall k | k in ids ensures k < id {
      var a :| 0 <= a < |ids| && ids[a] == k;
      assert all[a] == k;
    }
  }
}
