/** Audit export jobs: created once per request, processed by whoever holds them, and
    consumed at most once, while others expire, retry and finish late. */
module Export {
  import opened Wrappers
  import opened Hashing
  import Sql
  import Aead

  datatype Status = Pending | Processing | Ready | Failed | Expired

  /** `payload` stands for the cipher, nonce and key version columns. */
  datatype Job = Job(
    kind: string, subject: string, key: nat, fingerprint: Digest, filters: string, format: string, status: Status,
    rowCount: Option<nat>, payload: Option<Aead.Encrypted>, createdAt: int, expiresAt: int, downloadedAt: Option<int>)

  /** Rows of the audit trail, and the moment a payload is stored. A downloaded row
      carries the bytes its commit released. */
  datatype Event = Requested(id: nat) | Readied(id: nat, bytes: string) | Downloaded(id: nat, bytes: string)

  datatype Error =
    | InvalidExport | IdempotencyMismatch | NoRow | Consumed
    | ExportExpired | NotReady | Undecryptable | Entropy

  datatype Actor = Actor(kind: string, subject: string)

  const DAY: int := 24 * 3_600 * 1_000_000_000

  /** The tables: jobs and the audit trail. */
  datatype Db = Db(jobs: map<nat, Job>, log: seq<Event>)

  function Fingerprint(filters: string, format: string): Digest {
    Sha256(filters + ['\0'] + format)
  }

  predicate SameRequest(j: Job, actor: Actor, key: nat) {
    j.kind == actor.kind && j.subject == actor.subject && j.key == key
  }

  /** The actor's own jobs; others look missing. */
  predicate Owned(jobs: map<nat, Job>, id: nat, actor: Actor) {
    id in jobs && jobs[id].kind == actor.kind && jobs[id].subject == actor.subject
  }

  function Existing(jobs: map<nat, Job>, actor: Actor, key: nat): set<nat> {
    set id | id in jobs && SameRequest(jobs[id], actor, key)
  }

  function NewJob(actor: Actor, key: nat, filters: string, format: string, synchronous: bool, now: int): Job {
    Job(actor.kind, actor.subject, key, Fingerprint(filters, format), filters, format,
        if synchronous then Processing else Pending,
        None, None, now, now + DAY, None)
  }

  // ----- Statements, each conditional on the row it finds -----

  /** UPDATE ... SET status='ready' ... WHERE id AND status='processing'. */
  function AfterFinish(db: Db, id: nat, bytes: string, rows: nat, sealed: Aead.Encrypted): Db {
    if id !in db.jobs || db.jobs[id].status != Processing then db
    else Db(db.jobs[id := db.jobs[id].(status := Ready, rowCount := Some(rows), payload := Some(sealed))],
      db.log + [Readied(id, bytes)])
  }

  /** UPDATE ... SET status='failed' WHERE id AND status='processing'. */
  function AfterFail(db: Db, id: nat): Db {
    if id !in db.jobs || db.jobs[id].status != Processing then db
    else db.(jobs := db.jobs[id := db.jobs[id].(status := Failed)])
  }

  predicate Expires(j: Job, now: int) { j.expiresAt <= now && j.status in {Pending, Processing, Ready} }

  function AfterExpire(db: Db, now: int): Db {
    db.(jobs := map id | id in db.jobs ::
      if Expires(db.jobs[id], now) then db.jobs[id].(status := Expired, payload := None) else db.jobs[id])
  }

  /** The pending jobs a worker may take, by creation time. */
  function Takeable(jobs: map<nat, Job>, now: int, locked: set<nat>): map<nat, int> {
    map id | id in jobs && jobs[id].status == Pending && jobs[id].expiresAt > now && id !in locked :: jobs[id].createdAt
  }

  function AfterTake(db: Db, id: nat): Db {
    if id !in db.jobs then db else db.(jobs := db.jobs[id := db.jobs[id].(status := Processing)])
  }

  /** What Consume answers for a row, and what it leaves. */
  function Consumable(c: Aead.Cryptor, j: Job, now: int): Result<string, Error> {
    if j.downloadedAt.Some? then Err(Consumed)
    else if j.expiresAt <= now then Err(ExportExpired)
    else if j.status != Ready then Err(NotReady)
    else if j.payload.None? then Err(NotReady)
    else
      match Aead.DecryptBytes(c, j.payload.value)
      case Err(_) => Err(Undecryptable)
      case Ok(bytes) => Ok(bytes)
  }

  function AfterConsume(db: Db, id: nat, bytes: string, at: int): Db {
    if id !in db.jobs then db
    else Db(db.jobs[id := db.jobs[id].(status := Expired, downloadedAt := Some(at), payload := None)],
      db.log + [Downloaded(id, bytes)])
  }

  /** INSERT ... ON CONFLICT: a new row, or the one row that already has this key. */
  function AfterCreate(db: Db, actor: Actor, key: nat, filters: string, format: string, synchronous: bool, id: nat,
      now: int): Db {
    if Sql.Ascending(Existing(db.jobs, actor, key)) != [] then db
    else Db(db.jobs[id := NewJob(actor, key, filters, format, synchronous, now)], db.log + [Requested(id)])
  }

  function CreateAnswer(jobs: map<nat, Job>, actor: Actor, key: nat, filters: string, format: string,
      synchronous: bool, id: nat): Result<(nat, bool), Error> {
    var same := Sql.Ascending(Existing(jobs, actor, key));
    if same == [] then Ok((id, synchronous))
    else if jobs[same[0]].fingerprint != Fingerprint(filters, format) then Err(IdempotencyMismatch)
    else Ok((same[0], synchronous && jobs[same[0]].status == Processing))
  }

  /** A repeated request finds its own job and adds nothing; the same key with other
      filters or format is refused. */
  lemma RetryFindsTheJob(db: Db, actor: Actor, key: nat, filters: string, format: string, synchronous: bool,
      id: nat, other: nat, now: int)
    requires id in db.jobs && Existing(db.jobs, actor, key) == {id}
    ensures AfterCreate(db, actor, key, filters, format, synchronous, other, now) == db
    ensures CreateAnswer(db.jobs, actor, key, filters, format, synchronous, other) ==
      if db.jobs[id].fingerprint == Fingerprint(filters, format)
        then Ok((id, synchronous && db.jobs[id].status == Processing))
      else Err(IdempotencyMismatch)
  {
    var same := Sql.Ascending(Existing(db.jobs, actor, key));
    assert |same| == 1;
    assert same[0] in Existing(db.jobs, actor, key);
  }

  class Repository {
    const cryptor: Aead.Cryptor
    var db: Db

    constructor (cryptor: Aead.Cryptor, db: Db)
      ensures this.cryptor == cryptor && this.db == db
    {
      this.cryptor, this.db := cryptor, db;
    }

    /** The insert-or-return half of Create; `id` is the fresh id of a new row. The
        result says whether the caller goes on to process the job itself. */
    method Create(actor: Actor, key: nat, filters: string, format: string, synchronous: bool, valid: bool, id: nat,
        now: int)
      returns (r: Result<(nat, bool), Error>)
      modifies this
      ensures !valid ==> r == Err(InvalidExport) && db == old(db)
      ensures valid ==> r == CreateAnswer(old(db).jobs, actor, key, filters, format, synchronous, id)
      ensures valid ==> db == AfterCreate(old(db), actor, key, filters, format, synchronous, id, now)
    {
      if !valid {
        return Err(InvalidExport);
      }
      var same := Sql.Ascending(Existing(db.jobs, actor, key));
      if same == [] {
        db := Db(db.jobs[id := NewJob(actor, key, filters, format, synchronous, now)], db.log + [Requested(id)]);
        return Ok((id, synchronous));
      }
      var existing := same[0];
      if db.jobs[existing].fingerprint != Fingerprint(filters, format) {
        return Err(IdempotencyMismatch);
      }
      return Ok((existing, synchronous && db.jobs[existing].status == Processing));
    }

    /** Takes the oldest pending job that nobody else is taking. */
    method TakePending(now: int, locked: set<nat>) returns (taken: Option<nat>)
      modifies this
      ensures taken.None? <==> Takeable(old(db).jobs, now, locked) == map[]
      ensures taken.None? ==> db == old(db)
      ensures taken.Some? ==> Sql.IsFirst(Takeable(old(db).jobs, now, locked), taken.value)
      ensures taken.Some? ==> db == AfterTake(old(db), taken.value)
    {
      var pending := Takeable(db.jobs, now, locked);
      if pending == map[] {
        return None;
      }
      var id := Sql.First(pending);
      db := db.(jobs := db.jobs[id := db.jobs[id].(status := Processing)]);
      return Some(id);
    }

    /** The tail of process: generation and archiving gave `output` or failed. */
    method Process(id: nat, output: Option<(string, nat)>, random: Option<Aead.Nonce>) returns (ok: bool)
      requires Aead.ValidCryptor(cryptor)
      modifies this
      ensures ok <==> output.Some? && random.Some?
      ensures !ok ==> db == AfterFail(old(db), id)
      ensures ok ==> Aead.EncryptBytes(cryptor, output.value.0, random).Ok?
      ensures ok ==>
        db == AfterFinish(old(db), id, output.value.0, output.value.1,
                          Aead.EncryptBytes(cryptor, output.value.0, random).value)
    {
      if output.None? {
        Fail(id);
        return false;
      }
      var encrypted := Aead.EncryptBytes(cryptor, output.value.0, random);
      if encrypted.Err? {
        Fail(id);
        return false;
      }
      if id in db.jobs && db.jobs[id].status == Processing {
        db := Db(db.jobs[id := db.jobs[id].(
                   status := Ready, rowCount := Some(output.value.1), payload := Some(encrypted.value))],
                 db.log + [Readied(id, output.value.0)]);
      }
      return true;
    }

    method Fail(id: nat)
      modifies this
      ensures db == AfterFail(old(db), id)
    {
      if id in db.jobs && db.jobs[id].status == Processing {
        db := db.(jobs := db.jobs[id := db.jobs[id].(status := Failed)]);
      }
    }

    /** One transaction under the row's lock: the bytes leave only with the commit that
        destroys the stored payload and records the download. */
    method Consume(actor: Actor, id: nat, valid: bool, now: int, later: int) returns (r: Result<string, Error>)
      modifies this
      ensures !valid ==> r == Err(InvalidExport) && db == old(db)
      ensures valid && !Owned(old(db).jobs, id, actor) ==> r == Err(NoRow) && db == old(db)
      ensures valid && Owned(old(db).jobs, id, actor) ==>
        r == Consumable(cryptor, old(db).jobs[id], now)
        && db == if r.Ok? then AfterConsume(old(db), id, r.value, later) else old(db)
    {
      if !valid {
        return Err(InvalidExport);
      }
      if !Owned(db.jobs, id, actor) {
        return Err(NoRow);
      }
      var job := db.jobs[id];
      if job.downloadedAt.Some? {
        return Err(Consumed);
      }
      if job.expiresAt <= now {
        return Err(ExportExpired);
      }
      if job.status != Ready || job.payload.None? {
        return Err(NotReady);
      }
      var bytes := Aead.DecryptBytes(cryptor, job.payload.value);
      if bytes.Err? {
        return Err(Undecryptable);
      }
      if db.jobs[id].status != Ready || db.jobs[id].downloadedAt.Some? {
        return Err(Consumed);
      }
      db := Db(db.jobs[id := db.jobs[id].(status := Expired, downloadedAt := Some(later), payload := None)],
               db.log + [Downloaded(id, bytes.value)]);
      return Ok(bytes.value);
    }

    method Expire(now: int) returns (n: nat)
      modifies this
      ensures db == AfterExpire(old(db), now)
      ensures n == |set id | id in old(db).jobs && Expires(old(db).jobs[id], now)|
    {
      var due := set id | id in db.jobs && Expires(db.jobs[id], now);
      n := |due|;
      var jobs := map id | id in db.jobs ::
        if id in due then db.jobs[id].(status := Expired, payload := None) else db.jobs[id];
      db := db.(jobs := jobs);
    }
  }
}
