/** Idempotent admin mutations: the claim of a key, the domain effect and its stored
    response live and die in one transaction. */
module Idempotency {
  import opened Wrappers
  import opened Hashing
  import Text
  import Aead

  datatype Actor = Actor(kind: string, issuer: string, subject: string)

  datatype Request = Request(actor: Actor, operation: string, key: nat, fingerprint: Digest, ttl: int)

  /** The unique columns of a record. */
  datatype Id = Id(actor: Actor, operation: string, key: nat)

  datatype Status = Processing | Completed

  datatype Record = Record(
    fingerprint: Digest, status: Status, httpStatus: Option<int>, contentType: string,
    response: Option<Aead.Encrypted>, expiresAt: int)

  datatype Response = Response(status: int, contentType: string, body: string)

  datatype Error = Invalid | FingerprintMismatch | InProgress | Expired | NoRow | Undecryptable | Entropy

  /** What Begin decides: go ahead under a fresh claim, or send the stored response. */
  datatype Begun = Proceed | Replay(response: Response)

  const NIL: nat := 0

  predicate ValidRequest(r: Request) {
    r.key != NIL && r.actor.subject != "" && r.operation != "" && r.ttl > 0
    && r.actor.kind in {"shared_admin_token", "oidc_user"}
    && (r.actor.kind == "oidc_user" <==> r.actor.issuer != "")
  }

  function IdOf(r: Request): Id { Id(r.actor, r.operation, r.key) }

  // ----- Fingerprints -----

  function Fingerprint(operation: string, payload: string): Digest {
    Sha256(operation + ['\0'] + payload)
  }

  /** Different operations or payloads have different fingerprints; operation names
      contain no zero character. */
  lemma FingerprintSeparates(operation: string, payload: string, other: string, otherPayload: string)
    requires '\0' !in operation && '\0' !in other
    requires Fingerprint(operation, payload) == Fingerprint(other, otherPayload)
    ensures operation == other && payload == otherPayload
  {
    Text.SplitAtDelimiter(operation, other, '\0', payload, otherPayload);
  }

  lemma OrIsZeroIff(d: bv8, a: bv8, b: bv8)
    ensures d | (a ^ b) == 0 <==> d == 0 && a == b
  {
  }

  /** Constant-time comparison: no early exit on the first difference. */
  method EqualFingerprint(stored: seq<bv8>, expected: seq<bv8>) returns (equal: bool)
    ensures equal <==> stored == expected
  {
    if |stored| != |expected| {
      return false;
    }
    var difference: bv8 := 0;
    for i := 0 to |expected|
      invariant difference == 0 <==> stored[..i] == expected[..i]
    {
      OrIsZeroIff(difference, stored[i], expected[i]);
      assert stored[..i + 1] == stored[..i] + [stored[i]] && expected[..i + 1] == expected[..i] + [expected[i]];
      difference := difference | (stored[i] ^ expected[i]);
    }
    assert stored[..|expected|] == stored && expected[..|expected|] == expected;
    return difference == 0;
  }

  // ----- Begin and Complete -----

  function Claim(r: Request, now: int): Record {
    Record(r.fingerprint, Processing, None, "", None, now + r.ttl)
  }

  /** What the row found after a conflicting insert answers. */
  function Found(c: Aead.Cryptor, row: Record, r: Request, now: int): Result<Response, Error> {
    if row.fingerprint != r.fingerprint then Err(FingerprintMismatch)
    else if row.expiresAt <= now then Err(Expired)
    else if row.status != Completed || row.httpStatus.None? || row.response.None? then Err(InProgress)
    else
      match Aead.DecryptBytes(c, row.response.value)
      case Err(_) => Err(Undecryptable)
      case Ok(body) => Ok(Response(row.httpStatus.value, row.contentType, body))
  }

  predicate ValidResponse(p: Response) { 200 <= p.status <= 299 && p.body != "" && |p.contentType| <= 128 }

  function Finished(c: Aead.Cryptor, row: Record, p: Response, random: Option<Aead.Nonce>): Result<Record, Error>
    requires Aead.ValidCryptor(c)
  {
    match Aead.EncryptBytes(c, p.body, random)
    case Err(_) => Err(Entropy)
    case Ok(e) =>
      Ok(row.(status := Completed, httpStatus := Some(p.status), contentType := p.contentType, response := Some(e)))
  }

  function FinishedOr(c: Aead.Cryptor, row: Record, p: Response, random: Option<Aead.Nonce>): Record
    requires Aead.ValidCryptor(c)
  {
    var done := Finished(c, row, p, random);
    if done.Ok? then done.value else row
  }

  /** The records as one transaction sees them: what is committed and its own writes. */
  class Store {
    const cryptor: Aead.Cryptor
    var records: map<Id, Record>

    constructor (cryptor: Aead.Cryptor, records: map<Id, Record>)
      ensures this.cryptor == cryptor && this.records == records
    {
      this.cryptor, this.records := cryptor, records;
    }

    /** `vanished` says that a cleanup removed the conflicting row before it was read. */
    method Begin(r: Request, now: int, vanished: bool) returns (begun: Result<Begun, Error>)
      modifies this
      ensures begun == Err(Invalid) <==>
        r.key == 0 || r.actor.subject == "" || r.operation == "" || r.ttl <= 0
        || !((r.actor.kind == "shared_admin_token" && r.actor.issuer == "")
             || (r.actor.kind == "oidc_user" && r.actor.issuer != ""))
      ensures !ValidRequest(r) ==> begun == Err(Invalid) && records == old(records)
      ensures ValidRequest(r) && IdOf(r) !in old(records) ==>
        begun == Ok(Proceed) && records == old(records)[IdOf(r) := Claim(r, now)]
      ensures ValidRequest(r) && IdOf(r) in old(records) ==>
        records == old(records) && begun == if vanished then Err(NoRow) else
          (match Found(cryptor, old(records)[IdOf(r)], r, now)
           case Ok(response) => Ok(Replay(response))
           case Err(e) => Err(e))
    {
      if r.key == NIL || r.actor.subject == "" || r.operation == "" || r.ttl <= 0
         || (r.actor.kind != "shared_admin_token" && r.actor.kind != "oidc_user")
         || ((r.actor.kind == "oidc_user") != (r.actor.issuer != "")) {
        return Err(Invalid);
      }
      if IdOf(r) !in records {
        records := records[IdOf(r) := Record(r.fingerprint, Processing, None, "", None, now + r.ttl)];
        return Ok(Proceed);
      }
      if vanished {
        return Err(NoRow);
      }
      var row := records[IdOf(r)];
      if row.fingerprint != r.fingerprint {
        return Err(FingerprintMismatch);
      }
      if row.expiresAt <= now {
        return Err(Expired);
      }
      if row.status != Completed || row.httpStatus.None? || row.response.None? {
        return Err(InProgress);
      }
      var body := Aead.DecryptBytes(cryptor, row.response.value);
      if body.Err? {
        return Err(Undecryptable);
      }
      return Ok(Replay(Response(row.httpStatus.value, row.contentType, body.value)));
    }

    /** Fills in the claim this transaction made; it refuses any other row. */
    method Complete(r: Request, p: Response, random: Option<Aead.Nonce>) returns (done: Result<(), Error>)
      requires Aead.ValidCryptor(cryptor)
      modifies this
      ensures done.Ok? <==>
        && 200 <= p.status <= 299 && p.body != "" && |p.contentType| <= 128 && random.Some? && IdOf(r) in old(records)
        && old(records)[IdOf(r)].status == Processing && old(records)[IdOf(r)].fingerprint == r.fingerprint
      ensures done.Ok? ==> records == old(records)[IdOf(r) := FinishedOr(cryptor, old(records)[IdOf(r)], p, random)]
      ensures done.Err? ==> records == old(records)
    {
      if p.status < 200 || p.status > 299 || |p.body| == 0 || |p.contentType| > 128 {
        return Err(Invalid);
      }
      var encrypted := Aead.EncryptBytes(cryptor, p.body, random);
      if encrypted.Err? {
        return Err(Entropy);
      }
      if IdOf(r) !in records || records[IdOf(r)].status != Processing || records[IdOf(r)].fingerprint != r.fingerprint {
        return Err(Invalid);
      }
      records := records[IdOf(r) := records[IdOf(r)].(status := Completed, httpStatus := Some(p.status),
        contentType := p.contentType, response := Some(encrypted.value))];
      return Ok(());
    }
  }
}
