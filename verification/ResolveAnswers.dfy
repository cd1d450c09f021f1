/** What a consumer is answered, in terms of rows and texts: whose resources, in which
    order, with which values. */
module ResolveAnswers {
  import opened Wrappers
  import Sql
  import Aead
  import opened Values
  import opened Resources
  import opened Provisioning
  import opened ResourceRuns
  import opened ResourceValues
  import opened Hashing
  import opened Etag
  import opened Resolve

  // ----- Whose resources -----

  /** Exactly the tenant's active resources, each once, by creation time and then id. */
  ghost predicate ListsTenant(db: Db, tenant: nat, ids: seq<nat>) {
    && (forall r :: r in ids <==> r in db.resources && db.resources[r].tenant == tenant && db.resources[r].active)
    && (forall i, j :: 0 <= i < j < |ids| ==> CreatedBefore(db, ids[i], ids[j]))
  }

  predicate CreatedBefore(db: Db, a: nat, b: nat) {
    a in db.resources && b in db.resources
    && (db.resources[a].createdAt < db.resources[b].createdAt
        || (db.resources[a].createdAt == db.resources[b].createdAt && a < b))
  }

  lemma {:induction false} EveryHeader(db: Db, ids: seq<nat>)
    requires forall r :: r in ids ==> GetHeader(db, r).Some?
    ensures |HeadersOf(db, ids)| == |ids|
    ensures forall k :: 0 <= k < |ids| ==> GetHeader(db, ids[k]) == Some(HeadersOf(db, ids)[k])
    decreases |ids|
  {
    hide GetHeader;
    if ids != [] {
      assert ids[0] in ids && forall r :: r in ids[1..] ==> r in ids;
      EveryHeader(db, ids[1..]);
    }
  }

  lemma OrderListsTenant(db: Db, tenant: nat)
    ensures ListsTenant(db, tenant, Sql.OrderBy(ActiveResources(db, tenant)))
  {
    var key := ActiveResources(db, tenant);
    var ids := Sql.OrderBy(key);
    Sql.OrderByIsOrdered(key);
    hide Sql.OrderBy;
    forall i, j | 0 <= i < j < |ids| ensures CreatedBefore(db, ids[i], ids[j]) {
      assert Sql.Before(key, ids[i], ids[j]);
    }
  }

  /** The header query lists the tenant. */
  lemma HeadersListTenant(db: Db, tenant: nat) returns (ids: seq<nat>)
    requires Links(db)
    ensures ListsTenant(db, tenant, ids) && |ListHeaders(db, tenant)| == |ids|
    ensures forall k :: 0 <= k < |ids| ==> GetHeader(db, ids[k]) == Some(ListHeaders(db, tenant)[k])
  {
    ids := Sql.OrderBy(ActiveResources(db, tenant));
    OrderListsTenant(db, tenant);
    forall r | r in ids ensures GetHeader(db, r).Some? {
      ResourcesHaveHeaders(db, r);
    }
    hide GetHeader;
    hide ActiveResources;
    hide ListsTenant;
    hide Sql.OrderBy;
    hide Links;
    EveryHeader(db, ids);
  }

  // ----- What each one reads as -----

  /** The keys of the resource's fields with their texts, or nothing once it is gone. */
  ghost predicate ReadsAs(s: State, r: nat, values: map<string, string>) {
    if r !in s.db.resources then values == map[]
    else
      && (forall f :: f in s.db.fields && s.db.fields[f].definition == s.db.resources[r].definition ==>
            s.db.fields[f].key in values && values[s.db.fields[f].key] == EffectiveText(s, r, f))
      && (forall key :: key in values ==>
            exists f :: f in FieldIds(s.db, s.db.resources[r].definition) && s.db.fields[f].key == key)
  }

  /** The header decides only what is marked as inherited. */
  lemma {:induction false} TextsIgnoreHeader(c: Cryptor, fields: map<nat, Field>, g: Header, h: Header,
      rows: seq<JoinRow>)
    requires KnownFields(fields, rows) && g.id == h.id
    ensures Shown(c, fields, g, rows, true).Ok? <==> Shown(c, fields, h, rows, true).Ok?
    ensures Shown(c, fields, g, rows, true).Ok? ==>
      ValuesOf(Shown(c, fields, g, rows, true).value) == ValuesOf(Shown(c, fields, h, rows, true).value)
    decreases |rows|
  {
    hide PresentValue;
    if rows != [] {
      TextsIgnoreHeader(c, fields, g, h, rows[..|rows| - 1]);
      if Shown(c, fields, g, rows[..|rows| - 1], true).Ok? {
        LastShown(c, fields, g, rows);
        LastShown(c, fields, h, rows);
      }
    }
  }

  lemma LastShown(c: Cryptor, fields: map<nat, Field>, h: Header, rows: seq<JoinRow>)
    requires rows != [] && KnownFields(fields, rows)
    requires Shown(c, fields, h, rows[..|rows| - 1], true).Ok?
    ensures var row, rest := rows[|rows| - 1], Shown(c, fields, h, rows[..|rows| - 1], true).value;
      var shown := Shown(c, fields, h, rows, true);
      if row.resource != h.id then shown == Ok(rest)
      else
        && (shown.Ok? <==> ShowRow(c, fields, h, row, true).Ok?)
        && (shown.Ok? ==>
              ValuesOf(shown.value) ==
                ValuesOf(rest)[fields[row.field].key := ShowRow(c, fields, h, row, true).value.value])
  {
    hide PresentValue;
    var row, rest := rows[|rows| - 1], Shown(c, fields, h, rows[..|rows| - 1], true).value;
    if row.resource == h.id && ShowRow(c, fields, h, row, true).Ok? {
      var v := ShowRow(c, fields, h, row, true).value;
      assert (rest + [v])[..|rest|] == rest;
    }
  }

  lemma TextMapReads(s: State, r: nat)
    requires UniqueKeys(s.db) && r in s.db.resources
    ensures ReadsAs(s, r, TextMap(s, r, s.db.resources[r].definition))
  {
    TextMapIs(s, r, s.db.resources[r].definition);
    hide TextMap;
    hide EffectiveText;
    hide UniqueKeys;
    forall f | f in s.db.fields && s.db.fields[f].definition == s.db.resources[r].definition
      ensures f in FieldIds(s.db, s.db.resources[r].definition)
    {
    }
  }

  /** Values read at any reachable state, whenever the header was read. */
  lemma HeaderReadsAt(c: Cryptor, s: State, h: Header)
    requires Inv(c, s)
    ensures Effective(c, s.db, h, true).Ok?
    ensures ReadsAs(s, h.id, ValuesOf(Effective(c, s.db, h, true).value))
  {
    ResourceRowsHaveFields(s.db, h.id);
    if h.id in s.db.resources {
      ResourcesHaveHeaders(s.db, h.id);
      TextMapReads(s, h.id);
      hide ReadsAs;
      hide TextMap;
      hide GetHeader;
      hide Shown;
      hide ResourceRows;
      hide ValuesOf;
      var now := GetHeader(s.db, h.id).value;
      HeaderReads(c, s, now);
      hide Inv;
      TextsIgnoreHeader(c, s.db.fields, h, now, ResourceRows(s.db, h.id));
    }
  }

  lemma {:induction false} AllResolve(c: Cryptor, s: State, headers: seq<Header>)
    requires Inv(c, s)
    ensures ResolvedAll(c, s.db, headers).Ok? && |ResolvedAll(c, s.db, headers).value| == |headers|
    ensures forall k :: 0 <= k < |headers| ==>
      var entry := ResolvedAll(c, s.db, headers).value[k];
      && entry.alias == headers[k].resource.alias && entry.definitionKey == headers[k].definitionKey
      && ReadsAs(s, headers[k].id, entry.values)
    decreases |headers|
  {
    hide Inv;
    hide Effective;
    hide ReadsAs;
    hide ValuesOf;
    if headers != [] {
      var n := |headers| - 1;
      AllResolve(c, s, headers[..n]);
      HeaderReadsAt(c, s, headers[n]);
    }
  }

  /** The body: the tenant's resources as their rows were listed, with the values as
      they were read. */
  ghost predicate IsTheTenants(listed: State, read: State, tenant: nat, ids: seq<nat>,
      resources: seq<ResolvedResource>) {
    && ListsTenant(listed.db, tenant, ids) && |resources| == |ids|
    && forall k :: 0 <= k < |ids| ==> IsTheRow(listed, read, ids[k], resources[k])
  }

  ghost predicate IsTheRow(listed: State, read: State, r: nat, entry: ResolvedResource) {
    && r in listed.db.resources && listed.db.resources[r].definition in listed.db.definitions
    && entry.alias == listed.db.resources[r].alias
    && entry.definitionKey == listed.db.definitions[listed.db.resources[r].definition].key
    && ReadsAs(read, r, entry.values)
  }

  lemma BodyOf(c: Cryptor, listed: State, read: State, tenant: nat) returns (ids: seq<nat>)
    requires Inv(c, listed) && Inv(c, read)
    ensures ResolvedAll(c, read.db, ListHeaders(listed.db, tenant)).Ok?
    ensures IsTheTenants(listed, read, tenant, ids, ResolvedAll(c, read.db, ListHeaders(listed.db, tenant)).value)
  {
    hide ResolvedAll;
    hide ListHeaders;
    hide ReadsAs;
    hide ListsTenant;
    var headers := ListHeaders(listed.db, tenant);
    ids := HeadersListTenant(listed.db, tenant);
    AllResolve(c, read, headers);
    forall k | 0 <= k < |ids|
      ensures IsTheRow(listed, read, ids[k], ResolvedAll(c, read.db, headers).value[k])
    {
      assert ids[k] in ids;
      InTenant(listed.db, tenant, ids, k);
      ResourcesHaveHeaders(listed.db, ids[k]);
    }
    hide Inv;
  }

  lemma InTenant(db: Db, tenant: nat, ids: seq<nat>, k: nat)
    requires ListsTenant(db, tenant, ids) && k < |ids|
    ensures ids[k] in db.resources
  {
    assert ids[k] in ids;
  }

  /** What is answered from a tenant row, a listing and a reading of the values. */
  ghost predicate IsRightAnswer(at: Db, listed: State, read: State, tenant: Option<nat>, offered: Option<Tag>,
      answer: Response) {
    && !answer.Failed?
    && (answer.NotFound? <==> !(tenant.Some? && tenant.value in at.tenants && at.tenants[tenant.value].active))
    && (answer.NotModified? ==> offered == Some(answer.tag))
    && (answer.Body? ==> tenant.Some? && tenant.value in at.tenants && offered != Some(answer.tag))
    && (answer.Body? ==> answer.body.slug == at.tenants[tenant.value].slug)
    && (answer.Body? ==> exists ids :: IsTheTenants(listed, read, tenant.value, ids, answer.body.resources))
  }

  lemma AnswerIsRight(c: Cryptor, at: Db, listed: State, read: State, tenant: Option<nat>, offered: Option<Tag>)
    requires Inv(c, listed) && Inv(c, read)
    ensures IsRightAnswer(at, listed, read, tenant, offered, Answer(c, at, listed.db, read.db, tenant, offered))
  {
    hide Inv;
    hide TagOf;
    hide ResolvedAll;
    hide ListHeaders;
    hide IsTheTenants;
    if tenant.Some? {
      var ids := BodyOf(c, listed, read, tenant.value);
    }
  }

  /** Tenant, headers and values are read at any three moments of a run. Not found means
      that there is no such active tenant; nothing else fails; and a body has the
      tenant's slug and lists exactly its active resources, by creation, with their
      aliases, definition keys and effective texts. */
  lemma AnswersAreTheTenants(c: Cryptor, states: seq<State>, steps: seq<Step>, t: nat, h: nat, v: nat,
      tenant: Option<nat>, offered: Option<Tag>)
    requires Aead.ValidCryptor(c) && Execution(c, states, steps) && t < |states| && h < |states| && v < |states|
    ensures IsRightAnswer(states[t].db, states[h], states[v], tenant, offered,
                          Answer(c, states[t].db, states[h].db, states[v].db, tenant, offered))
  {
    hide *;
    EveryRunKeepsInv(c, states, steps, h);
    EveryRunKeepsInv(c, states, steps, v);
    AnswerIsRight(c, states[t].db, states[h], states[v], tenant, offered);
  }
}
