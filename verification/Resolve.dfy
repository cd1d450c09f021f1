/** Resolving a tenant for a consumer: tag first, then the body, each read at its own
    instant, with conditional requests answered from the tag alone. */
module Resolve {
  import opened Wrappers
  import Sql
  import Sorting
  import Text
  import Aead
  import opened Values
  import opened Resources
  import opened Provisioning
  import opened ResourceRuns
  import opened ResourceValues
  import opened Etag
  import opened Hashing

  // ----- Reads -----

  /** The tenant's active resources with their creation times. */
  function ActiveResources(db: Db, tenant: nat): map<nat, int> {
    map r | r in db.resources && db.resources[r].tenant == tenant && db.resources[r].active :: db.resources[r].createdAt
  }

  function HeadersOf(db: Db, ids: seq<nat>): seq<Header> {
    if ids == [] then []
    else
      var h := GetHeader(db, ids[0]);
      (if h.Some? then [h.value] else []) + HeadersOf(db, ids[1..])
  }

  /** ... ORDER BY tr.created_at, tr.id. */
  function ListHeaders(db: Db, tenant: nat): seq<Header> {
    HeadersOf(db, Sql.OrderBy(ActiveResources(db, tenant)))
  }

  // ----- The body -----

  datatype ResolvedResource = ResolvedResource(alias: string, definitionKey: string, values: map<string, string>)

  datatype ResolvedTenant = ResolvedTenant(slug: string, resources: seq<ResolvedResource>)

  function ValuesOf(shown: seq<FieldValue>): map<string, string> {
    if shown == [] then map[]
    else
      var n := |shown| - 1;
      ValuesOf(shown[..n])[shown[n].field.key := shown[n].value]
  }

  function ResolvedOne(h: Header, shown: seq<FieldValue>): ResolvedResource {
    ResolvedResource(h.resource.alias, h.definitionKey, ValuesOf(shown))
  }

  /** What every header reads as in this state of the tables, or the first failure. */
  function ResolvedAll(c: Cryptor, db: Db, headers: seq<Header>): Result<seq<ResolvedResource>, Aead.Error> {
    if headers == [] then Ok([])
    else
      var n := |headers| - 1;
      match ResolvedAll(c, db, headers[..n])
      case Err(e) => Err(e)
      case Ok(rest) =>
        match Effective(c, db, headers[n], true)
        case Err(e) => Err(e)
        case Ok(shown) => Ok(rest + [ResolvedOne(headers[n], shown)])
  }

  function Resolved(c: Cryptor, db: Db, slug: string, headers: seq<Header>): Result<ResolvedTenant, Aead.Error> {
    match ResolvedAll(c, db, headers)
    case Err(e) => Err(e)
    case Ok(resources) => Ok(ResolvedTenant(slug, resources))
  }

  lemma {:induction false} ResolvesIff(c: Cryptor, db: Db, headers: seq<Header>)
    ensures ResolvedAll(c, db, headers).Ok? <==>
      forall i :: 0 <= i < |headers| ==> Effective(c, db, headers[i], true).Ok?
    decreases |headers|
  {
    hide Effective;
    if headers != [] {
      ResolvesIff(c, db, headers[..|headers| - 1]);
    }
  }

  ghost predicate OncePerId(headers: seq<Header>) {
    forall i, j :: 0 <= i < j < |headers| ==> headers[i].id != headers[j].id
  }

  method ResolveTenant(c: Cryptor, db: Db, slug: string,
      headers: seq<Header>) returns (r: Result<ResolvedTenant, Aead.Error>)
    requires OncePerId(headers)
    ensures r.Ok? <==> Resolved(c, db, slug, headers).Ok?
    ensures r.Ok? ==> r == Resolved(c, db, slug, headers)
  {
    hide Effective;
    hide ValuesOf;
    var built := BuildResourceFieldsBatch(c, db, headers, true);
    ResolvesIff(c, db, headers);
    if built.Err? {
      return Err(built.error);
    }
    forall i | 0 <= i < |headers|
      ensures Effective(c, db, headers[i], true) == Ok(built.value[i].fields) && built.value[i].header == headers[i]
    {
      assert ShowsItsFields(c, db, headers[i], true, LastOfItsId(headers, i), built.value[i]);
    }
    var resources: seq<ResolvedResource> := [];
    for i := 0 to |headers|
      invariant ResolvedAll(c, db, headers[..i]) == Ok(resources)
    {
      assert headers[..i + 1][..i] == headers[..i];
      var values := CollectValues(built.value[i].fields);
      resources := resources
        + [ResolvedResource(built.value[i].header.resource.alias, built.value[i].header.definitionKey, values)];
    }
    assert headers[..|headers|] == headers;
    return Ok(ResolvedTenant(slug, resources));
  }

  method CollectValues(shown: seq<FieldValue>) returns (values: map<string, string>)
    ensures values == ValuesOf(shown)
  {
    values := map[];
    for i := 0 to |shown|
      invariant values == ValuesOf(shown[..i])
    {
      assert shown[..i + 1][..i] == shown[..i];
      values := values[shown[i].field.key := shown[i].value];
    }
    assert shown[..|shown|] == shown;
  }

  // ----- The request -----

  datatype Response = NotFound | NotModified(tag: Tag) | Body(tag: Tag, body: ResolvedTenant) | Failed

  function TagOf(atTenant: Db, atHeaders: Db, tenant: nat): Tag
    requires tenant in atTenant.tenants
  {
    Sha256(TagText(tenant, atTenant.tenants[tenant], ListHeaders(atHeaders, tenant)))
  }

  /** `tenant` is the owner of the requested hostname, if any. The tenant row, the
      headers and the values are read one after the other. */
  function Answer(c: Cryptor, atTenant: Db, atHeaders: Db, atValues: Db, tenant: Option<nat>,
      ifNoneMatch: Option<Tag>): Response {
    if tenant.None? || tenant.value !in atTenant.tenants || !atTenant.tenants[tenant.value].active then NotFound
    else
      var tag := TagOf(atTenant, atHeaders, tenant.value);
      if ifNoneMatch == Some(tag) then NotModified(tag)
      else
        match Resolved(c, atValues, atTenant.tenants[tenant.value].slug, ListHeaders(atHeaders, tenant.value))
        case Err(_) => Failed
        case Ok(body) => Body(tag, body)
  }

  lemma {:induction false} HeadersComeFrom(db: Db, ids: seq<nat>, h: Header)
    requires h in HeadersOf(db, ids)
    ensures h.id in ids && GetHeader(db, h.id) == Some(h)
    decreases |ids|
  {
    var first := GetHeader(db, ids[0]);
    if first.None? || h != first.value {
      assert h in HeadersOf(db, ids[1..]);
      HeadersComeFrom(db, ids[1..], h);
    }
  }

  lemma {:induction false} HeadersOncePerId(db: Db, ids: seq<nat>)
    requires forall i, j :: 0 <= i < j < |ids| ==> ids[i] != ids[j]
    ensures OncePerId(HeadersOf(db, ids))
    decreases |ids|
  {
    hide GetHeader;
    if ids != [] {
      HeadersOncePerId(db, ids[1..]);
      var rest := HeadersOf(db, ids[1..]);
      forall j | 0 <= j < |rest| ensures rest[j].id != ids[0] {
        HeadersComeFrom(db, ids[1..], rest[j]);
      }
      HeaderHasId(db, ids[0]);
    }
  }

  lemma HeaderHasId(db: Db, id: nat)
    ensures GetHeader(db, id).Some? ==> GetHeader(db, id).value.id == id
  {
  }

  method HandleResolve(c: Cryptor, atTenant: Db, atHeaders: Db, atValues: Db, tenant: Option<nat>,
      ifNoneMatch: Option<Tag>) returns (response: Response)
    ensures response == Answer(c, atTenant, atHeaders, atValues, tenant, ifNoneMatch)
  {
    hide Resolved;
    hide TagText;
    if tenant.None? || tenant.value !in atTenant.tenants || !atTenant.tenants[tenant.value].active {
      return NotFound;
    }
    var row := atTenant.tenants[tenant.value];
    var headers := ListHeaders(atHeaders, tenant.value);
    var tag := ComputeETag(tenant.value, row, headers);
    if ifNoneMatch == Some(tag) {
      return NotModified(tag);
    }
    Sql.OrderByHasNoRepeats(ActiveResources(atHeaders, tenant.value));
    HeadersOncePerId(atHeaders, Sql.OrderBy(ActiveResources(atHeaders, tenant.value)));
    var body := ResolveTenant(c, atValues, row.slug, headers);
    if body.Err? {
      return Failed;
    }
    return Body(tag, body.value);
  }

  // ----- What a header reads as -----

  /** Field keys and effective texts of one resource. */
  function TextMap(s: State, resource: nat, definition: nat): map<string, string>
    requires UniqueKeys(s.db)
  {
    map f | f in FieldIds(s.db, definition) :: s.db.fields[f].key := EffectiveText(s, resource, f)
  }

  lemma {:induction false} ValuesOfKeys(shown: seq<FieldValue>)
    requires forall i, j :: 0 <= i < j < |shown| ==> shown[i].field.key != shown[j].field.key
    ensures forall k :: 0 <= k < |shown| ==>
      shown[k].field.key in ValuesOf(shown) && ValuesOf(shown)[shown[k].field.key] == shown[k].value
    ensures forall key :: key in ValuesOf(shown) ==> exists k :: 0 <= k < |shown| && shown[k].field.key == key
    decreases |shown|
  {
    if shown != [] {
      var n := |shown| - 1;
      ValuesOfKeys(shown[..n]);
      forall key | key in ValuesOf(shown) ensures exists k :: 0 <= k < |shown| && shown[k].field.key == key {
        if key != shown[n].field.key {
          var k :| 0 <= k < n && shown[..n][k].field.key == key;
          assert shown[k].field.key == key;
        } else {
          assert shown[n].field.key == key;
        }
      }
    }
  }

  lemma HeaderReads(c: Cryptor, s: State, h: Header)
    requires Inv(c, s) && GetHeader(s.db, h.id) == Some(h)
    ensures Effective(c, s.db, h, true).Ok?
    ensures ValuesOf(Effective(c, s.db, h, true).value) == TextMap(s, h.id, h.resource.definition)
  {
    BuilderShowsLastWrites(c, s, h);
    var list := ListFields(s.db, h.resource.definition);
    var shown := TextsShown(s, h, list);
    forall i, j | 0 <= i < j < |shown| ensures shown[i].field.key != shown[j].field.key {
      DistinctKeys(s.db, h.resource.definition, list, i, j);
    }
    ValuesOfKeys(shown);
    TextMapShows(s, h, list, shown);
    hide Inv;
    hide ListFields;
    hide TextMap;
    hide Effective;
    ShowsOnce(shown, ValuesOf(shown), TextMap(s, h.id, h.resource.definition));
  }

  /** `m` holds exactly the keys and values shown. */
  ghost predicate Shows(shown: seq<FieldValue>, m: map<string, string>) {
    && (forall k :: 0 <= k < |shown| ==> shown[k].field.key in m && m[shown[k].field.key] == shown[k].value)
    && (forall key :: key in m ==> exists k :: 0 <= k < |shown| && shown[k].field.key == key)
  }

  lemma ShowsOnce(shown: seq<FieldValue>, x: map<string, string>, y: map<string, string>)
    requires Shows(shown, x) && Shows(shown, y)
    ensures x == y
  {
    forall key | key in x ensures key in y && y[key] == x[key] {
      var k :| 0 <= k < |shown| && shown[k].field.key == key;
    }
    forall key | key in y ensures key in x {
      var k :| 0 <= k < |shown| && shown[k].field.key == key;
    }
  }

  lemma TextMapShows(s: State, h: Header, list: seq<nat>, shown: seq<FieldValue>)
    requires UniqueKeys(s.db) && |shown| == |list|
    requires forall f :: f in list <==> f in FieldIds(s.db, h.resource.definition)
    requires forall k :: 0 <= k < |list| ==> list[k] in s.db.fields && shown[k] == TextShown(s, h, list[k])
    ensures Shows(shown, TextMap(s, h.id, h.resource.definition))
  {
    var texts := TextMap(s, h.id, h.resource.definition);
    TextMapIs(s, h.id, h.resource.definition);
    hide EffectiveText;
    hide UniqueKeys;
    hide TextMap;
    forall k | 0 <= k < |list| ensures shown[k].field.key in texts && texts[shown[k].field.key] == shown[k].value {
      assert list[k] in list;
    }
    forall key | key in texts ensures exists k :: 0 <= k < |shown| && shown[k].field.key == key {
      var f :| f in FieldIds(s.db, h.resource.definition) && s.db.fields[f].key == key;
      assert f in list;
      var k :| 0 <= k < |list| && list[k] == f;
      assert shown[k].field.key == key;
    }
  }

  lemma TextMapIs(s: State, r: nat, d: nat)
    requires UniqueKeys(s.db)
    ensures forall f :: f in FieldIds(s.db, d) ==>
      s.db.fields[f].key in TextMap(s, r, d) && TextMap(s, r, d)[s.db.fields[f].key] == EffectiveText(s, r, f)
    ensures forall key :: key in TextMap(s, r, d) ==> exists f :: f in FieldIds(s.db, d) && s.db.fields[f].key == key
  {
    hide EffectiveText;
  }
}
