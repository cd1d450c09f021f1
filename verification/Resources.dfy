/** Resources of a tenant: definitions with fields, values stored per field, and
    linked resources that inherit what they do not override. */
module Resources {
  import opened Wrappers
  import opened Sorting
  import Sql
  import Text
  import Aead
  import opened Values

  type Cryptor = Aead.Cryptor

  datatype Tenant = Tenant(slug: string, active: bool, updatedAt: int)

  datatype Definition = Definition(key: string, active: bool, updatedAt: int)

  datatype Field = Field(definition: nat, key: string, title: string, dataType: string, required: bool, isSecret: bool,
    sortOrder: int)

  datatype Resource = Resource(tenant: nat, definition: nat, alias: string, name: string, active: bool,
    source: Option<nat>, createdAt: int, updatedAt: int)

  /** Value rows are unique per resource and field. */
  type Slot = (nat, nat)

  datatype Db = Db(tenants: map<nat, Tenant>, definitions: map<nat, Definition>, fields: map<nat, Field>,
                   resources: map<nat, Resource>, values: map<Slot, StoredValue>)

  datatype Error =
    | UnknownDefinition | InactiveDefinition | InvalidAlias | InvalidName | InvalidSource
    | InvalidFieldValue(key: string) | MissingRequired(key: string)
    | AliasExists | UnknownTenant | UnknownResource | UnknownField | ForeignKey
    | Crypto(error: Aead.Error)

  // ----- Fields -----

  predicate FieldBefore(db: Db, a: nat, b: nat) {
    a in db.fields && b in db.fields
    && (db.fields[a].sortOrder < db.fields[b].sortOrder
        || (db.fields[a].sortOrder == db.fields[b].sortOrder && TextBefore(db.fields[a].key, db.fields[b].key)))
  }

  function FieldIds(db: Db, definition: nat): set<nat> {
    set f | f in db.fields && db.fields[f].definition == definition
  }

  /** SELECT ... FROM resource_fields ... ORDER BY sort_order, key. */
  function ListFields(db: Db, definition: nat): seq<nat> {
    Sort(Sql.Ascending(FieldIds(db, definition)), (a, b) => FieldBefore(db, a, b))
  }

  /** The list holds each field of the definition once. */
  lemma ListedFields(db: Db, definition: nat)
    ensures forall f :: f in ListFields(db, definition) <==> f in FieldIds(db, definition)
    ensures Distinct(ListFields(db, definition))
  {
    var ids := Sql.Ascending(FieldIds(db, definition));
    var less := (a, b) => FieldBefore(db, a, b);
    SortKeeps(ids, less);
    SameMembers(Sort(ids, less), ids);
    Sql.AscendingIsStrict(FieldIds(db, definition));
    forall f ensures f in Sort(ids, less) <==> f in FieldIds(db, definition) {
      assert f in Members(Sort(ids, less)) <==> f in Members(ids);
    }
    DistinctBySize(ids, Sort(ids, less));
  }

  lemma DistinctBySize(s: seq<nat>, t: seq<nat>)
    requires multiset(s) == multiset(t) && Distinct(s)
    ensures Distinct(t)
  {
    forall i, j | 0 <= i < j < |t| ensures t[i] != t[j] {
      TwiceListed(t, i, j);
      AtMostOnce(s, t[i]);
    }
  }

  lemma TwiceListed(t: seq<nat>, i: nat, j: nat)
    requires i < j < |t|
    ensures t[i] == t[j] ==> multiset(t)[t[i]] >= 2
  {
    if t[i] == t[j] {
      assert t == t[..j] + t[j..];
      assert t[i] in t[..j] && t[j] in t[j..];
      assert t[i] in multiset(t[..j]) && t[j] in multiset(t[j..]);
      assert multiset(t) == multiset(t[..j]) + multiset(t[j..]);
    }
  }

  lemma {:induction false} AtMostOnce(s: seq<nat>, x: nat)
    requires Distinct(s)
    ensures multiset(s)[x] <= 1
    decreases |s|
  {
    if s != [] {
      assert s == [s[0]] + s[1..];
      AtMostOnce(s[1..], x);
      assert s[0] !in s[1..];
      assert s[0] !in multiset(s[1..]);
    }
  }

  // ----- Effective values -----

  function Coalesce<T>(a: Option<T>, b: Option<T>): Option<T> {
    if a.Some? then a else b
  }

  /** The four columns of the join, each coalesced on its own. */
  function Merged(local: Option<StoredValue>, source: Option<StoredValue>): StoredValue {
    var none := StoredValue(None, None, None, None);
    var l, s := if local.Some? then local.value else none, if source.Some? then source.value else none;
    StoredValue(Coalesce(l.plain, s.plain), Coalesce(l.cipher, s.cipher), Coalesce(l.nonce, s.nonce),
      Coalesce(l.keyVersion, s.keyVersion))
  }

  /** Over rows as `EncodeValue` writes them, the merged columns read as the local row
      exactly unless a plain local row meets an encrypted source row of another text:
      then the override is lost. */
  lemma ColumnwiseIsRowwiseIff(c: Cryptor, local: StoredValue, source: StoredValue, localSecret: bool,
      sourceSecret: bool)
    requires Shaped(local, localSecret) && Shaped(source, sourceSecret)
    ensures DecodeValue(c, Merged(Some(local), Some(source))) == DecodeValue(c, local)
      <==> localSecret || !sourceSecret || DecodeValue(c, source) == DecodeValue(c, local)
  {
  }

  /** A row of another shape is possible for the columns, and then inheritance wins
      over the override. */
  lemma MixedShapesLoseTheOverride(c: Cryptor, key: nat) returns (local: StoredValue, source: StoredValue)
    requires c.keys == map[1 := key]
    ensures Shaped(local, false) && Shaped(source, true)
    ensures DecodeValue(c, local) == Ok("mine") && DecodeValue(c, Merged(Some(local), Some(source))) == Ok("theirs")
  {
    var nonce := "000000000000";
    local := StoredValue(Some("mine"), None, None, None);
    source := StoredValue(None, Some(Aead.Sealed(key, nonce, "theirs")), Some(nonce), Some(1));
  }

  function Row(values: map<Slot, StoredValue>, resource: Option<nat>, field: nat): Option<StoredValue> {
    if resource.Some? && (resource.value, field) in values then Some(values[(resource.value, field)]) else None
  }

  datatype JoinRow = JoinRow(resource: nat, field: nat, hasValue: bool, isOverride: bool, value: StoredValue)

  function Joined(db: Db, resource: nat, field: nat): JoinRow
    requires resource in db.resources
  {
    var local, source := Row(db.values, Some(resource), field), Row(db.values, db.resources[resource].source, field);
    JoinRow(resource, field, local.Some? || source.Some?, local.Some?, Merged(local, source))
  }

  function JoinFields(db: Db, resource: nat, fields: seq<nat>): (rows: seq<JoinRow>)
    requires resource in db.resources
    ensures |rows| == |fields| && forall k :: 0 <= k < |rows| ==> rows[k] == Joined(db, resource, fields[k])
    decreases |fields|
  {
    if fields == [] then [] else [Joined(db, resource, fields[0])] + JoinFields(db, resource, fields[1..])
  }

  /** The rows of one resource, in field order. */
  function ResourceRows(db: Db, resource: nat): seq<JoinRow> {
    if resource in db.resources then JoinFields(db, resource, ListFields(db, db.resources[resource].definition)) else []
  }

  function RowsOf(db: Db, ids: seq<nat>): seq<JoinRow> {
    if ids == [] then [] else ResourceRows(db, ids[0]) + RowsOf(db, ids[1..])
  }

  /** ... WHERE tr.id = ANY(ids) ORDER BY tr.id, rf.sort_order, rf.key. */
  function ListResourceFieldValues(db: Db, ids: seq<nat>): seq<JoinRow> {
    RowsOf(db, Sql.ById(ids))
  }

  // ----- Headers and the batch builder -----

  /** A resource row joined with its definition and, when linked, its source. */
  datatype Header = Header(id: nat, resource: Resource, definitionKey: string, definitionUpdatedAt: int,
    sourceUpdatedAt: int)

  datatype FieldValue = FieldValue(field: Field, isOverride: bool, inherited: bool, value: string)

  datatype Built = Built(header: Header, fields: seq<FieldValue>)

  function ShowRow(c: Cryptor, fields: map<nat, Field>, header: Header, row: JoinRow,
      unmask: bool): Result<FieldValue, Aead.Error>
    requires row.field in fields
  {
    var inherited := !row.isOverride && header.resource.source.Some?;
    if !row.hasValue then Ok(FieldValue(fields[row.field], row.isOverride, inherited, ""))
    else
      match PresentValue(c, fields[row.field].isSecret, row.value, unmask)
      case Err(e) => Err(e)
      case Ok(text) => Ok(FieldValue(fields[row.field], row.isOverride, inherited, text))
  }

  predicate KnownFields(fields: map<nat, Field>, rows: seq<JoinRow>) {
    forall k :: 0 <= k < |rows| ==> rows[k].field in fields
  }

  /** What a header shows of a list of rows: its own rows in order, unless one of them
      cannot be opened. */
  function Shown(c: Cryptor, fields: map<nat, Field>, header: Header, rows: seq<JoinRow>,
      unmask: bool): Result<seq<FieldValue>, Aead.Error>
    requires KnownFields(fields, rows)
    decreases |rows|
  {
    if rows == [] then Ok([])
    else
      var n := |rows| - 1;
      match Shown(c, fields, header, rows[..n], unmask)
      case Err(e) => Err(e)
      case Ok(shown) =>
        if rows[n].resource != header.id then Ok(shown)
        else
          match ShowRow(c, fields, header, rows[n], unmask)
          case Err(e) => Err(e)
          case Ok(v) => Ok(shown + [v])
  }

  /** A header listed again later is filled in at the later place only. */
  predicate LastOfItsId(headers: seq<Header>, i: nat) {
    i < |headers| && forall j :: i < j < |headers| ==> headers[j].id != headers[i].id
  }

  lemma ResourceRowsHaveFields(db: Db, id: nat)
    ensures KnownFields(db.fields, ResourceRows(db, id))
  {
    if id in db.resources {
      var definition := db.resources[id].definition;
      ListedFields(db, definition);
      hide ListFields;
      var fields := ListFields(db, definition);
      forall k | 0 <= k < |fields| ensures fields[k] in db.fields {
        assert fields[k] in fields;
      }
    }
  }

  lemma {:induction false} RowsHaveFields(db: Db, ids: seq<nat>)
    ensures KnownFields(db.fields, RowsOf(db, ids))
    decreases |ids|
  {
    hide ResourceRows;
    if ids != [] {
      RowsHaveFields(db, ids[1..]);
      ResourceRowsHaveFields(db, ids[0]);
    }
  }

  /** `index` finds the last header of each id among the first n. */
  predicate Indexed(headers: seq<Header>, n: nat, index: map<nat, nat>) {
    && n <= |headers|
    && (forall i :: 0 <= i < n ==> headers[i].id in index)
    && (forall id :: id in index ==> index[id] < n && headers[index[id]].id == id)
    && (forall i :: 0 <= i < n ==> index[headers[i].id] >= i)
  }

  /** After the first k rows, the last header of each id shows its rows among them. */
  ghost predicate FilledIn(c: Cryptor, fields: map<nat, Field>, headers: seq<Header>, rows: seq<JoinRow>, k: nat,
      unmask: bool, index: map<nat, nat>, out: seq<Built>) {
    && k <= |rows| && KnownFields(fields, rows) && |out| == |headers|
    && forall i :: 0 <= i < |headers| ==>
         OneFilledIn(c, fields, headers[i], rows[..k], unmask,
                     headers[i].id in index && index[headers[i].id] == i, out[i])
  }

  predicate OneFilledIn(c: Cryptor, fields: map<nat, Field>, header: Header, rows: seq<JoinRow>, unmask: bool,
      last: bool, built: Built) {
    && KnownFields(fields, rows) && built.header == header
    && if last then Shown(c, fields, header, rows, unmask) == Ok(built.fields) else built.fields == []
  }

  lemma OneMoreRow(c: Cryptor, fields: map<nat, Field>, header: Header, rows: seq<JoinRow>, k: nat, unmask: bool)
    requires k < |rows| && KnownFields(fields, rows)
    ensures KnownFields(fields, rows[..k]) && KnownFields(fields, rows[..k + 1])
    ensures Shown(c, fields, header, rows[..k], unmask).Ok? ==>
      Shown(c, fields, header, rows[..k + 1], unmask) ==
        if rows[k].resource != header.id then Shown(c, fields, header, rows[..k], unmask)
        else
          (match ShowRow(c, fields, header, rows[k], unmask)
           case Err(e) => Err(e)
           case Ok(v) => Ok(Shown(c, fields, header, rows[..k], unmask).value + [v]))
  {
    assert rows[..k + 1][..k] == rows[..k];
  }

  /** A failure shows in every longer list. */
  lemma {:induction false} FailureStays(c: Cryptor, fields: map<nat, Field>, header: Header, rows: seq<JoinRow>,
      k: nat, unmask: bool)
    requires k <= |rows| && KnownFields(fields, rows)
    requires Shown(c, fields, header, rows[..k], unmask).Err?
    ensures Shown(c, fields, header, rows, unmask) == Shown(c, fields, header, rows[..k], unmask)
    decreases |rows| - k
  {
    if k < |rows| {
      assert rows[..k + 1][..k] == rows[..k];
      FailureStays(c, fields, header, rows, k + 1, unmask);
    } else {
      assert rows[..k] == rows;
    }
  }

  /** The effective fields of one resource. */
  function Effective(c: Cryptor, db: Db, header: Header, unmask: bool): Result<seq<FieldValue>, Aead.Error> {
    ResourceRowsHaveFields(db, header.id);
    Shown(c, db.fields, header, ResourceRows(db, header.id), unmask)
  }

  ghost predicate ShowsItsFields(c: Cryptor, db: Db, header: Header, unmask: bool, last: bool, built: Built) {
    built.header == header && if last then Effective(c, db, header, unmask) == Ok(built.fields) else built.fields == []
  }

  lemma IndexFindsLast(headers: seq<Header>, index: map<nat, nat>, i: nat)
    requires Indexed(headers, |headers|, index) && i < |headers|
    ensures headers[i].id in index && (index[headers[i].id] == i <==> LastOfItsId(headers, i))
  {
  }

  lemma NothingShown(c: Cryptor, fields: map<nat, Field>, headers: seq<Header>, rows: seq<JoinRow>, unmask: bool,
      index: map<nat, nat>, out: seq<Built>)
    requires KnownFields(fields, rows) && |out| == |headers|
    requires forall k :: 0 <= k < |headers| ==> out[k] == Built(headers[k], [])
    ensures FilledIn(c, fields, headers, rows, 0, unmask, index, out)
  {
    assert rows[..0] == [];
  }

  lemma RowFits(c: Cryptor, fields: map<nat, Field>, headers: seq<Header>, rows: seq<JoinRow>, k: nat, unmask: bool,
      index: map<nat, nat>, out: seq<Built>, v: FieldValue)
    requires k < |rows| && Indexed(headers, |headers|, index)
    requires FilledIn(c, fields, headers, rows, k, unmask, index, out)
    requires rows[k].resource in index && ShowRow(c, fields, headers[index[rows[k].resource]], rows[k], unmask) == Ok(v)
    ensures var at := index[rows[k].resource];
      FilledIn(c, fields, headers, rows, k + 1, unmask, index, out[at := out[at].(fields := out[at].fields + [v])])
  {
    hide Shown;
    var at := index[rows[k].resource];
    var next := out[at := out[at].(fields := out[at].fields + [v])];
    forall i | 0 <= i < |headers|
      ensures OneFilledIn(c, fields, headers[i], rows[..k + 1], unmask,
        headers[i].id in index && index[headers[i].id] == i, next[i])
    {
      OneMoreRow(c, fields, headers[i], rows, k, unmask);
      assert OneFilledIn(c, fields, headers[i], rows[..k], unmask, headers[i].id in index && index[headers[i].id] == i,
        out[i]);
    }
  }

  lemma RowSkipped(c: Cryptor, fields: map<nat, Field>, headers: seq<Header>, rows: seq<JoinRow>, k: nat,
      unmask: bool, index: map<nat, nat>, out: seq<Built>)
    requires k < |rows| && Indexed(headers, |headers|, index)
    requires FilledIn(c, fields, headers, rows, k, unmask, index, out)
    requires rows[k].resource !in index
    ensures FilledIn(c, fields, headers, rows, k + 1, unmask, index, out)
  {
    hide Shown;
    forall i | 0 <= i < |headers|
      ensures OneFilledIn(c, fields, headers[i], rows[..k + 1], unmask,
        headers[i].id in index && index[headers[i].id] == i, out[i])
    {
      OneMoreRow(c, fields, headers[i], rows, k, unmask);
      assert OneFilledIn(c, fields, headers[i], rows[..k], unmask, headers[i].id in index && index[headers[i].id] == i,
        out[i]);
    }
  }

  /** Among the rows of many resources, a header shows what it shows of its own. */
  lemma {:induction false} OwnRowsCount(c: Cryptor, db: Db, header: Header, ids: seq<nat>, unmask: bool)
    requires Sql.Strict(ids)
    ensures KnownFields(db.fields, RowsOf(db, ids))
    ensures header.id in ids ==>
      Shown(c, db.fields, header, RowsOf(db, ids), unmask) == Effective(c, db, header, unmask)
    ensures header.id !in ids ==> Shown(c, db.fields, header, RowsOf(db, ids), unmask) == Ok([])
    decreases |ids|
  {
    RowsHaveFields(db, ids);
    if ids != [] {
      var first, rest := ResourceRows(db, ids[0]), RowsOf(db, ids[1..]);
      ResourceRowsHaveFields(db, ids[0]);
      assert ids[0] !in ids[1..];
      assert header.id in ids <==> header.id == ids[0] || header.id in ids[1..];
      OwnRowsCount(c, db, header, ids[1..], unmask);
      RowsAreOwn(db, ids[0]);
      if header.id == ids[0] {
        RowsWithoutSuffix(c, db, header, first, ids[1..], unmask);
      } else {
        ForeignPrefix(c, db.fields, header, first, rest, unmask);
      }
    }
  }

  lemma RowsAreOwn(db: Db, id: nat)
    ensures forall k :: 0 <= k < |ResourceRows(db, id)| ==> ResourceRows(db, id)[k].resource == id
  {
  }

  /** Rows of other resources add nothing, at the end ... */
  lemma {:induction false} ForeignSuffix(c: Cryptor, fields: map<nat, Field>, header: Header, own: seq<JoinRow>,
      others: seq<JoinRow>, unmask: bool)
    requires KnownFields(fields, own) && KnownFields(fields, others)
    requires forall k :: 0 <= k < |others| ==> others[k].resource != header.id
    ensures KnownFields(fields, own + others)
    ensures Shown(c, fields, header, own + others, unmask) == Shown(c, fields, header, own, unmask)
    decreases |others|
  {
    if others == [] {
      assert own + others == own;
    } else {
      var n := |others| - 1;
      ForeignSuffix(c, fields, header, own, others[..n], unmask);
      assert (own + others)[..|own| + n] == own + others[..n];
    }
  }

  /** ... and in front. */
  lemma {:induction false} ForeignPrefix(c: Cryptor, fields: map<nat, Field>, header: Header, others: seq<JoinRow>,
      own: seq<JoinRow>, unmask: bool)
    requires KnownFields(fields, own) && KnownFields(fields, others)
    requires forall k :: 0 <= k < |others| ==> others[k].resource != header.id
    ensures KnownFields(fields, others + own)
    ensures Shown(c, fields, header, others + own, unmask) == Shown(c, fields, header, own, unmask)
    decreases |own|
  {
    if own == [] {
      ForeignSuffix(c, fields, header, [], others, unmask);
      assert others + own == [] + others;
    } else {
      var n := |own| - 1;
      ForeignPrefix(c, fields, header, others, own[..n], unmask);
      assert (others + own)[..|others| + n] == others + own[..n];
    }
  }

  lemma {:induction false} NoneAreForeign(db: Db, id: nat, ids: seq<nat>)
    requires id !in ids
    ensures forall k :: 0 <= k < |RowsOf(db, ids)| ==> RowsOf(db, ids)[k].resource != id
    decreases |ids|
  {
    hide ResourceRows;
    if ids != [] {
      NoneAreForeign(db, id, ids[1..]);
      RowsAreOwn(db, ids[0]);
    }
  }

  lemma RowsWithoutSuffix(c: Cryptor, db: Db, header: Header, own: seq<JoinRow>, ids: seq<nat>, unmask: bool)
    requires header.id !in ids && own == ResourceRows(db, header.id)
    ensures KnownFields(db.fields, own + RowsOf(db, ids))
    ensures Shown(c, db.fields, header, own + RowsOf(db, ids), unmask) == Effective(c, db, header, unmask)
  {
    hide ResourceRows;
    NoneAreForeign(db, header.id, ids);
    RowsHaveFields(db, ids);
    ResourceRowsHaveFields(db, header.id);
    ForeignSuffix(c, db.fields, header, own, RowsOf(db, ids), unmask);
  }

  lemma ListedRowsHaveFields(db: Db, ids: seq<nat>)
    ensures KnownFields(db.fields, ListResourceFieldValues(db, ids))
  {
    RowsHaveFields(db, Sql.ById(ids));
  }

  lemma ListShowsEffective(c: Cryptor, db: Db, header: Header, ids: seq<nat>, unmask: bool)
    requires header.id in ids
    ensures KnownFields(db.fields, ListResourceFieldValues(db, ids))
    ensures Shown(c, db.fields, header, ListResourceFieldValues(db, ids), unmask) == Effective(c, db, header, unmask)
  {
    Sql.AscendingIsStrict(Sql.Elements(ids));
    OwnRowsCount(c, db, header, Sql.ById(ids), unmask);
  }

  lemma AllShown(c: Cryptor, db: Db, headers: seq<Header>, ids: seq<nat>, index: map<nat, nat>, rows: seq<JoinRow>,
      unmask: bool, out: seq<Built>)
    requires rows == ListResourceFieldValues(db, ids) && Indexed(headers, |headers|, index)
    requires forall k :: 0 <= k < |headers| ==> headers[k].id in ids
    requires FilledIn(c, db.fields, headers, rows, |rows|, unmask, index, out)
    ensures forall i :: 0 <= i < |headers| ==>
      ShowsItsFields(c, db, headers[i], unmask, LastOfItsId(headers, i), out[i])
  {
    hide Shown;
    hide Effective;
    hide ListResourceFieldValues;
    assert rows[..|rows|] == rows;
    forall i | 0 <= i < |headers|
      ensures ShowsItsFields(c, db, headers[i], unmask, LastOfItsId(headers, i), out[i])
    {
      IndexFindsLast(headers, index, i);
      ListShowsEffective(c, db, headers[i], ids, unmask);
      assert OneFilledIn(c, db.fields, headers[i], rows[..|rows|], unmask,
        headers[i].id in index && index[headers[i].id] == i, out[i]);
    }
  }

  lemma RowFails(c: Cryptor, db: Db, headers: seq<Header>, ids: seq<nat>, index: map<nat, nat>, rows: seq<JoinRow>,
      k: nat, unmask: bool, out: seq<Built>)
    requires rows == ListResourceFieldValues(db, ids) && Indexed(headers, |headers|, index)
    requires forall j :: 0 <= j < |headers| ==> headers[j].id in ids
    requires k < |rows| && FilledIn(c, db.fields, headers, rows, k, unmask, index, out)
    requires rows[k].resource in index && ShowRow(c, db.fields, headers[index[rows[k].resource]], rows[k], unmask).Err?
    ensures var i := index[rows[k].resource];
      && LastOfItsId(headers, i)
      && Effective(c, db, headers[i], unmask) == Err(ShowRow(c, db.fields, headers[i], rows[k], unmask).error)
  {
    hide Shown;
    hide Effective;
    hide ListResourceFieldValues;
    var i := index[rows[k].resource];
    IndexFindsLast(headers, index, i);
    assert OneFilledIn(c, db.fields, headers[i], rows[..k], unmask, headers[i].id in index && index[headers[i].id] == i,
      out[i]);
    OneMoreRow(c, db.fields, headers[i], rows, k, unmask);
    FailureStays(c, db.fields, headers[i], rows, k + 1, unmask);
    ListShowsEffective(c, db, headers[i], ids, unmask);
  }

  /** The value rows of all headers in one query, distributed by resource. Without
      repeated headers every one shows exactly its own effective fields. */
  method BuildResourceFieldsBatch(c: Cryptor, db: Db, headers: seq<Header>,
      unmask: bool) returns (r: Result<seq<Built>, Aead.Error>)
    ensures r.Ok? ==> |r.value| == |headers|
    ensures r.Ok? ==> forall i :: 0 <= i < |headers| ==>
      ShowsItsFields(c, db, headers[i], unmask, LastOfItsId(headers, i), r.value[i])
    ensures r.Err? ==> exists i ::
      0 <= i < |headers| && LastOfItsId(headers, i) && Effective(c, db, headers[i], unmask) == Err(r.error)
  {
    hide Shown;
    hide ListResourceFieldValues;
    var out: seq<Built>, ids: seq<nat>, index: map<nat, nat> := [], [], map[];
    for i := 0 to |headers|
      invariant |out| == |ids| == i && Indexed(headers, i, index)
      invariant forall k :: 0 <= k < i ==> ids[k] == headers[k].id && out[k] == Built(headers[k], [])
    {
      out := out + [Built(headers[i], [])];
      ids := ids + [headers[i].id];
      index := index[headers[i].id := i];
    }
    assert forall k :: 0 <= k < |headers| ==> headers[k].id in ids;
    var rows := ListResourceFieldValues(db, ids);
    ListedRowsHaveFields(db, ids);
    NothingShown(c, db.fields, headers, rows, unmask, index, out);
    for k := 0 to |rows|
      invariant FilledIn(c, db.fields, headers, rows, k, unmask, index, out)
    {
      var row := rows[k];
      if row.resource in index {
        var at := index[row.resource];
        var shown := ShowRow(c, db.fields, out[at].header, row, unmask);
        if shown.Err? {
          RowFails(c, db, headers, ids, index, rows, k, unmask, out);
          return Err(shown.error);
        }
        RowFits(c, db.fields, headers, rows, k, unmask, index, out, shown.value);
        out := out[at := out[at].(fields := out[at].fields + [shown.value])];
      } else {
        RowSkipped(c, db.fields, headers, rows, k, unmask, index, out);
      }
    }
    AllShown(c, db, headers, ids, index, rows, unmask, out);
    return Ok(out);
  }
}
