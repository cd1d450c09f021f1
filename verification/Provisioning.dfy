/** Creating, duplicating and editing resources, each inside one transaction. */
module Provisioning {
  import opened Wrappers
  import Sql
  import Text
  import Aead
  import opened Values
  import opened Resources

  // ----- Validity of input -----

  predicate ValidInteger(s: string) {
    var digits := if s != "" && s[0] == '-' then s[1..] else s;
    digits != "" && Text.AllDigits(digits)
  }

  predicate ValidResourceValue(dataType: string, value: string) {
    value == ""
    || if dataType == "int" then ValidInteger(value)
       else if dataType == "bool" then value == "true" || value == "false"
       else true
  }

  predicate AliasStart(c: char) { 'a' <= c <= 'z' || '0' <= c <= '9' }

  predicate ValidAlias(s: string) {
    1 <= |s| <= 63 && AliasStart(s[0]) && forall i :: 1 <= i < |s| ==> AliasStart(s[i]) || s[i] in {'.', '_', '-'}
  }

  /** Tenant slugs: words of lower-case letters and digits joined by single dashes. */
  predicate ValidSlug(s: string) {
    1 <= |s| <= 63 && s[0] != '-' && s[|s| - 1] != '-'
    && (forall i :: 0 <= i < |s| ==> AliasStart(s[i]) || s[i] == '-')
    && (forall i :: 0 < i < |s| ==> s[i - 1] != '-' || s[i] != '-')
  }

  /** Definition and field keys. */
  predicate ValidKey(s: string) {
    1 <= |s| <= 63 && 'a' <= s[0] <= 'z' && forall i :: 1 <= i < |s| ==> AliasStart(s[i]) || s[i] in {'_', '-'}
  }

  const MAX_NAME: nat := 120

  function NormalizeResourceIdentity(name: string, alias: string): Result<(string, string), Error> {
    var n, a := Text.TrimSpace(name), Text.TrimSpace(alias);
    if a != "" && !ValidAlias(a) then Err(InvalidAlias)
    else if |n| > MAX_NAME then Err(InvalidName)
    else Ok((n, a))
  }

  // ----- Lookups -----

  function DefinitionByKey(db: Db, key: string): Option<nat> {
    var ids := Sql.Ascending(DefinitionsWithKey(db, key));
    if ids == [] then None else Some(ids[0])
  }

  function DefinitionsWithKey(db: Db, key: string): set<nat> {
    set d | d in db.definitions && db.definitions[d].key == key
  }

  function OwnResource(db: Db, tenant: nat, id: nat): Option<Resource> {
    if id in db.resources && db.resources[id].tenant == tenant then Some(db.resources[id]) else None
  }

  function GetHeader(db: Db, id: nat): Option<Header> {
    if id !in db.resources || db.resources[id].definition !in db.definitions then None
    else
      var r := db.resources[id];
      var d := db.definitions[r.definition];
      Some(Header(id, r, d.key, d.updatedAt,
        if r.source.Some? && r.source.value in db.resources then db.resources[r.source.value].updatedAt else 0))
  }

  predicate AliasTaken(db: Db, tenant: nat, alias: string) {
    exists r :: r in db.resources && db.resources[r].tenant == tenant && db.resources[r].alias == alias
  }

  /** Fields for which a resource has a value row of its own. */
  function ProvidedBy(db: Db, resource: nat): set<nat> {
    set slot | slot in db.values && slot.0 == resource :: slot.1
  }

  function FieldByKey(fields: map<nat, Field>, list: seq<nat>, key: string): Option<nat> {
    if list == [] then None
    else if list[0] in fields && fields[list[0]].key == key then Some(list[0])
    else FieldByKey(fields, list[1..], key)
  }

  // ----- Provisioning -----

  datatype Input = Input(name: string, alias: string, definitionKey: string, source: Option<nat>, tenant: nat,
    values: map<string, string>)

  function FieldError(f: Field, id: nat, values: map<string, string>, provided: set<nat>): Option<Error> {
    if f.key in values && !ValidResourceValue(f.dataType, values[f.key]) then Some(InvalidFieldValue(f.key))
    else if f.required && (f.key !in values || values[f.key] == "") && id !in provided then Some(MissingRequired(f.key))
    else None
  }

  /** The first field that is wrong. */
  function FieldErrors(fields: map<nat, Field>, list: seq<nat>, values: map<string, string>,
      provided: set<nat>): Option<Error>
    requires forall f :: f in list ==> f in fields
    decreases |list|
  {
    if list == [] then None
    else
      var e := FieldError(fields[list[0]], list[0], values, provided);
      if e.Some? then e else FieldErrors(fields, list[1..], values, provided)
  }

  /** The value table after the given values were stored field by field. */
  function StoreFields(c: Cryptor, fields: map<nat, Field>, list: seq<nat>, id: nat, values: map<string, string>,
                       table: map<Slot, StoredValue>, randoms: seq<Aead.Nonce>): Result<map<Slot, StoredValue>, Error>
    requires Aead.ValidCryptor(c) && forall f :: f in list ==> f in fields
    decreases |list|
  {
    if list == [] then Ok(table)
    else
      var f := fields[list[0]];
      if f.key !in values then StoreFields(c, fields, list[1..], id, values, table, randoms)
      else
        match EncodeValue(c, f.isSecret, values[f.key], Aead.FirstNonce(randoms))
        case Err(e) => Err(Crypto(e))
        case Ok(v) => StoreFields(c, fields, list[1..], id, values, table[(id, list[0]) := v], Remaining(f, randoms))
  }

  function Remaining(f: Field, randoms: seq<Aead.Nonce>): seq<Aead.Nonce> {
    if f.isSecret then Aead.LaterNonces(randoms) else randoms
  }

  function SourceAllowed(db: Db, in_: Input, definition: nat): bool {
    in_.source.None? ||
    (in_.source.value in db.resources
     && var s := db.resources[in_.source.value];
        s.tenant == in_.tenant && s.definition == definition && s.active && s.source.None?)
  }

  function AliasOf(alias: string, definitionKey: string): string {
    if alias != "" then alias else definitionKey
  }

  /** The new resource row, once all checks passed. */
  function CheckInput(db: Db, in_: Input, now: int): Result<Resource, Error> {
    var d := DefinitionByKey(db, in_.definitionKey);
    if d.None? then Err(UnknownDefinition)
    else if !db.definitions[d.value].active then Err(InactiveDefinition)
    else
      match NormalizeResourceIdentity(in_.name, in_.alias)
      case Err(e) => Err(e)
      case Ok(identity) =>
        var alias := AliasOf(identity.1, in_.definitionKey);
        if !ValidAlias(alias) then Err(InvalidAlias)
        else if !SourceAllowed(db, in_, d.value) then Err(InvalidSource)
        else
          ListedFields(db, d.value);
          var wrong := FieldErrors(db.fields, ListFields(db, d.value), in_.values, ProvidedTo(db, in_));
          if wrong.Some? then Err(wrong.value)
          else if AliasTaken(db, in_.tenant, alias) then Err(AliasExists)
          else if in_.tenant !in db.tenants then Err(UnknownTenant)
          else
            Ok(Resource(in_.tenant, d.value, alias, if identity.0 == "" then alias else identity.0, true, in_.source,
                        now, now))
  }

  function ProvidedTo(db: Db, in_: Input): set<nat> {
    if in_.source.Some? then ProvidedBy(db, in_.source.value) else {}
  }

  /** The database after provisioning, with `id` as the new resource's id. */
  function Provisioned(c: Cryptor, db: Db, in_: Input, id: nat, randoms: seq<Aead.Nonce>, now: int): Result<Db, Error>
    requires Aead.ValidCryptor(c)
  {
    match CheckInput(db, in_, now)
    case Err(e) => Err(e)
    case Ok(r) =>
      ListedFields(db, r.definition);
      match StoreFields(c, db.fields, ListFields(db, r.definition), id, in_.values, db.values, randoms)
      case Err(e) => Err(e)
      case Ok(values) => Ok(db.(resources := db.resources[id := r], values := values))
  }

  // ----- Duplicating -----

  function NonEmpty(shown: seq<FieldValue>): map<string, string> {
    if shown == [] then map[]
    else
      var n := |shown| - 1;
      var rest := NonEmpty(shown[..n]);
      if shown[n].value != "" then rest[shown[n].field.key := shown[n].value] else rest
  }

  function Duplicated(c: Cryptor, db: Db, tenant: nat, original: nat, alias: string, id: nat,
      randoms: seq<Aead.Nonce>, now: int): Result<Db, Error>
    requires Aead.ValidCryptor(c)
  {
    var header := GetHeader(db, original);
    if header.None? || header.value.resource.tenant != tenant then Err(UnknownResource)
    else
      match Effective(c, db, header.value, true)
      case Err(e) => Err(Crypto(e))
      case Ok(shown) =>
        Provisioned(c, db, Input("", alias, header.value.definitionKey, None, tenant, NonEmpty(shown)),
                    id, randoms, now)
  }

  // ----- Editing one field -----

  function Touched(db: Db, resource: nat, now: int): map<nat, Resource> {
    if resource in db.resources then db.resources[resource := db.resources[resource].(updatedAt := now)]
    else db.resources
  }

  function FieldUpdated(c: Cryptor, db: Db, tenant: nat, resource: nat, key: string, value: string,
      random: Option<Aead.Nonce>, now: int): Result<Db, Error>
    requires Aead.ValidCryptor(c)
  {
    var own := OwnResource(db, tenant, resource);
    if own.None? then Err(UnknownResource)
    else
      var selected := FieldByKey(db.fields, ListFields(db, own.value.definition), key);
      if selected.None? || selected.value !in db.fields then Err(UnknownField)
      else
        var f := db.fields[selected.value];
        if f.required && value == "" then Err(MissingRequired(f.key))
        else if !ValidResourceValue(f.dataType, value) then Err(InvalidFieldValue(f.key))
        else
          match EncodeValue(c, f.isSecret, value, random)
          case Err(e) => Err(Crypto(e))
          case Ok(v) =>
            Ok(db.(values := db.values[(resource, selected.value) := v], resources := Touched(db, resource, now)))
  }

  /** Deletes the local row; no stamp is touched. */
  function OverrideCleared(db: Db, tenant: nat, resource: nat, key: string): Result<Db, Error> {
    var own := OwnResource(db, tenant, resource);
    if own.None? then Err(UnknownResource)
    else if own.value.source.None? then Err(InvalidSource)
    else
      var selected := FieldByKey(db.fields, ListFields(db, own.value.definition), key);
      if selected.None? || selected.value !in db.fields then Err(UnknownField)
      else if db.fields[selected.value].required && (own.value.source.value, selected.value) !in db.values
        then Err(MissingRequired(db.fields[selected.value].key))
      else Ok(db.(values := db.values - {(resource, selected.value)}))
  }

  // ----- The operations -----

  lemma FoundByKey(fields: map<nat, Field>, list: seq<nat>, i: nat, key: string)
    requires i < |list| && list[i] in fields
    ensures FieldByKey(fields, list[i..], key) ==
      if fields[list[i]].key == key then Some(list[i]) else FieldByKey(fields, list[i + 1..], key)
  {
    assert list[i..][0] == list[i] && list[i..][1..] == list[i + 1..];
  }

  class Service {
    const cryptor: Cryptor
    var db: Db

    constructor (cryptor: Cryptor, db: Db)
      ensures this.cryptor == cryptor && this.db == db
    {
      this.cryptor, this.db := cryptor, db;
    }

    method Select(definition: nat, key: string) returns (selected: Option<nat>)
      ensures selected == FieldByKey(db.fields, ListFields(db, definition), key)
      ensures selected.Some? ==> selected.value in db.fields
    {
      var list := ListFields(db, definition);
      ListedFields(db, definition);
      hide ListFields;
      assert list[0..] == list;
      for i := 0 to |list|
        invariant FieldByKey(db.fields, list, key) == FieldByKey(db.fields, list[i..], key)
      {
        assert list[i] in list;
        FoundByKey(db.fields, list, i, key);
        if db.fields[list[i]].key == key {
          return Some(list[i]);
        }
      }
      return None;
    }

    method UpdateResourceField(tenant: nat, resource: nat, key: string, value: string, random: Option<Aead.Nonce>,
        now: int) returns (r: Result<(), Error>)
      requires Aead.ValidCryptor(cryptor)
      modifies this
      ensures match FieldUpdated(cryptor, old(db), tenant, resource, key, value, random, now)
        case Ok(after) => r == Ok(()) && db == after
        case Err(e) => r == Err(e) && db == old(db)
    {
      hide ListFields;
      hide FieldByKey;
      var own := OwnResource(db, tenant, resource);
      if own.None? {
        return Err(UnknownResource);
      }
      var selected := Select(own.value.definition, key);
      if selected.None? {
        return Err(UnknownField);
      }
      var f := db.fields[selected.value];
      if f.required && value == "" {
        return Err(MissingRequired(f.key));
      }
      if !ValidResourceValue(f.dataType, value) {
        return Err(InvalidFieldValue(f.key));
      }
      var stored := EncodeValue(cryptor, f.isSecret, value, random);
      if stored.Err? {
        return Err(Crypto(stored.error));
      }
      db := db.(values := db.values[(resource, selected.value) := stored.value],
                resources := db.resources[resource := db.resources[resource].(updatedAt := now)]);
      return Ok(());
    }

    method ClearResourceFieldOverride(tenant: nat, resource: nat, key: string) returns (r: Result<(), Error>)
      modifies this
      ensures match OverrideCleared(old(db), tenant, resource, key)
        case Ok(after) => r == Ok(()) && db == after
        case Err(e) => r == Err(e) && db == old(db)
    {
      hide ListFields;
      hide FieldByKey;
      var own := OwnResource(db, tenant, resource);
      if own.None? {
        return Err(UnknownResource);
      }
      if own.value.source.None? {
        return Err(InvalidSource);
      }
      var selected := Select(own.value.definition, key);
      if selected.None? {
        return Err(UnknownField);
      }
      var f := db.fields[selected.value];
      if f.required {
        var provided := ProvidedBy(db, own.value.source.value);
        if selected.value !in provided {
          assert (own.value.source.value, selected.value) !in db.values;
          return Err(MissingRequired(f.key));
        }
      }
      db := db.(values := db.values - {(resource, selected.value)});
      return Ok(());
    }

    method ProvisionResource(in_: Input, id: nat, randoms: seq<Aead.Nonce>, now: int) returns (r: Result<(), Error>)
      requires Aead.ValidCryptor(cryptor)
      modifies this
      ensures match Provisioned(cryptor, old(db), in_, id, randoms, now)
        case Ok(after) => r == Ok(()) && db == after
        case Err(e) => r == Err(e) && db == old(db)
    {
      hide ListFields;
      hide ProvidedBy;
      hide NormalizeResourceIdentity;
      var definition := DefinitionByKey(db, in_.definitionKey);
      if definition.None? {
        return Err(UnknownDefinition);
      }
      if !db.definitions[definition.value].active {
        return Err(InactiveDefinition);
      }
      var identity := NormalizeResourceIdentity(in_.name, in_.alias);
      if identity.Err? {
        return Err(identity.error);
      }
      var name, alias := identity.value.0, identity.value.1;
      if alias == "" {
        alias := in_.definitionKey;
      }
      if !ValidAlias(alias) {
        return Err(InvalidAlias);
      }
      if name == "" {
        name := alias;
      }
      var list := ListFields(db, definition.value);
      ListedFields(db, definition.value);
      var provided: set<nat> := {};
      if in_.source.Some? {
        if !SourceAllowed(db, in_, definition.value) {
          return Err(InvalidSource);
        }
        provided := ProvidedBy(db, in_.source.value);
      }
      var wrong := CheckFieldsInOrder(db.fields, list, in_.values, provided);
      if wrong.Some? {
        return Err(wrong.value);
      }
      if AliasTaken(db, in_.tenant, alias) {
        return Err(AliasExists);
      }
      if in_.tenant !in db.tenants {
        return Err(UnknownTenant);
      }
      var resource := Resource(in_.tenant, definition.value, alias, name, true, in_.source, now, now);
      var stored := StoreFieldsInOrder(cryptor, db.fields, list, id, in_.values, db.values, randoms);
      if stored.Err? {
        return Err(stored.error);
      }
      db := db.(resources := db.resources[id := resource], values := stored.value);
      return Ok(());
    }

    method DuplicateResource(tenant: nat, original: nat, alias: string, id: nat, randoms: seq<Aead.Nonce>,
        now: int) returns (r: Result<(), Error>)
      requires Aead.ValidCryptor(cryptor)
      modifies this
      ensures match Duplicated(cryptor, old(db), tenant, original, alias, id, randoms, now)
        case Ok(after) => r == Ok(()) && db == after
        case Err(e) => r == Err(e) && db == old(db)
    {
      hide Provisioned;
      var header := GetHeader(db, original);
      if header.None? || header.value.resource.tenant != tenant {
        return Err(UnknownResource);
      }
      var built := BuildOne(cryptor, db, header.value);
      if built.Err? {
        return Err(Crypto(built.error));
      }
      var fields := built.value;
      var values: map<string, string> := map[];
      assert fields[..0] == [];
      for i := 0 to |fields|
        invariant values == NonEmpty(fields[..i])
      {
        assert fields[..i + 1][..i] == fields[..i];
        if fields[i].value != "" {
          values := values[fields[i].field.key := fields[i].value];
        }
      }
      assert fields[..|fields|] == fields;
      r := ProvisionResource(Input("", alias, header.value.definitionKey, None, tenant, values), id, randoms, now);
    }
  }

  /** The builder applied to a single header. */
  method BuildOne(c: Cryptor, db: Db, header: Header) returns (r: Result<seq<FieldValue>, Aead.Error>)
    ensures r == Effective(c, db, header, true)
  {
    hide Effective;
    var built := BuildResourceFieldsBatch(c, db, [header], true);
    assert LastOfItsId([header], 0) && [header][0] == header;
    if built.Err? {
      return Err(built.error);
    }
    assert ShowsItsFields(c, db, [header][0], true, LastOfItsId([header], 0), built.value[0]);
    return Ok(built.value[0].fields);
  }

  method CheckFieldsInOrder(fields: map<nat, Field>, list: seq<nat>, values: map<string, string>,
      provided: set<nat>) returns (wrong: Option<Error>)
    requires forall f :: f in list ==> f in fields
    ensures wrong == FieldErrors(fields, list, values, provided)
  {
    assert list[0..] == list;
    for i := 0 to |list|
      invariant FieldErrors(fields, list, values, provided) == FieldErrors(fields, list[i..], values, provided)
    {
      assert list[i] in list && list[i..][1..] == list[i + 1..];
      var f := fields[list[i]];
      if f.key in values && !ValidResourceValue(f.dataType, values[f.key]) {
        return Some(InvalidFieldValue(f.key));
      }
      if f.required {
        if (f.key !in values || values[f.key] == "") && list[i] !in provided {
          return Some(MissingRequired(f.key));
        }
      }
    }
    return None;
  }

  method StoreFieldsInOrder(c: Cryptor, fields: map<nat, Field>, list: seq<nat>, id: nat, values: map<string, string>,
                            table: map<Slot, StoredValue>, randoms: seq<Aead.Nonce>)
      returns (r: Result<map<Slot, StoredValue>, Error>)
    requires Aead.ValidCryptor(c) && forall f :: f in list ==> f in fields
    ensures r == StoreFields(c, fields, list, id, values, table, randoms)
  {
    var work, left := table, randoms;
    assert list[0..] == list;
    for i := 0 to |list|
      invariant StoreFields(c, fields, list, id, values, table, randoms) ==
        StoreFields(c, fields, list[i..], id, values, work, left)
    {
      assert list[i] in list && list[i..][1..] == list[i + 1..];
      var f := fields[list[i]];
      if f.key in values {
        var stored := EncodeValue(c, f.isSecret, values[f.key], Aead.FirstNonce(left));
        if stored.Err? {
          return Err(Crypto(stored.error));
        }
        work, left := work[(id, list[i]) := stored.value], Remaining(f, left);
      }
    }
    return Ok(work);
  }
}
