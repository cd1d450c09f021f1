/** Everything that may happen to tenants, definitions, fields and resources, in any
    order, and what stays true of the stored values throughout. */
module ResourceRuns {
  import opened Wrappers
  import Sql
  import Sorting
  import Text
  import Aead
  import Rewrap
  import opened Values
  import opened Resources
  import opened Provisioning

  /** `written` is the text last written to each slot and not cleared since; `used`
      are the ids ever given out. */
  datatype State = State(db: Db, written: map<Slot, string>, used: set<nat>)

  /** Every writer seals with one of the loaded keys, named by `version`. */
  datatype Step =
    | CreateTenant(id: nat, slug: string, now: int)
    | UpdateTenant(id: nat, slug: string, active: bool, now: int)
    | CreateDefinition(id: nat, key: string, now: int)
    | SetDefinitionActive(id: nat, active: bool, now: int)
    | AddField(id: nat, added: Field, now: int)
    | EditField(definition: nat, field: nat, title: string, required: bool, now: int)
    | RemoveField(definition: nat, field: nat, now: int)
    | Provision(input: Input, id: nat, version: int, randoms: seq<Aead.Nonce>, now: int)
    | Duplicate(tenant: nat, original: nat, alias: string, id: nat, version: int, randoms: seq<Aead.Nonce>, now: int)
    | SetValue(tenant: nat, resource: nat, key: string, value: string, version: int, random: Option<Aead.Nonce>,
      now: int)
    | ClearOverride(tenant: nat, resource: nat, key: string)
    | Identify(tenant: nat, resource: nat, name: string, alias: string, now: int)
    | SetActive(tenant: nat, resource: nat, active: bool, now: int)
    | Delete(tenant: nat, resource: nat)
    | RewrapRow(slot: Slot, stored: StoredValue)

  // ----- Tables -----

  function TouchedDefinition(db: Db, id: nat, now: int): map<nat, Definition> {
    if id in db.definitions then db.definitions[id := db.definitions[id].(updatedAt := now)] else db.definitions
  }

  predicate KeyTaken(db: Db, definition: nat, key: string) {
    exists f :: f in db.fields && db.fields[f].definition == definition && db.fields[f].key == key
  }

  predicate InUse(db: Db, field: nat) {
    exists slot :: slot in db.values && slot.1 == field
  }

  predicate HasDependents(db: Db, resource: nat) {
    exists r :: r in db.resources && db.resources[r].source == Some(resource)
  }

  function SlotsOf<T>(table: map<Slot, T>, resource: nat): set<Slot> {
    set slot | slot in table && slot.0 == resource
  }

  // ----- Ghost bookkeeping of the texts -----

  function TextsGiven(fields: map<nat, Field>, definition: nat, id: nat, values: map<string, string>): map<Slot,
      string> {
    map f | f in fields && fields[f].definition == definition && fields[f].key in values ::
      (id, f) := values[fields[f].key]
  }

  function EffectiveText(s: State, resource: nat, field: nat): string {
    if (resource, field) in s.written then s.written[(resource, field)]
    else if resource in s.db.resources && s.db.resources[resource].source.Some?
         && (s.db.resources[resource].source.value, field) in s.written
      then s.written[(s.db.resources[resource].source.value, field)]
    else ""
  }

  // ----- Steps -----

  function At(c: Cryptor, version: int): Cryptor { c.(current := version) }

  predicate FreshId(s: State, id: nat) { id !in s.used && Text.IsUuid(id) }

  /** Ids are fresh; key and alias formats are those the handlers enforce; a rewrapped
      row is one that the campaign may have produced. */
  predicate Enabled(c: Cryptor, s: State, step: Step)
    requires Aead.ValidCryptor(c)
  {
    match step
    case CreateTenant(id, slug, _) => FreshId(s, id) && ValidSlug(slug)
    case UpdateTenant(_, slug, _, _) => ValidSlug(slug)
    case CreateDefinition(id, key, _) => FreshId(s, id) && ValidKey(key)
    case AddField(id, added, _) => FreshId(s, id) && ValidKey(added.key)
    case Provision(_, id, version, _, _) => FreshId(s, id) && version in c.keys
    case Duplicate(_, _, _, id, version, _, _) => FreshId(s, id) && version in c.keys
    case SetValue(_, _, _, _, version, _, _) => version in c.keys
    case RewrapRow(slot, value) => slot in s.db.values && Rewrap.Refreshed(c, s.db.values[slot], value)
    case _ => true
  }

  /** A failed operation changes nothing. */
  function Next(c: Cryptor, s: State, step: Step): State
    requires Aead.ValidCryptor(c) && Enabled(c, s, step)
  {
    var db := s.db;
    match step
    case CreateTenant(id, slug, now) =>
      s.(db := db.(tenants := db.tenants[id := Tenant(slug, true, now)]), used := s.used + {id})
    case UpdateTenant(id, slug, active, now) =>
      if id !in db.tenants then s else s.(db := db.(tenants := db.tenants[id := Tenant(slug, active, now)]))
    case CreateDefinition(id, key, now) =>
      if DefinitionByKey(db, key).Some? then s
      else s.(db := db.(definitions := db.definitions[id := Definition(key, true, now)]), used := s.used + {id})
    case SetDefinitionActive(id, active, now) =>
      if id !in db.definitions then s
      else s.(db := db.(definitions := db.definitions[id := db.definitions[id].(active := active, updatedAt := now)]))
    case AddField(id, field, now) =>
      if field.definition !in db.definitions || KeyTaken(db, field.definition, field.key) then s
      else s.(db := db.(fields := db.fields[id := field], definitions := TouchedDefinition(db, field.definition, now)),
        used := s.used + {id})
    case EditField(definition, field, title, required, now) =>
      if field !in db.fields || db.fields[field].definition != definition then s
      else s.(db := db.(fields := db.fields[field := db.fields[field].(title := title, required := required)],
                        definitions := TouchedDefinition(db, definition, now)))
    case RemoveField(definition, field, now) =>
      if field !in db.fields || db.fields[field].definition != definition || InUse(db, field) then s
      else s.(db := db.(fields := db.fields - {field}, definitions := TouchedDefinition(db, definition, now)))
    case Provision(input, id, version, randoms, now) =>
      AfterProvision(s, input, id, now, Provisioned(At(c, version), db, input, id, randoms, now))
    case Duplicate(tenant, original, alias, id, version, randoms, now) =>
      var input := DuplicateInput(c, db, tenant, original, alias);
      if input.None? then s
      else AfterProvision(s, input.value, id, now, Provisioned(At(c, version), db, input.value, id, randoms, now))
    case SetValue(tenant, resource, key, value, version, random, now) =>
      (match FieldUpdated(At(c, version), db, tenant, resource, key, value, random, now)
       case Err(_) => s
       case Ok(after) => s.(db := after, written := s.written[(resource, SlotField(db, resource, key)) := value]))
    case ClearOverride(tenant, resource, key) =>
      (match OverrideCleared(db, tenant, resource, key)
       case Err(_) => s
       case Ok(after) => s.(db := after, written := s.written - {(resource, SlotField(db, resource, key))}))
    case Identify(tenant, resource, name, alias, now) =>
      if OwnResource(db, tenant, resource).None? || !ValidAlias(alias)
         || AliasTakenByOther(db, tenant, alias, resource)
      then s
      else
        s.(db := db.(resources := db.resources[resource := db.resources[resource].(
                       name := name, alias := alias, updatedAt := now)]))
    case SetActive(tenant, resource, active, now) =>
      if OwnResource(db, tenant, resource).None? then s
      else
        s.(db := db.(resources := db.resources[resource := db.resources[resource].(
                       active := active, updatedAt := now)]))
    case Delete(tenant, resource) =>
      if OwnResource(db, tenant, resource).None? || HasDependents(db, resource) then s
      else s.(db := db.(resources := db.resources - {resource}, values := db.values - SlotsOf(db.values, resource)),
              written := s.written - SlotsOf(s.written, resource))
    case RewrapRow(slot, value) => s.(db := db.(values := db.values[slot := value]))
  }

  predicate AliasTakenByOther(db: Db, tenant: nat, alias: string, id: nat) {
    exists r :: r in db.resources && r != id && db.resources[r].tenant == tenant && db.resources[r].alias == alias
  }

  function SlotField(db: Db, resource: nat, key: string): nat {
    if resource !in db.resources then 0
    else
      var f := FieldByKey(db.fields, ListFields(db, db.resources[resource].definition), key);
      if f.Some? then f.value else 0
  }

  function AfterProvision(s: State, input: Input, id: nat, now: int, r: Result<Db, Error>): State {
    if r.Err? || id !in r.value.resources then s
    else State(r.value, s.written + TextsGiven(s.db.fields, r.value.resources[id].definition, id, input.values),
      s.used + {id})
  }

  /** What a duplicate provisions, unless the original is unknown or cannot be read. */
  function DuplicateInput(c: Cryptor, db: Db, tenant: nat, original: nat, alias: string): Option<Input> {
    var header := GetHeader(db, original);
    if header.None? || header.value.resource.tenant != tenant || Effective(c, db, header.value, true).Err? then None
    else Some(Input("", alias, header.value.definitionKey, None, tenant,
      NonEmpty(Effective(c, db, header.value, true).value)))
  }

  /** Reading needs the loaded keys only, not the one that seals new values. */
  lemma {:induction false} ShownIgnoresCurrent(c: Cryptor, version: int, fields: map<nat, Field>, header: Header,
    rows: seq<JoinRow>)
    requires KnownFields(fields, rows)
    ensures Shown(At(c, version), fields, header, rows, true) == Shown(c, fields, header, rows, true)
    decreases |rows|
  {
    if rows != [] {
      ShownIgnoresCurrent(c, version, fields, header, rows[..|rows| - 1]);
    }
  }

  /** What the step does is what `Provisioning.Service.DuplicateResource` does. */
  lemma DuplicateProvisions(c: Cryptor, version: int, db: Db, tenant: nat, original: nat, alias: string, id: nat,
      randoms: seq<Aead.Nonce>, now: int)
    requires version in c.keys
    ensures
      var input, r := DuplicateInput(c, db, tenant, original, alias),
        Duplicated(At(c, version), db, tenant, original, alias, id, randoms, now);
      if input.None? then r.Err? else r == Provisioned(At(c, version), db, input.value, id, randoms, now)
  {
    if original in db.resources {
      ResourceRowsHaveFields(db, original);
      var header := GetHeader(db, original);
      if header.Some? {
        ShownIgnoresCurrent(c, version, db.fields, header.value, ResourceRows(db, original));
      }
    }
    hide Provisioned;
    hide Shown;
    hide ResourceRows;
  }

  // ----- Invariants -----

  /** Linked resources point to unlinked ones of the same tenant and definition. */
  predicate Linked(db: Db, id: nat)
    requires id in db.resources
  {
    var r := db.resources[id];
    && r.definition in db.definitions && r.tenant in db.tenants
    && (r.source.Some? ==>
          && r.source.value in db.resources
          && db.resources[r.source.value].source.None?
          && db.resources[r.source.value].tenant == r.tenant
          && db.resources[r.source.value].definition == r.definition)
  }

  ghost predicate Links(db: Db) {
    forall id :: id in db.resources ==> Linked(db, id)
  }

  predicate Placed(db: Db, slot: Slot) {
    slot.0 in db.resources && slot.1 in db.fields && db.fields[slot.1].definition == db.resources[slot.0].definition
  }

  /** Value rows belong to a resource and to a field of its definition. */
  ghost predicate Slots(db: Db) {
    forall slot :: slot in db.values ==> Placed(db, slot)
  }

  predicate SameKey(f: Field, g: Field) { f.definition == g.definition && f.key == g.key }

  ghost predicate UniqueKeys(db: Db) {
    && (forall f, g :: f in db.fields && g in db.fields && SameKey(db.fields[f], db.fields[g]) ==> f == g)
    && (forall d, e ::
          d in db.definitions && e in db.definitions && db.definitions[d].key == db.definitions[e].key ==> d == e)
  }

  /** A stored row has the shape its field's secrecy demands, and reads as the last
      text written, which was valid for the field. */
  predicate Faithful(c: Cryptor, fields: map<nat, Field>, slot: Slot, value: StoredValue, text: string) {
    slot.1 in fields && Shaped(value, fields[slot.1].isSecret) && DecodeValue(c, value) == Ok(text)
    && ValidResourceValue(fields[slot.1].dataType, text)
  }

  ghost predicate Texts(c: Cryptor, s: State) {
    && s.written.Keys == s.db.values.Keys
    && forall slot :: slot in s.db.values ==> Faithful(c, s.db.fields, slot, s.db.values[slot], s.written[slot])
  }

  ghost predicate IdsUsed(s: State) {
    && (forall r :: r in s.db.resources ==> r in s.used)
    && (forall f :: f in s.db.fields ==> f in s.used)
    && (forall d :: d in s.db.definitions ==> d in s.used)
    && (forall t :: t in s.db.tenants ==> t in s.used)
  }

  ghost predicate Inv(c: Cryptor, s: State) {
    Links(s.db) && Slots(s.db) && UniqueKeys(s.db) && Texts(c, s) && IdsUsed(s)
  }

  // ----- What provisioning stores -----

  /** The slots of `id` in `after` are those of the given values, and decode to them. */
  ghost predicate StoredExactly(c: Cryptor, fields: map<nat, Field>, list: seq<nat>, id: nat,
      values: map<string, string>, table: map<Slot, StoredValue>, after: map<Slot, StoredValue>) {
    && (forall slot :: slot in table ==> slot in after && (slot.0 != id ==> after[slot] == table[slot]))
    && (forall slot :: slot in after && slot !in table ==>
         slot.0 == id && slot.1 in list && slot.1 in fields && fields[slot.1].key in values)
    && (forall f :: f in list && f in fields && fields[f].key in values ==>
          (id, f) in after && DecodeValue(c, after[(id, f)]) == Ok(values[fields[f].key])
            && Shaped(after[(id, f)], fields[f].isSecret))
  }

  lemma {:induction false} StoreFieldsExact(c: Cryptor, version: int, fields: map<nat, Field>, list: seq<nat>,
      id: nat, values: map<string, string>,
                                            table: map<Slot, StoredValue>, randoms: seq<Aead.Nonce>)
    requires version in c.keys && (forall f :: f in list ==> f in fields) && Sorting.Distinct(list)
    requires StoreFields(At(c, version), fields, list, id, values, table, randoms).Ok?
    ensures StoredExactly(c, fields, list, id, values, table,
      StoreFields(At(c, version), fields, list, id, values, table, randoms).value)
    ensures var after := StoreFields(At(c, version), fields, list, id, values, table, randoms).value;
      forall slot :: slot in table && slot.1 !in list ==> after[slot] == table[slot]
    decreases |list|
  {
    if list != [] {
      var first, rest := list[0], list[1..];
      assert first in list && first !in rest && forall f :: f in list <==> f == first || f in rest;
      var f := fields[first];
      if f.key in values {
        DecodeInvertsEncode(At(c, version), c, f.isSecret, values[f.key], Aead.FirstNonce(randoms));
        var v := EncodeValue(At(c, version), f.isSecret, values[f.key], Aead.FirstNonce(randoms)).value;
        StoreFieldsExact(c, version, fields, rest, id, values, table[(id, first) := v], Remaining(f, randoms));
      } else {
        StoreFieldsExact(c, version, fields, rest, id, values, table, randoms);
      }
    }
  }

  lemma {:induction false} NoErrorMeansValid(fields: map<nat, Field>, list: seq<nat>, values: map<string, string>,
      provided: set<nat>, f: nat)
    requires (forall g :: g in list ==> g in fields) && FieldErrors(fields, list, values, provided).None? && f in list
    ensures FieldError(fields[f], f, values, provided).None?
    decreases |list|
  {
    if f != list[0] {
      NoErrorMeansValid(fields, list[1..], values, provided, f);
    }
  }

  /** What a successful provisioning did, field by field. */
  ghost predicate ProvisionedTo(c: Cryptor, db: Db, input: Input, id: nat, after: Db) {
    && id in after.resources
    && after == db.(resources := db.resources[id := after.resources[id]], values := after.values)
    && var r := after.resources[id];
       && r.tenant == input.tenant && r.tenant in db.tenants && r.definition in db.definitions
       && r.source == input.source && SourceAllowed(db, input, r.definition)
       && (forall slot :: slot in db.values ==>
            slot in after.values && (slot.0 != id ==> after.values[slot] == db.values[slot]))
       && (forall slot :: slot in after.values && slot !in db.values ==> NewSlot(db, input, id, r.definition, slot))
       && (forall f :: f in FieldIds(db, r.definition) ==> FieldStored(c, db, input, id, f, after.values))
  }

  predicate NewSlot(db: Db, input: Input, id: nat, definition: nat, slot: Slot) {
    slot.0 == id && slot.1 in FieldIds(db, definition) && db.fields[slot.1].key in input.values
  }

  predicate FieldStored(c: Cryptor, db: Db, input: Input, id: nat, f: nat, values: map<Slot, StoredValue>) {
    && f in db.fields && FieldError(db.fields[f], f, input.values, ProvidedTo(db, input)).None?
    && (db.fields[f].key in input.values ==>
          (id, f) in values && DecodeValue(c, values[(id, f)]) == Ok(input.values[db.fields[f].key])
            && Shaped(values[(id, f)], db.fields[f].isSecret))
  }

  lemma CheckedRow(db: Db, input: Input, now: int)
    requires CheckInput(db, input, now).Ok?
    ensures var r := CheckInput(db, input, now).value;
      && r.tenant == input.tenant && r.tenant in db.tenants && r.definition in db.definitions
      && r.source == input.source && SourceAllowed(db, input, r.definition)
      && DefinitionByKey(db, input.definitionKey) == Some(r.definition)
      && (forall f :: f in ListFields(db, r.definition) ==> f in db.fields)
      && FieldErrors(db.fields, ListFields(db, r.definition), input.values, ProvidedTo(db, input)).None?
  {
    var d := DefinitionByKey(db, input.definitionKey);
    if d.Some? {
      ListedFields(db, d.value);
      KeyIsOfDefinition(db, input.definitionKey);
    }
    hide ListFields;
    hide FieldErrors;
    hide ProvidedTo;
    hide DefinitionByKey;
    hide SourceAllowed;
    hide NormalizeResourceIdentity;
    hide ValidAlias;
    hide AliasTaken;
  }

  lemma KeyIsOfDefinition(db: Db, key: string)
    ensures DefinitionByKey(db, key).Some? ==> DefinitionByKey(db, key).value in db.definitions
  {
    var ids := Sql.Ascending(DefinitionsWithKey(db, key));
    assert ids != [] ==> ids[0] in ids;
  }

  lemma CheckedInput(db: Db, input: Input, now: int)
    requires CheckInput(db, input, now).Ok?
    ensures var r := CheckInput(db, input, now).value;
      && r.tenant == input.tenant && r.tenant in db.tenants && r.definition in db.definitions
      && r.source == input.source && SourceAllowed(db, input, r.definition)
      && DefinitionByKey(db, input.definitionKey) == Some(r.definition)
      && (forall f :: f in FieldIds(db, r.definition) ==>
           FieldError(db.fields[f], f, input.values, ProvidedTo(db, input)).None?)
  {
    var r := CheckInput(db, input, now).value;
    CheckedRow(db, input, now);
    ListedFields(db, r.definition);
    hide CheckInput;
    hide ListFields;
    hide FieldError;
    hide FieldErrors;
    hide ProvidedTo;
    hide DefinitionByKey;
    hide SourceAllowed;
    forall f | f in FieldIds(db, r.definition)
      ensures FieldError(db.fields[f], f, input.values, ProvidedTo(db, input)).None?
    {
      NoErrorMeansValid(db.fields, ListFields(db, r.definition), input.values, ProvidedTo(db, input), f);
    }
  }

  lemma ProvisionedParts(c: Cryptor, db: Db, input: Input, id: nat, randoms: seq<Aead.Nonce>, now: int)
    requires Aead.ValidCryptor(c) && Provisioned(c, db, input, id, randoms, now).Ok?
    ensures CheckInput(db, input, now).Ok?
    ensures var r := CheckInput(db, input, now).value;
      var list := ListFields(db, r.definition);
      && (forall f :: f in list <==> f in FieldIds(db, r.definition)) && Sorting.Distinct(list)
      && StoreFields(c, db.fields, list, id, input.values, db.values, randoms).Ok?
      && Provisioned(c, db, input, id, randoms, now).value ==
           db.(resources := db.resources[id := r],
             values := StoreFields(c, db.fields, list, id, input.values, db.values, randoms).value)
  {
    hide CheckInput;
    hide StoreFields;
    ListedFields(db, CheckInput(db, input, now).value.definition);
  }

  lemma PartsMakeProvision(c: Cryptor, db: Db, input: Input, id: nat, r: Resource, list: seq<nat>,
      values: map<Slot, StoredValue>)
    requires r.tenant == input.tenant && r.tenant in db.tenants && r.definition in db.definitions
    requires r.source == input.source && SourceAllowed(db, input, r.definition)
    requires forall f :: f in FieldIds(db, r.definition) ==>
      FieldError(db.fields[f], f, input.values, ProvidedTo(db, input)).None?
    requires forall f :: f in list <==> f in FieldIds(db, r.definition)
    requires StoredExactly(c, db.fields, list, id, input.values, db.values, values)
    ensures ProvisionedTo(c, db, input, id, db.(resources := db.resources[id := r], values := values))
  {
    hide FieldError;
    hide ProvidedTo;
    hide SourceAllowed;
    hide DecodeValue;
    hide Shaped;
  }

  lemma ProvisionStores(c: Cryptor, version: int, db: Db, input: Input, id: nat, randoms: seq<Aead.Nonce>, now: int)
    requires version in c.keys && Provisioned(At(c, version), db, input, id, randoms, now).Ok?
    ensures ProvisionedTo(c, db, input, id, Provisioned(At(c, version), db, input, id, randoms, now).value)
  {
    assert Aead.ValidCryptor(At(c, version));
    hide *;
    ProvisionedParts(At(c, version), db, input, id, randoms, now);
    CheckedInput(db, input, now);
    var r := CheckInput(db, input, now).value;
    var list := ListFields(db, r.definition);
    FieldsAreKnown(db, r.definition, list);
    StoreFieldsExact(c, version, db.fields, list, id, input.values, db.values, randoms);
    PartsMakeProvision(c, db, input, id, r, list,
      StoreFields(At(c, version), db.fields, list, id, input.values, db.values, randoms).value);
  }

  lemma FieldsAreKnown(db: Db, definition: nat, list: seq<nat>)
    requires forall f :: f in list <==> f in FieldIds(db, definition)
    ensures forall f :: f in list ==> f in db.fields
  {
  }

  // ----- Each step keeps each invariant -----

  lemma ProvisionKeeps(c: Cryptor, s: State, input: Input, id: nat, now: int, r: Result<Db, Error>)
    requires Inv(c, s) && id !in s.used && (r.Ok? ==> ProvisionedTo(c, s.db, input, id, r.value))
    ensures Inv(c, AfterProvision(s, input, id, now, r))
  {
    if r.Ok? {
      assert id in r.value.resources;
      hide Links;
      hide Slots;
      hide UniqueKeys;
      hide Texts;
      hide ProvisionedTo;
      hide IdsUsed;
      hide TextsGiven;
      ProvisionKeepsTables(c, s, input, id, r.value);
      ProvisionKeepsTexts(c, s, input, id, r.value);
    }
  }

  lemma ProvisionKeepsTables(c: Cryptor, s: State, input: Input, id: nat, after: Db)
    requires Links(s.db) && Slots(s.db) && UniqueKeys(s.db) && IdsUsed(s) && id !in s.used
    requires ProvisionedTo(c, s.db, input, id, after)
    ensures Links(after) && Slots(after) && UniqueKeys(after)
    ensures forall written :: IdsUsed(State(after, written, s.used + {id}))
  {
    hide FieldStored;
    forall r | r in after.resources ensures Linked(after, r) {
      assert r != id ==> Linked(s.db, r);
    }
    forall slot | slot in after.values ensures Placed(after, slot) {
      if slot in s.db.values {
        assert Placed(s.db, slot);
      } else {
        assert NewSlot(s.db, input, id, after.resources[id].definition, slot);
      }
    }
  }

  lemma ProvisionKeepsTexts(c: Cryptor, s: State, input: Input, id: nat, after: Db)
    requires Slots(s.db) && Texts(c, s) && IdsUsed(s) && id !in s.used && ProvisionedTo(c, s.db, input, id, after)
    ensures Texts(c, State(after, s.written + TextsGiven(s.db.fields, after.resources[id].definition, id, input.values),
                           s.used + {id}))
  {
    var definition := after.resources[id].definition;
    var given := TextsGiven(s.db.fields, definition, id, input.values);
    var written := s.written + given;
    forall slot | slot in s.db.values ensures slot.0 != id && slot !in given {
      assert Placed(s.db, slot);
    }
    forall slot ensures slot in written <==> slot in after.values {
      if slot in given {
        assert FieldStored(c, s.db, input, id, slot.1, after.values);
      }
      if slot in after.values && slot !in s.db.values {
        assert NewSlot(s.db, input, id, definition, slot);
      }
    }
    forall slot | slot in after.values ensures Faithful(c, after.fields, slot, after.values[slot], written[slot]) {
      if slot in s.db.values {
        assert Faithful(c, s.db.fields, slot, s.db.values[slot], s.written[slot]);
      } else {
        assert NewSlot(s.db, input, id, definition, slot);
        assert FieldStored(c, s.db, input, id, slot.1, after.values);
      }
    }
  }

  lemma {:induction false} FieldByKeyFinds(fields: map<nat, Field>, list: seq<nat>, key: string)
    ensures FieldByKey(fields, list, key).Some? ==>
      var f := FieldByKey(fields, list, key).value;
      f in list && f in fields && fields[f].key == key
    ensures FieldByKey(fields, list, key).None? ==> forall f :: f in list && f in fields ==> fields[f].key != key
    decreases |list|
  {
    if list != [] {
      FieldByKeyFinds(fields, list[1..], key);
      assert forall f :: f in list <==> f == list[0] || f in list[1..];
    }
  }

  /** The field an edit selects: the one of the definition with that key. */
  lemma SelectedField(db: Db, definition: nat, key: string)
    ensures var f := FieldByKey(db.fields, ListFields(db, definition), key);
      if f.Some? then f.value in FieldIds(db, definition) && db.fields[f.value].key == key
      else forall g :: g in FieldIds(db, definition) ==> db.fields[g].key != key
  {
    ListedFields(db, definition);
    FieldByKeyFinds(db.fields, ListFields(db, definition), key);
  }

  lemma SlotWriteKeepsTables(db: Db, slot: Slot, v: StoredValue, now: int)
    requires Links(db) && Slots(db) && Placed(db, slot)
    ensures var after := db.(values := db.values[slot := v], resources := Touched(db, slot.0, now));
      Links(after) && Slots(after)
  {
    var after := db.(values := db.values[slot := v], resources := Touched(db, slot.0, now));
    forall r | r in after.resources ensures Linked(after, r) {
      assert Linked(db, r);
    }
    forall other | other in after.values ensures Placed(after, other) {
      assert other in db.values ==> Placed(db, other);
    }
  }

  /** One slot written with what its field demands, and any stamp touched. */
  lemma SlotWriteKeeps(c: Cryptor, s: State, slot: Slot, v: StoredValue, text: string, now: int)
    requires Inv(c, s) && Placed(s.db, slot) && Faithful(c, s.db.fields, slot, v, text)
    ensures Inv(c, s.(db := s.db.(values := s.db.values[slot := v], resources := Touched(s.db, slot.0, now)),
                      written := s.written[slot := text]))
  {
    hide Faithful;
    hide Links;
    hide Slots;
    SlotWriteKeepsTables(s.db, slot, v, now);
  }

  lemma SetValueEffect(c: Cryptor, s: State, step: Step)
    requires Aead.ValidCryptor(c) && step.SetValue? && Enabled(c, s, step) && Next(c, s, step) != s
    ensures step.resource in s.db.resources && s.db.resources[step.resource].tenant == step.tenant
    ensures var slot := (step.resource, SlotField(s.db, step.resource, step.key));
      && Placed(s.db, slot) && s.db.fields[slot.1].key == step.key
      && ValidResourceValue(s.db.fields[slot.1].dataType, step.value)
      && (s.db.fields[slot.1].required ==> step.value != "")
      && var v := EncodeValue(At(c, step.version), s.db.fields[slot.1].isSecret, step.value, step.random);
         && v.Ok?
         && Next(c, s, step) ==
              s.(db := s.db.(values := s.db.values[slot := v.value], resources := Touched(s.db, slot.0, step.now)),
                                   written := s.written[slot := step.value])
  {
    var own := OwnResource(s.db, step.tenant, step.resource);
    if own.Some? {
      SelectedField(s.db, own.value.definition, step.key);
    }
    hide ListFields;
    hide FieldByKey;
    hide ValidResourceValue;
    hide EncodeValue;
    hide Touched;
  }

  lemma SetValueKeeps(c: Cryptor, s: State, step: Step)
    requires Aead.ValidCryptor(c) && Inv(c, s) && step.SetValue? && Enabled(c, s, step)
    ensures Inv(c, Next(c, s, step))
  {
    hide Next;
    hide Inv;
    hide EncodeValue;
    hide SlotField;
    hide Touched;
    if Next(c, s, step) != s {
      SetValueEffect(c, s, step);
      var slot := (step.resource, SlotField(s.db, step.resource, step.key));
      var secret := s.db.fields[slot.1].isSecret;
      var v := EncodeValue(At(c, step.version), secret, step.value, step.random).value;
      DecodeInvertsEncode(At(c, step.version), c, secret, step.value, step.random);
      SlotWriteKeeps(c, s, slot, v, step.value, step.now);
    }
  }

  lemma ClearEffect(c: Cryptor, s: State, step: Step)
    requires Aead.ValidCryptor(c) && step.ClearOverride? && Next(c, s, step) != s
    ensures step.resource in s.db.resources && s.db.resources[step.resource].source.Some?
    ensures var slot := (step.resource, SlotField(s.db, step.resource, step.key));
      && Placed(s.db, slot) && s.db.fields[slot.1].key == step.key
      && (s.db.fields[slot.1].required ==> (s.db.resources[step.resource].source.value, slot.1) in s.db.values)
      && Next(c, s, step) == s.(db := s.db.(values := s.db.values - {slot}), written := s.written - {slot})
  {
    var own := OwnResource(s.db, step.tenant, step.resource);
    if own.Some? {
      SelectedField(s.db, own.value.definition, step.key);
    }
    hide ListFields;
    hide FieldByKey;
  }

  lemma ClearKeeps(c: Cryptor, s: State, step: Step)
    requires Aead.ValidCryptor(c) && Inv(c, s) && step.ClearOverride?
    ensures Inv(c, Next(c, s, step))
  {
    hide ListFields;
    hide FieldByKey;
    hide Faithful;
    var r := OverrideCleared(s.db, step.tenant, step.resource, step.key);
    if r.Ok? {
      var slot := (step.resource, SlotField(s.db, step.resource, step.key));
      assert r.value.values == s.db.values - {slot};
      forall id | id in r.value.resources ensures Linked(r.value, id) {
        assert Linked(s.db, id);
      }
      forall other | other in r.value.values ensures Placed(r.value, other) {
        assert Placed(s.db, other);
      }
    }
  }

  lemma DeleteKeeps(c: Cryptor, s: State, step: Step)
    requires Aead.ValidCryptor(c) && Inv(c, s) && step.Delete?
    ensures Inv(c, Next(c, s, step))
  {
    hide Faithful;
    var n := Next(c, s, step);
    forall id | id in n.db.resources ensures Linked(n.db, id) {
      assert Linked(s.db, id);
    }
    forall slot | slot in n.db.values ensures Placed(n.db, slot) {
      assert Placed(s.db, slot);
    }
  }

  lemma RewrapKeeps(c: Cryptor, s: State, step: Step)
    requires Aead.ValidCryptor(c) && Inv(c, s) && step.RewrapRow? && Enabled(c, s, step)
    ensures Inv(c, Next(c, s, step))
  {
    var n := Next(c, s, step);
    assert n.db.values.Keys == s.db.values.Keys;
    forall id | id in n.db.resources ensures Linked(n.db, id) {
      assert Linked(s.db, id);
    }
    forall slot | slot in n.db.values
      ensures Placed(n.db, slot) && Faithful(c, n.db.fields, slot, n.db.values[slot], n.written[slot])
    {
      assert Placed(s.db, slot) && Faithful(c, s.db.fields, slot, s.db.values[slot], s.written[slot]);
    }
  }

  lemma ResourceEditKeepsTables(db: Db, id: nat, r: Resource)
    requires Links(db) && Slots(db) && id in db.resources
    requires r.tenant == db.resources[id].tenant && r.definition == db.resources[id].definition
    requires r.source == db.resources[id].source
    ensures Links(db.(resources := db.resources[id := r])) && Slots(db.(resources := db.resources[id := r]))
  {
    var after := db.(resources := db.resources[id := r]);
    forall other | other in after.resources ensures Linked(after, other) {
      assert Linked(db, other);
    }
    forall slot | slot in after.values ensures Placed(after, slot) {
      assert Placed(db, slot);
    }
  }

  /** Only the identity, status or stamp of one resource changes. */
  lemma ResourceEditKeeps(c: Cryptor, s: State, id: nat, r: Resource)
    requires Inv(c, s) && id in s.db.resources
    requires r.tenant == s.db.resources[id].tenant && r.definition == s.db.resources[id].definition
    requires r.source == s.db.resources[id].source
    ensures Inv(c, s.(db := s.db.(resources := s.db.resources[id := r])))
  {
    hide Faithful;
    hide Links;
    hide Slots;
    ResourceEditKeepsTables(s.db, id, r);
  }

  /** Tenants and definitions are added or edited; definition keys stay apart. */
  lemma CatalogEditKeeps(c: Cryptor, s: State, tenants: map<nat, Tenant>, definitions: map<nat, Definition>,
      used: set<nat>)
    requires Inv(c, s) && s.db.tenants.Keys <= tenants.Keys && s.db.definitions.Keys <= definitions.Keys
    requires s.used <= used && tenants.Keys <= used && definitions.Keys <= used
    requires UniqueKeys(s.db.(definitions := definitions))
    ensures Inv(c, s.(db := s.db.(tenants := tenants, definitions := definitions), used := used))
  {
    hide Faithful;
    var db := s.db.(tenants := tenants, definitions := definitions);
    forall id | id in db.resources ensures Linked(db, id) {
      assert Linked(s.db, id);
    }
    forall slot | slot in db.values ensures Placed(db, slot) {
      assert Placed(s.db, slot);
    }
  }

  /** A field is added, relabelled or, when no value refers to it, removed. */
  lemma FieldEditKeeps(c: Cryptor, s: State, fields: map<nat, Field>, used: set<nat>)
    requires Inv(c, s) && s.used <= used && fields.Keys <= used && UniqueKeys(s.db.(fields := fields))
    requires forall slot :: slot in s.db.values && slot.1 in s.db.fields ==>
      slot.1 in fields && SameStorage(s.db.fields[slot.1], fields[slot.1])
    ensures Inv(c, s.(db := s.db.(fields := fields), used := used))
  {
    hide DecodeValue;
    hide ValidResourceValue;
    var db := s.db.(fields := fields);
    forall id | id in db.resources ensures Linked(db, id) {
      assert Linked(s.db, id);
    }
    forall slot | slot in db.values
      ensures Placed(db, slot) && Faithful(c, fields, slot, db.values[slot], s.written[slot])
    {
      assert Placed(s.db, slot) && Faithful(c, s.db.fields, slot, s.db.values[slot], s.written[slot]);
    }
  }

  /** Key, type and secrecy of a field never change. */
  predicate SameStorage(f: Field, g: Field) {
    g.definition == f.definition && g.key == f.key && g.dataType == f.dataType && g.isSecret == f.isSecret
  }

  lemma KeyIsFree(db: Db, key: string)
    requires DefinitionByKey(db, key).None?
    ensures forall d :: d in db.definitions ==> db.definitions[d].key != key
  {
    var ids := DefinitionsWithKey(db, key);
    assert |ids| == 0;
    assert ids == {};
    forall d | d in db.definitions ensures db.definitions[d].key != key {
      assert d !in ids;
    }
  }

  lemma CatalogStepShape(c: Cryptor, s: State, step: Step)
    requires Aead.ValidCryptor(c) && UniqueKeys(s.db) && IdsUsed(s) && Enabled(c, s, step)
    requires step.CreateTenant? || step.UpdateTenant? || step.CreateDefinition? || step.SetDefinitionActive?
    ensures var n := Next(c, s, step);
      && n == s.(db := s.db.(tenants := n.db.tenants, definitions := n.db.definitions), used := n.used)
      && s.db.tenants.Keys <= n.db.tenants.Keys <= n.used && s.db.definitions.Keys <= n.db.definitions.Keys <= n.used
      && s.used <= n.used && UniqueKeys(s.db.(definitions := n.db.definitions))
  {
    if step.CreateDefinition? && DefinitionByKey(s.db, step.key).None? {
      KeyIsFree(s.db, step.key);
    }
    hide DefinitionByKey;
  }

  lemma CatalogStepKeeps(c: Cryptor, s: State, step: Step)
    requires Aead.ValidCryptor(c) && Inv(c, s) && Enabled(c, s, step)
    requires step.CreateTenant? || step.UpdateTenant? || step.CreateDefinition? || step.SetDefinitionActive?
    ensures Inv(c, Next(c, s, step))
  {
    CatalogStepShape(c, s, step);
    hide Next;
    hide Inv;
    var n := Next(c, s, step);
    CatalogEditKeeps(c, s, n.db.tenants, n.db.definitions, n.used);
  }

  lemma FieldStepKeepsKeys(c: Cryptor, s: State, step: Step)
    requires Aead.ValidCryptor(c) && UniqueKeys(s.db) && IdsUsed(s) && Enabled(c, s, step)
    requires step.AddField? || step.EditField? || step.RemoveField?
    ensures UniqueKeys(Next(c, s, step).db) && IdsUsed(Next(c, s, step))
  {
    hide InUse;
    hide ValidKey;
  }

  lemma FieldStepKeepsStorage(c: Cryptor, s: State, step: Step)
    requires Aead.ValidCryptor(c) && IdsUsed(s) && Enabled(c, s, step)
    requires step.AddField? || step.EditField? || step.RemoveField?
    ensures forall slot :: slot in s.db.values && slot.1 in s.db.fields ==>
      slot.1 in Next(c, s, step).db.fields && SameStorage(s.db.fields[slot.1], Next(c, s, step).db.fields[slot.1])
  {
    hide KeyTaken;
    hide ValidKey;
  }

  lemma FieldStepShape(c: Cryptor, s: State, step: Step)
    requires Aead.ValidCryptor(c) && Enabled(c, s, step)
    requires step.AddField? || step.EditField? || step.RemoveField?
    ensures var n := Next(c, s, step);
      && n == State(s.db.(fields := n.db.fields, definitions := n.db.definitions), s.written, n.used)
      && s.used <= n.used && n.db.definitions.Keys == s.db.definitions.Keys
      && forall d :: d in s.db.definitions ==> n.db.definitions[d].key == s.db.definitions[d].key
  {
  }

  lemma FieldStepKeeps(c: Cryptor, s: State, step: Step)
    requires Aead.ValidCryptor(c) && Inv(c, s) && Enabled(c, s, step)
    requires step.AddField? || step.EditField? || step.RemoveField?
    ensures Inv(c, Next(c, s, step))
  {
    hide Links;
    hide Slots;
    hide Texts;
    hide Next;
    hide SameStorage;
    FieldStepShape(c, s, step);
    FieldStepKeepsKeys(c, s, step);
    FieldStepKeepsStorage(c, s, step);
    var n := Next(c, s, step);
    var stamped := s.(db := s.db.(definitions := n.db.definitions));
    CatalogEditKeeps(c, s, s.db.tenants, n.db.definitions, s.used);
    assert stamped.db == s.db.(tenants := s.db.tenants, definitions := n.db.definitions);
    FieldEditKeeps(c, stamped, n.db.fields, n.used);
    assert n == stamped.(db := stamped.db.(fields := n.db.fields), used := n.used);
  }

  lemma ResourceStepKeeps(c: Cryptor, s: State, step: Step)
    requires Aead.ValidCryptor(c) && Inv(c, s) && Enabled(c, s, step) && (step.Identify? || step.SetActive?)
    ensures Inv(c, Next(c, s, step))
  {
    hide Inv;
    var n := Next(c, s, step);
    if step.resource in s.db.resources {
      ResourceEditKeeps(c, s, step.resource, n.db.resources[step.resource]);
    }
  }

  lemma StepKeepsInv(c: Cryptor, s: State, step: Step)
    requires Aead.ValidCryptor(c) && Inv(c, s) && Enabled(c, s, step)
    ensures Inv(c, Next(c, s, step))
  {
    match step
    case Provision(input, id, version, randoms, now) =>
      CreationKeeps(c, s, input, id, version, randoms, now);
    case Duplicate(tenant, original, alias, id, version, randoms, now) =>
      var input := DuplicateInput(c, s.db, tenant, original, alias);
      if input.Some? {
        CreationKeeps(c, s, input.value, id, version, randoms, now);
      }
    case SetValue(_, _, _, _, _, _, _) => SetValueKeeps(c, s, step);
    case ClearOverride(_, _, _) => ClearKeeps(c, s, step);
    case Delete(_, _) => DeleteKeeps(c, s, step);
    case RewrapRow(_, _) => RewrapKeeps(c, s, step);
    case AddField(_, _, _) => FieldStepKeeps(c, s, step);
    case EditField(_, _, _, _, _) => FieldStepKeeps(c, s, step);
    case RemoveField(_, _, _) => FieldStepKeeps(c, s, step);
    case Identify(_, _, _, _, _) => ResourceStepKeeps(c, s, step);
    case SetActive(_, _, _, _) => ResourceStepKeeps(c, s, step);
    case _ => CatalogStepKeeps(c, s, step);
  }

  lemma CreationKeeps(c: Cryptor, s: State, input: Input, id: nat, version: int, randoms: seq<Aead.Nonce>, now: int)
    requires Inv(c, s) && id !in s.used && version in c.keys
    ensures Inv(c, AfterProvision(s, input, id, now, Provisioned(At(c, version), s.db, input, id, randoms, now)))
  {
    hide Provisioned;
    hide Inv;
    var r := Provisioned(At(c, version), s.db, input, id, randoms, now);
    if r.Ok? {
      ProvisionStores(c, version, s.db, input, id, randoms, now);
    }
    ProvisionKeeps(c, s, input, id, now, r);
  }

  // ----- Runs -----

  const EMPTY: State := State(Db(map[], map[], map[], map[], map[]), map[], {})

  ghost predicate Execution(c: Cryptor, states: seq<State>, steps: seq<Step>)
    requires Aead.ValidCryptor(c)
  {
    && |states| == |steps| + 1 && states[0] == EMPTY
    && forall i :: 0 <= i < |steps| ==> Enabled(c, states[i], steps[i]) && states[i + 1] == Next(c, states[i], steps[i])
  }

  lemma {:induction false} EveryRunKeepsInv(c: Cryptor, states: seq<State>, steps: seq<Step>, i: nat)
    requires Aead.ValidCryptor(c) && Execution(c, states, steps) && i < |states|
    ensures Inv(c, states[i])
  {
    hide Next;
    hide Enabled;
    if i == 0 {
      hide Linked;
    } else {
      hide Inv;
      EveryRunKeepsInv(c, states, steps, i - 1);
      StepKeepsInv(c, states[i - 1], steps[i - 1]);
    }
  }
}
