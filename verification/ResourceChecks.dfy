/** Which creations and edits of resources succeed, in plain terms, and what they keep:
    well-formed aliases, unique within a tenant, and texts of their field's type. */
module ResourceChecks {
  import opened Wrappers
  import Sql
  import Text
  import Aead
  import opened Values
  import opened Resources
  import opened Provisioning
  import opened ResourceRuns

  // ----- Formats -----

  /** One to sixty-three of a-z, 0-9, dot, underscore and dash, starting with a letter or
      a digit. */
  predicate WellFormedAlias(s: string) {
    && 1 <= |s| <= 63 && ('a' <= s[0] <= 'z' || '0' <= s[0] <= '9')
    && forall i :: 0 <= i < |s| ==>
         'a' <= s[i] <= 'z' || '0' <= s[i] <= '9' || s[i] == '.' || s[i] == '_' || s[i] == '-'
  }

  predicate OnlyDigits(s: string) { s != "" && forall i :: 0 <= i < |s| ==> '0' <= s[i] <= '9' }

  /** Digits after an optional minus. */
  predicate IsNumber(s: string) {
    OnlyDigits(s) || (s != "" && s[0] == '-' && OnlyDigits(s[1..]))
  }

  /** Nothing, or what the type demands. */
  predicate OfType(dataType: string, s: string) {
    s == ""
    || (&& (dataType == "bool" ==> s == "true" || s == "false")
        && (dataType == "int" ==> IsNumber(s)))
  }

  lemma AliasFormat(s: string)
    ensures ValidAlias(s) <==> WellFormedAlias(s)
  {
  }

  lemma TypeFormat(dataType: string, s: string)
    ensures ValidResourceValue(dataType, s) <==> OfType(dataType, s)
  {
    if s != "" && dataType == "int" {
      assert |"int"| != |"bool"|;
      var digits := if s[0] == '-' then s[1..] else s;
      assert OnlyDigits(digits) <==> digits != "" && Text.AllDigits(digits);
      assert s[0] == '-' ==> !OnlyDigits(s);
    }
  }

  // ----- Aliases -----

  predicate SameName(a: Resource, b: Resource) { a.tenant == b.tenant && a.alias == b.alias }

  ghost predicate AliasesAreUnique(db: Db) {
    forall a, b :: a in db.resources && b in db.resources && SameName(db.resources[a], db.resources[b]) ==> a == b
  }

  ghost predicate AliasesAreWellFormed(db: Db) {
    forall r :: r in db.resources ==> WellFormedAlias(db.resources[r].alias)
  }

  /** No other resource of the tenant has the alias. */
  ghost predicate FreeFor(db: Db, tenant: nat, alias: string, id: nat) {
    forall r :: r in db.resources && r != id ==> !(db.resources[r].tenant == tenant && db.resources[r].alias == alias)
  }

  lemma RowKeepsAliases(db: Db, resources: map<nat, Resource>, id: nat, row: Resource)
    requires AliasesAreUnique(db) && AliasesAreWellFormed(db) && resources == db.resources[id := row]
    requires FreeFor(db, row.tenant, row.alias, id) && WellFormedAlias(row.alias)
    ensures AliasesAreUnique(db.(resources := resources)) && AliasesAreWellFormed(db.(resources := resources))
  {
    hide WellFormedAlias;
  }

  lemma SameAliases(db: Db, after: Db)
    requires AliasesAreUnique(db) && AliasesAreWellFormed(db)
    requires forall r :: r in after.resources ==>
      && r in db.resources && after.resources[r].tenant == db.resources[r].tenant
      && after.resources[r].alias == db.resources[r].alias
    ensures AliasesAreUnique(after) && AliasesAreWellFormed(after)
  {
    hide WellFormedAlias;
  }

  lemma CheckedAlias(db: Db, input: Input, now: int)
    requires CheckInput(db, input, now).Ok?
    ensures var r := CheckInput(db, input, now).value;
      && r.tenant == input.tenant && WellFormedAlias(r.alias)
      && (forall o :: o in db.resources ==> !(db.resources[o].tenant == r.tenant && db.resources[o].alias == r.alias))
      && r.active && r.source == input.source && r.createdAt == now && r.updatedAt == now
      && r.alias == AliasGiven(input) && r.name == NameGiven(input)
  {
    hide FieldErrors;
    hide ListFields;
    hide DefinitionByKey;
    hide SourceAllowed;
    hide ProvidedTo;
    hide WellFormedAlias;
    hide ValidAlias;
    hide NormalizeResourceIdentity;
    hide AliasOf;
    hide AliasGiven;
    hide NameGiven;
    IdentityIff(input);
  }

  /** The trimmed alias, or else the definition's key. */
  function AliasGiven(input: Input): string {
    if Text.TrimSpace(input.alias) == "" then input.definitionKey else Text.TrimSpace(input.alias)
  }

  /** The trimmed name, or else the alias. */
  function NameGiven(input: Input): string {
    if Text.TrimSpace(input.name) == "" then AliasGiven(input) else Text.TrimSpace(input.name)
  }

  lemma CreationKeepsAliases(c: Cryptor, s: State, input: Input, id: nat, version: int, randoms: seq<Aead.Nonce>,
      now: int)
    requires version in c.keys && AliasesAreUnique(s.db) && AliasesAreWellFormed(s.db)
    ensures var n := AfterProvision(s, input, id, now, Provisioned(At(c, version), s.db, input, id, randoms, now));
      AliasesAreUnique(n.db) && AliasesAreWellFormed(n.db)
  {
    var r := Provisioned(At(c, version), s.db, input, id, randoms, now);
    if r.Ok? {
      ProvisionedParts(At(c, version), s.db, input, id, randoms, now);
      CheckedAlias(s.db, input, now);
      var row := CheckInput(s.db, input, now).value;
      hide Provisioned;
      hide CheckInput;
      hide StoreFields;
      hide WellFormedAlias;
      hide ListFields;
      RowKeepsAliases(s.db, r.value.resources, id, row);
      SameAliases(s.db.(resources := r.value.resources), r.value);
    }
  }

  lemma EditKeepsAliases(c: Cryptor, s: State, step: Step)
    requires Aead.ValidCryptor(c) && Enabled(c, s, step) && !step.Provision? && !step.Duplicate?
    requires AliasesAreUnique(s.db) && AliasesAreWellFormed(s.db)
    ensures AliasesAreUnique(Next(c, s, step).db) && AliasesAreWellFormed(Next(c, s, step).db)
  {
    var n := Next(c, s, step);
    if step.Identify? {
      AliasFormat(step.alias);
      if n != s {
        RowKeepsAliases(s.db, n.db.resources, step.resource, n.db.resources[step.resource]);
      }
    } else {
      OnlyIdentifyNames(c, s, step);
      hide Next;
      hide Enabled;
      SameAliases(s.db, n.db);
    }
  }

  lemma OnlyIdentifyNames(c: Cryptor, s: State, step: Step)
    requires Aead.ValidCryptor(c) && Enabled(c, s, step)
    requires !step.Provision? && !step.Duplicate? && !step.Identify?
    ensures forall r :: r in Next(c, s, step).db.resources ==>
      && r in s.db.resources && Next(c, s, step).db.resources[r].tenant == s.db.resources[r].tenant
      && Next(c, s, step).db.resources[r].alias == s.db.resources[r].alias
  {
    hide ListFields;
    hide FieldByKey;
    hide EncodeValue;
    hide ValidResourceValue;
  }

  /** In every reachable state two resources of one tenant with equal aliases are the same
      resource, and every alias is well formed. */
  lemma {:induction false} AliasesStayUnique(c: Cryptor, states: seq<State>, steps: seq<Step>, i: nat)
    requires Aead.ValidCryptor(c) && Execution(c, states, steps) && i < |states|
    ensures AliasesAreUnique(states[i].db) && AliasesAreWellFormed(states[i].db)
  {
    hide AliasesAreUnique;
    hide AliasesAreWellFormed;
    if i == 0 {
      NoAliases();
    } else {
      AliasesStayUnique(c, states, steps, i - 1);
      var s, step := states[i - 1], steps[i - 1];
      assert Enabled(c, s, step) && states[i] == Next(c, s, step);
      if step.Provision? {
        CreationKeepsAliases(c, s, step.input, step.id, step.version, step.randoms, step.now);
      } else if step.Duplicate? {
        var input := DuplicateInput(c, s.db, step.tenant, step.original, step.alias);
        if input.Some? {
          CreationKeepsAliases(c, s, input.value, step.id, step.version, step.randoms, step.now);
        }
      } else {
        EditKeepsAliases(c, s, step);
      }
    }
  }

  lemma NoAliases()
    ensures AliasesAreUnique(EMPTY.db) && AliasesAreWellFormed(EMPTY.db)
  {
  }

  // ----- Which creations succeed -----

  /** Given texts have the field's type, and a required field gets a text, or its source
      has a row for it. */
  predicate FieldPasses(db: Db, input: Input, f: nat)
    requires f in db.fields
  {
    var field := db.fields[f];
    && (field.key in input.values ==> OfType(field.dataType, input.values[field.key]))
    && (field.required ==>
          || (field.key in input.values && input.values[field.key] != "")
          || (input.source.Some? && (input.source.value, f) in db.values))
  }

  /** The source, if any, is an active, unlinked resource of this tenant and definition. */
  predicate SourcePasses(db: Db, input: Input, d: nat) {
    input.source.None?
    || (&& input.source.value in db.resources
        && var s := db.resources[input.source.value];
           s.tenant == input.tenant && s.definition == d && s.active && s.source.None?)
  }

  /** What stands before the alias: an active definition, a good name and alias, a source
      that may be linked, and every field of the definition. */
  ghost predicate InputPasses(db: Db, input: Input, d: nat) {
    && d in db.definitions && db.definitions[d].key == input.definitionKey && db.definitions[d].active
    && |Text.TrimSpace(input.name)| <= 120 && WellFormedAlias(AliasGiven(input))
    && SourcePasses(db, input, d)
    && forall f :: f in db.fields && db.fields[f].definition == d ==> FieldPasses(db, input, f)
  }

  lemma OneDefinitionByKey(db: Db, d: nat)
    requires UniqueKeys(db) && d in db.definitions
    ensures DefinitionByKey(db, db.definitions[d].key) == Some(d)
  {
    var ids := DefinitionsWithKey(db, db.definitions[d].key);
    assert d in ids;
    assert ids == {d};
    var list := Sql.Ascending(ids);
    assert |list| == 1 && list[0] in ids;
  }

  lemma FieldPassesIff(db: Db, input: Input, f: nat)
    requires f in db.fields
    ensures FieldPasses(db, input, f) <==> FieldError(db.fields[f], f, input.values, ProvidedTo(db, input)).None?
  {
    if db.fields[f].key in input.values {
      TypeFormat(db.fields[f].dataType, input.values[db.fields[f].key]);
    }
    hide OfType;
    hide ValidResourceValue;
    assert f in ProvidedTo(db, input) <==> input.source.Some? && (input.source.value, f) in db.values;
  }

  lemma {:induction false} ErrorsNoneIff(fields: map<nat, Field>, list: seq<nat>, values: map<string, string>,
      provided: set<nat>)
    requires forall f :: f in list ==> f in fields
    ensures FieldErrors(fields, list, values, provided).None? <==>
      forall f :: f in list ==> FieldError(fields[f], f, values, provided).None?
    ensures var e := FieldErrors(fields, list, values, provided);
      e.Some? ==> e.value.InvalidFieldValue? || e.value.MissingRequired?
    decreases |list|
  {
    if list != [] {
      assert forall f :: f in list <==> f == list[0] || f in list[1..];
      ErrorsNoneIff(fields, list[1..], values, provided);
    }
  }

  lemma FieldsPassIff(db: Db, input: Input, d: nat)
    ensures forall f :: f in ListFields(db, d) ==> f in db.fields
    ensures FieldErrors(db.fields, ListFields(db, d), input.values, ProvidedTo(db, input)).None? <==>
      forall f :: f in db.fields && db.fields[f].definition == d ==> FieldPasses(db, input, f)
    ensures var e := FieldErrors(db.fields, ListFields(db, d), input.values, ProvidedTo(db, input));
      e.Some? ==> e.value.InvalidFieldValue? || e.value.MissingRequired?
  {
    ListedFields(db, d);
    hide ListFields;
    hide FieldErrors;
    hide FieldError;
    hide FieldPasses;
    hide ProvidedTo;
    var list := ListFields(db, d);
    assert forall f :: f in list <==> f in db.fields && db.fields[f].definition == d;
    ErrorsNoneIff(db.fields, list, input.values, ProvidedTo(db, input));
    forall f | f in db.fields
      ensures FieldPasses(db, input, f) <==> FieldError(db.fields[f], f, input.values, ProvidedTo(db, input)).None?
    {
      FieldPassesIff(db, input, f);
    }
  }

  lemma IdentityIff(input: Input)
    ensures var identity := NormalizeResourceIdentity(input.name, input.alias);
      identity.Ok? && ValidAlias(AliasOf(identity.value.1, input.definitionKey)) <==>
        |Text.TrimSpace(input.name)| <= 120 && WellFormedAlias(AliasGiven(input))
    ensures var identity := NormalizeResourceIdentity(input.name, input.alias);
      if identity.Err? then identity.error in {InvalidAlias, InvalidName}
      else
        var alias := AliasOf(identity.value.1, input.definitionKey);
        alias == AliasGiven(input) && NameGiven(input) == if identity.value.0 == "" then alias else identity.value.0
  {
    AliasFormat(Text.TrimSpace(input.alias));
    AliasFormat(AliasGiven(input));
    hide WellFormedAlias;
    hide ValidAlias;
  }

  /** The checks answer for the definition with the key: everything before the alias, the
      alias, the tenant. */
  lemma CheckInputIff(db: Db, input: Input, d: nat, now: int)
    requires UniqueKeys(db) && d in db.definitions && db.definitions[d].key == input.definitionKey
    ensures var r := CheckInput(db, input, now);
      && (InputPasses(db, input, d) && !Taken(db, input) && input.tenant in db.tenants ==>
            r == Ok(Resource(input.tenant, d, AliasGiven(input), NameGiven(input), true, input.source, now, now)))
      && (InputPasses(db, input, d) && Taken(db, input) ==> r == Err(AliasExists))
      && (InputPasses(db, input, d) && !Taken(db, input) && input.tenant !in db.tenants ==> r == Err(UnknownTenant))
      && (!InputPasses(db, input, d) ==> r.Err? && r.error != AliasExists && r.error != UnknownTenant)
  {
    OneDefinitionByKey(db, d);
    IdentityIff(input);
    FieldsPassIff(db, input, d);
    assert SourceAllowed(db, input, d) <==> SourcePasses(db, input, d);
    assert AliasTaken(db, input.tenant, AliasGiven(input)) <==> Taken(db, input);
    hide SourceAllowed;
    hide SourcePasses;
    hide AliasTaken;
    hide Taken;
    hide NormalizeResourceIdentity;
    hide AliasOf;
    hide AliasGiven;
    hide NameGiven;
    hide UniqueKeys;
    hide DefinitionByKey;
    hide ListFields;
    hide FieldErrors;
    hide FieldPasses;
    hide ProvidedTo;
    hide WellFormedAlias;
    hide ValidAlias;
  }

  /** Some resource of the tenant has the alias. */
  ghost predicate Taken(db: Db, input: Input) {
    exists r ::
      r in db.resources && db.resources[r].tenant == input.tenant && db.resources[r].alias == AliasGiven(input)
  }

  lemma {:induction false} StoringNeedsNonces(c: Cryptor, fields: map<nat, Field>, list: seq<nat>, id: nat,
      values: map<string, string>, table: map<Slot, StoredValue>, randoms: seq<Aead.Nonce>)
    requires Aead.ValidCryptor(c) && forall f :: f in list ==> f in fields
    ensures var r := StoreFields(c, fields, list, id, values, table, randoms);
      r.Err? ==> r.error.Crypto? && |randoms| < |list|
    decreases |list|
  {
    if list != [] {
      var f := fields[list[0]];
      assert forall g :: g in list[1..] ==> g in list;
      if f.key !in values {
        StoringNeedsNonces(c, fields, list[1..], id, values, table, randoms);
      } else {
        var v := EncodeValue(c, f.isSecret, values[f.key], Aead.FirstNonce(randoms));
        if v.Ok? {
          StoringNeedsNonces(c, fields, list[1..], id, values, table[(id, list[0]) := v.value], Remaining(f, randoms));
        }
      }
    }
  }

  /** Which creations succeed, and how the others fail: with an input that passes, a taken
      alias is refused as such, then an unknown tenant; with a nonce for every field the
      rest succeed, and nothing else does. The new row is what was asked for. */
  lemma CreationOutcome(c: Cryptor, db: Db, input: Input, d: nat, id: nat, randoms: seq<Aead.Nonce>, now: int)
    requires Aead.ValidCryptor(c) && UniqueKeys(db)
    requires d in db.definitions && db.definitions[d].key == input.definitionKey
    ensures var r := Provisioned(c, db, input, id, randoms, now);
      && (InputPasses(db, input, d) && Taken(db, input) ==> r == Err(AliasExists))
      && (InputPasses(db, input, d) && !Taken(db, input) && input.tenant !in db.tenants ==> r == Err(UnknownTenant))
      && (|randoms| >= |ListFields(db, d)| && InputPasses(db, input, d) && !Taken(db, input) ==>
            r.Ok? || input.tenant !in db.tenants)
      && (r.Ok? ==>
            && InputPasses(db, input, d) && !Taken(db, input) && input.tenant in db.tenants
            && r.value.resources == db.resources[id :=
                 Resource(input.tenant, d, AliasGiven(input), NameGiven(input), true, input.source, now, now)])
  {
    hide *;
    CheckInputIff(db, input, d, now);
    ProvisionedFrom(c, db, input, id, randoms, now);
  }

  lemma ProvisionedFrom(c: Cryptor, db: Db, input: Input, id: nat, randoms: seq<Aead.Nonce>, now: int)
    requires Aead.ValidCryptor(c)
    ensures var checked, r := CheckInput(db, input, now), Provisioned(c, db, input, id, randoms, now);
      && (checked.Err? ==> r == Err(checked.error))
      && (checked.Ok? ==>
            && (r.Err? ==> r.error.Crypto? && |randoms| < |ListFields(db, checked.value.definition)|)
            && (r.Ok? ==> r.value.resources == db.resources[id := checked.value]))
  {
    var checked := CheckInput(db, input, now);
    hide CheckInput;
    hide ListFields;
    hide StoreFields;
    if checked.Ok? {
      ListedFields(db, checked.value.definition);
      FieldsAreKnown(db, checked.value.definition, ListFields(db, checked.value.definition));
      StoringNeedsNonces(c, db.fields, ListFields(db, checked.value.definition), id, input.values, db.values, randoms);
    }
  }

  /** Without a definition of that key there is nothing to create. */
  lemma UnknownKeyFails(c: Cryptor, db: Db, input: Input, id: nat, randoms: seq<Aead.Nonce>, now: int)
    requires Aead.ValidCryptor(c) && forall d :: d in db.definitions ==> db.definitions[d].key != input.definitionKey
    ensures Provisioned(c, db, input, id, randoms, now) == Err(UnknownDefinition)
  {
    assert DefinitionsWithKey(db, input.definitionKey) == {};
  }

  /** In every run, creating or duplicating onto an alias that the tenant already uses,
      or renaming another resource to it, changes nothing. */
  lemma TakenAliasChangesNothing(c: Cryptor, states: seq<State>, steps: seq<Step>, i: nat, r: nat)
    requires Aead.ValidCryptor(c) && Execution(c, states, steps) && i < |steps| && r in states[i].db.resources
    ensures var s, row, step := states[i], states[i].db.resources[r], steps[i];
      && (step.Provision? && row.tenant == step.input.tenant && row.alias == AliasGiven(step.input) ==>
            states[i + 1] == s)
      && (step.Duplicate? && row.tenant == step.tenant && row.alias == Text.TrimSpace(step.alias) != "" ==>
            states[i + 1] == s)
      && (step.Identify? && row.tenant == step.tenant && step.resource != r && row.alias == step.alias ==>
            states[i + 1] == s)
  {
    var s, step := states[i], steps[i];
    assert Enabled(c, s, step) && states[i + 1] == Next(c, s, step);
    var row := s.db.resources[r];
    if step.Provision? && row.tenant == step.input.tenant && row.alias == AliasGiven(step.input) {
      NotOntoTaken(At(c, step.version), s.db, step.input, r, step.id, step.randoms, step.now);
    } else if step.Duplicate? && row.tenant == step.tenant {
      var input := DuplicateInput(c, s.db, step.tenant, step.original, step.alias);
      if input.Some? && row.alias == AliasGiven(input.value) {
        NotOntoTaken(At(c, step.version), s.db, input.value, r, step.id, step.randoms, step.now);
      }
    }
    hide Provisioned;
    hide Execution;
    hide Effective;
    hide Enabled;
  }

  lemma NotOntoTaken(c: Cryptor, db: Db, input: Input, r: nat, id: nat, randoms: seq<Aead.Nonce>, now: int)
    requires Aead.ValidCryptor(c) && r in db.resources
    requires db.resources[r].tenant == input.tenant && db.resources[r].alias == AliasGiven(input)
    ensures Provisioned(c, db, input, id, randoms, now).Err?
  {
    if Provisioned(c, db, input, id, randoms, now).Ok? {
      ProvisionedParts(c, db, input, id, randoms, now);
      CheckedAlias(db, input, now);
    }
    hide Provisioned;
    hide CheckInput;
  }

  // ----- Which edits succeed -----

  lemma KeySelects(db: Db, f: nat)
    requires UniqueKeys(db) && f in db.fields
    ensures FieldByKey(db.fields, ListFields(db, db.fields[f].definition), db.fields[f].key) == Some(f)
  {
    SelectedField(db, db.fields[f].definition, db.fields[f].key);
    hide ListFields;
    hide FieldByKey;
    assert f in FieldIds(db, db.fields[f].definition);
  }

  lemma EditIs(c: Cryptor, db: Db, tenant: nat, resource: nat, f: nat, value: string, random: Option<Aead.Nonce>,
      now: int)
    requires Aead.ValidCryptor(c) && UniqueKeys(db) && resource in db.resources && f in db.fields
    requires db.fields[f].definition == db.resources[resource].definition
    ensures var r := FieldUpdated(c, db, tenant, resource, db.fields[f].key, value, random, now);
      var stored := EncodeValue(c, db.fields[f].isSecret, value, random);
      if db.resources[resource].tenant != tenant || (db.fields[f].required && value == "")
         || !ValidResourceValue(db.fields[f].dataType, value) || stored.Err?
      then r.Err?
      else r == Ok(db.(values := db.values[(resource, f) := stored.value],
                       resources := db.resources[resource := db.resources[resource].(updatedAt := now)]))
  {
    hide UniqueKeys;
    hide ListFields;
    hide FieldByKey;
    KeySelects(db, f);
    hide ValidResourceValue;
    hide EncodeValue;
  }

  /** An edit of field f succeeds exactly for a resource of that tenant, with a text of
      the field's type that is not empty when the field is required, and randomness to
      seal a secret. It writes that one value and the stamp. */
  lemma EditOutcome(c: Cryptor, db: Db, tenant: nat, resource: nat, f: nat, value: string, random: Option<Aead.Nonce>,
      now: int)
    requires Aead.ValidCryptor(c) && UniqueKeys(db) && resource in db.resources && f in db.fields
    requires db.fields[f].definition == db.resources[resource].definition
    ensures var r := FieldUpdated(c, db, tenant, resource, db.fields[f].key, value, random, now);
      && (r.Ok? <==>
            && db.resources[resource].tenant == tenant && (db.fields[f].required ==> value != "")
            && OfType(db.fields[f].dataType, value) && (db.fields[f].isSecret ==> random.Some?))
      && (r.Ok? ==>
            && r.value.values.Keys == db.values.Keys + {(resource, f)}
            && DecodeValue(c, r.value.values[(resource, f)]) == Ok(value)
            && (forall slot :: slot in db.values && slot != (resource, f) ==> r.value.values[slot] == db.values[slot])
            && r.value.resources == db.resources[resource := db.resources[resource].(updatedAt := now)])
  {
    hide *;
    EditIs(c, db, tenant, resource, f, value, random, now);
    TypeFormat(db.fields[f].dataType, value);
    DecodeInvertsEncode(c, c, db.fields[f].isSecret, value, random) by {
      SameKeys(c);
    }
  }

  lemma SameKeys(c: Cryptor)
    ensures Extends(c, c)
  {
  }

  /** Clearing an override succeeds exactly for a linked resource of that tenant whose
      source has a row for the field if it is required; it removes that one row. */
  lemma ClearOutcome(db: Db, tenant: nat, resource: nat, f: nat)
    requires UniqueKeys(db) && resource in db.resources && f in db.fields
    requires db.fields[f].definition == db.resources[resource].definition
    ensures var row, r := db.resources[resource], OverrideCleared(db, tenant, resource, db.fields[f].key);
      && (r.Ok? <==>
            && row.tenant == tenant && row.source.Some?
            && (db.fields[f].required ==> (row.source.value, f) in db.values))
      && (r.Ok? ==> r.value == db.(values := db.values - {(resource, f)}))
  {
    hide UniqueKeys;
    hide ListFields;
    hide FieldByKey;
    KeySelects(db, f);
  }

  // ----- Texts have their field's type -----

  /** In every reachable state every stored value reads as a text of its field's type,
      and a secret is stored sealed, nothing else is. */
  lemma TextsAreTyped(c: Cryptor, states: seq<State>, steps: seq<Step>, i: nat, slot: Slot)
    requires Aead.ValidCryptor(c) && Execution(c, states, steps) && i < |states| && slot in states[i].db.values
    ensures var db, v := states[i].db, states[i].db.values[slot];
      && slot.0 in db.resources && slot.1 in db.fields
      && db.fields[slot.1].definition == db.resources[slot.0].definition
      && DecodeValue(c, v).Ok? && OfType(db.fields[slot.1].dataType, DecodeValue(c, v).value)
      && (db.fields[slot.1].isSecret ==> v.plain.None? && v.cipher.Some?)
      && (!db.fields[slot.1].isSecret ==> v.plain.Some? && v.cipher.None?)
  {
    EveryRunKeepsInv(c, states, steps, i);
    var s := states[i];
    assert Placed(s.db, slot) && Faithful(c, s.db.fields, slot, s.db.values[slot], s.written[slot]);
    TypeFormat(s.db.fields[slot.1].dataType, s.written[slot]);
    hide Execution;
    hide Inv;
    hide OfType;
    hide ValidResourceValue;
    hide DecodeValue;
  }

  // ----- The order of fields -----

  lemma FieldsAreComparable(db: Db, d: nat)
    requires UniqueKeys(db)
    ensures Sorting.Orders((a, b) => FieldBefore(db, a, b), FieldIds(db, d))
  {
    var less := (a, b) => FieldBefore(db, a, b);
    var ids := FieldIds(db, d);
    forall x | x in ids ensures !less(x, x) {
      Sorting.TextOrderIsTotal(db.fields[x].key, db.fields[x].key);
    }
    forall x, y | x in ids && y in ids && x != y ensures less(x, y) || less(y, x) {
      assert !SameKey(db.fields[x], db.fields[y]);
      Sorting.TextOrderIsTotal(db.fields[x].key, db.fields[y].key);
    }
    hide UniqueKeys;
    forall x, y, z | x in ids && y in ids && z in ids && less(x, y) && less(y, z) ensures less(x, z) {
      var a, b, e := db.fields[x].key, db.fields[y].key, db.fields[z].key;
      if Sorting.TextBefore(a, b) && Sorting.TextBefore(b, e) {
        Sorting.TextOrderIsTransitive(a, b, e);
      }
    }
  }

  /** The fields of a definition are listed once each, by sort order and then by key. */
  lemma FieldsAreListedInOrder(db: Db, d: nat)
    requires UniqueKeys(db)
    ensures forall f :: f in ListFields(db, d) <==> f in db.fields && db.fields[f].definition == d
    ensures forall i, j :: 0 <= i < j < |ListFields(db, d)| ==>
      var a, b := db.fields[ListFields(db, d)[i]], db.fields[ListFields(db, d)[j]];
      a.sortOrder < b.sortOrder || (a.sortOrder == b.sortOrder && Sorting.TextBefore(a.key, b.key))
  {
    var less := (a, b) => FieldBefore(db, a, b);
    var ids := Sql.Ascending(FieldIds(db, d));
    ListedFields(db, d);
    FieldsAreComparable(db, d);
    Sql.AscendingIsStrict(FieldIds(db, d));
    assert Sorting.Members(ids) == FieldIds(db, d);
    Sorting.SortSorts(ids, less);
    assert ListFields(db, d) == Sorting.Sort(ids, less);
    forall i, j | 0 <= i < j < |ListFields(db, d)|
      ensures FieldBefore(db, ListFields(db, d)[i], ListFields(db, d)[j])
    {
      assert less(ListFields(db, d)[i], ListFields(db, d)[j]);
    }
    hide ListFields;
    hide UniqueKeys;
  }

  // ----- Catalog and identity -----

  /** What the remaining operations do, and when they do nothing: a rename needs a
      well-formed alias that no other resource of the tenant has, a removal that nothing
      depends on what is removed, a new field or definition a key that is free. */
  lemma AdminStepOutcome(c: Cryptor, s: State, step: Step)
    requires Aead.ValidCryptor(c) && Enabled(c, s, step)
    ensures step.Identify? ==>
      var r, db := step.resource, s.db;
      if r in db.resources && db.resources[r].tenant == step.tenant && WellFormedAlias(step.alias)
         && FreeFor(db, step.tenant, step.alias, r)
      then Next(c, s, step) == s.(db := db.(resources := db.resources[r :=
             db.resources[r].(name := step.name, alias := step.alias, updatedAt := step.now)]))
      else Next(c, s, step) == s
    ensures step.SetActive? ==>
      var r, db := step.resource, s.db;
      if r in db.resources && db.resources[r].tenant == step.tenant
      then Next(c, s, step) == s.(db := db.(resources := db.resources[r :=
             db.resources[r].(active := step.active, updatedAt := step.now)]))
      else Next(c, s, step) == s
    ensures step.Delete? ==>
      var r, db, n := step.resource, s.db, Next(c, s, step);
      if r in db.resources && db.resources[r].tenant == step.tenant
         && forall o :: o in db.resources ==> db.resources[o].source != Some(r)
      then
        && n.db == db.(resources := db.resources - {r}, values := n.db.values)
        && (forall slot :: slot in n.db.values <==> slot in db.values && slot.0 != r)
        && (forall slot :: slot in n.db.values ==> n.db.values[slot] == db.values[slot])
      else n == s
  {
    if step.Identify? {
      AliasFormat(step.alias);
      hide WellFormedAlias;
      hide ValidAlias;
    }
  }

  /** The same for definitions and fields; every change of a field stamps its definition. */
  lemma CatalogStepOutcome(c: Cryptor, s: State, step: Step)
    requires Aead.ValidCryptor(c) && Enabled(c, s, step)
    ensures step.AddField? ==>
      var d, db, n := step.added.definition, s.db, Next(c, s, step);
      if d in db.definitions
         && forall f :: f in db.fields && db.fields[f].definition == d ==> db.fields[f].key != step.added.key
      then n.db == db.(fields := db.fields[step.id := step.added],
                       definitions := db.definitions[d := db.definitions[d].(updatedAt := step.now)])
      else n == s
    ensures step.EditField? ==>
      var f, d, db, n := step.field, step.definition, s.db, Next(c, s, step);
      if f in db.fields && db.fields[f].definition == d
      then n.db.fields == db.fields[f := db.fields[f].(title := step.title, required := step.required)]
        && n.db.values == db.values
        && (d in db.definitions ==> n.db.definitions == db.definitions[d := db.definitions[d].(updatedAt := step.now)])
      else n == s
    ensures step.RemoveField? ==>
      var f, d, db, n := step.field, step.definition, s.db, Next(c, s, step);
      if f in db.fields && db.fields[f].definition == d && forall slot :: slot in db.values ==> slot.1 != f
      then n.db.fields == db.fields - {f} && n.db.values == db.values
        && (d in db.definitions ==> n.db.definitions == db.definitions[d := db.definitions[d].(updatedAt := step.now)])
      else n == s
    ensures step.CreateDefinition? ==>
      var db, n := s.db, Next(c, s, step);
      if forall d :: d in db.definitions ==> db.definitions[d].key != step.key
      then n.db == db.(definitions := db.definitions[step.id := Definition(step.key, true, step.now)])
      else n == s
  {
    if step.CreateDefinition? {
      KeyIsTaken(s.db, step.key);
    }
    hide DefinitionByKey;
    hide ValidKey;
  }

  lemma KeyIsTaken(db: Db, key: string)
    ensures DefinitionByKey(db, key).Some? <==> exists d :: d in db.definitions && db.definitions[d].key == key
  {
    var ids := DefinitionsWithKey(db, key);
    if DefinitionByKey(db, key).Some? {
      assert Sql.Ascending(ids)[0] in ids;
    }
    if d :| d in db.definitions && db.definitions[d].key == key {
      assert d in ids;
      assert d in Sql.Ascending(ids);
    }
  }
}
