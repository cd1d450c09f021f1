/** What the stored values mean in every reachable state: reading, completeness of
    required fields, and duplicates as independent snapshots. */
module ResourceValues {
  import opened Wrappers
  import Sorting
  import Sql
  import Aead
  import Rewrap
  import opened Values
  import opened Resources
  import opened Provisioning
  import opened ResourceRuns

  // ----- The builder returns the last writes -----

  /** Rows of one field share their shape, so the merged columns are the local row, or
      else the source's. */
  lemma MergedIsOverride(c: Cryptor, s: State, resource: nat, field: nat)
    requires Inv(c, s) && resource in s.db.resources && field in s.db.fields
    ensures
      var local, source := Row(s.db.values, Some(resource), field),
        Row(s.db.values, s.db.resources[resource].source, field);
      local.Some? || source.Some? ==> Merged(local, source) == Coalesce(local, source).value
  {
    hide DecodeValue;
    hide ValidResourceValue;
    var r := s.db.resources[resource];
    if (resource, field) in s.db.values {
      assert Faithful(c, s.db.fields, (resource, field), s.db.values[(resource, field)], s.written[(resource, field)]);
    }
    if r.source.Some? && (r.source.value, field) in s.db.values {
      assert Faithful(c, s.db.fields, (r.source.value, field), s.db.values[(r.source.value, field)],
        s.written[(r.source.value, field)]);
    }
  }

  function TextShown(s: State, header: Header, field: nat): FieldValue
    requires field in s.db.fields
  {
    FieldValue(s.db.fields[field], (header.id, field) in s.written,
               (header.id, field) !in s.written && header.resource.source.Some?, EffectiveText(s, header.id, field))
  }

  lemma RowReadsLastWrite(c: Cryptor, s: State, header: Header, field: nat)
    requires Inv(c, s) && GetHeader(s.db, header.id) == Some(header) && field in s.db.fields
    ensures ShowRow(c, s.db.fields, header, Joined(s.db, header.id, field), true) == Ok(TextShown(s, header, field))
  {
    MergedIsOverride(c, s, header.id, field);
    hide Merged;
    hide DecodeValue;
    hide ValidResourceValue;
    var r := s.db.resources[header.id];
    if (header.id, field) in s.db.values {
      assert Faithful(c, s.db.fields, (header.id, field), s.db.values[(header.id, field)],
        s.written[(header.id, field)]);
    } else if r.source.Some? && (r.source.value, field) in s.db.values {
      assert Faithful(c, s.db.fields, (r.source.value, field), s.db.values[(r.source.value, field)],
        s.written[(r.source.value, field)]);
    }
  }

  function TextsShown(s: State, header: Header, list: seq<nat>): (shown: seq<FieldValue>)
    requires forall f :: f in list ==> f in s.db.fields
    ensures |shown| == |list| && forall k :: 0 <= k < |list| ==>
      list[k] in s.db.fields && shown[k] == TextShown(s, header, list[k])
  {
    if list == [] then []
    else
      assert list[|list| - 1] in list;
      TextsShown(s, header, list[..|list| - 1]) + [TextShown(s, header, list[|list| - 1])]
  }

  lemma {:induction false} ListReadsLastWrites(c: Cryptor, s: State, header: Header, list: seq<nat>, n: nat)
    requires Inv(c, s) && GetHeader(s.db, header.id) == Some(header) && (forall f :: f in list ==> f in s.db.fields)
    requires n <= |list|
    ensures forall f :: f in list[..n] ==> f in s.db.fields
    ensures var rows := JoinFields(s.db, header.id, list)[..n];
      KnownFields(s.db.fields, rows)
        && Shown(c, s.db.fields, header, rows, true) == Ok(TextsShown(s, header, list[..n]))
    decreases n
  {
    assert header.id in s.db.resources;
    hide Inv;
    hide ShowRow;
    hide TextShown;
    hide Joined;
    hide GetHeader;
    hide EffectiveText;
    hide Effective;
    hide Shown;
    RowsNameFields(s, header.id, list, n);
    hide TextsShown;
    hide KnownFields;
    hide JoinFields;
    if n == 0 {
      NothingIsShown(c, s, header, list);
    } else {
      ListReadsLastWrites(c, s, header, list, n - 1);
      assert list[n - 1] in list;
      RowReadsLastWrite(c, s, header, list[n - 1]);
      OneFieldMore(c, s, header, list, n);
    }
  }

  lemma OneFieldMore(c: Cryptor, s: State, header: Header, list: seq<nat>, n: nat)
    requires header.id in s.db.resources && 0 < n <= |list| && forall f :: f in list ==> f in s.db.fields
    requires list[n - 1] in s.db.fields
    requires ShowRow(c, s.db.fields, header, Joined(s.db, header.id, list[n - 1]), true) ==
      Ok(TextShown(s, header, list[n - 1]))
    requires var rows := JoinFields(s.db, header.id, list)[..n - 1];
      KnownFields(s.db.fields, rows) && (forall f :: f in list[..n - 1] ==> f in s.db.fields)
      && Shown(c, s.db.fields, header, rows, true) == Ok(TextsShown(s, header, list[..n - 1]))
    ensures forall f :: f in list[..n] ==> f in s.db.fields
    ensures var rows := JoinFields(s.db, header.id, list)[..n];
      KnownFields(s.db.fields, rows)
        && Shown(c, s.db.fields, header, rows, true) == Ok(TextsShown(s, header, list[..n]))
  {
    hide *;
    JoinedField(s.db, header.id, list[n - 1]);
    RowsNameFields(s, header.id, list, n);
    RowsNameFields(s, header.id, list, |list|);
    TextsGrow(s, header, list, n);
    var rows := JoinFields(s.db, header.id, list);
    assert rows[..|list|] == rows;
    OneMoreRow(c, s.db.fields, header, rows, n - 1, true);
  }

  lemma TextsGrow(s: State, header: Header, list: seq<nat>, n: nat)
    requires 0 < n <= |list| && forall f :: f in list[..n] ==> f in s.db.fields
    ensures forall f :: f in list[..n - 1] ==> f in s.db.fields
    ensures list[n - 1] in s.db.fields
    ensures TextsShown(s, header, list[..n]) ==
      TextsShown(s, header, list[..n - 1]) + [TextShown(s, header, list[n - 1])]
  {
    hide TextShown;
    assert list[..n][..n - 1] == list[..n - 1] && list[..n][n - 1] == list[n - 1];
    forall f | f in list[..n - 1] ensures f in list[..n] {
    }
  }

  lemma NothingIsShown(c: Cryptor, s: State, header: Header, list: seq<nat>)
    requires header.id in s.db.resources
    ensures var rows := JoinFields(s.db, header.id, list)[..0];
      KnownFields(s.db.fields, rows)
        && Shown(c, s.db.fields, header, rows, true) == Ok(TextsShown(s, header, list[..0]))
  {
  }

  lemma RowsNameFields(s: State, resource: nat, list: seq<nat>, n: nat)
    requires resource in s.db.resources && (forall f :: f in list ==> f in s.db.fields) && n <= |list|
    ensures KnownFields(s.db.fields, JoinFields(s.db, resource, list)[..n])
    ensures forall f :: f in list[..n] ==> f in s.db.fields
  {
    var rows := JoinFields(s.db, resource, list);
    forall k | 0 <= k < n ensures rows[k].field in s.db.fields {
      JoinedField(s.db, resource, list[k]);
      assert list[k] in list;
    }
  }

  lemma JoinedField(db: Db, resource: nat, field: nat)
    requires resource in db.resources
    ensures Joined(db, resource, field).field == field && Joined(db, resource, field).resource == resource
  {
  }

  /** In every reachable state the batch builder succeeds and shows, for each field of
      the resource in order, the last local text, else the source's last text. */
  lemma BuilderShowsLastWrites(c: Cryptor, s: State, header: Header)
    requires Inv(c, s) && GetHeader(s.db, header.id) == Some(header)
    ensures var list := ListFields(s.db, header.resource.definition);
      && (forall f :: f in list <==> f in FieldIds(s.db, header.resource.definition))
      && Effective(c, s.db, header, true) == Ok(TextsShown(s, header, list))
  {
    ListedFields(s.db, header.resource.definition);
    hide ListFields;
    var list := ListFields(s.db, header.resource.definition);
    ListReadsLastWrites(c, s, header, list, |list|);
    ResourceRowsHaveFields(s.db, header.id);
    assert list[..|list|] == list;
    var rows := JoinFields(s.db, header.id, list);
    assert rows[..|list|] == rows;
  }

  lemma ResourcesHaveHeaders(db: Db, r: nat)
    requires Links(db) && r in db.resources
    ensures GetHeader(db, r).Some?
    ensures var h := GetHeader(db, r).value;
      h.id == r && h.resource == db.resources[r]
      && db.resources[r].definition in db.definitions
      && h.definitionKey == db.definitions[db.resources[r].definition].key
  {
    assert Linked(db, r);
  }

  // ----- Required fields -----

  predicate HasValueRow(db: Db, resource: nat, field: nat) {
    (resource, field) in db.values
    || (resource in db.resources && db.resources[resource].source.Some?
         && (db.resources[resource].source.value, field) in db.values)
  }

  ghost predicate Complete(db: Db) {
    forall r, f :: r in db.resources && f in db.fields && Demanded(db, r, f) ==> HasValueRow(db, r, f)
  }

  predicate Demanded(db: Db, resource: nat, field: nat)
    requires resource in db.resources && field in db.fields
  {
    db.fields[field].required && db.fields[field].definition == db.resources[resource].definition
  }

  /** The steps that demand a value from resources that already exist. */
  predicate DemandsMore(s: State, step: Step) {
    (step.AddField? && step.added.required)
    || (step.EditField? && step.required && step.field in s.db.fields && !s.db.fields[step.field].required)
  }

  lemma CreationKeepsComplete(c: Cryptor, s: State, input: Input, id: nat, version: int, randoms: seq<Aead.Nonce>,
      now: int)
    requires Inv(c, s) && Complete(s.db) && id !in s.used && version in c.keys
    ensures Complete(AfterProvision(s, input, id, now, Provisioned(At(c, version), s.db, input, id, randoms, now)).db)
  {
    var r := Provisioned(At(c, version), s.db, input, id, randoms, now);
    if r.Ok? {
      ProvisionStores(c, version, s.db, input, id, randoms, now);
      ProvisionedIsComplete(c, s, input, id, r.value);
    }
  }

  lemma ProvisionedIsComplete(c: Cryptor, s: State, input: Input, id: nat, after: Db)
    requires Slots(s.db) && Links(s.db) && IdsUsed(s) && Complete(s.db) && id !in s.used
    requires ProvisionedTo(c, s.db, input, id, after)
    ensures Complete(after)
  {
    hide ValidResourceValue;
    hide DecodeValue;
    hide Shaped;
    forall r, f | r in after.resources && f in after.fields && Demanded(after, r, f) ensures HasValueRow(after, r, f) {
      if r == id {
        assert FieldStored(c, s.db, input, id, f, after.values);
      } else {
        assert Demanded(s.db, r, f) && HasValueRow(s.db, r, f);
      }
    }
  }

  lemma ClearKeepsComplete(c: Cryptor, s: State, step: Step)
    requires Aead.ValidCryptor(c) && Inv(c, s) && Complete(s.db) && step.ClearOverride?
    ensures Complete(Next(c, s, step).db)
  {
    if Next(c, s, step) != s {
      ClearEffect(c, s, step);
      ClearedIsComplete(s.db, step.resource, SlotField(s.db, step.resource, step.key));
    }
  }

  lemma ClearedIsComplete(db: Db, resource: nat, field: nat)
    requires Links(db) && Complete(db) && resource in db.resources && db.resources[resource].source.Some?
    requires field in db.fields
    requires db.fields[field].required ==> (db.resources[resource].source.value, field) in db.values
    ensures Complete(db.(values := db.values - {(resource, field)}))
  {
    var after := db.(values := db.values - {(resource, field)});
    assert Linked(db, resource);
    forall o, f | o in after.resources && f in after.fields && Demanded(after, o, f) ensures HasValueRow(after, o, f) {
      assert Demanded(db, o, f) && HasValueRow(db, o, f) && Linked(db, o);
    }
  }

  lemma DeleteKeepsComplete(c: Cryptor, s: State, step: Step)
    requires Aead.ValidCryptor(c) && Complete(s.db) && step.Delete?
    ensures Complete(Next(c, s, step).db)
  {
    var n := Next(c, s, step);
    forall o, f | o in n.db.resources && f in n.db.fields && Demanded(n.db, o, f) ensures HasValueRow(n.db, o, f) {
      assert HasValueRow(s.db, o, f);
    }
  }

  /** Value rows stay, and no resource or demand is new. */
  lemma NoNewDemand(before: Db, after: Db)
    requires Complete(before) && before.values.Keys <= after.values.Keys
    requires after.resources.Keys == before.resources.Keys
    requires forall r :: r in after.resources ==> SameStructure(before.resources[r], after.resources[r])
    requires forall f :: f in after.fields && after.fields[f].required ==>
      f in before.fields && before.fields[f].required && before.fields[f].definition == after.fields[f].definition
    ensures Complete(after)
  {
    forall o, f | o in after.resources && f in after.fields && Demanded(after, o, f) ensures HasValueRow(after, o, f) {
      assert Demanded(before, o, f) && HasValueRow(before, o, f);
    }
  }

  predicate SameStructure(r: Resource,
      t: Resource) { t.tenant == r.tenant && t.definition == r.definition && t.source == r.source }

  lemma ResourceEditKeepsComplete(c: Cryptor, s: State, step: Step)
    requires Aead.ValidCryptor(c) && Complete(s.db) && Enabled(c, s, step)
    requires step.Identify? || step.SetActive? || step.RewrapRow?
    ensures Complete(Next(c, s, step).db)
  {
    hide Complete;
    hide Rewrap.Refreshed;
    NoNewDemand(s.db, Next(c, s, step).db);
  }

  lemma CatalogKeepsComplete(c: Cryptor, s: State, step: Step)
    requires Aead.ValidCryptor(c) && IdsUsed(s) && Complete(s.db) && Enabled(c, s, step) && !DemandsMore(s, step)
    requires step.CreateTenant? || step.UpdateTenant? || step.CreateDefinition? || step.SetDefinitionActive?
      || step.AddField? || step.EditField? || step.RemoveField?
    ensures Complete(Next(c, s, step).db)
  {
    hide Complete;
    hide DefinitionByKey;
    hide ValidKey;
    hide ValidSlug;
    NoNewDemand(s.db, Next(c, s, step).db);
  }

  lemma EditKeepsComplete(c: Cryptor, s: State, step: Step)
    requires Aead.ValidCryptor(c) && Inv(c, s) && Complete(s.db) && Enabled(c, s, step) && !DemandsMore(s, step)
    requires !step.Provision? && !step.Duplicate? && !step.ClearOverride? && !step.Delete? && !step.SetValue?
    ensures Complete(Next(c, s, step).db)
  {
    hide Complete;
    hide Next;
    hide Enabled;
    hide DemandsMore;
    if step.Identify? || step.SetActive? || step.RewrapRow? {
      ResourceEditKeepsComplete(c, s, step);
    } else {
      CatalogKeepsComplete(c, s, step);
    }
  }

  lemma SetValueKeepsComplete(c: Cryptor, s: State, step: Step)
    requires Aead.ValidCryptor(c) && Complete(s.db) && Enabled(c, s, step) && step.SetValue?
    ensures Complete(Next(c, s, step).db)
  {
    if Next(c, s, step) != s {
      SetValueEffect(c, s, step);
      hide Next;
      hide Complete;
      hide Placed;
      hide ValidResourceValue;
      hide EncodeValue;
      NoNewDemand(s.db, Next(c, s, step).db);
    }
  }

  /** With a fixed list of required fields, every required field of every resource
      keeps a value row of its own or of its source. */
  lemma StepKeepsComplete(c: Cryptor, s: State, step: Step)
    requires Aead.ValidCryptor(c) && Inv(c, s) && Complete(s.db) && Enabled(c, s, step) && !DemandsMore(s, step)
    ensures Complete(Next(c, s, step).db)
  {
    hide Inv;
    hide Complete;
    match step
    case Provision(input, id, version, randoms, now) =>
      CreationKeepsComplete(c, s, input, id, version, randoms, now);
    case Duplicate(tenant, original, alias, id, version, randoms, now) =>
      var input := DuplicateInput(c, s.db, tenant, original, alias);
      if input.Some? {
        CreationKeepsComplete(c, s, input.value, id, version, randoms, now);
      }
    case ClearOverride(_, _, _) => ClearKeepsComplete(c, s, step);
    case Delete(_, _) => DeleteKeepsComplete(c, s, step);
    case SetValue(_, _, _, _, _, _, _) => SetValueKeepsComplete(c, s, step);
    case _ => EditKeepsComplete(c, s, step);
  }

  lemma {:induction false} EveryRunIsComplete(c: Cryptor, states: seq<State>, steps: seq<Step>, i: nat, j: nat)
    requires Aead.ValidCryptor(c) && Execution(c, states, steps) && i <= j < |states| && Complete(states[i].db)
    requires forall k :: i <= k < j ==> !DemandsMore(states[k], steps[k])
    ensures Complete(states[j].db)
    decreases j
  {
    hide Next;
    hide Enabled;
    hide Complete;
    hide DemandsMore;
    if i < j {
      EveryRunIsComplete(c, states, steps, i, j - 1);
      EveryRunKeepsInv(c, states, steps, j - 1);
      hide Inv;
      StepKeepsComplete(c, states[j - 1], steps[j - 1]);
    }
  }

  /** A linked resource may be created with an empty override for a required field its
      source provides; editing the same field to the empty text is refused. */
  lemma EmptyOverrideOnlyAtCreation(c: Cryptor, db: Db, input: Input, f: nat, tenant: nat, resource: nat,
      random: Option<Aead.Nonce>, now: int)
    requires Aead.ValidCryptor(c) && f in db.fields && db.fields[f].required && f in ProvidedTo(db, input)
    requires input.values == map[db.fields[f].key := ""]
    requires OwnResource(db, tenant, resource).Some? && db.resources[resource].definition == db.fields[f].definition
    ensures FieldError(db.fields[f], f, input.values, ProvidedTo(db, input)).None?
    ensures UniqueKeys(db) ==>
      FieldUpdated(c, db, tenant, resource, db.fields[f].key, "", random, now) == Err(MissingRequired(db.fields[f].key))
  {
    SelectedField(db, db.fields[f].definition, db.fields[f].key);
    hide ListFields;
    hide FieldByKey;
  }

  function InheritedText(s: State, source: Option<nat>, field: nat): string {
    if source.Some? && (source.value, field) in s.written then s.written[(source.value, field)] else ""
  }

  /** A new resource reads, field by field, as the text given for it, the empty text
      included, or else as its source. */
  lemma CreatedReadsItsInput(c: Cryptor, s: State, input: Input, id: nat, now: int, r: Result<Db, Error>, f: nat)
    requires Inv(c, s) && id !in s.used && r.Ok? && ProvisionedTo(c, s.db, input, id, r.value)
    requires f in FieldIds(s.db, r.value.resources[id].definition)
    ensures var n, key := AfterProvision(s, input, id, now, r), s.db.fields[f].key;
      EffectiveText(n, id, f) == if key in input.values then input.values[key] else InheritedText(s, input.source, f)
  {
    var n := AfterProvision(s, input, id, now, r);
    NoTextsYet(c, s, id);
    AfterCreation(c, s, input, id, now, r);
    assert input.source != Some(id);
    hide Inv;
    hide ProvisionedTo;
    hide AfterProvision;
    hide SourceAllowed;
    CreatedText(s, n, id, f, input);
  }

  lemma RequiredTextIff(c: Cryptor, s: State, input: Input, id: nat, now: int, r: Result<Db, Error>, f: nat)
    requires Inv(c, s) && id !in s.used && r.Ok? && ProvisionedTo(c, s.db, input, id, r.value)
    requires f in FieldIds(s.db, r.value.resources[id].definition) && s.db.fields[f].required
    ensures EffectiveText(AfterProvision(s, input, id, now, r), id, f) == "" <==> GivenEmpty(s, input, f)
  {
    CreatedReadsItsInput(c, s, input, id, now, r, f);
    hide Inv;
    hide AfterProvision;
    hide EffectiveText;
    hide InheritedText;
    hide ValidResourceValue;
    hide ProvidedTo;
    hide DecodeValue;
    hide SourceAllowed;
    assert FieldStored(c, s.db, input, id, f, r.value.values);
  }

  /** So a required field of a new resource reads as empty if and only if the empty text
      was given for it, which passes only when the source has a value row for the field,
      or nothing was given and the source's text is itself empty. */
  lemma RequiredReadsEmptyIff(c: Cryptor, s: State, input: Input, id: nat, version: int, randoms: seq<Aead.Nonce>,
      now: int, f: nat)
    requires Inv(c, s) && id !in s.used && version in c.keys
    requires Provisioned(At(c, version), s.db, input, id, randoms, now).Ok?
    ensures var r := Provisioned(At(c, version), s.db, input, id, randoms, now);
      id in r.value.resources
      && (f in FieldIds(s.db, r.value.resources[id].definition) && s.db.fields[f].required ==>
            (EffectiveText(AfterProvision(s, input, id, now, r), id, f) == "" <==> GivenEmpty(s, input, f)))
  {
    var r := Provisioned(At(c, version), s.db, input, id, randoms, now);
    ProvisionStores(c, version, s.db, input, id, randoms, now);
    ProvisionedRow(c, s.db, input, id, r.value);
    hide Provisioned;
    hide ProvisionedTo;
    hide AfterProvision;
    hide EffectiveText;
    hide GivenEmpty;
    hide Inv;
    if f in FieldIds(s.db, r.value.resources[id].definition) && s.db.fields[f].required {
      RequiredTextIff(c, s, input, id, now, r, f);
    }
  }

  predicate GivenEmpty(s: State, input: Input, f: nat)
    requires f in s.db.fields
  {
    var key := s.db.fields[f].key;
    if key in input.values then input.values[key] == "" && f in ProvidedTo(s.db, input)
    else InheritedText(s, input.source, f) == ""
  }

  /** The state after a creation, in terms of rows and texts. */
  lemma AfterCreation(c: Cryptor, s: State, input: Input, id: nat, now: int, r: Result<Db, Error>)
    requires r.Ok? && ProvisionedTo(c, s.db, input, id, r.value)
    ensures AfterProvision(s, input, id, now, r).db == r.value
    ensures Created(s, AfterProvision(s, input, id, now, r), id, input)
  {
    ProvisionedRow(c, s.db, input, id, r.value);
    hide ProvisionedTo;
    hide TextsGiven;
    hide SourceAllowed;
  }

  ghost predicate Created(s: State, n: State, id: nat, input: Input) {
    && id in n.db.resources && n.db.resources[id].source == input.source
    && (forall r :: r in s.db.resources && r != id ==> r in n.db.resources && n.db.resources[r] == s.db.resources[r])
    && n.written == s.written + TextsGiven(s.db.fields, n.db.resources[id].definition, id, input.values)
    && SourceAllowed(s.db, input, n.db.resources[id].definition)
  }

  lemma CreatedText(s: State, n: State, id: nat, f: nat, input: Input)
    requires Created(s, n, id, input) && f in FieldIds(s.db, n.db.resources[id].definition)
    requires (forall g :: (id, g) !in s.written) && input.source != Some(id)
    ensures var key := s.db.fields[f].key;
      EffectiveText(n, id, f) == if key in input.values then input.values[key] else InheritedText(s, input.source, f)
  {
    CreatedTexts(s.db.fields, n.db.resources[id].definition, id, input.values, s.written);
    hide TextsGiven;
    hide SourceAllowed;
    assert input.source.Some? ==> ((input.source.value, f) in n.written <==> (input.source.value, f) in s.written);
  }

  lemma OtherTextStays(s: State, n: State, created: nat, input: Input, id: nat, f: nat)
    requires Created(s, n, created, input) && id != created && id in s.db.resources && s.db.resources[id].source.None?
    requires forall g :: (created, g) !in s.written
    ensures id in n.db.resources && n.db.resources[id].source.None?
    ensures EffectiveText(n, id, f) == EffectiveText(s, id, f)
  {
    CreatedTexts(s.db.fields, n.db.resources[created].definition, created, input.values, s.written);
    hide TextsGiven;
    hide SourceAllowed;
    hide EffectiveText;
    SameText(s, n, id, f);
  }

  lemma SameText(s: State, n: State, id: nat, f: nat)
    requires id in s.db.resources && s.db.resources[id].source.None? && id in n.db.resources
    requires n.db.resources[id].source.None?
    requires (id, f) in n.written <==> (id, f) in s.written
    requires (id, f) in s.written ==> n.written[(id, f)] == s.written[(id, f)]
    ensures EffectiveText(n, id, f) == EffectiveText(s, id, f)
  {
  }

  lemma NoTextsYet(c: Cryptor, s: State, id: nat)
    requires Inv(c, s) && id !in s.used
    ensures forall f :: (id, f) !in s.written
  {
    hide Faithful;
    hide Links;
    hide UniqueKeys;
    forall slot | slot in s.db.values ensures slot.0 != id {
      assert Placed(s.db, slot);
    }
  }

  lemma ProvisionedRow(c: Cryptor, db: Db, input: Input, id: nat, after: Db)
    requires ProvisionedTo(c, db, input, id, after)
    ensures id in after.resources && after.resources[id].source == input.source
    ensures forall r :: r in db.resources && r != id ==> r in after.resources && after.resources[r] == db.resources[r]
    ensures SourceAllowed(db, input, after.resources[id].definition)
  {
    hide FieldStored;
  }

  /** A creation adds exactly the given texts, at the new resource. */
  lemma CreatedTexts(fields: map<nat, Field>, definition: nat, id: nat, values: map<string, string>,
      written: map<Slot, string>)
    requires forall f :: (id, f) !in written
    ensures var after := written + TextsGiven(fields, definition, id, values);
      && (forall f :: (id, f) in after <==>
           f in fields && fields[f].definition == definition && fields[f].key in values)
      && (forall f :: (id, f) in after ==> after[(id, f)] == values[fields[f].key])
      && (forall slot: Slot :: slot.0 != id && slot in after ==> slot in written && after[slot] == written[slot])
      && (forall slot: Slot :: slot.0 != id && slot in written ==> slot in after)
  {
  }

  // ----- Duplicates -----

  /** The texts a duplicate is given: those of the original that are not empty. */
  lemma {:induction false} NonEmptyTexts(shown: seq<FieldValue>, k: nat)
    requires k < |shown| && forall i, j :: 0 <= i < j < |shown| ==> shown[i].field.key != shown[j].field.key
    ensures shown[k].field.key in NonEmpty(shown) <==> shown[k].value != ""
    ensures shown[k].value != "" ==> NonEmpty(shown)[shown[k].field.key] == shown[k].value
    decreases |shown|
  {
    var n := |shown| - 1;
    if k < n {
      NonEmptyTexts(shown[..n], k);
    } else {
      OtherKeys(shown[..n], shown[n].field.key);
    }
  }

  lemma {:induction false} OtherKeys(shown: seq<FieldValue>, key: string)
    requires forall i :: 0 <= i < |shown| ==> shown[i].field.key != key
    ensures key !in NonEmpty(shown)
    decreases |shown|
  {
    if shown != [] {
      OtherKeys(shown[..|shown| - 1], key);
    }
  }

  lemma DistinctKeys(db: Db, definition: nat, list: seq<nat>, i: nat, j: nat)
    requires UniqueKeys(db) && list == ListFields(db, definition) && i < j < |list|
    ensures list[i] in db.fields && list[j] in db.fields && db.fields[list[i]].key != db.fields[list[j]].key
  {
    ListedFields(db, definition);
    hide ListFields;
    assert list[i] in list && list[j] in list;
    assert !SameKey(db.fields[list[i]], db.fields[list[j]]);
  }

  /** In a reachable state a duplicate of a known resource provisions, under the same
      definition and without a source, exactly its non-empty effective texts. */
  lemma DuplicateReads(c: Cryptor, s: State, tenant: nat, original: nat, alias: string)
    requires Inv(c, s) && OwnResource(s.db, tenant, original).Some?
    ensures GetHeader(s.db, original).Some?
    ensures var input, r, header := DuplicateInput(c, s.db, tenant, original, alias), s.db.resources[original],
        GetHeader(s.db, original).value;
      && header.id == original && header.resource == r
      && (forall f :: f in ListFields(s.db, r.definition) <==> f in FieldIds(s.db, r.definition))
      && input.Some? && input.value.source.None? && input.value.tenant == tenant
      && DefinitionByKey(s.db, input.value.definitionKey) == Some(r.definition)
      && input.value.values == NonEmpty(TextsShown(s, header, ListFields(s.db, r.definition)))
  {
    ResourcesHaveHeaders(s.db, original);
    var header := GetHeader(s.db, original).value;
    BuilderShowsLastWrites(c, s, header);
    DefinitionOfKey(s.db, header.resource.definition);
    hide Inv;
    hide ListFields;
    hide GetHeader;
    hide DefinitionByKey;
    hide Effective;
    hide NonEmpty;
    hide TextsShown;
  }

  lemma NonEmptyTakesTexts(s: State, header: Header, list: seq<nat>)
    requires UniqueKeys(s.db) && forall f :: f in list <==> f in FieldIds(s.db, header.resource.definition)
    requires list == ListFields(s.db, header.resource.definition)
    ensures forall f :: f in list ==> TakesText(s, header.id, f, NonEmpty(TextsShown(s, header, list)))
  {
    var shown := TextsShown(s, header, list);
    forall i, j | 0 <= i < j < |shown| ensures shown[i].field.key != shown[j].field.key {
      DistinctKeys(s.db, header.resource.definition, list, i, j);
    }
    hide ListFields;
    hide NonEmpty;
    hide UniqueKeys;
    hide EffectiveText;
    forall f | f in list ensures TakesText(s, header.id, f, NonEmpty(shown)) {
      var k :| 0 <= k < |list| && list[k] == f;
      NonEmptyTexts(shown, k);
    }
  }

  lemma DuplicateTakesTheTexts(c: Cryptor, s: State, tenant: nat, original: nat, alias: string)
    requires Inv(c, s) && OwnResource(s.db, tenant, original).Some?
    ensures var input, r := DuplicateInput(c, s.db, tenant, original, alias), s.db.resources[original];
      && input.Some? && input.value.source.None? && input.value.tenant == tenant
      && DefinitionByKey(s.db, input.value.definitionKey) == Some(r.definition)
      && forall f :: f in FieldIds(s.db, r.definition) ==> TakesText(s, original, f, input.value.values)
  {
    assert UniqueKeys(s.db);
    hide Inv;
    hide UniqueKeys;
    hide ListFields;
    hide DuplicateInput;
    hide DefinitionByKey;
    hide NonEmpty;
    hide TextsShown;
    hide TakesText;
    hide GetHeader;
    DuplicateReads(c, s, tenant, original, alias);
    NonEmptyTakesTexts(s, GetHeader(s.db, original).value, ListFields(s.db, s.db.resources[original].definition));
  }

  predicate TakesText(s: State, original: nat, f: nat, values: map<string, string>) {
    f in s.db.fields && var key, text := s.db.fields[f].key, EffectiveText(s, original, f);
    (key in values <==> text != "") && (text != "" ==> values[key] == text)
  }

  lemma DefinitionOfKey(db: Db, d: nat)
    requires UniqueKeys(db) && d in db.definitions
    ensures DefinitionByKey(db, db.definitions[d].key) == Some(d)
  {
    var ids := DefinitionsWithKey(db, db.definitions[d].key);
    assert d in ids;
    assert Sql.Ascending(ids)[0] in ids;
  }

  /** A successful duplicate is unlinked and reads like the original in every field. */
  lemma DuplicateIsSnapshot(c: Cryptor, s: State, step: Step)
    requires Aead.ValidCryptor(c) && Inv(c, s) && step.Duplicate? && Enabled(c, s, step) && Next(c, s, step) != s
    ensures step.original in s.db.resources && s.db.resources[step.original].tenant == step.tenant
    ensures var n, r := Next(c, s, step), s.db.resources[step.original];
      && step.id in n.db.resources && n.db.resources[step.id].source.None?
      && n.db.resources[step.id].tenant == step.tenant && n.db.resources[step.id].definition == r.definition
      && forall f :: f in FieldIds(s.db, r.definition) ==>
           EffectiveText(n, step.id, f) == EffectiveText(s, step.original, f)
  {
    var input := DuplicateInput(c, s.db, step.tenant, step.original, step.alias);
    DuplicateTakesTheTexts(c, s, step.tenant, step.original, step.alias);
    hide DuplicateInput;
    var definition := s.db.resources[step.original].definition;
    var r := Provisioned(At(c, step.version), s.db, input.value, step.id, step.randoms, step.now);
    ProvisionStores(c, step.version, s.db, input.value, step.id, step.randoms, step.now);
    ProvisionedParts(At(c, step.version), s.db, input.value, step.id, step.randoms, step.now);
    CheckedInput(s.db, input.value, step.now);
    hide Provisioned;
    hide CheckInput;
    hide Inv;
    hide EffectiveText;
    hide ProvisionedTo;
    forall f | f in FieldIds(s.db, definition)
      ensures EffectiveText(Next(c, s, step), step.id, f) == EffectiveText(s, step.original, f)
    {
      CreatedReadsItsInput(c, s, input.value, step.id, step.now, r, f);
      assert TakesText(s, step.original, f, input.value.values);
    }
  }

  /** Validity is never what a duplicate fails on: its texts were validated when they
      were stored. Required fields fail it exactly when one of them reads as empty. */
  lemma DuplicateFieldErrorIff(c: Cryptor, s: State, tenant: nat, original: nat, alias: string)
    requires Inv(c, s) && OwnResource(s.db, tenant, original).Some?
    ensures var input, definition := DuplicateInput(c, s.db, tenant, original, alias),
      s.db.resources[original].definition;
      && input.Some? && (forall f :: f in ListFields(s.db, definition) ==> f in s.db.fields)
      && var wrong := FieldErrors(s.db.fields, ListFields(s.db, definition), input.value.values, {});
         && (wrong.Some? ==> wrong.value.MissingRequired?)
         && (wrong.Some? <==> exists f ::
               f in FieldIds(s.db, definition) && s.db.fields[f].required && EffectiveText(s, original, f) == "")
  {
    DuplicateTakesTheTexts(c, s, tenant, original, alias);
    var input, definition := DuplicateInput(c, s.db, tenant, original, alias).value,
      s.db.resources[original].definition;
    ListedFields(s.db, definition);
    hide ListFields;
    hide DuplicateInput;
    hide ValidResourceValue;
    forall f | f in FieldIds(s.db, definition)
      ensures FieldError(s.db.fields[f], f, input.values, {}) ==
        if s.db.fields[f].required && EffectiveText(s, original, f) == ""
        then Some(MissingRequired(s.db.fields[f].key)) else None
    {
      assert TakesText(s, original, f, input.values);
      StoredTextIsValid(c, s, original, f);
    }
    FieldErrorsIff(s.db.fields, ListFields(s.db, definition), input.values, {});
  }

  lemma StoredTextIsValid(c: Cryptor, s: State, resource: nat, f: nat)
    requires Texts(c, s) && f in s.db.fields
    ensures ValidResourceValue(s.db.fields[f].dataType, EffectiveText(s, resource, f))
  {
    forall slot | slot in s.written ensures Faithful(c, s.db.fields, slot, s.db.values[slot], s.written[slot]) {
    }
  }

  lemma {:induction false} FieldErrorsIff(fields: map<nat, Field>, list: seq<nat>, values: map<string, string>,
      provided: set<nat>)
    requires forall f :: f in list ==> f in fields
    ensures var wrong := FieldErrors(fields, list, values, provided);
      && (wrong.Some? <==> exists f :: f in list && FieldError(fields[f], f, values, provided).Some?)
      && (wrong.Some? ==> exists f :: f in list && FieldError(fields[f], f, values, provided) == wrong)
    decreases |list|
  {
    hide FieldError;
    if list != [] {
      assert list[0] in list;
      assert forall f :: f in list <==> f == list[0] || f in list[1..];
      FieldErrorsIff(fields, list[1..], values, provided);
    }
  }

  // ----- Independence -----

  /** The step is an edit of the values of this very resource. */
  predicate Edits(step: Step, resource: nat) {
    (step.SetValue? || step.ClearOverride? || step.Delete?) && step.resource == resource
  }

  /** An unlinked resource reads the same whatever happens to any other, its original
      and its original's source included. */
  lemma UnlinkedIsIndependent(c: Cryptor, s: State, step: Step, id: nat, f: nat)
    requires Aead.ValidCryptor(c) && Inv(c, s) && Enabled(c, s, step) && !Edits(step, id)
    requires id in s.db.resources && s.db.resources[id].source.None?
    ensures id in Next(c, s, step).db.resources && Next(c, s, step).db.resources[id].source.None?
    ensures EffectiveText(Next(c, s, step), id, f) == EffectiveText(s, id, f)
  {
    hide Inv;
    hide Provisioned;
    hide FieldUpdated;
    hide OverrideCleared;
    if step.Provision? {
      CreationLeavesOthers(c, s, step.input, step.id, step.version, step.randoms, step.now, id, f);
    } else if step.Duplicate? {
      var input := DuplicateInput(c, s.db, step.tenant, step.original, step.alias);
      if input.Some? {
        CreationLeavesOthers(c, s, input.value, step.id, step.version, step.randoms, step.now, id, f);
      }
    } else if step.SetValue? || step.ClearOverride? || step.Delete? {
      EditLeavesOthers(c, s, step, id, f);
    } else {
      OtherStepsKeepTexts(c, s, step, id);
      hide Next;
    }
  }

  lemma EditLeavesOthers(c: Cryptor, s: State, step: Step, id: nat, f: nat)
    requires Aead.ValidCryptor(c) && Enabled(c, s, step) && !Edits(step, id)
    requires step.SetValue? || step.ClearOverride? || step.Delete?
    requires id in s.db.resources && s.db.resources[id].source.None?
    ensures id in Next(c, s, step).db.resources && Next(c, s, step).db.resources[id].source.None?
    ensures EffectiveText(Next(c, s, step), id, f) == EffectiveText(s, id, f)
  {
    if Next(c, s, step) != s && step.SetValue? {
      SetValueEffect(c, s, step);
      hide Next;
    } else if Next(c, s, step) != s && step.ClearOverride? {
      ClearEffect(c, s, step);
      hide Next;
    }
  }

  lemma OtherStepsKeepTexts(c: Cryptor, s: State, step: Step, id: nat)
    requires Aead.ValidCryptor(c) && Enabled(c, s, step) && id in s.db.resources
    requires !step.Provision? && !step.Duplicate? && !step.SetValue? && !step.ClearOverride? && !step.Delete?
    ensures var n := Next(c, s, step);
      n.written == s.written && id in n.db.resources && n.db.resources[id].source == s.db.resources[id].source
  {
  }

  lemma CreationLeavesOthers(c: Cryptor, s: State, input: Input, created: nat, version: int,
      randoms: seq<Aead.Nonce>, now: int, id: nat, f: nat)
    requires Inv(c, s) && created !in s.used && version in c.keys && id in s.db.resources
    requires s.db.resources[id].source.None?
    ensures var n := AfterProvision(s, input, created, now,
      Provisioned(At(c, version), s.db, input, created, randoms, now));
      id in n.db.resources && n.db.resources[id].source.None? && EffectiveText(n, id, f) == EffectiveText(s, id, f)
  {
    assert id != created;
    var r := Provisioned(At(c, version), s.db, input, created, randoms, now);
    if r.Ok? {
      ProvisionStores(c, version, s.db, input, created, randoms, now);
      hide Provisioned;
      NoTextsYet(c, s, created);
      AfterCreation(c, s, input, created, now, r);
      hide Inv;
      hide ProvisionedTo;
      hide Created;
      var n := AfterProvision(s, input, created, now, r);
      OtherTextStays(s, n, created, input, id, f);
    }
  }

  /** From the moment it exists until it is edited itself, a duplicate reads the same. */
  lemma {:induction false} DuplicateStaysTheSame(c: Cryptor, states: seq<State>, steps: seq<Step>, i: nat, j: nat,
      id: nat, f: nat)
    requires Aead.ValidCryptor(c) && Execution(c, states, steps) && i <= j < |states|
    requires id in states[i].db.resources && states[i].db.resources[id].source.None?
    requires forall k :: i <= k < j ==> !Edits(steps[k], id)
    ensures id in states[j].db.resources && states[j].db.resources[id].source.None?
    ensures EffectiveText(states[j], id, f) == EffectiveText(states[i], id, f)
    decreases j
  {
    hide Next;
    hide Enabled;
    hide EffectiveText;
    if i < j {
      DuplicateStaysTheSame(c, states, steps, i, j - 1, id, f);
      EveryRunKeepsInv(c, states, steps, j - 1);
      hide Inv;
      UnlinkedIsIndependent(c, states[j - 1], steps[j - 1], id, f);
    }
  }
}
