/** A run from the empty tables that shows two findings: a required field that reads as
    empty, and a 304 that keeps a stale body. One tenant gets a definition with one
    required field, a source resource, a linked copy with its own text, and then the
    override of the copy is cleared. */
module ResourceWitness {
  import opened Wrappers
  import Sql
  import Sorting
  import Text
  import Aead
  import opened Values
  import opened Resources
  import opened Provisioning
  import opened ResourceRuns
  import opened ResourceValues
  import opened Hashing
  import opened Etag
  import opened Resolve
  import opened NotModifiedAnswers

  const FIELD: Field := Field(2, "a", "", "string", true, false, 0)

  function Plainly(text: string): StoredValue { StoredValue(Some(text), None, None, None) }

  function SourceInput(): Input { Input("", "src", "k", None, 1, map["a" := "x"]) }

  function CopyInput(text: string): Input { Input("", "dst", "k", Some(4), 1, map["a" := text]) }

  const SOURCE: Resource := Resource(1, 2, "src", "src", true, None, 4, 4)
  const COPY: Resource := Resource(1, 2, "dst", "dst", true, Some(4), 5, 5)

  function Catalog(definitions: map<nat, Definition>, fields: map<nat, Field>, used: set<nat>): State {
    State(Db(map[1 := Tenant("t", true, 1)], definitions, fields, map[], map[]), map[], used)
  }

  function Stored(texts: map<Slot, string>): map<Slot, StoredValue> {
    map slot | slot in texts :: Plainly(texts[slot])
  }

  function Filled(resources: map<nat, Resource>, texts: map<Slot, string>, used: set<nat>): State {
    State(Db(map[1 := Tenant("t", true, 1)], map[2 := Definition("k", true, 3)], map[3 := FIELD], resources,
      Stored(texts)), texts, used)
  }

  function StateAt(text: string, n: nat): State {
    if n == 0 then EMPTY
    else if n == 1 then Catalog(map[], map[], {1})
    else if n == 2 then Catalog(map[2 := Definition("k", true, 2)], map[], {1, 2})
    else if n == 3 then Catalog(map[2 := Definition("k", true, 3)], map[3 := FIELD], {1, 2, 3})
    else if n == 4 then Filled(map[4 := SOURCE], map[(4, 3) := "x"], {1, 2, 3, 4})
    else if n == 5 then Filled(map[4 := SOURCE, 5 := COPY], map[(4, 3) := "x", (5, 3) := text], {1, 2, 3, 4, 5})
    else Filled(map[4 := SOURCE, 5 := COPY], map[(4, 3) := "x"], {1, 2, 3, 4, 5})
  }

  function StepAt(c: Cryptor, text: string, n: nat): Step {
    if n == 0 then CreateTenant(1, "t", 1)
    else if n == 1 then CreateDefinition(2, "k", 2)
    else if n == 2 then AddField(3, FIELD, 3)
    else if n == 3 then Provision(SourceInput(), 4, c.current, [], 4)
    else if n == 4 then Provision(CopyInput(text), 5, c.current, [], 5)
    else ClearOverride(1, 5, "a")
  }

  // ----- Computing with one definition and one field -----

  lemma {:induction false} Power16IsPositive(width: nat)
    ensures Text.Power16(width) >= 1
  {
    if width > 0 {
      Power16IsPositive(width - 1);
    }
  }

  lemma SmallIsUuid(n: nat)
    requires n < 16
    ensures Text.IsUuid(n)
  {
    Power16IsPositive(31);
    assert Text.Power16(32) == 16 * Text.Power16(31);
  }

  lemma AscendingOne(x: nat)
    ensures Sql.Ascending({x}) == [x]
  {
    var s := Sql.Ascending({x});
    assert |s| == 1;
    assert s[0] in s;
  }

  lemma OneDefinition(db: Db)
    requires db.definitions.Keys == {2} && db.definitions[2].key == "k"
    ensures DefinitionByKey(db, "k") == Some(2)
  {
    assert DefinitionsWithKey(db, "k") == {2};
    AscendingOne(2);
  }

  lemma OneField(db: Db)
    requires db.fields == map[3 := FIELD]
    ensures ListFields(db, 2) == [3] && FieldIds(db, 2) == {3}
  {
    assert FieldIds(db, 2) == {3};
    AscendingOne(3);
    assert [3][1..] == [];
  }

  lemma TrimmedAlias(alias: string)
    requires alias == "src" || alias == "dst"
    ensures NormalizeResourceIdentity("", alias) == Ok(("", alias)) && ValidAlias(alias)
  {
    Text.TrimmedStays(alias);
    Text.TrimmedStays("");
  }

  lemma OneFieldError(text: string, provided: set<nat>)
    requires text != "" || 3 in provided
    ensures FieldErrors(map[3 := FIELD], [3], map["a" := text], provided).None?
  {
    assert FieldErrors(map[3 := FIELD], [3][1..], map["a" := text], provided).None?;
  }

  lemma OneFieldStored(c: Cryptor, text: string, id: nat, table: map<Slot, StoredValue>)
    requires Aead.ValidCryptor(c)
    ensures StoreFields(c, map[3 := FIELD], [3], id, map["a" := text], table, []) == Ok(table[(id, 3) := Plainly(text)])
  {
    assert [3][1..] == [];
  }

  predicate ReadyFor(db: Db, input: Input, text: string) {
    && db.definitions == map[2 := Definition("k", true, 3)] && db.fields == map[3 := FIELD] && 1 in db.tenants
    && input.name == "" && (input.alias == "src" || input.alias == "dst") && input.definitionKey == "k"
    && input.tenant == 1 && input.values == map["a" := text]
    && SourceAllowed(db, input, 2) && !AliasTaken(db, 1, input.alias)
    && (text != "" || 3 in ProvidedTo(db, input))
  }

  lemma ProvisionWorks(c: Cryptor, db: Db, input: Input, text: string, id: nat, now: int)
    requires Aead.ValidCryptor(c) && ReadyFor(db, input, text)
    ensures Provisioned(c, db, input, id, [], now) ==
      Ok(db.(resources := db.resources[id := Resource(1, 2, input.alias, input.alias, true, input.source, now, now)],
             values := db.values[(id, 3) := Plainly(text)]))
  {
    OneDefinition(db);
    OneField(db);
    TrimmedAlias(input.alias);
    OneFieldError(text, ProvidedTo(db, input));
    OneFieldStored(c, text, id, db.values);
    hide DefinitionByKey;
    hide ListFields;
    hide NormalizeResourceIdentity;
    hide ValidAlias;
    hide FieldErrors;
    hide StoreFields;
    hide ProvidedTo;
    hide SourceAllowed;
    hide AliasTaken;
    assert CheckInput(db, input, now) == Ok(Resource(1, 2, input.alias, input.alias, true, input.source, now, now));
  }

  // ----- The run -----

  lemma TenantCreated(c: Cryptor, text: string)
    requires Aead.ValidCryptor(c)
    ensures Enabled(c, StateAt(text, 0), StepAt(c, text, 0))
    ensures Next(c, StateAt(text, 0), StepAt(c, text, 0)) == StateAt(text, 1)
  {
    SmallIsUuid(1);
    hide Text.IsUuid;
    assert ValidSlug("t");
    hide ValidSlug;
  }

  lemma DefinitionCreated(c: Cryptor, text: string)
    requires Aead.ValidCryptor(c)
    ensures Enabled(c, StateAt(text, 1), StepAt(c, text, 1))
    ensures Next(c, StateAt(text, 1), StepAt(c, text, 1)) == StateAt(text, 2)
  {
    SmallIsUuid(2);
    hide Text.IsUuid;
    assert ValidKey("k");
    hide ValidKey;
    var db := StateAt(text, 1).db;
    assert DefinitionByKey(db, "k").None? by {
      assert DefinitionsWithKey(db, "k") == {};
      assert Sql.Ascending({}) == [];
    }
    hide DefinitionByKey;
    assert {1} + {2} == {1, 2};
  }

  lemma FieldAdded(c: Cryptor, text: string)
    requires Aead.ValidCryptor(c)
    ensures Enabled(c, StateAt(text, 2), StepAt(c, text, 2))
    ensures Next(c, StateAt(text, 2), StepAt(c, text, 2)) == StateAt(text, 3)
  {
    SmallIsUuid(3);
    hide Text.IsUuid;
    assert ValidKey("a");
    hide ValidKey;
    assert !KeyTaken(StateAt(text, 2).db, 2, "a");
    hide KeyTaken;
    assert {1, 2} + {3} == {1, 2, 3};
  }

  lemma OneTextGiven(id: nat, text: string)
    ensures TextsGiven(map[3 := FIELD], 2, id, map["a" := text]) == map[(id, 3) := text]
  {
  }

  lemma AfterOne(s: State, input: Input, text: string, id: nat, now: int, r: Resource, after: Db)
    requires s.db.fields == map[3 := FIELD] && input.values == map["a" := text]
    requires id in after.resources && after.resources[id] == r && r.definition == 2
    ensures AfterProvision(s, input, id, now, Ok(after)) == State(after, s.written[(id, 3) := text], s.used + {id})
  {
    OneTextGiven(id, text);
    hide TextsGiven;
    assert s.written + map[(id, 3) := text] == s.written[(id, 3) := text];
  }

  lemma NextProvides(c: Cryptor, s: State, input: Input, id: nat, now: int)
    requires Aead.ValidCryptor(c) && Enabled(c, s, Provision(input, id, c.current, [], now))
    ensures Next(c, s, Provision(input, id, c.current, [], now)) ==
      AfterProvision(s, input, id, now, Provisioned(c, s.db, input, id, [], now))
  {
    assert At(c, c.current) == c;
    hide Provisioned;
    hide AfterProvision;
  }

  /** Providing one resource with one text. */
  lemma ProvisionStep(c: Cryptor, s: State, input: Input, text: string, id: nat, now: int)
    requires Aead.ValidCryptor(c) && ReadyFor(s.db, input, text) && FreshId(s, id)
    ensures Enabled(c, s, Provision(input, id, c.current, [], now))
    ensures Next(c, s, Provision(input, id, c.current, [], now)) ==
      State(s.db.(resources :=
                    s.db.resources[id := Resource(1, 2, input.alias, input.alias, true, input.source, now, now)],
                  values := s.db.values[(id, 3) := Plainly(text)]),
            s.written[(id, 3) := text], s.used + {id})
  {
    hide Provisioned;
    hide Next;
    hide AfterProvision;
    hide SourceAllowed;
    hide AliasTaken;
    hide ProvidedTo;
    ProvisionWorks(c, s.db, input, text, id, now);
    NextProvides(c, s, input, id, now);
    var r := Resource(1, 2, input.alias, input.alias, true, input.source, now, now);
    AfterOne(s, input, text, id, now, r,
      s.db.(resources := s.db.resources[id := r], values := s.db.values[(id, 3) := Plainly(text)]));
  }

  lemma StoredOneMore(texts: map<Slot, string>, slot: Slot, text: string)
    ensures Stored(texts[slot := text]) == Stored(texts)[slot := Plainly(text)]
    ensures Stored(texts - {slot}) == Stored(texts) - {slot}
  {
  }

  lemma SourceStep(c: Cryptor, text: string)
    requires Aead.ValidCryptor(c)
    ensures Enabled(c, StateAt(text, 3), StepAt(c, text, 3))
    ensures Next(c, StateAt(text, 3), StepAt(c, text, 3)) == StateAt(text, 4)
  {
    SmallIsUuid(4);
    var s := StateAt(text, 3);
    assert ReadyFor(s.db, SourceInput(), "x");
    hide ReadyFor;
    hide Next;
    hide Enabled;
    ProvisionStep(c, s, SourceInput(), "x", 4, 4);
    StoredOneMore(map[], (4, 3), "x");
    hide Stored;
    assert Stored(map[]) == map[] by {
      StoredNothing();
    }
    assert {1, 2, 3} + {4} == {1, 2, 3, 4};
  }

  lemma StoredNothing()
    ensures Stored(map[]) == map[]
  {
  }

  lemma CopyIsReady(text: string)
    ensures ReadyFor(StateAt(text, 4).db, CopyInput(text), text) && FreshId(StateAt(text, 4), 5)
  {
    SmallIsUuid(5);
    var s := StateAt(text, 4);
    var texts := map[(4, 3) := "x"];
    assert (4, 3) in texts;
    assert (4, 3) in s.db.values;
    assert 3 in ProvidedBy(s.db, 4);
    assert SOURCE.alias != "dst";
  }

  lemma CopyStep(c: Cryptor, text: string)
    requires Aead.ValidCryptor(c)
    ensures Enabled(c, StateAt(text, 4), StepAt(c, text, 4))
    ensures Next(c, StateAt(text, 4), StepAt(c, text, 4)) == StateAt(text, 5)
  {
    CopyIsReady(text);
    hide ReadyFor;
    hide FreshId;
    hide Next;
    hide Enabled;
    hide Stored;
    ProvisionStep(c, StateAt(text, 4), CopyInput(text), text, 5, 5);
    StoredOneMore(map[(4, 3) := "x"], (5, 3), text);
    assert {1, 2, 3, 4} + {5} == {1, 2, 3, 4, 5};
    assert (map[4 := SOURCE])[5 := COPY] == map[4 := SOURCE, 5 := COPY];
    assert (map[(4, 3) := "x"])[(5, 3) := text] == map[(4, 3) := "x", (5, 3) := text];
  }

  lemma ClearStep(c: Cryptor, text: string)
    requires Aead.ValidCryptor(c)
    ensures Enabled(c, StateAt(text, 5), StepAt(c, text, 5))
    ensures Next(c, StateAt(text, 5), StepAt(c, text, 5)) == StateAt(text, 6)
    ensures SilentFor(StateAt(text, 5), StepAt(c, text, 5), 5) <==> text != "x"
  {
    var texts := map[(4, 3) := "x", (5, 3) := text];
    var s := Filled(map[4 := SOURCE, 5 := COPY], texts, {1, 2, 3, 4, 5});
    OneField(s.db);
    assert FieldByKey(s.db.fields, [3], "a") == Some(3);
    hide ListFields;
    hide FieldByKey;
    assert (4, 3) in texts && (5, 3) in texts;
    assert texts - {(5, 3)} == map[(4, 3) := "x"];
    StoredOneMore(texts, (5, 3), text);
    assert SlotField(s.db, 5, "a") == 3;
    ClearAt(c, s);
    hide Next;
    hide SlotField;
    assert s.db.resources[5].source == Some(4);
  }

  lemma ClearAt(c: Cryptor, s: State)
    requires Aead.ValidCryptor(c) && 5 in s.db.resources && s.db.resources[5] == COPY
    requires ListFields(s.db, 2) == [3] && s.db.fields == map[3 := FIELD] && (4, 3) in s.db.values
    ensures OverrideCleared(s.db, 1, 5, "a") == Ok(s.db.(values := s.db.values - {(5, 3)}))
    ensures Next(c, s, ClearOverride(1, 5, "a")) ==
      s.(db := s.db.(values := s.db.values - {(5, 3)}), written := s.written - {(5, 3)})
  {
    assert FieldByKey(s.db.fields, [3], "a") == Some(3);
    hide ListFields;
    hide FieldByKey;
  }

  function States(text: string): seq<State> { seq(7, n requires 0 <= n < 7 => StateAt(text, n)) }

  function Steps(c: Cryptor, text: string): seq<Step> { seq(6, n requires 0 <= n < 6 => StepAt(c, text, n)) }

  lemma StampsSoFar(text: string, j: nat)
    requires j < 7
    ensures forall r :: r in StateAt(text, j).db.resources ==> StateAt(text, j).db.resources[r].updatedAt <= j
    ensures forall d :: d in StateAt(text, j).db.definitions ==> StateAt(text, j).db.definitions[d].updatedAt <= j
    ensures forall t :: t in StateAt(text, j).db.tenants ==> StateAt(text, j).db.tenants[t].updatedAt <= j
  {
  }

  lemma LaterStampIsNew(c: Cryptor, text: string, j: nat, k: nat)
    requires j <= k < 6
    ensures NewStamp(StateAt(text, j).db, StepAt(c, text, k))
  {
    StampsSoFar(text, j);
    hide StateAt;
  }

  /** The run is one of the machine, with a new stamp for every touch. */
  lemma ItIsARun(c: Cryptor, text: string)
    requires Aead.ValidCryptor(c)
    ensures Run(c, States(text), Steps(c, text))
  {
    var states, steps := States(text), Steps(c, text);
    forall i | 0 <= i < 6 ensures Enabled(c, states[i], steps[i]) && states[i + 1] == Next(c, states[i], steps[i]) {
      if i == 0 {
        TenantCreated(c, text);
      } else if i == 1 {
        DefinitionCreated(c, text);
      } else if i == 2 {
        FieldAdded(c, text);
      } else if i == 3 {
        SourceStep(c, text);
      } else if i == 4 {
        CopyStep(c, text);
      } else {
        ClearStep(c, text);
      }
    }
    forall j, k | 0 <= j <= k < 6 ensures NewStamp(states[j].db, steps[k]) {
      LaterStampIsNew(c, text, j, k);
    }
    hide Enabled;
    hide Next;
    hide NewStamp;
    hide StateAt;
    hide StepAt;
    assert states[0] == EMPTY by {
      assert StateAt(text, 0) == EMPTY;
    }
  }

  /** With the empty text for the copy, the run reaches a state where a required field of
      an active resource reads as empty, although its source has a text. */
  lemma RequiredFieldReadsEmpty(c: Cryptor)
    requires Aead.ValidCryptor(c)
    ensures var states := States("");
      && Run(c, states, Steps(c, "")) && states[5].db.fields[3].required && states[5].db.resources[5].active
      && states[5].db.fields[3].definition == states[5].db.resources[5].definition
      && EffectiveText(states[5], 4, 3) == "x" && EffectiveText(states[5], 5, 3) == ""
  {
    ItIsARun(c, "");
    hide Run;
  }

  // ----- What a consumer is answered -----

  const SOURCE_HEADER: Header := Header(4, SOURCE, "k", 3, 0)
  const COPY_HEADER: Header := Header(5, COPY, "k", 3, 4)

  lemma OrderOfTwo(key: map<nat, int>)
    requires key == map[4 := 4, 5 := 5]
    ensures Sql.OrderBy(key) == [4, 5]
  {
    var ids := Sql.OrderBy(key);
    Sql.OrderByIsOrdered(key);
    assert |key| == 2 by {
      assert key.Keys == {4, 5};
    }
    assert ids[0] in key && ids[1] in key && Sql.Before(key, ids[0], ids[1]);
  }

  lemma HeadersOfTwo(db: Db, g: Header, h: Header)
    requires GetHeader(db, 4) == Some(g) && GetHeader(db, 5) == Some(h)
    ensures HeadersOf(db, [4, 5]) == [g, h]
  {
    hide GetHeader;
    assert [4, 5][1..] == [5] && [5][1..] == [];
    assert HeadersOf(db, [5]) == [h];
  }

  lemma TwoHeaders(db: Db)
    requires db.resources == map[4 := SOURCE, 5 := COPY] && db.definitions == map[2 := Definition("k", true, 3)]
    ensures GetHeader(db, 4) == Some(SOURCE_HEADER) && GetHeader(db, 5) == Some(COPY_HEADER)
    ensures ActiveResources(db, 1) == map[4 := 4, 5 := 5]
  {
  }

  lemma TwoListed(db: Db)
    requires db.resources == map[4 := SOURCE, 5 := COPY] && db.definitions == map[2 := Definition("k", true, 3)]
    ensures ListHeaders(db, 1) == [SOURCE_HEADER, COPY_HEADER]
  {
    TwoHeaders(db);
    hide GetHeader;
    hide ActiveResources;
    hide HeadersOf;
    OrderOfTwo(ActiveResources(db, 1));
    HeadersOfTwo(db, SOURCE_HEADER, COPY_HEADER);
  }

  lemma OneText(s: State, r: nat)
    requires UniqueKeys(s.db) && s.db.fields == map[3 := FIELD]
    ensures TextMap(s, r, 2) == map["a" := EffectiveText(s, r, 3)]
  {
    TextMapIs(s, r, 2);
    assert 3 in FieldIds(s.db, 2);
    hide EffectiveText;
    hide TextMap;
    hide UniqueKeys;
  }

  function BodyWith(text: string): ResolvedTenant {
    ResolvedTenant("t", [ResolvedResource("src", "k", map["a" := "x"]), ResolvedResource("dst", "k", map["a" := text])])
  }

  lemma ResolvedOneMore(c: Cryptor, db: Db, headers: seq<Header>, h: Header)
    requires ResolvedAll(c, db, headers).Ok? && Effective(c, db, h, true).Ok?
    ensures ResolvedAll(c, db, headers + [h]) ==
      Ok(ResolvedAll(c, db, headers).value + [ResolvedOne(h, Effective(c, db, h, true).value)])
  {
    hide Effective;
    hide ResolvedOne;
    assert (headers + [h])[..|headers|] == headers;
  }

  lemma ResolvedTwo(c: Cryptor, db: Db, g: Header, h: Header)
    requires Effective(c, db, g, true).Ok? && Effective(c, db, h, true).Ok?
    ensures ResolvedAll(c, db, [g, h]) ==
      Ok([ResolvedOne(g, Effective(c, db, g, true).value), ResolvedOne(h, Effective(c, db, h, true).value)])
  {
    assert ResolvedAll(c, db, []) == Ok([]);
    hide *;
    var none: seq<Header>, x, y := [], ResolvedOne(g, Effective(c, db, g, true).value),
      ResolvedOne(h, Effective(c, db, h, true).value);
    ResolvedOneMore(c, db, none, g);
    assert none + [g] == [g] && [g] + [h] == [g, h];
    assert ResolvedAll(c, db, [g]) == Ok([x]) by {
      assert [] + [x] == [x];
    }
    ResolvedOneMore(c, db, [g], h);
    assert [x] + [y] == [x, y];
  }

  lemma HeaderResolves(c: Cryptor, s: State, h: Header, text: string)
    requires Inv(c, s) && s.db.fields == map[3 := FIELD] && GetHeader(s.db, h.id) == Some(h)
    requires h.resource.definition == 2 && EffectiveText(s, h.id, 3) == text
    ensures Effective(c, s.db, h, true).Ok?
    ensures ResolvedOne(h, Effective(c, s.db, h, true).value) ==
      ResolvedResource(h.resource.alias, h.definitionKey, map["a" := text])
  {
    HeaderReads(c, s, h);
    OneText(s, h.id);
    hide Inv;
    hide Effective;
    hide TextMap;
    hide ValuesOf;
    hide EffectiveText;
    hide GetHeader;
  }

  lemma ResolvesTo(c: Cryptor, s: State, text: string)
    requires Inv(c, s) && s.db.fields == map[3 := FIELD]
    requires s.db.resources == map[4 := SOURCE, 5 := COPY] && s.db.definitions == map[2 := Definition("k", true, 3)]
    requires EffectiveText(s, 4, 3) == "x" && EffectiveText(s, 5, 3) == text
    ensures ResolvedAll(c, s.db, [SOURCE_HEADER, COPY_HEADER]) == Ok(BodyWith(text).resources)
  {
    hide Inv;
    hide EffectiveText;
    hide Effective;
    hide ResolvedAll;
    hide ResolvedOne;
    TwoHeaders(s.db);
    hide GetHeader;
    HeaderResolves(c, s, SOURCE_HEADER, "x");
    HeaderResolves(c, s, COPY_HEADER, text);
    ResolvedTwo(c, s.db, SOURCE_HEADER, COPY_HEADER);
  }

  lemma AnsweredWith(c: Cryptor, s: State, text: string, offered: Option<Tag>)
    requires Inv(c, s) && s.db.fields == map[3 := FIELD] && s.db.tenants == map[1 := Tenant("t", true, 1)]
    requires s.db.resources == map[4 := SOURCE, 5 := COPY] && s.db.definitions == map[2 := Definition("k", true, 3)]
    requires EffectiveText(s, 4, 3) == "x" && EffectiveText(s, 5, 3) == text
    ensures var tag := TagOf(s.db, s.db, 1);
      Answer(c, s.db, s.db, s.db, Some(1), offered) ==
        if offered == Some(tag) then NotModified(tag) else Body(tag, BodyWith(text))
  {
    TwoListed(s.db);
    ResolvesTo(c, s, text);
    hide Inv;
    hide ListHeaders;
    hide ResolvedAll;
    hide TagText;
  }

  /** In this run a consumer caches the body while the copy has its own text. Once the
      override is cleared, offering the old tag is answered 304, and so keeps the cached
      body, although a fresh answer has another body under the same tag. */
  lemma StaleBodyIsKept(c: Cryptor, text: string)
    requires Aead.ValidCryptor(c) && text != "x"
    ensures var states := States(text);
      var before, after := states[5].db, states[6].db;
      var tag := TagOf(before, before, 1);
      && Run(c, states, Steps(c, text))
      && Answer(c, before, before, before, Some(1), None) == Body(tag, BodyWith(text))
      && Answer(c, after, after, after, Some(1), Some(tag)) == NotModified(tag)
      && Answer(c, after, after, after, Some(1), None) == Body(tag, BodyWith("x"))
      && BodyWith(text) != BodyWith("x")
  {
    ItIsARun(c, text);
    TextsAtTheEnd(text);
    Cached(c, text);
    Kept(c, text);
    BodiesDiffer(text);
    hide Run;
    hide TagOf;
    hide Answer;
    hide BodyWith;
    hide StateAt;
    assert States(text)[5] == StateAt(text, 5) && States(text)[6] == StateAt(text, 6);
  }

  lemma BodiesDiffer(text: string)
    requires text != "x"
    ensures BodyWith(text) != BodyWith("x")
  {
    assert BodyWith(text).resources[1].values["a"] == text && BodyWith("x").resources[1].values["a"] == "x";
  }

  lemma InvAt(c: Cryptor, text: string, n: nat)
    requires Aead.ValidCryptor(c) && n < 7
    ensures Inv(c, StateAt(text, n))
  {
    ItIsARun(c, text);
    EveryRunKeepsInv(c, States(text), Steps(c, text), n);
    hide Inv;
    hide StateAt;
  }

  lemma Cached(c: Cryptor, text: string)
    requires Aead.ValidCryptor(c)
    ensures var before := StateAt(text, 5).db;
      1 in before.tenants && Answer(c, before, before, before, Some(1), None) ==
        Body(TagOf(before, before, 1), BodyWith(text))
  {
    InvAt(c, text, 5);
    TextsAtTheEnd(text);
    TablesAtTheEnd(text);
    hide StateAt;
    hide Inv;
    hide EffectiveText;
    hide Answer;
    hide TagOf;
    hide BodyWith;
    AnsweredWith(c, StateAt(text, 5), text, None);
  }

  lemma Kept(c: Cryptor, text: string)
    requires Aead.ValidCryptor(c)
    ensures var before, after := StateAt(text, 5).db, StateAt(text, 6).db;
      && 1 in before.tenants && 1 in after.tenants
      && Answer(c, after, after, after, Some(1), Some(TagOf(before, before, 1))) ==
           NotModified(TagOf(before, before, 1))
      && Answer(c, after, after, after, Some(1), None) == Body(TagOf(before, before, 1), BodyWith("x"))
  {
    InvAt(c, text, 6);
    TextsAtTheEnd(text);
    TablesAtTheEnd(text);
    hide StateAt;
    hide Inv;
    hide EffectiveText;
    hide Answer;
    hide TagOf;
    hide BodyWith;
    var before, after := StateAt(text, 5).db, StateAt(text, 6).db;
    ValuesDoNotTag(before, after, 1);
    AnsweredWith(c, StateAt(text, 6), "x", None);
    AnsweredWith(c, StateAt(text, 6), "x", Some(TagOf(before, before, 1)));
  }

  lemma TablesAtTheEnd(text: string)
    ensures forall n :: n == 5 || n == 6 ==>
      var db := StateAt(text, n).db;
      && db.tenants == map[1 := Tenant("t", true, 1)] && db.fields == map[3 := FIELD]
      && db.resources == map[4 := SOURCE, 5 := COPY] && db.definitions == map[2 := Definition("k", true, 3)]
  {
    hide Stored;
  }

  lemma TextsAtTheEnd(text: string)
    ensures EffectiveText(StateAt(text, 5), 4, 3) == "x" && EffectiveText(StateAt(text, 5), 5, 3) == text
    ensures EffectiveText(StateAt(text, 6), 4, 3) == "x" && EffectiveText(StateAt(text, 6), 5, 3) == "x"
    ensures StateAt(text, 6).db == StateAt(text, 5).db.(values := StateAt(text, 6).db.values)
  {
    hide Stored;
  }
}
