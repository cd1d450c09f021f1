/** When a 304 is sound: over every run, a tag that is still current vouches for the
    body that was cached with it, although tag and body are read at different times. */
module NotModifiedAnswers {
  import opened Wrappers
  import Sql
  import Sorting
  import Text
  import Aead
  import opened Values
  import opened Resources
  import opened Provisioning
  import opened ResourceRuns
  import opened ResourceValues
  import opened Etag
  import opened Hashing
  import opened Resolve

  // ----- Stamps -----

  predicate StampsResource(step: Step, id: nat) {
    ((step.SetValue? || step.Identify? || step.SetActive?) && step.resource == id)
    || ((step.Provision? || step.Duplicate?) && step.id == id)
  }

  predicate StampsDefinition(step: Step, id: nat) {
    ((step.CreateDefinition? || step.SetDefinitionActive?) && step.id == id)
    || (step.AddField? && step.added.definition == id)
    || ((step.EditField? || step.RemoveField?) && step.definition == id)
  }

  predicate StampsTenant(step: Step, id: nat) {
    (step.CreateTenant? || step.UpdateTenant?) && step.id == id
  }

  /** The step's stamp differs from those of the rows of `db` it touches. */
  ghost predicate NewStamp(db: Db, step: Step) {
    && (forall r :: r in db.resources && StampsResource(step, r) ==> step.now != db.resources[r].updatedAt)
    && (forall d :: d in db.definitions && StampsDefinition(step, d) ==> step.now != db.definitions[d].updatedAt)
    && (forall t :: t in db.tenants && StampsTenant(step, t) ==> step.now != db.tenants[t].updatedAt)
  }

  /** Every touch writes a stamp never used before on that row. */
  ghost predicate FreshStamps(states: seq<State>, steps: seq<Step>) {
    |states| == |steps| + 1 && forall j, k :: 0 <= j <= k < |steps| ==> NewStamp(states[j].db, steps[k])
  }

  /** Clearing an override touches no stamp; it is silent about a change exactly when
      the text it drops is not the inherited one. */
  predicate SilentChange(s: State, step: Step) {
    step.ClearOverride? && step.resource in s.db.resources
      && OverrideCleared(s.db, step.tenant, step.resource, step.key).Ok?
    && var slot := (step.resource, SlotField(s.db, step.resource, step.key));
       slot in s.written && s.written[slot] != InheritedText(s, s.db.resources[step.resource].source, slot.1)
  }

  /** The silent change is to this resource. */
  predicate SilentFor(s: State, step: Step, r: nat) { SilentChange(s, step) && step.resource == r }

  // ----- One step -----

  /** A resource row that changed was stamped, and none comes back. */
  lemma ResourceStep(c: Cryptor, s: State, step: Step, r: nat)
    requires Aead.ValidCryptor(c) && Enabled(c, s, step) && r in s.used && r in Next(c, s, step).db.resources
    ensures var n := Next(c, s, step);
      r in s.db.resources
      && (n.db.resources[r] == s.db.resources[r]
          || (StampsResource(step, r) && n.db.resources[r].updatedAt == step.now))
  {
    if step.Provision? {
      OnlyAdds(c, s, step.input, step.id, step.version, step.randoms, step.now, r);
    } else if step.Duplicate? {
      var input := DuplicateInput(c, s.db, step.tenant, step.original, step.alias);
      if input.Some? {
        OnlyAdds(c, s, input.value, step.id, step.version, step.randoms, step.now, r);
      }
    } else if step.SetValue? && Next(c, s, step) != s {
      SetValueEffect(c, s, step);
    } else if step.ClearOverride? && Next(c, s, step) != s {
      ClearEffect(c, s, step);
    }
    hide Provisioned;
    hide FieldUpdated;
    hide OverrideCleared;
  }

  lemma OnlyAdds(c: Cryptor, s: State, input: Input, id: nat, version: int, randoms: seq<Aead.Nonce>, now: int, r: nat)
    requires version in c.keys && id !in s.used && r in s.used
    requires r in AfterProvision(s, input, id, now,
      Provisioned(At(c, version), s.db, input, id, randoms, now)).db.resources
    ensures r in s.db.resources
    ensures AfterProvision(s, input, id, now,
      Provisioned(At(c, version), s.db, input, id, randoms, now)).db.resources[r] == s.db.resources[r]
  {
    var p := Provisioned(At(c, version), s.db, input, id, randoms, now);
    if p.Ok? {
      ProvisionedParts(At(c, version), s.db, input, id, randoms, now);
    }
    hide Provisioned;
    hide CheckInput;
    hide StoreFields;
  }

  predicate SameDefinition(a: Db, b: Db, d: nat) {
    && d in a.definitions && d in b.definitions && a.definitions[d] == b.definitions[d]
    && FieldIds(a, d) == FieldIds(b, d) && forall f :: f in FieldIds(a, d) ==> a.fields[f] == b.fields[f]
  }

  /** A definition whose row or fields changed was stamped. */
  lemma DefinitionStep(c: Cryptor, s: State, step: Step, d: nat)
    requires Aead.ValidCryptor(c) && Enabled(c, s, step) && IdsUsed(s) && d in s.db.definitions
    ensures var n := Next(c, s, step);
      d in n.db.definitions
      && (SameDefinition(s.db, n.db, d) || (StampsDefinition(step, d) && n.db.definitions[d].updatedAt == step.now))
  {
    if step.AddField? || step.EditField? || step.RemoveField? {
      FieldsOfOthers(c, s, step, d);
    } else {
      LeavesFields(c, s, step);
    }
  }

  lemma FieldsOfOthers(c: Cryptor, s: State, step: Step, d: nat)
    requires Aead.ValidCryptor(c) && Enabled(c, s, step) && IdsUsed(s) && d in s.db.definitions
    requires step.AddField? || step.EditField? || step.RemoveField?
    ensures var n := Next(c, s, step);
      d in n.db.definitions
      && (SameDefinition(s.db, n.db, d) || (StampsDefinition(step, d) && n.db.definitions[d].updatedAt == step.now))
  {
    var n := Next(c, s, step);
    if !StampsDefinition(step, d) {
      forall f ensures f in FieldIds(n.db, d) <==> f in FieldIds(s.db, d) {
      }
    }
  }

  lemma CreationLeavesCatalog(c: Cryptor, s: State, input: Input, id: nat, version: int, randoms: seq<Aead.Nonce>,
      now: int)
    requires version in c.keys
    ensures var n := AfterProvision(s, input, id, now, Provisioned(At(c, version), s.db, input, id, randoms, now));
      n.db.fields == s.db.fields && n.db.definitions == s.db.definitions && n.db.tenants == s.db.tenants
  {
    var r := Provisioned(At(c, version), s.db, input, id, randoms, now);
    if r.Ok? {
      ProvisionedParts(At(c, version), s.db, input, id, randoms, now);
    }
    hide Provisioned;
    hide CheckInput;
    hide StoreFields;
  }

  predicate FieldsKept(s: State, step: Step, n: State) {
    n.db.fields == s.db.fields && s.db.definitions.Keys <= n.db.definitions.Keys
    && forall d :: d in s.db.definitions ==>
         n.db.definitions[d] == s.db.definitions[d]
           || (StampsDefinition(step, d) && n.db.definitions[d].updatedAt == step.now)
  }

  predicate CreatesResource(step: Step) { step.Provision? || step.Duplicate? }

  lemma CreatesNoFields(c: Cryptor, s: State, step: Step)
    requires Aead.ValidCryptor(c) && Enabled(c, s, step) && CreatesResource(step)
    ensures var n := Next(c, s, step);
      n.db.fields == s.db.fields && n.db.definitions == s.db.definitions && n.db.tenants == s.db.tenants
  {
    if step.Provision? {
      CreationLeavesCatalog(c, s, step.input, step.id, step.version, step.randoms, step.now);
    } else {
      var input := DuplicateInput(c, s.db, step.tenant, step.original, step.alias);
      if input.Some? {
        CreationLeavesCatalog(c, s, input.value, step.id, step.version, step.randoms, step.now);
      }
    }
    hide Provisioned;
    hide AfterProvision;
    hide DuplicateInput;
  }

  lemma OthersLeaveFields(c: Cryptor, s: State, step: Step)
    requires Aead.ValidCryptor(c) && Enabled(c, s, step) && IdsUsed(s) && !step.AddField? && !step.EditField?
    requires !step.RemoveField?
    requires !CreatesResource(step) && !step.SetValue? && !step.ClearOverride?
    ensures FieldsKept(s, step, Next(c, s, step))
  {
  }

  lemma LeavesFields(c: Cryptor, s: State, step: Step)
    requires Aead.ValidCryptor(c) && Enabled(c, s, step) && IdsUsed(s) && !step.AddField? && !step.EditField?
    requires !step.RemoveField?
    ensures FieldsKept(s, step, Next(c, s, step))
  {
    hide Next;
    hide Enabled;
    hide IdsUsed;
    if CreatesResource(step) {
      CreatesNoFields(c, s, step);
    } else if step.SetValue? || step.ClearOverride? {
      EditLeavesCatalog(c, s, step);
    } else {
      OthersLeaveFields(c, s, step);
    }
  }

  lemma EditLeavesCatalog(c: Cryptor, s: State, step: Step)
    requires Aead.ValidCryptor(c) && Enabled(c, s, step) && (step.SetValue? || step.ClearOverride?)
    ensures Next(c, s, step).db.fields == s.db.fields && Next(c, s, step).db.definitions == s.db.definitions
  {
    if Next(c, s, step) != s && step.SetValue? {
      SetValueEffect(c, s, step);
    } else if Next(c, s, step) != s {
      ClearEffect(c, s, step);
    }
    hide Next;
  }

  predicate SameRow(a: Db, b: Db, r: nat) { r in a.resources && r in b.resources && a.resources[r] == b.resources[r] }

  predicate SameRows(a: Db, b: Db, r: nat) {
    SameRow(a, b, r) && (a.resources[r].source.Some? ==> SameRow(a, b, a.resources[r].source.value))
  }

  /** While neither the resource's row nor its source's changes, a step that is not
      silent about this resource leaves its effective texts as they are. */
  lemma TextStep(c: Cryptor, s: State, step: Step, r: nat, f: nat)
    requires Aead.ValidCryptor(c) && Inv(c, s) && Enabled(c, s, step) && NewStamp(s.db, step) && !SilentFor(s, step, r)
    requires SameRows(s.db, Next(c, s, step).db, r)
    ensures EffectiveText(Next(c, s, step), r, f) == EffectiveText(s, r, f)
  {
    if step.Provision? {
      CreationKeepsTexts(c, s, step.input, step.id, step.version, step.randoms, step.now, r, f);
    } else if step.Duplicate? {
      var input := DuplicateInput(c, s.db, step.tenant, step.original, step.alias);
      if input.Some? {
        CreationKeepsTexts(c, s, input.value, step.id, step.version, step.randoms, step.now, r, f);
      }
    } else if step.SetValue? {
      SetValueKeepsOthers(c, s, step, r, f);
    } else if step.ClearOverride? {
      QuietClear(c, s, step, r, f);
    } else if step.Delete? {
      DeleteKeepsOthers(c, s, step, r, f);
    } else {
      OtherStepsKeepTexts(c, s, step, r);
      hide Next;
      hide Inv;
    }
  }

  lemma CreationKeepsTexts(c: Cryptor, s: State, input: Input, id: nat, version: int, randoms: seq<Aead.Nonce>,
      now: int, r: nat, f: nat)
    requires Inv(c, s) && id !in s.used && version in c.keys
    requires SameRows(s.db,
      AfterProvision(s, input, id, now, Provisioned(At(c, version), s.db, input, id, randoms, now)).db, r)
    ensures EffectiveText(AfterProvision(s, input, id, now,
      Provisioned(At(c, version), s.db, input, id, randoms, now)), r, f) == EffectiveText(s, r, f)
  {
    assert r != id && (s.db.resources[r].source.Some? ==> s.db.resources[r].source.value != id);
    var p := Provisioned(At(c, version), s.db, input, id, randoms, now);
    if p.Ok? {
      ProvisionStores(c, version, s.db, input, id, randoms, now);
      NoTextsYet(c, s, id);
      AfterCreation(c, s, input, id, now, p);
      hide Provisioned;
      hide ProvisionedTo;
      hide AfterProvision;
      hide Inv;
      var n := AfterProvision(s, input, id, now, p);
      CreatedTexts(s.db.fields, n.db.resources[id].definition, id, input.values, s.written);
      hide TextsGiven;
      hide SourceAllowed;
      PairTexts(s, n, r, f);
    }
  }

  predicate SameSlot(a: map<Slot, string>, b: map<Slot, string>, slot: Slot) {
    (slot in a <==> slot in b) && (slot in a && slot in b ==> a[slot] == b[slot])
  }

  lemma PairTexts(s: State, n: State, r: nat, f: nat)
    requires SameRows(s.db, n.db, r) && SameSlot(s.written, n.written, (r, f))
    requires s.db.resources[r].source.Some? ==> SameSlot(s.written, n.written, (s.db.resources[r].source.value, f))
    ensures EffectiveText(n, r, f) == EffectiveText(s, r, f)
  {
  }

  lemma SetValueKeepsOthers(c: Cryptor, s: State, step: Step, r: nat, f: nat)
    requires Aead.ValidCryptor(c) && Enabled(c, s, step) && step.SetValue? && NewStamp(s.db, step)
    requires SameRows(s.db, Next(c, s, step).db, r)
    ensures EffectiveText(Next(c, s, step), r, f) == EffectiveText(s, r, f)
  {
    if Next(c, s, step) != s {
      SetValueEffect(c, s, step);
      assert StampsResource(step, step.resource);
      hide Next;
      hide Placed;
      hide ValidResourceValue;
      PairTexts(s, Next(c, s, step), r, f);
    }
  }

  lemma QuietClear(c: Cryptor, s: State, step: Step, r: nat, f: nat)
    requires Aead.ValidCryptor(c) && Links(s.db) && step.ClearOverride? && !SilentFor(s, step, r) && r in s.db.resources
    ensures EffectiveText(Next(c, s, step), r, f) == EffectiveText(s, r, f)
  {
    hide ListFields;
    hide FieldByKey;
    hide SlotField;
    if Next(c, s, step) != s {
      assert OverrideCleared(s.db, step.tenant, step.resource, step.key).Ok?;
      ClearEffect(c, s, step);
      assert Linked(s.db, r);
      hide Next;
      hide OverrideCleared;
      hide Placed;
      hide Links;
    }
  }

  lemma DeleteKeepsOthers(c: Cryptor, s: State, step: Step, r: nat, f: nat)
    requires Aead.ValidCryptor(c) && step.Delete? && SameRows(s.db, Next(c, s, step).db, r)
    ensures EffectiveText(Next(c, s, step), r, f) == EffectiveText(s, r, f)
  {
    if Next(c, s, step) != s {
      assert step.resource != r;
      PairTexts(s, Next(c, s, step), r, f);
    }
  }

  // ----- Many steps -----

  predicate SameStamp(a: Db, b: Db, r: nat) {
    r in a.resources && r in b.resources && a.resources[r].updatedAt == b.resources[r].updatedAt
  }

  predicate SameDefinitionStamp(a: Db, b: Db, d: nat) {
    d in a.definitions && d in b.definitions && a.definitions[d].updatedAt == b.definitions[d].updatedAt
  }

  ghost predicate Run(c: Cryptor, states: seq<State>, steps: seq<Step>)
    requires Aead.ValidCryptor(c)
  {
    Execution(c, states, steps) && FreshStamps(states, steps)
  }

  /** A row that carries the same stamp later was not touched in between. */
  lemma {:induction false} RowUntouched(c: Cryptor, states: seq<State>, steps: seq<Step>, i: nat, m: nat, j: nat,
      r: nat)
    requires Aead.ValidCryptor(c) && Run(c, states, steps) && i <= m <= j < |states|
    requires SameStamp(states[i].db, states[j].db, r)
    ensures SameRow(states[m].db, states[j].db, r) && SameStamp(states[i].db, states[m].db, r)
    decreases j - m
  {
    hide Enabled;
    hide Next;
    if m < j {
      RowUntouched(c, states, steps, i, m + 1, j, r);
      EveryRunKeepsInv(c, states, steps, i);
      EveryRunKeepsInv(c, states, steps, m);
      UsedGrows(c, states, steps, i, m);
      ResourceStep(c, states[m], steps[m], r);
      assert NewStamp(states[i].db, steps[m]);
      assert states[m + 1] == Next(c, states[m], steps[m]);
    }
  }

  lemma {:induction false} UsedGrows(c: Cryptor, states: seq<State>, steps: seq<Step>, i: nat, j: nat)
    requires Aead.ValidCryptor(c) && Execution(c, states, steps) && i <= j < |states|
    ensures states[i].used <= states[j].used
    decreases j
  {
    hide Enabled;
    hide Next;
    if i < j {
      UsedGrows(c, states, steps, i, j - 1);
      UsedStep(c, states[j - 1], steps[j - 1]);
    }
  }

  lemma UsedStep(c: Cryptor, s: State, step: Step)
    requires Aead.ValidCryptor(c) && Enabled(c, s, step)
    ensures s.used <= Next(c, s, step).used
  {
    hide Provisioned;
    hide FieldUpdated;
    hide OverrideCleared;
    hide DuplicateInput;
  }

  lemma {:induction false} DefinitionUntouched(c: Cryptor, states: seq<State>, steps: seq<Step>, i: nat, m: nat,
      j: nat, d: nat)
    requires Aead.ValidCryptor(c) && Run(c, states, steps) && i <= m <= j < |states|
    requires SameDefinitionStamp(states[i].db, states[j].db, d)
    ensures SameDefinition(states[m].db, states[j].db, d) && SameDefinitionStamp(states[i].db, states[m].db, d)
    decreases j - m
  {
    hide Enabled;
    hide Next;
    if m < j {
      DefinitionUntouched(c, states, steps, i, m + 1, j, d);
      EveryRunKeepsInv(c, states, steps, m);
      DefinitionsStay(c, states, steps, i, m, d);
      DefinitionStep(c, states[m], steps[m], d);
      assert NewStamp(states[i].db, steps[m]);
      assert states[m + 1] == Next(c, states[m], steps[m]);
    }
  }

  lemma {:induction false} DefinitionsStay(c: Cryptor, states: seq<State>, steps: seq<Step>, i: nat, j: nat, d: nat)
    requires Aead.ValidCryptor(c) && Execution(c, states, steps) && i <= j < |states| && d in states[i].db.definitions
    ensures d in states[j].db.definitions
    decreases j
  {
    hide Enabled;
    hide Next;
    if i < j {
      DefinitionsStay(c, states, steps, i, j - 1, d);
      EveryRunKeepsInv(c, states, steps, j - 1);
      DefinitionStep(c, states[j - 1], steps[j - 1], d);
    }
  }

  /** No clear between i and j silently changed this resource. */
  ghost predicate NothingSilent(states: seq<State>, steps: seq<Step>, i: nat, j: nat, r: nat) {
    |states| == |steps| + 1 && forall k :: i <= k < j && k < |steps| ==> !SilentFor(states[k], steps[k], r)
  }

  /** Its source too carries the same stamp. */
  predicate SameStamps(a: Db, b: Db, r: nat) {
    SameStamp(a, b, r) && (a.resources[r].source.Some? ==> SameStamp(a, b, a.resources[r].source.value))
  }

  lemma {:induction false} TextsUntouched(c: Cryptor, states: seq<State>, steps: seq<Step>, i: nat, m: nat, j: nat,
      r: nat, f: nat)
    requires Aead.ValidCryptor(c) && Run(c, states, steps) && i <= m <= j < |states|
    requires SameStamps(states[i].db, states[j].db, r) && NothingSilent(states, steps, m, j, r)
    ensures EffectiveText(states[m], r, f) == EffectiveText(states[j], r, f)
    decreases j - m
  {
    hide Enabled;
    hide Next;
    hide EffectiveText;
    hide SilentFor;
    hide NewStamp;
    if m < j {
      TextsUntouched(c, states, steps, i, m + 1, j, r, f);
      RowsUntouched(c, states, steps, i, m, j, r);
      RowsUntouched(c, states, steps, i, m + 1, j, r);
      EveryRunKeepsInv(c, states, steps, m);
      hide Inv;
      assert NewStamp(states[m].db, steps[m]);
      assert states[m + 1] == Next(c, states[m], steps[m]);
      TextStep(c, states[m], steps[m], r, f);
    }
  }

  lemma RowsUntouched(c: Cryptor, states: seq<State>, steps: seq<Step>, i: nat, m: nat, j: nat, r: nat)
    requires Aead.ValidCryptor(c) && Run(c, states, steps) && i <= m <= j < |states|
    requires SameStamps(states[i].db, states[j].db, r)
    ensures SameRows(states[m].db, states[j].db, r)
  {
    hide Run;
    RowUntouched(c, states, steps, i, i, j, r);
    RowUntouched(c, states, steps, i, m, j, r);
    var source := states[i].db.resources[r].source;
    if source.Some? {
      RowUntouched(c, states, steps, i, m, j, source.value);
    }
  }

  // ----- Formats -----

  ghost predicate Formats(s: State) {
    && (forall id :: id in s.used ==> Text.IsUuid(id))
    && (forall t :: t in s.db.tenants ==> ValidSlug(s.db.tenants[t].slug))
    && (forall d :: d in s.db.definitions ==> ValidKey(s.db.definitions[d].key))
  }

  lemma FormatsStep(c: Cryptor, s: State, step: Step)
    requires Aead.ValidCryptor(c) && Enabled(c, s, step) && IdsUsed(s) && Formats(s)
    ensures Formats(Next(c, s, step))
  {
    hide Next;
    hide ValidSlug;
    hide ValidKey;
    UsedBy(c, s, step);
    if CreatesResource(step) {
      CreatesNoFields(c, s, step);
    } else if step.SetValue? || step.ClearOverride? {
      EditLeavesCatalog(c, s, step);
      EditLeavesTenants(c, s, step);
    } else {
      OthersKeepFormats(c, s, step);
    }
  }

  lemma UsedBy(c: Cryptor, s: State, step: Step)
    requires Aead.ValidCryptor(c) && Enabled(c, s, step)
    ensures forall id :: id in Next(c, s, step).used ==> id in s.used || Text.IsUuid(id)
  {
    hide Provisioned;
    hide FieldUpdated;
    hide OverrideCleared;
    hide DuplicateInput;
  }

  lemma OthersKeepFormats(c: Cryptor, s: State, step: Step)
    requires Aead.ValidCryptor(c) && Enabled(c, s, step) && Formats(s)
    requires !CreatesResource(step) && !step.SetValue? && !step.ClearOverride?
    ensures Formats(Next(c, s, step))
  {
    hide ValidSlug;
    hide ValidKey;
    UsedBy(c, s, step);
  }

  lemma EditLeavesTenants(c: Cryptor, s: State, step: Step)
    requires Aead.ValidCryptor(c) && Enabled(c, s, step) && (step.SetValue? || step.ClearOverride?)
    ensures Next(c, s, step).db.tenants == s.db.tenants && Next(c, s, step).used == s.used
  {
    if Next(c, s, step) != s && step.SetValue? {
      SetValueEffect(c, s, step);
    } else if Next(c, s, step) != s {
      ClearEffect(c, s, step);
    }
    hide Next;
  }

  lemma {:induction false} EveryRunHasFormats(c: Cryptor, states: seq<State>, steps: seq<Step>, i: nat)
    requires Aead.ValidCryptor(c) && Execution(c, states, steps) && i < |states|
    ensures Formats(states[i])
  {
    hide Next;
    hide Enabled;
    if i > 0 {
      EveryRunHasFormats(c, states, steps, i - 1);
      EveryRunKeepsInv(c, states, steps, i - 1);
      FormatsStep(c, states[i - 1], steps[i - 1]);
    }
  }

  lemma SlugIsPlain(s: string)
    requires ValidSlug(s) || ValidKey(s)
    ensures Plain(s)
  {
  }

  lemma HeaderIsProper(s: State, h: Header)
    requires Links(s.db) && IdsUsed(s) && Formats(s) && GetHeader(s.db, h.id) == Some(h)
    ensures ProperHeader(h)
  {
    hide ValidKey;
    hide ValidSlug;
    hide Plain;
    assert Linked(s.db, h.id);
    SlugIsPlain(h.definitionKey);
  }

  lemma HeadersAreProper(s: State, tenant: nat)
    requires Links(s.db) && IdsUsed(s) && Formats(s)
    ensures ProperHeaders(ListHeaders(s.db, tenant))
  {
    hide Formats;
    hide Links;
    hide IdsUsed;
    hide ProperHeader;
    var ids := Sql.OrderBy(ActiveResources(s.db, tenant));
    var headers := ListHeaders(s.db, tenant);
    forall i | 0 <= i < |headers| ensures ProperHeader(headers[i]) {
      HeadersComeFrom(s.db, ids, headers[i]);
      HeaderIsProper(s, headers[i]);
    }
  }

  // ----- From tags to rows -----

  lemma {:induction false} EveryIdHasHeader(db: Db, ids: seq<nat>, r: nat)
    requires r in ids && GetHeader(db, r).Some?
    ensures GetHeader(db, r).value in HeadersOf(db, ids)
    decreases |ids|
  {
    hide GetHeader;
    if r != ids[0] {
      EveryIdHasHeader(db, ids[1..], r);
    }
  }

  /** An active resource of the tenant is one the headers list, with its own row. */
  lemma ListedIff(db: Db, tenant: nat, r: nat)
    requires Links(db)
    ensures r in ActiveResources(db, tenant) ==>
      GetHeader(db, r).Some? && GetHeader(db, r).value in ListHeaders(db, tenant)
    ensures forall h :: h in ListHeaders(db, tenant) ==>
      h.id in ActiveResources(db, tenant) && GetHeader(db, h.id) == Some(h)
  {
    var ids := Sql.OrderBy(ActiveResources(db, tenant));
    if r in ActiveResources(db, tenant) {
      assert Linked(db, r);
      assert r in ids;
      EveryIdHasHeader(db, ids, r);
    }
    forall h | h in ListHeaders(db, tenant)
      ensures h.id in ActiveResources(db, tenant) && GetHeader(db, h.id) == Some(h)
    {
      HeadersComeFrom(db, ids, h);
    }
  }

  /** The stamps the tag carries for one resource are those of its row, its definition
      and its source. */
  lemma StampsCarry(a: Db, b: Db, tenant: nat, r: nat)
    requires Links(a) && Links(b) && r in ActiveResources(a, tenant)
    requires forall i :: 0 <= i < |ListHeaders(a, tenant)| ==>
      StampedIn(ListHeaders(a, tenant)[i], ListHeaders(b, tenant))
    ensures r in ActiveResources(b, tenant) && SameStamps(a, b, r)
    ensures SameDefinitionStamp(a, b, a.resources[r].definition)
  {
    ListedIff(a, tenant, r);
    ListedIff(b, tenant, r);
    var h := GetHeader(a, r).value;
    var i :| 0 <= i < |ListHeaders(a, tenant)| && ListHeaders(a, tenant)[i] == h;
    assert StampedIn(h, ListHeaders(b, tenant));
    var k :| 0 <= k < |ListHeaders(b, tenant)| && StampOf(ListHeaders(b, tenant)[k]) == StampOf(h);
    var g := ListHeaders(b, tenant)[k];
    assert g in ListHeaders(b, tenant);
    assert Linked(a, r) && Linked(b, r);
    hide ListHeaders;
  }

  // ----- From rows to the body -----

  ghost predicate Steady(states: seq<State>, i: nat, j: nat, r: nat)
    requires i < |states| && j < |states|
  {
    r in states[i].db.resources && SameStamps(states[i].db, states[j].db, r)
    && SameDefinitionStamp(states[i].db, states[j].db, states[i].db.resources[r].definition)
  }

  lemma HeaderUntouched(c: Cryptor, states: seq<State>, steps: seq<Step>, i: nat, m: nat, j: nat, r: nat)
    requires Aead.ValidCryptor(c) && Run(c, states, steps) && i <= m <= j < |states| && Steady(states, i, j, r)
    ensures GetHeader(states[m].db, r) == GetHeader(states[j].db, r)
    ensures r in states[m].db.resources && r in states[j].db.resources
    ensures states[m].db.resources[r] == states[j].db.resources[r]
    ensures SameDefinition(states[m].db, states[j].db, states[j].db.resources[r].definition)
  {
    hide Run;
    RowsUntouched(c, states, steps, i, i, j, r);
    RowsUntouched(c, states, steps, i, m, j, r);
    DefinitionUntouched(c, states, steps, i, m, j, states[i].db.resources[r].definition);
  }

  lemma TextMapUntouched(c: Cryptor, states: seq<State>, steps: seq<Step>, i: nat, m: nat, j: nat, r: nat)
    requires Aead.ValidCryptor(c) && Run(c, states, steps) && i <= m <= j < |states| && Steady(states, i, j, r)
    requires NothingSilent(states, steps, m, j, r)
    ensures UniqueKeys(states[m].db) && UniqueKeys(states[j].db) && r in states[j].db.resources
    ensures var d := states[j].db.resources[r].definition;
      TextMap(states[m], r, d) == TextMap(states[j], r, d)
  {
    EveryRunKeepsInv(c, states, steps, m);
    EveryRunKeepsInv(c, states, steps, j);
    HeaderUntouched(c, states, steps, i, m, j, r);
    var d := states[j].db.resources[r].definition;
    forall f | f in FieldIds(states[j].db, d) ensures EffectiveText(states[m], r, f) == EffectiveText(states[j], r, f) {
      TextsUntouched(c, states, steps, i, m, j, r, f);
    }
    hide Inv;
    hide Run;
    SameMaps(states[m], states[j], r, d);
  }

  lemma SameMaps(a: State, b: State, r: nat, d: nat)
    requires UniqueKeys(a.db) && UniqueKeys(b.db) && SameDefinition(a.db, b.db, d)
    requires forall f :: f in FieldIds(b.db, d) ==> EffectiveText(a, r, f) == EffectiveText(b, r, f)
    ensures TextMap(a, r, d) == TextMap(b, r, d)
  {
    var x, y := TextMap(a, r, d), TextMap(b, r, d);
    TextMapIs(a, r, d);
    TextMapIs(b, r, d);
    hide EffectiveText;
    hide UniqueKeys;
    hide TextMap;
    forall key | key in x ensures key in y && y[key] == x[key] {
      var f :| f in FieldIds(a.db, d) && a.db.fields[f].key == key;
      assert b.db.fields[f].key == key;
    }
    forall key | key in y ensures key in x {
      var f :| f in FieldIds(b.db, d) && b.db.fields[f].key == key;
      assert a.db.fields[f].key == key;
    }
  }

  // ----- What a silent change does to the body -----

  lemma CreatedSlot(s: State, n: State, id: nat, input: Input, r: nat, f: nat)
    requires Created(s, n, id, input) && r != id
    ensures SameSlot(s.written, n.written, (r, f))
  {
    assert (r, f) !in TextsGiven(s.db.fields, n.db.resources[id].definition, id, input.values);
    hide TextsGiven;
    hide SourceAllowed;
  }

  lemma CreationKeepsSlots(c: Cryptor, s: State, input: Input, id: nat, version: int, randoms: seq<Aead.Nonce>,
      now: int, r: nat, f: nat)
    requires Inv(c, s) && id !in s.used && version in c.keys && r in s.db.resources
    ensures var n := AfterProvision(s, input, id, now, Provisioned(At(c, version), s.db, input, id, randoms, now));
      SameSlot(s.written, n.written, (r, f))
  {
    assert r != id;
    var p := Provisioned(At(c, version), s.db, input, id, randoms, now);
    hide Provisioned;
    if p.Ok? {
      ProvisionStores(c, version, s.db, input, id, randoms, now);
      hide Inv;
      AfterCreation(c, s, input, id, now, p);
      hide ProvisionedTo;
      hide Created;
      var n := AfterProvision(s, input, id, now, p);
      hide AfterProvision;
      CreatedSlot(s, n, id, input, r, f);
    }
  }

  lemma EditKeepsSlots(c: Cryptor, s: State, step: Step, r: nat, f: nat)
    requires Aead.ValidCryptor(c) && Enabled(c, s, step) && NewStamp(s.db, step)
    requires step.SetValue? || step.ClearOverride?
    requires SameRow(s.db, Next(c, s, step).db, r) && (r, f) in Next(c, s, step).written
    ensures SameSlot(s.written, Next(c, s, step).written, (r, f))
  {
    if Next(c, s, step) != s {
      if step.SetValue? {
        SetValueEffect(c, s, step);
        assert StampsResource(step, step.resource);
      } else {
        ClearEffect(c, s, step);
      }
    }
    hide Next;
    hide Placed;
    hide ValidResourceValue;
    hide EncodeValue;
  }

  /** While a resource's row stays as it is, its own texts can only be removed. */
  lemma SlotStep(c: Cryptor, s: State, step: Step, r: nat, f: nat)
    requires Aead.ValidCryptor(c) && Inv(c, s) && Enabled(c, s, step) && NewStamp(s.db, step)
    requires SameRow(s.db, Next(c, s, step).db, r) && (r, f) in Next(c, s, step).written
    ensures SameSlot(s.written, Next(c, s, step).written, (r, f))
  {
    if step.Provision? {
      CreationKeepsSlots(c, s, step.input, step.id, step.version, step.randoms, step.now, r, f);
    } else if step.Duplicate? {
      var input := DuplicateInput(c, s.db, step.tenant, step.original, step.alias);
      if input.Some? {
        CreationKeepsSlots(c, s, input.value, step.id, step.version, step.randoms, step.now, r, f);
      }
    } else if step.SetValue? || step.ClearOverride? {
      EditKeepsSlots(c, s, step, r, f);
      hide Next;
    } else if step.Delete? {
      hide Inv;
    } else {
      OtherStepsKeepTexts(c, s, step, r);
      hide Next;
    }
  }

  lemma {:induction false} SlotsOnlyDisappear(c: Cryptor, states: seq<State>, steps: seq<Step>, i: nat, m: nat,
      j: nat, r: nat, f: nat)
    requires Aead.ValidCryptor(c) && Run(c, states, steps) && i <= m <= j < |states|
    requires SameStamp(states[i].db, states[j].db, r) && (r, f) in states[j].written
    ensures SameSlot(states[m].written, states[j].written, (r, f))
    decreases j - m
  {
    hide Enabled;
    hide Next;
    hide NewStamp;
    if m < j {
      SlotsOnlyDisappear(c, states, steps, i, m + 1, j, r, f);
      RowUntouched(c, states, steps, i, m, j, r);
      RowUntouched(c, states, steps, i, m + 1, j, r);
      EveryRunKeepsInv(c, states, steps, m);
      hide Inv;
      assert NewStamp(states[m].db, steps[m]);
      assert states[m + 1] == Next(c, states[m], steps[m]);
      SlotStep(c, states[m], steps[m], r, f);
    }
  }

  /** A clear needs a linked resource, so a source is never silently changed. */
  lemma SourceIsNeverSilent(states: seq<State>, steps: seq<Step>, m: nat, j: nat, source: nat)
    requires |states| == |steps| + 1 && m <= j < |states|
    requires forall k :: m <= k < j ==> source in states[k].db.resources && states[k].db.resources[source].source.None?
    ensures NothingSilent(states, steps, m, j, source)
  {
  }

  lemma SourceText(c: Cryptor, states: seq<State>, steps: seq<Step>, i: nat, k: nat, j: nat, r: nat, f: nat)
    requires Aead.ValidCryptor(c) && Run(c, states, steps) && i <= k <= j < |states|
    requires SameStamps(states[i].db, states[j].db, r) && states[i].db.resources[r].source.Some?
    ensures var source := states[i].db.resources[r].source;
      InheritedText(states[k], source, f) == InheritedText(states[j], source, f)
  {
    var source := states[i].db.resources[r].source.value;
    forall x | i <= x <= j
      ensures source in states[x].db.resources && states[x].db.resources[source].source.None?
    {
      RowsUntouched(c, states, steps, i, i, j, r);
      RowsUntouched(c, states, steps, i, x, j, r);
      EveryRunKeepsInv(c, states, steps, x);
      assert Linked(states[x].db, r);
    }
    SourceIsNeverSilent(states, steps, k, j, source);
    TextsUntouched(c, states, steps, i, k, j, source, f);
    hide Run;
    hide NothingSilent;
  }

  lemma SilentSlot(c: Cryptor, s: State, step: Step, r: nat)
    requires Aead.ValidCryptor(c) && SilentFor(s, step, r)
    ensures r in s.db.resources && s.db.resources[r].source.Some?
    ensures var f := SlotField(s.db, r, step.key);
      && f in FieldIds(s.db, s.db.resources[r].definition)
      && (r, f) in s.written && (r, f) !in Next(c, s, step).written
      && s.written[(r, f)] != InheritedText(s, s.db.resources[r].source, f)
  {
    var f := SlotField(s.db, r, step.key);
    assert Next(c, s, step).written == s.written - {(r, f)};
    assert Next(c, s, step) != s;
    ClearEffect(c, s, step);
  }

  /** A silent change to a resource whose stamps stay makes one of its texts differ, and
      nothing that keeps the stamps makes up for it. */
  lemma SilentTextDiffers(c: Cryptor, states: seq<State>, steps: seq<Step>, i: nat, m: nat, k: nat, j: nat, r: nat)
      returns (f: nat)
    requires Aead.ValidCryptor(c) && Run(c, states, steps) && i <= m <= k < j < |states|
    requires SameStamps(states[i].db, states[j].db, r) && SilentFor(states[k], steps[k], r)
    ensures r in states[k].db.resources && f in FieldIds(states[k].db, states[k].db.resources[r].definition)
    ensures EffectiveText(states[m], r, f) != EffectiveText(states[j], r, f)
  {
    f := SlotField(states[k].db, r, steps[k].key);
    SilentSlot(c, states[k], steps[k], r);
    assert states[k + 1] == Next(c, states[k], steps[k]);
    hide Next;
    hide SilentFor;
    hide SlotField;
    RowsUntouched(c, states, steps, i, i, j, r);
    RowsUntouched(c, states, steps, i, m, j, r);
    RowsUntouched(c, states, steps, i, k, j, r);
    SourceText(c, states, steps, i, k, j, r, f);
    RowUntouched(c, states, steps, i, k, j, r);
    SlotsOnlyDisappear(c, states, steps, i, m, k, r, f);
    if (r, f) in states[j].written {
      SlotsOnlyDisappear(c, states, steps, i, k + 1, j, r, f);
    }
    hide Run;
  }

  /** A listed resource resolves to the same at both times if and only if no clear
      silently changed it in between. */
  lemma ReadsTheSameIff(c: Cryptor, states: seq<State>, steps: seq<Step>, i: nat, m: nat, j: nat, h: Header)
    requires Aead.ValidCryptor(c) && Run(c, states, steps) && i <= m <= j < |states|
    requires Steady(states, i, j, h.id) && GetHeader(states[j].db, h.id) == Some(h)
    ensures Effective(c, states[m].db, h, true).Ok? && Effective(c, states[j].db, h, true).Ok?
    ensures ResolvedOne(h, Effective(c, states[m].db, h, true).value) ==
      ResolvedOne(h, Effective(c, states[j].db, h, true).value)
      <==> NothingSilent(states, steps, m, j, h.id)
  {
    HeaderUntouched(c, states, steps, i, m, j, h.id);
    EveryRunKeepsInv(c, states, steps, m);
    EveryRunKeepsInv(c, states, steps, j);
    HeaderReads(c, states[m], h);
    HeaderReads(c, states[j], h);
    var d := h.resource.definition;
    if NothingSilent(states, steps, m, j, h.id) {
      TextMapUntouched(c, states, steps, i, m, j, h.id);
    } else {
      var k :| m <= k < j && SilentFor(states[k], steps[k], h.id);
      var f := SilentTextDiffers(c, states, steps, i, m, k, j, h.id);
      HeaderUntouched(c, states, steps, i, k, j, h.id);
      TextMapsDiffer(states[m], states[j], h.id, d, f);
    }
    hide Run;
    hide Inv;
    hide TextMap;
    hide Effective;
    hide NothingSilent;
  }

  lemma TextMapsDiffer(a: State, b: State, r: nat, d: nat, f: nat)
    requires UniqueKeys(a.db) && UniqueKeys(b.db) && SameDefinition(a.db, b.db, d) && f in FieldIds(a.db, d)
    requires EffectiveText(a, r, f) != EffectiveText(b, r, f)
    ensures TextMap(a, r, d) != TextMap(b, r, d)
  {
    TextMapIs(a, r, d);
    TextMapIs(b, r, d);
    hide EffectiveText;
    hide UniqueKeys;
    hide TextMap;
    assert f in FieldIds(b.db, d);
  }

  lemma {:induction false} BodySameIff(c: Cryptor, states: seq<State>, steps: seq<Step>, i: nat, m: nat, j: nat,
      headers: seq<Header>)
    requires Aead.ValidCryptor(c) && Run(c, states, steps) && i <= m <= j < |states|
    requires forall h :: h in headers ==> Steady(states, i, j, h.id) && GetHeader(states[j].db, h.id) == Some(h)
    ensures ResolvedAll(c, states[m].db, headers).Ok? && |ResolvedAll(c, states[m].db, headers).value| == |headers|
    ensures ResolvedAll(c, states[j].db, headers).Ok? && |ResolvedAll(c, states[j].db, headers).value| == |headers|
    ensures ResolvedAll(c, states[m].db, headers) == ResolvedAll(c, states[j].db, headers)
      <==> forall h :: h in headers ==> NothingSilent(states, steps, m, j, h.id)
    decreases |headers|
  {
    hide Run;
    hide Effective;
    hide GetHeader;
    hide Steady;
    hide ResolvedOne;
    hide NothingSilent;
    if headers != [] {
      var n := |headers| - 1;
      assert headers[n] in headers;
      assert forall h :: h in headers <==> h in headers[..n] || h == headers[n];
      BodySameIff(c, states, steps, i, m, j, headers[..n]);
      ReadsTheSameIff(c, states, steps, i, m, j, headers[n]);
      LastDecides(ResolvedAll(c, states[m].db, headers).value, ResolvedAll(c, states[j].db, headers).value);
    }
  }

  lemma LastDecides<T>(a: seq<T>, b: seq<T>)
    requires |a| == |b| > 0
    ensures a == b <==> a[..|a| - 1] == b[..|a| - 1] && a[|a| - 1] == b[|a| - 1]
  {
    assert a == a[..|a| - 1] + [a[|a| - 1]] && b == b[..|a| - 1] + [b[|a| - 1]];
  }

  lemma {:induction false} SameHeaders(a: Db, b: Db, ids: seq<nat>)
    requires forall r :: r in ids ==> GetHeader(a, r) == GetHeader(b, r)
    ensures HeadersOf(a, ids) == HeadersOf(b, ids)
    decreases |ids|
  {
    hide GetHeader;
    if ids != [] {
      assert ids[0] in ids;
      SameHeaders(a, b, ids[1..]);
    }
  }

  /** The same tenant, the same headers. */
  lemma HeadersUntouched(c: Cryptor, states: seq<State>, steps: seq<Step>, i: nat, j: nat, tenant: nat)
    requires Aead.ValidCryptor(c) && Run(c, states, steps) && i <= j < |states|
    requires forall r :: r in ActiveResources(states[i].db, tenant) ==> Steady(states, i, j, r)
    requires ActiveResources(states[i].db, tenant).Keys == ActiveResources(states[j].db, tenant).Keys
    ensures ListHeaders(states[i].db, tenant) == ListHeaders(states[j].db, tenant)
  {
    hide Run;
    hide Steady;
    hide GetHeader;
    var a, b := ActiveResources(states[i].db, tenant), ActiveResources(states[j].db, tenant);
    forall r | r in a ensures a[r] == b[r] && GetHeader(states[i].db, r) == GetHeader(states[j].db, r) {
      HeaderUntouched(c, states, steps, i, i, j, r);
    }
    assert a == b;
    SameHeaders(states[i].db, states[j].db, Sql.OrderBy(a));
  }

  /** Equal tags at two times, the second no earlier: every listed resource kept its
      stamps, and the headers are the same. */
  lemma EqualTagsMeanUntouched(c: Cryptor, states: seq<State>, steps: seq<Step>, t: nat, i: nat, u: nat, j: nat,
      tenant: nat, other: nat)
    requires Aead.ValidCryptor(c) && Run(c, states, steps) && i <= j < |states| && t < |states| && u < |states|
    requires tenant in states[t].db.tenants && other in states[u].db.tenants
    requires TagOf(states[t].db, states[i].db, tenant) == TagOf(states[u].db, states[j].db, other)
    ensures other == tenant && states[t].db.tenants[tenant].slug == states[u].db.tenants[tenant].slug
    ensures forall r :: r in ActiveResources(states[i].db, tenant) ==> Steady(states, i, j, r)
    ensures ListHeaders(states[i].db, tenant) == ListHeaders(states[j].db, tenant)
  {
    RunFacts(c, states, steps, t, tenant);
    RunFacts(c, states, steps, i, tenant);
    RunFacts(c, states, steps, u, other);
    RunFacts(c, states, steps, j, other);
    var a, b := ListHeaders(states[i].db, tenant), ListHeaders(states[j].db, other);
    hide ListHeaders;
    hide TagText;
    hide Run;
    hide ProperHeaders;
    hide StampedIn;
    TagIsInjective(tenant, states[t].db.tenants[tenant], a, other, states[u].db.tenants[other], b);
    forall r | r in ActiveResources(states[i].db, tenant)
      ensures r in ActiveResources(states[j].db, tenant) && Steady(states, i, j, r)
    {
      StampsCarry(states[i].db, states[j].db, tenant, r);
    }
    forall r | r in ActiveResources(states[j].db, tenant) ensures r in ActiveResources(states[i].db, tenant) {
      StampsCarry(states[j].db, states[i].db, tenant, r);
    }
    hide ActiveResources;
    hide Steady;
    HeadersUntouched(c, states, steps, i, j, tenant);
  }

  lemma RunFacts(c: Cryptor, states: seq<State>, steps: seq<Step>, i: nat, tenant: nat)
    requires Aead.ValidCryptor(c) && Run(c, states, steps) && i < |states|
    ensures Links(states[i].db) && ProperHeaders(ListHeaders(states[i].db, tenant))
    ensures tenant in states[i].db.tenants ==> Text.IsUuid(tenant) && Plain(states[i].db.tenants[tenant].slug)
  {
    EveryRunKeepsInv(c, states, steps, i);
    EveryRunHasFormats(c, states, steps, i);
    HeadersAreProper(states[i], tenant);
    if tenant in states[i].db.tenants {
      SlugIsPlain(states[i].db.tenants[tenant].slug);
    }
    hide ListHeaders;
    hide Plain;
    hide ValidSlug;
  }

  /** No clear between i and j silently changed a resource the tenant's answer at j
      lists. */
  ghost predicate NothingListedSilent(states: seq<State>, steps: seq<Step>, i: nat, j: nat, tenant: nat)
    requires j < |states|
  {
    forall r :: r in ActiveResources(states[j].db, tenant) ==> NothingSilent(states, steps, i, j, r)
  }

  /** A first request reads tenant, headers and values at t1 <= t2 <= t3 and returns a
      body with its tag; a later one, offering that tag, reads at u1 <= u2 and answers
      304. The cached body is the one the tables hold at that moment if and only if,
      since it was read, no clear silently changed a resource the answer lists. */
  lemma NotModifiedIsSoundIff(c: Cryptor, states: seq<State>, steps: seq<Step>, t1: nat, t2: nat, t3: nat, u1: nat,
      u2: nat, tenant: nat, other: Option<nat>, offered: Option<Tag>, tag: Tag, body: ResolvedTenant)
    requires Aead.ValidCryptor(c) && Run(c, states, steps) && t1 <= t2 <= t3 <= u1 <= u2 < |states|
    requires Answer(c, states[t1].db, states[t2].db, states[t3].db, Some(tenant), offered) == Body(tag, body)
    requires Answer(c, states[u1].db, states[u2].db, states[u2].db, other, Some(tag)) == NotModified(tag)
    ensures other == Some(tenant)
    ensures Answer(c, states[u1].db, states[u2].db, states[u2].db, other, None) == Body(tag, body)
      <==> NothingListedSilent(states, steps, t3, u2, tenant)
  {
    hide Run;
    hide TagOf;
    hide NothingSilent;
    EqualTagsMeanUntouched(c, states, steps, t1, t2, u1, u2, tenant, other.value);
    var headers := ListHeaders(states[u2].db, tenant);
    RunFacts(c, states, steps, t2, tenant);
    RunFacts(c, states, steps, u2, tenant);
    ListedIff(states[t2].db, tenant, 0);
    ListedIff(states[u2].db, tenant, 0);
    forall r | r in ActiveResources(states[u2].db, tenant) ensures exists h :: h in headers && h.id == r {
      ListedIff(states[u2].db, tenant, r);
    }
    hide ListHeaders;
    hide ActiveResources;
    BodySameIff(c, states, steps, t2, t3, u2, headers);
    hide ResolvedAll;
  }

  // ----- The exception -----

  /** Clearing an override changes no tag of any tenant, whatever text it drops ... */
  lemma ClearKeepsTags(c: Cryptor, s: State, step: Step, t: nat)
    requires Aead.ValidCryptor(c) && step.ClearOverride? && t in s.db.tenants
    ensures t in Next(c, s, step).db.tenants
    ensures TagOf(Next(c, s, step).db, Next(c, s, step).db, t) == TagOf(s.db, s.db, t)
  {
    if Next(c, s, step) != s {
      ClearEffect(c, s, step);
      hide Placed;
      hide Next;
      hide TagOf;
      ValuesDoNotTag(s.db, Next(c, s, step).db, t);
    }
  }

  /** ... but the effective text changes exactly when the dropped text is not the
      inherited one. */
  lemma ClearChangesTextIff(c: Cryptor, s: State, step: Step)
    requires Aead.ValidCryptor(c) && Links(s.db) && step.ClearOverride? && Next(c, s, step) != s
    ensures var f := SlotField(s.db, step.resource, step.key);
      EffectiveText(Next(c, s, step), step.resource, f) != EffectiveText(s, step.resource, f) <==> SilentChange(s, step)
  {
    ClearEffect(c, s, step);
    assert Linked(s.db, step.resource);
    assert OverrideCleared(s.db, step.tenant, step.resource, step.key).Ok?;
    hide OverrideCleared;
    hide Placed;
    hide Next;
  }

  /** Tags do not depend on the stored values. */
  lemma ValuesDoNotTag(a: Db, b: Db, t: nat)
    requires b == a.(values := b.values) && t in a.tenants
    ensures TagOf(a, a, t) == TagOf(b, b, t)
  {
    var ids := Sql.OrderBy(ActiveResources(a, t));
    assert ActiveResources(b, t) == ActiveResources(a, t);
    forall r | r in ids ensures GetHeader(a, r) == GetHeader(b, r) {
    }
    SameHeaders(a, b, ids);
  }
}
