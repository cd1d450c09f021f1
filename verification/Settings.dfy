/** Admin settings: typed values with cross-field rules, updated under a revision. */
module Settings {
  import opened Wrappers
  import opened Text
  import Sql

  const SESSION_ABSOLUTE_HOURS: string := "session_absolute_hours"
  const SESSION_IDLE_MINUTES: string := "session_idle_minutes"
  const API_CLIENT_DEFAULT_RPM: string := "api_client_default_rpm"
  const API_CLIENT_DEFAULT_TTL_DAYS: string := "api_client_default_ttl_days"
  const USAGE_RETENTION_MONTHS: string := "usage_retention_months"
  const AUDIT_RETENTION_DAYS: string := "audit_retention_days"
  const DEFAULT_LOCALE: string := "default_locale"
  const WEBHOOK_DELIVERY_RETENTION_DAYS: string := "webhook_delivery_retention_days"
  const OUTBOX_EVENT_RETENTION_DAYS: string := "outbox_event_retention_days"

  const KEYS: set<string> := {
    SESSION_ABSOLUTE_HOURS, SESSION_IDLE_MINUTES, API_CLIENT_DEFAULT_RPM, API_CLIENT_DEFAULT_TTL_DAYS,
    USAGE_RETENTION_MONTHS,
    AUDIT_RETENTION_DAYS, DEFAULT_LOCALE, WEBHOOK_DELIVERY_RETENTION_DAYS, OUTBOX_EVENT_RETENTION_DAYS}

  datatype Definition = Integer(default_: int, minimum: int, maximum: int) | Enum(option: string, options: seq<string>)

  /** The registry. */
  function DefinitionOf(key: string): Option<Definition> {
    if key == SESSION_ABSOLUTE_HOURS then Some(Integer(8, 1, 24))
    else if key == SESSION_IDLE_MINUTES then Some(Integer(30, 5, 120))
    else if key == API_CLIENT_DEFAULT_RPM then Some(Integer(300, 1, 10_000))
    else if key == API_CLIENT_DEFAULT_TTL_DAYS then Some(Integer(90, 1, 365))
    else if key == USAGE_RETENTION_MONTHS then Some(Integer(6, 1, 24))
    else if key == WEBHOOK_DELIVERY_RETENTION_DAYS then Some(Integer(30, 7, 365))
    else if key == OUTBOX_EVENT_RETENTION_DAYS then Some(Integer(90, 30, 730))
    else if key == AUDIT_RETENTION_DAYS then Some(Integer(180, 30, 730))
    else if key == DEFAULT_LOCALE then Some(Enum("pt-BR", ["pt-BR", "en-US", "es-ES"]))
    else None
  }

  function DefaultText(d: Definition): string {
    if d.Integer? then Itoa(d.default_) else d.option
  }

  lemma KeysAreDefined(key: string)
    ensures key in KEYS <==> DefinitionOf(key).Some?
  {
  }

  function Defaults(): map<string, string> {
    map key | key in KEYS && DefinitionOf(key).Some? :: DefaultText(DefinitionOf(key).value)
  }

  // ----- Validation -----

  /** The stored form of a raw value, if it is acceptable. */
  function Normalize(key: string, raw: string): Option<string> {
    var d := DefinitionOf(key);
    var value := TrimSpace(raw);
    if d.None? then None
    else if d.value.Integer? then
      var n := Atoi(value);
      if n.None? || n.value < d.value.minimum || n.value > d.value.maximum then None else Some(Itoa(n.value))
    else if value in d.value.options then Some(value) else None
  }

  predicate AllAcceptable(updates: map<string, string>) {
    forall key :: key in updates ==> Normalize(key, updates[key]).Some?
  }

  function Normalized(updates: map<string, string>): map<string, string> {
    map key | key in updates && Normalize(key, updates[key]).Some? :: Normalize(key, updates[key]).value
  }

  /** What a reader sees: defaults, overridden by what is stored. */
  function View(stored: map<string, string>): map<string, string> {
    Defaults() + stored
  }

  function KnownOnly(values: map<string, string>): map<string, string> {
    map key | key in values && key in KEYS :: values[key]
  }

  function NumberAt(values: map<string, string>, key: string): int {
    if key in values then AtoiOrBound(values[key]) else 0
  }

  predicate SessionRule(values: map<string, string>) {
    NumberAt(values, SESSION_IDLE_MINUTES) <= NumberAt(values, SESSION_ABSOLUTE_HOURS) * 60
  }

  predicate RetentionRule(values: map<string, string>) {
    NumberAt(values, OUTBOX_EVENT_RETENTION_DAYS) >= NumberAt(values, WEBHOOK_DELIVERY_RETENTION_DAYS)
  }

  datatype Error =
    | Nothing | UnknownSetting | OutOfRange | Unsupported
    | IdleExceedsAbsolute | EventsShorter | RevisionConflict | Incomplete

  predicate Accepts(updates: map<string, string>, current: map<string, string>) {
    && updates != map[] && AllAcceptable(updates)
    && SessionRule(Merged(current, Normalized(updates))) && RetentionRule(Merged(current, Normalized(updates)))
  }

  lemma Pick(s: set<string>) returns (x: string)
    requires s != {}
    ensures x in s
  {
    x := Sql.Pick(s);
  }

  method NormalizeAll(updates: map<string, string>) returns (r: Result<map<string, string>, Error>)
    ensures r.Ok? <==> AllAcceptable(updates)
    ensures r.Ok? ==> r.value == Normalized(updates)
  {
    hide Normalize;
    var normalized: map<string, string> := map[];
    var left := updates.Keys;
    while left != {}
      invariant left <= updates.Keys && normalized.Keys == updates.Keys - left
      invariant forall key :: key in normalized ==> Normalize(key, updates[key]) == Some(normalized[key])
      decreases |left|
    {
      ghost var some := Pick(left);
      var key: string :| key in left;
      var value := NormalizeOne(key, updates[key]);
      if value.Err? {
        return Err(value.error);
      }
      normalized := normalized[key := value.value];
      left := left - {key};
    }
    assert normalized == Normalized(updates);
    return Ok(normalized);
  }

  function Merged(current: map<string, string>, normalized: map<string, string>): map<string, string> {
    Defaults() + KnownOnly(current) + normalized
  }

  /** Every update is checked and normalised, then the rules are checked on the merged
      values. Keys come in no particular order, so the error of the first bad one may
      be that of any. */
  method Validate(updates: map<string, string>,
      current: map<string, string>) returns (r: Result<map<string, string>, Error>)
    ensures r.Ok? <==> Accepts(updates, current)
    ensures r.Ok? ==> r.value == Normalized(updates)
  {
    hide AllAcceptable;
    hide Normalized;
    hide Merged;
    if |updates| == 0 {
      assert updates == map[];
      return Err(Nothing);
    }
    var normalized := NormalizeAll(updates);
    if normalized.Err? {
      return normalized;
    }
    var merged := Merged(current, normalized.value);
    if NumberAt(merged, SESSION_IDLE_MINUTES) > NumberAt(merged, SESSION_ABSOLUTE_HOURS) * 60 {
      return Err(IdleExceedsAbsolute);
    }
    if NumberAt(merged, OUTBOX_EVENT_RETENTION_DAYS) < NumberAt(merged, WEBHOOK_DELIVERY_RETENTION_DAYS) {
      return Err(EventsShorter);
    }
    return normalized;
  }

  method NormalizeOne(key: string, raw: string) returns (r: Result<string, Error>)
    ensures r.Ok? <==> Normalize(key, raw).Some?
    ensures r.Ok? ==> Normalize(key, raw) == Some(r.value)
  {
    var definition := DefinitionOf(key);
    if definition.None? {
      return Err(UnknownSetting);
    }
    var value := TrimSpace(raw);
    match definition.value
    case Integer(_, minimum, maximum) =>
      var number := Atoi(value);
      if number.None? || number.value < minimum || number.value > maximum {
        return Err(OutOfRange);
      }
      return Ok(Itoa(number.value));
    case Enum(_, options) =>
      var found := Contains(options, value);
      if !found {
        return Err(Unsupported);
      }
      return Ok(value);
  }

  method Contains(values: seq<string>, target: string) returns (found: bool)
    ensures found <==> target in values
  {
    for i := 0 to |values|
      invariant target !in values[..i]
    {
      if values[i] == target {
        return true;
      }
    }
    assert values[..|values|] == values;
    return false;
  }

  // ----- Stored settings -----

  /** Every stored value is known and already normal, and both rules hold of the very
      map a reader gets. */
  ghost predicate Consistent(stored: map<string, string>) {
    && Normal(stored) && SessionRule(View(stored)) && RetentionRule(View(stored))
  }

  lemma LocalesAreTrimmed(value: string)
    requires value in ["pt-BR", "en-US", "es-ES"]
    ensures TrimSpace(value) == value
  {
    TrimmedStays(value);
  }

  lemma NormalIsStable(key: string, raw: string)
    requires Normalize(key, raw).Some?
    ensures Normalize(key, Normalize(key, raw).value) == Normalize(key, raw)
  {
    var d := DefinitionOf(key).value;
    if d.Integer? {
      var n := Atoi(TrimSpace(raw)).value;
      ItoaIsTrimmed(n);
      AtoiReadsItoa(n);
    } else {
      LocalesAreTrimmed(TrimSpace(raw));
    }
  }

  lemma OnlyKnown(stored: map<string, string>)
    requires Normal(stored)
    ensures KnownOnly(stored) == stored
  {
    forall key | key in stored ensures key in KEYS {
      KeysAreDefined(key);
    }
  }

  lemma UpdateKeepsNormal(stored: map<string, string>, updates: map<string, string>, key: string)
    requires (key in stored ==> Normalize(key, stored[key]) == Some(stored[key])) && key in stored + Normalized(updates)
    ensures var next := stored + Normalized(updates);
      Normalize(key, next[key]) == Some(next[key])
  {
    if key in updates && Normalize(key, updates[key]).Some? {
      NormalIsStable(key, updates[key]);
    }
    hide Normalize;
  }

  /** The rules were checked on the very map that is read back. */
  lemma MergedIsView(stored: map<string, string>, normalized: map<string, string>)
    requires KnownOnly(stored) == stored
    ensures Merged(stored, normalized) == View(stored + normalized)
  {
    hide KnownOnly;
    hide Defaults;
  }

  /** An accepted update leaves consistent settings. */
  lemma UpdateKeepsConsistent(stored: map<string, string>, updates: map<string, string>)
    requires Consistent(stored) && Accepts(updates, stored)
    ensures Consistent(stored + Normalized(updates))
  {
    OnlyKnown(stored);
    MergedIsView(stored, Normalized(updates));
    hide View;
    hide Merged;
    hide SessionRule;
    hide RetentionRule;
    hide Normalize;
    hide Normalized;
    hide KnownOnly;
    var next := stored + Normalized(updates);
    forall key | key in next ensures Normalize(key, next[key]) == Some(next[key]) {
      UpdateKeepsNormal(stored, updates, key);
    }
  }

  /** Text as Validate stores it, or as the registry defaults it. */
  lemma TextInRange(d: Definition, text: string, n: int)
    requires d.Integer? && d.minimum <= n <= d.maximum && text == Itoa(n) && MIN_INT64 <= n <= MAX_INT64
    ensures Atoi(text) == Some(n) && AtoiOrBound(text) == n
  {
    AtoiReadsItoa(n);
    AtoiAgrees(text);
  }

  lemma DefaultIsValid(key: string, d: Definition)
    requires DefinitionOf(key) == Some(d) && d.Integer?
    ensures MIN_INT64 <= d.minimum <= d.default_ <= d.maximum <= MAX_INT64
    ensures key in Defaults() && Defaults()[key] == Itoa(d.default_)
  {
    KeysAreDefined(key);
    hide Itoa;
  }

  lemma NormalIsInRange(key: string, d: Definition, text: string)
    requires DefinitionOf(key) == Some(d) && d.Integer? && Normalize(key, text) == Some(text)
    ensures Atoi(text).Some? && d.minimum <= Atoi(text).value <= d.maximum && AtoiOrBound(text) == Atoi(text).value
  {
    hide DefinitionOf;
    var n := Atoi(TrimSpace(text)).value;
    AtoiReadsItoa(n);
    AtoiAgrees(text);
  }

  lemma NumberInRange(stored: map<string, string>, key: string, d: Definition)
    requires Normal(stored) && DefinitionOf(key) == Some(d) && d.Integer?
    ensures key in View(stored) && Atoi(View(stored)[key]) == Some(NumberAt(View(stored), key))
    ensures d.minimum <= NumberAt(View(stored), key) <= d.maximum
  {
    DefaultIsValid(key, d);
    if key in stored {
      NormalIsInRange(key, d, stored[key]);
    } else {
      TextInRange(d, Itoa(d.default_), d.default_);
    }
    hide DefinitionOf;
    hide Defaults;
    hide Normalize;
    hide Atoi;
    hide AtoiOrBound;
    hide Itoa;
  }

  const HOUR: int := 3_600 * 1_000_000_000
  const MINUTE: int := 60 * 1_000_000_000

  function SessionPolicy(values: map<string, string>): Result<(int, int), Error> {
    var hours := if SESSION_ABSOLUTE_HOURS in values then Atoi(values[SESSION_ABSOLUTE_HOURS]) else None;
    var minutes := if SESSION_IDLE_MINUTES in values then Atoi(values[SESSION_IDLE_MINUTES]) else None;
    if hours.None? || minutes.None? then Err(OutOfRange) else Ok((hours.value * HOUR, minutes.value * MINUTE))
  }

  function WebhookRetention(values: map<string, string>): Result<(int, int), Error> {
    var deliveries :=
      if WEBHOOK_DELIVERY_RETENTION_DAYS in values then Atoi(values[WEBHOOK_DELIVERY_RETENTION_DAYS]) else None;
    var events := if OUTBOX_EVENT_RETENTION_DAYS in values then Atoi(values[OUTBOX_EVENT_RETENTION_DAYS]) else None;
    if deliveries.None? || events.None? then Err(OutOfRange) else Ok((deliveries.value, events.value))
  }

  ghost predicate Normal(stored: map<string, string>) {
    forall k :: k in stored ==> Normalize(k, stored[k]) == Some(stored[k])
  }

  lemma SessionNumbers(stored: map<string, string>)
    requires Normal(stored)
    ensures SessionPolicy(View(stored)) ==
      Ok((NumberAt(View(stored), SESSION_ABSOLUTE_HOURS) * HOUR, NumberAt(View(stored), SESSION_IDLE_MINUTES) * MINUTE))
    ensures 1 <= NumberAt(View(stored), SESSION_ABSOLUTE_HOURS) <= 24
    ensures 5 <= NumberAt(View(stored), SESSION_IDLE_MINUTES) <= 120
  {
    NumberInRange(stored, SESSION_ABSOLUTE_HOURS, Integer(8, 1, 24));
    NumberInRange(stored, SESSION_IDLE_MINUTES, Integer(30, 5, 120));
    hide View;
    hide Normal;
    hide NumberAt;
    hide Atoi;
  }

  lemma RetentionNumbers(stored: map<string, string>)
    requires Normal(stored)
    ensures WebhookRetention(View(stored)) ==
      Ok((NumberAt(View(stored), WEBHOOK_DELIVERY_RETENTION_DAYS), NumberAt(View(stored), OUTBOX_EVENT_RETENTION_DAYS)))
    ensures 7 <= NumberAt(View(stored), WEBHOOK_DELIVERY_RETENTION_DAYS)
  {
    NumberInRange(stored, WEBHOOK_DELIVERY_RETENTION_DAYS, Integer(30, 7, 365));
    NumberInRange(stored, OUTBOX_EVENT_RETENTION_DAYS, Integer(90, 30, 730));
    hide View;
    hide Normal;
    hide NumberAt;
    hide Atoi;
  }

  lemma PolicyInDuration(hours: int, minutes: int)
    requires 1 <= hours <= 24 && 5 <= minutes <= 120 && minutes <= hours * 60
    ensures 0 < minutes * MINUTE <= hours * HOUR <= 24 * HOUR && (minutes * MINUTE) % 1_000_000_000 == 0
  {
    assert minutes * MINUTE == (minutes * 60) * 1_000_000_000;
  }

  /** Consistent settings always yield a policy sessions can be created under ... */
  lemma SessionPolicyIsUsable(stored: map<string, string>)
    requires Normal(stored) && SessionRule(View(stored))
    ensures SessionPolicy(View(stored)).Ok?
    ensures var p := SessionPolicy(View(stored)).value; 0 < p.1 <= p.0 <= 24 * HOUR && p.1 % 1_000_000_000 == 0
  {
    SessionNumbers(stored);
    hide View;
    hide Normal;
    hide NumberAt;
    hide SessionPolicy;
    PolicyInDuration(NumberAt(View(stored), SESSION_ABSOLUTE_HOURS), NumberAt(View(stored), SESSION_IDLE_MINUTES));
  }

  /** ... and retention times that keep an event as long as its deliveries. */
  lemma RetentionIsUsable(stored: map<string, string>)
    requires Normal(stored) && RetentionRule(View(stored))
    ensures WebhookRetention(View(stored)).Ok?
    ensures var w := WebhookRetention(View(stored)).value; 7 <= w.0 <= w.1
  {
    RetentionNumbers(stored);
    hide View;
    hide Normal;
    hide NumberAt;
    hide WebhookRetention;
  }

  lemma DefaultNumber(key: string, d: Definition)
    requires DefinitionOf(key) == Some(d) && d.Integer?
    ensures NumberAt(View(map[]), key) == d.default_
  {
    DefaultIsValid(key, d);
    TextInRange(d, Itoa(d.default_), d.default_);
    hide DefinitionOf;
    hide Defaults;
    hide Itoa;
    hide Atoi;
    hide AtoiOrBound;
  }

  lemma DefaultsAreConsistent()
    ensures Consistent(map[])
  {
    DefaultNumber(SESSION_ABSOLUTE_HOURS, Integer(8, 1, 24));
    DefaultNumber(SESSION_IDLE_MINUTES, Integer(30, 5, 120));
    DefaultNumber(WEBHOOK_DELIVERY_RETENTION_DAYS, Integer(30, 7, 365));
    DefaultNumber(OUTBOX_EVENT_RETENTION_DAYS, Integer(90, 30, 730));
    hide View;
    hide NumberAt;
  }

  // ----- Revisions -----

  datatype State = State(revision: int, stored: map<string, string>)

  /** A successful update writes the normalised values and the next revision. */
  function Updated(s: State, expected: int, complete: bool, updates: map<string, string>): Result<State, Error> {
    if expected <= 0 || !complete then Err(Incomplete)
    else if s.revision != expected then Err(RevisionConflict)
    else if !Accepts(updates, s.stored) then Err(Unsupported)
    else Ok(State(s.revision + 1, s.stored + Normalized(updates)))
  }

  /** One upsert per normalised value. */
  method StoreAll(stored: map<string, string>, normalized: map<string, string>) returns (current: map<string, string>)
    ensures current == stored + normalized
  {
    current := stored;
    var left := normalized.Keys;
    while left != {}
      invariant left <= normalized.Keys && current.Keys == stored.Keys + (normalized.Keys - left)
      invariant forall key :: key in normalized && key !in left ==> current[key] == normalized[key]
      invariant forall key :: key in stored && (key !in normalized || key in left) ==> current[key] == stored[key]
      decreases |left|
    {
      ghost var some := Pick(left);
      var key: string :| key in left;
      current := current[key := normalized[key]];
      left := left - {key};
    }
  }

  class Repository {
    var state: State

    constructor (state: State)
      ensures this.state == state
    {
      this.state := state;
    }

    /** `complete` stands for the transaction, actor and repository being given. The
        revision row is locked, so the transaction is atomic. */
    method Update(expected: int, complete: bool,
        updates: map<string, string>) returns (r: Result<map<string, string>, Error>)
      modifies this
      ensures r.Ok? <==> Updated(old(state), expected, complete, updates).Ok?
      ensures r.Ok? ==> state == Updated(old(state), expected, complete, updates).value && r.value == View(state.stored)
      ensures r.Err? ==> state == old(state)
    {
      hide Accepts;
      hide Normalized;
      hide Defaults;
      if expected <= 0 || !complete {
        return Err(Incomplete);
      }
      if state.revision != expected {
        return Err(RevisionConflict);
      }
      var normalized := Validate(updates, state.stored);
      if normalized.Err? {
        return Err(normalized.error);
      }
      var current := StoreAll(state.stored, normalized.value);
      state := State(state.revision + 1, current);
      return Ok(Defaults() + current);
    }
  }

  /** A run: at each step one update is tried. */
  datatype Attempt = Attempt(expected: int, complete: bool, updates: map<string, string>)

  function After(s: State, a: Attempt): State {
    var r := Updated(s, a.expected, a.complete, a.updates);
    if r.Ok? then r.value else s
  }

  ghost predicate Execution(states: seq<State>, attempts: seq<Attempt>) {
    && |states| == |attempts| + 1 && states[0].revision > 0 && Consistent(states[0].stored)
    && forall i :: 0 <= i < |attempts| ==> states[i + 1] == After(states[i], attempts[i])
  }

  lemma {:induction false} EveryRunIsConsistent(states: seq<State>, attempts: seq<Attempt>, i: nat)
    requires Execution(states, attempts) && i < |states|
    ensures Consistent(states[i].stored) && states[i].revision > 0
  {
    hide Accepts;
    hide Consistent;
    if i > 0 {
      EveryRunIsConsistent(states, attempts, i - 1);
      var a := attempts[i - 1];
      if Accepts(a.updates, states[i - 1].stored) {
        UpdateKeepsConsistent(states[i - 1].stored, a.updates);
      }
    }
  }

  predicate Succeeds(s: State, a: Attempt) { Updated(s, a.expected, a.complete, a.updates).Ok? }

  function Successes(states: seq<State>, attempts: seq<Attempt>, i: nat, j: nat): nat
    requires i <= j <= |attempts| && |states| == |attempts| + 1
  {
    if i == j then 0
    else Successes(states, attempts, i, j - 1) + if Succeeds(states[j - 1], attempts[j - 1]) then 1 else 0
  }

  /** Revisions grow by one per success and by nothing else; while the revision stays,
      so do the values. */
  lemma {:induction false} RevisionCountsSuccesses(states: seq<State>, attempts: seq<Attempt>, i: nat, j: nat)
    requires Execution(states, attempts) && i <= j < |states|
    ensures states[j].revision == states[i].revision + Successes(states, attempts, i, j)
    ensures states[j].revision == states[i].revision ==> states[j] == states[i]
    decreases j
  {
    hide Accepts;
    hide Normalized;
    hide Consistent;
    if i < j {
      RevisionCountsSuccesses(states, attempts, i, j - 1);
      assert states[j] == After(states[j - 1], attempts[j - 1]);
    }
  }

  /** A snapshot reads the revision at i and the values at j, later. An update that is
      accepted at k with that revision was based on exactly the values then stored,
      although the two reads were not atomic. */
  lemma NoLostUpdate(states: seq<State>, attempts: seq<Attempt>, i: nat, j: nat, k: nat)
    requires Execution(states, attempts) && i <= j <= k < |attempts|
    requires attempts[k].expected == states[i].revision && Succeeds(states[k], attempts[k])
    ensures View(states[j].stored) == View(states[k].stored)
    ensures states[k + 1].stored == states[j].stored + Normalized(attempts[k].updates)
  {
    hide Accepts;
    hide Normalized;
    RevisionCountsSuccesses(states, attempts, i, k);
    RevisionCountsSuccesses(states, attempts, i, j);
    RevisionCountsSuccesses(states, attempts, j, k);
  }

  /** Of several updates that name one revision at most one succeeds. */
  lemma OneWinnerPerRevision(states: seq<State>, attempts: seq<Attempt>, k: nat, m: nat)
    requires Execution(states, attempts) && k < m < |attempts|
    requires Succeeds(states[k], attempts[k]) && attempts[k].expected == attempts[m].expected
    ensures !Succeeds(states[m], attempts[m])
  {
    hide Accepts;
    hide Normalized;
    RevisionCountsSuccesses(states, attempts, k + 1, m);
  }

  lemma PolicyIsSeen(stored: map<string, string>)
    ensures var p := SessionPolicy(View(stored));
      p.Ok? ==> p.value == (Seen(stored, "session_absolute_hours") * 3_600_000_000_000,
                            Seen(stored, "session_idle_minutes") * 60_000_000_000)
    ensures var w := WebhookRetention(View(stored));
      w.Ok? ==> w.value == (Seen(stored, "webhook_delivery_retention_days"),
                            Seen(stored, "outbox_event_retention_days"))
  {
    hide View;
    hide Atoi;
  }

  /** Every reader of every run gets a usable policy, made of the numbers stored. */
  lemma PolicyNeverRejected(states: seq<State>, attempts: seq<Attempt>, i: nat)
    requires Execution(states, attempts) && i < |states|
    ensures SessionPolicy(View(states[i].stored)).Ok? && WebhookRetention(View(states[i].stored)).Ok?
    ensures var stored, p := states[i].stored, SessionPolicy(View(states[i].stored)).value;
      0 < p.1 <= p.0 && p == (Seen(stored, "session_absolute_hours") * 3_600_000_000_000,
                              Seen(stored, "session_idle_minutes") * 60_000_000_000)
    ensures var stored, w := states[i].stored, WebhookRetention(View(states[i].stored)).value;
      0 < w.0 <= w.1
      && w == (Seen(stored, "webhook_delivery_retention_days"), Seen(stored, "outbox_event_retention_days"))
  {
    PolicyIsSeen(states[i].stored);
    EveryRunIsConsistent(states, attempts, i);
    SessionPolicyIsUsable(states[i].stored);
    RetentionIsUsable(states[i].stored);
    hide View;
    hide SessionPolicy;
    hide WebhookRetention;
    hide SessionRule;
    hide RetentionRule;
  }

  // ----- What readers see -----

  /** The whole-number settings with their bounds and what holds before any update. */
  datatype Range = Range(key: string, low: int, high: int, initial: int)

  const RANGES: seq<Range> := [
    Range("session_absolute_hours", 1, 24, 8), Range("session_idle_minutes", 5, 120, 30),
    Range("api_client_default_rpm", 1, 10_000, 300), Range("api_client_default_ttl_days", 1, 365, 90),
    Range("usage_retention_months", 1, 24, 6), Range("audit_retention_days", 30, 730, 180),
    Range("webhook_delivery_retention_days", 7, 365, 30), Range("outbox_event_retention_days", 30, 730, 90)]

  lemma RangeOf(n: nat)
    requires n < |RANGES|
    ensures var g := RANGES[n]; DefinitionOf(g.key) == Some(Integer(g.initial, g.low, g.high))
  {
  }

  /** In every reachable state a reader finds, under each of these keys, a number within
      its bounds; before any update it is the initial one. */
  lemma NumbersAreInRange(states: seq<State>, attempts: seq<Attempt>, i: nat, n: nat)
    requires Execution(states, attempts) && i < |states| && n < |RANGES|
    ensures var g, seen := RANGES[n], View(states[i].stored);
      g.key in seen && Atoi(seen[g.key]).Some? && g.low <= Atoi(seen[g.key]).value <= g.high
    ensures RANGES[n].key in View(map[]) && View(map[])[RANGES[n].key] == Itoa(RANGES[n].initial)
  {
    hide *;
    EveryRunIsConsistent(states, attempts, i);
    RangeOf(n);
    NumberRead(states[i].stored, RANGES[n]);
  }

  lemma NumberRead(stored: map<string, string>, g: Range)
    requires Consistent(stored) && DefinitionOf(g.key) == Some(Integer(g.initial, g.low, g.high))
    ensures var seen := View(stored);
      g.key in seen && Atoi(seen[g.key]).Some? && g.low <= Atoi(seen[g.key]).value <= g.high
    ensures g.key in View(map[]) && View(map[])[g.key] == Itoa(g.initial)
  {
    hide *;
    ConsistentIsNormal(stored);
    NumberInRange(stored, g.key, Integer(g.initial, g.low, g.high));
    DefaultIsValid(g.key, Integer(g.initial, g.low, g.high));
    ViewOfNothing();
  }

  lemma ConsistentIsNormal(stored: map<string, string>)
    requires Consistent(stored)
    ensures Normal(stored)
  {
  }

  lemma ViewOfNothing()
    ensures View(map[]) == Defaults()
  {
  }

  /** The number given, in plain decimals; a locale as given. Spaces around are dropped. */
  lemma NormalizeKeepsValue(key: string, raw: string)
    ensures Normalize(key, raw).Some? && DefinitionOf(key).value.Integer? ==>
      && Atoi(TrimSpace(raw)).Some? && Atoi(Normalize(key, raw).value) == Atoi(TrimSpace(raw))
      && Normalize(key, raw).value == Itoa(Atoi(TrimSpace(raw)).value)
    ensures Normalize(key, raw).Some? && key == "default_locale" ==>
      Normalize(key, raw).value == TrimSpace(raw) && TrimSpace(raw) in ["pt-BR", "en-US", "es-ES"]
  {
    if Normalize(key, raw).Some? && DefinitionOf(key).value.Integer? {
      AtoiReadsItoa(Atoi(TrimSpace(raw)).value);
    }
  }

  lemma IntegerIsAccepted(key: string, raw: string, d: Definition)
    requires DefinitionOf(key) == Some(d) && d.Integer?
    ensures Normalize(key, raw).Some? <==>
      Atoi(TrimSpace(raw)).Some? && d.minimum <= Atoi(TrimSpace(raw)).value <= d.maximum
  {
    hide DefinitionOf;
    hide Atoi;
    hide TrimSpace;
  }

  /** What one update value must be: a number within its key's bounds, or a locale. */
  ghost predicate Acceptable(key: string, raw: string) {
    || (key == "default_locale" && TrimSpace(raw) in ["pt-BR", "en-US", "es-ES"])
    || exists n :: 0 <= n < |RANGES| && InRange(n, key, raw)
  }

  predicate InRange(n: nat, key: string, raw: string)
    requires n < |RANGES|
  {
    RANGES[n].key == key && Atoi(TrimSpace(raw)).Some?
    && RANGES[n].low <= Atoi(TrimSpace(raw)).value <= RANGES[n].high
  }

  lemma KnownKey(key: string)
    ensures DefinitionOf(key).Some? ==>
      key == "default_locale" || exists n :: 0 <= n < |RANGES| && RANGES[n].key == key
    ensures DefinitionOf("default_locale") == Some(Enum("pt-BR", ["pt-BR", "en-US", "es-ES"]))
  {
    if DefinitionOf(key).Some? && key != "default_locale" {
      if key == SESSION_ABSOLUTE_HOURS {
        assert RANGES[0].key == key;
      } else if key == SESSION_IDLE_MINUTES {
        assert RANGES[1].key == key;
      } else if key == API_CLIENT_DEFAULT_RPM {
        assert RANGES[2].key == key;
      } else if key == API_CLIENT_DEFAULT_TTL_DAYS {
        assert RANGES[3].key == key;
      } else if key == USAGE_RETENTION_MONTHS {
        assert RANGES[4].key == key;
      } else if key == AUDIT_RETENTION_DAYS {
        assert RANGES[5].key == key;
      } else if key == WEBHOOK_DELIVERY_RETENTION_DAYS {
        assert RANGES[6].key == key;
      } else {
        assert RANGES[7].key == key;
      }
    }
  }

  lemma NormalizesIff(key: string, raw: string)
    ensures Normalize(key, raw).Some? <==> Acceptable(key, raw)
  {
    KnownKey(key);
    hide Atoi;
    hide TrimSpace;
    forall n | 0 <= n < |RANGES| && RANGES[n].key == key
      ensures Normalize(key, raw).Some? <==> InRange(n, key, raw)
      ensures key != "default_locale"
    {
      RangeOf(n);
      IntegerIsAccepted(key, raw, Integer(RANGES[n].initial, RANGES[n].low, RANGES[n].high));
    }
    hide DefinitionOf;
    if DefinitionOf(key).Some? && key != "default_locale" {
      var n :| 0 <= n < |RANGES| && RANGES[n].key == key;
      assert Normalize(key, raw).Some? <==> InRange(n, key, raw);
    }
  }

  lemma NumbersOfView(stored: map<string, string>)
    requires Normal(stored)
    ensures forall n :: 0 <= n < |RANGES| ==>
      RANGES[n].key in View(stored) && Atoi(View(stored)[RANGES[n].key]) == Some(NumberAt(View(stored), RANGES[n].key))
  {
    forall n | 0 <= n < |RANGES|
      ensures RANGES[n].key in View(stored)
      ensures Atoi(View(stored)[RANGES[n].key]) == Some(NumberAt(View(stored), RANGES[n].key))
    {
      RangeOf(n);
      NumberInRange(stored, RANGES[n].key, Integer(RANGES[n].initial, RANGES[n].low, RANGES[n].high));
    }
  }

  /** The number a reader would see under a key, or zero. */
  function Seen(stored: map<string, string>, key: string): int {
    if key in View(stored) && Atoi(View(stored)[key]).Some? then Atoi(View(stored)[key]).value else 0
  }

  /** The number an update asks for, or what was there. */
  function Wanted(stored: map<string, string>, updates: map<string, string>, key: string): int {
    if key in updates
    then (if Atoi(TrimSpace(updates[key])).Some? then Atoi(TrimSpace(updates[key])).value else 0)
    else Seen(stored, key)
  }

  lemma NextIsNormal(stored: map<string, string>, updates: map<string, string>)
    requires Normal(stored)
    ensures Normal(stored + Normalized(updates))
  {
    hide Normalize;
    forall key | key in stored + Normalized(updates)
      ensures Normalize(key, (stored + Normalized(updates))[key]) == Some((stored + Normalized(updates))[key])
    {
      UpdateKeepsNormal(stored, updates, key);
    }
  }

  lemma WantedIsSeen(stored: map<string, string>, updates: map<string, string>, n: nat)
    requires Normal(stored) && AllAcceptable(updates) && n < |RANGES|
    ensures var next, key := stored + Normalized(updates), RANGES[n].key;
      NumberAt(View(next), key) == Seen(next, key) == Wanted(stored, updates, key)
  {
    var next, key := stored + Normalized(updates), RANGES[n].key;
    NextIsNormal(stored, updates);
    NumbersOfView(next);
    RangeOf(n);
    if key in updates {
      NormalizeKeepsValue(key, updates[key]);
      assert next[key] == Normalize(key, updates[key]).value;
    } else {
      assert key !in Normalized(updates);
    }
    hide Normalize;
    hide DefinitionOf;
    hide Atoi;
    hide TrimSpace;
    hide Normal;
  }

  /** The rules in the numbers that would be read back. */
  predicate RulesHold(stored: map<string, string>, updates: map<string, string>) {
    && Wanted(stored, updates, "session_idle_minutes") <= 60 * Wanted(stored, updates, "session_absolute_hours")
    && Wanted(stored, updates, "outbox_event_retention_days") >=
         Wanted(stored, updates, "webhook_delivery_retention_days")
  }

  lemma AcceptsIff(stored: map<string, string>, updates: map<string, string>)
    requires Normal(stored)
    ensures Accepts(updates, stored) <==>
      updates != map[] && (forall key :: key in updates ==> Acceptable(key, updates[key]))
      && RulesHold(stored, updates)
  {
    forall key | key in updates ensures Normalize(key, updates[key]).Some? <==> Acceptable(key, updates[key]) {
      NormalizesIff(key, updates[key]);
    }
    hide Normalize;
    hide Acceptable;
    if AllAcceptable(updates) {
      OnlyKnown(stored);
      MergedIsView(stored, Normalized(updates));
      hide *;
      WantedIsSeen(stored, updates, 0);
      WantedIsSeen(stored, updates, 1);
      WantedIsSeen(stored, updates, 6);
      WantedIsSeen(stored, updates, 7);
      RulesIff(stored, updates);
    }
  }

  lemma RulesIff(stored: map<string, string>, updates: map<string, string>)
    requires Merged(stored, Normalized(updates)) == View(stored + Normalized(updates))
    requires forall n :: n in {0, 1, 6, 7} ==>
      NumberAt(View(stored + Normalized(updates)), RANGES[n].key) == Wanted(stored, updates, RANGES[n].key)
    ensures var merged := Merged(stored, Normalized(updates));
      SessionRule(merged) && RetentionRule(merged) <==> RulesHold(stored, updates)
  {
    assert RANGES[0].key == SESSION_ABSOLUTE_HOURS && RANGES[1].key == SESSION_IDLE_MINUTES;
    assert RANGES[6].key == WEBHOOK_DELIVERY_RETENTION_DAYS && RANGES[7].key == OUTBOX_EVENT_RETENTION_DAYS;
    hide Merged;
    hide View;
    hide Normalized;
    hide NumberAt;
    hide Wanted;
  }

  lemma OthersStay(stored: map<string, string>, updates: map<string, string>, key: string)
    requires key !in updates
    ensures (key in View(stored + Normalized(updates)) <==> key in View(stored))
    ensures key in View(stored) ==> View(stored + Normalized(updates))[key] == View(stored)[key]
  {
    hide Normalize;
  }

  lemma LocaleIsGiven(stored: map<string, string>, updates: map<string, string>)
    requires AllAcceptable(updates) && "default_locale" in updates
    ensures var seen := View(stored + Normalized(updates));
      "default_locale" in seen && seen["default_locale"] == TrimSpace(updates["default_locale"])
  {
    NormalizeKeepsValue("default_locale", updates["default_locale"]);
    hide Normalize;
    assert "default_locale" in Normalized(updates);
  }

  /** Which updates take effect in a run, and what is read afterwards: exactly those in
      full context, at the revision they name, with acceptable values for known keys
      whose numbers, with those that stay, keep idle within absolute and events as long
      as deliveries. Every number asked for is then read back, and nothing else moves. */
  lemma UpdateOutcome(states: seq<State>, attempts: seq<Attempt>, i: nat)
    requires Execution(states, attempts) && i < |attempts|
    ensures var s, n, a := states[i], states[i + 1], attempts[i];
      && (n != s <==>
            && a.complete && a.expected == s.revision && a.updates != map[]
            && (forall key :: key in a.updates ==> Acceptable(key, a.updates[key])) && RulesHold(s.stored, a.updates))
      && (n != s ==>
            && n.revision == s.revision + 1
            && (forall k :: 0 <= k < |RANGES| ==>
                  Seen(n.stored, RANGES[k].key) == Wanted(s.stored, a.updates, RANGES[k].key))
            && ("default_locale" in a.updates ==>
                  && "default_locale" in View(n.stored)
                  && View(n.stored)["default_locale"] == TrimSpace(a.updates["default_locale"]))
            && (forall key :: key !in a.updates && key in View(s.stored) ==>
                  key in View(n.stored) && View(n.stored)[key] == View(s.stored)[key]))
  {
    var s, a := states[i], attempts[i];
    assert states[i + 1] == After(s, a);
    hide Execution;
    EveryRunIsConsistent(states, attempts, i);
    ConsistentIsNormal(s.stored);
    AcceptsIff(s.stored, a.updates);
    hide Acceptable;
    hide RulesHold;
    hide Consistent;
    hide Normal;
    hide Normalized;
    hide View;
    hide Seen;
    hide Wanted;
    hide TrimSpace;
    if Accepts(a.updates, s.stored) {
      assert AllAcceptable(a.updates);
      hide Accepts;
      hide AllAcceptable;
      forall k | 0 <= k < |RANGES|
        ensures Seen(s.stored + Normalized(a.updates), RANGES[k].key) == Wanted(s.stored, a.updates, RANGES[k].key)
      {
        WantedIsSeen(s.stored, a.updates, k);
      }
      forall key | key !in a.updates && key in View(s.stored)
        ensures key in View(s.stored + Normalized(a.updates))
        ensures View(s.stored + Normalized(a.updates))[key] == View(s.stored)[key]
      {
        OthersStay(s.stored, a.updates, key);
      }
      if "default_locale" in a.updates {
        LocaleIsGiven(s.stored, a.updates);
      }
    }
  }
}
