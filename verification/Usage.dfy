/** Usage collection: a bounded queue of events, flushed in batches into daily counters
    and the clients' last use. */
module Usage {
  import opened Wrappers
  import Sql

  /** `at` is in nanoseconds since the epoch. */
  datatype Event = Event(client: nat, operation: string, status: int, rateLimited: bool, at: int)

  datatype Key = Key(day: int, client: nat, operation: string, statusClass: int)

  datatype Count = Count(requests: nat, rateLimited: nat)

  const DAY: int := 86_400_000_000_000
  const MINUTE: int := 60_000_000_000

  /** The zero time, midnight on the first day of year 1. */
  const ZERO_TIME: int := -62_135_596_800_000_000_000

  /** Go's integer division truncates towards zero. */
  function StatusClass(status: int): int {
    if status >= 0 then status / 100 else -((-status) / 100)
  }

  /** The UTC calendar day, counted from the epoch. */
  function DayOf(at: int): int { at / DAY }

  function KeyOf(e: Event): Key {
    Key(DayOf(e.at), e.client, e.operation, StatusClass(e.status))
  }

  // ----- Aggregation -----

  function Bumped(counts: map<Key, Count>, e: Event): map<Key, Count> {
    var count := if KeyOf(e) in counts then counts[KeyOf(e)] else Count(0, 0);
    counts[KeyOf(e) :=
             if e.rateLimited then count.(rateLimited := count.rateLimited + 1)
             else count.(requests := count.requests + 1)]
  }

  /** One aggregation of a list of events. */
  function Aggregate(events: seq<Event>): map<Key, Count> {
    if events == [] then map[] else Bumped(Aggregate(events[..|events| - 1]), events[|events| - 1])
  }

  /** The latest use of each client. */
  function LastUsed(events: seq<Event>): map<nat, int> {
    if events == [] then map[]
    else
      var rest, e := LastUsed(events[..|events| - 1]), events[|events| - 1];
      if e.at > (if e.client in rest then rest[e.client] else ZERO_TIME) then rest[e.client := e.at] else rest
  }

  method AggregateEvents(events: seq<Event>) returns (lastUsed: map<nat, int>, usage: map<Key, Count>)
    ensures usage == Aggregate(events) && lastUsed == LastUsed(events)
  {
    lastUsed, usage := map[], map[];
    for i := 0 to |events|
      invariant usage == Aggregate(events[..i]) && lastUsed == LastUsed(events[..i])
    {
      assert events[..i + 1][..i] == events[..i];
      var event := events[i];
      var current := if event.client in lastUsed then lastUsed[event.client] else ZERO_TIME;
      if event.at > current {
        lastUsed := lastUsed[event.client := event.at];
      }
      var key := Key(DayOf(event.at), event.client, event.operation, StatusClass(event.status));
      var count := if key in usage then usage[key] else Count(0, 0);
      if event.rateLimited {
        count := count.(rateLimited := count.rateLimited + 1);
      } else {
        count := count.(requests := count.requests + 1);
      }
      usage := usage[key := count];
    }
    assert events[..|events|] == events;
  }

  /** The event happened on the key's day, by its client, with its operation and a status
      of its class: the hundreds of the status, without its sign first. */
  predicate Belongs(e: Event, key: Key) {
    && key.day * 86_400_000_000_000 <= e.at < (key.day + 1) * 86_400_000_000_000
    && e.client == key.client && e.operation == key.operation
    && if e.status >= 0 then 100 * key.statusClass <= e.status < 100 * key.statusClass + 100
       else 100 * key.statusClass - 100 < e.status <= 100 * key.statusClass && key.statusClass <= 0
  }

  lemma BelongsIff(e: Event, key: Key)
    ensures Belongs(e, key) <==> KeyOf(e) == key
  {
    DivisionIs(e.at, DAY, key.day);
    if e.status >= 0 {
      DivisionIs(e.status, 100, key.statusClass);
    } else {
      DivisionIs(-e.status, 100, -key.statusClass);
    }
  }

  lemma DivisionIs(a: int, b: int, q: int)
    requires b > 0
    ensures a / b == q <==> q * b <= a < q * b + b
  {
    var x := a / b;
    assert x * b <= a < x * b + b;
    if q < x {
      MultiplesGrow(q + 1, x, b);
    } else if x < q {
      MultiplesGrow(x + 1, q, b);
    }
  }

  lemma MultiplesGrow(m: int, n: int, b: int)
    requires b > 0 && m <= n
    ensures m * b <= n * b
  {
  }

  /** How many events of this key were, or were not, rate limited. */
  function CountOf(events: seq<Event>, key: Key, limited: bool): nat {
    if events == [] then 0
    else
      var e := events[|events| - 1];
      CountOf(events[..|events| - 1], key, limited) + (if Belongs(e, key) && e.rateLimited == limited then 1 else 0)
  }

  /** Aggregation counts: a key has a row exactly when it has an event, and the row
      holds the two numbers of its events. */
  lemma {:induction false} AggregateCounts(events: seq<Event>, key: Key)
    ensures key in Aggregate(events) <==> CountOf(events, key, true) + CountOf(events, key, false) > 0
    ensures key in Aggregate(events) ==>
      Aggregate(events)[key] == Count(CountOf(events, key, false), CountOf(events, key, true))
    decreases |events|
  {
    if events != [] {
      BelongsIff(events[|events| - 1], key);
      hide Belongs;
      hide KeyOf;
      AggregateCounts(events[..|events| - 1], key);
    }
  }

  /** INSERT ... ON CONFLICT DO UPDATE adds to the row. */
  function Added(a: Count, b: Count): Count { Count(a.requests + b.requests, a.rateLimited + b.rateLimited) }

  function Merged(daily: map<Key, Count>, batch: map<Key, Count>): map<Key, Count> {
    map key | key in daily.Keys + batch.Keys ::
      if key in daily && key in batch then Added(daily[key], batch[key])
      else if key in daily then daily[key] else batch[key]
  }

  lemma MergedBump(daily: map<Key, Count>, batch: map<Key, Count>, e: Event)
    ensures Merged(daily, Bumped(batch, e)) == Bumped(Merged(daily, batch), e)
  {
  }

  /** Merging the aggregates of two parts gives the aggregate of the whole. */
  lemma {:induction false} AggregateSplits(a: seq<Event>, b: seq<Event>)
    ensures Aggregate(a + b) == Merged(Aggregate(a), Aggregate(b))
    decreases |b|
  {
    if b == [] {
      assert a + b == a;
      assert Merged(Aggregate(a), map[]) == Aggregate(a);
    } else {
      var n := |b| - 1;
      assert (a + b)[..|a| + n] == a + b[..n];
      AggregateSplits(a, b[..n]);
      MergedBump(Aggregate(a), Aggregate(b[..n]), b[n]);
    }
  }

  function Flattened(batches: seq<seq<Event>>): seq<Event> {
    if batches == [] then [] else Flattened(batches[..|batches| - 1]) + batches[|batches| - 1]
  }

  function AfterFlushes(batches: seq<seq<Event>>): map<Key, Count> {
    if batches == [] then map[] else Merged(AfterFlushes(batches[..|batches| - 1]), Aggregate(batches[|batches| - 1]))
  }

  /** However the events are split into flushes, the daily table is the one aggregation
      of them all. */
  lemma {:induction false} BatchingIsUnobservable(batches: seq<seq<Event>>)
    ensures AfterFlushes(batches) == Aggregate(Flattened(batches))
    decreases |batches|
  {
    if batches != [] {
      var n := |batches| - 1;
      BatchingIsUnobservable(batches[..n]);
      AggregateSplits(Flattened(batches[..n]), batches[n]);
    }
  }

  // ----- Last use -----

  /** The touch writes only when the stored time is more than a minute behind. */
  function Touched(last: Option<int>, used: int): Option<int> {
    if last.None? || last.value < used - MINUTE
    then Some(if last.Some? && last.value > used then last.value else used)
    else last
  }

  /** Stored time against the latest flushed use: none without a use, and otherwise
      never above it and at most a minute below. */
  predicate Close(last: Option<int>, latest: Option<int>) {
    if latest.None? then last.None? else last.Some? && latest.value - 60_000_000_000 <= last.value <= latest.value
  }

  function Later(a: Option<int>, b: Option<int>): Option<int> {
    if a.None? then b else if b.None? then a else if a.value >= b.value then a else b
  }

  lemma TouchStaysClose(last: Option<int>, latest: Option<int>, used: int)
    requires Close(last, latest)
    ensures Close(Touched(last, used), Later(latest, Some(used)))
    ensures last.Some? ==> Touched(last, used).Some? && Touched(last, used).value >= last.value
  {
  }

  function LatestUse(events: seq<Event>, client: nat): Option<int> {
    if client in LastUsed(events) then Some(LastUsed(events)[client]) else None
  }

  lemma {:induction false} LatestIsMax(events: seq<Event>, client: nat)
    ensures LatestUse(events, client).Some? ==> LatestUse(events, client).value > ZERO_TIME
    ensures forall e :: e in events && e.client == client && e.at > ZERO_TIME ==>
      LatestUse(events, client).Some? && e.at <= LatestUse(events, client).value
    ensures LatestUse(events, client).Some? ==>
      exists e :: e in events && e.client == client && e.at == LatestUse(events, client).value
    decreases |events|
  {
    if events != [] {
      var n := |events| - 1;
      LatestIsMax(events[..n], client);
      assert events == events[..n] + [events[n]];
      if LatestUse(events, client).Some? {
        if client == events[n].client && events[n].at == LatestUse(events, client).value {
          assert events[n] in events;
        } else {
          var e :| e in events[..n] && e.client == client && e.at == LatestUse(events[..n], client).value;
          assert e in events;
        }
      }
    }
  }

  lemma {:induction false} LatestSplits(a: seq<Event>, b: seq<Event>, client: nat)
    ensures LatestUse(a + b, client) == Later(LatestUse(a, client), LatestUse(b, client))
    decreases |b|
  {
    if b == [] {
      assert a + b == a;
    } else {
      var n := |b| - 1;
      assert (a + b)[..|a| + n] == a + b[..n];
      LatestSplits(a, b[..n], client);
      LatestIsMax(a, client);
      LatestIsMax(b[..n], client);
    }
  }

  // ----- The collector -----

  class Collector {
    const capacity: nat
    var queue: seq<Event>
    var dropped: nat
    var daily: map<Key, Count>
    var clients: map<nat, Option<int>>
    /** Every event flushed so far, and how many were recorded. */
    ghost var flushed: seq<Event>
    ghost var recorded: nat

    ghost predicate Valid()
      reads this
    {
      && |queue| <= capacity
      && recorded == |flushed| + |queue| + dropped
      && daily == Aggregate(flushed)
      && forall c :: c in clients ==> Close(clients[c], LatestUse(flushed, c))
    }

    constructor (capacity: nat, ids: set<nat>)
      ensures Valid() && this.capacity == capacity && queue == [] && dropped == 0 && flushed == []
      ensures clients.Keys == ids
    {
      this.capacity := capacity;
      queue, dropped, daily := [], 0, map[];
      clients := map c | c in ids :: None;
      flushed, recorded := [], 0;
    }

    /** Never blocks: a full queue drops the event and counts it. */
    method Record(event: Event, now: int)
      requires Valid()
      modifies this
      ensures Valid() && daily == old(daily) && clients == old(clients) && flushed == old(flushed)
      ensures recorded == old(recorded) + 1
      ensures var e := if event.at == -62_135_596_800_000_000_000 then event.(at := now) else event;
        if |old(queue)| < capacity then queue == old(queue) + [e] && dropped == old(dropped)
        else queue == old(queue) && dropped == old(dropped) + 1
    {
      var e := event;
      if e.at == ZERO_TIME {
        e := e.(at := now);
      }
      if |queue| < capacity {
        queue := queue + [e];
      } else {
        dropped := dropped + 1;
      }
      recorded := recorded + 1;
    }

    /** Drains the queue, then writes one aggregated batch. `arrivals` are the events
        that other callers manage to enqueue while the queue is being drained. All
        store calls succeed. */
    method Flush(arrivals: seq<Event>)
      requires Valid()
      modifies this
      ensures Valid() && queue == [] && dropped == old(dropped) && recorded == old(recorded) + |arrivals|
      ensures flushed == old(flushed) + old(queue) + arrivals
      ensures daily == Merged(old(daily), Aggregate(old(queue) + arrivals))
      ensures clients.Keys == old(clients).Keys
      ensures forall c :: c in clients && old(clients)[c].Some? ==>
        clients[c].Some? && clients[c].value >= old(clients)[c].value
      ensures forall c :: c in clients && clients[c] != old(clients)[c] ==>
        MovedByUse(old(clients)[c], clients[c], c, old(queue) + arrivals)
    {
      hide Aggregate;
      hide LastUsed;
      hide Merged;
      hide Touched;
      var events := Drain(queue, arrivals);
      queue := [];
      var lastUsed, usage := AggregateEvents(events);
      clients := TouchAll(clients, lastUsed);
      daily := UpsertAll(daily, usage);
      AggregateSplits(flushed, events);
      ClientsStayClose(old(clients), clients, flushed, events, lastUsed);
      TouchesAreSparse(old(clients), clients, events, lastUsed);
      assert flushed + (old(queue) + arrivals) == flushed + old(queue) + arrivals;
      flushed := flushed + events;
      recorded := recorded + |arrivals|;
    }
  }

  /** The stored time was missing or more than a minute behind, and became that of one of
      the client's flushed events. */
  ghost predicate MovedByUse(before: Option<int>, after: Option<int>, client: nat, events: seq<Event>) {
    exists e :: e in events && e.client == client && after == Some(e.at)
      && (before.None? || before.value < e.at - 60_000_000_000)
  }

  lemma TouchesAreSparse(before: map<nat, Option<int>>, after: map<nat, Option<int>>, events: seq<Event>,
      lastUsed: map<nat, int>)
    requires lastUsed == LastUsed(events) && after.Keys == before.Keys
    requires forall c :: c in before ==>
      after[c] == if c in lastUsed then Touched(before[c], lastUsed[c]) else before[c]
    ensures forall c :: c in after && after[c] != before[c] ==> MovedByUse(before[c], after[c], c, events)
  {
    forall c | c in after && after[c] != before[c] ensures MovedByUse(before[c], after[c], c, events) {
      LatestIsMax(events, c);
      var e :| e in events && e.client == c && e.at == LatestUse(events, c).value;
    }
  }

  lemma ClientsStayClose(before: map<nat, Option<int>>, after: map<nat, Option<int>>, flushed: seq<Event>,
      events: seq<Event>, lastUsed: map<nat, int>)
    requires lastUsed == LastUsed(events) && after.Keys == before.Keys
    requires forall c :: c in before ==> Close(before[c], LatestUse(flushed, c))
    requires forall c :: c in before ==>
      after[c] == if c in lastUsed then Touched(before[c], lastUsed[c]) else before[c]
    ensures forall c :: c in after ==> Close(after[c], LatestUse(flushed + events, c))
    ensures forall c :: c in after && before[c].Some? ==> after[c].Some? && after[c].value >= before[c].value
  {
    hide Touched;
    forall c | c in after
      ensures Close(after[c], LatestUse(flushed + events, c))
      ensures before[c].Some? ==> after[c].Some? && after[c].value >= before[c].value
    {
      LatestSplits(flushed, events, c);
      if c in lastUsed {
        TouchStaysClose(before[c], LatestUse(flushed, c), lastUsed[c]);
      }
    }
  }

  method TouchAll(clients: map<nat, Option<int>>, lastUsed: map<nat, int>) returns (touched: map<nat, Option<int>>)
    ensures touched.Keys == clients.Keys
    ensures forall c :: c in clients ==>
      touched[c] == if c in lastUsed then Touched(clients[c], lastUsed[c]) else clients[c]
  {
    touched := clients;
    var left := lastUsed.Keys;
    while left != {}
      invariant left <= lastUsed.Keys && touched.Keys == clients.Keys
      invariant forall c :: c in clients ==>
        touched[c] == if c in lastUsed && c !in left then Touched(clients[c], lastUsed[c]) else clients[c]
      decreases |left|
    {
      ghost var some := Sql.Pick(left);
      var c: nat :| c in left;
      if c in touched {
        touched := touched[c := Touched(touched[c], lastUsed[c])];
      }
      left := left - {c};
    }
  }

  /** The batch rows outside `left` are in. */
  ghost predicate Upserted(daily: map<Key, Count>, usage: map<Key, Count>, left: set<Key>, after: map<Key, Count>) {
    && (forall k :: k in after <==> k in daily || (k in usage && k !in left))
    && (forall k :: k in usage && k !in left ==> k in after && after[k] == UpsertedRow(daily, usage, k))
    && (forall k :: k in daily && (k !in usage || k in left) ==> k in after && after[k] == daily[k])
  }

  function UpsertedRow(daily: map<Key, Count>, usage: map<Key, Count>, k: Key): Count
    requires k in usage
  {
    if k in daily then Added(daily[k], usage[k]) else usage[k]
  }

  lemma UpsertedAll(daily: map<Key, Count>, usage: map<Key, Count>, after: map<Key, Count>)
    requires Upserted(daily, usage, {}, after)
    ensures after == Merged(daily, usage)
  {
  }

  method UpsertAll(daily: map<Key, Count>, usage: map<Key, Count>) returns (after: map<Key, Count>)
    ensures after == Merged(daily, usage)
  {
    hide Merged;
    after := daily;
    var left := usage.Keys;
    while left != {}
      invariant left <= usage.Keys && Upserted(daily, usage, left, after)
      decreases |left|
    {
      ghost var some := Sql.Pick(left);
      var k: Key :| k in left;
      after := after[k := if k in after then Added(after[k], usage[k]) else usage[k]];
      left := left - {k};
    }
    UpsertedAll(daily, usage, after);
  }

  /** Reads events until none is waiting. */
  method Drain(queue: seq<Event>, arrivals: seq<Event>) returns (events: seq<Event>)
    ensures events == queue + arrivals
  {
    events := [];
    var pending, coming := queue, arrivals;
    while pending != [] || coming != []
      invariant events + pending + coming == queue + arrivals
      decreases |pending| + 2 * |coming|
    {
      if pending != [] {
        events, pending := events + [pending[0]], pending[1..];
      } else {
        pending, coming := [coming[0]], coming[1..];
      }
    }
  }
}
