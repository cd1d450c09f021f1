/** The API client rate limiter: an in-memory token bucket and the Lua script
    that keeps the same bucket in a key with a time to live.

    Amounts are exact integers. A bucket holds `units`; one request costs one
    token, and the bucket of a client allowed `rpm` requests a minute gains
    `rpm` units per clock tick. With nanosecond ticks (`Memory`) a token is
    60e9 units, with millisecond ticks (the script) it is 60000 units. */
module RateLimit {
  import opened Wrappers

  const MEMORY_TOKEN: int := 60_000_000_000
  const LUA_TOKEN: int := 60_000
  const NS_PER_MS: int := 1_000_000
  const NS_PER_SECOND: int := 1_000_000_000
  const MAX_INT32: int := 0x7fff_ffff
  const MAX_INT64: int := 0x7fff_ffff_ffff_ffff

  datatype Bucket = Bucket(units: int, at: int)

  datatype Reply = Reply(allowed: bool, limit: int, remaining: int, retryAfter: int, resetAfter: int)

  function Min(a: int, b: int): int { if a <= b then a else b }

  function Max(a: int, b: int): int { if a <= b then b else a }

  /** Division rounded up. */
  function CeilDiv(a: int, b: int): int
    requires b > 0
  {
    (a + b - 1) / b
  }

  lemma CeilDivLeast(a: int, b: int, k: int)
    requires b > 0
    ensures CeilDiv(a, b) <= k <==> a <= k * b
  {
    var q := CeilDiv(a, b);
    assert q * b <= a + b - 1 < q * b + b;
    if q <= k {
      assert q * b <= k * b;
    } else {
      assert (k + 1) * b <= q * b;
    }
  }

  // ----- One call -----

  /** The units a bucket holds `elapsed` ticks after its last call; a client
      without a bucket starts full. */
  function Refilled(token: int, b: Option<Bucket>, elapsed: int, rpm: int): int {
    if b.None? then rpm * token else Min(rpm * token, b.value.units + rpm * elapsed)
  }

  /** The decision on a refilled bucket: spend a token, or report the waits. */
  function Draw(token: int, units: int, now: int, rpm: int): (Bucket, Reply)
    requires rpm > 0 && token > 0
  {
    var allowed := units >= token;
    var left := if allowed then units - token else units;
    (Bucket(left, now),
     Reply(allowed, rpm, left / token,
            if allowed then 0 else CeilDiv(token - units, rpm),
            CeilDiv(rpm * token - left, rpm)))
  }

  /** What `Memory.Allow` does to one client's bucket. The clock is not clamped. */
  function MemoryCall(b: Option<Bucket>, now: int, rpm: int): (Bucket, Reply)
    requires rpm > 0
  {
    var elapsed := if b.None? then 0 else now - b.value.at;
    Draw(MEMORY_TOKEN, Refilled(MEMORY_TOKEN, b, elapsed, rpm), now, rpm)
  }

  /** What the Lua script does to one key. A clock that went back refills nothing. */
  function LuaCall(b: Option<Bucket>, now: int, rpm: int): (Bucket, Reply)
    requires rpm > 0
  {
    var elapsed := if b.None? then 0 else Max(0, now - b.value.at);
    Draw(LUA_TOKEN, Refilled(LUA_TOKEN, b, elapsed, rpm), now, rpm)
  }

  function Lookup(buckets: map<string, Bucket>, client: string): Option<Bucket> {
    if client in buckets then Some(buckets[client]) else None
  }

  class Memory {
    var buckets: map<string, Bucket>

    constructor ()
      ensures buckets == map[]
    {
      buckets := map[];
    }

    /** `now` is the reading of the injected clock. */
    method Allow(clientId: string, rpm: int, now: int) returns (result: Reply)
      requires rpm > 0
      modifies this
      ensures result == MemoryCall(Lookup(old(buckets), clientId), now, rpm).1
      ensures buckets == old(buckets)[clientId := MemoryCall(Lookup(old(buckets), clientId), now, rpm).0]
    {
      var capacity := rpm * MEMORY_TOKEN;
      var bucket := Bucket(capacity, now);
      if clientId in buckets {
        bucket := buckets[clientId];
        bucket := bucket.(units := Min(capacity, bucket.units + rpm * (now - bucket.at)));
      }
      bucket := bucket.(at := now);
      result := Reply(false, rpm, 0, 0, 0);
      if bucket.units >= MEMORY_TOKEN {
        bucket := bucket.(units := bucket.units - MEMORY_TOKEN);
        result := result.(allowed := true);
      } else {
        result := result.(retryAfter := CeilDiv(MEMORY_TOKEN - bucket.units, rpm));
      }
      result := result.(remaining := bucket.units / MEMORY_TOKEN);
      result := result.(resetAfter := CeilDiv(capacity - bucket.units, rpm));
      buckets := buckets[clientId := bucket];
    }
  }

  // ----- The waits that a call reports -----

  /** After a refusal, the client's next call `d` ticks later is admitted exactly
      when it waited at least RetryAfter. */
  lemma RetryAfterIsLeastWait(b: Option<Bucket>, now: int, rpm: int, d: int)
    requires rpm > 0 && d >= 0
    requires !MemoryCall(b, now, rpm).1.allowed
    ensures
      var (next, refusal) := MemoryCall(b, now, rpm);
      MemoryCall(Some(next), now + d, rpm).1.allowed <==> refusal.retryAfter <= d
  {
    var (next, refusal) := MemoryCall(b, now, rpm);
    CeilDivLeast(MEMORY_TOKEN - next.units, rpm, d);
    assert rpm * MEMORY_TOKEN >= MEMORY_TOKEN;
    assert rpm * d == d * rpm;
  }

  /** The bucket is full again exactly when at least ResetAfter has passed. */
  lemma ResetAfterIsLeastWait(b: Option<Bucket>, now: int, rpm: int, d: int)
    requires rpm > 0 && d >= 0
    ensures
      var (next, result) := MemoryCall(b, now, rpm);
      Refilled(MEMORY_TOKEN, Some(next), d, rpm) == rpm * MEMORY_TOKEN <==> result.resetAfter <= d
  {
    var (next, result) := MemoryCall(b, now, rpm);
    CeilDivLeast(rpm * MEMORY_TOKEN - next.units, rpm, d);
    assert rpm * d == d * rpm;
  }

  /** Calls of one client at one instant. */
  predicate AllAt(calls: seq<Call>, client: string, rpm: int, now: int) {
    forall i :: 0 <= i < |calls| ==> calls[i] == Call(client, rpm, now)
  }

  /** `Remaining` is the number of calls still admitted at that instant, and the limit
      is the rate. */
  lemma {:induction false} RemainingIsAdmitted(b: Option<Bucket>, buckets: map<string, Bucket>, client: string,
      rpm: int, now: int, calls: seq<Call>)
    requires rpm > 0 && AllAt(calls, client, rpm, now)
    requires client in buckets && buckets[client] == MemoryCall(b, now, rpm).0
    ensures PositiveRates(calls)
    ensures Admitted(buckets, calls, client) == Min(|calls|, Max(0, MemoryCall(b, now, rpm).1.remaining))
    ensures MemoryCall(b, now, rpm).1.limit == rpm
    decreases |calls|
  {
    var left := MemoryCall(b, now, rpm).0.units;
    assert MemoryCall(b, now, rpm).0.at == now;
    assert rpm * 0 == 0;
    WithinCapacity(b, now, rpm);
    if calls != [] {
      assert calls[0] == Call(client, rpm, now);
      var next := MemoryCall(Some(buckets[client]), now, rpm);
      RemainingIsAdmitted(Some(buckets[client]), After(buckets, calls[0]), client, rpm, now, calls[1..]);
      SpentOne(left);
    }
  }

  lemma WithinCapacity(b: Option<Bucket>, now: int, rpm: int)
    requires rpm > 0
    ensures MemoryCall(b, now, rpm).0.units <= rpm * MEMORY_TOKEN
  {
  }

  lemma SpentOne(units: int)
    ensures units >= MEMORY_TOKEN <==> units / MEMORY_TOKEN >= 1
    ensures (units - MEMORY_TOKEN) / MEMORY_TOKEN == units / MEMORY_TOKEN - 1
  {
  }

  /** A client that comes for the first time may send its whole limit at once, and no
      more. */
  lemma BurstIsTheLimit(client: string, rpm: int, now: int, calls: seq<Call>)
    requires rpm > 0 && AllAt(calls, client, rpm, now)
    ensures PositiveRates(calls) && Admitted(map[], calls, client) == Min(|calls|, rpm)
  {
    if calls != [] {
      assert calls[0] == Call(client, rpm, now);
      RemainingIsAdmitted(None, After(map[], calls[0]), client, rpm, now, calls[1..]);
      FirstCall(now, rpm);
    }
  }

  lemma FirstCall(now: int, rpm: int)
    requires rpm > 0
    ensures MemoryCall(None, now, rpm).1.allowed && MemoryCall(None, now, rpm).1.remaining == rpm - 1
  {
    assert rpm * MEMORY_TOKEN - MEMORY_TOKEN == (rpm - 1) * MEMORY_TOKEN;
    assert ((rpm - 1) * MEMORY_TOKEN) / MEMORY_TOKEN == rpm - 1;
  }

  /** The Retry-After header: whole seconds, at least one. */
  function CeilSeconds(value: int): int {
    var seconds := TruncDiv(value + NS_PER_SECOND - 1, NS_PER_SECOND);
    if seconds < 1 then 1 else seconds
  }

  /** Go's integer division, which truncates towards zero. */
  function TruncDiv(a: int, b: int): int
    requires b > 0
  {
    if a >= 0 then a / b else -((-a) / b)
  }

  /** The header is the least whole number of seconds, from one on, that covers the wait. */
  lemma HeaderIsLeast(wait: int, seconds: int)
    requires seconds >= 1 && wait >= 0
    ensures CeilSeconds(wait) <= seconds <==> wait <= seconds * 1_000_000_000
  {
  }

  /** A client that waits the announced header and sends nothing else in between
      is admitted. */
  lemma WaitingTheHeaderAdmits(b: Option<Bucket>, now: int, rpm: int, d: int)
    requires rpm > 0
    requires !MemoryCall(b, now, rpm).1.allowed
    requires d >= CeilSeconds(MemoryCall(b, now, rpm).1.retryAfter) * NS_PER_SECOND
    ensures MemoryCall(Some(MemoryCall(b, now, rpm).0), now + d, rpm).1.allowed
  {
    RetryAfterIsLeastWait(b, now, rpm, d);
  }

  // ----- Rate bound -----

  datatype Call = Call(client: string, rpm: int, now: int)

  predicate Monotone(calls: seq<Call>) {
    forall i, j :: 0 <= i < j < |calls| ==> calls[i].now <= calls[j].now
  }

  predicate PositiveRates(calls: seq<Call>) {
    forall i :: 0 <= i < |calls| ==> calls[i].rpm > 0
  }

  predicate RateOf(calls: seq<Call>, client: string, rpm: int) {
    forall i :: 0 <= i < |calls| && calls[i].client == client ==> calls[i].rpm == rpm
  }

  predicate Within(calls: seq<Call>, t: int, end: int) {
    forall i :: 0 <= i < |calls| ==> t <= calls[i].now <= end
  }

  function After(buckets: map<string, Bucket>, c: Call): map<string, Bucket>
    requires c.rpm > 0
  {
    buckets[c.client := MemoryCall(Lookup(buckets, c.client), c.now, c.rpm).0]
  }

  function Run(buckets: map<string, Bucket>, calls: seq<Call>): map<string, Bucket>
    requires PositiveRates(calls)
    decreases |calls|
  {
    if calls == [] then buckets else Run(After(buckets, calls[0]), calls[1..])
  }

  /** How many of `client`'s calls a history admits. */
  function Admitted(buckets: map<string, Bucket>, calls: seq<Call>, client: string): int
    requires PositiveRates(calls)
    decreases |calls|
  {
    if calls == [] then 0
    else
      var c := calls[0];
      (if c.client == client && MemoryCall(Lookup(buckets, client), c.now, c.rpm).1.allowed then 1 else 0)
      + Admitted(After(buckets, c), calls[1..], client)
  }

  /** A bucket within its capacity that was last used no later than `t`. */
  predicate Sound(buckets: map<string, Bucket>, client: string, rpm: int, t: int) {
    client in buckets ==> 0 <= buckets[client].units <= rpm * MEMORY_TOKEN && buckets[client].at <= t
  }

  /** What the client could spend at time `t`. */
  function Credit(buckets: map<string, Bucket>, client: string, rpm: int, t: int): int {
    Refilled(MEMORY_TOKEN, Lookup(buckets, client),
             if client in buckets then t - buckets[client].at else 0, rpm)
  }

  lemma CreditGrowsAtRate(buckets: map<string, Bucket>, client: string, rpm: int, t: int, u: int)
    requires rpm > 0 && t <= u && Sound(buckets, client, rpm, t)
    ensures 0 <= Credit(buckets, client, rpm, t) <= rpm * MEMORY_TOKEN
    ensures Credit(buckets, client, rpm, u) <= Credit(buckets, client, rpm, t) + rpm * (u - t)
  {
    if client in buckets {
      var b := buckets[client];
      assert rpm * (t - b.at) >= 0;
      assert rpm * (u - t) >= 0;
      assert rpm * (u - b.at) == rpm * (t - b.at) + rpm * (u - t);
    } else {
      assert rpm * (u - t) >= 0;
    }
  }

  /** A call moves its time's credit to the bucket, less a token if it is admitted. */
  lemma CallIsPaid(buckets: map<string, Bucket>, c: Call, client: string, rpm: int, t: int)
    requires rpm > 0 && c.rpm > 0 && (c.client == client ==> c.rpm == rpm) && t <= c.now
    requires Sound(buckets, client, rpm, t)
    ensures Sound(After(buckets, c), client, rpm, c.now)
    ensures Credit(After(buckets, c), client, rpm, c.now)
         + (if c.client == client && MemoryCall(Lookup(buckets, client), c.now, c.rpm).1.allowed
            then MEMORY_TOKEN else 0)
         <= Credit(buckets, client, rpm, c.now)
  {
    CreditGrowsAtRate(buckets, client, rpm, t, c.now);
    if client in buckets {
      assert rpm * (c.now - buckets[client].at) >= 0;
    }
  }

  lemma SplitSpan(rpm: int, t: int, u: int, end: int)
    requires rpm > 0 && t <= u <= end
    ensures rpm * (end - t) == rpm * (u - t) + rpm * (end - u)
    ensures rpm * (u - t) >= 0 && rpm * (end - u) >= 0
  {
  }

  /** Every admission is paid for by the credit at the start and the refill since. */
  lemma {:induction false} AdmissionsArePaid(
    buckets: map<string, Bucket>, calls: seq<Call>, client: string, rpm: int, t: int, end: int)
    requires rpm > 0 && PositiveRates(calls) && Monotone(calls) && RateOf(calls, client, rpm)
    requires t <= end && Within(calls, t, end)
    requires Sound(buckets, client, rpm, t)
    ensures Admitted(buckets, calls, client) * MEMORY_TOKEN
         <= Credit(buckets, client, rpm, t) + rpm * (end - t)
    decreases |calls|
  {
    if calls == [] {
      CreditGrowsAtRate(buckets, client, rpm, t, end);
      SplitSpan(rpm, t, t, end);
    } else {
      var c := calls[0];
      var next := After(buckets, c);
      hide MemoryCall;
      hide Credit;
      hide Sound;
      hide After;
      CallIsPaid(buckets, c, client, rpm, t);
      CreditGrowsAtRate(buckets, client, rpm, t, c.now);
      SplitSpan(rpm, t, c.now, end);
      AdmissionsArePaid(next, calls[1..], client, rpm, c.now, end);
    }
  }

  /** Every client's bucket stays within its capacity in every history with a
      monotone clock. */
  lemma {:induction false} TokensStayInRange(
    buckets: map<string, Bucket>, calls: seq<Call>, client: string, rpm: int, t: int, end: int)
    requires rpm > 0 && PositiveRates(calls) && Monotone(calls) && RateOf(calls, client, rpm)
    requires t <= end && Within(calls, t, end)
    requires Sound(buckets, client, rpm, t)
    ensures Sound(Run(buckets, calls), client, rpm, end)
    decreases |calls|
  {
    if calls != [] {
      CallIsPaid(buckets, calls[0], client, rpm, t);
      TokensStayInRange(After(buckets, calls[0]), calls[1..], client, rpm, calls[0].now, end);
    }
  }

  lemma PartsOfHistory(before: seq<Call>, window: seq<Call>, client: string, rpm: int)
    requires PositiveRates(before + window) && Monotone(before + window) && RateOf(before + window, client, rpm)
    ensures PositiveRates(before) && Monotone(before) && RateOf(before, client, rpm)
    ensures PositiveRates(window) && Monotone(window) && RateOf(window, client, rpm)
    ensures forall i, j :: 0 <= i < |before| && 0 <= j < |window| ==> before[i].now <= window[j].now
  {
    var all := before + window;
    assert forall i :: 0 <= i < |before| ==> before[i] == all[i];
    assert forall i :: 0 <= i < |window| ==> window[i] == all[|before| + i];
  }

  /** In any history of any clients, a window of length `w` admits at most
      rpm + rpm * w / minute calls of one client. */
  lemma RateBound(before: seq<Call>, window: seq<Call>, client: string, rpm: int, w: int)
    requires rpm > 0 && PositiveRates(before + window) && Monotone(before + window)
    requires RateOf(before + window, client, rpm)
    requires window != [] && window[|window| - 1].now - window[0].now <= w
    ensures PositiveRates(before) && PositiveRates(window)
    ensures Admitted(Run(map[], before), window, client) * 60_000_000_000 <= rpm * 60_000_000_000 + rpm * w
  {
    PartsOfHistory(before, window, client, rpm);
    var t, end := window[0].now, window[|window| - 1].now;
    var start := Run(map[], before);
    TokensStayInRange(map[], before, client, rpm, if before == [] then t else before[0].now, t);
    AdmissionsArePaid(start, window, client, rpm, t, end);
    CreditGrowsAtRate(start, client, rpm, t, t);
    RefillIsMonotone(rpm, end - t, w);
  }

  lemma RefillIsMonotone(rpm: int, d: int, w: int)
    requires rpm > 0 && d <= w
    ensures rpm * d <= rpm * w
  {
  }

  // ----- The key with a time to live -----

  /** PEXPIRE argument: twice the time a bucket takes to fill, in milliseconds. */
  function TtlMs(rpm: int): int
    requires rpm > 0
  {
    CeilDiv(2 * (rpm * LUA_TOKEN), rpm)
  }

  /** One run of the script. `evicted` says whether the server dropped the key
      since the previous run. */
  datatype ScriptRun = ScriptRun(rpm: int, now: int, evicted: bool)

  predicate ScriptRuns(runs: seq<ScriptRun>) {
    && (forall i :: 0 <= i < |runs| ==> runs[i].rpm > 0)
    && forall i, j :: 0 <= i < j < |runs| ==> runs[i].now <= runs[j].now
  }

  /** The server may drop a key only once its time to live, set by the previous
      run with that run's rpm, has passed. */
  predicate Evictions(runs: seq<ScriptRun>)
    requires ScriptRuns(runs)
  {
    forall i :: 0 <= i < |runs| && runs[i].evicted ==>
      i > 0 && runs[i].now - runs[i - 1].now >= TtlMs(runs[i - 1].rpm)
  }

  /** Replies of a bucket whose key expires. */
  function ExpiringReplies(b: Option<Bucket>, runs: seq<ScriptRun>): seq<Reply>
    requires ScriptRuns(runs)
    decreases |runs|
  {
    if runs == [] then []
    else
      var (next, reply) := LuaCall(if runs[0].evicted then None else b, runs[0].now, runs[0].rpm);
      [reply] + ExpiringReplies(Some(next), runs[1..])
  }

  /** Replies of a bucket that is never dropped. */
  function LastingReplies(b: Option<Bucket>, runs: seq<ScriptRun>): seq<Reply>
    requires ScriptRuns(runs)
    decreases |runs|
  {
    if runs == [] then []
    else
      var (next, reply) := LuaCall(b, runs[0].now, runs[0].rpm);
      [reply] + LastingReplies(Some(next), runs[1..])
  }

  lemma TtlIsTwoMinutes(rpm: int)
    requires rpm > 0
    ensures TtlMs(rpm) == 120_000
  {
    CeilDivLeast(2 * (rpm * LUA_TOKEN), rpm, 2 * LUA_TOKEN);
    CeilDivLeast(2 * (rpm * LUA_TOKEN), rpm, 2 * LUA_TOKEN - 1);
  }

  /** A call leaves the bucket between empty and its capacity. */
  lemma LuaBucketInRange(b: Option<Bucket>, now: int, rpm: int)
    requires rpm > 0
    requires b.Some? ==> b.value.units >= 0
    ensures 0 <= LuaCall(b, now, rpm).0.units <= rpm * LUA_TOKEN
  {
    if b.Some? {
      assert rpm * Max(0, now - b.value.at) >= 0;
    }
  }

  /** A dropped key had refilled completely, whatever rpm the next call brings. */
  lemma {:induction false} EvictionIsUnobservableFrom(b: Option<Bucket>, runs: seq<ScriptRun>)
    requires ScriptRuns(runs)
    requires b.Some? ==> b.value.units >= 0
    requires forall i :: 0 < i < |runs| && runs[i].evicted ==> runs[i].now - runs[i - 1].now >= 2 * LUA_TOKEN
    requires runs != [] && runs[0].evicted ==> b.Some? && runs[0].now - b.value.at >= 2 * LUA_TOKEN
    ensures ExpiringReplies(b, runs) == LastingReplies(b, runs)
    decreases |runs|
  {
    if runs != [] {
      var c := runs[0];
      if c.evicted {
        var elapsed := c.now - b.value.at;
        assert c.rpm * elapsed >= c.rpm * LUA_TOKEN;
      }
      LuaBucketInRange(b, c.now, c.rpm);
      EvictionIsUnobservableFrom(Some(LuaCall(b, c.now, c.rpm).0), runs[1..]);
    }
  }

  /** The expiring key answers every history as one that never expires would,
      even when the client's rpm changes between calls. */
  lemma EvictionIsUnobservable(runs: seq<ScriptRun>)
    requires ScriptRuns(runs) && Evictions(runs)
    ensures ExpiringReplies(None, runs) == LastingReplies(None, runs)
  {
    forall i | 0 < i < |runs| && runs[i].evicted
      ensures runs[i].now - runs[i - 1].now >= 2 * LUA_TOKEN
    {
      TtlIsTwoMinutes(runs[i - 1].rpm);
    }
    EvictionIsUnobservableFrom(None, runs);
  }

  // ----- The script against the in-memory bucket -----

  /** Replies of the in-memory bucket to the same calls, read on a nanosecond clock. */
  function MemoryReplies(b: Option<Bucket>, runs: seq<ScriptRun>): seq<Reply>
    requires ScriptRuns(runs)
    decreases |runs|
  {
    if runs == [] then []
    else
      var (next, reply) := MemoryCall(b, runs[0].now * NS_PER_MS, runs[0].rpm);
      [reply] + MemoryReplies(Some(next), runs[1..])
  }

  /** The same decision, with waits rounded up to milliseconds. */
  predicate SameReply(memory: Reply, lua: Reply) {
    && memory.allowed == lua.allowed && memory.limit == lua.limit && memory.remaining == lua.remaining
    && lua.retryAfter == CeilDiv(memory.retryAfter, NS_PER_MS)
    && lua.resetAfter == CeilDiv(memory.resetAfter, NS_PER_MS)
  }

  predicate Scaled(memory: Option<Bucket>, lua: Option<Bucket>) {
    if lua.None? then memory.None?
    else memory.Some? && memory.value == Bucket(lua.value.units * NS_PER_MS, lua.value.at * NS_PER_MS)
  }

  lemma CeilOfScaled(a: int, rpm: int)
    requires rpm > 0
    ensures CeilDiv(CeilDiv(a * NS_PER_MS, rpm), NS_PER_MS) == CeilDiv(a, rpm)
  {
    CeilOfScaledAtMost(a, rpm, CeilDiv(a, rpm));
    CeilOfScaledAtMost(a, rpm, CeilDiv(a, rpm) - 1);
  }

  lemma CeilOfScaledAtMost(a: int, rpm: int, k: int)
    requires rpm > 0
    ensures CeilDiv(CeilDiv(a * NS_PER_MS, rpm), NS_PER_MS) <= k <==> CeilDiv(a, rpm) <= k
  {
    CeilDivLeast(CeilDiv(a * NS_PER_MS, rpm), NS_PER_MS, k);
    CeilDivLeast(a * NS_PER_MS, rpm, k * NS_PER_MS);
    CeilDivLeast(a, rpm, k);
    assert (k * NS_PER_MS) * rpm == (k * rpm) * NS_PER_MS;
  }

  lemma ScaledCall(m: Option<Bucket>, l: Option<Bucket>, now: int, rpm: int)
    requires rpm > 0 && Scaled(m, l)
    requires l.Some? ==> l.value.at <= now
    ensures
      var (nextM, replyM) := MemoryCall(m, now * NS_PER_MS, rpm);
      var (nextL, replyL) := LuaCall(l, now, rpm);
      SameReply(replyM, replyL) && Scaled(Some(nextM), Some(nextL))
  {
    var units := Refilled(LUA_TOKEN, l, if l.None? then 0 else now - l.value.at, rpm);
    var unitsM := Refilled(MEMORY_TOKEN, m, if m.None? then 0 else now * NS_PER_MS - m.value.at, rpm);
    if l.Some? {
      assert rpm * (now * NS_PER_MS - l.value.at * NS_PER_MS) == (rpm * (now - l.value.at)) * NS_PER_MS;
    }
    assert unitsM == units * NS_PER_MS;
    var left := LuaCall(l, now, rpm).0.units;
    CeilOfScaled(LUA_TOKEN - units, rpm);
    CeilOfScaled(rpm * LUA_TOKEN - left, rpm);
    assert CeilDiv(0, NS_PER_MS) == 0;
  }

  /** On millisecond-aligned monotone clocks the script and the in-memory bucket
      take the same decisions and report the same waits, rounded up to milliseconds. */
  lemma {:induction false} ScriptAgreesWithMemory(m: Option<Bucket>, l: Option<Bucket>, runs: seq<ScriptRun>)
    requires ScriptRuns(runs) && Scaled(m, l)
    requires l.Some? && runs != [] ==> l.value.at <= runs[0].now
    ensures |MemoryReplies(m, runs)| == |LastingReplies(l, runs)| == |runs|
    ensures forall i :: 0 <= i < |runs| ==> SameReply(MemoryReplies(m, runs)[i], LastingReplies(l, runs)[i])
    decreases |runs|
  {
    if runs != [] {
      var c := runs[0];
      ScaledCall(m, l, c.now, c.rpm);
      ScriptAgreesWithMemory(Some(MemoryCall(m, c.now * NS_PER_MS, c.rpm).0), Some(LuaCall(l, c.now, c.rpm).0),
        runs[1..]);
    }
  }

  // ----- The client of the script -----

  datatype Outcome = Answer(reply: Reply) | Unavailable

  /** Keys on the server and the checks that the client makes on each reply. */
  class Valkey {
    var keys: map<string, Bucket>

    constructor ()
      ensures keys == map[]
    {
      keys := map[];
    }

    ghost predicate Valid()
      reads this
    {
      forall k :: k in keys ==> keys[k].units >= 0
    }

    /** Each reply that arrives passes the client's own range checks, so the
        caller sees exactly the script's decision; `reachable` is false when the
        server did not answer. */
    method Allow(clientId: string, rpm: int, now: int, reachable: bool) returns (outcome: Outcome)
      requires Valid() && 0 < rpm <= MAX_INT32
      modifies this
      ensures Valid()
      ensures !reachable ==> outcome == Unavailable && keys == old(keys)
      ensures reachable ==>
        var (next, reply) := LuaCall(Lookup(old(keys), clientId), now, rpm);
        && keys == old(keys)[clientId := next]
        && outcome == Answer(reply.(retryAfter := reply.retryAfter * NS_PER_MS,
                                resetAfter := reply.resetAfter * NS_PER_MS))
    {
      if !reachable {
        return Unavailable;
      }
      var (next, reply) := LuaCall(Lookup(keys, clientId), now, rpm);
      LuaReplyInRange(Lookup(keys, clientId), now, rpm);
      keys := keys[clientId := next];
      var parsed := [if reply.allowed then 1 else 0, reply.remaining, reply.retryAfter, reply.resetAfter];
      if parsed[1] < 0 || parsed[1] > rpm
         || parsed[2] < 0 || parsed[2] > MAX_INT64 / NS_PER_MS
         || parsed[3] < 0 || parsed[3] > MAX_INT64 / NS_PER_MS {
        return Unavailable;
      }
      return Answer(Reply(parsed[0] == 1, rpm, parsed[1], parsed[2] * NS_PER_MS, parsed[3] * NS_PER_MS));
    }
  }

  /** No wait exceeds a minute and no reply leaves more tokens than the limit. */
  lemma LuaReplyInRange(b: Option<Bucket>, now: int, rpm: int)
    requires rpm > 0
    requires b.Some? ==> b.value.units >= 0
    ensures
      var (next, reply) := LuaCall(b, now, rpm);
      && 0 <= next.units
      && 0 <= reply.remaining <= rpm
      && 0 <= reply.retryAfter <= LUA_TOKEN
      && 0 <= reply.resetAfter <= LUA_TOKEN
  {
    LuaBucketInRange(b, now, rpm);
    var (next, reply) := LuaCall(b, now, rpm);
    CeilDivLeast(rpm * LUA_TOKEN - next.units, rpm, LUA_TOKEN);
    CeilDivLeast(rpm * LUA_TOKEN - next.units, rpm, -1);
    assert LUA_TOKEN * rpm >= LUA_TOKEN;
    if !reply.allowed {
      CeilDivLeast(LUA_TOKEN - next.units, rpm, LUA_TOKEN);
      CeilDivLeast(LUA_TOKEN - next.units, rpm, -1);
    }
    assert next.units / LUA_TOKEN <= rpm;
  }
}
