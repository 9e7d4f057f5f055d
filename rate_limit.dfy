/** The in-memory fixed-window rate limiter: a table from identifier to the current
    window's admitted count and start time, updated in place by each check and
    pruned by a periodic sweep. The clock is the parameter `now` (milliseconds). */
module RateLimit {

  /** One identifier's window: checks admitted so far and when the window began. */
  datatype Entry = Entry(count: int, firstRequest: int)

  datatype Config = Config(maxRequests: int, windowMs: int)

  /** What a check answers. */
  datatype Verdict = Verdict(allowed: bool, remaining: int, resetIn: int)

  /** A check's answer together with the table it leaves behind. */
  datatype Step = Step(verdict: Verdict, table: map<string, Entry>)

  const HourMs: int := 60 * 60 * 1000

  /** Five checks per hour: the configuration used when the caller passes none. */
  const DefaultConfig: Config := Config(5, HourMs)

  /** The sweep deletes entries whose window began more than this long ago. */
  const RetentionMs: int := HourMs

  /** The decision rule of one check for `id` at time `now`. */
  function Check(table: map<string, Entry>, id: string, config: Config, now: int): (s: Step)
    // first check for an identifier: a new window holding this one check
    ensures id !in table ==>
      s == Step(Verdict(true, config.maxRequests - 1, config.windowMs), table[id := Entry(1, now)])
    // a window older than windowMs (strictly) is replaced whatever its count
    ensures id in table && now - table[id].firstRequest > config.windowMs ==>
      s == Step(Verdict(true, config.maxRequests - 1, config.windowMs), table[id := Entry(1, now)])
    // a full window rejects and leaves the table as it was
    ensures id in table && now - table[id].firstRequest <= config.windowMs
            && table[id].count >= config.maxRequests ==>
      s == Step(Verdict(false, 0, config.windowMs - (now - table[id].firstRequest)), table)
    // otherwise the check is admitted and counted once
    ensures id in table && now - table[id].firstRequest <= config.windowMs
            && table[id].count < config.maxRequests ==>
      && s.table == table[id := Entry(table[id].count + 1, table[id].firstRequest)]
      && s.verdict.allowed
      && s.verdict.remaining == config.maxRequests - s.table[id].count
      && s.verdict.resetIn == config.windowMs - (now - table[id].firstRequest)
    // no other identifier's entry changes
    ensures s.table.Keys == table.Keys + {id}
    ensures forall k :: k in table && k != id ==> s.table[k] == table[k]
  {
    if id !in table then
      Step(Verdict(true, config.maxRequests - 1, config.windowMs), table[id := Entry(1, now)])
    else
      var entry := table[id];
      if now - entry.firstRequest > config.windowMs then
        Step(Verdict(true, config.maxRequests - 1, config.windowMs), table[id := Entry(1, now)])
      else if entry.count >= config.maxRequests then
        Step(Verdict(false, 0, config.windowMs - (now - entry.firstRequest)), table)
      else
        var counted := entry.(count := entry.count + 1);
        Step(Verdict(true, config.maxRequests - counted.count, config.windowMs - (now - counted.firstRequest)),
             table[id := counted])
  }

  /** Every stored count lies in [1, maxRequests]. */
  predicate CountsBounded(table: map<string, Entry>, maxRequests: int) {
    forall k :: k in table ==> 1 <= table[k].count <= maxRequests
  }

  /** With maxRequests >= 1 a check never stores a count above maxRequests. */
  lemma CheckKeepsCountsBounded(table: map<string, Entry>, id: string, config: Config, now: int)
    requires config.maxRequests >= 1
    requires CountsBounded(table, config.maxRequests)
    ensures CountsBounded(Check(table, id, config, now).table, config.maxRequests)
  {
  }

  /** resetIn never exceeds the window, and is never negative unless the clock went back. */
  lemma ResetInWithinWindow(table: map<string, Entry>, id: string, config: Config, now: int)
    requires config.windowMs >= 0
    requires id in table ==> table[id].firstRequest <= now
    ensures 0 <= Check(table, id, config, now).verdict.resetIn <= config.windowMs
  {
  }

  /** The checks for one identifier at `times`, in order: how many were admitted,
      and the table afterwards. */
  function Run(table: map<string, Entry>, id: string, config: Config, times: seq<int>): (r: (nat, map<string, Entry>))
    decreases |times|
  {
    if times == [] then (0, table)
    else
      var s := Check(table, id, config, times[0]);
      var rest := Run(s.table, id, config, times[1..]);
      ((if s.verdict.allowed then 1 else 0) + rest.0, rest.1)
  }

  function Min(a: int, b: int): int { if a <= b then a else b }
  function Max(a: int, b: int): int { if a <= b then b else a }

  /** Inside one window (every check within windowMs of its start) the window is
      never reset, and exactly as many checks are admitted as the count has room for. */
  lemma {:induction false} RunWithinWindow(table: map<string, Entry>, id: string, config: Config, times: seq<int>)
    requires id in table && table[id].count >= 0
    requires forall i :: 0 <= i < |times| ==> times[i] - table[id].firstRequest <= config.windowMs
    ensures var (admitted, after) := Run(table, id, config, times);
      && id in after
      && after[id].firstRequest == table[id].firstRequest
      && admitted == Min(|times|, Max(0, config.maxRequests - table[id].count))
      && after[id].count == table[id].count + admitted
    decreases |times|
  {
    if times != [] {
      var s := Check(table, id, config, times[0]);
      assert times[0] - table[id].firstRequest <= config.windowMs;
      forall i | 0 <= i < |times[1..]|
        ensures times[1..][i] - s.table[id].firstRequest <= config.windowMs
      {
        assert times[1..][i] == times[i + 1];
      }
      RunWithinWindow(s.table, id, config, times[1..]);
    }
  }

  /** For an identifier with no entry, N checks all within windowMs of the first admit
      exactly min(N, maxRequests) of them: the window property of the limiter. */
  lemma FreshWindowAdmitsAtMostMax(table: map<string, Entry>, id: string, config: Config, times: seq<int>)
    requires id !in table && config.maxRequests >= 1
    requires |times| > 0
    requires forall i :: 0 <= i < |times| ==> times[i] - times[0] <= config.windowMs
    ensures Run(table, id, config, times).0 == Min(|times|, config.maxRequests)
  {
    var s := Check(table, id, config, times[0]);
    forall i | 0 <= i < |times[1..]|
      ensures times[1..][i] - s.table[id].firstRequest <= config.windowMs
    {
      assert times[1..][i] == times[i + 1];
    }
    RunWithinWindow(s.table, id, config, times[1..]);
  }

  predicate Expired(e: Entry, now: int) {
    now - e.firstRequest > RetentionMs
  }

  /** The table after a sweep at `now`. */
  function Swept(table: map<string, Entry>, now: int): (r: map<string, Entry>)
    ensures forall k :: k in r <==> k in table && !Expired(table[k], now)
    ensures forall k :: k in r ==> r[k] == table[k]
  {
    map k | k in table && !Expired(table[k], now) :: table[k]
  }

  /** A sweep at time `sweptAt` never changes what a later check answers, nor the entry
      it leaves for that identifier, as long as the window is no longer than the
      retention period (the default configuration's window equals it). */
  lemma SweepIsUnobservable(table: map<string, Entry>, sweptAt: int, id: string, config: Config, now: int)
    requires config.windowMs <= RetentionMs && sweptAt <= now
    ensures var before := Check(table, id, config, now);
      var after := Check(Swept(table, sweptAt), id, config, now);
      && after.verdict == before.verdict
      && after.table == Swept(table, sweptAt)[id := before.table[id]]
  {
    var swept := Swept(table, sweptAt);
    if id in table && id !in swept {
      assert now - table[id].firstRequest > config.windowMs;
    }
  }

  /** The process-wide table and the two operations that change it. */
  class RateLimiter {
    var entries: map<string, Entry>

    constructor ()
      ensures entries == map[]
    {
      entries := map[];
    }

    /** checkRateLimit: decides, and records the check in the table. */
    method CheckRateLimit(identifier: string, now: int, config: Config := DefaultConfig) returns (v: Verdict)
      modifies this
      ensures Step(v, entries) == Check(old(entries), identifier, config, now)
    {
      if identifier !in entries {
        entries := entries[identifier := Entry(1, now)];
        return Verdict(true, config.maxRequests - 1, config.windowMs);
      }
      var entry := entries[identifier];
      if now - entry.firstRequest > config.windowMs {
        entries := entries[identifier := Entry(1, now)];
        return Verdict(true, config.maxRequests - 1, config.windowMs);
      }
      if entry.count >= config.maxRequests {
        var resetIn := config.windowMs - (now - entry.firstRequest);
        return Verdict(false, 0, resetIn);
      }
      entry := entry.(count := entry.count + 1);
      entries := entries[identifier := entry];
      return Verdict(true, config.maxRequests - entry.count, config.windowMs - (now - entry.firstRequest));
    }

    /** The body of the periodic cleanup: deletes every expired entry. */
    method SweepExpired(now: int)
      modifies this
      ensures entries == Swept(old(entries), now)
    {
      var pending := entries.Keys;
      while pending != {}
        invariant pending <= old(entries).Keys
        invariant entries == map k | k in old(entries) && (k in pending || !Expired(old(entries)[k], now)) :: old(entries)[k]
        decreases pending
      {
        var key :| key in pending;
        if Expired(entries[key], now) {
          entries := entries - {key};
        }
        pending := pending - {key};
      }
    }
  }
}
