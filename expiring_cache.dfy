/**
 * The `cache_with_expiration` decorator of web.py: a table from
 * `"cache:" + url` to the last content fetched for that url and the time of
 * that fetch, consulted before every call and served while younger than ten
 * seconds.
 *
 * Time is an integer number of microseconds read from a clock the caller
 * supplies; the wrapped function is an outcome the caller supplies, which the
 * wrapper "calls" only on a miss.
 */
module ExpiringCache {
  import opened Wrappers

  /** Clock resolution: microseconds, as Python's `datetime` keeps them. */
  const TicksPerSecond: int := 1_000_000

  /** `CACHE_EXPIRATION_SECONDS`. */
  const ExpirationSeconds: int := 10

  /** The time-to-live in clock ticks. */
  const Ttl: int := ExpirationSeconds * TicksPerSecond

  const KeyPrefix: string := "cache:"

  /** What the table holds for a url: the content and when it was stored. */
  datatype Entry<T> = Entry(content: T, timestamp: int)

  type Table<T> = map<string, Entry<T>>

  /** The table key of a url; the url can be read back from it. */
  function CacheKey(url: string): (k: string)
    ensures |k| == |KeyPrefix| + |url|
    ensures k[..|KeyPrefix|] == KeyPrefix
    ensures k[|KeyPrefix|..] == url
  {
    KeyPrefix + url
  }

  /** Distinct urls never share a table entry. */
  lemma CacheKeyInjective(u: string, v: string)
    ensures CacheKey(u) == CacheKey(v) <==> u == v
  {
  }

  /** An entry is served while strictly less than `Ttl` has elapsed since it was stored. */
  predicate Fresh<T>(e: Entry<T>, now: int)
  {
    now - e.timestamp < Ttl
  }

  /** The hit test: the stored content when the url has a fresh entry at time `now`. */
  function Lookup<T>(table: Table<T>, url: string, now: int): (r: Option<T>)
    ensures r.Some? <==> CacheKey(url) in table && now - table[CacheKey(url)].timestamp < Ttl
    ensures r.Some? ==> r.value == table[CacheKey(url)].content
  {
    var key := CacheKey(url);
    if key in table && Fresh(table[key], now) then Some(table[key].content) else None
  }

  /** The effect of one call of the wrapper on the table. */
  datatype Step<T> = Step(result: Result<T>, table: Table<T>, fetched: bool)

  /**
   * One call of the wrapper for `url`: `nowCheck` is the clock read by the
   * freshness test, `nowStore` the clock read after the wrapped function has
   * returned, and `fetch` what the wrapped function returns or raises.
   */
  function Call<T>(table: Table<T>, url: string, nowCheck: int, nowStore: int, fetch: Result<T>): (s: Step<T>)
    // a hit serves the stored content, does not fetch and keeps the table
    ensures !s.fetched <==> CacheKey(url) in table && nowCheck - table[CacheKey(url)].timestamp < Ttl
    ensures !s.fetched ==> s.result == Ok(table[CacheKey(url)].content) && s.table == table
    // a miss fetches and returns (or raises) whatever the fetch produced
    ensures s.fetched ==> s.result == fetch
    // a successful fetch replaces the entry for this url alone
    ensures s.fetched && fetch.Ok? ==> s.table == table[CacheKey(url) := Entry(fetch.value, nowStore)]
    // a failed fetch propagates and stores nothing
    ensures s.fetched && fetch.Raised? ==> s.table == table
  {
    match Lookup(table, url, nowCheck)
    case Some(content) => Step(Ok(content), table, false)
    case None =>
      match fetch
      case Ok(content) => Step(fetch, table[CacheKey(url) := Entry(content, nowStore)], true)
      case Raised(_) => Step(fetch, table, true)
  }

  /** The freshness test is strict: an entry exactly `Ttl` old is refetched. */
  lemma ExpiredAtTtl<T>(table: Table<T>, url: string, nowStore: int, fetch: Result<T>)
    requires CacheKey(url) in table
    ensures Call(table, url, table[CacheKey(url)].timestamp + Ttl, nowStore, fetch).fetched
    ensures Call(table, url, table[CacheKey(url)].timestamp + Ttl - 1, nowStore, fetch).result
         == Ok(table[CacheKey(url)].content)
  {
  }

  /** A call for `url` leaves what every other url sees unchanged. */
  lemma OtherUrlsUntouched<T>(table: Table<T>, url: string, nowCheck: int, nowStore: int, fetch: Result<T>,
                              other: string, now: int)
    requires other != url
    ensures var t := Call(table, url, nowCheck, nowStore, fetch).table;
            (CacheKey(other) in t <==> CacheKey(other) in table) &&
            (CacheKey(other) in table ==> t[CacheKey(other)] == table[CacheKey(other)]) &&
            Lookup(t, other, now) == Lookup(table, other, now)
  {
  }

  /** After a successful fetch, a later call for the same url fetches again exactly when `Ttl` has elapsed since the store. */
  lemma RefetchExactlyAfterTtl<T>(table: Table<T>, url: string, nowCheck: int, nowStore: int, content: T,
                                  later: int, laterStore: int, laterFetch: Result<T>)
    requires Call(table, url, nowCheck, nowStore, Ok(content)).fetched
    ensures var second := Call(Call(table, url, nowCheck, nowStore, Ok(content)).table, url, later, laterStore, laterFetch);
            (second.fetched <==> later - nowStore >= Ttl) &&
            (!second.fetched ==> second.result == Ok(content))
  {
  }

  /** One call of a sequence of calls to the wrapper. */
  datatype Request<T> = Request(url: string, nowCheck: int, nowStore: int, fetch: Result<T>)

  /** What a sequence of calls returned, the final table, and how many fetches it made. */
  datatype Trace<T> = Trace(results: seq<Result<T>>, table: Table<T>, fetches: nat)

  /** Calls the wrapper once per request, in order, threading the table through. */
  function Run<T>(table: Table<T>, requests: seq<Request<T>>): (t: Trace<T>)
    ensures |t.results| == |requests|
    ensures t.fetches <= |requests|
    decreases |requests|
  {
    if requests == [] then Trace([], table, 0)
    else
      var r := requests[0];
      var s := Call(table, r.url, r.nowCheck, r.nowStore, r.fetch);
      var rest := Run(s.table, requests[1..]);
      Trace([s.result] + rest.results, rest.table, rest.fetches + (if s.fetched then 1 else 0))
  }

  /**
   * Hits never refresh an entry: as long as every call for `url` happens
   * less than `Ttl` after the entry was stored, none of them fetches, all of
   * them return the stored content, and the table stays as it is.
   */
  lemma {:induction false} HitsWhileFresh<T>(table: Table<T>, url: string, requests: seq<Request<T>>)
    requires CacheKey(url) in table
    requires forall i :: 0 <= i < |requests| ==> requests[i].url == url
    requires forall i :: 0 <= i < |requests| ==> requests[i].nowCheck - table[CacheKey(url)].timestamp < Ttl
    ensures Run(table, requests).fetches == 0
    ensures Run(table, requests).table == table
    ensures forall i :: 0 <= i < |requests| ==> Run(table, requests).results[i] == Ok(table[CacheKey(url)].content)
  {
    if requests != [] {
      HitsWhileFresh(table, url, requests[1..]);
    }
  }

  /**
   * Repeated calls for one url within `Ttl` of a miss make exactly one fetch,
   * and every call returns what that fetch returned.
   */
  lemma OneFetchWithinTtl<T>(table: Table<T>, first: Request<T>, rest: seq<Request<T>>)
    requires first.fetch.Ok? && Lookup(table, first.url, first.nowCheck).None?
    requires forall i :: 0 <= i < |rest| ==> rest[i].url == first.url
    requires forall i :: 0 <= i < |rest| ==> rest[i].nowCheck - first.nowStore < Ttl
    ensures Run(table, [first] + rest).fetches == 1
    ensures forall i :: 0 <= i < |rest| + 1 ==> Run(table, [first] + rest).results[i] == first.fetch
  {
    var stored := Call(table, first.url, first.nowCheck, first.nowStore, first.fetch).table;
    assert ([first] + rest)[1..] == rest;
    HitsWhileFresh(stored, first.url, rest);
  }

  /** A sequence of calls leaves what every url it does not request sees unchanged. */
  lemma {:induction false} RunOtherUrlsUntouched<T>(table: Table<T>, requests: seq<Request<T>>, other: string, now: int)
    requires forall i :: 0 <= i < |requests| ==> requests[i].url != other
    ensures Lookup(Run(table, requests).table, other, now) == Lookup(table, other, now)
    decreases |requests|
  {
    if requests != [] {
      var r := requests[0];
      OtherUrlsUntouched(table, r.url, r.nowCheck, r.nowStore, r.fetch, other, now);
      RunOtherUrlsUntouched(Call(table, r.url, r.nowCheck, r.nowStore, r.fetch).table, requests[1..], other, now);
    }
  }

  /**
   * The calls of the `__main__` demonstration, made on the cache wrapper
   * alone: three calls back to back (the first misses, its fetch returning
   * C one second later, the next two are served C), then one call eleven
   * seconds later, which fetches D and replaces the entry.
   */
  lemma DemoTimeline<T>(url: string, c: T, d: T)
    ensures var requests := [Request(url, 0, 1 * TicksPerSecond, Ok(c)),
                             Request(url, 1 * TicksPerSecond, 1 * TicksPerSecond, Ok(d)),
                             Request(url, 1 * TicksPerSecond, 1 * TicksPerSecond, Ok(d)),
                             Request(url, 12 * TicksPerSecond, 12 * TicksPerSecond, Ok(d))];
            Run(map[], requests) == Trace([Ok(c), Ok(c), Ok(c), Ok(d)], map[CacheKey(url) := Entry(d, 12 * TicksPerSecond)], 2)
  {
    var r0 := Request(url, 0, 1 * TicksPerSecond, Ok(c));
    var r1 := Request(url, 1 * TicksPerSecond, 1 * TicksPerSecond, Ok(d));
    var r3 := Request(url, 12 * TicksPerSecond, 12 * TicksPerSecond, Ok(d));
    var t0: Table<T> := map[];
    var t1 := map[CacheKey(url) := Entry(c, 1 * TicksPerSecond)];
    var t2 := map[CacheKey(url) := Entry(d, 12 * TicksPerSecond)];
    assert Call(t0, url, 0, 1 * TicksPerSecond, Ok(c)) == Step(Ok(c), t1, true);
    assert Call(t1, url, 1 * TicksPerSecond, 1 * TicksPerSecond, Ok(d)) == Step(Ok(c), t1, false);
    assert Call(t1, url, 12 * TicksPerSecond, 12 * TicksPerSecond, Ok(d)) == Step(Ok(d), t2, true);
    assert [r0, r1, r1, r3][1..] == [r1, r1, r3];
    assert [r1, r1, r3][1..] == [r1, r3];
    assert [r1, r3][1..] == [r3];
    assert [r3][1..] == [];
    assert Run(t2, []) == Trace([], t2, 0);
    assert Run(t1, [r3]) == Trace([Ok(d)], t2, 1);
    assert Run(t1, [r1, r3]) == Trace([Ok(c), Ok(d)], t2, 1);
    assert Run(t1, [r1, r1, r3]) == Trace([Ok(c), Ok(c), Ok(d)], t2, 1);
  }

  /**
   * A miss, hit, refetch timeline: a miss at 0 s stores C, a call at 3 s is
   * served C without fetching, a call at 11 s fetches D and replaces the entry.
   */
  lemma Scenario<T>(url: string, c: T, d: T)
    ensures var requests := [Request(url, 0, 0, Ok(c)),
                             Request(url, 3 * TicksPerSecond, 3 * TicksPerSecond, Ok(d)),
                             Request(url, 11 * TicksPerSecond, 11 * TicksPerSecond, Ok(d))];
            Run(map[], requests) == Trace([Ok(c), Ok(c), Ok(d)], map[CacheKey(url) := Entry(d, 11 * TicksPerSecond)], 2)
  {
    var r0 := Request(url, 0, 0, Ok(c));
    var r1 := Request(url, 3 * TicksPerSecond, 3 * TicksPerSecond, Ok(d));
    var r2 := Request(url, 11 * TicksPerSecond, 11 * TicksPerSecond, Ok(d));
    var t0: Table<T> := map[];
    var t1 := map[CacheKey(url) := Entry(c, 0)];
    var t2 := map[CacheKey(url) := Entry(d, 11 * TicksPerSecond)];
    assert Call(t0, url, 0, 0, Ok(c)) == Step(Ok(c), t1, true);
    assert Call(t1, url, 3 * TicksPerSecond, 3 * TicksPerSecond, Ok(d)) == Step(Ok(c), t1, false);
    assert Call(t1, url, 11 * TicksPerSecond, 11 * TicksPerSecond, Ok(d)) == Step(Ok(d), t2, true);
    assert [r0, r1, r2][1..] == [r1, r2];
    assert [r1, r2][1..] == [r2];
    assert [r2][1..] == [];
    assert Run(t2, []) == Trace([], t2, 0);
    assert Run(t1, [r2]) == Trace([Ok(d)], t2, 1);
    assert Run(t1, [r1, r2]) == Trace([Ok(c), Ok(d)], t2, 1);
  }

  /**
   * Every key in the table is the key of a url in `requested`: the wrapper
   * stores entries only under `"cache:" + url` for urls it was called with.
   */
  ghost predicate WellKeyed<T>(table: Table<T>, requested: set<string>)
  {
    forall k :: k in table ==>
      |KeyPrefix| <= |k| && k == CacheKey(k[|KeyPrefix|..]) && k[|KeyPrefix|..] in requested
  }

  /** A url the wrapper was never called with has no entry. */
  lemma UnrequestedHasNoEntry<T>(table: Table<T>, requested: set<string>, url: string)
    requires WellKeyed(table, requested)
    requires url !in requested
    ensures CacheKey(url) !in table
  {
  }

  /**
   * The decorator applied to one function: `table` is the closure's `cache`
   * dictionary, `fetchCalls` counts the calls made to the wrapped function,
   * `requested` holds the urls the wrapper has been called with.
   */
  class Memo<T> {
    var table: Table<T>
    ghost var fetchCalls: nat
    ghost var requested: set<string>

    ghost predicate Valid()
      reads this
    {
      WellKeyed(table, requested)
    }

    /** Decorating a function starts from an empty `cache`. */
    constructor ()
      ensures Valid() && table == map[] && fetchCalls == 0 && requested == {}
    {
      table := map[];
      fetchCalls := 0;
      requested := {};
    }

    /** The wrapper: serve a fresh entry, or call the wrapped function and store what it returns. */
    method Get(url: string, nowCheck: int, nowStore: int, fetch: Result<T>) returns (r: Result<T>)
      requires Valid()
      modifies this
      ensures Valid() && requested == old(requested) + {url}
      ensures var s := Call(old(table), url, nowCheck, nowStore, fetch);
              r == s.result && table == s.table && fetchCalls == old(fetchCalls) + (if s.fetched then 1 else 0)
      ensures Lookup(old(table), url, nowCheck).Some? ==> fetchCalls == old(fetchCalls) && table == old(table)
      ensures Lookup(old(table), url, nowCheck).None? ==> fetchCalls == old(fetchCalls) + 1 && r == fetch
    {
      var key := CacheKey(url);
      if key in table {
        var cached := table[key];
        if nowCheck - cached.timestamp < Ttl {
          requested := requested + {url};
          return Ok(cached.content);
        }
      }
      requested := requested + {url};
      fetchCalls := fetchCalls + 1;
      r := fetch;
      if r.Ok? {
        table := table[key := Entry(r.value, nowStore)];
      }
    }
  }
}
