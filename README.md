# Expiring page cache and access counter of `0x02-redis_basic/web.py`

This project models the two decorators of `web.py` and proves their behaviour.

- `cache_with_expiration` keeps a dictionary from `"cache:" + url` to the last
  content fetched for that url and the time it was stored. A call serves the
  stored content while strictly less than `CACHE_EXPIRATION_SECONDS` (10 s) has
  passed since the store. Otherwise it calls the wrapped function, overwrites
  the entry with the result and the clock read after the call, and returns the
  result. An exception from the wrapped function propagates, and nothing is
  stored. Module `ExpiringCache` holds the specification functions (`Lookup`,
  `Call`, `Run`), the lemmas about them, and the class `Memo`. `Memo` holds the
  dictionary as a `map` field and counts calls to the wrapped function in a
  ghost field. Its method `Get` is the wrapper.
- `track_access_count(url)` gives its wrapper a fresh copy of the keyword
  arguments. The wrapper sets `"count:" + url` in that copy to its previous
  value plus one, with 0 if the key was absent. The `url` here is the
  decorator's argument, not the url being fetched. The wrapper then forwards
  the call and returns the inner result. Module `AccessCounter` models this as
  pure functions over the keyword-argument map, because nothing is kept between
  calls. The count handed on is therefore 1 unless the caller supplies it.

The clock is an integer number of microseconds, passed in. The freshness test
(line 25) and the store (line 29) read it separately, as `nowCheck` and
`nowStore`. The clock is not required to be monotonic. The wrapped function is
passed in as its outcome, `Ok(content)` or `Raised(exception)`. The model treats
it as called only on a miss.

The counter wrapper keeps no count between calls, and it keys the count by the
decorator's url.

The condition `if cached_result` on line 25 tests whether the stored
dictionary is non-empty. Every stored entry has two fields, so the model reads
this as "an entry exists".

## Model

| member | source | states |
|---|---|---|
| ExpiringCache.CacheKey | 0x02-redis_basic/web.py:22 | the key is `"cache:"` followed by the url, and the url can be read back from the key |
| ExpiringCache.CacheKeyInjective | 0x02-redis_basic/web.py:22 | two urls have the same key exactly when they are equal, so distinct urls never share an entry |
| ExpiringCache.Lookup | 0x02-redis_basic/web.py:22-26 | a lookup hits exactly when an entry exists for the url and less than the 10 s time-to-live has elapsed since its timestamp; a hit yields the stored content |
| ExpiringCache.Call | 0x02-redis_basic/web.py:21-30 | a hit returns the stored content, does not fetch and keeps the table; a miss fetches once and returns the fetch's result; a successful fetch replaces only this url's entry with the content and the store-time clock; a failed fetch propagates and leaves the table unchanged |
| ExpiringCache.ExpiredAtTtl | 0x02-redis_basic/web.py:25 | freshness is strict: an entry exactly 10 s old is refetched, and one tick earlier it is still served |
| ExpiringCache.OtherUrlsUntouched | 0x02-redis_basic/web.py:22-29 | a call for one url leaves the entry and the lookup result of every other url unchanged |
| ExpiringCache.RefetchExactlyAfterTtl | 0x02-redis_basic/web.py:25-29 | after a successful fetch, a later call for the same url refetches exactly when at least 10 s have passed since the store, and otherwise returns the fetched content |
| ExpiringCache.Run | 0x02-redis_basic/web.py:21-30 | a sequence of calls returns one result per call and makes at most one fetch per call |
| ExpiringCache.HitsWhileFresh | 0x02-redis_basic/web.py:25-26 | hits do not refresh an entry: calls within 10 s of its timestamp all return the stored content, make no fetch and leave the table unchanged |
| ExpiringCache.OneFetchWithinTtl | 0x02-redis_basic/web.py:25-30 | repeated calls for one url within 10 s of a missing fetch make exactly one fetch, and every call returns that fetch's content |
| ExpiringCache.RunOtherUrlsUntouched | 0x02-redis_basic/web.py:22-29 | a sequence of calls leaves the lookup result of every url it does not request unchanged, so different urls keep independent entries |
| ExpiringCache.Scenario | 0x02-redis_basic/web.py:25-29 | a miss, hit, refetch timeline: a miss at 0 s stores C, a call at 3 s returns C without fetching, and a call at 11 s fetches D and replaces the entry: two fetches in total |
| ExpiringCache.DemoTimeline | 0x02-redis_basic/web.py:44-53 | the demonstration's four calls on the cache wrapper alone: a miss storing C at 1 s, two calls served C, and a call at 12 s that fetches D and replaces the entry: results C, C, C, D and two fetches |
| ExpiringCache.UnrequestedHasNoEntry | 0x02-redis_basic/web.py:22-29 | the table holds entries only under the keys of urls the wrapper was called with |
| ExpiringCache.Memo.constructor | 0x02-redis_basic/web.py:19 | a decorated function starts with an empty table and no fetches |
| ExpiringCache.Memo.Get | 0x02-redis_basic/web.py:21-30 | the wrapper's result and new table are those of `Call`; a hit makes no fetch call and a miss makes exactly one; every key in the table is `"cache:"` followed by a url the wrapper was called with |
| AccessCounter.CountKey | 0x02-redis_basic/web.py:10 | the count key is `"count:"` followed by the decorator's url, which can be read back from it |
| AccessCounter.Bump | 0x02-redis_basic/web.py:10-12 | the forwarded arguments set the count key to its previous value plus one (1 when absent) and keep every other argument; a non-integer value under the key raises TypeError |
| AccessCounter.Counted | 0x02-redis_basic/web.py:9-14 | the wrapper returns exactly what the inner function returns on the bumped arguments, or raises TypeError before calling it |
| AccessCounter.CountIsAlwaysOne | 0x02-redis_basic/web.py:9-14 | no count survives between calls: any call without the count key hands the inner function a count of 1, whatever url is fetched |
| AccessCounter.SuppliedCountIncremented | 0x02-redis_basic/web.py:11-12 | a caller-supplied count n is forwarded as n + 1 |

## Left out

- The HTTP fetch in `get_page` (web.py:36-38) is network I/O. The model takes the wrapped function's outcome as a parameter instead.
- `datetime.now()` and `timedelta` (web.py:25, 29) read the wall clock. The model takes integer microsecond readings as parameters instead.
- The decorator stack on `get_page` (web.py:34-36) is not modelled. On a miss it forwards the counter's extra keyword argument into `get_page(url)`, which accepts none, so that call raises. Each wrapper is modelled on its own around an abstract inner function.
- The `__main__` demonstration (web.py:40-59) is left out: it prints, sleeps, and reads a `__wrapped__` attribute that the wrappers never set. The `DemoTimeline` lemma states its four calls as made on the cache wrapper alone; on the full decorator stack the first of them raises.
- The unused `lru_cache` import (web.py:2) is not modelled.
- The memoizer's extra positional and keyword arguments (web.py:21, 28) are not modelled. They reach the wrapped function but not the cache key, so the model folds them into the fetch outcome.
- AccessCounter.Bump: keyword values are either integers or other objects. A Python `bool` or `float` under the count key, which `+ 1` accepts, is not distinguished.
