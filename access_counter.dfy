/**
 * The `track_access_count(url)` decorator of web.py. Its wrapper receives a
 * fresh copy of the call's keyword arguments, sets `"count:" + url` (the url
 * given to the decorator) to its previous value there, or 0, plus one, and
 * forwards the call. Nothing is kept between calls.
 */
module AccessCounter {
  import opened Wrappers

  const CountPrefix: string := "count:"

  /** A keyword-argument value: an integer, or any object `+ 1` rejects. */
  datatype Value = Int(n: int) | Other(repr: string)

  /** The keyword arguments of a call. */
  type Kwargs = map<string, Value>

  /** The key the counter writes; the decorator's url can be read back from it. */
  function CountKey(decoratorUrl: string): (k: string)
    ensures |k| == |CountPrefix| + |decoratorUrl|
    ensures k[..|CountPrefix|] == CountPrefix
    ensures k[|CountPrefix|..] == decoratorUrl
  {
    CountPrefix + decoratorUrl
  }

  /** `kwargs.get(key, 0)`. */
  function Previous(kwargs: Kwargs, key: string): Value
  {
    if key in kwargs then kwargs[key] else Int(0)
  }

  /**
   * The keyword arguments the wrapper forwards: the count key set to its
   * previous value plus one, every other argument as it was; a value under
   * the count key that is not an integer makes `+ 1` raise TypeError.
   */
  function Bump(kwargs: Kwargs, decoratorUrl: string): (r: Result<Kwargs>)
    ensures r.Ok? <==> CountKey(decoratorUrl) !in kwargs || kwargs[CountKey(decoratorUrl)].Int?
    ensures r.Raised? ==> r.exception == TypeError
    ensures r.Ok? ==> r.value.Keys == kwargs.Keys + {CountKey(decoratorUrl)}
    ensures r.Ok? ==> CountKey(decoratorUrl) !in kwargs ==> r.value[CountKey(decoratorUrl)] == Int(1)
    ensures r.Ok? ==> CountKey(decoratorUrl) in kwargs ==>
              r.value[CountKey(decoratorUrl)] == Int(kwargs[CountKey(decoratorUrl)].n + 1)
    ensures r.Ok? ==> forall k :: k in kwargs && k != CountKey(decoratorUrl) ==> r.value[k] == kwargs[k]
  {
    var key := CountKey(decoratorUrl);
    match Previous(kwargs, key)
    case Int(n) => Ok(kwargs[key := Int(n + 1)])
    case Other(_) => Raised(TypeError)
  }

  /**
   * The wrapper around `inner`: it forwards the positional arguments and the
   * bumped keyword arguments, and returns (or raises) whatever `inner` does.
   */
  function Counted<A, R>(decoratorUrl: string, args: A, kwargs: Kwargs, inner: (A, Kwargs) -> Result<R>): (r: Result<R>)
    ensures CountKey(decoratorUrl) in kwargs && kwargs[CountKey(decoratorUrl)].Other? ==> r == Raised(TypeError)
    ensures CountKey(decoratorUrl) !in kwargs || kwargs[CountKey(decoratorUrl)].Int? ==>
              exists forwarded :: Bump(kwargs, decoratorUrl) == Ok(forwarded) && r == inner(args, forwarded)
  {
    match Bump(kwargs, decoratorUrl)
    case Ok(forwarded) => inner(args, forwarded)
    case Raised(e) => Raised(e)
  }

  /**
   * No count survives a call: every call made without the count key,
   * whatever its positional arguments (the fetched url among them), hands
   * `inner` a count of exactly one.
   */
  lemma CountIsAlwaysOne<A, R>(decoratorUrl: string, args: A, kwargs: Kwargs, inner: (A, Kwargs) -> Result<R>)
    requires CountKey(decoratorUrl) !in kwargs
    ensures Counted(decoratorUrl, args, kwargs, inner) == inner(args, kwargs[CountKey(decoratorUrl) := Int(1)])
  {
  }

  /** A caller-supplied count `n` is forwarded as `n + 1`. */
  lemma SuppliedCountIncremented<A, R>(decoratorUrl: string, n: int, args: A, kwargs: Kwargs, inner: (A, Kwargs) -> Result<R>)
    ensures var given := kwargs[CountKey(decoratorUrl) := Int(n)];
            Counted(decoratorUrl, args, given, inner) == inner(args, kwargs[CountKey(decoratorUrl) := Int(n + 1)])
  {
    var given := kwargs[CountKey(decoratorUrl) := Int(n)];
    assert given[CountKey(decoratorUrl) := Int(n + 1)] == kwargs[CountKey(decoratorUrl) := Int(n + 1)];
  }
}
