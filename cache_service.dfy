/**
 * The cache service: a registry of named cache configurations and of the cache created for each
 * region. A region's cache is created on first request from the region's own configuration, or
 * from the configuration named "default" when it has none, and every later request returns that
 * same cache. Loading an implementation class by reflection is the parameter `instantiable`,
 * which says whether loading and instantiating a class name succeeds.
 */
module CacheService {
  import opened Wrappers
  import opened JavaLang
  import opened FifoCache

  const DEFAULT_CONFIG_NAME: string := "default"

  /** A cache configuration; `cacheLabel` (the label) and `implementation` may be null. */
  datatype ExoCacheConfig = ExoCacheConfig(
    name: string,
    cacheLabel: Option<string>,
    maxSize: int,
    liveTime: int,
    logEnabled: bool,
    implementation: Option<string>)

  /** The class of a created cache: the built-in simple cache, or the configured implementation class. */
  datatype CacheKind = SimpleExoCache | Implementation(className: string)

  /** A created cache together with its class. */
  datatype CacheEntry<K(==,!new), V> = CacheEntry(kind: CacheKind, cache: ConcurrentFIFOExoCache<K, V>)

  /** The configurations after putting each of `cs`, in order, into `m` under its name. */
  function PutAll(m: map<string, ExoCacheConfig>, cs: seq<ExoCacheConfig>): map<string, ExoCacheConfig>
    decreases |cs|
  {
    if cs == [] then m else PutAll(m[cs[0].name := cs[0]], cs[1..])
  }

  /** The last of `cs` named `n`, if any. */
  function LastNamed(cs: seq<ExoCacheConfig>, n: string): (r: Option<ExoCacheConfig>)
    ensures r.Some? ==> r.value in cs && r.value.name == n
    ensures r.None? ==> forall i :: 0 <= i < |cs| ==> cs[i].name != n
  {
    if cs == [] then None
    else if cs[|cs| - 1].name == n then Some(cs[|cs| - 1])
    else LastNamed(cs[..|cs| - 1], n)
  }

  /** Putting a list of configurations by name: the last one with a name wins, other names keep their old configuration. */
  lemma {:induction false} PutAllLookup(m: map<string, ExoCacheConfig>, cs: seq<ExoCacheConfig>, n: string)
    ensures n in PutAll(m, cs) <==> n in m || LastNamed(cs, n).Some?
    ensures LastNamed(cs, n).Some? ==> PutAll(m, cs)[n] == LastNamed(cs, n).value
    ensures LastNamed(cs, n).None? && n in m ==> PutAll(m, cs)[n] == m[n]
    decreases |cs|
  {
    if cs != [] {
      var m' := m[cs[0].name := cs[0]];
      PutAllLookup(m', cs[1..], n);
      LastNamedCons(cs, n);
    }
  }

  /** The last configuration named `n` in `cs` is the last in its tail, or else the head when it has that name. */
  lemma {:induction false} LastNamedCons(cs: seq<ExoCacheConfig>, n: string)
    requires cs != []
    ensures LastNamed(cs, n) ==
              if LastNamed(cs[1..], n).Some? then LastNamed(cs[1..], n)
              else if cs[0].name == n then Some(cs[0]) else None
    decreases |cs|
  {
    if |cs| > 1 {
      var last := cs[|cs| - 1];
      assert cs[1..][|cs[1..]| - 1] == last;
      if last.name != n {
        assert cs[1..][..|cs[1..]| - 1] == cs[..|cs| - 1][1..];
        LastNamedCons(cs[..|cs| - 1], n);
      }
    }
  }

  class CacheServiceImpl<K(==,!new), V> {
    /** The configurations by name. */
    var configs: map<string, ExoCacheConfig>
    /** The cache created for each region. */
    var cacheMap: map<string, CacheEntry<K, V>>
    /** The configuration named "default" when the service was built. */
    var defaultConfig: Option<ExoCacheConfig>
    /** The listener that logs cache events, shared by every cache with logging enabled. */
    const loggingListener: Listener

    /** Registers the configurations of the init parameters by name and remembers the "default" one. */
    constructor (params: seq<ExoCacheConfig>, loggingListener: Listener)
      ensures configs == PutAll(map[], params)
      ensures defaultConfig == (if DEFAULT_CONFIG_NAME in configs then Some(configs[DEFAULT_CONFIG_NAME]) else None)
      ensures defaultConfig == LastNamed(params, DEFAULT_CONFIG_NAME)
      ensures cacheMap == map[] && this.loggingListener == loggingListener
    {
      this.loggingListener := loggingListener;
      cacheMap := map[];
      var cs := map[];
      var i := 0;
      while i < |params|
        invariant 0 <= i <= |params|
        invariant PutAll(cs, params[i..]) == PutAll(map[], params)
      {
        assert params[i..][1..] == params[i + 1..];
        cs := cs[params[i].name := params[i]];
        i := i + 1;
      }
      assert params[i..] == [];
      configs := cs;
      defaultConfig := if DEFAULT_CONFIG_NAME in cs then Some(cs[DEFAULT_CONFIG_NAME]) else None;
      PutAllLookup(map[], params, DEFAULT_CONFIG_NAME);
    }

    /** Adds a plugin's configurations by name, replacing earlier ones; the default configuration stays as it was. */
    method AddExoCacheConfig(plugin: seq<ExoCacheConfig>)
      modifies this`configs
      ensures configs == PutAll(old(configs), plugin)
    {
      var i := 0;
      while i < |plugin|
        invariant 0 <= i <= |plugin|
        invariant PutAll(configs, plugin[i..]) == PutAll(old(configs), plugin)
      {
        assert plugin[i..][1..] == plugin[i + 1..];
        configs := configs[plugin[i].name := plugin[i]];
        i := i + 1;
      }
      assert plugin[i..] == [];
    }

    /** The configuration a new cache for `region` is built from: its own, else the default one. */
    function ChosenConfig(region: string): Option<ExoCacheConfig>
      reads this
    {
      if region in configs then Some(configs[region]) else defaultConfig
    }

    /**
     * Builds a cache for `region`. With no configuration at all the configuration's dereference
     * throws; an implementation class that cannot be loaded or instantiated throws; otherwise the
     * new cache gets the region as name and the configuration's label, maximum size, live time and
     * logging flag, and the logging listener exactly when logging is enabled.
     */
    method CreateCacheInstance(region: string, instantiable: string -> bool) returns (r: Result<CacheEntry<K, V>>)
      ensures ChosenConfig(region).None? ==> r == Failure(NullPointer)
      ensures (ChosenConfig(region).Some? && ChosenConfig(region).value.implementation.Some? &&
               !instantiable(ChosenConfig(region).value.implementation.value)) ==> r == Failure(ReflectiveOperation)
      ensures r.Success? ==> ChosenConfig(region).Some? && Created(r.value, region, ChosenConfig(region).value, instantiable)
      ensures r.Success? ==> fresh(r.value.cache)
      ensures r.Success? <==> ChosenConfig(region).Some? &&
                              (ChosenConfig(region).value.implementation.Some? ==>
                                 instantiable(ChosenConfig(region).value.implementation.value))
    {
      var config := ChosenConfig(region);
      if config.None? {
        return Failure(NullPointer);
      }
      var c := config.value;
      var kind: CacheKind;
      if c.implementation.None? {
        kind := SimpleExoCache;
      } else {
        if !instantiable(c.implementation.value) {
          return Failure(ReflectiveOperation);
        }
        kind := Implementation(c.implementation.value);
      }
      var cache := new ConcurrentFIFOExoCache.Default();
      cache.SetName(Some(region));
      cache.SetLabel(c.cacheLabel);
      cache.SetMaxSize(c.maxSize);
      cache.SetLiveTime(c.liveTime);
      cache.SetLogEnabled(c.logEnabled);
      if cache.logEnabled {
        var _ := cache.AddCacheListener(Some(loggingListener));
      }
      return Success(CacheEntry(kind, cache));
    }

    /** `e` is a new, empty cache for `region` set up from configuration `c`. */
    ghost predicate Created(e: CacheEntry<K, V>, region: string, c: ExoCacheConfig, instantiable: string -> bool)
      reads this, e.cache, e.cache.state, e.cache.state.queue
    {
      var cache := e.cache;
      (if c.implementation.None? then e.kind == SimpleExoCache
       else e.kind == Implementation(c.implementation.value) && instantiable(c.implementation.value)) &&
      cache.Valid() && cache.state.entries == map[] &&
      cache.name == Some(region) && cache.cacheLabel == c.cacheLabel && cache.maxSize == c.maxSize &&
      cache.liveTimeMillis == (if WrapLong(c.liveTime * 1000) < 0 then -1 else WrapLong(c.liveTime * 1000)) &&
      cache.logEnabled == c.logEnabled &&
      cache.listeners == (if c.logEnabled then [loggingListener] else [])
    }

    /**
     * The cache of `region`: a null region throws NullPointerException and an empty one
     * IllegalArgumentException; a region with a cache gets that same cache; otherwise a new cache
     * is created and recorded, and when creation throws the error is swallowed, null is returned
     * and nothing is recorded.
     */
    method GetCacheInstance(region: Option<string>, instantiable: string -> bool)
      returns (r: Result<Option<ConcurrentFIFOExoCache<K, V>>>)
      modifies this`cacheMap
      ensures region.None? ==> r == Failure(NullPointer) && cacheMap == old(cacheMap)
      ensures region.Some? && region.value == [] ==> r == Failure(IllegalArgument) && cacheMap == old(cacheMap)
      ensures region.Some? && region.value != [] && region.value in old(cacheMap) ==>
                r == Success(Some(old(cacheMap)[region.value].cache)) && cacheMap == old(cacheMap)
      ensures region.Some? && region.value != [] && region.value !in old(cacheMap) ==>
                r.Success? &&
                (r.value.None? ==> cacheMap == old(cacheMap)) &&
                (r.value.Some? ==>
                   region.value in cacheMap && cacheMap == old(cacheMap)[region.value := cacheMap[region.value]] &&
                   r.value.value == cacheMap[region.value].cache && fresh(r.value.value) &&
                   ChosenConfig(region.value).Some? &&
                   Created(cacheMap[region.value], region.value, ChosenConfig(region.value).value, instantiable)) &&
                (r.value.Some? <==> ChosenConfig(region.value).Some? &&
                                    (ChosenConfig(region.value).value.implementation.Some? ==>
                                       instantiable(ChosenConfig(region.value).value.implementation.value)))
    {
      if region.None? {
        return Failure(NullPointer);
      }
      var name := region.value;
      if |name| == 0 {
        return Failure(IllegalArgument);
      }
      if name in cacheMap {
        return Success(Some(cacheMap[name].cache));
      }
      var created := CreateCacheInstance(name, instantiable);
      if created.Failure? {
        return Success(None);
      }
      cacheMap := cacheMap[name := created.value];
      return Success(Some(created.value.cache));
    }

    /** Every recorded cache. */
    function GetAllCacheInstances(): (r: set<ConcurrentFIFOExoCache<K, V>>)
      reads this
      ensures forall n :: n in cacheMap ==> cacheMap[n].cache in r
      ensures forall c :: c in r ==> exists n :: n in cacheMap && cacheMap[n].cache == c
    {
      set n | n in cacheMap :: cacheMap[n].cache
    }
  }
}
