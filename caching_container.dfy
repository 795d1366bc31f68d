/**
 * The memoising container: a component registry whose five lookups by type and by key are
 * cached in maps, and whose registrations and unregistrations clear the caches. The clearing
 * misses the instance-by-type cache, so instances cached by type survive any change of the
 * registry. The registry itself is the `base` container, to which every uncached lookup goes.
 */
module CachingContainers {
  import opened Wrappers
  import opened Seqs
  import opened Containers

  class CachingContainer {
    /** The registry this container memoises. */
    const base: ConcurrentContainer
    var adapterByType: map<ClassName, Adapter>
    var instanceByType: map<ClassName, Instance>
    var instanceByKey: map<ComponentKey, Instance>
    var adaptersByType: map<ClassName, seq<Adapter>>
    var instancesByType: map<ClassName, seq<Instance>>

    /** The registry is consistent, and so is the cache of adapter lists. */
    ghost predicate Valid()
      reads this`adaptersByType, base, base.ancestors
    {
      base.ChainOk() && base.ChainValid() && ListsSound()
    }

    /** Every cached adapter list is what a fresh lookup would give. */
    ghost predicate ListsSound()
      reads this`adaptersByType, base`adapters
    {
      forall t :: t in adaptersByType ==> adaptersByType[t] == OfType(base.adapters, t)
    }

    /** A caching container with no registrations and empty caches, under `parent` if it is not null. */
    constructor (parent: ConcurrentContainer?)
      requires parent != null ==> parent.ChainOk() && parent.ChainValid()
      ensures Valid() && fresh(base)
      ensures base.parent == parent && base.keyMap == map[] && base.adapters == [] && base.ordered == []
      ensures adapterByType == map[] && instanceByType == map[] && instanceByKey == map[]
      ensures adaptersByType == map[] && instancesByType == map[]
    {
      if parent == null {
        base := new ConcurrentContainer.Root();
      } else {
        base := new ConcurrentContainer.WithParent(parent);
      }
      adapterByType := map[];
      instanceByType := map[];
      instanceByKey := map[];
      adaptersByType := map[];
      instancesByType := map[];
    }

    /**
     * getComponentAdaptersOfType: the cached list when there is one, else the registry's answer,
     * which is then cached. Either way the answer is the fresh one. A null type throws, as the
     * concurrent hash map does.
     */
    method GetComponentAdaptersOfType(t: Option<ClassName>) returns (r: Result<seq<Adapter>>)
      requires Valid()
      modifies this`adaptersByType
      ensures Valid()
      ensures t.None? ==> r == Failure(NullPointer) && adaptersByType == old(adaptersByType)
      ensures t.Some? && t.value in old(adaptersByType) ==>
                r == Success(old(adaptersByType)[t.value]) && adaptersByType == old(adaptersByType)
      ensures t.Some? ==>
                r == Success(OfType(base.adapters, t.value)) &&
                adaptersByType == old(adaptersByType)[t.value := OfType(base.adapters, t.value)]
    {
      if t.None? {
        return Failure(NullPointer);
      }
      if t.value in adaptersByType {
        return Success(adaptersByType[t.value]);
      }
      var found := base.GetComponentAdaptersOfType(t);
      adaptersByType := adaptersByType[t.value := found];
      r := Success(found);
    }

    /** The adapter a type lookup starts from: the cached one, else the registry's resolution. */
    ghost function ResolvedAdapter(t: ClassName): Result<Option<Adapter>>
      requires base.ChainOk()
      reads this`adapterByType, base`keyMap, base.ancestors`keyMap, base`adapters, base.ancestors`adapters
    {
      if t in adapterByType then Success(Some(adapterByType[t])) else base.AdapterOfType(Some(t))
    }

    /**
     * getComponentAdapterOfType: the cached adapter when there is one; otherwise the registry's
     * resolution rule, its local list of assignable adapters taken through the cached
     * `GetComponentAdaptersOfType`, so the list of the type is cached exactly when no adapter
     * is registered under the type as key; an adapter found is cached, null and exceptions are not.
     */
    method GetComponentAdapterOfType(t: Option<ClassName>) returns (r: Result<Option<Adapter>>)
      requires Valid()
      modifies this`adapterByType, this`adaptersByType
      ensures Valid()
      ensures t.None? ==> r == Failure(NullPointer)
      ensures t.None? || t.value in old(adapterByType) ==>
                adapterByType == old(adapterByType) && adaptersByType == old(adaptersByType)
      ensures t.Some? ==> r == old(ResolvedAdapter(t.value))
      ensures t.Some? && t.value !in old(adapterByType) ==>
                adapterByType == (if r.Success? && r.value.Some? then old(adapterByType)[t.value := r.value.value] else old(adapterByType)) &&
                adaptersByType ==
                  (if old(base.GetComponentAdapter(Some(ClassKey(t.value)))).value.Some? then old(adaptersByType)
                   else old(adaptersByType)[t.value := OfType(base.adapters, t.value)])
    {
      if t.None? {
        return Failure(NullPointer);
      }
      if t.value in adapterByType {
        return Success(Some(adapterByType[t.value]));
      }
      var byKey := base.GetComponentAdapter(Some(ClassKey(t.value)));
      if byKey.value.Some? {
        r := byKey;
      } else {
        var found := GetComponentAdaptersOfType(t);
        ghost var listCached := adaptersByType;
        assert listCached == old(adaptersByType)[t.value := OfType(base.adapters, t.value)];
        var list := found.value;
        if |list| == 1 {
          r := Success(Some(list[0]));
        } else if |list| == 0 {
          if base.parent != null {
            r := base.parent.GetComponentAdapterOfType(t);
          } else {
            r := Success(None);
          }
        } else {
          r := Failure(AmbiguousComponentResolution);
        }
        assert adaptersByType == listCached;
      }
      label Resolved:
      if r.Success? && r.value.Some? {
        adapterByType := adapterByType[t.value := r.value.value];
        CacheWriteFrame@Resolved();
      }
    }

    /**
     * getComponentInstancesOfType: the cached list when there is one (nothing is instantiated);
     * otherwise the registry's answer, which is then cached. A null type throws.
     */
    method GetComponentInstancesOfType(t: Option<ClassName>) returns (r: Result<seq<Instance>>)
      requires Valid()
      modifies this`instancesByType, base`ordered
      ensures Valid()
      ensures t.None? || t.value in old(instancesByType) ==>
                instancesByType == old(instancesByType) && base.ordered == old(base.ordered)
      ensures t.None? ==> r == Failure(NullPointer)
      ensures t.Some? && t.value in old(instancesByType) ==> r == Success(old(instancesByType)[t.value])
      ensures t.Some? && t.value !in old(instancesByType) ==>
                base.ordered == AddAllAbsent(old(base.ordered), OfType(base.adapters, t.value)) &&
                r == Success(InstancesIn(base.ordered, OfType(base.adapters, t.value))) &&
                instancesByType == old(instancesByType)[t.value := r.value]
    {
      if t.None? {
        return Failure(NullPointer);
      }
      if t.value in instancesByType {
        return Success(instancesByType[t.value]);
      }
      var instances := base.GetComponentInstancesOfType(t);
      instancesByType := instancesByType[t.value := instances];
      r := Success(instances);
    }

    /**
     * getComponentInstance: the cached instance when there is one; otherwise the registry's
     * answer, cached unless it is null. A null key throws.
     */
    method GetComponentInstance(key: Option<ComponentKey>) returns (r: Result<Option<Instance>>)
      requires Valid()
      modifies this`instanceByKey, base`ordered, base.ancestors`ordered
      ensures Valid()
      ensures key.None? ==> r == Failure(NullPointer)
      ensures key.None? || key.value in old(instanceByKey) ==>
                instanceByKey == old(instanceByKey) && base.UnchangedOrder()
      ensures key.Some? && key.value in old(instanceByKey) ==> r == Success(Some(old(instanceByKey)[key.value]))
      ensures key.Some? && key.value !in old(instanceByKey) ==>
                r == base.InstanceOf(key) && base.RecordedFor(key.value) &&
                instanceByKey == (if r.value.Some? then old(instanceByKey)[key.value := r.value.value] else old(instanceByKey))
    {
      if key.None? {
        return Failure(NullPointer);
      }
      if key.value in instanceByKey {
        return Success(Some(instanceByKey[key.value]));
      }
      r := FetchInstance(key.value);
    }

    /** The uncached path of `GetComponentInstance`: the registry's answer, cached unless it is null. */
    method FetchInstance(k: ComponentKey) returns (r: Result<Option<Instance>>)
      requires Valid()
      modifies this`instanceByKey, base`ordered, base.ancestors`ordered
      ensures Valid()
      ensures r == base.InstanceOf(Some(k)) && base.RecordedFor(k)
      ensures instanceByKey == (if r.value.Some? then old(instanceByKey)[k := r.value.value] else old(instanceByKey))
    {
      r := base.GetComponentInstance(Some(k));
      label Fetched:
      if r.value.Some? {
        instanceByKey := instanceByKey[k := r.value.value];
        CacheWriteFrame@Fetched();
      }
    }

    /**
     * getComponentInstanceOfType: the cached instance when there is one; otherwise the instance
     * of the adapter this container's (cached) type lookup resolves to, cached unless it is
     * null. A null type throws; the exceptions of the resolution pass through.
     */
    method GetComponentInstanceOfType(t: Option<ClassName>) returns (r: Result<Option<Instance>>)
      requires Valid()
      modifies this`instanceByType, this`adapterByType, this`adaptersByType, base`ordered, base.ancestors`ordered
      ensures Valid()
      ensures t.None? ==> r == Failure(NullPointer)
      ensures t.None? || t.value in old(instanceByType) ==>
                instanceByType == old(instanceByType) && adapterByType == old(adapterByType) &&
                adaptersByType == old(adaptersByType) && base.UnchangedOrder()
      ensures t.Some? && t.value in old(instanceByType) ==> r == Success(Some(old(instanceByType)[t.value]))
      ensures t.Some? && t.value !in old(instanceByType) ==>
                var a := old(ResolvedAdapter(t.value));
                (a.Failure? ==> r == Failure(a.error) && base.UnchangedOrder()) &&
                (a == Success(None) ==> r == Success(None) && base.UnchangedOrder()) &&
                (a.Success? && a.value.Some? ==> r == Success(base.InstanceVia(a.value.value)) && base.RecordedVia(a.value.value))
      ensures t.Some? && t.value !in old(instanceByType) ==>
                instanceByType == (if r.Success? && r.value.Some? then old(instanceByType)[t.value := r.value.value] else old(instanceByType))
    {
      if t.None? {
        return Failure(NullPointer);
      }
      if t.value in instanceByType {
        return Success(Some(instanceByType[t.value]));
      }
      var found := GetComponentAdapterOfType(t);
      if found.Failure? {
        return Failure(found.error);
      }
      if found.value.None? {
        return Success(None);
      }
      var inst := FetchInstanceOf(t.value, found.value.value);
      r := Success(inst);
    }

    /** The uncached path of `GetComponentInstanceOfType` once `a` is resolved: its instance, cached unless it is null. */
    method FetchInstanceOf(t: ClassName, a: Adapter) returns (r: Option<Instance>)
      requires Valid()
      modifies this`instanceByType, base`ordered, base.ancestors`ordered
      ensures Valid()
      ensures r == base.InstanceVia(a) && base.RecordedVia(a)
      ensures instanceByType == (if r.Some? then old(instanceByType)[t := r.value] else old(instanceByType))
    {
      r := base.GetInstance(a);
      label Fetched:
      if r.Some? {
        instanceByType := instanceByType[t := r.value];
        CacheWriteFrame@Fetched();
      }
    }

    /** Writing a cache other than the adapter lists leaves the registry, and what its lookups give, as they were. */
    twostate lemma CacheWriteFrame()
      requires old(Valid())
      requires unchanged(base, base.ancestors) && adaptersByType == old(adaptersByType)
      ensures Valid()
      ensures forall c :: c in base.Chain() ==> c.ordered == old(c.ordered) && c.keyMap == old(c.keyMap) && c.adapters == old(c.adapters)
    {
    }

    /** The invalidator's visit: clears four of the five caches, and not `instanceByType`. */
    method Invalidate()
      requires base.ChainOk() && base.ChainValid()
      modifies this`adapterByType, this`adaptersByType, this`instanceByKey, this`instancesByType
      ensures Valid()
      ensures adapterByType == map[] && adaptersByType == map[] && instanceByKey == map[] && instancesByType == map[]
      ensures instanceByType == old(instanceByType)
    {
      adapterByType := map[];
      adaptersByType := map[];
      instanceByKey := map[];
      adaptersByType := map[];
      instancesByType := map[];
    }

    /** registerComponent: registers in the registry, then invalidates; a duplicate key throws before the invalidation. */
    method RegisterComponent(a: Adapter) returns (r: Result<Adapter>)
      requires Valid()
      modifies this`adapterByType, this`adaptersByType, this`instanceByKey, this`instancesByType, base`keyMap, base`adapters
      ensures Valid()
      ensures a.key in old(base.keyMap) ==>
                r == Failure(DuplicateComponentKeyRegistration) && base.keyMap == old(base.keyMap) &&
                base.adapters == old(base.adapters) && adapterByType == old(adapterByType) &&
                adaptersByType == old(adaptersByType) && instanceByKey == old(instanceByKey) &&
                instancesByType == old(instancesByType)
      ensures a.key !in old(base.keyMap) ==>
                r == Success(a) && base.keyMap == old(base.keyMap)[a.key := a] && base.adapters == old(base.adapters) + [a] &&
                adapterByType == map[] && adaptersByType == map[] && instanceByKey == map[] && instancesByType == map[]
      ensures instanceByType == old(instanceByType)
    {
      r := base.RegisterComponent(a);
      if r.Success? {
        Invalidate();
      }
    }

    /** unregisterComponent: unregisters from the registry, then invalidates; a null key throws before the invalidation. */
    method UnregisterComponent(key: Option<ComponentKey>) returns (r: Result<Option<Adapter>>)
      requires Valid()
      modifies this`adapterByType, this`adaptersByType, this`instanceByKey, this`instancesByType
      modifies base`keyMap, base`adapters, base`ordered
      ensures Valid()
      ensures key.None? ==>
                r == Failure(NullPointer) && base.keyMap == old(base.keyMap) && base.adapters == old(base.adapters) &&
                base.ordered == old(base.ordered) && adapterByType == old(adapterByType) &&
                adaptersByType == old(adaptersByType) && instanceByKey == old(instanceByKey) &&
                instancesByType == old(instancesByType)
      ensures key.Some? ==>
                r == Success(if key.value in old(base.keyMap) then Some(old(base.keyMap)[key.value]) else None) &&
                base.keyMap == old(base.keyMap) - {key.value} &&
                adapterByType == map[] && adaptersByType == map[] && instanceByKey == map[] && instancesByType == map[]
      ensures key.Some? && key.value in old(base.keyMap) ==>
                base.adapters == Without(old(base.adapters), old(base.keyMap)[key.value]) &&
                base.ordered == Without(old(base.ordered), old(base.keyMap)[key.value])
      ensures instanceByType == old(instanceByType)
    {
      r := base.UnregisterComponent(key);
      if r.Success? {
        Invalidate();
      }
    }
  }
}
