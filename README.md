# ETK kernel and eXo social/portal utilities: a Dafny model

This project models the deterministic core of the ETK kernel (an eXo Platform fork) and of some
eXo social and portal utilities.

**The in-process FIFO/TTL cache.** This is the main part.
- `SynchronizedQueue`: the entries, newest first. The queue is a class holding a `seq` of entries
  and a cached size.
- `CacheState`: a key-to-entry `map`, kept consistent with that queue through `get`, `put` and
  `remove`. It uses conditional removal and FIFO eviction.
- `ConcurrentFIFOExoCache`: the configuration facade. It does the null checks, turns a live time
  into an expiration time, clamps settings, and takes snapshots and clears.
- `SimpleObjectRef`: the immutable entries.
- `CacheServiceImpl`: the registry of cache regions, with its fallback to the "default"
  configuration.

**The container kernel.**
- `ConcurrentContainer`: the key-to-adapter registry, with parent fallback, lookup by type and the
  start/stop/dispose flags.
- `CachingContainer`: the memo layer over that registry.
- The dependency comparator shared by the root and application containers.
- The init-task queues of `RootContainer`.
- The context set and class-loader memo of `ApplicationContainer`.
- The priority search of `UnifiedClassLoader`.
- The parent-chain walks of `ManagementContextImpl`.
- The collection helpers of `Tools`.
- The scalar type tags of `XMLBaseObject`.

**The social and portal utilities.**
- The `Profile` property bag.
- The name cleaning, priority ordering, application-status parsing and permission rules of
  `SpaceUtils`.
- The list difference and search-condition rules of `SpaceStorageImpl`.
- The parameter parsing, filters and ownership rewrite of `UserPortalConfigService`.

**How the Java is modelled.**
- Every operation runs atomically and sequentially.
- The clock is a `now` parameter.
- Listener callbacks are appended to a ghost event log.
- A Java `null` is `None`.
- A thrown exception is a `Failure`/`Fail` value naming the exception.
- External pieces (component adapters, class loaders, the storage, the ACL, the organization
  service) are values or functions passed in.
- `String.split` (limit 0, trailing empty strings dropped), `trim`, ASCII case mapping,
  `compareTo` and the 64-bit wrap-around of `long` arithmetic are defined in module `JavaLang`.

## Model

| member | source | states |
|---|---|---|
| ObjectRefs.SimpleObjectRef.constructor | cache/src/main/java/org/etk/kernel/cache/concurrent/SimpleObjectRef.java:31-34 | The entry keeps exactly the expiration time, key and value it was built with (all `const`). |
| ObjectRefs.SimpleObjectRef.Get | cache/src/main/java/org/etk/kernel/cache/concurrent/ObjectRef.java:49-51 | `get()` returns exactly `getObject()`. |
| ObjectRefs.ValidityMonotone | cache/src/main/java/org/etk/kernel/cache/concurrent/SimpleObjectRef.java:36-38 | An entry invalid at t1 is invalid at every later t2. |
| ObjectRefs.UnlimitedEntryValid | cache/src/main/java/org/etk/kernel/cache/concurrent/SimpleObjectRef.java:36-38 | An entry expiring at Long.MAX_VALUE is valid at every long clock value below it. |
| ObjectRefs.ExpiredAtDeadline | cache/src/main/java/org/etk/kernel/cache/concurrent/SimpleObjectRef.java:36-38 | The comparison is strict: at its own expiration time an entry is invalid. |
| Queue.SynchronizedQueue.constructor | cache/src/main/java/org/etk/kernel/cache/concurrent/SynchronizedQueue.java:39-53 | A new queue is empty, has size 0 and is not trimming. |
| Queue.SynchronizedQueue.Size | cache/src/main/java/org/etk/kernel/cache/concurrent/SynchronizedQueue.java:63-65 | Under the invariant, the cached size is the number of linked items. |
| Queue.SynchronizedQueue.AssertConsistency | cache/src/main/java/org/etk/kernel/cache/concurrent/SynchronizedQueue.java:67-78 | Counting the links fails with AssertionError exactly when the count differs from the cached size. |
| Queue.SynchronizedQueue.Remove | cache/src/main/java/org/etk/kernel/cache/concurrent/SynchronizedQueue.java:87-114 | Returns true exactly when the item was linked. The item is spliced out, the other items keep their order and the size drops by one. An unlinked item changes nothing. |
| Queue.SynchronizedQueue.Add | cache/src/main/java/org/etk/kernel/cache/concurrent/SynchronizedQueue.java:121-137 | The item becomes the newest, the others keep their order, and the size grows by exactly one. |
| Queue.SynchronizedQueue.Trim | cache/src/main/java/org/etk/kernel/cache/concurrent/SynchronizedQueue.java:146-171 | With more than `size` items, the newest `size` are kept and the rest are returned oldest first. Otherwise, or while a trim runs, it returns null and the queue is unchanged. The flag is free again on exit. |
| FifoCache.ExpireEvents | cache/src/main/java/org/etk/kernel/cache/concurrent/CacheState.java:114-125 | One expiration notification per evicted entry. |
| FifoCache.Kept | cache/src/main/java/org/etk/kernel/cache/concurrent/SynchronizedQueue.java:151-158 | A trim to n keeps at most n entries, or the whole queue when it is short enough. |
| FifoCache.ValidObjects | cache/src/main/java/org/etk/kernel/cache/concurrent/ConcurrentFIFOExoCache.java:175-184 | The snapshot has at most one value per visited key. |
| FifoCache.ValidObjectsSound | cache/src/main/java/org/etk/kernel/cache/concurrent/ConcurrentFIFOExoCache.java:175-184 | Both directions: every snapshot value belongs to a valid entry, and every valid entry's value is in the snapshot. |
| FifoCache.ValidObjectsSnoc | cache/src/main/java/org/etk/kernel/cache/concurrent/ConcurrentFIFOExoCache.java:178-182 | One more loop step appends the key's value exactly when its entry is valid. |
| FifoCache.FreshEntryValid | cache/src/main/java/org/etk/kernel/cache/concurrent/ConcurrentFIFOExoCache.java:147-149 | Without overflow, an entry is valid at the time it is put, for a positive or unlimited live time. |
| FifoCache.ExpirationWraps | cache/src/main/java/org/etk/kernel/cache/concurrent/ConcurrentFIFOExoCache.java:147-149 | `now + liveTimeMillis` wraps as a Java long, so a put just below Long.MAX_VALUE is born expired. |
| FifoCache.ExpirationTime | cache/src/main/java/org/etk/kernel/cache/concurrent/ConcurrentFIFOExoCache.java:143-151 | Always a Java long: Long.MAX_VALUE for a live time of 0 or less, and exactly `now + liveTimeMillis` when that sum fits in a long. |
| FifoCache.CounterWraps | cache/src/main/java/org/etk/kernel/cache/concurrent/ConcurrentFIFOExoCache.java:45-46 | The hit and miss counters are Java ints: an increment is exact below Integer.MAX_VALUE and wraps to Integer.MIN_VALUE at it. |
| FifoCache.ZeroLiveTimeNeverExpires | cache/src/main/java/org/etk/kernel/cache/concurrent/ConcurrentFIFOExoCache.java:158-160 | With live time 0 the expiration time is Long.MAX_VALUE. `putMap` stores such entries, while `put` stores nothing. |
| FifoCache.IndexesRemove | cache/src/main/java/org/etk/kernel/cache/concurrent/CacheState.java:131-151 | Dropping a key and unqueueing its entry keeps the map indexing the queue, and the queue stays duplicate-free. |
| FifoCache.IndexesSize | cache/src/main/java/org/etk/kernel/cache/concurrent/CacheState.java:47-56 | A duplicate-free queue indexed by a map is exactly as long as the map is large. |
| FifoCache.IndexesPut | cache/src/main/java/org/etk/kernel/cache/concurrent/CacheState.java:95-111 | Putting a fresh entry, which replaces the key's old one, keeps the index and the distinctness. |
| FifoCache.IndexesCons | cache/src/main/java/org/etk/kernel/cache/concurrent/CacheState.java:95-111 | A fresh entry for an unmapped key, queued in front, extends the index. |
| FifoCache.PutKeepsRecent | cache/src/main/java/org/etk/kernel/cache/concurrent/CacheState.java:92-129 | FIFO: an entry among the p newest, other than the replaced one, is among the p+1 newest after a put and a trim to n > p. |
| FifoCache.PutMapStep | cache/src/main/java/org/etk/kernel/cache/concurrent/ConcurrentFIFOExoCache.java:161-164 | One put of `putMap` into a cache with room keeps every key put so far stored, with its value and the shared expiration, among the newest. |
| FifoCache.PromotedDropsPrevious | cache/src/main/java/org/etk/kernel/cache/concurrent/CacheState.java:95-111 | Re-putting a key unqueues its previous entry. With a non-zero capacity the new entry is the newest. |
| FifoCache.TrimSplit | cache/src/main/java/org/etk/kernel/cache/concurrent/SynchronizedQueue.java:151-158 | The kept prefix and the oldest-first evicted list together make up the queue. |
| FifoCache.EvictStep | cache/src/main/java/org/etk/kernel/cache/concurrent/CacheState.java:114-125 | The next evicted entry is still the one its key maps to, and dropping that key keeps the index on the rest. |
| FifoCache.EvictFromIndexes | cache/src/main/java/org/etk/kernel/cache/concurrent/CacheState.java:114-125 | Evicting oldest first keeps the map indexing the remaining queue, so every conditional removal succeeds. |
| FifoCache.ExpireEventsSnoc | cache/src/main/java/org/etk/kernel/cache/concurrent/CacheState.java:114-125 | Each eviction appends its own expiration notification, in order. |
| FifoCache.CacheState.constructor | cache/src/main/java/org/etk/kernel/cache/concurrent/CacheState.java:38-45 | A new state has an empty map and an empty fresh queue, and is consistent. |
| FifoCache.CacheState.AssertConsistency | cache/src/main/java/org/etk/kernel/cache/concurrent/CacheState.java:47-56 | Fails with AssertionError exactly when the queue's cached size is wrong or the map and queue sizes differ. |
| FifoCache.CacheState.Get | cache/src/main/java/org/etk/kernel/cache/concurrent/CacheState.java:58-75 | A valid entry is returned, counts a hit (wrapping as a Java int) and notifies `onGet`, and the queue is untouched. An expired one counts a miss, leaves the map and the queue, notifies `onExpire` and gives null. An absent key changes nothing. |
| FifoCache.CacheState.Put | cache/src/main/java/org/etk/kernel/cache/concurrent/CacheState.java:92-129 | The key gets a fresh newest entry and its previous entry is unqueued. Entries beyond maxSize are evicted oldest first, each conditionally removed from the map with an `onExpire`, then `onPut`. Afterwards at most maxSize entries remain and the index holds. |
| FifoCache.CacheState.Promote | cache/src/main/java/org/etk/kernel/cache/concurrent/CacheState.java:95-111 | The insert half of `put`: the map gets the new binding and the queue becomes the new entry followed by the old queue without the key's previous entry. |
| FifoCache.CacheState.EvictAll | cache/src/main/java/org/etk/kernel/cache/concurrent/CacheState.java:114-125 | The eviction loop removes each evicted key that still maps to its entry and notifies one expiration each, in order. |
| FifoCache.CacheState.Remove | cache/src/main/java/org/etk/kernel/cache/concurrent/CacheState.java:131-151 | A present key leaves map and queue. A valid entry returns its value with `onRemove`; an expired one gives null with `onExpire`. An absent key gives null and no notification. |
| FifoCache.ConsistentWhenValid | cache/src/main/java/org/etk/kernel/cache/concurrent/CacheState.java:47-56 | In the quiescent state map size, cached size and queue length agree, so `assertConsistency` passes. |
| FifoCache.ConcurrentFIFOExoCache.constructor | cache/src/main/java/org/etk/kernel/cache/concurrent/ConcurrentFIFOExoCache.java:67-78 | Given name and maxSize, unlimited live time, no listeners, no label, zero counters, an empty state. |
| FifoCache.ConcurrentFIFOExoCache.Default | cache/src/main/java/org/etk/kernel/cache/concurrent/ConcurrentFIFOExoCache.java:51-53 | No name, maxSize 50, unlimited live time, no listeners, an empty state. |
| FifoCache.ConcurrentFIFOExoCache.OfMaxSize | cache/src/main/java/org/etk/kernel/cache/concurrent/ConcurrentFIFOExoCache.java:59-61 | No name, the given maxSize, unlimited live time, an empty state. |
| FifoCache.ConcurrentFIFOExoCache.OnExpire | cache/src/main/java/org/etk/kernel/cache/concurrent/ConcurrentFIFOExoCache.java:239-244 | The expiration notification is appended to the event log. |
| FifoCache.ConcurrentFIFOExoCache.OnRemove | cache/src/main/java/org/etk/kernel/cache/concurrent/ConcurrentFIFOExoCache.java:245-250 | The removal notification is appended to the event log. |
| FifoCache.ConcurrentFIFOExoCache.OnPut | cache/src/main/java/org/etk/kernel/cache/concurrent/ConcurrentFIFOExoCache.java:251-256 | The put notification is appended to the event log. |
| FifoCache.ConcurrentFIFOExoCache.OnGet | cache/src/main/java/org/etk/kernel/cache/concurrent/ConcurrentFIFOExoCache.java:257-262 | The get notification is appended to the event log. |
| FifoCache.ConcurrentFIFOExoCache.AssertConsistent | cache/src/main/java/org/etk/kernel/cache/concurrent/ConcurrentFIFOExoCache.java:80-82 | The state's check passes exactly when the sizes agree, and always in a valid cache. |
| FifoCache.ConcurrentFIFOExoCache.SetName | cache/src/main/java/org/etk/kernel/cache/concurrent/ConcurrentFIFOExoCache.java:88-90 | The name becomes the argument. |
| FifoCache.ConcurrentFIFOExoCache.SetLabel | cache/src/main/java/org/etk/kernel/cache/concurrent/ConcurrentFIFOExoCache.java:104-106 | The label becomes the argument. |
| FifoCache.ConcurrentFIFOExoCache.GetLabel | cache/src/main/java/org/etk/kernel/cache/concurrent/ConcurrentFIFOExoCache.java:92-102 | A set label is returned. Without one, a null name throws; a name of at most 30 characters is returned; a longer one gives, and stores as the label, its suffix after the last '.'. |
| FifoCache.ConcurrentFIFOExoCache.GetLiveTime | cache/src/main/java/org/etk/kernel/cache/concurrent/ConcurrentFIFOExoCache.java:108-111 | -1 for an unlimited live time, otherwise the whole number of seconds in the milliseconds. |
| FifoCache.ConcurrentFIFOExoCache.SetLiveTimeMillis | cache/src/main/java/org/etk/kernel/cache/concurrent/ConcurrentFIFOExoCache.java:121-126 | Any negative value becomes -1; others are stored as given. |
| FifoCache.ConcurrentFIFOExoCache.SetLiveTime | cache/src/main/java/org/etk/kernel/cache/concurrent/ConcurrentFIFOExoCache.java:113-115 | Stores `period * 1000` as a Java long, clamped, so that without overflow `getLiveTime` gives the period back, or -1 for a negative one. |
| FifoCache.ConcurrentFIFOExoCache.SetMaxSize | cache/src/main/java/org/etk/kernel/cache/concurrent/ConcurrentFIFOExoCache.java:132-134 | maxSize becomes the argument. |
| FifoCache.ConcurrentFIFOExoCache.SetLogEnabled | cache/src/main/java/org/etk/kernel/cache/concurrent/ConcurrentFIFOExoCache.java:233-235 | The log flag becomes the argument. |
| FifoCache.ConcurrentFIFOExoCache.AddCacheListener | cache/src/main/java/org/etk/kernel/cache/concurrent/ConcurrentFIFOExoCache.java:222-227 | A null listener throws NullPointerException; any other is appended. |
| FifoCache.ConcurrentFIFOExoCache.Get | cache/src/main/java/org/etk/kernel/cache/concurrent/ConcurrentFIFOExoCache.java:136-141 | A null key gives null and changes nothing. A valid entry is returned, counts a hit (as a Java int) and notifies `onGet`, with map and queue untouched. An expired entry counts a miss, leaves the map and the queue, notifies `onExpire` and gives null. An absent key changes nothing. |
| FifoCache.ConcurrentFIFOExoCache.Put | cache/src/main/java/org/etk/kernel/cache/concurrent/ConcurrentFIFOExoCache.java:143-151 | A null key throws before any change, and live time 0 stores nothing. Otherwise it returns the fresh entry, which expires at `ExpirationTime`. The queue becomes the newest `maxSize` entries of the entry followed by the old queue without the key's previous entry. The map loses the evicted keys, and the events are one `onExpire` per evicted entry, oldest first, then `onPut`. So FIFO retention (`PutKeepsRecent`) applies to the cache, and a lookup right after sees the value while it is valid. |
| FifoCache.ConcurrentFIFOExoCache.PutMap | cache/src/main/java/org/etk/kernel/cache/concurrent/ConcurrentFIFOExoCache.java:153-166 | A null map throws NullPointerException and a null key IllegalArgumentException, both before anything is stored. When the entries fit, every key ends up bound to its value with the expiration computed once. |
| FifoCache.ConcurrentFIFOExoCache.Remove | cache/src/main/java/org/etk/kernel/cache/concurrent/ConcurrentFIFOExoCache.java:168-173 | A null key throws and changes nothing. A present key leaves the map and the queue; a valid value is returned with `onRemove`, and an expired one gives null with `onExpire`. An absent key gives null and changes nothing. |
| FifoCache.ConcurrentFIFOExoCache.GetCachedObjects | cache/src/main/java/org/etk/kernel/cache/concurrent/ConcurrentFIFOExoCache.java:175-184 | The values of the entries valid at `now`, visiting every key exactly once. |
| FifoCache.ConcurrentFIFOExoCache.RemoveCachedObjects | cache/src/main/java/org/etk/kernel/cache/concurrent/ConcurrentFIFOExoCache.java:186-190 | The valid values of the old state, and afterwards an empty fresh state. |
| FifoCache.ConcurrentFIFOExoCache.ClearCache | cache/src/main/java/org/etk/kernel/cache/concurrent/ConcurrentFIFOExoCache.java:192-194 | A fresh empty state replaces the old one; the counters are not touched. |
| FifoCache.ConcurrentFIFOExoCache.GetCacheSize | cache/src/main/java/org/etk/kernel/cache/concurrent/ConcurrentFIFOExoCache.java:210-212 | The reported size is the number of queued entries. |
| FifoCache.CacheSizeIsMapSize | cache/src/main/java/org/etk/kernel/cache/concurrent/ConcurrentFIFOExoCache.java:210-212 | In a valid cache the reported size is the number of mapped keys. |
| FifoCache.ClearedCacheEmpty | cache/src/main/java/org/etk/kernel/cache/concurrent/ConcurrentFIFOExoCache.java:192-194 | After a clear the size is 0 and every lookup misses. |
| CacheService.LastNamed | cache/src/main/java/org/etk/kernel/cache/impl/CacheServiceImpl.java:47-54 | The configuration found for a name has that name and comes from the list; none means no configuration has it. |
| CacheService.PutAllLookup | cache/src/main/java/org/etk/kernel/cache/impl/CacheServiceImpl.java:60-65 | Registering configurations by name: the last one with a name wins, and other names keep their old configuration. |
| CacheService.LastNamedCons | cache/src/main/java/org/etk/kernel/cache/impl/CacheServiceImpl.java:47-54 | The last configuration with a name is the tail's, or else the head when it has that name. |
| CacheService.CacheServiceImpl.constructor | cache/src/main/java/org/etk/kernel/cache/impl/CacheServiceImpl.java:47-54 | Configurations are registered by name, the default is the last one named "default", and no cache exists yet. |
| CacheService.CacheServiceImpl.AddExoCacheConfig | cache/src/main/java/org/etk/kernel/cache/impl/CacheServiceImpl.java:60-65 | A plugin's configurations replace earlier ones of the same name. |
| CacheService.CacheServiceImpl.CreateCacheInstance | cache/src/main/java/org/etk/kernel/cache/impl/CacheServiceImpl.java:90-113 | Creation succeeds exactly when the region's own configuration, or the default one, exists and its class can be instantiated. The new cache is named after the region and takes label, max size, live time and log flag from the configuration; the logging listener is added exactly when logging is on. |
| CacheService.CacheServiceImpl.GetCacheInstance | cache/src/main/java/org/etk/kernel/cache/impl/CacheServiceImpl.java:67-88 | A null region throws NullPointerException and an empty one IllegalArgumentException. A known region gets its same cache. Otherwise a new cache is recorded, or on failure null is returned and nothing is recorded. |
| CacheService.CacheServiceImpl.GetAllCacheInstances | cache/src/main/java/org/etk/kernel/cache/impl/CacheServiceImpl.java:115-117 | Exactly the recorded caches. |
| Containers.Step | container/src/main/java/org/etk/kernel/container/ConcurrentContainer.java:368-405 | The flags after start, stop or dispose: unchanged when the operation does not run; disposed sticks; started follows the operation that ran. |
| Containers.LifecycleLaws | container/src/main/java/org/etk/kernel/container/ConcurrentContainer.java:368-405 | Once disposed everything is a no-op, start then stop restores a fresh container, and each operation repeated at once is a no-op. |
| Containers.OfType | container/src/main/java/org/etk/kernel/container/ConcurrentContainer.java:151-164 | The assignable adapters are a selection of the adapters. |
| Containers.OfTypeMembers | container/src/main/java/org/etk/kernel/container/ConcurrentContainer.java:151-164 | Both directions: it keeps exactly the assignable adapters, and keeps distinctness. |
| Containers.OfTypeNext | container/src/main/java/org/etk/kernel/container/ConcurrentContainer.java:156-162 | One loop step appends the adapter exactly when it is assignable. |
| Containers.Remembered | container/src/main/java/org/etk/kernel/container/ConcurrentContainer.java:276-288 | The map of instances keeps exactly the matched adapters, each with its own instance. |
| Containers.InstancesIn | container/src/main/java/org/etk/kernel/container/ConcurrentContainer.java:289-300 | At most one instance per ordered adapter. |
| Containers.InstancesInMembers | container/src/main/java/org/etk/kernel/container/ConcurrentContainer.java:289-300 | Both directions: each listed instance is that of an ordered matching adapter, and each such instance is listed. |
| Containers.ConcurrentContainer.Root | container/src/main/java/org/etk/kernel/container/ConcurrentContainer.java:107-109 | A container without parent, registrations, or started/disposed flags. |
| Containers.ConcurrentContainer.WithParent | container/src/main/java/org/etk/kernel/container/ConcurrentContainer.java:77-82 | An empty container whose lookups fall back to the given parent. |
| Containers.ConcurrentContainer.Owner | container/src/main/java/org/etk/kernel/container/ConcurrentContainer.java:115-121 | The nearest container up the chain binding the key, or null when none does. |
| Containers.ConcurrentContainer.GetComponentAdapter | container/src/main/java/org/etk/kernel/container/ConcurrentContainer.java:115-121 | A null key throws NullPointerException, and only then. |
| Containers.ConcurrentContainer.GetComponentAdapterNearest | container/src/main/java/org/etk/kernel/container/ConcurrentContainer.java:115-121 | The adapter found is the one bound in the nearest container binding the key; the parent is asked only when the key is not bound locally. |
| Containers.ConcurrentContainer.RegisterComponent | container/src/main/java/org/etk/kernel/container/ConcurrentContainer.java:171-179 | A locally bound key throws DuplicateComponentKeyRegistration and changes nothing. Otherwise the adapter is bound and appended, and `getComponentAdapter` then returns it. |
| Containers.ConcurrentContainer.UnregisterUndoesRegister | container/src/main/java/org/etk/kernel/container/ConcurrentContainer.java:181-186 | Unregistering right after registering restores the key map and the adapter set. |
| Containers.ConcurrentContainer.UnregisterComponent | container/src/main/java/org/etk/kernel/container/ConcurrentContainer.java:181-186 | The adapter leaves the key map, the adapter set and the order list and is returned. An unbound key gives null, a null key throws, and the registry stays consistent. |
| Containers.ConcurrentContainer.RemoveKeepsRegistry | container/src/main/java/org/etk/kernel/container/ConcurrentContainer.java:181-186 | Removing one adapter from all three structures keeps them consistent with each other. |
| Containers.ConcurrentContainer.InstanceOf | container/src/main/java/org/etk/kernel/container/ConcurrentContainer.java:303-310 | The instance of a key fails exactly for a null key. |
| Containers.ConcurrentContainer.InstantiateLocal | container/src/main/java/org/etk/kernel/container/ConcurrentContainer.java:317-336 | A local adapter yields its instance and is recorded once in the order list. |
| Containers.ConcurrentContainer.GetInstance | container/src/main/java/org/etk/kernel/container/ConcurrentContainer.java:317-336 | A registered adapter yields its instance and is recorded. Another is looked up again by key in the parent, or gives null. |
| Containers.ConcurrentContainer.GetComponentInstance | container/src/main/java/org/etk/kernel/container/ConcurrentContainer.java:303-310 | The instance of the nearest binding adapter, recorded in its container's order list; a null key throws and records nothing. |
| Containers.ConcurrentContainer.GetComponentAdaptersOfType | container/src/main/java/org/etk/kernel/container/ConcurrentContainer.java:151-164 | None for a null type; otherwise the assignable registered adapters in registration order. |
| Containers.ConcurrentContainer.GetComponentAdapterOfType | container/src/main/java/org/etk/kernel/container/ConcurrentContainer.java:123-149 | The resolution rule: an adapter keyed by the type wins, else the single assignable local adapter, else the parent's answer when none matches, and AmbiguousComponentResolution when several do. |
| Containers.ConcurrentContainer.GetComponentInstanceOfType | container/src/main/java/org/etk/kernel/container/ConcurrentContainer.java:312-315 | The instance of the adapter the type resolves to; null and the resolution's exceptions pass through with nothing recorded. |
| Containers.ConcurrentContainer.GetComponentInstancesOfType | container/src/main/java/org/etk/kernel/container/ConcurrentContainer.java:270-301 | Every assignable adapter is instantiated and recorded once in the order list, and the instances come back in first-instantiation order; none for a null type. |
| Containers.ConcurrentContainer.InstantiateAll | container/src/main/java/org/etk/kernel/container/ConcurrentContainer.java:276-288 | The first loop records every assignable adapter and remembers exactly their instances. |
| Containers.ConcurrentContainer.InstantiateNext | container/src/main/java/org/etk/kernel/container/ConcurrentContainer.java:278-287 | One iteration extends the recorded order and the remembered instances by the adapter at that position, when it is assignable. |
| Containers.ConcurrentContainer.CollectInstances | container/src/main/java/org/etk/kernel/container/ConcurrentContainer.java:289-300 | The second loop lists the remembered instances in order-list order. |
| Containers.ConcurrentContainer.Start | container/src/main/java/org/etk/kernel/container/ConcurrentContainer.java:368-373 | A no-op when disposed or started; otherwise one start visit and started set. |
| Containers.ConcurrentContainer.Stop | container/src/main/java/org/etk/kernel/container/ConcurrentContainer.java:384-389 | A no-op unless started and not disposed; otherwise one stop visit and started cleared. |
| Containers.ConcurrentContainer.Dispose | container/src/main/java/org/etk/kernel/container/ConcurrentContainer.java:400-405 | Idempotent: a no-op when disposed; otherwise one dispose visit and disposed set. |
| Containers.ConcurrentContainer.AdapterOfTypeFound | container/src/main/java/org/etk/kernel/container/ConcurrentContainer.java:123-149 | A resolved adapter is registered up the chain under the type itself or with an assignable implementation. |
| Containers.ConcurrentContainer.ChainValidAt | container/src/main/java/org/etk/kernel/container/ConcurrentContainer.java:77-82 | Every container of a consistent chain is itself consistent. |
| Containers.ConcurrentContainer.AdapterOfTypeNone | container/src/main/java/org/etk/kernel/container/ConcurrentContainer.java:123-149 | Both directions: null exactly when no container up the chain binds the type as a key or holds an assignable adapter. |
| Containers.ConcurrentContainer.AdapterOfTypeAmbiguous | container/src/main/java/org/etk/kernel/container/ConcurrentContainer.java:140-146 | Ambiguity is reported only when some container up the chain holds two or more assignable adapters. |
| CachingContainers.CachingContainer.constructor | container/src/main/java/org/etk/kernel/container/CachingContainer.java:32-45 | An empty registry under the given parent, with all five caches empty. |
| CachingContainers.CachingContainer.GetComponentAdaptersOfType | container/src/main/java/org/etk/kernel/container/CachingContainer.java:58-67 | A cached list is returned as is; either way the answer equals a fresh lookup, which is cached. A null type throws. |
| CachingContainers.CachingContainer.GetComponentAdapterOfType | container/src/main/java/org/etk/kernel/container/CachingContainer.java:47-56 | The cached adapter, or else the registry's resolution; only a found adapter is cached, and null is never cached. The type's adapter list is cached exactly on a cache miss with no adapter registered under the type as key. |
| CachingContainers.CachingContainer.GetComponentInstancesOfType | container/src/main/java/org/etk/kernel/container/CachingContainer.java:69-78 | A cached list is returned without instantiating anything; otherwise the registry's answer is computed and cached. |
| CachingContainers.CachingContainer.GetComponentInstance | container/src/main/java/org/etk/kernel/container/CachingContainer.java:80-89 | The cached instance without touching the registry, or else the registry's instance, cached unless null. |
| CachingContainers.CachingContainer.FetchInstance | container/src/main/java/org/etk/kernel/container/CachingContainer.java:82-87 | The miss path: the registry's instance for the key, cached unless null. |
| CachingContainers.CachingContainer.GetComponentInstanceOfType | container/src/main/java/org/etk/kernel/container/CachingContainer.java:94-103 | The cached instance, or else the instance of the resolved adapter, cached unless null; resolution failures pass through uncached. |
| CachingContainers.CachingContainer.FetchInstanceOf | container/src/main/java/org/etk/kernel/container/CachingContainer.java:96-101 | The miss path once the adapter is resolved: its instance, cached unless null. |
| CachingContainers.CachingContainer.Invalidate | container/src/main/java/org/etk/kernel/container/CachingContainer.java:106-120 | Clears four caches and keeps `instanceByType`, so a cached by-type instance survives re-registration. |
| CachingContainers.CachingContainer.RegisterComponent | container/src/main/java/org/etk/kernel/container/CachingContainer.java:124-128 | Registers, then invalidates. A duplicate throws before invalidating, and `instanceByType` is kept. |
| CachingContainers.CachingContainer.UnregisterComponent | container/src/main/java/org/etk/kernel/container/CachingContainer.java:130-134 | Unregisters, then invalidates. A null key throws before invalidating, and `instanceByType` is kept. |
| DependencyOrder.Compare | container/src/main/java/org/etk/kernel/container/RootContainer.java:741-755 | A named context compares -1 against an unnamed one and 1 the other way; two unnamed contexts compare by `compareTo` on their names (named pairs: `CompareTiers`, `CompareZero`). |
| DependencyOrder.CompareTiers | container/src/main/java/org/etk/kernel/container/RootContainer.java:741-755 | A named context precedes an unnamed one, named ones follow their dependency-list index, and unnamed ones compare by name. |
| DependencyOrder.CompareZero | container/src/main/java/org/etk/kernel/container/RootContainer.java:741-755 | compare is 0 exactly for equal names. |
| DependencyOrder.CompareAntisymmetric | container/src/main/java/org/etk/kernel/container/RootContainer.java:741-755 | Swapping the arguments flips the sign. |
| DependencyOrder.CompareTransitive | container/src/main/java/org/etk/kernel/container/RootContainer.java:741-755 | The strict order is transitive. |
| DependencyOrder.AtMostTransitive | container/src/main/java/org/etk/kernel/container/ApplicationContainer.java:600-613 | Non-strict comparison is transitive too, as a sorted queue or set needs. |
| DependencyOrder.InsertOrdered | container/src/main/java/org/etk/kernel/container/RootContainer.java:451-466 | Adding to a comparator-ordered queue grows it by exactly one. |
| DependencyOrder.InsertOrderedAt | container/src/main/java/org/etk/kernel/container/RootContainer.java:451-466 | The new element goes in at its insert position and the rest keep their order around it. |
| DependencyOrder.InsertOrderedPermutes | container/src/main/java/org/etk/kernel/container/RootContainer.java:451-466 | The result is the old contents plus the new element, as a multiset. |
| DependencyOrder.InsertPositionBounds | container/src/main/java/org/etk/kernel/container/RootContainer.java:451-466 | Everything before the insert position compares at most the new element, and the element at it compares greater. |
| DependencyOrder.InsertPositionSuffix | container/src/main/java/org/etk/kernel/container/RootContainer.java:451-466 | In an ordered queue, everything from the insert position on compares greater. |
| DependencyOrder.InsertOrderedKeepsOrder | container/src/main/java/org/etk/kernel/container/RootContainer.java:451-466 | Inserting into an ordered queue keeps it ordered. |
| DependencyOrder.InsertOrderedPair | container/src/main/java/org/etk/kernel/container/RootContainer.java:451-466 | Each pair of positions of the result is in comparator order. |
| DependencyOrder.InsertOrderedDistinct | container/src/main/java/org/etk/kernel/container/ApplicationContainer.java:209-214 | Inserting a new context into a duplicate-free set keeps it duplicate-free. |
| DependencyOrder.WithoutKeepsOrder | container/src/main/java/org/etk/kernel/container/ApplicationContainer.java:228-241 | Removing a context from an ordered set leaves it ordered. |
| DependencyOrder.ConsOrdered | container/src/main/java/org/etk/kernel/container/RootContainer.java:451-466 | An element at most every element of an ordered queue can lead it. |
| DependencyOrder.HeadAtMost | container/src/main/java/org/etk/kernel/container/RootContainer.java:490-527 | The head of an ordered queue, the next one polled, compares at most every later element. |
| DependencyOrder.OrderedTail | container/src/main/java/org/etk/kernel/container/RootContainer.java:490-527 | Polling the head of an ordered queue leaves it ordered. |
| RootContainers.TypeNamesDistinct | container/src/main/java/org/etk/kernel/container/RootContainer.java:601-675 | The three task types have three different queue keys. |
| RootContainers.NewQueue | container/src/main/java/org/etk/kernel/container/RootContainer.java:451-466 | A new queue is empty, and FIFO exactly when there is no dependency list. |
| RootContainers.OfferKeepsOrder | container/src/main/java/org/etk/kernel/container/RootContainer.java:451-466 | A FIFO queue gets the task last and an ordered one stays ordered; either way it gains exactly that task. |
| RootContainers.Runs | container/src/main/java/org/etk/kernel/container/RootContainer.java:500-510 | One run per queued task, in queue order, on the named container. |
| RootContainers.RootContainer.constructor | container/src/main/java/org/etk/kernel/container/RootContainer.java:436-479 | No task waits and none has run. |
| RootContainers.RootContainer.AddInitTask | container/src/main/java/org/etk/kernel/container/RootContainer.java:436-479 | When the container already exists, a pre-init task throws IllegalStateException and the others run at once. Otherwise the task is queued under its container and type, in a queue created when missing. |
| RootContainers.RootContainer.FiledKinds | container/src/main/java/org/etk/kernel/container/RootContainer.java:451-466 | A queue filed under a type still holds only tasks of that type after an add. |
| RootContainers.RootContainer.ExecuteInitTasks | container/src/main/java/org/etk/kernel/container/RootContainer.java:490-527 | Every task queued under the type runs once, in poll order. The queue is dropped, and the container's entry too when no type remains; without a queue nothing happens. |
| RootContainers.RootContainer.DiscardInitTasks | container/src/main/java/org/etk/kernel/container/RootContainer.java:207-218 | Every container with waiting tasks is reported for unregistration and all waiting tasks are dropped. |
| ApplicationContainers.IsPortalContainerName | container/src/main/java/org/etk/kernel/container/ApplicationContainer.java:327-333 | Without configuration exactly the default portal container name; with one, the configuration's answer (also in `Fallbacks`). |
| ApplicationContainers.RestContextName | container/src/main/java/org/etk/kernel/container/ApplicationContainer.java:446-451 | Without configuration the default REST context name; with one, the configuration's answer (also in `Fallbacks`). |
| ApplicationContainers.RealmName | container/src/main/java/org/etk/kernel/container/ApplicationContainer.java:479-484 | Without configuration the default realm name; with one, the configuration's answer (also in `Fallbacks`). |
| ApplicationContainers.SettingOf | container/src/main/java/org/etk/kernel/container/ApplicationContainer.java:517-523 | Without configuration no setting (null); with one, the configuration's setting (also in `Fallbacks`). |
| ApplicationContainers.IsScopeValid | container/src/main/java/org/etk/kernel/container/ApplicationContainer.java:547-554 | Without configuration every scope is valid; with one, the configuration decides (also in `Fallbacks`). |
| ApplicationContainers.Fallbacks | container/src/main/java/org/etk/kernel/container/ApplicationContainer.java:327-554 | Without configuration only the default name is a portal container, REST context and realm are the defaults, there is no setting and every scope is valid; with one, the configuration decides. |
| ApplicationContainers.ApplicationContainer.constructor | container/src/main/java/org/etk/kernel/container/ApplicationContainer.java:116-138 | The context set holds exactly the own context, ordered when there is a dependency list. The own name maps to the merged portal loader, and the container is not started. |
| ApplicationContainers.ApplicationContainer.RegisterContext | container/src/main/java/org/etk/kernel/container/ApplicationContainer.java:205-218 | A new context is added, at its comparator position when ordered; a present one changes nothing. Membership is old plus the context. |
| ApplicationContainers.ApplicationContainer.UnregisterContext | container/src/main/java/org/etk/kernel/container/ApplicationContainer.java:228-241 | A present context is removed and the others keep their order; an absent one changes nothing. |
| ApplicationContainers.ApplicationContainer.GetWebAppClassLoader | container/src/main/java/org/etk/kernel/container/ApplicationContainer.java:160-178 | The recorded loader of a context name is returned again. A new name gets, and records, a unified loader over the thread's loader and the portal loader; the own name gives the portal loader. |
| ApplicationContainers.ApplicationContainer.Start | container/src/main/java/org/etk/kernel/container/ApplicationContainer.java:561-564 | Afterwards `isStarted()` holds. |
| ApplicationContainers.ApplicationContainer.Stop | container/src/main/java/org/etk/kernel/container/ApplicationContainer.java:566-569 | Afterwards `isStarted()` is false. |
| UnifiedClassLoaders.HighestFromSpec | container/src/main/java/org/etk/kernel/container/UnifiedClassLoader.java:60-70 | Searching from position i down finds nothing exactly when no loader up to i has the resource, and otherwise returns the answer of the highest such loader. |
| UnifiedClassLoaders.HighestSpec | container/src/main/java/org/etk/kernel/container/UnifiedClassLoader.java:60-70 | getResource is null exactly when no loader finds the name; otherwise it is the last finding loader's answer. |
| UnifiedClassLoaders.CollectedDistinct | container/src/main/java/org/etk/kernel/container/UnifiedClassLoader.java:76-87 | The gathered resources hold no duplicates. |
| UnifiedClassLoaders.CollectedPrefix | container/src/main/java/org/etk/kernel/container/UnifiedClassLoader.java:76-87 | First-occurrence order: the resources of the first i loaders are a prefix of all of them. |
| UnifiedClassLoaders.CollectedMembers | container/src/main/java/org/etk/kernel/container/UnifiedClassLoader.java:76-87 | Both directions: a resource is gathered exactly when some loader lists it. |
| UnifiedClassLoaders.UnifiedClassLoader.constructor | container/src/main/java/org/etk/kernel/container/UnifiedClassLoader.java:37-44 | The loader keeps the given delegates. |
| UnifiedClassLoaders.UnifiedClassLoader.Create | container/src/main/java/org/etk/kernel/container/UnifiedClassLoader.java:37-44 | A null or empty delegate array throws IllegalArgumentException, and only then. |
| UnifiedClassLoaders.UnifiedClassLoader.GetResource | container/src/main/java/org/etk/kernel/container/UnifiedClassLoader.java:60-70 | The answer of the highest-priority (last) loader that has the resource. |
| UnifiedClassLoaders.UnifiedClassLoader.GetResources | container/src/main/java/org/etk/kernel/container/UnifiedClassLoader.java:76-87 | All loaders' resources, first loader first, each once. |
| ManagementContexts.MetadataMismatchNever | container/src/main/java/org/etk/kernel/container/management/ManagementContextImpl.java:117-135 | The constructor's resource/metadata check can never fire: its condition is a contradiction. |
| ManagementContexts.ManagementContext.constructor | container/src/main/java/org/etk/kernel/container/management/ManagementContextImpl.java:66-135 | A context with the given parent, container, resource and metadata, and nothing recorded. |
| ManagementContexts.ManagementContext.ForContainer | container/src/main/java/org/etk/kernel/container/management/ManagementContextImpl.java:66-88 | A null container throws NullPointerException, and only then; otherwise a root context whose resource is the container when metadata is built. |
| ManagementContexts.ManagementContext.ForChildContainer | container/src/main/java/org/etk/kernel/container/management/ManagementContextImpl.java:90-115 | A null parent or container throws NullPointerException, and only then; otherwise a context under the parent. |
| ManagementContexts.ManagementContext.ForResource | container/src/main/java/org/etk/kernel/container/management/ManagementContextImpl.java:117-135 | A null parent throws NullPointerException, and only then; otherwise a context of the resource under the parent. |
| ManagementContexts.ManagementContext.SetScopingData | container/src/main/java/org/etk/kernel/container/management/ManagementContextImpl.java:141-143 | The data replaces whatever was stored for the scope type. |
| ManagementContexts.ManagementContext.GetScopingData | container/src/main/java/org/etk/kernel/container/management/ManagementContextImpl.java:214-224 | The data of this context and its ancestors, nearest first, skipping those without any. |
| ManagementContexts.ManagementContext.NearestKernel | container/src/main/java/org/etk/kernel/container/management/ManagementContextImpl.java:226-234 | A kernel container found is on the chain; none found means no context on the chain has one. |
| ManagementContexts.ManagementContext.FindContainer | container/src/main/java/org/etk/kernel/container/management/ManagementContextImpl.java:226-234 | The walk returns the kernel container of the nearest self-or-ancestor that has one, or null. |
| ManagementContexts.ManagementContext.Unregister | container/src/main/java/org/etk/kernel/container/management/ManagementContextImpl.java:205-212 | The registration is dropped and exactly one unmanage call per recorded provider is made; an unknown object only makes no calls. |
| ManagementContexts.OwnDataFirst | container/src/main/java/org/etk/kernel/container/management/ManagementContextImpl.java:214-224 | Data a context holds itself comes first, so data just set is found first. |
| ManagementContexts.ScopingLength | container/src/main/java/org/etk/kernel/container/management/ManagementContextImpl.java:214-224 | Each context of the chain contributes at most one value. |
| Tools.SetOf | container/src/main/java/org/etk/kernel/container/util/Tools.java:23-34 | A null array throws NullPointerException; otherwise the set holds exactly the given elements. |
| Tools.TrimAll | container/src/main/java/org/etk/kernel/container/util/Tools.java:53-60 | Every result is the contiguous part of its chunk after the leading blanks, with no blank at either end, and only blanks are dropped around it. |
| Tools.ParseCommaList | container/src/main/java/org/etk/kernel/container/util/Tools.java:48-61 | A null string throws NullPointerException; otherwise the trimmed non-empty chunks of the split on ','. |
| Tools.NonEmptyOf | container/src/main/java/org/etk/kernel/container/util/Tools.java:53-60 | The loop keeps exactly the non-empty trimmed pieces. |
| Tools.NonEmptyUpToMembers | container/src/main/java/org/etk/kernel/container/util/Tools.java:53-60 | Both directions: a value is kept exactly when it is a non-empty piece. |
| Tools.CommaChunksSpec | container/src/main/java/org/etk/kernel/container/util/Tools.java:48-61 | A parsed value is exactly a trimmed non-blank chunk; it is non-empty, has no outer blank and holds no comma. |
| Tools.AsProperties | container/src/main/java/org/etk/kernel/container/util/Tools.java:72-82 | A null map, or a null key or value, throws NullPointerException; otherwise an exact copy. |
| Tools.AsMap | container/src/main/java/org/etk/kernel/container/util/Tools.java:94-107 | A null table throws NullPointerException; otherwise exactly the entries whose key and value are both Strings. |
| Tools.EndsWithIgnoreCase | container/src/main/java/org/etk/kernel/container/util/Tools.java:120-133 | A null argument throws; false when s is shorter; otherwise whether the last characters match `end` up to case. |
| Tools.EndsWithIgnoreCaseTrivial | container/src/main/java/org/etk/kernel/container/util/Tools.java:128-132 | Every string ends with "" and with itself. |
| XmlBaseObjects.ClassTag | container/src/main/java/org/etk/kernel/container/xml/object/XMLBaseObject.java:56-79 | Each known class gets its own tag, an array class "native-array" and any other class "object". |
| XmlBaseObjects.ClassTagsDistinct | container/src/main/java/org/etk/kernel/container/xml/object/XMLBaseObject.java:9-31 | The tag constants of different scalar kinds differ. |
| XmlBaseObjects.XmlBaseObject.constructor | container/src/main/java/org/etk/kernel/container/xml/object/XMLBaseObject.java:37-38 | No type and no value. |
| XmlBaseObjects.XmlBaseObject.WithValue | container/src/main/java/org/etk/kernel/container/xml/object/XMLBaseObject.java:40-46 | A null value tags by class; any other is dispatched on its runtime type. |
| XmlBaseObjects.XmlBaseObject.SetType | container/src/main/java/org/etk/kernel/container/xml/object/XMLBaseObject.java:52-54 | The type becomes the string given. |
| XmlBaseObjects.XmlBaseObject.SetTypeOf | container/src/main/java/org/etk/kernel/container/xml/object/XMLBaseObject.java:56-79 | The type becomes the class's tag, the first matching branch winning. |
| XmlBaseObjects.XmlBaseObject.SetValue | container/src/main/java/org/etk/kernel/container/xml/object/XMLBaseObject.java:85-87 | The value becomes the one given. |
| XmlBaseObjects.XmlBaseObject.SetObjectValue | container/src/main/java/org/etk/kernel/container/xml/object/XMLBaseObject.java:101-126 | The value is stored with the tag its typed setter writes. |
| XmlBaseObjects.XmlBaseObject.SetObject | container/src/main/java/org/etk/kernel/container/xml/object/XMLBaseObject.java:134-139 | A non-null object is stored as "object"; null changes nothing. |
| XmlBaseObjects.XmlBaseObject.SetString | container/src/main/java/org/etk/kernel/container/xml/object/XMLBaseObject.java:147-152 | A non-null string is tagged "string" and read back by `getString`; null changes nothing. |
| XmlBaseObjects.XmlBaseObject.SetInt | container/src/main/java/org/etk/kernel/container/xml/object/XMLBaseObject.java:160-165 | A non-null integer is tagged "int" and read back; null changes nothing. |
| XmlBaseObjects.XmlBaseObject.SetLong | container/src/main/java/org/etk/kernel/container/xml/object/XMLBaseObject.java:173-178 | A non-null long is tagged "long" and read back; null changes nothing. |
| XmlBaseObjects.XmlBaseObject.SetFloat | container/src/main/java/org/etk/kernel/container/xml/object/XMLBaseObject.java:186-191 | As written: a non-null float is tagged "double" and read back; null changes nothing. |
| XmlBaseObjects.XmlBaseObject.SetDouble | container/src/main/java/org/etk/kernel/container/xml/object/XMLBaseObject.java:199-204 | As written: a non-null double is tagged "float" and read back; null changes nothing. |
| XmlBaseObjects.XmlBaseObject.SetBoolean | container/src/main/java/org/etk/kernel/container/xml/object/XMLBaseObject.java:212-217 | A non-null boolean is tagged "boolean" and read back; null changes nothing. |
| XmlBaseObjects.XmlBaseObject.SetDate | container/src/main/java/org/etk/kernel/container/xml/object/XMLBaseObject.java:225-230 | A non-null date is tagged "date" and read back; null changes nothing. |
| XmlBaseObjects.XmlBaseObject.GetString | container/src/main/java/org/etk/kernel/container/xml/object/XMLBaseObject.java:141-145 | The value exactly when it is a String, null otherwise. |
| XmlBaseObjects.XmlBaseObject.GetInt | container/src/main/java/org/etk/kernel/container/xml/object/XMLBaseObject.java:154-158 | The value exactly when it is an Integer, null otherwise. |
| XmlBaseObjects.XmlBaseObject.GetLong | container/src/main/java/org/etk/kernel/container/xml/object/XMLBaseObject.java:167-171 | The value exactly when it is a Long, null otherwise. |
| XmlBaseObjects.XmlBaseObject.GetFloat | container/src/main/java/org/etk/kernel/container/xml/object/XMLBaseObject.java:180-184 | The value exactly when it is a Float, null otherwise. |
| XmlBaseObjects.XmlBaseObject.GetDouble | container/src/main/java/org/etk/kernel/container/xml/object/XMLBaseObject.java:193-197 | The value exactly when it is a Double, null otherwise. |
| XmlBaseObjects.XmlBaseObject.GetBoolean | container/src/main/java/org/etk/kernel/container/xml/object/XMLBaseObject.java:206-210 | The value exactly when it is a Boolean, null otherwise. |
| XmlBaseObjects.XmlBaseObject.GetDate | container/src/main/java/org/etk/kernel/container/xml/object/XMLBaseObject.java:219-223 | The value exactly when it is a Date, null otherwise. |
| XmlBaseObjects.XmlBaseObject.GetObject | container/src/main/java/org/etk/kernel/container/xml/object/XMLBaseObject.java:128-132 | The value exactly when it is an XMLObject, null otherwise. |
| XmlBaseObjects.SetterTags | container/src/main/java/org/etk/kernel/container/xml/object/XMLBaseObject.java:141-230 | What each typed setter tags: the tag of the value's class, except that floats and doubles get each other's tag. |
| XmlBaseObjects.IntendedValueTag | container/src/main/java/org/etk/kernel/container/xml/object/XMLBaseObject.java:56-79 | The corrected tagging: a value gets the tag `setType` gives its class. |
| XmlBaseObjects.IntendedTagsTellClass | container/src/main/java/org/etk/kernel/container/xml/object/XMLBaseObject.java:56-79 | Both directions: two values get the same corrected tag exactly when they have the same class. |
| XmlBaseObjects.FloatTaggedDouble | container/src/main/java/org/etk/kernel/container/xml/object/XMLBaseObject.java:186-204 | A float value is tagged as the Double class would be, and a double as the Float class would be. |
| Profiles.GroupsDisjoint | mos/src/main/java/org/exoplatform/social/core/identity/model/Profile.java:124-131 | The name lists of the update kinds are disjoint, so at most one kind matches a name and `GroupOf` finds it. |
| Profiles.GroupOfSpec | mos/src/main/java/org/exoplatform/social/core/identity/model/Profile.java:233-243 | Both directions: a name has a kind exactly when some kind lists it. |
| Profiles.Keys | mos/src/main/java/org/exoplatform/social/core/identity/model/Profile.java:368-380 | The keys of the entries, in order. |
| Profiles.StoredSpec | mos/src/main/java/org/exoplatform/social/core/identity/model/Profile.java:368-380 | Every admitted entry is stored with its value, and every other property, each key with ':' among them, keeps its old value or absence. |
| Profiles.Profile.constructor | mos/src/main/java/org/exoplatform/social/core/identity/model/Profile.java:35-131 | No property, not changed, no update kind. |
| Profiles.Profile.ClearHasChanged | mos/src/main/java/org/exoplatform/social/core/identity/model/Profile.java:207-216 | Afterwards `hasChanged()` is false. |
| Profiles.Profile.SetUpdateType | mos/src/main/java/org/exoplatform/social/core/identity/model/Profile.java:233-243 | The update kind becomes the kind listing the name, and stays when none does. |
| Profiles.Profile.SetProperty | mos/src/main/java/org/exoplatform/social/core/identity/model/Profile.java:270-281 | "Url" is a complete no-op. Any other name is stored with its value, which `getProperty` then returns; it marks the profile changed and moves the update kind. |
| Profiles.Profile.RemoveProperty | mos/src/main/java/org/exoplatform/social/core/identity/model/Profile.java:307-310 | The key is removed, so `getProperty` gives null and `contains` false, and the profile is marked changed; the update kind stays. |
| Profiles.Profile.AddOrModifyProperties | mos/src/main/java/org/exoplatform/social/core/identity/model/Profile.java:368-380 | A null map throws and changes nothing. Otherwise every entry without ':' is set in order and the profile is marked changed even when nothing is stored. |
| Profiles.Profile.GetFullName | mos/src/main/java/org/exoplatform/social/core/identity/model/Profile.java:329-335 | Exactly the first name or "", then " " and the last name when there is one; a non-String name throws ClassCastException. |
| Profiles.Profile.GetProperty | mos/src/main/java/org/exoplatform/social/core/identity/model/Profile.java:260-262 | Exactly the value stored under the name, possibly null; null for a name without an entry. |
| Profiles.Profile.FullNameSplits | mos/src/main/java/org/exoplatform/social/core/identity/model/Profile.java:329-335 | With a last name and a first name free of ' ', the full name splits back at its first ' ' into the first name (or "") and the last name. |
| Profiles.Profile.ContainsProperty | mos/src/main/java/org/exoplatform/social/core/identity/model/Profile.java:289-291 | True exactly when the name has an entry. A name without an entry reads as null, and a non-null value implies an entry. |
| SpaceUtils.CleanString | mos/src/main/java/org/exoplatform/social/core/space/SpaceUtils.java:350-380 | The trimmed input run through the cleaning loop, then lower-cased. |
| SpaceUtils.CleanBuffer | mos/src/main/java/org/exoplatform/social/core/space/SpaceUtils.java:361-377 | The in-place loop, with its deletions and index rewinds, computes the cleaning of its input. |
| SpaceUtils.CleanedCons | mos/src/main/java/org/exoplatform/social/core/space/SpaceUtils.java:361-377 | Cleaning a text starting with c is cleaning the rest after one step on c. |
| SpaceUtils.DeleteStep | mos/src/main/java/org/exoplatform/social/core/space/SpaceUtils.java:361-377 | Deleting a dropped character from the buffer, without advancing, keeps the loop's result. |
| SpaceUtils.ReplaceStep | mos/src/main/java/org/exoplatform/social/core/space/SpaceUtils.java:361-368 | Writing '_' over a space and advancing keeps the loop's result. |
| SpaceUtils.KeepStep | mos/src/main/java/org/exoplatform/social/core/space/SpaceUtils.java:361-377 | Advancing past a kept character keeps the loop's result. |
| SpaceUtils.CleanStepClean | mos/src/main/java/org/exoplatform/social/core/space/SpaceUtils.java:361-377 | One step keeps a clean prefix clean. |
| SpaceUtils.CleanedClean | mos/src/main/java/org/exoplatform/social/core/space/SpaceUtils.java:361-377 | Whatever follows a clean prefix, the result is a clean name. |
| SpaceUtils.CleanedIdentity | mos/src/main/java/org/exoplatform/social/core/space/SpaceUtils.java:361-377 | Cleaning a clean name changes nothing. |
| SpaceUtils.LowerClean | mos/src/main/java/org/exoplatform/social/core/space/SpaceUtils.java:378-380 | Lower-casing keeps a name clean and leaves no upper-case letter. |
| SpaceUtils.CleanStringClean | mos/src/main/java/org/exoplatform/social/core/space/SpaceUtils.java:350-380 | The output holds only lower-case letters, digits and '_', no space, and never two '_' in a row. |
| SpaceUtils.CleanStringIdempotent | mos/src/main/java/org/exoplatform/social/core/space/SpaceUtils.java:350-380 | A clean lower-case name is its own cleaning, so cleaning twice is cleaning once. |
| SpaceUtils.CleanNameTrimmed | mos/src/main/java/org/exoplatform/social/core/space/SpaceUtils.java:357-358 | A clean name has no outer blank, so the trim leaves it alone. |
| SpaceUtils.SpaceAsUnderscore | mos/src/main/java/org/exoplatform/social/core/space/SpaceUtils.java:361-368 | A space and a '_' are cleaned alike. |
| SpaceUtils.GetOrderedSpaces | mos/src/main/java/org/exoplatform/social/core/space/SpaceUtils.java:972-996 | High, then intermediate, then low spaces, each group in input order; others dropped; a null priority throws NullPointerException exactly when present. |
| SpaceUtils.AddAll | mos/src/main/java/org/exoplatform/social/core/space/SpaceUtils.java:990-995 | The appending loop adds the group, in order, after the list. |
| SpaceUtils.InGroupMembers | mos/src/main/java/org/exoplatform/social/core/space/SpaceUtils.java:976-988 | Both directions: a space is in a group exactly when its priority has that rank. |
| SpaceUtils.InGroupRank | mos/src/main/java/org/exoplatform/social/core/space/SpaceUtils.java:976-988 | Every space of a group has that group's rank. |
| SpaceUtils.OrderedSpacesSpec | mos/src/main/java/org/exoplatform/social/core/space/SpaceUtils.java:972-996 | The result holds exactly the spaces of a known priority, and no space follows one of a lower-priority group. |
| SpaceUtils.FirstFieldSpec | mos/src/main/java/org/exoplatform/social/core/space/SpaceUtils.java:1080-1086 | A chunk's first field is the text before its first ':'; only a non-empty run of ':' has none, which makes the Java `[0]` throw. |
| SpaceUtils.GetAppIdList | mos/src/main/java/org/exoplatform/social/core/space/SpaceUtils.java:1074-1088 | Empty for null; otherwise the first field of each ','-chunk, in order. |
| SpaceUtils.FirstFields | mos/src/main/java/org/exoplatform/social/core/space/SpaceUtils.java:1080-1086 | The loop collects the first field of each chunk, in order, and fails at the first chunk without one. |
| SpaceUtils.IsInstalledApp | mos/src/main/java/org/exoplatform/social/core/space/SpaceUtils.java:1130-1144 | False for null; otherwise whether some chunk's first field is the id. |
| SpaceUtils.InstalledIffListed | mos/src/main/java/org/exoplatform/social/core/space/SpaceUtils.java:1130-1144 | An app is installed exactly when its id is in `getAppIdList`. |
| SpaceUtils.AppStatusPattern | mos/src/main/java/org/exoplatform/social/core/space/SpaceUtils.java:1170-1188 | Null without the id. For a present id, exactly the text from its first occurrence cut at the next ',' (or the end), when that has four ':' fields, and null otherwise. A pattern found starts with a comma-free id. |
| SpaceUtils.CutAtComma | mos/src/main/java/org/exoplatform/social/core/space/SpaceUtils.java:1176-1181 | A prefix without ',' that stops at the first ',' or at the end of the text. |
| SpaceUtils.CutAtCommaUnique | mos/src/main/java/org/exoplatform/social/core/space/SpaceUtils.java:1176-1181 | The cut is the only comma-free prefix that reaches a ',' or the end. |
| SpaceUtils.CutAtCommaKeeps | mos/src/main/java/org/exoplatform/social/core/space/SpaceUtils.java:1176-1181 | Any comma-free prefix survives the cut. |
| SpaceUtils.SplitStatusText | mos/src/main/java/org/exoplatform/social/core/space/SpaceUtils.java:1170-1188 | Four plain fields joined with ':' split back into those fields and hold no ','. |
| SpaceUtils.SplitStatusTail | mos/src/main/java/org/exoplatform/social/core/space/SpaceUtils.java:1170-1188 | The last three fields joined with ':' split back into them. |
| SpaceUtils.GetAppStatus | mos/src/main/java/org/exoplatform/social/core/space/SpaceUtils.java:1019-1029 | Null exactly when the string is null or lacks the id. NullPointerException exactly when the id occurs without a valid pattern. A status found holds no ':'. `StatusRoundTrip` shows it is the fourth field of the id's application, alone or among others. |
| SpaceUtils.AppNodeNameAsWritten | mos/src/main/java/org/exoplatform/social/core/space/SpaceUtils.java:1038-1047 | getAppNodeName as written. Null exactly when the string is null or lacks the id, and NullPointerException exactly for an id without a valid pattern. The field returned holds no ':'. `AppNodeNameIsAppId` shows it is the id, alone or among other applications. |
| SpaceUtils.AppNodeName | mos/src/main/java/org/exoplatform/social/core/space/SpaceUtils.java:1038-1047 | The corrected getAppNodeName, with the same null and exception cases. `StatusRoundTrip` shows it returns the node name of the id's application, alone or among others. |
| SpaceUtils.IsRemovableApp | mos/src/main/java/org/exoplatform/social/core/space/SpaceUtils.java:1056-1066 | NullPointerException exactly for a null string, or for an id that occurs without a valid pattern. True when the id is absent. `StatusRoundTrip` shows it is false only for a third field "false", alone or among other applications. |
| SpaceUtils.StatusRoundTrip | mos/src/main/java/org/exoplatform/social/core/space/SpaceUtils.java:1019-1066 | For "id:node:removable:status" after earlier applications that do not mention the id and before later ones, the parsers read the fields back: the pattern, the status, the node name (corrected), and removable unless "false". |
| SpaceUtils.AppNodeNameIsAppId | mos/src/main/java/org/exoplatform/social/core/space/SpaceUtils.java:1038-1047 | As written, getAppNodeName returns the id, alone or among other applications, which differs from the node name whenever the two differ. |
| SpaceUtils.GetDisplayAppName | mos/src/main/java/org/exoplatform/social/core/space/SpaceUtils.java:1152-1161 | A trailing "portlet" in any case is cut off and the rest trimmed; otherwise a trailing "gadget" likewise; otherwise the name is returned unchanged. |
| SpaceUtils.DisplayNameDropsSuffix | mos/src/main/java/org/exoplatform/social/core/space/SpaceUtils.java:1152-1161 | A base followed by "portlet" or "gadget", in any case, displays as the trimmed base. |
| SpaceUtils.HasViewPermission | mos/src/main/java/org/exoplatform/social/core/space/SpaceUtils.java:1260-1273 | The everyone expression grants; any other grant needs a ':' field. |
| SpaceUtils.SplitAbsentMeansOne | mos/src/main/java/org/exoplatform/social/core/space/SpaceUtils.java:1264-1266 | Without ':' an expression has fewer than two fields, so it denies. |
| SpaceUtils.ViewPermissionOfGroup | mos/src/main/java/org/exoplatform/social/core/space/SpaceUtils.java:1260-1273 | "m:g" grants group g, and another group exactly when g is the platform users' group. |
| SpaceUtils.HasAccessPermission | mos/src/main/java/org/exoplatform/social/core/space/SpaceUtils.java:1198-1209 | False for a null list; otherwise whether some expression grants view. |
| SpaceStorage.RemoveAllMembers | mos/src/main/java/org/exoplatform/social/core/storage/impl/SpaceStorageImpl.java:187-200 | Both directions: a name survives exactly when it is in l and not in drop. |
| SpaceStorage.RemoveAllIdentity | mos/src/main/java/org/exoplatform/social/core/storage/impl/SpaceStorageImpl.java:187-200 | Removing names that do not occur keeps the list. |
| SpaceStorage.RemoveAllIdempotent | mos/src/main/java/org/exoplatform/social/core/storage/impl/SpaceStorageImpl.java:187-200 | Removing twice is removing once. |
| SpaceStorage.Sub | mos/src/main/java/org/exoplatform/social/core/storage/impl/SpaceStorageImpl.java:187-200 | Empty for a null first list, the first list for a null second, else the first list without the second's names, in order with repetitions: the value `SubOf`, which `RoleUpdate` uses. |
| SpaceStorage.RoleUpdateSpec | mos/src/main/java/org/exoplatform/social/core/storage/impl/SpaceStorageImpl.java:204-212 | Added is new minus old and removed is old minus new, a null list counting as empty, so no name is both. |
| SpaceStorage.CreateRefs | mos/src/main/java/org/exoplatform/social/core/storage/impl/SpaceStorageImpl.java:202-218 | The four role updates, in the order they are handed on. |
| SpaceStorage.Remove | mos/src/main/java/org/exoplatform/social/core/storage/impl/SpaceStorageImpl.java:322-326 | Both directions: a character stays exactly when it occurs and is not the one removed. |
| SpaceStorage.IsValidInput | mos/src/main/java/org/exoplatform/social/core/storage/impl/SpaceStorageImpl.java:319-329 | True exactly when the input is non-null and holds a character other than '*' and '%'. |
| SpaceStorage.StarsToPercents | mos/src/main/java/org/exoplatform/social/core/storage/impl/SpaceStorageImpl.java:340-342 | The same length, with each '*' turned into '%' and other characters kept. |
| SpaceStorage.ProcessSearchCondition | mos/src/main/java/org/exoplatform/social/core/storage/impl/SpaceStorageImpl.java:331-345 | An empty condition throws StringIndexOutOfBounds, and only it. Without wildcards the result is '*' + s + '*'; otherwise '%' + s with '*' as '%' + '%'. |
| SpaceStorage.HasWildcard | mos/src/main/java/org/exoplatform/social/core/storage/impl/SpaceStorageImpl.java:333 | True exactly when '*' or '%' occurs. |
| SpaceStorage.ProcessedShape | mos/src/main/java/org/exoplatform/social/core/storage/impl/SpaceStorageImpl.java:331-345 | The result is two longer, begins and ends with the same wildcard, and has no '*' once the condition had a wildcard. |
| SpaceStorage.ValidateFilter | mos/src/main/java/org/exoplatform/social/core/storage/impl/SpaceStorageImpl.java:250-265 | False for null; `isValidInput` of a non-empty name condition; otherwise true exactly when the first character is not a digit. |
| UserPortalConfig.FlagParam | mop/src/main/java/org/exoplatform/portal/config/UserPortalConfigService.java:90-95 | True when absent; a null value throws NullPointerException, and only it; any other value gives whether its lower-cased, trimmed form is "true". |
| UserPortalConfig.LowerTrue | mop/src/main/java/org/exoplatform/portal/config/UserPortalConfigService.java:90-95 | "true" is its own lower-case form. |
| UserPortalConfig.FlagMeansTrue | mop/src/main/java/org/exoplatform/portal/config/UserPortalConfigService.java:90-95 | A value sets the flag exactly when, trimmed, it equals "true" ignoring case. |
| UserPortalConfig.FlagIgnoresCaseAndBlanks | mop/src/main/java/org/exoplatform/portal/config/UserPortalConfigService.java:90-95 | Blanks around a value and the case of its letters do not change the flag. |
| UserPortalConfig.TrueSetsFlag | mop/src/main/java/org/exoplatform/portal/config/UserPortalConfigService.java:90-95 | The value "true" sets a flag. |
| UserPortalConfig.ImportModeParam | mop/src/main/java/org/exoplatform/portal/config/UserPortalConfigService.java:98-99 | CONSERVE when absent; NullPointerException for a null value; otherwise exactly the constant named by the upper-cased, trimmed value, and IllegalArgumentException exactly when no constant has that name. |
| UserPortalConfig.ImportModeNamesTrimmedValue | mop/src/main/java/org/exoplatform/portal/config/UserPortalConfigService.java:98-99 | The mode is the constant named by the trimmed value in upper case, trimming and upper-casing commuting. |
| UserPortalConfig.ImportModeIgnoresCaseAndBlanks | mop/src/main/java/org/exoplatform/portal/config/UserPortalConfigService.java:98-99 | Blanks around a value and the case of its letters do not change the mode or the failure. |
| UserPortalConfig.PermittedPortalsMembers | mop/src/main/java/org/exoplatform/portal/config/UserPortalConfigService.java:532-545 | Both directions: a name is kept exactly when it is listed and has a permitted configuration. |
| UserPortalConfig.PermittedPortalsPrefix | mop/src/main/java/org/exoplatform/portal/config/UserPortalConfigService.java:532-545 | The kept names keep their order. |
| UserPortalConfig.MakableMembers | mop/src/main/java/org/exoplatform/portal/config/UserPortalConfigService.java:242-269 | Both directions: an id is offered exactly when it is a group id and, with `withSite`, an existing site. |
| UserPortalConfig.MakablePrefix | mop/src/main/java/org/exoplatform/portal/config/UserPortalConfigService.java:242-269 | The offered ids keep group order. |
| UserPortalConfig.NamesUpToMembers | mop/src/main/java/org/exoplatform/portal/config/UserPortalConfigService.java:248-254 | The set holds exactly the names of the sites visited. |
| UserPortalConfig.UserPortalConfigService.constructor | mop/src/main/java/org/exoplatform/portal/config/UserPortalConfigService.java:79-110 | The services and parsed settings are kept; no listener yet. |
| UserPortalConfig.UserPortalConfigService.Create | mop/src/main/java/org/exoplatform/portal/config/UserPortalConfigService.java:79-110 | The two flags and the import mode are parsed in that order and the first failure is thrown; otherwise a service with their values. |
| UserPortalConfig.UserPortalConfigService.GetUserPortalConfig | mop/src/main/java/org/exoplatform/portal/config/UserPortalConfigService.java:207-217 | Null unless the portal exists and is permitted; then its configuration with name and user. |
| UserPortalConfig.UserPortalConfigService.GetPage | mop/src/main/java/org/exoplatform/portal/config/UserPortalConfigService.java:410-417 | Null for a null id, without asking the storage; the stored page otherwise. |
| UserPortalConfig.UserPortalConfigService.GetPermittedPage | mop/src/main/java/org/exoplatform/portal/config/UserPortalConfigService.java:428-436 | The page exactly when it exists and is permitted. |
| UserPortalConfig.UserPortalConfigService.GetAllPortalNames | mop/src/main/java/org/exoplatform/portal/config/UserPortalConfigService.java:532-545 | The listed names with a permitted configuration, in order. |
| UserPortalConfig.UserPortalConfigService.GetMakableNavigations | mop/src/main/java/org/exoplatform/portal/config/UserPortalConfigService.java:242-269 | The trimmed ids of the user's manageable groups (all groups for the super user), in group order; with `withSite`, only existing group sites. |
| UserPortalConfig.UserPortalConfigService.SiteNames | mop/src/main/java/org/exoplatform/portal/config/UserPortalConfigService.java:248-254 | The loop gathers the names of all group sites. |
| UserPortalConfig.UserPortalConfigService.MakableIds | mop/src/main/java/org/exoplatform/portal/config/UserPortalConfigService.java:256-266 | The loop keeps exactly the ids the filter allows, in order. |
| UserPortalConfig.UserPortalConfigService.InitListener | mop/src/main/java/org/exoplatform/portal/config/UserPortalConfigService.java:583-599 | The first new-portal-config listener is kept, later ones merged into it, others ignored. |
| UserPortalConfig.UpdateOwnership | mop/src/main/java/org/exoplatform/portal/config/UserPortalConfigService.java:554-581 | The only exception is ClassCastException. The rewrite keeps each node's kind, a container's number of children and whether it is a page. `UpdateOwnershipSpec` gives the rule node by node. |
| UserPortalConfig.UpdateChildren | mop/src/main/java/org/exoplatform/portal/config/UserPortalConfigService.java:554-581 | The walk fails exactly when some child's update fails, only with ClassCastException; on success each child is replaced by its own update, in order. |
| UserPortalConfig.UpdateOwnershipSpec | mop/src/main/java/org/exoplatform/portal/config/UserPortalConfigService.java:554-581 | Fails exactly when the tree holds a non-transient state. On success the result is the tree rewritten by the rule: a page gets the new owner; a transient state gets it exactly when its owner type or id is null, and is left alone otherwise; a null state and any other object are kept. Every page then has the new owner, every transient state a full owner, and a second update changes nothing. |
| UserPortalConfig.UpdateChildrenSpec | mop/src/main/java/org/exoplatform/portal/config/UserPortalConfigService.java:554-581 | The same for a list of children, walked in order, each child rewritten by the rule. |

## Left out

- Concurrency: the locks, the atomic trim flag, the volatile fields and the concurrent collections. Every operation is sequential and atomic, so the busy-flag branch of `trim` is modelled but never taken from a quiescent state.
- The clock is the `now` parameter, and listener dispatch is the ghost event log. Logging and tracing are dropped.
- Queue.SynchronizedQueue.Trim: requires `size >= 0`. With a negative size the Java loop goes on to unlink the head sentinel.
- Queue.SynchronizedQueue.Add: requires the item to be unlinked. Adding a linked item would corrupt the Java list, and the cache only adds fresh entries.
- FifoCache.CacheState.Put: requires `maxSize >= 0`, because the trim it calls loops forever otherwise.
- FifoCache.ConcurrentFIFOExoCache.Put: requires `maxSize >= 0`, for the same reason.
- FifoCache.ConcurrentFIFOExoCache.PutMap: requires `maxSize >= 0`. Its per-key postcondition is stated only when all entries fit in `maxSize`, and otherwise only the invariant. The map's iteration order is a ghost choice.
- FifoCache.ConcurrentFIFOExoCache.GetCachedObjects: the HashMap iteration order is a ghost permutation of the keys, not a fixed order.
- The statistics, `select` and the listener context are not modelled beyond the counters.
- FifoCache.ConcurrentFIFOExoCache.GetCacheHit: a plain read of the `hits` field, with no contract of its own; the counter's updates are stated by `Get` and `CounterWraps`.
- FifoCache.ConcurrentFIFOExoCache.GetCacheMiss: a plain read of the `misses` field, with no contract of its own; the counter's updates are stated by `Get` and `CounterWraps`.
- FifoCache.ConcurrentFIFOExoCache.GetLiveTimeMillis: a plain read of the `liveTimeMillis` field, with no contract of its own; its values are stated by `SetLiveTimeMillis`, `SetLiveTime` and `GetLiveTime`.
- ObjectRefs.SimpleObjectRef.GetObject: a plain read of the entry's value, with no contract of its own; `Get` and the entry constructor state it.
- ObjectRefs.SimpleObjectRef.GetExpireTime: a plain read of the expiration time, with no contract of its own; the constructor and `FifoCache.ExpirationTime` state it.
- ObjectRefs.SimpleObjectRef.IsValid: the strict comparison with the expiration time, with no contract of its own; `ValidityMonotone`, `UnlimitedEntryValid` and `ExpiredAtDeadline` state its properties.
- ApplicationContainers.ApplicationContainer.IsStarted: a plain read of the started flag, with no contract of its own; `Start`, `Stop` and the constructor state it.
- CacheService.CacheServiceImpl.CreateCacheInstance: loading the implementation class by reflection is the parameter `instantiable`, and an implementation class is a name. A new cache is the concurrent FIFO cache whatever class is named.
- CachingContainers.CachingContainer.RegisterComponent: the `registerComponentInstance` and `registerComponentImplementation` overloads build an adapter through the factory first. They are this method applied to that adapter and are not modelled separately.
- CachingContainers.CachingContainer.GetComponentAdapterOfType: this method and `GetComponentInstance` consult a parent as a plain `ConcurrentContainer`, straight through its registry. In Java the parent sits behind an `ImmutablePicoContainer` that forwards to a caching parent's own memoised lookups, which fill that parent's caches. The model leaves a caching parent's caches untouched.
- CachingContainers.CachingContainer.Invalidate: reaching child caching containers through the container visitor is not modelled. Only this container's caches are cleared.
- Component adapters, their instantiation and verification, and the pico parameters are values: an adapter has a key, an implementation class and the instance it yields. The `KernelContainer` super calls and the JMX management of containers are not part of this model.
- RootContainer's configuration loading, file checks, class-loader switching, the singleton holder and the booting guard are not part of this model. The init contexts are values and a task run is an entry in a log. The `PriorityBlockingQueue` order among tasks that compare equal is not pinned down; equal names compare 0 only for the same context.
- ApplicationContainers.ApplicationContainer.Start: the kernel container's own start and stop are not modelled, only the flag. The session manager and the `ApplicationContainerConfig` internals are left out. The configuration is an opaque value whose queries are functions.
- ApplicationContainers.ApplicationContainer.RegisterContext: without a dependency list the Java keeps the contexts in a `HashSet`, whose iteration order is unspecified. The model appends instead, so in that case the order it states is one admissible order, not a promise of the Java. The constructor's one-context set is affected alike. Membership and distinctness are what the Java promises.
- ApplicationContainers.ApplicationContainer.GetWebAppClassLoader: the unified loader is a value naming its delegates; class-loader identity beyond that is not modelled.
- UnifiedClassLoaders.UnifiedClassLoader.GetResources: URL equality in the `LinkedHashSet` is model equality of `Url` values.
- ManagementContextImpl's `register` and `install` rely on annotations, reflection and providers. They are not part of this model; a registration is recorded as its provider-to-name map.
- XmlBaseObjects.XmlBaseObject.SetObjectValue: the map, collection and native-array branches and the `new XMLObject(o)` wrapping of other objects are left out, because those classes are not part of this model. `getObjectValue` unwraps those same classes and is left out with them. Float and double payloads are opaque numbers.
- SpaceUtils.CleanString: the ICU accent transliteration is not modelled; the input is its output. `Character.isLetterOrDigit`, `isDigit` and the case mappings are their ASCII parts.
- SpaceUtils.GetOrderedSpaces: the three priority constants of `Space` are the parameter `Priorities`.
- SpaceUtils.HasViewPermission: its own postcondition states only the everyone rule and the need for a ':' field. The rule for a group expression is stated by `ViewPermissionOfGroup`. `UserACL.EVERYONE` is the parameter `everyone`.
- SpaceUtils.IsInstalledApp: a null application id is not modelled, because ids are non-null strings.
- The UI, navigation, organisation-service and JCR-backed parts of `SpaceUtils`, `SpaceStorageImpl` and `UserPortalConfigService` are not part of this model. This includes `manageRefList`, which stores the role updates, and the query building of the storage.
- Profile's `getUrl` depends on `LinkProvider` and is left out. The id and last-loaded accessors have no behaviour worth stating.
- Profiles.Profile.AddOrModifyProperties: entries are visited in a given order, standing for the map's iteration order.
- Profiles.Profile.AddOrModifyProperties: keys are non-null strings. A null key makes the Java throw NullPointerException at its ':' test, after the earlier entries are stored; that path is not modelled.
- UserPortalConfig.FlagParam: `toLowerCase` maps only the ASCII letters; Java's full Unicode case mapping, which can also change a string's length, is not modelled.
- UserPortalConfig.ImportModeParam: `toUpperCase` maps only the ASCII letters. Java's full mapping also takes 'ı' to 'I' and 'ſ' to 'S', so a value such as "conſerve" names CONSERVE in Java and no constant here.
- Tools.EndsWithIgnoreCase: `equalsIgnoreCase` compares only ASCII letters up to case; Java's comparison covers every Unicode letter.
- SpaceUtils.GetDisplayAppName: the "portlet" and "gadget" suffix test lower-cases only ASCII letters.
- SpaceStorage.ValidateFilter: `Character.isDigit` on the first character is its ASCII part, so a non-ASCII digit such as '٣' counts as a digit in Java and not here.
- UserPortalConfig.UpdateOwnership: the Java rewrites the model tree in place; here it is a function returning the rewritten tree, so aliasing between tree nodes is not modelled. When a ClassCastException stops the Java walk midway, the nodes visited before it stay rewritten; the model's `Failure` returns no tree and so does not state that partial rewrite.
- UserPortalConfig.UserPortalConfigService.GetMakableNavigations: the storage query and the ACL, organisation and storage services are parameters. The trims of the group ids are computed before the filtering loop.
- Tools.ParseCommaList: the trims of the pieces are computed before the loop that keeps the non-empty ones.

## Findings

| source | as written | input that shows it | evidently intended | confidence | as-written member | corrected member |
|---|---|---|---|---|---|---|
| mos/src/main/java/org/exoplatform/social/core/space/SpaceUtils.java:1038-1047 | `getAppNodeName` returns field 0 of the "id:node:removable:status" pattern, which is the application id | installed apps "wiki:WikiNode:true:active", appId "wiki": the answer is "wiki" | field 1, the node name "WikiNode" | not executed | SpaceUtils.AppNodeNameIsAppId | SpaceUtils.StatusRoundTrip |
| container/src/main/java/org/etk/kernel/container/xml/object/XMLBaseObject.java:186-204 | `setFloat` sets the type "double" and `setDouble` sets "float" | `setObjectValue(1.0f)` gives type "double", while `setType(Float.class)` gives "float" | the tag `setType` gives the value's class | not executed | XmlBaseObjects.FloatTaggedDouble | XmlBaseObjects.IntendedTagsTellClass |
