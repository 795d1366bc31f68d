/**
 * The component registry of the container kernel. A container maps component keys to
 * component adapters, keeps the adapters in registration order and, separately, in the order
 * their instances were first asked for, and falls back to its parent container for keys it
 * does not hold. Adapters, keys and instances are opaque values; an implementation class
 * carries the names of all the classes and interfaces it can be used as.
 */
module Containers {
  import opened Wrappers
  import opened Seqs

  type ClassName = string

  /** The key a component is registered under: a class, or any other value compared by equality. */
  datatype ComponentKey = ClassKey(cls: ClassName) | ValueKey(value: string)

  /** A component instance, compared by identity. */
  datatype Instance = Instance(id: nat)

  /** A class with the names of all its superclasses and interfaces. */
  datatype JavaClass = JavaClass(name: ClassName, supertypes: set<ClassName>)

  /** `t.isAssignableFrom(c)`: class `c` can be used where a `t` is expected. */
  predicate AssignableFrom(t: ClassName, c: JavaClass) {
    t == c.name || t in c.supertypes
  }

  /**
   * A component adapter: its identity, its key, its implementation class and the instance it
   * yields (None for the implicit adapter that stands for a container itself).
   */
  datatype Adapter = Adapter(id: nat, key: ComponentKey, implementation: JavaClass, instance: Option<Instance>)

  /** The lifecycle flags of a container. */
  datatype Lifecycle = Lifecycle(started: bool, disposed: bool)

  /** The lifecycle operations; each is a visit of the container's components when it runs. */
  datatype LifecycleOp = VisitStart | VisitStop | VisitDispose

  /** Whether the lifecycle visitor runs for `op` in state `s`. */
  predicate Runs(s: Lifecycle, op: LifecycleOp) {
    match op
    case VisitStart => !s.disposed && !s.started
    case VisitStop => !s.disposed && s.started
    case VisitDispose => !s.disposed
  }

  /** The flags after `op`: the flag the operation sets when it runs, the old flags otherwise. */
  function Step(s: Lifecycle, op: LifecycleOp): (r: Lifecycle)
    ensures !Runs(s, op) ==> r == s
    ensures r.disposed == (s.disposed || op == VisitDispose)
    ensures r.started == (if Runs(s, op) && op != VisitDispose then op == VisitStart else s.started)
  {
    if !Runs(s, op) then s
    else match op
      case VisitStart => s.(started := true)
      case VisitStop => s.(started := false)
      case VisitDispose => s.(disposed := true)
  }

  /**
   * Once disposed, every operation is a no-op; starting a fresh container and then stopping it
   * restores its flags; each operation repeated at once is a no-op the second time.
   */
  lemma LifecycleLaws(s: Lifecycle, op: LifecycleOp)
    ensures s.disposed ==> Step(s, op) == s && !Runs(s, op)
    ensures !s.disposed && !s.started ==> Step(Step(s, VisitStart), VisitStop) == s
    ensures Step(Step(s, op), op) == Step(s, op) && !Runs(Step(s, op), op)
  {
  }

  /** The adapters of `s` whose implementation is assignable to `t`, in the order of `s`. */
  function OfType(s: seq<Adapter>, t: ClassName): (r: seq<Adapter>)
    ensures |r| <= |s|
  {
    if s == [] then []
    else OfType(s[..|s| - 1], t)
         + (if AssignableFrom(t, s[|s| - 1].implementation) then [s[|s| - 1]] else [])
  }

  /** `OfType` keeps exactly the assignable adapters, and keeps distinctness. */
  lemma {:induction false} OfTypeMembers(s: seq<Adapter>, t: ClassName)
    ensures forall i :: 0 <= i < |OfType(s, t)| ==>
              OfType(s, t)[i] in s && AssignableFrom(t, OfType(s, t)[i].implementation)
    ensures forall i :: 0 <= i < |s| && AssignableFrom(t, s[i].implementation) ==> s[i] in OfType(s, t)
    ensures Distinct(s) ==> Distinct(OfType(s, t))
  {
    if s != [] {
      var init := s[..|s| - 1];
      var last := s[|s| - 1];
      var r0 := OfType(init, t);
      OfTypeMembers(init, t);
      forall i | 0 <= i < |s| - 1 && AssignableFrom(t, s[i].implementation)
        ensures s[i] in OfType(s, t)
      {
        assert s[i] == init[i];
      }
      if Distinct(s) && AssignableFrom(t, last.implementation) {
        DistinctLast(s);
        assert Distinct(init) by {
          forall i, j | 0 <= i < j < |init| ensures init[i] != init[j] {
            assert init[i] == s[i] && init[j] == s[j];
          }
        }
        assert last !in r0;
        DistinctSnoc(r0, last);
      } else if Distinct(s) {
        assert Distinct(init) by {
          forall i, j | 0 <= i < j < |init| ensures init[i] != init[j] {
            assert init[i] == s[i] && init[j] == s[j];
          }
        }
        assert OfType(s, t) == r0;
      }
    }
  }

  /** Extending a prefix by one adapter extends its `OfType` by that adapter when it is assignable. */
  lemma OfTypeNext(s: seq<Adapter>, i: nat, t: ClassName)
    requires i < |s|
    ensures AssignableFrom(t, s[i].implementation) ==> OfType(s[..i + 1], t) == OfType(s[..i], t) + [s[i]]
    ensures !AssignableFrom(t, s[i].implementation) ==> OfType(s[..i + 1], t) == OfType(s[..i], t)
  {
    assert s[..i + 1][..i] == s[..i];
  }

  /** Remembering one more adapter's instance keeps the map's keys those of the matched adapters. */
  lemma Remembered(instances: map<Adapter, Option<Instance>>, f: seq<Adapter>, a: Adapter)
    requires forall x :: x in instances <==> x in f
    requires forall x :: x in instances ==> instances[x] == x.instance
    ensures forall x :: x in instances[a := a.instance] <==> x in f + [a]
    ensures forall x :: x in instances[a := a.instance] ==> instances[a := a.instance][x] == x.instance
  {
  }

  /**
   * The instances of the adapters of `ordered` that are among `matching` and yield one, in the
   * order of `ordered`.
   */
  function InstancesIn(ordered: seq<Adapter>, matching: seq<Adapter>): (r: seq<Instance>)
    ensures |r| <= |ordered|
  {
    if ordered == [] then []
    else
      var a := ordered[|ordered| - 1];
      InstancesIn(ordered[..|ordered| - 1], matching)
      + (if a in matching && a.instance.Some? then [a.instance.value] else [])
  }

  /** `InstancesIn` holds exactly the instances of the matching adapters it is given. */
  lemma {:induction false} InstancesInMembers(ordered: seq<Adapter>, matching: seq<Adapter>)
    ensures forall i :: 0 <= i < |InstancesIn(ordered, matching)| ==>
              exists j :: 0 <= j < |ordered| && ordered[j] in matching && ordered[j].instance == Some(InstancesIn(ordered, matching)[i])
    ensures forall j :: 0 <= j < |ordered| && ordered[j] in matching && ordered[j].instance.Some? ==>
              ordered[j].instance.value in InstancesIn(ordered, matching)
  {
    if ordered != [] {
      var init := ordered[..|ordered| - 1];
      var r0 := InstancesIn(init, matching);
      var r := InstancesIn(ordered, matching);
      InstancesInMembers(init, matching);
      forall i | 0 <= i < |r|
        ensures exists j :: 0 <= j < |ordered| && ordered[j] in matching && ordered[j].instance == Some(r[i])
      {
        if i < |r0| {
          assert r[i] == r0[i];
          var j :| 0 <= j < |init| && init[j] in matching && init[j].instance == Some(r0[i]);
          assert ordered[j] == init[j];
        } else {
          var j := |ordered| - 1;
          assert ordered[j] in matching && ordered[j].instance.Some?;
          assert ordered[j].instance == Some(r[i]);
        }
      }
      forall j | 0 <= j < |ordered| - 1 && ordered[j] in matching && ordered[j].instance.Some?
        ensures ordered[j].instance.value in r
      {
        assert ordered[j] == init[j];
      }
    } else {
      assert InstancesIn(ordered, matching) == [];
    }
  }

  class ConcurrentContainer {
    /** The parent container consulted for keys and types this one cannot resolve, if any. */
    const parent: ConcurrentContainer?
    /** The number of ancestors, which bounds the walks up the parent chain. */
    ghost const depth: nat
    /** The parent, its parent, and so on. */
    ghost const ancestors: set<ConcurrentContainer>

    /** The key-to-adapter map. */
    var keyMap: map<ComponentKey, Adapter>
    /** The registered adapters, in registration order (a copy-on-write set). */
    var adapters: seq<Adapter>
    /** The adapters whose instances have been asked for, in the order they first were. */
    var ordered: seq<Adapter>
    var started: bool
    var disposed: bool
    /** The lifecycle visits performed, oldest first. */
    ghost var visits: seq<LifecycleOp>

    /** The parent chain is finite: every ancestor is strictly shallower. */
    ghost predicate ChainOk()
      decreases depth
    {
      (parent == null ==> ancestors == {}) &&
      (parent != null ==> parent.depth < depth && ancestors == {parent} + parent.ancestors && parent.ChainOk()) &&
      (forall c :: c in ancestors ==> c.depth < depth && c.ChainOk())
    }

    /** This container and its ancestors. */
    ghost function Chain(): set<ConcurrentContainer> {
      {this} + ancestors
    }

    /** The registry is consistent: the key map and the adapter set agree, and the order list holds registered adapters once each. */
    ghost predicate Valid()
      reads this
    {
      (forall k :: k in keyMap ==> keyMap[k].key == k && keyMap[k] in adapters) &&
      (forall i :: 0 <= i < |adapters| ==> adapters[i].key in keyMap && keyMap[adapters[i].key] == adapters[i]) &&
      Distinct(adapters) && Distinct(ordered) &&
      (forall i :: 0 <= i < |ordered| ==> ordered[i] in adapters)
    }

    /** Every container of the chain is consistent. */
    ghost predicate ChainValid()
      requires ChainOk()
      reads this, ancestors
      decreases depth
    {
      Valid() && (parent != null ==> parent.ChainValid())
    }

    /** A container without a parent. */
    constructor Root()
      ensures ChainOk() && ChainValid()
      ensures parent == null
      ensures keyMap == map[] && adapters == [] && ordered == []
      ensures !started && !disposed && visits == []
    {
      parent := null;
      depth := 0;
      ancestors := {};
      keyMap := map[];
      adapters := [];
      ordered := [];
      started := false;
      disposed := false;
      visits := [];
    }

    /** A container whose lookups fall back to `parent`. */
    constructor WithParent(parent: ConcurrentContainer)
      requires parent.ChainOk()
      ensures ChainOk() && (parent.ChainValid() ==> ChainValid())
      ensures this.parent == parent
      ensures keyMap == map[] && adapters == [] && ordered == []
      ensures !started && !disposed && visits == []
    {
      this.parent := parent;
      depth := parent.depth + 1;
      ancestors := {parent} + parent.ancestors;
      keyMap := map[];
      adapters := [];
      ordered := [];
      started := false;
      disposed := false;
      visits := [];
    }

    /** The nearest container of the chain that binds `k`, or null when none does. */
    ghost function Owner(k: ComponentKey): (c: ConcurrentContainer?)
      requires ChainOk()
      reads this`keyMap, ancestors`keyMap
      decreases depth
      ensures c != null ==> c in Chain() && k in c.keyMap
      ensures c == null ==> forall d :: d in Chain() ==> k !in d.keyMap
      ensures c != null ==> forall d :: d in Chain() && d.depth > c.depth ==> k !in d.keyMap
    {
      if k in keyMap then this
      else if parent != null then parent.Owner(k)
      else null
    }

    /**
     * getComponentAdapter: the adapter bound to `key` locally, else the parent's answer; a
     * null key throws, as the concurrent hash map does.
     */
    function GetComponentAdapter(key: Option<ComponentKey>): (r: Result<Option<Adapter>>)
      requires ChainOk()
      reads this`keyMap, ancestors`keyMap
      decreases depth
      ensures r.Failure? <==> key.None?
      ensures r.Failure? ==> r.error == NullPointer
    {
      if key.None? then Failure(NullPointer)
      else if key.value in keyMap then Success(Some(keyMap[key.value]))
      else if parent != null then parent.GetComponentAdapter(key)
      else Success(None)
    }

    /** The adapter found for a key is the one bound in the nearest container that binds it. */
    lemma {:induction false} GetComponentAdapterNearest(k: ComponentKey)
      requires ChainOk()
      decreases depth
      ensures GetComponentAdapter(Some(k)) ==
              Success(if Owner(k) == null then None else Some(Owner(k).keyMap[k]))
    {
      if k !in keyMap && parent != null {
        parent.GetComponentAdapterNearest(k);
      }
    }

    /**
     * registerComponent: a key already bound locally throws and changes nothing; otherwise the
     * adapter is bound to its key and appended to the adapter set.
     */
    method RegisterComponent(a: Adapter) returns (r: Result<Adapter>)
      requires Valid()
      modifies this`keyMap, this`adapters
      ensures Valid()
      ensures a.key in old(keyMap) ==>
                r == Failure(DuplicateComponentKeyRegistration) && keyMap == old(keyMap) && adapters == old(adapters)
      ensures a.key !in old(keyMap) ==>
                r == Success(a) && keyMap == old(keyMap)[a.key := a] && adapters == old(adapters) + [a]
      ensures r.Success? && ChainOk() ==> GetComponentAdapter(Some(a.key)) == Success(Some(a))
    {
      if a.key in keyMap {
        return Failure(DuplicateComponentKeyRegistration);
      }
      assert a !in adapters;
      DistinctSnoc(adapters, a);
      keyMap := keyMap[a.key := a];
      adapters := adapters + [a];
      r := Success(a);
    }

    /** Unregistering a key right after registering it restores the key map and the adapter set. */
    lemma UnregisterUndoesRegister(m: map<ComponentKey, Adapter>, s: seq<Adapter>, a: Adapter)
      requires a.key !in m && a !in s
      ensures m[a.key := a] - {a.key} == m
      ensures Without(s + [a], a) == s
    {
      WithoutConcat(s, [a], a);
      WithoutAbsent(s, a);
      assert Without([a], a) == Without([a][1..], a);
    }

    /**
     * unregisterComponent: removes the adapter bound to `key` from the key map, the adapter set
     * and the order list, and returns it; an unbound key gives null, a null key throws.
     */
    method UnregisterComponent(key: Option<ComponentKey>) returns (r: Result<Option<Adapter>>)
      requires Valid()
      modifies this`keyMap, this`adapters, this`ordered
      ensures Valid()
      ensures key.None? ==>
                r == Failure(NullPointer) && keyMap == old(keyMap) && adapters == old(adapters) && ordered == old(ordered)
      ensures key.Some? && key.value !in old(keyMap) ==>
                r == Success(None) && keyMap == old(keyMap) && adapters == old(adapters) && ordered == old(ordered)
      ensures key.Some? && key.value in old(keyMap) ==>
                var a := old(keyMap)[key.value];
                r == Success(Some(a)) && keyMap == old(keyMap) - {key.value} &&
                adapters == Without(old(adapters), a) && ordered == Without(old(ordered), a)
    {
      if key.None? {
        return Failure(NullPointer);
      }
      var k := key.value;
      if k !in keyMap {
        return Success(None);
      }
      var a := keyMap[k];
      RemoveKeepsRegistry(k);
      keyMap := keyMap - {k};
      adapters := Without(adapters, a);
      ordered := Without(ordered, a);
      r := Success(Some(a));
    }

    /** Removing the adapter bound to `k` from all three structures keeps them consistent. */
    lemma RemoveKeepsRegistry(k: ComponentKey)
      requires Valid() && k in keyMap
      ensures var a := keyMap[k];
              var m := keyMap - {k};
              var s := Without(adapters, a);
              var o := Without(ordered, a);
              (forall k' :: k' in m ==> m[k'].key == k' && m[k'] in s) &&
              (forall i :: 0 <= i < |s| ==> s[i].key in m && m[s[i].key] == s[i]) &&
              Distinct(s) && Distinct(o) &&
              (forall i :: 0 <= i < |o| ==> o[i] in s)
    {
      var a := keyMap[k];
      var m := keyMap - {k};
      var s := Without(adapters, a);
      var o := Without(ordered, a);
      WithoutMembers(adapters, a);
      WithoutMembers(ordered, a);
      WithoutDistinct(adapters, a);
      WithoutDistinct(ordered, a);
      forall k' | k' in m ensures m[k'].key == k' && m[k'] in s {
        var i :| 0 <= i < |adapters| && adapters[i] == keyMap[k'];
        assert adapters[i] != a;
      }
      forall i | 0 <= i < |o| ensures o[i] in s {
        var j :| 0 <= j < |adapters| && adapters[j] == o[i];
      }
    }

    /** The instance a key resolves to: that of the adapter bound in the nearest container binding it; a null key throws. */
    ghost function InstanceOf(key: Option<ComponentKey>): (r: Result<Option<Instance>>)
      requires ChainOk()
      reads this`keyMap, ancestors`keyMap
      ensures r.Failure? <==> key.None?
    {
      if key.None? then Failure(NullPointer)
      else
        var c := Owner(key.value);
        Success(if c == null then None else c.keyMap[key.value].instance)
    }

    /**
     * The order lists after the instance bound to `k` is asked for: the nearest container
     * binding `k` records its adapter if it had not yet, and no other list changes.
     */
    twostate predicate RecordedFor(k: ComponentKey)
      requires ChainOk()
      reads this, ancestors
    {
      forall c :: c in Chain() ==>
        c.ordered == (if c == Owner(k) then AddIfAbsent(old(c.ordered), c.keyMap[k]) else old(c.ordered))
    }

    /** The instance getInstance yields for `a`. */
    ghost function InstanceVia(a: Adapter): Option<Instance>
      requires ChainOk()
      reads this`adapters, ancestors`keyMap
    {
      if a in adapters then a.instance
      else if parent != null then parent.InstanceOf(Some(a.key)).value
      else None
    }

    /** The order lists after getInstance of `a`: see `GetInstance`. */
    twostate predicate RecordedVia(a: Adapter)
      requires ChainOk()
      reads this, ancestors
    {
      (a in adapters ==> ordered == AddIfAbsent(old(ordered), a) && forall c :: c in ancestors ==> c.ordered == old(c.ordered)) &&
      (a !in adapters && parent == null ==> ordered == old(ordered)) &&
      (a !in adapters && parent != null ==> ordered == old(ordered) && parent.RecordedFor(a.key))
    }

    /** No order list of the chain changed. */
    twostate predicate UnchangedOrder()
      reads this, ancestors
    {
      forall c :: c in Chain() ==> c.ordered == old(c.ordered)
    }

    /** The local branch of getInstance: the adapter's own instance, with the adapter recorded in the order list. */
    method InstantiateLocal(a: Adapter) returns (r: Option<Instance>)
      requires Valid() && a in adapters
      modifies this`ordered
      ensures Valid()
      ensures r == a.instance
      ensures ordered == AddIfAbsent(old(ordered), a)
    {
      r := a.instance;
      ordered := AddIfAbsent(ordered, a);
    }

    /**
     * getInstance: a registered adapter yields its instance and is recorded; any other adapter
     * is looked up again by its key in the parent, if there is one, and gives null otherwise.
     */
    method GetInstance(a: Adapter) returns (r: Option<Instance>)
      requires ChainOk() && ChainValid()
      modifies this`ordered, ancestors`ordered
      decreases depth, 0
      ensures ChainValid()
      ensures r == InstanceVia(a)
      ensures RecordedVia(a)
    {
      if a in adapters {
        r := InstantiateLocal(a);
      } else if parent != null {
        var x := parent.GetComponentInstance(Some(a.key));
        r := x.value;
      } else {
        r := None;
      }
    }

    /** getComponentInstance: the instance of the adapter found for `key`, null when none is found; a null key throws. */
    method GetComponentInstance(key: Option<ComponentKey>) returns (r: Result<Option<Instance>>)
      requires ChainOk() && ChainValid()
      modifies this`ordered, ancestors`ordered
      decreases depth, 1
      ensures ChainValid()
      ensures r == InstanceOf(key)
      ensures key.None? ==> UnchangedOrder()
      ensures key.Some? ==> RecordedFor(key.value)
    {
      var found := GetComponentAdapter(key);
      if found.Failure? {
        return Failure(found.error);
      }
      GetComponentAdapterNearest(key.value);
      if found.value.None? {
        return Success(None);
      }
      var a := found.value.value;
      assert a.key == key.value by {
        ChainValidAt(Owner(key.value));
      }
      var inst := GetInstance(a);
      r := Success(inst);
    }

    /** getComponentAdaptersOfType: the registered adapters assignable to the type, in registration order; none for a null type. */
    method GetComponentAdaptersOfType(t: Option<ClassName>) returns (found: seq<Adapter>)
      ensures t.None? ==> found == []
      ensures t.Some? ==> found == OfType(adapters, t.value)
    {
      if t.None? {
        return [];
      }
      found := [];
      var i := 0;
      while i < |adapters|
        invariant 0 <= i <= |adapters|
        invariant found == OfType(adapters[..i], t.value)
      {
        assert adapters[..i + 1][..i] == adapters[..i];
        if AssignableFrom(t.value, adapters[i].implementation) {
          found := found + [adapters[i]];
        }
        i := i + 1;
      }
      assert adapters[..i] == adapters;
    }

    /**
     * The resolution rule of getComponentAdapterOfType: an adapter bound to the type as key
     * anywhere up the chain; else the one assignable local adapter; else, when there is none,
     * the parent's answer (null without a parent); several assignable local adapters are
     * ambiguous. A null type throws.
     */
    ghost function AdapterOfType(t: Option<ClassName>): Result<Option<Adapter>>
      requires ChainOk()
      reads this`keyMap, ancestors`keyMap, this`adapters, ancestors`adapters
      decreases depth
    {
      if t.None? then Failure(NullPointer)
      else
        var byKey := GetComponentAdapter(Some(ClassKey(t.value)));
        if byKey.Success? && byKey.value.Some? then byKey
        else
          var found := OfType(adapters, t.value);
          if |found| == 1 then Success(Some(found[0]))
          else if |found| == 0 then (if parent != null then parent.AdapterOfType(t) else Success(None))
          else Failure(AmbiguousComponentResolution)
    }

    /** getComponentAdapterOfType. */
    method GetComponentAdapterOfType(t: Option<ClassName>) returns (r: Result<Option<Adapter>>)
      requires ChainOk()
      decreases depth
      ensures r == AdapterOfType(t)
    {
      if t.None? {
        return Failure(NullPointer);
      }
      var byKey := GetComponentAdapter(Some(ClassKey(t.value)));
      if byKey.value.Some? {
        return byKey;
      }
      var found := GetComponentAdaptersOfType(t);
      if |found| == 1 {
        r := Success(Some(found[0]));
      } else if |found| == 0 {
        if parent != null {
          r := parent.GetComponentAdapterOfType(t);
        } else {
          r := Success(None);
        }
      } else {
        r := Failure(AmbiguousComponentResolution);
      }
    }

    /** getComponentInstanceOfType: the instance of the adapter the type resolves to; null and the exceptions of that resolution pass through. */
    method GetComponentInstanceOfType(t: Option<ClassName>) returns (r: Result<Option<Instance>>)
      requires ChainOk() && ChainValid()
      modifies this`ordered, ancestors`ordered
      ensures ChainValid()
      ensures AdapterOfType(t).Failure? ==> r == Failure(AdapterOfType(t).error) && UnchangedOrder()
      ensures AdapterOfType(t) == Success(None) ==> r == Success(None) && UnchangedOrder()
      ensures AdapterOfType(t).Success? && AdapterOfType(t).value.Some? ==>
                r == Success(InstanceVia(AdapterOfType(t).value.value)) && RecordedVia(AdapterOfType(t).value.value)
    {
      var found := GetComponentAdapterOfType(t);
      if found.Failure? {
        return Failure(found.error);
      }
      if found.value.None? {
        return Success(None);
      }
      var inst := GetInstance(found.value.value);
      r := Success(inst);
    }

    /**
     * getComponentInstancesOfType: every registered adapter assignable to the type is
     * instantiated and recorded in the order list, in registration order; the result lists
     * their instances (the implicit adapter yields none) in the order of the order list. A
     * null type gives the empty list.
     */
    method GetComponentInstancesOfType(t: Option<ClassName>) returns (r: seq<Instance>)
      requires Valid()
      modifies this`ordered
      ensures Valid()
      ensures t.None? ==> r == [] && ordered == old(ordered)
      ensures t.Some? ==>
                ordered == AddAllAbsent(old(ordered), OfType(adapters, t.value)) &&
                r == InstancesIn(ordered, OfType(adapters, t.value))
    {
      if t.None? {
        return [];
      }
      var instances := InstantiateAll(t.value);
      r := CollectInstances(instances, OfType(adapters, t.value));
    }

    /** The first loop of getComponentInstancesOfType: instantiates and records each assignable adapter, remembering its instance. */
    method InstantiateAll(t: ClassName) returns (instances: map<Adapter, Option<Instance>>)
      requires Valid()
      modifies this`ordered
      ensures Valid()
      ensures ordered == AddAllAbsent(old(ordered), OfType(adapters, t))
      ensures forall a :: a in instances <==> a in OfType(adapters, t)
      ensures forall a :: a in instances ==> instances[a] == a.instance
    {
      instances := map[];
      var i := 0;
      while i < |adapters|
        invariant 0 <= i <= |adapters|
        invariant Valid()
        invariant ordered == AddAllAbsent(old(ordered), OfType(adapters[..i], t))
        invariant forall a :: a in instances <==> a in OfType(adapters[..i], t)
        invariant forall a :: a in instances ==> instances[a] == a.instance
      {
        instances := InstantiateNext(t, i, instances, old(ordered));
        i := i + 1;
      }
      assert adapters[..i] == adapters;
    }

    /** One iteration of the first loop of getComponentInstancesOfType, at position `i`. */
    method InstantiateNext(t: ClassName, i: nat, instances: map<Adapter, Option<Instance>>, ghost start: seq<Adapter>)
      returns (next: map<Adapter, Option<Instance>>)
      requires Valid() && i < |adapters|
      requires ordered == AddAllAbsent(start, OfType(adapters[..i], t))
      requires forall a :: a in instances <==> a in OfType(adapters[..i], t)
      requires forall a :: a in instances ==> instances[a] == a.instance
      modifies this`ordered
      ensures Valid()
      ensures ordered == AddAllAbsent(start, OfType(adapters[..i + 1], t))
      ensures forall a :: a in next <==> a in OfType(adapters[..i + 1], t)
      ensures forall a :: a in next ==> next[a] == a.instance
    {
      var a := adapters[i];
      OfTypeNext(adapters, i, t);
      ghost var f := OfType(adapters[..i], t);
      next := instances;
      if AssignableFrom(t, a.implementation) {
        AddAllAbsentSnoc(start, f, a);
        var inst := InstantiateLocal(a);
        next := instances[a := inst];
        Remembered(instances, f, a);
        assert a in ordered;
        ordered := AddIfAbsent(ordered, a);
      }
    }

    /** The second loop of getComponentInstancesOfType: the remembered instances, in the order of the order list. */
    method CollectInstances(instances: map<Adapter, Option<Instance>>, matching: seq<Adapter>) returns (r: seq<Instance>)
      requires forall a :: a in instances <==> a in matching
      requires forall a :: a in instances ==> instances[a] == a.instance
      ensures r == InstancesIn(ordered, matching)
    {
      r := [];
      var j := 0;
      while j < |ordered|
        invariant 0 <= j <= |ordered|
        invariant r == InstancesIn(ordered[..j], matching)
      {
        assert ordered[..j + 1][..j] == ordered[..j];
        var a := ordered[j];
        if a in instances && instances[a].Some? {
          r := r + [instances[a].value];
        }
        j := j + 1;
      }
      assert ordered[..j] == ordered;
    }

    /** The visit and flags of start, stop and dispose, as `Step` and `Runs` give them. */
    function State(): Lifecycle
      reads this`started, this`disposed
    {
      Lifecycle(started, disposed)
    }

    /** start: a no-op when disposed or already started; otherwise visits the components and sets started. */
    method Start()
      modifies this`started, this`visits
      ensures State() == Step(old(State()), VisitStart)
      ensures visits == old(visits) + (if Runs(old(State()), VisitStart) then [VisitStart] else [])
    {
      if disposed || started {
        return;
      }
      visits := visits + [VisitStart];
      started := true;
    }

    /** stop: a no-op when disposed or not started; otherwise visits the components and clears started. */
    method Stop()
      modifies this`started, this`visits
      ensures State() == Step(old(State()), VisitStop)
      ensures visits == old(visits) + (if Runs(old(State()), VisitStop) then [VisitStop] else [])
    {
      if disposed || !started {
        return;
      }
      visits := visits + [VisitStop];
      started := false;
    }

    /** dispose: a no-op when already disposed; otherwise visits the components and sets disposed. */
    method Dispose()
      modifies this`disposed, this`visits
      ensures State() == Step(old(State()), VisitDispose)
      ensures visits == old(visits) + (if Runs(old(State()), VisitDispose) then [VisitDispose] else [])
    {
      if disposed {
        return;
      }
      visits := visits + [VisitDispose];
      disposed := true;
    }

    /** A resolved adapter is registered somewhere up the chain, under the type itself or with an assignable implementation. */
    lemma {:induction false} AdapterOfTypeFound(t: ClassName, a: Adapter)
      requires ChainOk() && ChainValid()
      requires AdapterOfType(Some(t)) == Success(Some(a))
      decreases depth
      ensures exists c :: c in Chain() && a in c.adapters && (a.key == ClassKey(t) || AssignableFrom(t, a.implementation))
    {
      var k := ClassKey(t);
      GetComponentAdapterNearest(k);
      var found := OfType(adapters, t);
      if Owner(k) != null {
        var c := Owner(k);
        ChainValidAt(c);
        assert c.keyMap[k].key == k && c.keyMap[k] in c.adapters;
      } else if |found| == 1 {
        OfTypeMembers(adapters, t);
        assert found[0] in adapters;
      } else {
        parent.AdapterOfTypeFound(t, a);
        var c :| c in parent.Chain() && a in c.adapters && (a.key == ClassKey(t) || AssignableFrom(t, a.implementation));
        assert c in Chain();
      }
    }

    /** Every container of a valid chain is itself consistent. */
    lemma {:induction false} ChainValidAt(c: ConcurrentContainer)
      requires ChainOk() && ChainValid() && c in Chain()
      decreases depth
      ensures c.Valid()
    {
      if c != this {
        parent.ChainValidAt(c);
      }
    }

    /** Type lookup yields null exactly when no container up the chain binds the type as key or holds an assignable adapter. */
    lemma {:induction false} AdapterOfTypeNone(t: ClassName)
      requires ChainOk()
      decreases depth
      ensures AdapterOfType(Some(t)) == Success(None) <==>
              forall c :: c in Chain() ==> ClassKey(t) !in c.keyMap && OfType(c.adapters, t) == []
    {
      var k := ClassKey(t);
      GetComponentAdapterNearest(k);
      if parent != null {
        parent.AdapterOfTypeNone(t);
      }
    }

    /** An ambiguity is reported only when some container up the chain holds several assignable adapters. */
    lemma {:induction false} AdapterOfTypeAmbiguous(t: ClassName)
      requires ChainOk()
      requires AdapterOfType(Some(t)) == Failure(AmbiguousComponentResolution)
      decreases depth
      ensures exists c :: c in Chain() && |OfType(c.adapters, t)| >= 2
    {
      GetComponentAdapterNearest(ClassKey(t));
      var found := OfType(adapters, t);
      if |found| < 2 {
        parent.AdapterOfTypeAmbiguous(t);
        var c :| c in parent.Chain() && |OfType(c.adapters, t)| >= 2;
        assert c in Chain();
      }
    }
  }
}
