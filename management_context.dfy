/**
 * The management context of a container or of a managed resource. Contexts form a tree
 * through their parents; each holds scoping data by scope type, the contexts of the objects
 * registered with it, and the names its resource was given by each management provider.
 */
module ManagementContexts {
  import opened Wrappers

  /** A manageable container, and whether it is a kernel container. */
  datatype ContainerRef = ContainerRef(id: nat, isKernel: bool)

  /** An object that can be registered or be the resource of a context. */
  datatype Managed = ManagedContainer(container: ContainerRef) | ManagedObject(id: nat)

  /** The metadata of a managed type, as the metadata builder makes it. */
  datatype TypeMetaData = TypeMetaData(id: nat)

  /** A scope type (a class) and the scoping data stored under it. */
  datatype ScopeType = ScopeType(name: string)
  datatype ScopingData = ScopingData(id: nat)

  /** A management provider and a name it returned from `manage`. */
  datatype Provider = Provider(id: nat)
  datatype ManagedName = ManagedName(id: nat)

  /** One call `provider.unmanage(name)`. */
  datatype Unmanage = Unmanage(provider: Provider, name: ManagedName)

  /**
   * The consistency check of the resource constructor, as written: a resource without
   * metadata and, at the same time, no resource with metadata.
   */
  predicate MetadataMismatch(resource: Option<Managed>, typeMD: Option<TypeMetaData>) {
    (resource.Some? && typeMD.None?) && (resource.None? && typeMD.Some?)
  }

  /** The check can never fire: each half requires what the other excludes. */
  lemma MetadataMismatchNever(resource: Option<Managed>, typeMD: Option<TypeMetaData>)
    ensures !MetadataMismatch(resource, typeMD)
  {
  }

  class ManagementContext {
    const parent: ManagementContext?
    /** The container the context is attached to, if any. */
    const container: Option<ContainerRef>
    const resource: Option<Managed>
    const typeMD: Option<TypeMetaData>
    /** The number of ancestors, which bounds the walks up the parent chain. */
    ghost const depth: nat
    /** The parent, its parent, and so on. */
    ghost const ancestors: set<ManagementContext>

    /** The scoping data by scope type; a null value may be stored. */
    var scopingDataList: map<ScopeType, Option<ScopingData>>
    /** The context of each object registered here. */
    var registrations: map<Managed, ManagementContext>
    /** The name each provider returned when it started managing this context's resource. */
    var managedSet: map<Provider, ManagedName>

    /** The parent chain is finite: every ancestor is strictly shallower. */
    ghost predicate ChainOk()
      decreases depth
    {
      (parent == null ==> ancestors == {}) &&
      (parent != null ==> parent.depth < depth && ancestors == {parent} + parent.ancestors && parent.ChainOk()) &&
      (forall c :: c in ancestors ==> c.depth < depth && c.ChainOk())
    }

    /** A context with the given parent, container, resource and metadata, and nothing recorded. */
    constructor (parent: ManagementContext?, container: Option<ContainerRef>, resource: Option<Managed>, typeMD: Option<TypeMetaData>)
      requires parent != null ==> parent.ChainOk()
      ensures ChainOk()
      ensures this.parent == parent && this.container == container
      ensures this.resource == resource && this.typeMD == typeMD
      ensures scopingDataList == map[] && registrations == map[] && managedSet == map[]
    {
      this.parent := parent;
      this.container := container;
      this.resource := resource;
      this.typeMD := typeMD;
      if parent == null {
        depth := 0;
        ancestors := {};
      } else {
        depth := parent.depth + 1;
        ancestors := {parent} + parent.ancestors;
      }
      scopingDataList := map[];
      registrations := map[];
      managedSet := map[];
    }

    /**
     * The context of a container at the root of the tree: a null container throws
     * NullPointerException; `md` is what the metadata builder makes of the container's class,
     * and when it builds, the container is the context's resource.
     */
    static method ForContainer(container: Option<ContainerRef>, md: Option<TypeMetaData>) returns (r: Result<ManagementContext>)
      ensures r.Failure? <==> container.None?
      ensures r.Failure? ==> r.error == NullPointer
      ensures r.Success? ==>
                r.value.ChainOk() && r.value.parent == null && r.value.container == container &&
                r.value.resource == (if md.Some? then Some(ManagedContainer(container.value)) else None) &&
                r.value.typeMD == md
    {
      if container.None? {
        return Failure(NullPointer);
      }
      var res := if md.Some? then Some(ManagedContainer(container.value)) else None;
      var c := new ManagementContext(null, container, res, md);
      r := Success(c);
    }

    /** The context of a container under `parent`: a null parent or a null container throws NullPointerException. */
    static method ForChildContainer(parent: ManagementContext?, container: Option<ContainerRef>, md: Option<TypeMetaData>) returns (r: Result<ManagementContext>)
      requires parent != null ==> parent.ChainOk()
      ensures r.Failure? <==> parent == null || container.None?
      ensures r.Failure? ==> r.error == NullPointer
      ensures r.Success? ==>
                r.value.ChainOk() && r.value.parent == parent && r.value.container == container &&
                r.value.resource == (if md.Some? then Some(ManagedContainer(container.value)) else None) &&
                r.value.typeMD == md
    {
      if parent == null || container.None? {
        return Failure(NullPointer);
      }
      var res := if md.Some? then Some(ManagedContainer(container.value)) else None;
      var c := new ManagementContext(parent, container, res, md);
      r := Success(c);
    }

    /**
     * The context of a resource under `parent`: a null parent throws NullPointerException. The
     * metadata consistency check does not appear here, because `MetadataMismatchNever` shows
     * that it always passes.
     */
    static method ForResource(parent: ManagementContext?, resource: Option<Managed>, typeMD: Option<TypeMetaData>) returns (r: Result<ManagementContext>)
      requires parent != null ==> parent.ChainOk()
      ensures r.Failure? <==> parent == null
      ensures r.Failure? ==> r.error == NullPointer
      ensures r.Success? ==>
                r.value.ChainOk() && r.value.parent == parent && r.value.container.None? &&
                r.value.resource == resource && r.value.typeMD == typeMD
    {
      if parent == null {
        return Failure(NullPointer);
      }
      var c := new ManagementContext(parent, None, resource, typeMD);
      r := Success(c);
    }

    /** setScopingData: stores `data` under `scopeType`, replacing what was there. */
    method SetScopingData(scopeType: ScopeType, data: Option<ScopingData>)
      modifies this`scopingDataList
      ensures scopingDataList == old(scopingDataList)[scopeType := data]
    {
      scopingDataList := scopingDataList[scopeType := data];
    }

    /** The non-null scoping data this context holds for `scopeType`, as a list of zero or one. */
    ghost function OwnScoping(scopeType: ScopeType): seq<ScopingData>
      reads this`scopingDataList
    {
      if scopeType in scopingDataList && scopingDataList[scopeType].Some? then [scopingDataList[scopeType].value] else []
    }

    /** getScopingData: walks the parent chain from this context and collects the data found. */
    method GetScopingData(scopeType: ScopeType) returns (list: seq<ScopingData>)
      requires ChainOk()
      ensures list == ScopingFrom(this, scopeType)
    {
      list := [];
      var current := this;
      while current != null
        invariant current != null ==> current.ChainOk()
        invariant list + ScopingFrom(current, scopeType) == ScopingFrom(this, scopeType)
        decreases if current == null then 0 else current.depth + 1
      {
        ghost var rest := ScopingFrom(current.parent, scopeType);
        var scopedData := if scopeType in current.scopingDataList then current.scopingDataList[scopeType] else None;
        if scopedData.Some? {
          assert ScopingFrom(current, scopeType) == [scopedData.value] + rest;
          list := list + [scopedData.value];
        } else {
          assert ScopingFrom(current, scopeType) == rest;
        }
        current := current.parent;
      }
    }

    /** The context and its ancestors. */
    ghost function Chain(): set<ManagementContext> {
      {this} + ancestors
    }

    /**
     * The kernel container of the nearest context on the chain, from this one up, whose
     * container is a kernel container; none when no context on the chain has one.
     */
    ghost function NearestKernel(): (r: Option<ContainerRef>)
      requires ChainOk()
      decreases depth
      ensures r.Some? ==> r.value.isKernel && exists c :: c in Chain() && c.container == r
      ensures r.None? ==> forall c :: c in Chain() ==> c.container.None? || !c.container.value.isKernel
    {
      if container.Some? && container.value.isKernel then container
      else if parent == null then None
      else parent.NearestKernel()
    }

    /** findContainer: walks the parent chain until a context has a kernel container or the root is passed. */
    method FindContainer() returns (r: Option<ContainerRef>)
      requires ChainOk()
      ensures r == NearestKernel()
    {
      var current: ManagementContext := this;
      while true
        invariant current.ChainOk() && current.Chain() <= Chain()
        invariant current.NearestKernel() == NearestKernel()
        decreases current.depth
      {
        if current.container.Some? && current.container.value.isKernel {
          return current.container;
        } else if current.parent == null {
          return None;
        }
        current := current.parent;
      }
    }

    /**
     * unregister: drops the registration of `o` and asks each provider that manages the
     * dropped context to unmanage the name it gave; the calls are returned, in no particular
     * order. An object that is not registered changes nothing.
     */
    method Unregister(o: Managed) returns (calls: set<Unmanage>)
      modifies this`registrations
      ensures registrations == old(registrations) - {o}
      ensures o !in old(registrations) ==> calls == {}
      ensures o in old(registrations) ==>
                var m := old(registrations)[o].managedSet;
                calls == set p | p in m :: Unmanage(p, m[p])
    {
      if o !in registrations {
        return {};
      }
      var context := registrations[o];
      registrations := registrations - {o};
      var m := context.managedSet;
      var providers := m.Keys;
      calls := {};
      while providers != {}
        invariant providers <= m.Keys
        invariant calls == set p | p in m && p !in providers :: Unmanage(p, m[p])
        decreases |providers|
      {
        var p :| p in providers;
        calls := calls + {Unmanage(p, m[p])};
        providers := providers - {p};
      }
    }
  }

  /** The scoping data of `c` and its ancestors, nearest first, skipping those with none. */
  ghost function ScopingFrom(c: ManagementContext?, scopeType: ScopeType): seq<ScopingData>
    requires c != null ==> c.ChainOk()
    reads if c == null then {} else {c} + c.ancestors
    decreases if c == null then 0 else c.depth + 1
  {
    if c == null then [] else c.OwnScoping(scopeType) + ScopingFrom(c.parent, scopeType)
  }

  /** What a context holds itself for a scope type comes first, so data just set is found first. */
  lemma OwnDataFirst(c: ManagementContext, scopeType: ScopeType)
    requires c.ChainOk()
    requires scopeType in c.scopingDataList && c.scopingDataList[scopeType].Some?
    ensures |ScopingFrom(c, scopeType)| > 0 && ScopingFrom(c, scopeType)[0] == c.scopingDataList[scopeType].value
  {
  }

  /** Each context of the chain contributes at most one value. */
  lemma {:induction false} ScopingLength(c: ManagementContext?, scopeType: ScopeType)
    requires c != null ==> c.ChainOk()
    ensures |ScopingFrom(c, scopeType)| <= if c == null then 0 else c.depth + 1
    decreases if c == null then 0 else c.depth + 1
  {
    if c != null {
      ScopingLength(c.parent, scopeType);
    }
  }
}
