/**
 * The portal container's own bookkeeping: the set of web application contexts that share its
 * configuration (ordered by the dependency comparator when the portal container has
 * dependencies), the class loader memoised per web application, the started flag, and the
 * static lookups that fall back to defaults when there is no portal container configuration.
 */
module ApplicationContainers {
  import opened Wrappers
  import opened Seqs
  import opened DependencyOrder

  /** A class loader, by how it was made. */
  datatype ClassLoaderRef =
    | PortalClassLoader(container: string)        // the merged loader of a portal container
    | ContextClassLoader(id: nat)                 // a loader the model does not look into
    | UnifiedLoader(loaders: seq<ClassLoaderRef>) // a UnifiedClassLoader over its delegates

  /** An opaque setting value. */
  datatype Setting = Setting(id: nat)

  /** The answers of the portal container configuration, when there is one. */
  datatype PortalConfig = PortalConfig(
    isPortalContainerName: string -> bool,
    restContextName: string -> string,
    realmName: string -> string,
    setting: (string, string) -> Option<Setting>,
    isScopeValid: (string, string) -> bool)

  /** The default portal container, REST context and realm names fixed at class initialization. */
  datatype Defaults = Defaults(portalContainer: string, restContext: string, realm: string)

  /** isPortalContainerName. */
  function IsPortalContainerName(config: Option<PortalConfig>, defaults: Defaults, n: string): (r: bool)
    ensures config.None? ==> (r <==> n == defaults.portalContainer)
    ensures config.Some? ==> r == config.value.isPortalContainerName(n)
  {
    match config
    case None => defaults.portalContainer == n
    case Some(c) => c.isPortalContainerName(n)
  }

  /** getRestContextName(portalContainerName). */
  function RestContextName(config: Option<PortalConfig>, defaults: Defaults, container: string): (r: string)
    ensures config.None? ==> r == defaults.restContext
    ensures config.Some? ==> r == config.value.restContextName(container)
  {
    match config
    case None => defaults.restContext
    case Some(c) => c.restContextName(container)
  }

  /** getRealmName(portalContainerName). */
  function RealmName(config: Option<PortalConfig>, defaults: Defaults, container: string): (r: string)
    ensures config.None? ==> r == defaults.realm
    ensures config.Some? ==> r == config.value.realmName(container)
  {
    match config
    case None => defaults.realm
    case Some(c) => c.realmName(container)
  }

  /** getSetting(portalContainerName, settingName); `None` for null. */
  function SettingOf(config: Option<PortalConfig>, container: string, settingName: string): (r: Option<Setting>)
    ensures config.None? ==> r.None?
    ensures config.Some? ==> r == config.value.setting(container, settingName)
  {
    match config
    case None => None
    case Some(c) => c.setting(container, settingName)
  }

  /** isScopeValid(container, context). */
  function IsScopeValid(config: Option<PortalConfig>, container: string, context: string): (r: bool)
    ensures config.None? ==> r
    ensures config.Some? ==> r == config.value.isScopeValid(container, context)
  {
    match config
    case None => true
    case Some(c) => c.isScopeValid(container, context)
  }

  /**
   * Without a configuration, only the default name is a portal container name, every portal
   * container has the default REST context and realm, no setting is defined and every scope
   * is valid; with one, the configuration answers.
   */
  lemma Fallbacks(config: Option<PortalConfig>, defaults: Defaults, container: string, context: string, n: string, settingName: string)
    ensures config.None? ==>
              (IsPortalContainerName(config, defaults, n) <==> n == defaults.portalContainer) &&
              RestContextName(config, defaults, container) == defaults.restContext &&
              RealmName(config, defaults, container) == defaults.realm &&
              SettingOf(config, container, settingName).None? &&
              IsScopeValid(config, container, context)
    ensures config.Some? ==>
              IsPortalContainerName(config, defaults, n) == config.value.isPortalContainerName(n) &&
              RestContextName(config, defaults, container) == config.value.restContextName(container) &&
              RealmName(config, defaults, container) == config.value.realmName(container) &&
              SettingOf(config, container, settingName) == config.value.setting(container, settingName) &&
              IsScopeValid(config, container, context) == config.value.isScopeValid(container, context)
  {
  }

  /** The key the comparator orders contexts by. */
  function NameOf(c: WebAppInitContext): string {
    c.contextName
  }

  class ApplicationContainer {
    /** The portal container's name, the servlet context name of its own context. */
    const name: string
    /** The dependency list of the comparator, or `None` when no order is required. */
    const order: Option<seq<string>>
    /** The web application contexts sharing the configuration, in iteration order. */
    var webAppContexts: seq<WebAppInitContext>
    /** The class loader of each web application, by servlet context name. */
    var webAppClassLoaders: map<string, ClassLoaderRef>
    var started: bool

    /**
     * No context occurs twice, the contexts follow the comparator when there is one, and the
     * container's own name keeps the merged portal loader.
     */
    ghost predicate Valid()
      reads this`webAppContexts, this`webAppClassLoaders
    {
      Distinct(webAppContexts) &&
      (order.Some? ==> Ordered(order.value, webAppContexts, NameOf)) &&
      name in webAppClassLoaders && webAppClassLoaders[name] == PortalClassLoader(name)
    }

    /**
     * A portal container for `portalContext`; `deps` is the dependency list the configuration
     * gives for its name, `None` when there is no configuration or no list.
     */
    constructor (portalContext: WebAppInitContext, deps: Option<seq<string>>)
      ensures Valid()
      ensures name == portalContext.contextName
      ensures order.None? <==> deps.None? || deps.value == []
      ensures order.Some? ==> order == deps
      ensures webAppContexts == [portalContext]
      ensures webAppClassLoaders == map[name := PortalClassLoader(name)]
      ensures !started
    {
      name := portalContext.contextName;
      order := if deps.None? || deps.value == [] then None else deps;
      webAppContexts := [portalContext];
      webAppClassLoaders := map[portalContext.contextName := PortalClassLoader(portalContext.contextName)];
      started := false;
    }

    /**
     * registerContext: a context not yet in the set is added, at its comparator position when
     * there is an order (appended otherwise); a context already in the set changes nothing.
     */
    method RegisterContext(ctx: WebAppInitContext)
      requires Valid()
      modifies this`webAppContexts
      ensures Valid()
      ensures ctx in old(webAppContexts) ==> webAppContexts == old(webAppContexts)
      ensures ctx !in old(webAppContexts) ==>
                webAppContexts == (if order.None? then old(webAppContexts) + [ctx]
                                   else InsertOrdered(order.value, old(webAppContexts), ctx, NameOf))
      ensures forall c :: c in webAppContexts <==> c in old(webAppContexts) || c == ctx
    {
      if ctx !in webAppContexts {
        if order.None? {
          DistinctSnoc(webAppContexts, ctx);
          webAppContexts := webAppContexts + [ctx];
        } else {
          InsertOrderedKeepsOrder(order.value, webAppContexts, ctx, NameOf);
          InsertOrderedDistinct(order.value, webAppContexts, ctx, NameOf);
          InsertOrderedPermutes(order.value, webAppContexts, ctx, NameOf);
          ghost var before := webAppContexts;
          webAppContexts := InsertOrdered(order.value, webAppContexts, ctx, NameOf);
          assert forall c :: c in webAppContexts <==> c in multiset(before) + multiset{ctx};
        }
      }
    }

    /**
     * unregisterContext: a context in the set is removed, the others keeping their order; a
     * context not in the set changes nothing.
     */
    method UnregisterContext(ctx: WebAppInitContext)
      requires Valid()
      modifies this`webAppContexts
      ensures Valid()
      ensures ctx !in old(webAppContexts) ==> webAppContexts == old(webAppContexts)
      ensures webAppContexts == Without(old(webAppContexts), ctx)
      ensures forall c :: c in webAppContexts <==> c in old(webAppContexts) && c != ctx
    {
      WithoutMembers(webAppContexts, ctx);
      WithoutDistinct(webAppContexts, ctx);
      if ctx in webAppContexts {
        if order.Some? {
          WithoutKeepsOrder(order.value, webAppContexts, ctx, NameOf);
        }
        webAppContexts := Without(webAppContexts, ctx);
      }
    }

    /**
     * getWebAppClassLoader: the loader recorded for the context's name, or else a new unified
     * loader over `threadLoader` (the current thread's context class loader) and the merged
     * portal loader, which is recorded. Recorded loaders never change, so repeated calls for
     * one name return the same loader, and the container's own name gives the portal loader.
     */
    method GetWebAppClassLoader(ctx: WebAppInitContext, threadLoader: ClassLoaderRef) returns (cl: ClassLoaderRef)
      requires Valid()
      modifies this`webAppClassLoaders
      ensures Valid()
      ensures ctx.contextName in old(webAppClassLoaders) ==>
                cl == old(webAppClassLoaders)[ctx.contextName] && webAppClassLoaders == old(webAppClassLoaders)
      ensures ctx.contextName !in old(webAppClassLoaders) ==>
                cl == UnifiedLoader([threadLoader, PortalClassLoader(name)]) &&
                webAppClassLoaders == old(webAppClassLoaders)[ctx.contextName := cl]
      ensures ctx.contextName == name ==> cl == PortalClassLoader(name)
      ensures forall n :: n in old(webAppClassLoaders) ==> n in webAppClassLoaders && webAppClassLoaders[n] == old(webAppClassLoaders)[n]
    {
      var contextName := ctx.contextName;
      if contextName in webAppClassLoaders {
        return webAppClassLoaders[contextName];
      }
      cl := UnifiedLoader([threadLoader, PortalClassLoader(name)]);
      webAppClassLoaders := webAppClassLoaders[contextName := cl];
    }

    /** isStarted. */
    function IsStarted(): bool
      reads this`started
    {
      started
    }

    /** start: the kernel container's own start is not modelled; afterwards the container is started. */
    method Start()
      modifies this`started
      ensures IsStarted()
    {
      started := true;
    }

    /** stop: afterwards the container is no longer started. */
    method Stop()
      modifies this`started
      ensures !IsStarted()
    {
      started := false;
    }
  }
}
