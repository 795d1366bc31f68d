/**
 * The portal configuration service: its start-up parameters, the lookups of portals and pages
 * guarded by the access control list, the navigations a user can make, the rewriting of the
 * owner of a model object graph, and the registration of the new-portal-config listener.
 */
module UserPortalConfig {
  import opened Wrappers
  import opened JavaLang
  import opened Tools

  // ---------------------------------------------------------------- parameters

  /** An import mode, by the name of its enum constant. */
  datatype ImportMode = ImportMode(name: string)

  const CONSERVE: ImportMode := ImportMode("CONSERVE")

  /**
   * The value parameter `name` of the init params: none when the params or the parameter are
   * missing, and otherwise the parameter's value, which may be null.
   */
  function ValueParam(params: Option<map<string, Option<string>>>, name: string): Option<Option<string>> {
    if params.None? || name !in params.value then None else Some(params.value[name])
  }

  /**
   * A boolean parameter: true when absent, otherwise whether its lower-cased, trimmed value is
   * "true"; a parameter with a null value throws NullPointerException.
   */
  function FlagParam(param: Option<Option<string>>): (r: Result<bool>)
    ensures r.Failure? <==> param == Some(None)
    ensures r.Failure? ==> r.error == NullPointer
    ensures param.None? ==> r == Success(true)
    ensures param.Some? && param.value.Some? ==> r == Success(Trim(ToLower(param.value.value)) == "true")
  {
    match param
    case None => Success(true)
    case Some(None) => Failure(NullPointer)
    case Some(Some(v)) => Success(Trim(ToLower(v)) == "true")
  }

  /** "true" is its own lower-case form. */
  lemma LowerTrue()
    ensures ToLower("true") == "true"
  {
    var t := "true";
    forall i | 0 <= i < |t| ensures ToLower(t)[i] == t[i] {
      assert !IsAsciiUpper(t[i]);
    }
  }

  /** A flag is set exactly by a value that reads "true" up to case once trimmed. */
  lemma FlagMeansTrue(v: string)
    ensures FlagParam(Some(Some(v))) == Success(EqualsIgnoreCase(Trim(v), "true"))
  {
    TrimLower(v);
    LowerTrue();
    EqualsIgnoreCaseLower(Trim(v), "true");
  }

  /** A flag depends neither on the case of its value nor on blanks around it. */
  lemma FlagIgnoresCaseAndBlanks(pre: string, w: string, v: string, post: string)
    requires AllTrimmed(pre) && AllTrimmed(post) && EqualsIgnoreCase(w, v)
    ensures FlagParam(Some(Some(pre + w + post))) == FlagParam(Some(Some(v)))
  {
    LowerConcat(pre + w, post);
    LowerConcat(pre, w);
    CaseKeepsBlanks(pre);
    CaseKeepsBlanks(post);
    TrimPadded(pre, ToLower(w), post);
    EqualsIgnoreCaseLower(w, v);
  }

  /** "true" is already lower-case and trimmed, so it sets a flag. */
  lemma TrueSetsFlag()
    ensures FlagParam(Some(Some("true"))) == Success(true)
  {
    LowerTrue();
    TrimIdentity("true");
  }

  /**
   * The default import mode: CONSERVE when absent, otherwise the constant named by the
   * upper-cased, trimmed value; a name that is none of `modeNames`, the names of the enum's
   * constants, throws IllegalArgumentException, and a null value NullPointerException.
   */
  function ImportModeParam(param: Option<Option<string>>, modeNames: set<string>): (r: Result<ImportMode>)
    ensures param.None? ==> r == Success(CONSERVE)
    ensures param == Some(None) ==> r == Failure(NullPointer)
    ensures r.Success? && param.Some? ==> r.value.name in modeNames
    ensures param.Some? && param.value.Some? ==>
              (r.Failure? <==> Trim(ToUpper(param.value.value)) !in modeNames)
    ensures param.Some? && param.value.Some? && r.Success? ==>
              r.value == ImportMode(Trim(ToUpper(param.value.value)))
    ensures param.Some? && param.value.Some? && r.Failure? ==> r.error == IllegalArgument
  {
    match param
    case None => Success(CONSERVE)
    case Some(None) => Failure(NullPointer)
    case Some(Some(v)) =>
      var name := Trim(ToUpper(v));
      if name in modeNames then Success(ImportMode(name)) else Failure(IllegalArgument)
  }

  /** The mode is named by the trimmed value in upper case, when the enum has that constant. */
  lemma ImportModeNamesTrimmedValue(v: string, modeNames: set<string>)
    ensures ImportModeParam(Some(Some(v)), modeNames) ==
              (if ToUpper(Trim(v)) in modeNames then Success(ImportMode(ToUpper(Trim(v))))
               else Failure(IllegalArgument))
  {
    TrimUpper(v);
  }

  /** The mode depends neither on the case of the value nor on blanks around it. */
  lemma ImportModeIgnoresCaseAndBlanks(pre: string, w: string, v: string, post: string, modeNames: set<string>)
    requires AllTrimmed(pre) && AllTrimmed(post) && EqualsIgnoreCase(w, v)
    ensures ImportModeParam(Some(Some(pre + w + post)), modeNames) == ImportModeParam(Some(Some(v)), modeNames)
  {
    assert Trim(ToUpper(pre + w + post)) == Trim(ToUpper(v)) by {
      UpperConcat(pre + w, post);
      UpperConcat(pre, w);
      CaseKeepsBlanks(pre);
      CaseKeepsBlanks(post);
      TrimPadded(pre, ToUpper(w), post);
      EqualsIgnoreCaseUpper(w, v);
    }
  }

  // ---------------------------------------------------------------- the environment

  /** A portal configuration and a page, as the data storage returns them. */
  datatype PortalConfig = PortalConfig(name: string, id: nat)
  datatype Page = Page(id: string)

  /**
   * What the service sees of the data storage: the portal configuration and the page of each
   * name, the portal names, and the names of the group sites.
   */
  datatype Storage = Storage(portalConfig: string -> Option<PortalConfig>, page: string -> Option<Page>,
                             allPortalNames: seq<string>, groupSiteNames: seq<string>)

  /** What the service sees of the access control list. */
  datatype Acl = Acl(superUser: string, makableMT: string,
                     portalPermission: PortalConfig -> bool, pagePermission: Page -> bool)

  /** What the service sees of the organization service: group ids, all of them or by membership. */
  datatype Organization = Organization(allGroups: Option<seq<string>>,
                                       groupsByMembership: (string, string) -> Option<seq<string>>)

  /** The configuration of a portal as a user sees it. */
  datatype UserPortal = UserPortal(portal: PortalConfig, portalName: string, accessUser: string)

  /** A plugin handed to initListener. */
  datatype Plugin = NewPortalConfigListener(id: nat) | OtherPlugin(id: nat)

  /** The names among `names` whose configuration exists and is permitted, in order. */
  function PermittedPortals(storage: Storage, acl: Acl, names: seq<string>): seq<string> {
    if names == [] then []
    else
      var last := names[|names| - 1];
      var config := storage.portalConfig(last);
      PermittedPortals(storage, acl, names[..|names| - 1]) +
        if config.None? || !acl.portalPermission(config.value) then [] else [last]
  }

  /** A name is kept exactly when it is listed and its configuration exists and is permitted. */
  lemma {:induction false} PermittedPortalsMembers(storage: Storage, acl: Acl, names: seq<string>, n: string)
    ensures n in PermittedPortals(storage, acl, names) <==>
              n in names && storage.portalConfig(n).Some? && acl.portalPermission(storage.portalConfig(n).value)
  {
    if names != [] {
      PermittedPortalsMembers(storage, acl, names[..|names| - 1], n);
      assert names == names[..|names| - 1] + [names[|names| - 1]];
    }
  }

  /** The kept names keep their order: the names kept from a prefix are a prefix of those kept. */
  lemma {:induction false} PermittedPortalsPrefix(storage: Storage, acl: Acl, names: seq<string>, i: nat)
    requires i <= |names|
    ensures PermittedPortals(storage, acl, names[..i]) <= PermittedPortals(storage, acl, names)
  {
    if i < |names| {
      PermittedPortalsPrefix(storage, acl, names[..|names| - 1], i);
      assert names[..|names| - 1][..i] == names[..i];
    } else {
      assert names[..i] == names;
    }
  }

  /** The ids kept when there is no set of existing names or the set holds them, in order. */
  function MakableFrom(ids: seq<string>, existing: Option<set<string>>): seq<string> {
    if ids == [] then []
    else
      var id := ids[|ids| - 1];
      MakableFrom(ids[..|ids| - 1], existing) + if existing.None? || id in existing.value then [id] else []
  }

  /** A navigation is offered exactly when it is the id of a group and, if required, an existing site. */
  lemma {:induction false} MakableMembers(ids: seq<string>, existing: Option<set<string>>, n: string)
    ensures n in MakableFrom(ids, existing) <==> n in ids && (existing.None? || n in existing.value)
  {
    if ids != [] {
      MakableMembers(ids[..|ids| - 1], existing, n);
      assert ids == ids[..|ids| - 1] + [ids[|ids| - 1]];
    }
  }

  /** The offered navigations keep the group order: those of a prefix are a prefix of all. */
  lemma {:induction false} MakablePrefix(ids: seq<string>, existing: Option<set<string>>, i: nat)
    requires i <= |ids|
    ensures MakableFrom(ids[..i], existing) <= MakableFrom(ids, existing)
  {
    if i < |ids| {
      MakablePrefix(ids[..|ids| - 1], existing, i);
      assert ids[..|ids| - 1][..i] == ids[..i];
    } else {
      assert ids[..i] == ids;
    }
  }

  /** The names of the first `k` sites, as a set. */
  function NamesUpTo(sites: seq<string>, k: nat): set<string>
    requires k <= |sites|
  {
    if k == 0 then {} else NamesUpTo(sites, k - 1) + {sites[k - 1]}
  }

  /** The set holds exactly the names of the first `k` sites. */
  lemma {:induction false} NamesUpToMembers(sites: seq<string>, k: nat, n: string)
    requires k <= |sites|
    ensures n in NamesUpTo(sites, k) <==> n in sites[..k]
  {
    if k > 0 {
      NamesUpToMembers(sites, k - 1, n);
      assert sites[..k] == sites[..k - 1] + [sites[k - 1]];
    }
  }

  class UserPortalConfigService {
    const storage: Storage
    const acl: Acl
    const organization: Organization
    var createUserPortal: bool
    var destroyUserPortal: bool
    const defaultImportMode: ImportMode
    /** The first new-portal-config listener registered, if any. */
    var newPortalConfigListener: Option<nat>
    /** The listeners merged into the first, in the order they came. */
    var mergedListeners: seq<nat>

    constructor (storage: Storage, acl: Acl, organization: Organization,
                 createUserPortal: bool, destroyUserPortal: bool, defaultImportMode: ImportMode)
      ensures this.storage == storage && this.acl == acl && this.organization == organization
      ensures this.createUserPortal == createUserPortal && this.destroyUserPortal == destroyUserPortal
      ensures this.defaultImportMode == defaultImportMode
      ensures newPortalConfigListener.None? && mergedListeners == []
    {
      this.storage := storage;
      this.acl := acl;
      this.organization := organization;
      this.createUserPortal := createUserPortal;
      this.destroyUserPortal := destroyUserPortal;
      this.defaultImportMode := defaultImportMode;
      newPortalConfigListener := None;
      mergedListeners := [];
    }

    /**
     * The constructor's parameter parsing: "create.user.portal" and "destroy.user.portal" as
     * flags and "default.import.mode" as an import mode, each failure thrown in that order.
     */
    static method Create(storage: Storage, acl: Acl, organization: Organization,
                         params: Option<map<string, Option<string>>>, modeNames: set<string>)
      returns (r: Result<UserPortalConfigService>)
      ensures var create := FlagParam(ValueParam(params, "create.user.portal"));
              var destroy := FlagParam(ValueParam(params, "destroy.user.portal"));
              var mode := ImportModeParam(ValueParam(params, "default.import.mode"), modeNames);
              (r.Failure? <==> create.Failure? || destroy.Failure? || mode.Failure?) &&
              (r.Failure? ==> r.error == if create.Failure? then create.error
                                         else if destroy.Failure? then destroy.error
                                         else mode.error) &&
              (r.Success? ==>
                 r.value.storage == storage && r.value.acl == acl && r.value.organization == organization &&
                 r.value.createUserPortal == create.value && r.value.destroyUserPortal == destroy.value &&
                 r.value.defaultImportMode == mode.value &&
                 r.value.newPortalConfigListener.None? && r.value.mergedListeners == [])
    {
      var create := FlagParam(ValueParam(params, "create.user.portal"));
      if create.Failure? {
        return Failure(create.error);
      }
      var destroy := FlagParam(ValueParam(params, "destroy.user.portal"));
      if destroy.Failure? {
        return Failure(destroy.error);
      }
      var mode := ImportModeParam(ValueParam(params, "default.import.mode"), modeNames);
      if mode.Failure? {
        return Failure(mode.error);
      }
      var service := new UserPortalConfigService(storage, acl, organization, create.value, destroy.value, mode.value);
      r := Success(service);
    }

    /** getUserPortalConfig: null unless the portal exists and the ACL permits it. */
    function GetUserPortalConfig(portalName: string, accessUser: string): (r: Option<UserPortal>)
      ensures r.Some? <==> storage.portalConfig(portalName).Some? && acl.portalPermission(storage.portalConfig(portalName).value)
      ensures r.Some? ==> r.value == UserPortal(storage.portalConfig(portalName).value, portalName, accessUser)
    {
      var portal := storage.portalConfig(portalName);
      if portal.None? || !acl.portalPermission(portal.value) then None
      else Some(UserPortal(portal.value, portalName, accessUser))
    }

    /** getPage(pageId): null for a null id, without asking the storage; the stored page otherwise. */
    function GetPage(pageId: Option<string>): (r: Option<Page>)
      ensures pageId.None? ==> r.None?
      ensures pageId.Some? ==> r == storage.page(pageId.value)
    {
      if pageId.None? then None else storage.page(pageId.value)
    }

    /** getPage(pageId, accessUser): the page only when it exists and the ACL permits it; the user is not used. */
    function GetPermittedPage(pageId: Option<string>, accessUser: string): (r: Option<Page>)
      ensures r.Some? <==> GetPage(pageId).Some? && acl.pagePermission(GetPage(pageId).value)
      ensures r.Some? ==> r == GetPage(pageId) && pageId.Some?
    {
      var page := GetPage(pageId);
      if page.None? || !acl.pagePermission(page.value) then None else page
    }

    /**
     * getAllPortalNames: the storage's portal names, with each name whose configuration is
     * missing or not permitted removed through the iterator.
     */
    method GetAllPortalNames() returns (list: seq<string>)
      ensures list == PermittedPortals(storage, acl, storage.allPortalNames)
    {
      var names := storage.allPortalNames;
      list := names;
      var i := 0;
      ghost var seen := 0;
      while i < |list|
        invariant 0 <= i <= |list| && 0 <= seen <= |names|
        invariant list[..i] == PermittedPortals(storage, acl, names[..seen])
        invariant list[i..] == names[seen..]
        decreases |list| - i
      {
        assert names[..seen + 1][..seen] == names[..seen];
        assert names[seen] == list[i] && names[seen + 1..] == list[i + 1..];
        var name := list[i];
        var config := storage.portalConfig(name);
        ghost var before := list;
        if config.None? || !acl.portalPermission(config.value) {
          list := list[..i] + list[i + 1..];
          assert list[..i] == before[..i] && list[i..] == before[i + 1..];
        } else {
          assert list[..i + 1] == list[..i] + [name];
          i := i + 1;
        }
        seen := seen + 1;
      }
      assert names[seen..] == [] ==> names[..seen] == names;
    }

    /**
     * getMakableNavigations: the trimmed ids of the groups the user can manage (all groups for
     * the super user, the groups of the ACL's membership type otherwise), in group order; with
     * `withSite`, only the ids that name an existing group site. A null group collection gives none.
     */
    method GetMakableNavigations(remoteUser: string, withSite: bool) returns (list: seq<string>)
      ensures var groups := if remoteUser == acl.superUser then organization.allGroups
                            else organization.groupsByMembership(remoteUser, acl.makableMT);
              var existing := if withSite then Some(NamesUpTo(storage.groupSiteNames, |storage.groupSiteNames|)) else None;
              list == if groups.None? then [] else MakableFrom(TrimAll(groups.value), existing)
    {
      var groups: Option<seq<string>>;
      if remoteUser == acl.superUser {
        groups := organization.allGroups;
      } else {
        groups := organization.groupsByMembership(remoteUser, acl.makableMT);
      }
      list := [];
      if groups.Some? {
        var existingNames: Option<set<string>> := None;
        if withSite {
          var names := SiteNames(storage.groupSiteNames);
          existingNames := Some(names);
        }
        list := MakableIds(TrimAll(groups.value), existingNames);
      }
    }

    /** The names of the group sites, gathered into a set. */
    static method SiteNames(sites: seq<string>) returns (names: set<string>)
      ensures names == NamesUpTo(sites, |sites|)
    {
      names := {};
      var k := 0;
      while k < |sites|
        invariant 0 <= k <= |sites|
        invariant names == NamesUpTo(sites, k)
      {
        names := names + {sites[k]};
        k := k + 1;
      }
    }

    /**
     * The loop over the groups, given their trimmed ids: each id kept when there is no set of
     * names or the set holds it.
     */
    static method MakableIds(ids: seq<string>, existingNames: Option<set<string>>) returns (list: seq<string>)
      ensures list == MakableFrom(ids, existingNames)
    {
      list := [];
      var i := 0;
      while i < |ids|
        invariant 0 <= i <= |ids|
        invariant list == MakableFrom(ids[..i], existingNames)
      {
        assert ids[..i + 1][..i] == ids[..i];
        var groupId := ids[i];
        if existingNames.None? || groupId in existingNames.value {
          list := list + [groupId];
        }
        i := i + 1;
      }
      assert ids[..i] == ids;
    }

    /**
     * initListener: the first new-portal-config listener is kept, each later one is merged
     * into it, and any other plugin is ignored.
     */
    method InitListener(listener: Plugin)
      modifies this`newPortalConfigListener, this`mergedListeners
      ensures listener.OtherPlugin? ==>
                newPortalConfigListener == old(newPortalConfigListener) && mergedListeners == old(mergedListeners)
      ensures listener.NewPortalConfigListener? && old(newPortalConfigListener).None? ==>
                newPortalConfigListener == Some(listener.id) && mergedListeners == old(mergedListeners)
      ensures listener.NewPortalConfigListener? && old(newPortalConfigListener).Some? ==>
                newPortalConfigListener == old(newPortalConfigListener) &&
                mergedListeners == old(mergedListeners) + [listener.id]
    {
      if listener.NewPortalConfigListener? {
        if newPortalConfigListener.None? {
          newPortalConfigListener := Some(listener.id);
        } else {
          mergedListeners := mergedListeners + [listener.id];
        }
      }
    }
  }

  // ---------------------------------------------------------------- updateOwnership

  /** The owner type and owner id of a page or of an application state; either may be null. */
  datatype Owner = Owner(ownerType: Option<string>, ownerId: Option<string>)

  /** The state of an application: transient, with an owner, or of another kind. */
  datatype AppState = TransientState(owner: Owner) | OtherState(id: nat)

  /**
   * A node of the model object graph: a container, which is a page when it has an owner, with
   * its children; an application with its state, which may be null; or any other object.
   */
  datatype ModelObject =
    | Container(page: Option<Owner>, children: seq<ModelObject>)
    | Application(state: Option<AppState>)
    | OtherObject(id: nat)

  /**
   * updateOwnership: every page gets the new owner, and every transient application state
   * with a null owner type or id gets it too; a state of another kind cannot be cast and
   * throws ClassCastException.
   */
  function UpdateOwnership(o: ModelObject, ownerType: string, ownerId: string): (r: Result<ModelObject>)
    ensures r.Failure? ==> r.error == ClassCast && !o.OtherObject?
    ensures r.Success? ==>
              r.value.Container? == o.Container? && r.value.Application? == o.Application? &&
              (o.OtherObject? ==> r.value == o) &&
              (o.Container? ==> |r.value.children| == |o.children| && r.value.page.Some? == o.page.Some?)
    decreases o, 1
  {
    match o
    case Container(page, children) =>
      var p := if page.Some? then Some(Owner(Some(ownerType), Some(ownerId))) else None;
      (match UpdateChildren(children, ownerType, ownerId)
       case Failure(e) => Failure(e)
       case Success(cs) => Success(Container(p, cs)))
    case Application(state) =>
      (match state
       case None => Success(o)
       case Some(OtherState(_)) => Failure(ClassCast)
       case Some(TransientState(owner)) =>
         if owner.ownerType.None? || owner.ownerId.None? then
           Success(Application(Some(TransientState(Owner(Some(ownerType), Some(ownerId))))))
         else Success(o))
    case OtherObject(_) => Success(o)
  }

  /** updateOwnership of each child, in order; the first failure stops the walk. */
  function UpdateChildren(cs: seq<ModelObject>, ownerType: string, ownerId: string): (r: Result<seq<ModelObject>>)
    ensures r.Failure? ==> r.error == ClassCast && cs != []
    ensures r.Success? ==> |r.value| == |cs|
    ensures r.Success? ==> forall i :: 0 <= i < |cs| ==> UpdateOwnership(cs[i], ownerType, ownerId) == Success(r.value[i])
    ensures r.Failure? <==> exists i :: 0 <= i < |cs| && UpdateOwnership(cs[i], ownerType, ownerId).Failure?
    decreases cs, 0
  {
    if cs == [] then Success([])
    else
      match UpdateOwnership(cs[0], ownerType, ownerId)
      case Failure(e) => Failure(e)
      case Success(c) =>
        match UpdateChildren(cs[1..], ownerType, ownerId)
        case Failure(e) => Failure(e)
        case Success(rest) => Success([c] + rest)
  }

  /** Every page is owned by (ownerType, ownerId) and every transient state has both owner fields. */
  predicate Owned(o: ModelObject, ownerType: string, ownerId: string)
    decreases o, 1
  {
    match o
    case Container(page, children) =>
      (page.Some? ==> page.value == Owner(Some(ownerType), Some(ownerId))) && AllOwned(children, ownerType, ownerId)
    case Application(state) =>
      state.Some? && state.value.TransientState? ==> state.value.owner.ownerType.Some? && state.value.owner.ownerId.Some?
    case OtherObject(_) => true
  }

  predicate AllOwned(cs: seq<ModelObject>, ownerType: string, ownerId: string)
    decreases cs, 0
  {
    cs == [] || (Owned(cs[0], ownerType, ownerId) && AllOwned(cs[1..], ownerType, ownerId))
  }

  /**
   * `r` is `o` with the owner rule applied: a page gets the new owner, a transient state gets
   * it exactly when its owner type or id is null, and everything else is kept, child by child.
   */
  predicate Rewritten(o: ModelObject, r: ModelObject, ownerType: string, ownerId: string)
    decreases o
  {
    var newOwner := Owner(Some(ownerType), Some(ownerId));
    match o
    case Container(page, children) =>
      r.Container? && r.page == (if page.Some? then Some(newOwner) else None) &&
      |r.children| == |children| &&
      forall i :: 0 <= i < |children| ==> Rewritten(children[i], r.children[i], ownerType, ownerId)
    case Application(state) =>
      (match state
       case None => r == o
       case Some(TransientState(owner)) =>
         if owner.ownerType.Some? && owner.ownerId.Some? then r == o
         else r == Application(Some(TransientState(newOwner)))
       case Some(OtherState(_)) => false)
    case OtherObject(_) => r == o
  }

  /** Whether the graph holds an application state that is not transient. */
  predicate HasOtherState(o: ModelObject)
    decreases o, 1
  {
    match o
    case Container(_, children) => AnyOtherState(children)
    case Application(state) => state.Some? && state.value.OtherState?
    case OtherObject(_) => false
  }

  predicate AnyOtherState(cs: seq<ModelObject>)
    decreases cs, 0
  {
    cs != [] && (HasOtherState(cs[0]) || AnyOtherState(cs[1..]))
  }

  /**
   * updateOwnership fails exactly when the graph holds a state that is not transient; on
   * success every page has the new owner, every transient state a complete owner, and a
   * second update changes nothing.
   */
  lemma {:induction false} UpdateOwnershipSpec(o: ModelObject, ownerType: string, ownerId: string)
    ensures UpdateOwnership(o, ownerType, ownerId).Failure? <==> HasOtherState(o)
    ensures UpdateOwnership(o, ownerType, ownerId).Success? ==>
              var r := UpdateOwnership(o, ownerType, ownerId).value;
              Owned(r, ownerType, ownerId) && !HasOtherState(r) && UpdateOwnership(r, ownerType, ownerId) == Success(r) &&
              Rewritten(o, r, ownerType, ownerId)
    decreases o, 1
  {
    match o
    case Container(page, children) =>
      UpdateChildrenSpec(children, ownerType, ownerId);
    case Application(state) =>
    case OtherObject(_) =>
  }

  lemma {:induction false} UpdateChildrenSpec(cs: seq<ModelObject>, ownerType: string, ownerId: string)
    ensures UpdateChildren(cs, ownerType, ownerId).Failure? <==> AnyOtherState(cs)
    ensures UpdateChildren(cs, ownerType, ownerId).Success? ==>
              var r := UpdateChildren(cs, ownerType, ownerId).value;
              AllOwned(r, ownerType, ownerId) && !AnyOtherState(r) && UpdateChildren(r, ownerType, ownerId) == Success(r) &&
              forall i :: 0 <= i < |cs| ==> Rewritten(cs[i], r[i], ownerType, ownerId)
    decreases cs, 0
  {
    if cs != [] {
      UpdateOwnershipSpec(cs[0], ownerType, ownerId);
      UpdateChildrenSpec(cs[1..], ownerType, ownerId);
      var r := UpdateChildren(cs, ownerType, ownerId);
      if r.Success? {
        var v := r.value;
        assert v[0] == UpdateOwnership(cs[0], ownerType, ownerId).value;
        assert v[1..] == UpdateChildren(cs[1..], ownerType, ownerId).value;
        forall i | 1 <= i < |cs| ensures Rewritten(cs[i], v[i], ownerType, ownerId) {
          assert cs[i] == cs[1..][i - 1] && v[i] == v[1..][i - 1];
        }
      }
    }
  }
}
