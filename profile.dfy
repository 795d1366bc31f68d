/**
 * The property bag of a social identity's profile: the properties by name, whether they were
 * changed locally, and which group of properties (position, basic information, contact,
 * experiences, avatar) was the last to be updated.
 */
module Profiles {
  import opened Wrappers
  import opened Seqs
  import opened JavaLang

  const GENDER: string := "gender"
  const FIRST_NAME: string := "firstName"
  const LAST_NAME: string := "lastName"
  const EMAIL: string := "email"
  const AVATAR: string := "avatar"
  const AVATAR_URL: string := "avatarUrl"
  const EXPERIENCES: string := "experiences"
  const POSITION: string := "position"
  const URL: string := "Url"
  const CONTACT_PHONES: string := "phones"
  const CONTACT_IMS: string := "ims"
  const CONTACT_URLS: string := "urls"

  /** The kinds of profile update. */
  datatype UpdateType = PositionUpdate | BasicInfoUpdate | ContactUpdate | ExperiencesUpdate | AvatarUpdate

  /** A property value: a String or any other object. */
  datatype PropertyValue = Text(s: string) | Other(id: nat)

  /** The property names of each kind of update. */
  const UPDATE_TYPES: seq<(UpdateType, seq<string>)> := [
    (PositionUpdate, [POSITION]),
    (BasicInfoUpdate, [FIRST_NAME, LAST_NAME, EMAIL]),
    (ContactUpdate, [GENDER, CONTACT_PHONES, CONTACT_IMS, CONTACT_URLS]),
    (ExperiencesUpdate, [EXPERIENCES]),
    (AvatarUpdate, [AVATAR, AVATAR_URL])
  ]

  /** The kind of update whose names include `name`, if any. */
  function GroupOf(name: string): Option<UpdateType> {
    if name == POSITION then Some(PositionUpdate)
    else if name in [FIRST_NAME, LAST_NAME, EMAIL] then Some(BasicInfoUpdate)
    else if name in [GENDER, CONTACT_PHONES, CONTACT_IMS, CONTACT_URLS] then Some(ContactUpdate)
    else if name == EXPERIENCES then Some(ExperiencesUpdate)
    else if name in [AVATAR, AVATAR_URL] then Some(AvatarUpdate)
    else None
  }

  /**
   * The name lists are disjoint, so at most one kind of update matches a name whatever order
   * the kinds are visited in, and `GroupOf` is that kind.
   */
  lemma {:induction false} GroupsDisjoint(name: string, i: int, j: int)
    requires 0 <= i < |UPDATE_TYPES| && 0 <= j < |UPDATE_TYPES|
    requires name in UPDATE_TYPES[i].1 && name in UPDATE_TYPES[j].1
    ensures i == j && GroupOf(name) == Some(UPDATE_TYPES[i].0)
  {
    assert UPDATE_TYPES[0].1 == [POSITION];
    assert UPDATE_TYPES[1].1 == [FIRST_NAME, LAST_NAME, EMAIL];
    assert UPDATE_TYPES[2].1 == [GENDER, CONTACT_PHONES, CONTACT_IMS, CONTACT_URLS];
    assert UPDATE_TYPES[3].1 == [EXPERIENCES];
    assert UPDATE_TYPES[4].1 == [AVATAR, AVATAR_URL];
  }

  /** A name matches some kind of update exactly when `GroupOf` names one. */
  lemma GroupOfSpec(name: string)
    ensures GroupOf(name).Some? <==> exists i :: 0 <= i < |UPDATE_TYPES| && name in UPDATE_TYPES[i].1
  {
    assert UPDATE_TYPES[0].1 == [POSITION];
    assert UPDATE_TYPES[1].1 == [FIRST_NAME, LAST_NAME, EMAIL];
    assert UPDATE_TYPES[2].1 == [GENDER, CONTACT_PHONES, CONTACT_IMS, CONTACT_URLS];
    assert UPDATE_TYPES[3].1 == [EXPERIENCES];
    assert UPDATE_TYPES[4].1 == [AVATAR, AVATAR_URL];
    if GroupOf(name).Some? {
      var i := match GroupOf(name).value
        case PositionUpdate => 0
        case BasicInfoUpdate => 1
        case ContactUpdate => 2
        case ExperiencesUpdate => 3
        case AvatarUpdate => 4;
      assert name in UPDATE_TYPES[i].1;
    }
  }

  /** The update kind after a change to `name`: the kind of `name` when it has one, `t` otherwise. */
  function UpdatedType(t: Option<UpdateType>, name: string): Option<UpdateType> {
    if GroupOf(name).Some? then GroupOf(name) else t
  }

  /** The properties after `setProperty` of each entry whose key has no ':', in order. */
  function Stored(props: map<string, Option<PropertyValue>>, entries: seq<(string, Option<PropertyValue>)>): map<string, Option<PropertyValue>> {
    if entries == [] then props
    else
      var before := Stored(props, entries[..|entries| - 1]);
      var (k, v) := entries[|entries| - 1];
      if ':' in k || k == URL then before else before[k := v]
  }

  /** The update kind after `setProperty` of each entry whose key has no ':', in order. */
  function TypeAfter(t: Option<UpdateType>, entries: seq<(string, Option<PropertyValue>)>): Option<UpdateType> {
    if entries == [] then t
    else
      var before := TypeAfter(t, entries[..|entries| - 1]);
      var k := entries[|entries| - 1].0;
      if ':' in k || k == URL then before else UpdatedType(before, k)
  }

  /** The keys of `entries`. */
  function Keys(entries: seq<(string, Option<PropertyValue>)>): (r: seq<string>)
    ensures |r| == |entries| && forall i :: 0 <= i < |entries| ==> r[i] == entries[i].0
  {
    if entries == [] then [] else Keys(entries[..|entries| - 1]) + [entries[|entries| - 1].0]
  }

  /** A key is admitted when it has no ':' and is not the ignored "Url". */
  predicate Admitted(k: string) {
    ':' !in k && k != URL
  }

  /**
   * With distinct keys, each admitted entry ends up stored with its value, and every other
   * property, among them each key with a ':', keeps its old value or absence.
   */
  lemma {:induction false} StoredSpec(props: map<string, Option<PropertyValue>>, entries: seq<(string, Option<PropertyValue>)>)
    requires Distinct(Keys(entries))
    ensures forall i :: 0 <= i < |entries| && Admitted(entries[i].0) ==>
              entries[i].0 in Stored(props, entries) && Stored(props, entries)[entries[i].0] == entries[i].1
    ensures forall k :: (k !in Keys(entries) || !Admitted(k)) ==>
              (k in Stored(props, entries) <==> k in props) &&
              (k in props ==> Stored(props, entries)[k] == props[k])
  {
    if entries != [] {
      var init := entries[..|entries| - 1];
      assert Keys(init) == Keys(entries)[..|entries| - 1];
      assert Distinct(Keys(init)) by {
        forall i, j | 0 <= i < j < |Keys(init)| ensures Keys(init)[i] != Keys(init)[j] {
          assert Keys(init)[i] == Keys(entries)[i] && Keys(init)[j] == Keys(entries)[j];
        }
      }
      StoredSpec(props, init);
      var last := entries[|entries| - 1];
      forall i | 0 <= i < |entries| && Admitted(entries[i].0)
        ensures entries[i].0 in Stored(props, entries) && Stored(props, entries)[entries[i].0] == entries[i].1
      {
        if i < |entries| - 1 {
          assert init[i] == entries[i];
          assert Keys(entries)[i] != Keys(entries)[|entries| - 1];
        }
      }
      forall k | k !in Keys(entries) || !Admitted(k)
        ensures (k in Stored(props, entries) <==> k in props) && (k in props ==> Stored(props, entries)[k] == props[k])
      {
        if k !in Keys(entries) {
          assert k != Keys(entries)[|entries| - 1];
          assert k !in Keys(init);
        }
      }
    }
  }

  /** The text of a property read as a String: null stays null, and another object is a ClassCastException. */
  function AsText(v: Option<PropertyValue>): Result<Option<string>> {
    match v
    case None => Success(None)
    case Some(Text(s)) => Success(Some(s))
    case Some(Other(_)) => Failure(ClassCast)
  }

  class Profile {
    var properties: map<string, Option<PropertyValue>>
    var hasChanged: bool
    var updateType: Option<UpdateType>

    /** A profile with no property, not changed, with no update kind. */
    constructor ()
      ensures properties == map[] && !hasChanged && updateType.None?
    {
      properties := map[];
      hasChanged := false;
      updateType := None;
    }

    /** getProperty: the value stored under `name`, null when there is none. */
    function GetProperty(name: string): (r: Option<PropertyValue>)
      reads this`properties
      ensures name !in properties ==> r.None?
      ensures name in properties ==> r == properties[name]
      ensures r.Some? ==> name in properties && properties[name] == r
    {
      if name in properties then properties[name] else None
    }

    /**
     * contains: whether `name` has an entry, whose value may be null; a name without an entry
     * reads as null.
     */
    function ContainsProperty(name: string): (r: bool)
      reads this`properties
      ensures r <==> name in properties
      ensures !r ==> GetProperty(name).None?
      ensures GetProperty(name).Some? ==> r
    {
      name in properties
    }

    /** clearHasChanged. */
    method ClearHasChanged()
      modifies this`hasChanged
      ensures !hasChanged
    {
      hasChanged := false;
    }

    /**
     * setUpdateType: visits each kind of update and its names, and records the kind whose
     * names include `name`; the update kind is unchanged when no kind matches.
     */
    method SetUpdateType(name: string)
      modifies this`updateType
      ensures updateType == UpdatedType(old(updateType), name)
    {
      var k := 0;
      while k < |UPDATE_TYPES|
        invariant 0 <= k <= |UPDATE_TYPES|
        invariant (exists i :: 0 <= i < k && name in UPDATE_TYPES[i].1) ==> updateType == GroupOf(name)
        invariant (forall i :: 0 <= i < k ==> name !in UPDATE_TYPES[i].1) ==> updateType == old(updateType)
      {
        var (key, values) := UPDATE_TYPES[k];
        ghost var before := updateType;
        var j := 0;
        while j < |values|
          invariant 0 <= j <= |values|
          invariant name in values[..j] ==> updateType == Some(key)
          invariant name !in values[..j] ==> updateType == before
        {
          if values[j] == name {
            updateType := Some(key);
            break;
          }
          assert values[..j + 1] == values[..j] + [values[j]];
          j := j + 1;
        }
        if name in values {
          GroupsDisjoint(name, k, k);
        }
        k := k + 1;
      }
      GroupOfSpec(name);
    }

    /**
     * setProperty: "Url" is ignored altogether; any other name is stored with its value,
     * marks the profile changed and moves the update kind to the name's kind, if it has one.
     */
    method SetProperty(name: string, v: Option<PropertyValue>)
      modifies this`properties, this`hasChanged, this`updateType
      ensures name == URL ==>
                properties == old(properties) && hasChanged == old(hasChanged) && updateType == old(updateType)
      ensures name != URL ==>
                properties == old(properties)[name := v] && hasChanged &&
                updateType == UpdatedType(old(updateType), name)
      ensures name != URL ==> GetProperty(name) == v
    {
      if name == URL {
        return;
      }
      properties := properties[name := v];
      hasChanged := true;
      SetUpdateType(name);
    }

    /** removeProperty: the name is removed and the profile marked changed; the update kind stays. */
    method RemoveProperty(name: string)
      modifies this`properties, this`hasChanged
      ensures properties == old(properties) - {name} && hasChanged
      ensures GetProperty(name).None? && !ContainsProperty(name)
    {
      properties := properties - {name};
      hasChanged := true;
    }

    /**
     * addOrModifyProperties: `setProperty` for each entry, in the map's iteration order, except
     * the entries whose key contains ':'; the profile is marked changed even when nothing was
     * stored. A null map throws NullPointerException before anything changes.
     */
    method AddOrModifyProperties(props: Option<seq<(string, Option<PropertyValue>)>>) returns (r: Outcome)
      modifies this`properties, this`hasChanged, this`updateType
      ensures r.Fail? <==> props.None?
      ensures r.Fail? ==>
                r.error == NullPointer &&
                properties == old(properties) && hasChanged == old(hasChanged) && updateType == old(updateType)
      ensures r.Pass? ==>
                properties == Stored(old(properties), props.value) && hasChanged &&
                updateType == TypeAfter(old(updateType), props.value)
    {
      if props.None? {
        return Fail(NullPointer);
      }
      var entries := props.value;
      var i := 0;
      while i < |entries|
        invariant 0 <= i <= |entries|
        invariant properties == Stored(old(properties), entries[..i])
        invariant updateType == TypeAfter(old(updateType), entries[..i])
      {
        assert entries[..i + 1][..i] == entries[..i];
        var (key, value) := entries[i];
        if ':' !in key {
          SetProperty(key, value);
        }
        i := i + 1;
      }
      assert entries[..i] == entries;
      hasChanged := true;
      r := Pass;
    }

    /**
     * getFullName: the first name, or "" without one, followed by a space and the last name
     * when there is one; a first or last name that is not a String is a ClassCastException.
     */
    function GetFullName(): (r: Result<string>)
      reads this`properties
      ensures r.Failure? <==> AsText(GetProperty(FIRST_NAME)).Failure? || AsText(GetProperty(LAST_NAME)).Failure?
      ensures r.Failure? ==> r.error == ClassCast
      ensures r.Success? ==>
                var first := AsText(GetProperty(FIRST_NAME)).value;
                var last := AsText(GetProperty(LAST_NAME)).value;
                (first.Some? ==> first.value <= r.value) &&
                (last.None? ==> r.value == (if first.Some? then first.value else "")) &&
                (last.Some? ==>
                   |r.value| > |last.value| && r.value[|r.value| - |last.value| - 1] == ' ' &&
                   r.value[|r.value| - |last.value|..] == last.value) &&
                (first.None? && last.Some? ==> r.value[0] == ' ') &&
                |r.value| == (if first.Some? then |first.value| else 0) +
                             (if last.Some? then 1 + |last.value| else 0)
    {
      match (AsText(GetProperty(FIRST_NAME)), AsText(GetProperty(LAST_NAME)))
      case (Failure(e), _) => Failure(e)
      case (_, Failure(e)) => Failure(e)
      case (Success(first), Success(last)) =>
        var all := if first.Some? then first.value else "";
        Success(all + if last.Some? then " " + last.value else "")
    }

    /**
     * With a last name and a first name free of ' ', the full name splits back at its first
     * ' ': the first name (or "") before it and the last name after it.
     */
    lemma FullNameSplits()
      requires GetFullName().Success?
      requires AsText(GetProperty(LAST_NAME)).value.Some?
      requires var first := AsText(GetProperty(FIRST_NAME)).value; first.Some? ==> ' ' !in first.value
      ensures var first := AsText(GetProperty(FIRST_NAME)).value;
              var full := GetFullName().value;
              var k := IndexOf(full, " ");
              0 <= k < |full| &&
              full[..k] == (if first.Some? then first.value else "") &&
              full[k + 1..] == AsText(GetProperty(LAST_NAME)).value.value
    {
      var first := AsText(GetProperty(FIRST_NAME)).value;
      var f := if first.Some? then first.value else "";
      var last := AsText(GetProperty(LAST_NAME)).value.value;
      var full := GetFullName().value;
      assert full == f + " " + last;
      IndexOfCharAfter(f, ' ', last);
      assert full[|f| + 1..] == last;
    }
  }
}
