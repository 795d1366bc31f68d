/**
 * The helpers of the space storage: the difference of two lists of user names, the added and
 * removed users of each role when a space is saved, and the checks and rewriting of a space
 * search condition.
 */
module SpaceStorage {
  import opened Wrappers
  import opened JavaLang

  /** The wildcards of a search condition. */
  const ASTERISK: char := '*'
  const PERCENT: char := '%'

  // ---------------------------------------------------------------- sub and createRefs

  /** The elements of `l` that do not occur in `drop`, in order and with their repetitions. */
  function RemoveAll(l: seq<string>, drop: seq<string>): seq<string> {
    if l == [] then []
    else RemoveAll(l[..|l| - 1], drop) + if l[|l| - 1] in drop then [] else [l[|l| - 1]]
  }

  /** An element survives the removal exactly when it is in `l` and not in `drop`. */
  lemma {:induction false} RemoveAllMembers(l: seq<string>, drop: seq<string>, x: string)
    ensures x in RemoveAll(l, drop) <==> x in l && x !in drop
  {
    if l != [] {
      RemoveAllMembers(l[..|l| - 1], drop, x);
      assert l == l[..|l| - 1] + [l[|l| - 1]];
    }
  }

  /** Removing nothing keeps the list, and what remains has nothing left to remove. */
  lemma {:induction false} RemoveAllIdentity(l: seq<string>, drop: seq<string>)
    requires forall i :: 0 <= i < |l| ==> l[i] !in drop
    ensures RemoveAll(l, drop) == l
  {
    if l != [] {
      RemoveAllIdentity(l[..|l| - 1], drop);
    }
  }

  /** Removing twice is removing once. */
  lemma RemoveAllIdempotent(l: seq<string>, drop: seq<string>)
    ensures RemoveAll(RemoveAll(l, drop), drop) == RemoveAll(l, drop)
  {
    var r := RemoveAll(l, drop);
    forall i | 0 <= i < |r| ensures r[i] !in drop {
      RemoveAllMembers(l, drop, r[i]);
    }
    RemoveAllIdentity(r, drop);
  }

  /** What sub computes, as a value. */
  function SubOf(l1: Option<seq<string>>, l2: Option<seq<string>>): seq<string> {
    if l1.None? then [] else if l2.None? then l1.value else RemoveAll(l1.value, l2.value)
  }

  /**
   * sub: no names for a null first list, the first list itself for a null second list, and
   * otherwise a copy of the first list with every name of the second removed.
   */
  method Sub(l1: Option<seq<string>>, l2: Option<seq<string>>) returns (r: seq<string>)
    ensures l1.None? ==> r == []
    ensures l1.Some? && l2.None? ==> r == l1.value
    ensures l1.Some? && l2.Some? ==> r == RemoveAll(l1.value, l2.value)
    ensures r == SubOf(l1, l2)
  {
    if l1.None? {
      return [];
    }
    if l2.None? {
      return l1.value;
    }
    var l := l1.value;
    var drop := l2.value;
    r := [];
    var i := 0;
    while i < |l|
      invariant 0 <= i <= |l|
      invariant r == RemoveAll(l[..i], drop)
    {
      assert l[..i + 1][..i] == l[..i];
      if l[i] !in drop {
        r := r + [l[i]];
      }
      i := i + 1;
    }
    assert l[..i] == l;
  }

  /** The added and removed names of one role. */
  datatype UpdateContext = UpdateContext(added: seq<string>, removed: seq<string>)

  /** The user lists of the four roles of a space. */
  datatype Roles = Roles(members: Option<seq<string>>, managers: Option<seq<string>>,
                         invited: Option<seq<string>>, pending: Option<seq<string>>)

  /** The update of one role from the stored list to the new one. */
  function RoleUpdate(stored: Option<seq<string>>, current: Option<seq<string>>): UpdateContext {
    UpdateContext(SubOf(current, stored), SubOf(stored, current))
  }

  /**
   * The added names are the new names that were not stored and the removed ones the stored
   * names that are no longer there (a null list counting as empty), so no name is both.
   */
  lemma RoleUpdateSpec(stored: Option<seq<string>>, current: Option<seq<string>>, x: string)
    ensures var u := RoleUpdate(stored, current);
            var s := if stored.Some? then stored.value else [];
            var c := if current.Some? then current.value else [];
            (x in u.added <==> x in c && x !in s) &&
            (x in u.removed <==> x in s && x !in c) &&
            !(x in u.added && x in u.removed)
  {
    if stored.Some? && current.Some? {
      RemoveAllMembers(current.value, stored.value, x);
      RemoveAllMembers(stored.value, current.value, x);
    }
  }

  /** The updates of the four roles, in the order createRefs hands them to manageRefList. */
  method CreateRefs(stored: Roles, current: Roles) returns (updates: seq<UpdateContext>)
    ensures updates == [RoleUpdate(stored.members, current.members), RoleUpdate(stored.managers, current.managers),
                        RoleUpdate(stored.invited, current.invited), RoleUpdate(stored.pending, current.pending)]
  {
    var removedMembers := Sub(stored.members, current.members);
    var removedManagers := Sub(stored.managers, current.managers);
    var removedInvited := Sub(stored.invited, current.invited);
    var removedPending := Sub(stored.pending, current.pending);
    var addedMembers := Sub(current.members, stored.members);
    var addedManagers := Sub(current.managers, stored.managers);
    var addedInvited := Sub(current.invited, stored.invited);
    var addedPending := Sub(current.pending, stored.pending);
    updates := [UpdateContext(addedMembers, removedMembers), UpdateContext(addedManagers, removedManagers),
                UpdateContext(addedInvited, removedInvited), UpdateContext(addedPending, removedPending)];
  }

  // ---------------------------------------------------------------- search conditions

  /** `s` with every occurrence of `c` deleted. */
  function Remove(s: string, c: char): (r: string)
    ensures forall x :: x in r <==> x in s && x != c
  {
    if s == [] then []
    else (if s[0] == c then [] else [s[0]]) + Remove(s[1..], c)
  }

  /**
   * isValidInput: false for a null or empty input and for one made only of '*' and '%'; true
   * as soon as it holds any other character.
   */
  function IsValidInput(input: Option<string>): (r: bool)
    ensures r <==> input.Some? && exists i :: 0 <= i < |input.value| && input.value[i] != ASTERISK && input.value[i] != PERCENT
  {
    if input.None? || |input.value| == 0 then false
    else
      var clean := Remove(Remove(input.value, ASTERISK), PERCENT);
      assert clean != [] <==> exists i :: 0 <= i < |input.value| && input.value[i] != ASTERISK && input.value[i] != PERCENT by {
        if clean != [] {
          assert clean[0] in clean;
        } else {
          forall i | 0 <= i < |input.value| ensures input.value[i] == ASTERISK || input.value[i] == PERCENT {
            assert input.value[i] in input.value;
          }
        }
      }
      |clean| != 0
  }

  /** `s` with every '*' replaced by '%'. */
  function StarsToPercents(s: string): (r: string)
    ensures |r| == |s|
    ensures forall i :: 0 <= i < |s| ==> r[i] == if s[i] == ASTERISK then PERCENT else s[i]
  {
    if s == [] then [] else [if s[0] == ASTERISK then PERCENT else s[0]] + StarsToPercents(s[1..])
  }

  /**
   * processSearchCondition: a condition without wildcards is wrapped in '*'; one with any
   * wildcard has its '*' turned into '%' and is wrapped in '%'. An empty condition has no
   * first character and throws StringIndexOutOfBoundsException.
   */
  method ProcessSearchCondition(searchCondition: string) returns (r: Result<string>)
    ensures r.Failure? <==> searchCondition == []
    ensures r.Failure? ==> r.error == IndexOutOfBounds
    ensures r.Success? && ASTERISK !in searchCondition && PERCENT !in searchCondition ==>
              r.value == [ASTERISK] + searchCondition + [ASTERISK]
    ensures r.Success? && (ASTERISK in searchCondition || PERCENT in searchCondition) ==>
              r.value == [PERCENT] + StarsToPercents(searchCondition) + [PERCENT]
  {
    var buffer: string := [];
    if !HasWildcard(searchCondition) {
      if searchCondition == [] {
        return Failure(IndexOutOfBounds);
      }
      assert searchCondition[0] in searchCondition;
      assert searchCondition[|searchCondition| - 1] in searchCondition;
      if searchCondition[0] != ASTERISK {
        buffer := buffer + [ASTERISK] + searchCondition;
      }
      if searchCondition[|searchCondition| - 1] != ASTERISK {
        buffer := buffer + [ASTERISK];
      }
    } else {
      var replaced := StarsToPercents(searchCondition);
      buffer := buffer + [PERCENT] + replaced + [PERCENT];
    }
    r := Success(buffer);
  }

  /** The two `contains` tests of processSearchCondition: whether either wildcard occurs. */
  function HasWildcard(s: string): (r: bool)
    ensures r <==> ASTERISK in s || PERCENT in s
  {
    ContainsChar(s, ASTERISK);
    ContainsChar(s, PERCENT);
    Contains(s, [ASTERISK]) || Contains(s, [PERCENT])
  }

  /**
   * A processed condition is never empty, begins and ends with a wildcard, and holds a '*'
   * only when the condition had no wildcard at all.
   */
  lemma ProcessedShape(searchCondition: string)
    requires searchCondition != []
    ensures var r := if ASTERISK !in searchCondition && PERCENT !in searchCondition
                     then [ASTERISK] + searchCondition + [ASTERISK]
                     else [PERCENT] + StarsToPercents(searchCondition) + [PERCENT];
            |r| == |searchCondition| + 2 && (r[0] == ASTERISK || r[0] == PERCENT) &&
            r[|r| - 1] == r[0] &&
            (ASTERISK in searchCondition || PERCENT in searchCondition ==> ASTERISK !in r)
  {
    if ASTERISK in searchCondition || PERCENT in searchCondition {
      var r := [PERCENT] + StarsToPercents(searchCondition) + [PERCENT];
      forall i | 0 <= i < |r| ensures r[i] != ASTERISK {
        if 0 < i < |r| - 1 {
          assert r[i] == StarsToPercents(searchCondition)[i - 1];
        }
      }
    }
  }

  /** A space filter: its name search condition and the first character of the space names searched. */
  datatype SpaceFilter = SpaceFilter(nameCondition: Option<string>, firstCharacter: char)

  /**
   * validateFilter: false for a null filter; a non-empty name condition decides through
   * isValidInput; otherwise the filter is valid unless the first character is a digit.
   */
  function ValidateFilter(filter: Option<SpaceFilter>): (r: bool)
    ensures filter.None? ==> !r
    ensures filter.Some? && filter.value.nameCondition.Some? && filter.value.nameCondition.value != [] ==>
              var cond := filter.value.nameCondition.value;
              (r <==> exists i :: 0 <= i < |cond| && cond[i] != ASTERISK && cond[i] != PERCENT)
    ensures filter.Some? && (filter.value.nameCondition.None? || filter.value.nameCondition.value == []) ==>
              (r <==> !IsDigit(filter.value.firstCharacter))
  {
    if filter.None? then false
    else if filter.value.nameCondition.Some? && |filter.value.nameCondition.value| != 0 then
      IsValidInput(filter.value.nameCondition)
    else !IsDigit(filter.value.firstCharacter)
  }
}
