/**
 * The pure helpers of the social spaces: the cleaning of a space name, the ordering of spaces
 * by priority, the parsing of a space's installed-application string
 * "id:node:removable:status,…", the display name of an application, and the view permission
 * of a group on an application.
 */
module SpaceUtils {
  import opened Wrappers
  import opened JavaLang

  const PLATFORM_USERS_GROUP: string := "/platform/users"

  // ---------------------------------------------------------------- cleanString

  /** A cleaned name: only letters, digits and '_', and never two '_' in a row. */
  predicate CleanName(s: string) {
    (forall i :: 0 <= i < |s| ==> IsLetterOrDigit(s[i]) || s[i] == '_') &&
    (forall i :: 0 <= i < |s| - 1 ==> !(s[i] == '_' && s[i + 1] == '_'))
  }

  /** Whether the last character of `done` is '_'. */
  predicate AfterUnderscore(done: string) {
    done != [] && done[|done| - 1] == '_'
  }

  /**
   * One step of the cleaning loop, with `done` already cleaned: a space becomes '_' unless it
   * follows a '_', in which case it is deleted; any other character that is not a letter, a
   * digit or '_' is deleted, and so is a '_' that follows a '_'.
   */
  function CleanStep(done: string, c: char): string {
    if c == ' ' then (if AfterUnderscore(done) then done else done + ['_'])
    else if !(IsLetterOrDigit(c) || c == '_') then done
    else if c == '_' && AfterUnderscore(done) then done
    else done + [c]
  }

  /** The cleaning loop over `rest`, with `done` already cleaned. */
  function Cleaned(done: string, rest: string): string
    decreases |rest|
  {
    if rest == [] then done else Cleaned(CleanStep(done, rest[0]), rest[1..])
  }

  /**
   * cleanString, after the accent transliteration (which is not part of this model: `str` is
   * its output): the trimmed text cleaned, then lower-cased.
   */
  method CleanString(str: string) returns (r: string)
    ensures r == ToLower(Cleaned([], Trim(str)))
  {
    var sb := CleanBuffer(Trim(str));
    r := ToLower(sb);
  }

  /** The cleaning loop of cleanString, rewriting the buffer `sb` in place and moving back after a deletion. */
  method CleanBuffer(t: string) returns (sb: string)
    ensures sb == Cleaned([], t)
  {
    sb := t;
    var i: int := 0;
    while i < |sb|
      invariant 0 <= i <= |sb|
      invariant Cleaned(sb[..i], sb[i..]) == Cleaned([], t)
      decreases |sb| - i
    {
      var c := sb[i];
      AfterUnderscoreAt(sb, i);
      if c == ' ' {
        if i > 0 && sb[i - 1] == '_' {
          DeleteStep(sb, i);
          sb := sb[..i] + sb[i + 1..];
          i := i - 1;
        } else {
          c := '_';
          ReplaceStep(sb, i);
          sb := sb[i := c];
        }
      } else if !(IsLetterOrDigit(c) || c == '_') {
        DeleteStep(sb, i);
        sb := sb[..i] + sb[i + 1..];
        i := i - 1;
      } else if i > 0 && c == '_' && sb[i - 1] == '_' {
        DeleteStep(sb, i);
        sb := sb[..i] + sb[i + 1..];
        i := i - 1;
      } else {
        KeepStep(sb, i);
      }
      i := i + 1;
    }
    assert sb[..i] == sb && sb[i..] == [];
  }

  /** Cleaning a text that starts with `c` is cleaning the rest after one step on `c`. */
  lemma CleanedCons(done: string, c: char, rest: string)
    ensures Cleaned(done, [c] + rest) == Cleaned(CleanStep(done, c), rest)
  {
    assert ([c] + rest)[1..] == rest;
  }

  /** The prefix of `sb` before `i` ends in '_' exactly when the character before `i` is one. */
  lemma AfterUnderscoreAt(sb: string, i: int)
    requires 0 <= i <= |sb|
    ensures AfterUnderscore(sb[..i]) <==> i > 0 && sb[i - 1] == '_'
  {
  }

  /** When the step on `sb[i]` drops it, deleting it from the buffer keeps the cleaning loop's result. */
  lemma DeleteStep(sb: string, i: int)
    requires 0 <= i < |sb| && CleanStep(sb[..i], sb[i]) == sb[..i]
    ensures var d := sb[..i] + sb[i + 1..];
            Cleaned(d[..i], d[i..]) == Cleaned(sb[..i], sb[i..])
  {
    var d := sb[..i] + sb[i + 1..];
    assert d[..i] == sb[..i] && d[i..] == sb[i + 1..];
    assert sb[i..] == [sb[i]] + sb[i + 1..];
    CleanedCons(sb[..i], sb[i], sb[i + 1..]);
  }

  /** When the step on a space writes '_', writing it into the buffer keeps the cleaning loop's result. */
  lemma ReplaceStep(sb: string, i: int)
    requires 0 <= i < |sb| && CleanStep(sb[..i], sb[i]) == sb[..i] + ['_']
    ensures var d := sb[i := '_'];
            Cleaned(d[..i + 1], d[i + 1..]) == Cleaned(sb[..i], sb[i..])
  {
    var d := sb[i := '_'];
    assert d[..i + 1] == sb[..i] + ['_'] && d[i + 1..] == sb[i + 1..];
    assert sb[i..] == [sb[i]] + sb[i + 1..];
    CleanedCons(sb[..i], sb[i], sb[i + 1..]);
  }

  /** When the step keeps `sb[i]`, moving past it keeps the cleaning loop's result. */
  lemma KeepStep(sb: string, i: int)
    requires 0 <= i < |sb| && CleanStep(sb[..i], sb[i]) == sb[..i] + [sb[i]]
    ensures Cleaned(sb[..i + 1], sb[i + 1..]) == Cleaned(sb[..i], sb[i..])
  {
    assert sb[..i + 1] == sb[..i] + [sb[i]];
    assert sb[i..] == [sb[i]] + sb[i + 1..];
    CleanedCons(sb[..i], sb[i], sb[i + 1..]);
  }

  /** One step keeps a clean prefix clean. */
  lemma CleanStepClean(done: string, c: char)
    requires CleanName(done)
    ensures CleanName(CleanStep(done, c))
  {
  }

  /** Cleaning keeps a clean prefix clean: whatever follows, the result is a clean name. */
  lemma {:induction false} CleanedClean(done: string, rest: string)
    requires CleanName(done)
    ensures CleanName(Cleaned(done, rest))
    decreases |rest|
  {
    if rest != [] {
      CleanStepClean(done, rest[0]);
      CleanedClean(CleanStep(done, rest[0]), rest[1..]);
    }
  }

  /** Cleaning a clean name changes nothing. */
  lemma {:induction false} CleanedIdentity(done: string, rest: string)
    requires CleanName(done + rest)
    ensures Cleaned(done, rest) == done + rest
    decreases |rest|
  {
    if rest != [] {
      var c := rest[0];
      assert (done + rest)[|done|] == c;
      if c == '_' && done != [] {
        assert (done + rest)[|done| - 1] == done[|done| - 1];
      }
      assert done + rest == (done + [c]) + rest[1..];
      CleanedIdentity(done + [c], rest[1..]);
    }
  }

  /** Lower-casing keeps a name clean and leaves no upper-case letter. */
  lemma LowerClean(s: string)
    requires CleanName(s)
    ensures CleanName(ToLower(s)) && forall i :: 0 <= i < |s| ==> !IsAsciiUpper(ToLower(s)[i])
  {
    var l := ToLower(s);
    forall i | 0 <= i < |s| - 1 ensures !(l[i] == '_' && l[i + 1] == '_') {
      assert l[i] == '_' ==> s[i] == '_';
      assert l[i + 1] == '_' ==> s[i + 1] == '_';
    }
  }

  /** The cleaned name holds only lower-case letters, digits and '_', with no space and never two '_' in a row. */
  lemma CleanStringClean(str: string)
    ensures var r := ToLower(Cleaned([], Trim(str)));
            CleanName(r) && ' ' !in r && forall i :: 0 <= i < |r| ==> !IsAsciiUpper(r[i])
  {
    CleanedClean([], Trim(str));
    LowerClean(Cleaned([], Trim(str)));
  }

  /** A name that is already clean and lower-case is its own cleaning. */
  lemma CleanStringIdempotent(str: string)
    requires CleanName(str) && forall i :: 0 <= i < |str| ==> !IsAsciiUpper(str[i])
    ensures ToLower(Cleaned([], Trim(str))) == str
  {
    CleanNameTrimmed(str);
    assert [] + str == str;
    CleanedIdentity([], str);
    LowerIdentity(str);
  }

  /** A clean name has no blank at either end, so trimming leaves it alone. */
  lemma CleanNameTrimmed(str: string)
    requires CleanName(str)
    ensures Trim(str) == str
  {
    if str != [] {
      assert IsLetterOrDigit(str[0]) || str[0] == '_';
      assert IsLetterOrDigit(str[|str| - 1]) || str[|str| - 1] == '_';
    }
    TrimIdentity(str);
  }

  /** Lower-casing a string without upper-case letters changes nothing. */
  lemma LowerIdentity(s: string)
    requires forall i :: 0 <= i < |s| ==> !IsAsciiUpper(s[i])
    ensures ToLower(s) == s
  {
    assert forall i :: 0 <= i < |s| ==> ToLower(s)[i] == s[i];
  }

  /** Outside a run of '_', a space and a '_' are cleaned alike. */
  lemma SpaceAsUnderscore(done: string, rest: string)
    ensures Cleaned(done, [' '] + rest) == Cleaned(done, ['_'] + rest)
  {
    assert ([' '] + rest)[1..] == rest && (['_'] + rest)[1..] == rest;
  }

  // ---------------------------------------------------------------- getOrderedSpaces

  /** A space and its priority, null when unset. */
  datatype Space = Space(id: nat, priority: Option<string>)

  /** The three priority names of a space, high first. */
  datatype Priorities = Priorities(high: string, intermediate: string, low: string)

  /** The group a priority falls in, tested in the order getOrderedSpaces tests them: 0 high, 1 intermediate, 2 low, 3 none. */
  function Rank(ps: Priorities, priority: string): nat {
    if priority == ps.high then 0
    else if priority == ps.intermediate then 1
    else if priority == ps.low then 2
    else 3
  }

  /** The spaces whose priority falls in group `g`, in input order. */
  function InGroup(ps: Priorities, spaces: seq<Space>, g: nat): (r: seq<Space>)
    requires forall i :: 0 <= i < |spaces| ==> spaces[i].priority.Some?
  {
    if spaces == [] then []
    else
      var last := spaces[|spaces| - 1];
      InGroup(ps, spaces[..|spaces| - 1], g) + if Rank(ps, last.priority.value) == g then [last] else []
  }

  /**
   * getOrderedSpaces: the high-priority spaces, then the intermediate, then the low ones,
   * each group in input order; a space of any other priority is dropped, and a space with a
   * null priority throws NullPointerException. The method's documentation speaks of alphabetical
   * order, but the Java code only groups by priority, and so does this model.
   */
  method GetOrderedSpaces(ps: Priorities, spaces: seq<Space>) returns (r: Result<seq<Space>>)
    ensures r.Failure? <==> exists i :: 0 <= i < |spaces| && spaces[i].priority.None?
    ensures r.Failure? ==> r.error == NullPointer
    ensures r.Success? ==> r.value == InGroup(ps, spaces, 0) + InGroup(ps, spaces, 1) + InGroup(ps, spaces, 2)
  {
    var ordered: seq<Space> := [];
    var middle: seq<Space> := [];
    var low: seq<Space> := [];
    var i := 0;
    while i < |spaces|
      invariant 0 <= i <= |spaces|
      invariant forall j :: 0 <= j < i ==> spaces[j].priority.Some?
      invariant ordered == InGroup(ps, spaces[..i], 0)
      invariant middle == InGroup(ps, spaces[..i], 1)
      invariant low == InGroup(ps, spaces[..i], 2)
    {
      assert spaces[..i + 1][..i] == spaces[..i];
      var space := spaces[i];
      if space.priority.None? {
        return Failure(NullPointer);
      }
      var priority := space.priority.value;
      if priority == ps.high {
        ordered := ordered + [space];
      } else if priority == ps.intermediate {
        middle := middle + [space];
      } else if priority == ps.low {
        low := low + [space];
      }
      i := i + 1;
    }
    assert spaces[..i] == spaces;
    ordered := AddAll(ordered, middle);
    ordered := AddAll(ordered, low);
    r := Success(ordered);
  }

  /** The appending loops of getOrderedSpaces: `tail` added, in order, after `list`. */
  method AddAll(list: seq<Space>, tail: seq<Space>) returns (r: seq<Space>)
    ensures r == list + tail
  {
    r := list;
    var k := 0;
    while k < |tail|
      invariant 0 <= k <= |tail|
      invariant r == list + tail[..k]
    {
      assert tail[..k + 1] == tail[..k] + [tail[k]];
      r := r + [tail[k]];
      k := k + 1;
    }
    assert tail[..k] == tail;
  }

  /** A space is in group `g` exactly when it is one of the spaces of that rank. */
  lemma {:induction false} InGroupMembers(ps: Priorities, spaces: seq<Space>, g: nat, s: Space)
    requires forall i :: 0 <= i < |spaces| ==> spaces[i].priority.Some?
    ensures s in InGroup(ps, spaces, g) <==> s in spaces && s.priority.Some? && Rank(ps, s.priority.value) == g
  {
    if spaces != [] {
      var init := spaces[..|spaces| - 1];
      InGroupMembers(ps, init, g, s);
      assert spaces == init + [spaces[|spaces| - 1]];
    }
  }

  /** Every space of group `g` has rank `g`. */
  lemma InGroupRank(ps: Priorities, spaces: seq<Space>, g: nat)
    requires forall i :: 0 <= i < |spaces| ==> spaces[i].priority.Some?
    ensures forall i :: 0 <= i < |InGroup(ps, spaces, g)| ==>
              InGroup(ps, spaces, g)[i].priority.Some? && Rank(ps, InGroup(ps, spaces, g)[i].priority.value) == g
  {
    forall i | 0 <= i < |InGroup(ps, spaces, g)|
      ensures InGroup(ps, spaces, g)[i].priority.Some? && Rank(ps, InGroup(ps, spaces, g)[i].priority.value) == g
    {
      InGroupMembers(ps, spaces, g, InGroup(ps, spaces, g)[i]);
    }
  }

  /**
   * The ordered spaces are exactly the spaces of a known priority, sorted by rank: no space
   * comes after a space of a lower-priority group.
   */
  lemma OrderedSpacesSpec(ps: Priorities, spaces: seq<Space>, s: Space)
    requires forall i :: 0 <= i < |spaces| ==> spaces[i].priority.Some?
    ensures var r := InGroup(ps, spaces, 0) + InGroup(ps, spaces, 1) + InGroup(ps, spaces, 2);
            (s in r <==> s in spaces && s.priority.Some? && Rank(ps, s.priority.value) < 3) &&
            forall i, j :: 0 <= i < j < |r| ==>
              r[i].priority.Some? && r[j].priority.Some? && Rank(ps, r[i].priority.value) <= Rank(ps, r[j].priority.value)
  {
    var g0, g1, g2 := InGroup(ps, spaces, 0), InGroup(ps, spaces, 1), InGroup(ps, spaces, 2);
    var r := g0 + g1 + g2;
    InGroupMembers(ps, spaces, 0, s);
    InGroupMembers(ps, spaces, 1, s);
    InGroupMembers(ps, spaces, 2, s);
    InGroupRank(ps, spaces, 0);
    InGroupRank(ps, spaces, 1);
    InGroupRank(ps, spaces, 2);
    forall i | 0 <= i < |r|
      ensures Rank(ps, r[i].priority.value) == if i < |g0| then 0 else if i < |g0| + |g1| then 1 else 2
    {
      if i < |g0| {
        assert r[i] == g0[i];
      } else if i < |g0| + |g1| {
        assert r[i] == g1[i - |g0|];
      } else {
        assert r[i] == g2[i - |g0| - |g1|];
      }
    }
  }

  // ---------------------------------------------------------------- installed applications

  /** The text before the first ':' of a chunk; none when its split has no field. */
  function FirstField(chunk: string): Option<string> {
    var fields := Split(chunk, ':');
    if fields == [] then None else Some(fields[0])
  }

  /**
   * A chunk has a first field unless it is a non-empty run of ':' (which makes getAppIdList's
   * `[0]` throw); the field is the text before the first ':'.
   */
  lemma FirstFieldSpec(chunk: string)
    ensures FirstField(chunk).None? <==> chunk != [] && forall i :: 0 <= i < |chunk| ==> chunk[i] == ':'
    ensures FirstField(chunk).Some? ==>
              var f := FirstField(chunk).value;
              f <= chunk && ':' !in f && (|f| < |chunk| ==> chunk[|f|] == ':')
  {
    SplitEmpty(chunk, ':');
    if FirstField(chunk).Some? {
      SplitFirst(chunk, ':');
      SplitAllFirst(chunk, ':');
    }
  }

  /** The first fields of the chunks in order; an IndexOutOfBoundsException at the first chunk without one. */
  function AppIds(chunks: seq<string>): Result<seq<string>> {
    if chunks == [] then Success([])
    else match FirstField(chunks[0])
      case None => Failure(IndexOutOfBounds)
      case Some(id) =>
        match AppIds(chunks[1..])
        case Failure(e) => Failure(e)
        case Success(ids) => Success([id] + ids)
  }

  /** `ids` followed by what `rest` holds, or the failure of `rest`. */
  function Prepend(ids: seq<string>, rest: Result<seq<string>>): Result<seq<string>> {
    match rest
    case Failure(e) => Failure(e)
    case Success(more) => Success(ids + more)
  }

  /**
   * getAppIdList: none for a null application string; otherwise the text before the first
   * ':' of each ','-separated chunk (the whole string is the one chunk when it holds no ',').
   */
  method GetAppIdList(installedApps: Option<string>) returns (r: Result<seq<string>>)
    ensures installedApps.None? ==> r == Success([])
    ensures installedApps.Some? ==> r == AppIds(Split(installedApps.value, ','))
  {
    if installedApps.None? {
      return Success([]);
    }
    var apps := installedApps.value;
    var chunks: seq<string>;
    ContainsChar(apps, ',');
    if Contains(apps, ",") {
      chunks := Split(apps, ',');
    } else {
      SplitAbsent(apps, ',');
      chunks := [apps];
    }
    r := FirstFields(chunks);
  }

  /** The ids of chunks headed by one with a first field: that field, then the ids of the rest. */
  lemma AppIdsCons(c: seq<string>)
    requires c != [] && FirstField(c[0]).Some?
    ensures AppIds(c) == Prepend([FirstField(c[0]).value], AppIds(c[1..]))
  {
  }

  /** Prepending in two steps is prepending the concatenation. */
  lemma PrependTwice(ids: seq<string>, id: string, rest: Result<seq<string>>)
    ensures Prepend(ids, Prepend([id], rest)) == Prepend(ids + [id], rest)
  {
    if rest.Success? {
      assert (ids + [id]) + rest.value == ids + ([id] + rest.value);
    }
  }

  /** The loop of getAppIdList: the first field of each chunk, in order. */
  method FirstFields(chunks: seq<string>) returns (r: Result<seq<string>>)
    ensures r == AppIds(chunks)
  {
    var ids: seq<string> := [];
    var i := 0;
    assert chunks[0..] == chunks;
    assert Prepend([], AppIds(chunks)) == AppIds(chunks) by {
      if AppIds(chunks).Success? {
        assert [] + AppIds(chunks).value == AppIds(chunks).value;
      }
    }
    while i < |chunks|
      invariant 0 <= i <= |chunks|
      invariant AppIds(chunks) == Prepend(ids, AppIds(chunks[i..]))
    {
      assert chunks[i..][0] == chunks[i] && chunks[i..][1..] == chunks[i + 1..];
      var fields := Split(chunks[i], ':');
      if fields == [] {
        return Failure(IndexOutOfBounds);
      }
      AppIdsCons(chunks[i..]);
      PrependTwice(ids, fields[0], AppIds(chunks[i + 1..]));
      ids := ids + [fields[0]];
      i := i + 1;
    }
    assert ids + [] == ids;
    r := Success(ids);
  }

  /** isInstalledApp over the chunks, first to last: true at the first chunk whose first field is `appId`. */
  function InstalledIn(chunks: seq<string>, appId: string): Result<bool> {
    if chunks == [] then Success(false)
    else match FirstField(chunks[0])
      case None => Failure(IndexOutOfBounds)
      case Some(id) => if id == appId then Success(true) else InstalledIn(chunks[1..], appId)
  }

  /** isInstalledApp: false for a null application string, else whether some chunk's id is `appId`. */
  method IsInstalledApp(installedApps: Option<string>, appId: string) returns (r: Result<bool>)
    ensures installedApps.None? ==> r == Success(false)
    ensures installedApps.Some? ==> r == InstalledIn(Split(installedApps.value, ','), appId)
  {
    if installedApps.None? {
      return Success(false);
    }
    var apps := Split(installedApps.value, ',');
    var idx := 0;
    while idx < |apps|
      invariant 0 <= idx <= |apps|
      invariant InstalledIn(apps[idx..], appId) == InstalledIn(apps, appId)
    {
      assert apps[idx..][1..] == apps[idx + 1..];
      var appPart := Split(apps[idx], ':');
      if appPart == [] {
        return Failure(IndexOutOfBounds);
      }
      if appPart[0] == appId {
        return Success(true);
      }
      idx := idx + 1;
    }
    return Success(false);
  }

  /** When the ids can be listed, an application is installed exactly when its id is listed. */
  lemma {:induction false} InstalledIffListed(chunks: seq<string>, appId: string)
    requires AppIds(chunks).Success?
    ensures InstalledIn(chunks, appId) == Success(appId in AppIds(chunks).value)
  {
    if chunks != [] {
      InstalledIffListed(chunks[1..], appId);
    }
  }

  /**
   * getAppStatusPattern: the text from the first occurrence of `appId` up to the next ',',
   * when it splits on ':' into exactly four fields; null otherwise.
   */
  function AppStatusPattern(installedApps: Option<string>, appId: string): (r: Option<string>)
    ensures installedApps.None? || !Contains(installedApps.value, appId) ==> r.None?
    ensures r.Some? ==>
              var apps := installedApps.value;
              |Split(r.value, ':')| == 4 && ',' !in r.value &&
              r.value <= apps[IndexOf(apps, appId)..] &&
              (',' !in appId ==> appId <= r.value)
    ensures installedApps.Some? && Contains(installedApps.value, appId) ==>
              var apps := installedApps.value;
              var cut := CutAtComma(apps[IndexOf(apps, appId)..]);
              r == (if |Split(cut, ':')| == 4 then Some(cut) else None)
  {
    if installedApps.None? || !Contains(installedApps.value, appId) then None
    else
      var apps := installedApps.value;
      var from := apps[IndexOf(apps, appId)..];
      var appStatus := CutAtComma(from);
      assert ',' !in appId ==> appId <= appStatus by {
        if ',' !in appId {
          CutAtCommaKeeps(from, appId);
        }
      }
      if |Split(appStatus, ':')| != 4 then None else Some(appStatus)
  }

  /** The text of `s` up to its first ',', all of `s` when it holds none. */
  function CutAtComma(s: string): (r: string)
    ensures r <= s && ',' !in r
    ensures |r| == |s| || s[|r|] == ','
  {
    ContainsChar(s, ',');
    IndexOfChar(s, ',');
    if Contains(s, ",") then s[..IndexOf(s, ",")] else s
  }

  /** The cut is the only comma-free prefix of `s` that reaches a ',' or the end of `s`. */
  lemma CutAtCommaUnique(s: string, t: string)
    requires t <= s && ',' !in t && (|t| == |s| || s[|t|] == ',')
    ensures t == CutAtComma(s)
  {
    var c := CutAtComma(s);
    assert t == s[..|t|] && c == s[..|c|];
    assert forall k :: 0 <= k < |t| ==> s[k] != ',' by {
      forall k | 0 <= k < |t| ensures s[k] != ',' { assert t[k] in t; }
    }
    assert forall k :: 0 <= k < |c| ==> s[k] != ',' by {
      forall k | 0 <= k < |c| ensures s[k] != ',' { assert c[k] in c; }
    }
    NoCommaBefore(s, |t|, |c|);
    NoCommaBefore(s, |c|, |t|);
  }

  /** A comma-free run of `n` characters cannot extend past a position `m` holding ',' or the end. */
  lemma NoCommaBefore(s: string, n: nat, m: nat)
    requires n <= |s| && m <= |s|
    requires forall k :: 0 <= k < n ==> s[k] != ','
    requires m == |s| || s[m] == ','
    ensures n <= m
  {
  }

  /**
   * When `pre` is empty, or ends with ',' and does not mention `id`, a comma-free `id`
   * placed right after it is first found there.
   */
  lemma IndexOfAfter(pre: string, id: string, tail: string)
    requires id <= tail && ',' !in id
    requires pre == [] || (pre[|pre| - 1] == ',' && !Contains(pre, id))
    ensures IndexOf(pre + tail, id) == |pre|
  {
    var s := pre + tail;
    assert s[|pre|..] == tail;
    forall i | 0 <= i < |pre| ensures !(id <= s[i..]) {
      if i + |id| <= |pre| {
        assert s[i..][..|id|] == pre[i..][..|id|];
        assert !(id <= pre[i..]);
      } else {
        assert forall k :: 0 <= k < |id| ==> id[k] != ',';
        assert s[i..][|pre| - 1 - i] == ',';
      }
    }
  }

  /** Cutting at the first ',' keeps a comma-free prefix. */
  lemma CutAtCommaKeeps(s: string, t: string)
    requires t <= s && ',' !in t
    ensures t <= CutAtComma(s)
  {
    ContainsChar(s, ',');
    IndexOfChar(s, ',');
  }

  /** getAppStatus: the fourth field of the pattern; NullPointerException when an installed id has no valid pattern. */
  function GetAppStatus(installedApps: Option<string>, appId: string): (r: Result<Option<string>>)
    ensures r == Success(None) <==> installedApps.None? || !Contains(installedApps.value, appId)
    ensures r.Failure? <==> installedApps.Some? && Contains(installedApps.value, appId) &&
                            AppStatusPattern(installedApps, appId).None?
    ensures r.Failure? ==> r.error == NullPointer
    ensures r.Success? && r.value.Some? ==> ':' !in r.value.value
  {
    if installedApps.None? || !Contains(installedApps.value, appId) then Success(None)
    else match AppStatusPattern(installedApps, appId)
      case None => Failure(NullPointer)
      case Some(p) => Success(Some(Split(p, ':')[3]))
  }

  /** getAppNodeName as written: the first field of the pattern, which is the application id. */
  function AppNodeNameAsWritten(installedApps: Option<string>, appId: string): (r: Result<Option<string>>)
    ensures r == Success(None) <==> installedApps.None? || !Contains(installedApps.value, appId)
    ensures r.Failure? <==> installedApps.Some? && Contains(installedApps.value, appId) &&
                            AppStatusPattern(installedApps, appId).None?
    ensures r.Failure? ==> r.error == NullPointer
    ensures r.Success? && r.value.Some? ==> ':' !in r.value.value
  {
    if installedApps.None? || !Contains(installedApps.value, appId) then Success(None)
    else match AppStatusPattern(installedApps, appId)
      case None => Failure(NullPointer)
      case Some(p) => Success(Some(Split(p, ':')[0]))
  }

  /** getAppNodeName as the pattern id:node:removable:status intends: its second field. */
  function AppNodeName(installedApps: Option<string>, appId: string): (r: Result<Option<string>>)
    ensures r == Success(None) <==> installedApps.None? || !Contains(installedApps.value, appId)
    ensures r.Failure? <==> installedApps.Some? && Contains(installedApps.value, appId) &&
                            AppStatusPattern(installedApps, appId).None?
    ensures r.Failure? ==> r.error == NullPointer
    ensures r.Success? && r.value.Some? ==> ':' !in r.value.value
  {
    if installedApps.None? || !Contains(installedApps.value, appId) then Success(None)
    else match AppStatusPattern(installedApps, appId)
      case None => Failure(NullPointer)
      case Some(p) => Success(Some(Split(p, ':')[1]))
  }

  /**
   * isRemovableApp: false only when the pattern's third field is "false"; a null application
   * string, or an installed id without a valid pattern, throws NullPointerException.
   */
  function IsRemovableApp(installedApps: Option<string>, appId: string): (r: Result<bool>)
    ensures r.Failure? <==> installedApps.None? ||
                            (Contains(installedApps.value, appId) && AppStatusPattern(installedApps, appId).None?)
    ensures r.Failure? ==> r.error == NullPointer
    ensures installedApps.Some? && !Contains(installedApps.value, appId) ==> r == Success(true)
  {
    if installedApps.None? then Failure(NullPointer)
    else if !Contains(installedApps.value, appId) then Success(true)
    else match AppStatusPattern(installedApps, appId)
      case None => Failure(NullPointer)
      case Some(p) => Success(Split(p, ':')[2] != "false")
  }

  /** The four fields of an application status joined with ':'. */
  function StatusText(id: string, node: string, removable: string, status: string): string {
    id + [':'] + node + [':'] + removable + [':'] + status
  }

  /** Fields without ':' or ',' hold no separator. */
  predicate PlainField(f: string) {
    ':' !in f && ',' !in f
  }

  /** Splitting the joined fields gives the four fields back. */
  lemma SplitStatusText(id: string, node: string, removable: string, status: string)
    requires PlainField(id) && PlainField(node) && PlainField(removable) && PlainField(status) && status != []
    ensures Split(StatusText(id, node, removable, status), ':') == [id, node, removable, status]
    ensures ',' !in StatusText(id, node, removable, status)
  {
    var tail := node + [':'] + removable + [':'] + status;
    assert StatusText(id, node, removable, status) == id + [':'] + tail;
    SplitAllConcat(id, ':', tail);
    SplitStatusTail(node, removable, status);
  }

  /** The last three fields, joined with ':', split back into those fields. */
  lemma SplitStatusTail(node: string, removable: string, status: string)
    requires PlainField(node) && PlainField(removable) && PlainField(status)
    ensures SplitAll(node + [':'] + removable + [':'] + status, ':') == [node, removable, status]
  {
    assert node + [':'] + removable + [':'] + status == node + [':'] + (removable + [':'] + status);
    SplitAllConcat(node, ':', removable + [':'] + status);
    SplitAllConcat(removable, ':', status);
    SplitAllAbsent(status, ':');
  }

  /**
   * For a space whose applications are `pre`, then "id:node:removable:status", then `rest`,
   * where `pre` is empty or ends with ',' and does not mention the id and `rest` is empty or
   * starts with ',', the parsers read the fields back: the pattern is that application's
   * text, the status is its fourth field, the node name its second, and the application is
   * removable unless its third field is "false".
   */
  lemma StatusRoundTrip(pre: string, id: string, node: string, removable: string, status: string, rest: string)
    requires PlainField(id) && PlainField(node) && PlainField(removable) && PlainField(status) && status != []
    requires pre == [] || (pre[|pre| - 1] == ',' && !Contains(pre, id))
    requires rest == [] || rest[0] == ','
    ensures var apps := Some(pre + StatusText(id, node, removable, status) + rest);
            AppStatusPattern(apps, id) == Some(StatusText(id, node, removable, status)) &&
            GetAppStatus(apps, id) == Success(Some(status)) &&
            AppNodeName(apps, id) == Success(Some(node)) &&
            IsRemovableApp(apps, id) == Success(removable != "false")
  {
    var t := StatusText(id, node, removable, status);
    var s := pre + t + rest;
    SplitStatusText(id, node, removable, status);
    assert id <= t + rest;
    assert s == pre + (t + rest);
    IndexOfAfter(pre, id, t + rest);
    assert s[|pre|..] == t + rest;
    CutAtCommaUnique(t + rest, t);
  }

  /**
   * The as-written getAppNodeName returns the application id where the node name is meant,
   * so it differs from the node name whenever the two differ: for "wiki:WikiNode:true:active"
   * it answers "wiki", alone or among other applications.
   */
  lemma AppNodeNameIsAppId(pre: string, id: string, node: string, removable: string, status: string, rest: string)
    requires PlainField(id) && PlainField(node) && PlainField(removable) && PlainField(status) && status != []
    requires pre == [] || (pre[|pre| - 1] == ',' && !Contains(pre, id))
    requires rest == [] || rest[0] == ','
    ensures AppNodeNameAsWritten(Some(pre + StatusText(id, node, removable, status) + rest), id) == Success(Some(id))
    ensures node != id ==>
              AppNodeNameAsWritten(Some(pre + StatusText(id, node, removable, status) + rest), id) !=
              AppNodeName(Some(pre + StatusText(id, node, removable, status) + rest), id)
  {
    StatusRoundTrip(pre, id, node, removable, status, rest);
    SplitStatusText(id, node, removable, status);
  }

  // ---------------------------------------------------------------- display name and permissions

  /** Whether the last |suffix| characters of `name`, lower-cased, are `suffix`. */
  predicate EndsInLower(name: string, suffix: string) {
    |suffix| <= |name| && ToLower(name[|name| - |suffix|..]) == suffix
  }

  /** getDisplayAppName: a trailing "portlet", else "gadget", in any case, is cut off and the rest trimmed. */
  function GetDisplayAppName(name: string): (r: string)
    ensures |r| <= |name|
    ensures EndsInLower(name, "portlet") ==> r == Trim(name[..|name| - 7])
    ensures !EndsInLower(name, "portlet") && EndsInLower(name, "gadget") ==> r == Trim(name[..|name| - 6])
    ensures !EndsInLower(name, "portlet") && !EndsInLower(name, "gadget") ==> r == name
  {
    var lower := ToLower(name);
    assert |name| >= 7 ==> ToLower(name[|name| - 7..]) == lower[|name| - 7..];
    assert |name| >= 6 ==> ToLower(name[|name| - 6..]) == lower[|name| - 6..];
    if EndsWith(lower, "portlet") then Trim(name[..|name| - 7])
    else if EndsWith(lower, "gadget") then Trim(name[..|name| - 6])
    else name
  }

  /** A name made of a base and a "portlet" or "gadget" suffix, in any case, displays as the trimmed base. */
  lemma DisplayNameDropsSuffix(base: string, suffix: string)
    requires ToLower(suffix) == "portlet" || ToLower(suffix) == "gadget"
    ensures GetDisplayAppName(base + suffix) == Trim(base)
  {
    var name := base + suffix;
    var k := |suffix|;
    assert |ToLower(suffix)| == k;
    assert name[|name| - k..] == suffix;
    assert name[..|name| - k] == base;
    if k == 7 {
      assert EndsInLower(name, "portlet");
    } else {
      assert EndsInLower(name, "gadget");
      assert ToLower(suffix)[3] == 'g';
      if |name| >= 7 {
        var w := ToLower(name[|name| - 7..]);
        assert w[4] == ToLowerChar(suffix[3]) == ToLower(suffix)[3];
      }
      assert !EndsInLower(name, "portlet");
    }
  }

  /**
   * hasViewPermission: the everyone expression always grants; otherwise the expression needs
   * a second ':'-field, which, trimmed, must be the group or the platform users' group.
   */
  function HasViewPermission(everyone: string, expPerm: string, groupId: string): (r: bool)
    ensures expPerm == everyone ==> r
    ensures r && expPerm != everyone ==> ':' in expPerm
  {
    if expPerm == everyone then true
    else
      var temp := Split(expPerm, ':');
      if |temp| < 2 then
        false
      else
        SplitAbsentMeansOne(expPerm);
        var tempExp := Trim(temp[1]);
        tempExp == groupId || tempExp == PLATFORM_USERS_GROUP
  }

  /** A string without ':' splits into at most one field. */
  lemma SplitAbsentMeansOne(s: string)
    ensures ':' !in s ==> |Split(s, ':')| <= 1
  {
    if ':' !in s {
      SplitAbsent(s, ':');
    }
  }

  /** A membership expression "m:g" grants view to group g and to no other group but the platform users'. */
  lemma ViewPermissionOfGroup(everyone: string, m: string, g: string, other: string)
    requires ':' !in m && ':' !in g && g != [] && !IsTrimmed(g[0]) && !IsTrimmed(g[|g| - 1])
    requires m + [':'] + g != everyone
    ensures HasViewPermission(everyone, m + [':'] + g, g)
    ensures HasViewPermission(everyone, m + [':'] + g, other) <==> other == g || g == PLATFORM_USERS_GROUP
  {
    SplitAllConcat(m, ':', g);
    SplitAllFirst(g, ':');
    assert SplitAll(g, ':')[0] == g;
    assert SplitAll(g, ':') == [g];
    assert Split(m + [':'] + g, ':') == [m, g];
    TrimIdentity(g);
  }

  /**
   * hasAccessPermission (for an application and for a category alike): false for a null
   * permission list, else whether some permission expression grants view.
   */
  method HasAccessPermission(everyone: string, permissions: Option<seq<string>>, groupId: string) returns (r: bool)
    ensures r <==> permissions.Some? &&
                   exists i :: 0 <= i < |permissions.value| && HasViewPermission(everyone, permissions.value[i], groupId)
  {
    if permissions.None? {
      return false;
    }
    var ps := permissions.value;
    var i := 0;
    while i < |ps|
      invariant 0 <= i <= |ps|
      invariant forall j :: 0 <= j < i ==> !HasViewPermission(everyone, ps[j], groupId)
    {
      if HasViewPermission(everyone, ps[i], groupId) {
        return true;
      }
      i := i + 1;
    }
    return false;
  }
}
