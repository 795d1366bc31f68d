/**
 * The class loader that merges several delegates, the last one having the highest priority:
 * a single resource is looked up from the last delegate to the first, and the list of all
 * resources of a name is gathered from the first delegate to the last, without duplicates.
 */
module UnifiedClassLoaders {
  import opened Wrappers
  import opened Seqs

  /** A resource location. */
  datatype Url = Url(spec: string)

  /**
   * What the model sees of a delegate class loader: its answer to getResource (`None` for
   * null) and to getResources (`None` for a null enumeration).
   */
  datatype Delegate = Delegate(resource: string -> Option<Url>, resources: string -> Option<seq<Url>>)

  /** The resource found by the delegates at positions `i` down to 0, the highest position first. */
  function HighestFrom(cls: seq<Delegate>, name: string, i: int): Option<Url>
    requires i < |cls|
    decreases i + 1
  {
    if i < 0 then None
    else if cls[i].resource(name).Some? then cls[i].resource(name)
    else HighestFrom(cls, name, i - 1)
  }

  /** The resource of the highest-priority delegate that has one. */
  function Highest(cls: seq<Delegate>, name: string): Option<Url> {
    HighestFrom(cls, name, |cls| - 1)
  }

  /**
   * The search from position `i` down finds nothing exactly when no delegate up to `i` has
   * the resource, and otherwise finds the answer of a delegate above which none up to `i` has it.
   */
  lemma {:induction false} HighestFromSpec(cls: seq<Delegate>, name: string, i: int)
    requires i < |cls|
    ensures HighestFrom(cls, name, i).None? <==> forall j :: 0 <= j <= i ==> cls[j].resource(name).None?
    ensures HighestFrom(cls, name, i).Some? ==>
              exists k :: 0 <= k <= i && cls[k].resource(name) == HighestFrom(cls, name, i) &&
                forall j :: k < j <= i ==> cls[j].resource(name).None?
    decreases i + 1
  {
    if i >= 0 && cls[i].resource(name).None? {
      HighestFromSpec(cls, name, i - 1);
      if HighestFrom(cls, name, i).Some? {
        var k :| 0 <= k <= i - 1 && cls[k].resource(name) == HighestFrom(cls, name, i - 1) &&
                 forall j :: k < j <= i - 1 ==> cls[j].resource(name).None?;
        assert forall j :: k < j <= i ==> cls[j].resource(name).None?;
      }
    }
  }

  /**
   * getResource's answer is null exactly when no delegate has the resource; otherwise it is
   * the answer of the last delegate that has one.
   */
  lemma HighestSpec(cls: seq<Delegate>, name: string)
    ensures Highest(cls, name).None? <==> forall j :: 0 <= j < |cls| ==> cls[j].resource(name).None?
    ensures Highest(cls, name).Some? ==>
              exists k :: 0 <= k < |cls| && cls[k].resource(name) == Highest(cls, name) &&
                forall j :: k < j < |cls| ==> cls[j].resource(name).None?
  {
    HighestFromSpec(cls, name, |cls| - 1);
  }

  /** The resources a delegate lists for `name`, none for a null enumeration. */
  function Listed(d: Delegate, name: string): seq<Url> {
    match d.resources(name)
    case None => []
    case Some(urls) => urls
  }

  /** The insertion-ordered set of every delegate's resources, the first delegate's first. */
  function Collected(cls: seq<Delegate>, name: string): seq<Url> {
    if cls == [] then []
    else AddAllAbsent(Collected(cls[..|cls| - 1], name), Listed(cls[|cls| - 1], name))
  }

  /** The gathered resources hold no duplicates. */
  lemma {:induction false} CollectedDistinct(cls: seq<Delegate>, name: string)
    ensures Distinct(Collected(cls, name))
  {
    if cls != [] {
      CollectedDistinct(cls[..|cls| - 1], name);
      AddAllAbsentProps(Collected(cls[..|cls| - 1], name), Listed(cls[|cls| - 1], name));
    }
  }

  /**
   * The gathered resources keep the order in which the delegates first listed them: the list
   * for the first `i` delegates is a prefix of the list for all of them.
   */
  lemma {:induction false} CollectedPrefix(cls: seq<Delegate>, name: string, i: nat)
    requires i <= |cls|
    ensures Collected(cls[..i], name) <= Collected(cls, name)
  {
    if i < |cls| {
      var init := cls[..|cls| - 1];
      CollectedPrefix(init, name, i);
      assert cls[..i] == init[..i];
      AddAllAbsentProps(Collected(init, name), Listed(cls[|cls| - 1], name));
    } else {
      assert cls[..i] == cls;
    }
  }

  /** Some delegate lists `u`. */
  ghost predicate ListedBySome(cls: seq<Delegate>, name: string, u: Url) {
    exists i :: 0 <= i < |cls| && u in Listed(cls[i], name)
  }

  /** The gathered resources are exactly the resources some delegate lists. */
  lemma {:induction false} CollectedMembers(cls: seq<Delegate>, name: string, u: Url)
    ensures u in Collected(cls, name) <==> ListedBySome(cls, name, u)
  {
    if cls != [] {
      var init := cls[..|cls| - 1];
      var last := Listed(cls[|cls| - 1], name);
      CollectedMembers(init, name, u);
      AddAllAbsentProps(Collected(init, name), last);
      if u in Collected(cls, name) {
        if u in Collected(init, name) {
          var i :| 0 <= i < |init| && u in Listed(init[i], name);
          assert init[i] == cls[i];
        } else {
          assert u in Listed(cls[|cls| - 1], name);
        }
      }
      if ListedBySome(cls, name, u) {
        var i :| 0 <= i < |cls| && u in Listed(cls[i], name);
        if i < |cls| - 1 {
          assert init[i] == cls[i];
          assert ListedBySome(init, name, u);
        } else {
          var k :| 0 <= k < |last| && last[k] == u;
        }
      }
    }
  }

  class UnifiedClassLoader {
    /** The delegates, ordered by priority, the last one highest. */
    const cls: seq<Delegate>

    constructor (cls: seq<Delegate>)
      requires cls != []
      ensures this.cls == cls
    {
      this.cls := cls;
    }

    /** The constructor's check: a null or empty array of delegates is an IllegalArgumentException. */
    static method Create(cls: Option<seq<Delegate>>) returns (r: Result<UnifiedClassLoader>)
      ensures r.Failure? <==> cls.None? || cls.value == []
      ensures r.Failure? ==> r.error == IllegalArgument
      ensures r.Success? ==> r.value.cls == cls.value
    {
      if cls.None? || cls.value == [] {
        return Failure(IllegalArgument);
      }
      var l := new UnifiedClassLoader(cls.value);
      r := Success(l);
    }

    /** getResource: asks the delegates from the last to the first and returns the first answer. */
    method GetResource(name: string) returns (r: Option<Url>)
      ensures r == Highest(cls, name)
    {
      var i := |cls| - 1;
      while i >= 0
        invariant -1 <= i < |cls|
        invariant HighestFrom(cls, name, i) == Highest(cls, name)
        decreases i + 1
      {
        var url := cls[i].resource(name);
        if url.Some? {
          return url;
        }
        i := i - 1;
      }
      return None;
    }

    /** getResources: every delegate's resources, the first delegate's first, each resource once. */
    method GetResources(name: string) returns (urls: seq<Url>)
      ensures urls == Collected(cls, name)
    {
      urls := [];
      var i := 0;
      while i < |cls|
        invariant 0 <= i <= |cls|
        invariant urls == Collected(cls[..i], name)
      {
        assert cls[..i + 1][..i] == cls[..i];
        var eUrls := cls[i].resources(name);
        if eUrls.Some? && eUrls.value != [] {
          urls := AddAllAbsent(urls, eUrls.value);
        }
        i := i + 1;
      }
      assert cls[..i] == cls;
    }
  }
}
