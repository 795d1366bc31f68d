/**
 * The dependency-order comparator shared by the root container (for the queues of init
 * tasks) and the application container (for its set of web application contexts): the
 * contexts named in the dependency list of a portal container come first, in the order of
 * that list, and the other contexts follow, ordered by context name.
 */
module DependencyOrder {
  import opened JavaLang
  import opened Seqs

  /** The servlet context of a web application, known by its context name. */
  datatype WebAppInitContext = WebAppInitContext(contextName: string)

  /** List.indexOf: the first position of `n` in `deps`, or -1 when `n` does not occur. */
  function PositionIn(deps: seq<string>, n: string): (r: int)
    ensures -1 <= r < |deps|
    ensures r == -1 <==> n !in deps
    ensures r >= 0 ==> deps[r] == n && forall j :: 0 <= j < r ==> deps[j] != n
  {
    if deps == [] then -1
    else if deps[0] == n then 0
    else
      var k := PositionIn(deps[1..], n);
      if k == -1 then -1 else k + 1
  }

  /** The comparator on two context names. */
  function Compare(deps: seq<string>, a: string, b: string): (r: int)
    ensures a in deps && b !in deps ==> r == -1
    ensures a !in deps && b in deps ==> r == 1
    ensures a !in deps && b !in deps ==> r == CompareTo(a, b)
  {
    var idx1 := PositionIn(deps, a);
    var idx2 := PositionIn(deps, b);
    if idx1 == -1 && idx2 != -1 then 1
    else if idx1 != -1 && idx2 == -1 then -1
    else if idx1 == -1 && idx2 == -1 then CompareTo(a, b)
    else idx1 - idx2
  }

  /**
   * The three tiers: a named context precedes an unnamed one, two named contexts follow the
   * dependency list, and two unnamed contexts follow the lexicographic order of their names.
   */
  lemma CompareTiers(deps: seq<string>, a: string, b: string)
    ensures a in deps && b !in deps ==> Compare(deps, a, b) < 0 && Compare(deps, b, a) > 0
    ensures a in deps && b in deps ==>
              (Compare(deps, a, b) < 0 <==> PositionIn(deps, a) < PositionIn(deps, b))
    ensures a !in deps && b !in deps ==> Compare(deps, a, b) == CompareTo(a, b)
  {
  }

  /** Only a context compares equal to itself. */
  lemma CompareZero(deps: seq<string>, a: string, b: string)
    ensures Compare(deps, a, b) == 0 <==> a == b
  {
    if a !in deps && b !in deps {
      CompareToZero(a, b);
    }
  }

  /** Swapping the arguments flips the sign. */
  lemma CompareAntisymmetric(deps: seq<string>, a: string, b: string)
    ensures Compare(deps, a, b) == -Compare(deps, b, a)
  {
    if a !in deps && b !in deps {
      CompareToAntisymmetric(a, b);
    }
  }

  /** The strict order is transitive. */
  lemma CompareTransitive(deps: seq<string>, a: string, b: string, c: string)
    requires Compare(deps, a, b) < 0 && Compare(deps, b, c) < 0
    ensures Compare(deps, a, c) < 0
  {
    if a !in deps && b !in deps && c !in deps {
      CompareToTransitive(a, b, c);
    }
  }

  /** The non-strict order is transitive as well. */
  lemma AtMostTransitive(deps: seq<string>, a: string, b: string, c: string)
    requires Compare(deps, a, b) <= 0 && Compare(deps, b, c) <= 0
    ensures Compare(deps, a, c) <= 0
  {
    CompareZero(deps, a, b);
    CompareZero(deps, b, c);
    CompareZero(deps, a, c);
    if Compare(deps, a, b) < 0 && Compare(deps, b, c) < 0 {
      CompareTransitive(deps, a, b, c);
    }
  }

  /** `s` is in comparator order: no element compares greater than a later one. */
  ghost predicate Ordered<T>(deps: seq<string>, s: seq<T>, name: T -> string) {
    forall i, j :: 0 <= i < j < |s| ==> Compare(deps, name(s[i]), name(s[j])) <= 0
  }

  /**
   * `x` inserted into `s` after every element that does not compare greater than it: the
   * position a comparator-ordered queue or set gives the new element.
   */
  function InsertOrdered<T>(deps: seq<string>, s: seq<T>, x: T, name: T -> string): (r: seq<T>)
    ensures |r| == |s| + 1
  {
    if s == [] then [x]
    else if Compare(deps, name(x), name(s[0])) < 0 then [x] + s
    else [s[0]] + InsertOrdered(deps, s[1..], x, name)
  }

  /** Where `InsertOrdered` puts `x`: before the first element that compares greater than it. */
  function InsertPosition<T>(deps: seq<string>, s: seq<T>, x: T, name: T -> string): (p: nat)
    ensures p <= |s|
  {
    if s == [] || Compare(deps, name(x), name(s[0])) < 0 then 0
    else 1 + InsertPosition(deps, s[1..], x, name)
  }

  /** `InsertOrdered` splits `s` at `InsertPosition`. */
  lemma {:induction false} InsertOrderedAt<T>(deps: seq<string>, s: seq<T>, x: T, name: T -> string)
    ensures var p := InsertPosition(deps, s, x, name);
      InsertOrdered(deps, s, x, name) == s[..p] + [x] + s[p..]
  {
    if s != [] && Compare(deps, name(x), name(s[0])) >= 0 {
      InsertOrderedAt(deps, s[1..], x, name);
      var q := InsertPosition(deps, s[1..], x, name);
      assert s[..q + 1] == [s[0]] + s[1..][..q];
      assert s[q + 1..] == s[1..][q..];
    }
  }

  /** Inserting adds `x` and keeps every element of `s`. */
  lemma InsertOrderedPermutes<T>(deps: seq<string>, s: seq<T>, x: T, name: T -> string)
    ensures multiset(InsertOrdered(deps, s, x, name)) == multiset(s) + multiset{x}
  {
    var p := InsertPosition(deps, s, x, name);
    InsertOrderedAt(deps, s, x, name);
    assert s == s[..p] + s[p..];
  }

  /** Every element before the insert position compares at most `x`; the one at it compares greater. */
  lemma {:induction false} InsertPositionBounds<T>(deps: seq<string>, s: seq<T>, x: T, name: T -> string, i: int)
    requires 0 <= i <= InsertPosition(deps, s, x, name) && i < |s|
    ensures i < InsertPosition(deps, s, x, name) ==> Compare(deps, name(s[i]), name(x)) <= 0
    ensures i == InsertPosition(deps, s, x, name) ==> Compare(deps, name(x), name(s[i])) < 0
  {
    if i > 0 {
      InsertPositionBounds(deps, s[1..], x, name, i - 1);
      assert s[1..][i - 1] == s[i];
    } else {
      CompareAntisymmetric(deps, name(x), name(s[0]));
    }
  }

  /** In an ordered sequence, everything from the insert position on compares greater than `x`. */
  lemma InsertPositionSuffix<T>(deps: seq<string>, s: seq<T>, x: T, name: T -> string, i: int)
    requires Ordered(deps, s, name)
    requires InsertPosition(deps, s, x, name) <= i < |s|
    ensures Compare(deps, name(x), name(s[i])) < 0
  {
    var p := InsertPosition(deps, s, x, name);
    InsertPositionBounds(deps, s, x, name, p);
    if i > p {
      CompareZero(deps, name(s[p]), name(s[i]));
      if Compare(deps, name(s[p]), name(s[i])) < 0 {
        CompareTransitive(deps, name(x), name(s[p]), name(s[i]));
      }
    }
  }

  /**
   * Inserting into an ordered sequence keeps it ordered, with `x` after every element that
   * does not compare greater than it and before every element that does.
   */
  lemma InsertOrderedKeepsOrder<T>(deps: seq<string>, s: seq<T>, x: T, name: T -> string)
    requires Ordered(deps, s, name)
    ensures Ordered(deps, InsertOrdered(deps, s, x, name), name)
  {
    var r := InsertOrdered(deps, s, x, name);
    forall i, j | 0 <= i < j < |r| ensures Compare(deps, name(r[i]), name(r[j])) <= 0 {
      InsertOrderedPair(deps, s, x, name, i, j);
    }
  }

  /** One pair of positions of an insertion into an ordered sequence is in order. */
  lemma InsertOrderedPair<T>(deps: seq<string>, s: seq<T>, x: T, name: T -> string, i: int, j: int)
    requires Ordered(deps, s, name)
    requires 0 <= i < j <= |s|
    ensures var r := InsertOrdered(deps, s, x, name); Compare(deps, name(r[i]), name(r[j])) <= 0
  {
    var p := InsertPosition(deps, s, x, name);
    InsertOrderedAt(deps, s, x, name);
    var r := InsertOrdered(deps, s, x, name);
    if j < p {
      assert r[i] == s[i] && r[j] == s[j];
      OrderedPair(deps, s, name, i, j);
    } else if i > p {
      assert r[i] == s[i - 1] && r[j] == s[j - 1];
      OrderedPair(deps, s, name, i - 1, j - 1);
    } else if i == p {
      assert r[i] == x && r[j] == s[j - 1];
      InsertPositionSuffix(deps, s, x, name, j - 1);
    } else if j == p {
      assert r[i] == s[i] && r[j] == x;
      InsertPositionBounds(deps, s, x, name, i);
    } else {
      assert r[i] == s[i] && r[j] == s[j - 1];
      OrderedPair(deps, s, name, i, j - 1);
    }
  }

  /** Two positions of an ordered sequence are in order. */
  lemma OrderedPair<T>(deps: seq<string>, s: seq<T>, name: T -> string, i: int, j: int)
    requires Ordered(deps, s, name)
    requires 0 <= i < j < |s|
    ensures Compare(deps, name(s[i]), name(s[j])) <= 0
  {
  }

  /** Inserting a new value into a distinct sequence keeps it distinct. */
  lemma InsertOrderedDistinct<T>(deps: seq<string>, s: seq<T>, x: T, name: T -> string)
    requires Distinct(s) && x !in s
    ensures Distinct(InsertOrdered(deps, s, x, name))
  {
    var p := InsertPosition(deps, s, x, name);
    InsertOrderedAt(deps, s, x, name);
    var r := InsertOrdered(deps, s, x, name);
    forall i, j | 0 <= i < j < |r| ensures r[i] != r[j] {
      if j < p {
        assert r[i] == s[i] && r[j] == s[j];
      } else if i > p {
        assert r[i] == s[i - 1] && r[j] == s[j - 1];
      } else if i == p {
        assert r[i] == x && r[j] == s[j - 1];
      } else if j == p {
        assert r[i] == s[i] && r[j] == x;
      } else {
        assert r[i] == s[i] && r[j] == s[j - 1];
      }
    }
  }

  /** Removing a value from an ordered sequence leaves it ordered. */
  lemma {:induction false} WithoutKeepsOrder<T>(deps: seq<string>, s: seq<T>, x: T, name: T -> string)
    requires Ordered(deps, s, name)
    ensures Ordered(deps, Without(s, x), name)
  {
    if s != [] {
      var t := s[1..];
      OrderedTail(deps, s, name);
      WithoutKeepsOrder(deps, t, x, name);
      if s[0] != x {
        var w := Without(t, x);
        WithoutMembers(t, x);
        forall y | y in w ensures Compare(deps, name(s[0]), name(y)) <= 0 {
          HeadAtMost(deps, s, y, name);
        }
        ConsOrdered(deps, s[0], w, name);
      }
    }
  }

  /** A value that compares at most every value of an ordered sequence can lead it. */
  lemma ConsOrdered<T>(deps: seq<string>, h: T, w: seq<T>, name: T -> string)
    requires Ordered(deps, w, name)
    requires forall y :: y in w ==> Compare(deps, name(h), name(y)) <= 0
    ensures Ordered(deps, [h] + w, name)
  {
    var r := [h] + w;
    forall i, j | 0 <= i < j < |r| ensures Compare(deps, name(r[i]), name(r[j])) <= 0 {
      assert r[j] == w[j - 1];
      if i > 0 {
        assert r[i] == w[i - 1];
      }
    }
  }

  /** The head of an ordered sequence compares at most any later value. */
  lemma HeadAtMost<T>(deps: seq<string>, s: seq<T>, y: T, name: T -> string)
    requires Ordered(deps, s, name) && s != [] && y in s[1..]
    ensures Compare(deps, name(s[0]), name(y)) <= 0
  {
    var k :| 0 <= k < |s[1..]| && s[1..][k] == y;
    assert s[k + 1] == y;
  }

  /** The tail of an ordered sequence is ordered. */
  lemma OrderedTail<T>(deps: seq<string>, s: seq<T>, name: T -> string)
    requires Ordered(deps, s, name) && s != []
    ensures Ordered(deps, s[1..], name)
  {
    var t := s[1..];
    forall i, j | 0 <= i < j < |t| ensures Compare(deps, name(t[i]), name(t[j])) <= 0 {
      assert t[i] == s[i + 1] && t[j] == s[j + 1];
    }
  }
}
