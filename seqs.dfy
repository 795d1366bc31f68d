/** Sequence helpers shared by the models: distinctness, removal of one value, reversal. */
module Seqs {

  /** No value occurs twice in `s`. */
  predicate Distinct<T(==)>(s: seq<T>) {
    forall i, j :: 0 <= i < j < |s| ==> s[i] != s[j]
  }

  /** `s` with every occurrence of `x` removed, the rest in order. */
  function Without<T(==)>(s: seq<T>, x: T): (r: seq<T>)
    ensures |r| <= |s|
  {
    if s == [] then []
    else if s[0] == x then Without(s[1..], x)
    else [s[0]] + Without(s[1..], x)
  }

  /** `Without(s, x)` holds exactly the values of `s` other than `x`. */
  lemma {:induction false} WithoutMembers<T>(s: seq<T>, x: T)
    ensures forall i :: 0 <= i < |Without(s, x)| ==> Without(s, x)[i] in s && Without(s, x)[i] != x
    ensures forall i :: 0 <= i < |s| && s[i] != x ==> s[i] in Without(s, x)
  {
    if s != [] {
      WithoutMembers(s[1..], x);
      var r := Without(s[1..], x);
      forall i | 0 <= i < |Without(s, x)| ensures Without(s, x)[i] in s && Without(s, x)[i] != x {
        if s[0] != x && i == 0 {
        } else if s[0] != x {
          assert Without(s, x)[i] == r[i - 1];
        }
      }
      forall i | 0 < i < |s| && s[i] != x ensures s[i] in Without(s, x) {
        assert s[i] == s[1..][i - 1];
      }
    }
  }

  lemma {:induction false} WithoutAbsent<T>(s: seq<T>, x: T)
    requires x !in s
    ensures Without(s, x) == s
  {
    if s != [] {
      WithoutAbsent(s[1..], x);
    }
  }

  /** The tail of a distinct sequence is distinct and does not hold the head. */
  lemma DistinctTail<T>(s: seq<T>)
    requires Distinct(s) && s != []
    ensures Distinct(s[1..]) && s[0] !in s[1..]
  {
    var t := s[1..];
    forall i, j | 0 <= i < j < |t| ensures t[i] != t[j] {
      assert t[i] == s[i + 1] && t[j] == s[j + 1];
    }
    forall k | 0 <= k < |t| ensures t[k] != s[0] {
      assert t[k] == s[k + 1];
    }
  }

  /** Prepending a new value to a distinct sequence keeps it distinct. */
  lemma DistinctCons<T>(x: T, r: seq<T>)
    requires Distinct(r) && x !in r
    ensures Distinct([x] + r)
  {
    var p := [x] + r;
    forall i, j | 0 <= i < j < |p| ensures p[i] != p[j] {
      assert p[j] == r[j - 1];
      if i > 0 {
        assert p[i] == r[i - 1];
      }
    }
  }

  /** Removing a value that occurs once in a distinct sequence shortens it by one and keeps it distinct. */
  lemma {:induction false} WithoutDistinct<T>(s: seq<T>, x: T)
    requires Distinct(s)
    ensures Distinct(Without(s, x))
    ensures x in s ==> |Without(s, x)| == |s| - 1
    ensures x !in s ==> Without(s, x) == s
  {
    if s != [] {
      DistinctTail(s);
      WithoutDistinct(s[1..], x);
      if s[0] == x {
        WithoutAbsent(s[1..], x);
      } else {
        var r := Without(s[1..], x);
        WithoutMembers(s[1..], x);
        DistinctCons(s[0], r);
        assert x in s ==> x in s[1..];
      }
    }
  }

  /** Removal distributes over concatenation. */
  lemma {:induction false} WithoutConcat<T>(a: seq<T>, b: seq<T>, x: T)
    ensures Without(a + b, x) == Without(a, x) + Without(b, x)
  {
    if a == [] {
      assert a + b == b;
    } else {
      assert (a + b)[1..] == a[1..] + b;
      WithoutConcat(a[1..], b, x);
    }
  }

  /** The last value of a distinct sequence does not occur before it. */
  lemma DistinctLast<T>(s: seq<T>)
    requires Distinct(s) && |s| > 0
    ensures s[|s| - 1] !in s[..|s| - 1]
  {
    var a := s[..|s| - 1];
    forall k | 0 <= k < |a| ensures a[k] != s[|s| - 1] {
      assert a[k] == s[k];
    }
  }

  /** In a distinct sequence, removing the last value drops the last position. */
  lemma WithoutLast<T>(s: seq<T>)
    requires Distinct(s) && |s| > 0
    ensures Without(s, s[|s| - 1]) == s[..|s| - 1]
  {
    DistinctLast(s);
    SnocWithoutLast(s);
  }

  /** Removing the last value of a sequence where it occurs only there drops the last position. */
  lemma {:induction false} SnocWithoutLast<T>(s: seq<T>)
    requires |s| > 0 && s[|s| - 1] !in s[..|s| - 1]
    ensures Without(s, s[|s| - 1]) == s[..|s| - 1]
  {
    var x := s[|s| - 1];
    if |s| == 1 {
      assert Without(s, x) == Without(s[1..], x);
    } else {
      var t := s[1..];
      assert s[0] == s[..|s| - 1][0];
      assert t[|t| - 1] == x;
      assert t[..|t| - 1] == s[1..|s| - 1];
      var u := t[..|t| - 1];
      assert x !in u by {
        forall k | 0 <= k < |u| ensures u[k] != x {
          assert u[k] == s[..|s| - 1][k + 1];
        }
      }
      SnocWithoutLast(t);
      assert Without(s, x) == [s[0]] + Without(t, x);
      assert s[..|s| - 1] == [s[0]] + s[1..|s| - 1];
    }
  }

  /** Appending a new value to a distinct sequence keeps it distinct. */
  lemma DistinctSnoc<T>(r: seq<T>, x: T)
    requires Distinct(r) && x !in r
    ensures Distinct(r + [x])
  {
    var p := r + [x];
    forall i, j | 0 <= i < j < |p| ensures p[i] != p[j] {
      assert p[i] == r[i];
      if j < |r| {
        assert p[j] == r[j];
      }
    }
  }

  /** `s` with `x` appended unless it already occurs (CopyOnWriteArrayList.addIfAbsent). */
  function AddIfAbsent<T(==)>(s: seq<T>, x: T): (r: seq<T>)
    ensures x in r && s <= r
    ensures forall y :: y in r ==> y in s || y == x
    ensures Distinct(s) ==> Distinct(r)
    ensures x in s <==> r == s
  {
    if x in s then s else DistinctSnocIf(s, x); s + [x]
  }

  lemma DistinctSnocIf<T>(s: seq<T>, x: T)
    requires x !in s
    ensures Distinct(s) ==> Distinct(s + [x])
  {
    if Distinct(s) {
      DistinctSnoc(s, x);
    }
  }

  /** `s` after `AddIfAbsent` of each value of `xs` in turn. */
  function AddAllAbsent<T(==)>(s: seq<T>, xs: seq<T>): (r: seq<T>)
  {
    if xs == [] then s else AddIfAbsent(AddAllAbsent(s, xs[..|xs| - 1]), xs[|xs| - 1])
  }

  /** Adding one more value if absent. */
  lemma AddAllAbsentSnoc<T>(s: seq<T>, xs: seq<T>, x: T)
    ensures AddAllAbsent(s, xs + [x]) == AddIfAbsent(AddAllAbsent(s, xs), x)
  {
    assert (xs + [x])[..|xs|] == xs;
  }

  /**
   * Adding values if absent keeps what was there in its place, appends the rest, keeps the
   * result distinct, and holds exactly the old values and the added ones.
   */
  lemma {:induction false} AddAllAbsentProps<T>(s: seq<T>, xs: seq<T>)
    ensures s <= AddAllAbsent(s, xs)
    ensures Distinct(s) ==> Distinct(AddAllAbsent(s, xs))
    ensures forall i :: 0 <= i < |xs| ==> xs[i] in AddAllAbsent(s, xs)
    ensures forall y :: y in AddAllAbsent(s, xs) ==> y in s || y in xs
  {
    if xs != [] {
      var init := xs[..|xs| - 1];
      AddAllAbsentProps(s, init);
      forall i | 0 <= i < |xs| - 1 ensures xs[i] in AddAllAbsent(s, xs) {
        assert xs[i] == init[i];
      }
    }
  }

  /** Distinct sequences of distinct values have as many elements as their sets. */
  lemma {:induction false} DistinctCardinality<T>(s: seq<T>)
    requires Distinct(s)
    ensures |set x | x in s| == |s|
  {
    if s != [] {
      var t := s[1..];
      DistinctTail(s);
      DistinctCardinality(t);
      assert (set x | x in s) == (set x | x in t) + {s[0]};
    }
  }

  /** `s` back to front. */
  function Reversed<T>(s: seq<T>): (r: seq<T>)
    ensures |r| == |s|
  {
    if s == [] then [] else Reversed(s[1..]) + [s[0]]
  }

  lemma {:induction false} ReversedAt<T>(s: seq<T>, k: nat)
    requires k < |s|
    ensures Reversed(s)[k] == s[|s| - 1 - k]
  {
    if k < |s| - 1 {
      ReversedAt(s[1..], k);
    }
  }

  /** Reversing a suffix one position longer appends that position's value. */
  lemma ReversedSuffix<T>(s: seq<T>, k: nat)
    requires 0 < k <= |s|
    ensures Reversed(s[k - 1..]) == Reversed(s[k..]) + [s[k - 1]]
  {
    assert s[k - 1..][1..] == s[k..];
  }

  lemma {:induction false} ReversedReversed<T>(s: seq<T>)
    ensures Reversed(Reversed(s)) == s
  {
    if s != [] {
      ReversedReversed(s[1..]);
      ReversedSnoc(Reversed(s[1..]), s[0]);
    }
  }

  /** Reversing `s + [x]` puts `x` first. */
  lemma {:induction false} ReversedSnoc<T>(s: seq<T>, x: T)
    ensures Reversed(s + [x]) == [x] + Reversed(s)
  {
    if s == [] {
      assert Reversed([x]) == Reversed([x][1..]) + [x];
    } else {
      assert (s + [x])[1..] == s[1..] + [x];
      ReversedSnoc(s[1..], x);
    }
  }

  /** Reversal keeps the values and their distinctness. */
  lemma ReversedDistinct<T>(s: seq<T>)
    requires Distinct(s)
    ensures Distinct(Reversed(s))
    ensures forall x :: x in Reversed(s) <==> x in s
  {
    forall k | 0 <= k < |s| ensures Reversed(s)[k] == s[|s| - 1 - k] {
      ReversedAt(s, k);
    }
    forall x | x in s ensures x in Reversed(s) {
      var i :| 0 <= i < |s| && s[i] == x;
      assert Reversed(s)[|s| - 1 - i] == x;
    }
  }

  /** A distinct sequence cut in two gives two distinct halves with no common value. */
  lemma DistinctSplit<T>(s: seq<T>, n: nat)
    requires Distinct(s) && n <= |s|
    ensures Distinct(s[..n]) && Distinct(s[n..])
    ensures forall x :: x in s[..n] ==> x !in s[n..]
  {
    forall x | x in s[..n] ensures x !in s[n..] {
      var i :| 0 <= i < n && s[..n][i] == x;
      forall j | 0 <= j < |s[n..]| ensures s[n..][j] != x {
        assert s[n..][j] == s[n + j];
      }
    }
    assert forall i, j :: 0 <= i < j < |s[n..]| ==> s[n..][i] == s[n + i] && s[n..][j] == s[n + j];
  }

  /** The first `p` values of `s`, or all of `s` when it is shorter. */
  function Take<T>(s: seq<T>, p: nat): (r: seq<T>)
    ensures r <= s && |r| <= p
    ensures |r| == p || r == s
  {
    if p <= |s| then s[..p] else s
  }

  /** Removing `y` from a prefix gives a prefix of the result of removing it from the whole. */
  lemma WithoutPrefix<T>(s: seq<T>, y: T, p: nat)
    requires p <= |s|
    ensures Without(s[..p], y) <= Without(s, y)
  {
    assert s == s[..p] + s[p..];
    WithoutConcat(s[..p], s[p..], y);
  }

  /** A value among the first `p` of `s` other than `y` is among the first `p` of `Without(s, y)`. */
  lemma WithoutKeepsPrefix<T>(s: seq<T>, y: T, x: T, p: nat)
    requires x in Take(s, p) && x != y
    ensures x in Take(Without(s, y), p)
  {
    var t := Take(s, p);
    WithoutMembers(t, y);
    if p <= |s| {
      WithoutPrefix(s, y, p);
    }
    var w := Without(s, y);
    assert Without(t, y) <= w;
    assert Without(t, y) <= Take(w, p);
  }
}
