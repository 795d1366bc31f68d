/**
 * The pieces of java.lang the modelled code relies on, written out: String.split with a
 * one-character separator (limit 0), trim, ASCII case conversion, indexOf, compareTo,
 * and 64-bit long arithmetic.
 */
module JavaLang {

  const LONG_MIN: int := -0x8000_0000_0000_0000
  const LONG_MAX: int := 0x7FFF_FFFF_FFFF_FFFF

  /** A Java long value. */
  predicate IsLong(x: int) {
    LONG_MIN <= x <= LONG_MAX
  }

  /** Two's-complement wrap-around of a mathematical integer to a Java long. */
  function WrapLong(x: int): (r: int)
    ensures IsLong(r)
    ensures IsLong(x) ==> r == x
    ensures (r - x) % 0x1_0000_0000_0000_0000 == 0
  {
    (x - LONG_MIN) % 0x1_0000_0000_0000_0000 + LONG_MIN
  }

  const INT_MIN: int := -0x8000_0000
  const INT_MAX: int := 0x7FFF_FFFF

  /** A Java int value. */
  predicate IsInt(x: int) {
    INT_MIN <= x <= INT_MAX
  }

  /** Two's-complement wrap-around of a mathematical integer to a Java int. */
  function WrapInt(x: int): (r: int)
    ensures IsInt(r)
    ensures IsInt(x) ==> r == x
    ensures (r - x) % 0x1_0000_0000 == 0
  {
    (x - INT_MIN) % 0x1_0000_0000 + INT_MIN
  }

  /** Java's integer division, which truncates toward zero. */
  function JavaDiv(x: int, d: int): (q: int)
    requires d > 0
    ensures x >= 0 ==> q == x / d
    ensures x < 0 ==> q == -((-x) / d)
  {
    if x >= 0 then x / d else -((-x) / d)
  }

  // ---------------------------------------------------------------- characters

  predicate IsAsciiUpper(c: char) { 'A' <= c <= 'Z' }
  predicate IsAsciiLower(c: char) { 'a' <= c <= 'z' }

  /** Character.isDigit, restricted to the ASCII digits. */
  predicate IsDigit(c: char) { '0' <= c <= '9' }

  /** Character.isLetterOrDigit, restricted to the ASCII letters and digits. */
  predicate IsLetterOrDigit(c: char) { IsAsciiUpper(c) || IsAsciiLower(c) || IsDigit(c) }

  function ToLowerChar(c: char): (r: char)
    ensures !IsAsciiUpper(r)
    ensures IsLetterOrDigit(r) == IsLetterOrDigit(c)
  {
    if IsAsciiUpper(c) then (c as int + 32) as char else c
  }

  function ToUpperChar(c: char): (r: char)
    ensures !IsAsciiLower(r)
  {
    if IsAsciiLower(c) then (c as int - 32) as char else c
  }

  /** String.toLowerCase on ASCII letters. */
  function ToLower(s: string): (r: string)
    ensures |r| == |s|
    ensures forall i :: 0 <= i < |s| ==> r[i] == ToLowerChar(s[i])
  {
    if s == [] then [] else [ToLowerChar(s[0])] + ToLower(s[1..])
  }

  /** String.toUpperCase on ASCII letters. */
  function ToUpper(s: string): (r: string)
    ensures |r| == |s|
    ensures forall i :: 0 <= i < |s| ==> r[i] == ToUpperChar(s[i])
  {
    if s == [] then [] else [ToUpperChar(s[0])] + ToUpper(s[1..])
  }

  /** String.equalsIgnoreCase: same length and each pair of characters equal up to case. */
  predicate EqualsIgnoreCase(a: string, b: string) {
    |a| == |b| && forall i :: 0 <= i < |a| ==> a[i] == b[i] || ToUpperChar(a[i]) == ToUpperChar(b[i])
  }

  // ---------------------------------------------------------------- trim

  /** A character String.trim removes: any code point up to and including the space. */
  predicate IsTrimmed(c: char) { c <= ' ' }

  function TrimLeft(s: string): (r: string)
    ensures r == [] || !IsTrimmed(r[0])
    ensures |r| <= |s| && r == s[|s| - |r|..]
  {
    if s != [] && IsTrimmed(s[0]) then TrimLeft(s[1..]) else s
  }

  function TrimRight(s: string): (r: string)
    ensures r == [] || !IsTrimmed(r[|r| - 1])
    ensures r <= s
  {
    if s != [] && IsTrimmed(s[|s| - 1]) then TrimRight(s[..|s| - 1]) else s
  }

  /** String.trim: both ends stripped of characters up to the space. */
  function Trim(s: string): (r: string)
    ensures r == [] || (!IsTrimmed(r[0]) && !IsTrimmed(r[|r| - 1]))
    ensures |r| <= |s|
  {
    TrimRight(TrimLeft(s))
  }

  /** The number of characters String.trim strips from the front of `s`. */
  function LeadingBlanks(s: string): nat {
    |s| - |TrimLeft(s)|
  }

  /** Everything TrimLeft drops is trimmable. */
  lemma {:induction false} TrimLeftDropsBlanks(s: string)
    ensures forall j :: 0 <= j < LeadingBlanks(s) ==> IsTrimmed(s[j])
  {
    if s != [] && IsTrimmed(s[0]) {
      TrimLeftDropsBlanks(s[1..]);
      forall j | 0 < j < LeadingBlanks(s) ensures IsTrimmed(s[j]) {
        assert s[j] == s[1..][j - 1];
      }
    }
  }

  /** TrimRight keeps a prefix and drops only trimmable characters. */
  lemma {:induction false} TrimRightDropsBlanks(s: string)
    ensures TrimRight(s) == s[..|TrimRight(s)|]
    ensures forall j :: |TrimRight(s)| <= j < |s| ==> IsTrimmed(s[j])
  {
    if s != [] && IsTrimmed(s[|s| - 1]) {
      TrimRightDropsBlanks(s[..|s| - 1]);
    }
  }

  /**
   * `t` is the part of `s` starting at `a` with no trimmable character at either end,
   * everything before and after it being trimmable.
   */
  ghost predicate TrimAt(t: string, s: string, a: nat) {
    a + |t| <= |s| &&
    t == s[a..a + |t|] &&
    (t == [] || (!IsTrimmed(t[0]) && !IsTrimmed(t[|t| - 1]))) &&
    (forall j :: 0 <= j < a ==> IsTrimmed(s[j])) &&
    (forall j :: a + |t| <= j < |s| ==> IsTrimmed(s[j]))
  }

  /**
   * `t` is what String.trim makes of `s`: such a part of `s`, right after its leading blanks.
   */
  ghost predicate IsTrimOf(t: string, s: string) {
    TrimAt(t, s, LeadingBlanks(s))
  }

  /**
   * A prefix `r` of the suffix `l` of `s` from `a`, everything before it in `s` and after it in
   * `l` being trimmable and its ends not, is such a part of `s`.
   */
  lemma TrimAtFrom(s: string, a: nat, l: string, r: string)
    requires a <= |s| && l == s[a..]
    requires forall j :: 0 <= j < a ==> IsTrimmed(s[j])
    requires |r| <= |l| && r == l[..|r|]
    requires forall j :: |r| <= j < |l| ==> IsTrimmed(l[j])
    requires r == [] || (!IsTrimmed(r[0]) && !IsTrimmed(r[|r| - 1]))
    ensures TrimAt(r, s, a)
  {
    assert s[a..][..|r|] == s[a..a + |r|];
    forall j | a + |r| <= j < |s| ensures IsTrimmed(s[j]) {
      assert s[j] == l[j - a];
    }
  }

  /** String.trim as the characterisation above. */
  lemma TrimSpec(s: string)
    ensures IsTrimOf(Trim(s), s)
  {
    var l := TrimLeft(s);
    TrimLeftDropsBlanks(s);
    TrimRightDropsBlanks(l);
    TrimAtFrom(s, LeadingBlanks(s), l, Trim(s));
  }

  /** A string with no trimmable end characters is left as it is. */
  lemma {:induction false} TrimIdentity(s: string)
    requires s == [] || (!IsTrimmed(s[0]) && !IsTrimmed(s[|s| - 1]))
    ensures Trim(s) == s
  {
  }

  /** Every character of `s` is one String.trim removes. */
  predicate AllTrimmed(s: string) {
    forall i :: 0 <= i < |s| ==> IsTrimmed(s[i])
  }

  /** The ends of a non-empty such part are not trimmable. */
  lemma TrimAtEnds(t: string, s: string, a: nat)
    requires TrimAt(t, s, a)
    ensures t != [] ==> a + |t| - 1 < |s| && !IsTrimmed(s[a]) && !IsTrimmed(s[a + |t| - 1])
  {
    if t != [] {
      assert s[a] == t[0] && s[a + |t| - 1] == t[|t| - 1];
    }
  }

  /** Whatever the offsets, `s` has only one such part. */
  lemma TrimAtUnique(s: string, t1: string, a1: nat, t2: string, a2: nat)
    requires TrimAt(t1, s, a1) && TrimAt(t2, s, a2)
    ensures t1 == t2
  {
    TrimAtEnds(t1, s, a1);
    TrimAtEnds(t2, s, a2);
    assert t1 != [] && t2 != [] ==> a1 == a2 && |t1| == |t2|;
  }

  /** Such a part of `x` stays one once `x` is padded with trimmable characters. */
  lemma TrimAtPadded(t: string, x: string, b: nat, pre: string, post: string)
    requires TrimAt(t, x, b) && AllTrimmed(pre) && AllTrimmed(post)
    ensures TrimAt(t, pre + x + post, |pre| + b)
  {
    var s := pre + x + post;
    var a := |pre| + b;
    forall k | 0 <= k < |t| ensures s[a..a + |t|][k] == t[k] {
      assert s[a + k] == x[b + k];
    }
    forall j | 0 <= j < a ensures IsTrimmed(s[j]) {
      if j < |pre| {
        assert s[j] == pre[j];
      } else {
        assert s[j] == x[j - |pre|];
      }
    }
    forall j | a + |t| <= j < |s| ensures IsTrimmed(s[j]) {
      if j < |pre| + |x| {
        assert s[j] == x[j - |pre|];
      } else {
        assert s[j] == post[j - |pre| - |x|];
      }
    }
  }

  /** Such a part is what String.trim returns. */
  lemma TrimAtIsTrim(t: string, s: string, a: nat)
    requires TrimAt(t, s, a)
    ensures Trim(s) == t
  {
    TrimSpec(s);
    TrimAtUnique(s, t, a, Trim(s), LeadingBlanks(s));
  }

  /** String.trim ignores trimmable characters added at either end. */
  lemma TrimPadded(pre: string, x: string, post: string)
    requires AllTrimmed(pre) && AllTrimmed(post)
    ensures Trim(pre + x + post) == Trim(x)
  {
    TrimSpec(x);
    TrimAtPadded(Trim(x), x, LeadingBlanks(x), pre, post);
    TrimAtIsTrim(Trim(x), pre + x + post, |pre| + LeadingBlanks(x));
  }

  /** String.toLowerCase maps a concatenation part by part. */
  lemma LowerConcat(u: string, v: string)
    ensures ToLower(u + v) == ToLower(u) + ToLower(v)
  {
    forall i | 0 <= i < |u + v| ensures ToLower(u + v)[i] == (ToLower(u) + ToLower(v))[i] {
      if i < |u| {
        assert (u + v)[i] == u[i];
      } else {
        assert (u + v)[i] == v[i - |u|];
      }
    }
  }

  /** String.toUpperCase maps a concatenation part by part. */
  lemma UpperConcat(u: string, v: string)
    ensures ToUpper(u + v) == ToUpper(u) + ToUpper(v)
  {
    forall i | 0 <= i < |u + v| ensures ToUpper(u + v)[i] == (ToUpper(u) + ToUpper(v))[i] {
      if i < |u| {
        assert (u + v)[i] == u[i];
      } else {
        assert (u + v)[i] == v[i - |u|];
      }
    }
  }

  /** Case mapping leaves trimmable characters as they are. */
  lemma CaseKeepsBlanks(s: string)
    requires AllTrimmed(s)
    ensures ToLower(s) == s && ToUpper(s) == s
  {
  }

  /** Strings equal up to case have the same upper-case form. */
  lemma EqualsIgnoreCaseUpper(w: string, v: string)
    requires EqualsIgnoreCase(w, v)
    ensures ToUpper(w) == ToUpper(v)
  {
  }

  /** Two characters have the same lower-case form exactly when they are equal up to case. */
  lemma LowerCharsAgree(a: char, b: char)
    ensures ToLowerChar(a) == ToLowerChar(b) <==> (a == b || ToUpperChar(a) == ToUpperChar(b))
  {
  }

  /** Strings are equal up to case exactly when their lower-case forms are equal. */
  lemma EqualsIgnoreCaseLower(w: string, v: string)
    ensures EqualsIgnoreCase(w, v) <==> ToLower(w) == ToLower(v)
  {
    if |w| == |v| {
      forall i | 0 <= i < |w|
        ensures ToLower(w)[i] == ToLower(v)[i] <==> (w[i] == v[i] || ToUpperChar(w[i]) == ToUpperChar(v[i]))
      {
        LowerCharsAgree(w[i], v[i]);
      }
      if ToLower(w) != ToLower(v) {
        var i :| 0 <= i < |w| && ToLower(w)[i] != ToLower(v)[i];
        assert !(w[i] == v[i] || ToUpperChar(w[i]) == ToUpperChar(v[i]));
      }
    }
  }

  /** Lower-casing neither makes nor unmakes a trimmable character. */
  lemma LowerCharKeepsTrimmed(c: char)
    ensures IsTrimmed(ToLowerChar(c)) == IsTrimmed(c)
  {
  }

  /** Upper-casing neither makes nor unmakes a trimmable character. */
  lemma UpperCharKeepsTrimmed(c: char)
    ensures IsTrimmed(ToUpperChar(c)) == IsTrimmed(c)
  {
  }

  /**
   * A character-wise image of `s` that keeps exactly its trimmable positions has the image of
   * such a part as one of its own.
   */
  lemma TrimAtMapped(t: string, s: string, a: nat, t': string, s': string)
    requires TrimAt(t, s, a)
    requires |s'| == |s| && |t'| == |t|
    requires forall j :: 0 <= j < |s| ==> IsTrimmed(s'[j]) == IsTrimmed(s[j])
    requires forall k :: 0 <= k < |t| ==> t'[k] == s'[a + k]
    ensures TrimAt(t', s', a)
  {
    assert t' == s'[a..a + |t'|];
    if t != [] {
      assert s[a] == t[0] && s[a + |t| - 1] == t[|t| - 1];
      assert t'[0] == s'[a] && t'[|t'| - 1] == s'[a + |t| - 1];
    }
  }

  /** Lower-casing keeps such a part of `s` one of the lower-cased `s`. */
  lemma TrimAtLower(t: string, s: string, a: nat)
    requires TrimAt(t, s, a)
    ensures TrimAt(ToLower(t), ToLower(s), a)
  {
    var u, v := ToLower(s), ToLower(t);
    forall j | 0 <= j < |s| ensures IsTrimmed(u[j]) == IsTrimmed(s[j]) {
      LowerCharKeepsTrimmed(s[j]);
    }
    forall k | 0 <= k < |t| ensures v[k] == u[a + k] {
      assert s[a + k] == t[k];
    }
    TrimAtMapped(t, s, a, v, u);
  }

  /** Upper-casing keeps such a part of `s` one of the upper-cased `s`. */
  lemma TrimAtUpper(t: string, s: string, a: nat)
    requires TrimAt(t, s, a)
    ensures TrimAt(ToUpper(t), ToUpper(s), a)
  {
    var u, v := ToUpper(s), ToUpper(t);
    forall j | 0 <= j < |s| ensures IsTrimmed(u[j]) == IsTrimmed(s[j]) {
      UpperCharKeepsTrimmed(s[j]);
    }
    forall k | 0 <= k < |t| ensures v[k] == u[a + k] {
      assert s[a + k] == t[k];
    }
    TrimAtMapped(t, s, a, v, u);
  }

  /** Trimming and lower-casing can be done in either order. */
  lemma TrimLower(s: string)
    ensures Trim(ToLower(s)) == ToLower(Trim(s))
  {
    TrimSpec(s);
    TrimAtLower(Trim(s), s, LeadingBlanks(s));
    TrimAtIsTrim(ToLower(Trim(s)), ToLower(s), LeadingBlanks(s));
  }

  /** Trimming and upper-casing can be done in either order. */
  lemma TrimUpper(s: string)
    ensures Trim(ToUpper(s)) == ToUpper(Trim(s))
  {
    TrimSpec(s);
    TrimAtUpper(Trim(s), s, LeadingBlanks(s));
    TrimAtIsTrim(ToUpper(Trim(s)), ToUpper(s), LeadingBlanks(s));
  }

  // ---------------------------------------------------------------- search

  /** String.indexOf(t): the first position where `t` occurs in `s`, or -1. */
  function IndexOf(s: string, t: string): (r: int)
    ensures -1 <= r
    ensures r >= 0 ==> r <= |s| - |t| && t <= s[r..] && forall i :: 0 <= i < r ==> !(t <= s[i..])
    ensures r == -1 ==> forall i :: 0 <= i <= |s| ==> !(t <= s[i..])
    decreases |s|
  {
    if t <= s then 0
    else if s == [] then -1
    else
      var r := IndexOf(s[1..], t);
      assert forall i :: 1 <= i <= |s| ==> s[i..] == s[1..][i - 1..];
      if r == -1 then -1 else r + 1
  }

  /** String.contains(t). */
  predicate Contains(s: string, t: string) {
    IndexOf(s, t) >= 0
  }

  /** String.lastIndexOf(c): the last position of `c` in `s`, or -1. */
  function LastIndexOf(s: string, c: char): (r: int)
    ensures -1 <= r < |s|
    ensures r >= 0 ==> s[r] == c
    ensures forall i :: r < i < |s| ==> s[i] != c
  {
    LastIndexBefore(s, c, |s|)
  }

  /** The last position of `c` among the first `n` characters of `s`, or -1. */
  function LastIndexBefore(s: string, c: char, n: nat): (r: int)
    requires n <= |s|
    ensures -1 <= r < n
    ensures r >= 0 ==> s[r] == c
    ensures forall i :: r < i < n ==> s[i] != c
  {
    if n == 0 then -1
    else if s[n - 1] == c then n - 1
    else LastIndexBefore(s, c, n - 1)
  }

  /** The text after the last `c` (all of `s` when there is none) is a suffix free of `c`, preceded by `c`. */
  lemma AfterLastIndexOf(s: string, c: char)
    ensures var t := s[LastIndexOf(s, c) + 1..];
      c !in t && EndsWith(s, t) && (|t| < |s| ==> s[|s| - |t| - 1] == c)
  {
    AfterPosition(s, c, LastIndexOf(s, c));
  }

  /** The suffix after a position `i` of `c` (or after -1) beyond which `c` does not occur. */
  lemma AfterPosition(s: string, c: char, i: int)
    requires -1 <= i < |s| && (i >= 0 ==> s[i] == c)
    requires forall j :: i < j < |s| ==> s[j] != c
    ensures c !in s[i + 1..]
    ensures EndsWith(s, s[i + 1..])
    ensures |s[i + 1..]| < |s| ==> s[|s| - |s[i + 1..]| - 1] == c
  {
    AbsentFrom(s, c, i + 1);
  }

  /** A character absent from every position from `n` on is absent from the suffix at `n`. */
  lemma AbsentFrom(s: string, c: char, n: nat)
    requires n <= |s|
    requires forall j :: n <= j < |s| ==> s[j] != c
    ensures c !in s[n..]
  {
    var t := s[n..];
    forall k | 0 <= k < |t| ensures t[k] != c {
      assert t[k] == s[n + k];
    }
  }

  /** String.endsWith(t). */
  predicate EndsWith(s: string, t: string) {
    |t| <= |s| && s[|s| - |t|..] == t
  }

  /** String.compareTo: the difference of the first differing characters, else of the lengths. */
  function CompareTo(a: string, b: string): int {
    if a == [] || b == [] then |a| - |b|
    else if a[0] != b[0] then a[0] as int - b[0] as int
    else CompareTo(a[1..], b[1..])
  }

  lemma {:induction false} CompareToZero(a: string, b: string)
    ensures CompareTo(a, b) == 0 <==> a == b
  {
    if a != [] && b != [] && a[0] == b[0] {
      CompareToZero(a[1..], b[1..]);
      assert a == [a[0]] + a[1..] && b == [b[0]] + b[1..];
    }
  }

  lemma {:induction false} CompareToAntisymmetric(a: string, b: string)
    ensures CompareTo(a, b) == -CompareTo(b, a)
  {
    if a != [] && b != [] && a[0] == b[0] {
      CompareToAntisymmetric(a[1..], b[1..]);
    }
  }

  lemma {:induction false} CompareToTransitive(a: string, b: string, c: string)
    requires CompareTo(a, b) < 0 && CompareTo(b, c) < 0
    ensures CompareTo(a, c) < 0
  {
    if a != [] && b != [] && c != [] && a[0] == b[0] && b[0] == c[0] {
      CompareToTransitive(a[1..], b[1..], c[1..]);
    }
  }

  // ---------------------------------------------------------------- split

  /** Every piece of `s` between occurrences of `c`, empty pieces included. */
  function SplitAll(s: string, c: char): (r: seq<string>)
    ensures |r| >= 1
    ensures forall i :: 0 <= i < |r| ==> c !in r[i]
  {
    if s == [] then [[]]
    else
      var rest := SplitAll(s[1..], c);
      if s[0] == c then [[]] + rest else [[s[0]] + rest[0]] + rest[1..]
  }

  /** The pieces joined back with `c` between them. */
  function Join(parts: seq<string>, c: char): string {
    if |parts| <= 1 then (if parts == [] then [] else parts[0])
    else parts[0] + [c] + Join(parts[1..], c)
  }

  /** Splitting on every occurrence loses nothing: joining the pieces gives the string back. */
  lemma {:induction false} JoinSplitAll(s: string, c: char)
    ensures Join(SplitAll(s, c), c) == s
  {
    if s != [] {
      var rest := SplitAll(s[1..], c);
      JoinSplitAll(s[1..], c);
      if s[0] == c {
        assert SplitAll(s, c) == [[]] + rest;
        assert Join([[]] + rest, c) == [] + [c] + Join(rest, c);
      } else {
        var r := [[s[0]] + rest[0]] + rest[1..];
        assert SplitAll(s, c) == r;
        if |rest| == 1 {
          assert Join(r, c) == [s[0]] + rest[0];
        } else {
          assert r[1..] == rest[1..];
          assert Join(r, c) == [s[0]] + rest[0] + [c] + Join(rest[1..], c);
          assert Join(rest, c) == rest[0] + [c] + Join(rest[1..], c);
        }
      }
    }
  }

  /** The first piece is the text before the first `c` (all of `s` when there is none). */
  lemma {:induction false} SplitAllFirst(s: string, c: char)
    ensures SplitAll(s, c)[0] <= s
    ensures |SplitAll(s, c)[0]| < |s| ==> s[|SplitAll(s, c)[0]|] == c
    ensures |SplitAll(s, c)| == 1 <==> c !in s
  {
    if s != [] {
      SplitAllFirst(s[1..], c);
    }
  }

  /** The pieces with the trailing empty ones dropped. */
  function DropTrailingEmpty(parts: seq<string>): (r: seq<string>)
    ensures r <= parts
    ensures r == [] || r[|r| - 1] != []
    ensures forall i :: |r| <= i < |parts| ==> parts[i] == []
  {
    if parts == [] then []
    else if parts[|parts| - 1] == [] then DropTrailingEmpty(parts[..|parts| - 1])
    else parts
  }

  /** String.split on a one-character separator with limit 0. */
  function Split(s: string, c: char): (r: seq<string>)
    ensures forall i :: 0 <= i < |r| ==> c !in r[i]
  {
    if s == [] then [[]] else DropTrailingEmpty(SplitAll(s, c))
  }

  /** When the split has a first field, that field is the text before the first `c`. */
  lemma SplitFirst(s: string, c: char)
    requires |Split(s, c)| > 0
    ensures Split(s, c)[0] == SplitAll(s, c)[0]
  {
  }

  /** A string without `c` is its own single piece. */
  lemma {:induction false} SplitAllAbsent(s: string, c: char)
    requires c !in s
    ensures SplitAll(s, c) == [s]
  {
    if s != [] {
      assert s[0] in s;
      assert forall x :: x in s[1..] ==> x in s;
      SplitAllAbsent(s[1..], c);
      assert s == [s[0]] + s[1..];
    }
  }

  /** Splitting a string without `c` gives the string itself. */
  lemma SplitAbsent(s: string, c: char)
    requires c !in s
    ensures Split(s, c) == [s]
  {
    if s != [] {
      SplitAllAbsent(s, c);
    }
  }

  /** A piece without `c` followed by `c` splits off as the first piece. */
  lemma {:induction false} SplitAllConcat(a: string, c: char, b: string)
    requires c !in a
    ensures SplitAll(a + [c] + b, c) == [a] + SplitAll(b, c)
  {
    var s := a + [c] + b;
    if a == [] {
      assert s[1..] == b;
    } else {
      assert s[1..] == a[1..] + [c] + b;
      SplitAllConcat(a[1..], c, b);
      assert [s[0]] + a[1..] == a;
    }
  }

  /** Splitting on `c` gives no piece at all exactly when `s` is a non-empty run of `c`. */
  lemma SplitEmpty(s: string, c: char)
    ensures Split(s, c) == [] <==> s != [] && forall i :: 0 <= i < |s| ==> s[i] == c
  {
    if s != [] {
      SplitAllEmpty(s, c);
      var parts := SplitAll(s, c);
      if forall i :: 0 <= i < |parts| ==> parts[i] == [] {
        DropAllEmpty(parts);
      }
    }
  }

  /** Pieces that are all empty are all dropped. */
  lemma {:induction false} DropAllEmpty(parts: seq<string>)
    requires forall i :: 0 <= i < |parts| ==> parts[i] == []
    ensures DropTrailingEmpty(parts) == []
  {
    if parts != [] {
      DropAllEmpty(parts[..|parts| - 1]);
    }
  }

  /** The first occurrence of a character found by indexOf is that character, with none before it. */
  lemma IndexOfChar(s: string, c: char)
    ensures IndexOf(s, [c]) >= 0 ==> IndexOf(s, [c]) < |s| && s[IndexOf(s, [c])] == c && c !in s[..IndexOf(s, [c])]
  {
    var k := IndexOf(s, [c]);
    if k >= 0 {
      assert s[k..][0] == c;
      forall j | 0 <= j < k ensures s[j] != c {
        assert !([c] <= s[j..]);
        assert s[j..][0] == s[j];
      }
    }
  }

  /** A character placed after text free of it is first found there. */
  lemma IndexOfCharAfter(f: string, c: char, rest: string)
    requires c !in f
    ensures IndexOf(f + [c] + rest, [c]) == |f|
  {
    var s := f + [c] + rest;
    assert s[|f|..] == [c] + rest;
    assert forall j :: 0 <= j < |f| ==> s[j] == f[j] && f[j] != c;
    IndexOfChar(s, c);
  }

  /** Every piece of the split is empty exactly when every character is `c`. */
  lemma {:induction false} SplitAllEmpty(s: string, c: char)
    ensures (forall i :: 0 <= i < |SplitAll(s, c)| ==> SplitAll(s, c)[i] == []) <==>
            forall j :: 0 <= j < |s| ==> s[j] == c
  {
    if s != [] {
      SplitAllEmpty(s[1..], c);
      var rest := SplitAll(s[1..], c);
      if s[0] == c {
        var parts := SplitAll(s, c);
        assert parts == [[]] + rest;
        assert forall i :: 1 <= i < |parts| ==> parts[i] == rest[i - 1];
        assert forall i :: 0 <= i < |rest| ==> rest[i] == parts[i + 1];
        assert forall j :: 1 <= j < |s| ==> s[j] == s[1..][j - 1];
        assert forall j :: 0 <= j < |s[1..]| ==> s[1..][j] == s[j + 1];
      } else {
        assert SplitAll(s, c)[0] != [];
      }
    }
  }

  /** contains of a one-character string is membership of the character. */
  lemma ContainsChar(s: string, c: char)
    ensures Contains(s, [c]) <==> c in s
  {
    if c in s {
      var i :| 0 <= i < |s| && s[i] == c;
      assert [c] <= s[i..];
    }
    if Contains(s, [c]) {
      var i := IndexOf(s, [c]);
      assert s[i..][0] == c;
    }
  }
}
