/** The container's collection and string utilities. */
module Tools {
  import opened Wrappers
  import opened JavaLang

  /** set(elements...): the elements as a set; a null array throws NullPointerException. */
  method SetOf<E>(elements: Option<seq<E>>) returns (r: Result<set<E>>)
    ensures r.Failure? <==> elements.None?
    ensures r.Failure? ==> r.error == NullPointer
    ensures r.Success? ==> forall e :: e in r.value <==> e in elements.value
  {
    if elements.None? {
      return Failure(NullPointer);
    }
    var es := elements.value;
    var s: set<E> := {};
    var i := 0;
    while i < |es|
      invariant 0 <= i <= |es|
      invariant forall e :: e in s <==> e in es[..i]
    {
      assert es[..i + 1] == es[..i] + [es[i]];
      s := s + {es[i]};
      i := i + 1;
    }
    assert es[..i] == es;
    r := Success(s);
  }

  /** The non-empty values among the first `n` of `vs`. */
  function NonEmptyUpTo(vs: seq<string>, n: nat): set<string>
    requires n <= |vs|
  {
    if n == 0 then {}
    else NonEmptyUpTo(vs, n - 1) + if vs[n - 1] != [] then {vs[n - 1]} else {}
  }

  /**
   * Each chunk trimmed: every result is the contiguous part of its chunk after the leading
   * blanks, with no blank at either end, and only blanks were dropped around it.
   */
  function TrimAll(parts: seq<string>): (r: seq<string>)
    ensures |r| == |parts|
    ensures forall i :: 0 <= i < |parts| ==> r[i] == Trim(parts[i])
    ensures forall i :: 0 <= i < |parts| ==> IsTrimOf(r[i], parts[i])
  {
    forall i | 0 <= i < |parts| ensures IsTrimOf(Trim(parts[i]), parts[i]) {
      TrimSpec(parts[i]);
    }
    seq(|parts|, i requires 0 <= i < |parts| => Trim(parts[i]))
  }

  /** The trimmed, non-empty chunks of `s` split on ',' (with the trailing empty chunks dropped). */
  function CommaChunks(s: string): set<string> {
    var vs := TrimAll(Split(s, ','));
    NonEmptyUpTo(vs, |vs|)
  }

  /** parseCommaList: the trimmed non-empty chunks of the comma list; a null string throws NullPointerException. */
  method ParseCommaList(s: Option<string>) returns (r: Result<set<string>>)
    ensures r.Failure? <==> s.None?
    ensures r.Failure? ==> r.error == NullPointer
    ensures r.Success? ==> r.value == CommaChunks(s.value)
  {
    if s.None? {
      return Failure(NullPointer);
    }
    var chunks := NonEmptyOf(TrimAll(Split(s.value, ',')));
    r := Success(chunks);
  }

  /** The loop of parseCommaList, over the trimmed pieces of the split: the non-empty ones. */
  method NonEmptyOf(vs: seq<string>) returns (result: set<string>)
    ensures result == NonEmptyUpTo(vs, |vs|)
  {
    result := {};
    var i := 0;
    while i < |vs|
      invariant 0 <= i <= |vs|
      invariant result == NonEmptyUpTo(vs, i)
    {
      var v := vs[i];
      if |v| > 0 {
        result := result + {v};
      }
      i := i + 1;
    }
  }

  /** Every character of `Trim(s)` is a character of `s`. */
  lemma TrimChars(s: string)
    ensures forall c :: c in Trim(s) ==> c in s
  {
    var l := TrimLeft(s);
    forall c | c in Trim(s) ensures c in s {
      assert c in l;
    }
  }

  /** The non-empty values among the first `n` are exactly the non-empty values before `n`. */
  lemma {:induction false} NonEmptyUpToMembers(vs: seq<string>, n: nat, v: string)
    requires n <= |vs|
    ensures v in NonEmptyUpTo(vs, n) <==> v != [] && exists i :: 0 <= i < n && vs[i] == v
  {
    if n > 0 {
      NonEmptyUpToMembers(vs, n - 1, v);
    }
  }

  /**
   * The parsed values are exactly the trimmed non-blank chunks of the list, and each is
   * non-empty, has no leading or trailing blank and holds no comma.
   */
  lemma CommaChunksSpec(s: string, v: string)
    ensures v in CommaChunks(s) <==> v != [] && exists i :: 0 <= i < |Split(s, ',')| && Trim(Split(s, ',')[i]) == v
    ensures v in CommaChunks(s) ==> !IsTrimmed(v[0]) && !IsTrimmed(v[|v| - 1]) && ',' !in v
  {
    var parts := Split(s, ',');
    var vs := TrimAll(parts);
    NonEmptyUpToMembers(vs, |vs|, v);
    if v in CommaChunks(s) {
      var i :| 0 <= i < |vs| && vs[i] == v;
      TrimChars(parts[i]);
    }
  }

  /**
   * asProperties: a copy of the map; a null map throws NullPointerException, and so does an
   * entry with a null key or value, which a Properties table refuses.
   */
  method AsProperties(m: Option<map<Option<string>, Option<string>>>) returns (r: Result<map<string, string>>)
    ensures r.Failure? <==> m.None? || exists k :: k in m.value && (k.None? || m.value[k].None?)
    ensures r.Failure? ==> r.error == NullPointer
    ensures r.Success? ==>
              (forall k :: k in r.value <==> Some(k) in m.value) &&
              forall k :: k in r.value ==> Some(r.value[k]) == m.value[Some(k)]
  {
    if m.None? {
      return Failure(NullPointer);
    }
    var src := m.value;
    var keys := src.Keys;
    var props: map<string, string> := map[];
    while keys != {}
      invariant keys <= src.Keys
      invariant forall k :: k in src && k !in keys ==> k.Some? && src[k].Some?
      invariant forall k :: k in props <==> Some(k) in src && Some(k) !in keys
      invariant forall k :: k in props ==> Some(props[k]) == src[Some(k)]
      decreases |keys|
    {
      var k :| k in keys;
      var v := src[k];
      if k.None? || v.None? {
        return Failure(NullPointer);
      }
      props := props[k.value := v.value];
      keys := keys - {k};
    }
    r := Success(props);
  }

  /** An object stored in a Properties table: a String or anything else. */
  datatype PropertyObject = Text(s: string) | Other(id: nat)

  /** asMap: the entries whose key and value are both Strings; a null table throws NullPointerException. */
  method AsMap(props: Option<map<PropertyObject, PropertyObject>>) returns (r: Result<map<string, string>>)
    ensures r.Failure? <==> props.None?
    ensures r.Failure? ==> r.error == NullPointer
    ensures r.Success? ==>
              (forall k :: k in r.value <==> Text(k) in props.value && props.value[Text(k)].Text?) &&
              forall k :: k in r.value ==> props.value[Text(k)] == Text(r.value[k])
  {
    if props.None? {
      return Failure(NullPointer);
    }
    var src := props.value;
    var keys := src.Keys;
    var m: map<string, string> := map[];
    while keys != {}
      invariant keys <= src.Keys
      invariant forall k :: k in m <==> Text(k) in src && Text(k) !in keys && src[Text(k)].Text?
      invariant forall k :: k in m ==> src[Text(k)] == Text(m[k])
      decreases |keys|
    {
      var key :| key in keys;
      var value := src[key];
      if key.Text? && value.Text? {
        m := m[key.s := value.s];
      }
      keys := keys - {key};
    }
    r := Success(m);
  }

  /**
   * endsWithIgnoreCase: whether the last `|end|` characters of `s` equal `end` up to case;
   * false when `s` is shorter; a null argument throws NullPointerException.
   */
  function EndsWithIgnoreCase(s: Option<string>, end: Option<string>): (r: Result<bool>)
    ensures r.Failure? <==> s.None? || end.None?
    ensures r.Failure? ==> r.error == NullPointer
    ensures r.Success? && |s.value| < |end.value| ==> !r.value
    ensures r.Success? && |s.value| >= |end.value| ==>
              (r.value <==> forall i :: 0 <= i < |end.value| ==>
                 s.value[|s.value| - |end.value| + i] == end.value[i] ||
                 ToUpperChar(s.value[|s.value| - |end.value| + i]) == ToUpperChar(end.value[i]))
  {
    if s.None? || end.None? then Failure(NullPointer)
    else if |s.value| < |end.value| then Success(false)
    else Success(EqualsIgnoreCase(s.value[|s.value| - |end.value|..], end.value))
  }

  /** Every string ends with the empty string and with itself, whatever the case. */
  lemma EndsWithIgnoreCaseTrivial(s: string)
    ensures EndsWithIgnoreCase(Some(s), Some([])) == Success(true)
    ensures EndsWithIgnoreCase(Some(s), Some(s)) == Success(true)
  {
    assert s[|s| - |s|..] == s;
  }
}
