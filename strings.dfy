/** An option type, and the few Go string primitives the filter relies on
    (strings.Split, strings.Join, strings.HasPrefix, strings.Cut,
    strings.TrimSpace), on strings modelled as sequences of characters. */
module Strings {

  datatype Option<+T> = None | Some(value: T)

  /** strings.Split(s, sep) for a one-character separator: the pieces between
      the separators, always at least one (Split("") is [""]). */
  function Split(s: string, sep: char): (r: seq<string>)
    ensures |r| >= 1
    ensures forall i :: 0 <= i < |r| ==> sep !in r[i]
    decreases |s|
  {
    if s == [] then [[]]
    else
      var rest := Split(s[1..], sep);
      if s[0] == sep then [[]] + rest
      else [[s[0]] + rest[0]] + rest[1..]
  }

  /** strings.Join(parts, sep). */
  function Join(parts: seq<string>, sep: char): string
  {
    if |parts| == 0 then []
    else if |parts| == 1 then parts[0]
    else parts[0] + [sep] + Join(parts[1..], sep)
  }

  /** Joining the pieces of a split gives back the original string. */
  lemma {:induction false} JoinSplit(s: string, sep: char)
    ensures Join(Split(s, sep), sep) == s
    decreases |s|
  {
    if s != [] {
      var rest := Split(s[1..], sep);
      JoinSplit(s[1..], sep);
      if s[0] == sep {
        assert ([[]] + rest)[1..] == rest;
        assert s == [sep] + s[1..];
      } else if |rest| == 1 {
        assert s == [s[0]] + s[1..];
      } else {
        var parts := [[s[0]] + rest[0]] + rest[1..];
        assert parts[1..] == rest[1..];
        assert Join(rest, sep) == rest[0] + [sep] + Join(rest[1..], sep);
        assert s == [s[0]] + s[1..];
      }
    }
  }

  /** A piece free of the separator, followed by the separator, splits off as
      exactly one field. */
  lemma {:induction false} SplitCons(p: string, sep: char, t: string)
    requires sep !in p
    ensures Split(p + [sep] + t, sep) == [p] + Split(t, sep)
    decreases |p|
  {
    if p == [] {
      assert p + [sep] + t == [sep] + t;
      assert ([sep] + t)[1..] == t;
    } else {
      SplitCons(p[1..], sep, t);
      assert (p + [sep] + t)[1..] == p[1..] + [sep] + t;
      assert [p[0]] + p[1..] == p;
    }
  }

  /** A string free of the separator is a single field. */
  lemma {:induction false} SplitNone(p: string, sep: char)
    requires sep !in p
    ensures Split(p, sep) == [p]
    decreases |p|
  {
    if p != [] {
      SplitNone(p[1..], sep);
      assert [p[0]] + p[1..] == p;
    }
  }

  /** Splitting a join of separator-free pieces gives back the pieces. */
  lemma {:induction false} SplitJoin(parts: seq<string>, sep: char)
    requires |parts| >= 1
    requires forall i :: 0 <= i < |parts| ==> sep !in parts[i]
    ensures Split(Join(parts, sep), sep) == parts
    decreases |parts|
  {
    if |parts| == 1 {
      SplitNone(parts[0], sep);
    } else {
      SplitJoin(parts[1..], sep);
      SplitCons(parts[0], sep, Join(parts[1..], sep));
      assert [parts[0]] + parts[1..] == parts;
    }
  }

  /** Splitting a separator-free head of fields followed by arbitrary text
      yields the head fields, then the fields of the text. */
  lemma {:induction false} SplitAppend(head: seq<string>, sep: char, t: string)
    requires |head| >= 1
    requires forall i :: 0 <= i < |head| ==> sep !in head[i]
    ensures Split(Join(head, sep) + [sep] + t, sep) == head + Split(t, sep)
    decreases |head|
  {
    if |head| == 1 {
      SplitCons(head[0], sep, t);
    } else {
      SplitAppend(head[1..], sep, t);
      SplitAppendStep(head, sep, t);
    }
  }

  /** The induction step of SplitAppend: one more field in front. */
  lemma SplitAppendStep(head: seq<string>, sep: char, t: string)
    requires |head| >= 2 && sep !in head[0]
    requires Split(Join(head[1..], sep) + [sep] + t, sep) == head[1..] + Split(t, sep)
    ensures Split(Join(head, sep) + [sep] + t, sep) == head + Split(t, sep)
  {
    var rest := Join(head[1..], sep);
    var tail := rest + [sep] + t;
    assert Join(head, sep) == head[0] + [sep] + rest;
    assert Join(head, sep) + [sep] + t == head[0] + [sep] + tail by {
      Regroup(head[0] + [sep], rest, [sep] + t);
    }
    SplitCons(head[0], sep, tail);
    assert [head[0]] + head[1..] == head;
  }

  /** Concatenation is associative. */
  lemma Regroup<T>(a: seq<T>, b: seq<T>, c: seq<T>)
    ensures a + b + c == a + (b + c)
  {
  }

  /** strings.HasPrefix(s, p). */
  predicate HasPrefix(s: string, p: string)
  {
    |p| <= |s| && s[..|p|] == p
  }

  /** strings.Cut(s, c): the text before and after the first occurrence of c,
      or None when c does not occur. */
  function Cut(s: string, c: char): (r: Option<(string, string)>)
    ensures r.None? <==> c !in s
    ensures r.Some? ==> s == r.value.0 + [c] + r.value.1 && c !in r.value.0
  {
    if s == [] then None
    else if s[0] == c then Some(([], s[1..]))
    else
      match Cut(s[1..], c)
      case None => None
      case Some((before, after)) =>
        assert s == [s[0]] + s[1..];
        Some(([s[0]] + before, after))
  }

  /** The first result of strings.Cut(s, c): the whole of s when c is absent. */
  function Before(s: string, c: char): (r: string)
    ensures c !in r
    ensures |r| <= |s| && r == s[..|r|]
    ensures c !in s ==> r == s
    ensures |r| < |s| ==> s[|r|] == c
  {
    match Cut(s, c)
    case None => s
    case Some((before, _)) => assert s[..|before|] == before; before
  }

  /** The second result of strings.Cut(s, c): empty when c is absent. */
  function After(s: string, c: char): string
  {
    match Cut(s, c)
    case None => []
    case Some((_, after)) => after
  }

  /** The first field of a split is the text before the first separator. */
  lemma {:induction false} SplitFirst(s: string, sep: char)
    ensures Split(s, sep)[0] == Before(s, sep)
    decreases |s|
  {
    if s != [] && s[0] != sep {
      SplitFirst(s[1..], sep);
      assert s == [s[0]] + s[1..];
    }
  }

  /** Cutting a string that starts with a separator-free prefix and the
      separator splits it exactly there. */
  lemma {:induction false} CutPrefix(p: string, c: char, t: string)
    requires c !in p
    ensures Cut(p + [c] + t, c) == Some((p, t))
    decreases |p|
  {
    var s := p + [c] + t;
    if p == [] {
      assert s == [c] + t;
      assert s[1..] == t;
    } else {
      assert s[1..] == p[1..] + [c] + t;
      CutPrefix(p[1..], c, t);
      assert [p[0]] + p[1..] == p;
    }
  }

  /** unicode.IsSpace, the test strings.TrimSpace uses. */
  predicate IsSpace(c: char)
  {
    c == '\t' || c == '\n' || c == '\U{0B}' || c == '\U{0C}' || c == '\r' || c == ' '
    || c == '\U{85}' || c == '\U{A0}' || c == '\U{1680}'
    || ('\U{2000}' <= c <= '\U{200A}')
    || c == '\U{2028}' || c == '\U{2029}' || c == '\U{202F}' || c == '\U{205F}' || c == '\U{3000}'
  }

  predicate AllSpace(s: string)
  {
    forall i :: 0 <= i < |s| ==> IsSpace(s[i])
  }

  /** Drops leading white space. */
  function TrimLeft(s: string): (r: string)
    ensures |r| <= |s| && r == s[|s| - |r|..]
    ensures AllSpace(s[..|s| - |r|])
    ensures r != [] ==> !IsSpace(r[0])
    decreases |s|
  {
    if s != [] && IsSpace(s[0]) then
      var r := TrimLeft(s[1..]);
      TrimLeftStep(s, r);
      r
    else s
  }

  /** Drops trailing white space. */
  function TrimRight(s: string): (r: string)
    ensures |r| <= |s| && r == s[..|r|]
    ensures AllSpace(s[|r|..])
    ensures r != [] ==> !IsSpace(r[|r| - 1])
    decreases |s|
  {
    if s != [] && IsSpace(s[|s| - 1]) then
      var r := TrimRight(s[..|s| - 1]);
      TrimRightStep(s, r);
      r
    else s
  }

  /** One more leading white-space character is still a dropped prefix. */
  lemma TrimLeftStep(s: string, r: string)
    requires s != [] && IsSpace(s[0])
    requires |r| <= |s| - 1 && r == s[1..][|s| - 1 - |r|..] && AllSpace(s[1..][..|s| - 1 - |r|])
    ensures r == s[|s| - |r|..] && AllSpace(s[..|s| - |r|])
  {
    SpaceAround(s[..1], s[1..][..|s| - 1 - |r|], []);
    assert s[..|s| - |r|] == s[..1] + s[1..][..|s| - 1 - |r|];
  }

  /** One more trailing white-space character is still a dropped suffix. */
  lemma TrimRightStep(s: string, r: string)
    requires s != [] && IsSpace(s[|s| - 1])
    requires |r| <= |s| - 1 && r == s[..|s| - 1][..|r|] && AllSpace(s[..|s| - 1][|r|..])
    ensures r == s[..|r|] && AllSpace(s[|r|..])
  {
    SpaceAround([], s[..|s| - 1][|r|..], s[|s| - 1..]);
    assert s[|r|..] == s[..|s| - 1][|r|..] + s[|s| - 1..];
  }

  /** White space on either side of white space is white space. */
  lemma SpaceAround(a: string, b: string, c: string)
    requires AllSpace(a) && AllSpace(b) && AllSpace(c)
    ensures AllSpace(a + b) && AllSpace(b + c)
  {
  }

  /** strings.TrimSpace: s without its leading and trailing white space. */
  function TrimSpace(s: string): (r: string)
    ensures |r| <= |s|
    ensures r != [] ==> !IsSpace(r[0]) && !IsSpace(r[|r| - 1])
  {
    TrimEnds(s);
    TrimRight(TrimLeft(s))
  }

  /** Neither end of what the two trims leave is white space. */
  lemma TrimEnds(s: string)
    ensures var r := TrimRight(TrimLeft(s));
      |r| <= |s| && (r != [] ==> !IsSpace(r[0]) && !IsSpace(r[|r| - 1]))
  {
    var l := TrimLeft(s);
    assert TrimRight(l) != [] ==> TrimRight(l)[0] == l[0];
  }

  /** TrimSpace keeps a slice of s and drops only white space around it. */
  lemma TrimSpaceSlice(s: string)
    ensures exists i, j :: 0 <= i <= j <= |s| && TrimSpace(s) == s[i..j] && AllSpace(s[..i]) && AllSpace(s[j..])
  {
    var l := TrimLeft(s);
    var r := TrimRight(l);
    var i := |s| - |l|;
    var j := i + |r|;
    TrimSlice(s, l, r);
    assert TrimSpace(s) == r == s[i..j];
    assert 0 <= i <= j <= |s| && AllSpace(s[..i]) && AllSpace(s[j..]);
  }

  /** The two trims together cut white space off both ends of s. */
  lemma TrimSlice(s: string, l: string, r: string)
    requires |l| <= |s| && l == s[|s| - |l|..] && AllSpace(s[..|s| - |l|])
    requires |r| <= |l| && r == l[..|r|] && AllSpace(l[|r|..])
    ensures var i := |s| - |l|; r == s[i..i + |r|] && AllSpace(s[i + |r|..])
  {
    var i := |s| - |l|;
    assert s[i + |r|..] == l[|r|..];
  }

  /** A line is blank for the filter exactly when it is made of white space. */
  lemma BlankIff(s: string)
    ensures TrimSpace(s) == [] <==> AllSpace(s)
  {
    var l := TrimLeft(s);
    var i := |s| - |l|;
    assert l != [] ==> l[0] == s[i];
    if TrimSpace(s) == [] {
      assert AllSpace(l) by {
        assert l[|TrimRight(l)|..] == l;
      }
      assert s == s[..i] + l;
      SpaceAround(s[..i], l, []);
    }
  }

  /** TrimSpace leaves a string that neither starts nor ends with white space
      unchanged. */
  lemma TrimSpaceNoop(s: string)
    requires s == [] || (!IsSpace(s[0]) && !IsSpace(s[|s| - 1]))
    ensures TrimSpace(s) == s
  {
    assert TrimLeft(s) == s;
    assert TrimRight(s) == s;
  }
}
