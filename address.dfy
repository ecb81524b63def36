/** The address parser of the filter (parseEmailAddress). The two regular
    expressions of the source are stated here as grammars: the bare form
      ^[a-zA-Z0-9._%+-]+@[a-zA-Z0-9.-]+\.[a-zA-Z]{2,}$
    and the bracketed form
      ^.*<(bare address)>.*$
    each once as a ghost predicate that reads like the pattern, and once as
    an executable scanner that is proved to agree with it. */
module Address {
  import opened Strings

  predicate IsLetter(c: char) { 'a' <= c <= 'z' || 'A' <= c <= 'Z' }

  predicate IsDigit(c: char) { '0' <= c <= '9' }

  /** The class [a-zA-Z0-9._%+-] of the local part. */
  predicate IsLocalChar(c: char)
  {
    IsLetter(c) || IsDigit(c) || c == '.' || c == '_' || c == '%' || c == '+' || c == '-'
  }

  /** The class [a-zA-Z0-9.-] of the domain part. */
  predicate IsDomainChar(c: char) { IsLetter(c) || IsDigit(c) || c == '.' || c == '-' }

  predicate AllLocal(s: string) { forall i :: 0 <= i < |s| ==> IsLocalChar(s[i]) }

  predicate AllDomain(s: string) { forall i :: 0 <= i < |s| ==> IsDomainChar(s[i]) }

  predicate AllLetters(s: string) { forall i :: 0 <= i < |s| ==> IsLetter(s[i]) }

  /** s is local-part '@' domain '.' top-level-label, with the '@' at index
      `at` and the final '.' at index `dot`: a non-empty local part, a
      non-empty domain before the dot, and at least two letters after it. */
  predicate AddressSplit(s: string, at: int, dot: int)
  {
    && 1 <= at && at + 2 <= dot && dot + 3 <= |s|
    && s[at] == '@' && s[dot] == '.'
    && AllLocal(s[..at]) && AllDomain(s[at + 1..dot]) && AllLetters(s[dot + 1..])
  }

  /** The whole string matches the bare address pattern. */
  ghost predicate MatchesAddress(s: string)
  {
    exists at, dot :: AddressSplit(s, at, dot)
  }

  /** Every character of a matching address is a local-part character or '@';
      in particular none is '<', '>' or a line break. */
  lemma AddressChars(s: string)
    requires MatchesAddress(s)
    ensures forall i :: 0 <= i < |s| ==> IsLocalChar(s[i]) || s[i] == '@'
  {
    var at, dot :| AddressSplit(s, at, dot);
    forall i | 0 <= i < |s| ensures IsLocalChar(s[i]) || s[i] == '@' {
      if i < at {
        assert s[..at][i] == s[i];
      } else if at < i < dot {
        assert s[at + 1..dot][i - at - 1] == s[i];
      } else if dot < i {
        assert s[dot + 1..][i - dot - 1] == s[i];
      }
    }
  }

  /** The index of the last occurrence of c in s. */
  function LastIndex(s: string, c: char): (r: Option<nat>)
    ensures r.None? <==> c !in s
    ensures r.Some? ==> r.value < |s| && s[r.value] == c && c !in s[r.value + 1..]
    decreases |s|
  {
    if s == [] then None
    else if s[|s| - 1] == c then Some(|s| - 1)
    else
      var r := LastIndex(s[..|s| - 1], c);
      assert s == s[..|s| - 1] + [s[|s| - 1]];
      r
  }

  /** The domain half of the bare pattern, decided at the last '.'. */
  predicate IsDomain(d: string)
  {
    match LastIndex(d, '.')
    case None => false
    case Some(k) => 1 <= k && k + 3 <= |d| && AllDomain(d[..k]) && AllLetters(d[k + 1..])
  }

  /** The bare pattern, decided by cutting at the first '@' and the last '.'. */
  predicate IsAddress(s: string)
  {
    match Cut(s, '@')
    case None => false
    case Some((local, domain)) => local != [] && AllLocal(local) && IsDomain(domain)
  }

  /** Cut splits at a given index when that is the first occurrence. */
  lemma CutAt(s: string, c: char, i: nat)
    requires i < |s| && s[i] == c && c !in s[..i]
    ensures Cut(s, c) == Some((s[..i], s[i + 1..]))
  {
    var b := Cut(s, c).value.0;
    assert s[|b|] == c;
    assert forall j :: 0 <= j < i ==> s[j] != c by {
      forall j | 0 <= j < i ensures s[j] != c { assert s[..i][j] == s[j]; }
    }
    assert forall j :: 0 <= j < |b| ==> s[j] != c by {
      forall j | 0 <= j < |b| ensures s[j] != c { assert b[j] == s[j]; }
    }
    assert s[..i] == b;
  }

  /** LastIndex finds a given index when no later occurrence exists. */
  lemma LastIndexAt(s: string, c: char, k: nat)
    requires k < |s| && s[k] == c && c !in s[k + 1..]
    ensures LastIndex(s, c) == Some(k)
  {
    var j := LastIndex(s, c).value;
  }

  /** An address accepted by the scanner matches the pattern. */
  lemma ScannedMatches(s: string)
    requires IsAddress(s)
    ensures MatchesAddress(s)
  {
    var r := Cut(s, '@').value;
    var local, domain := r.0, r.1;
    var k := LastIndex(domain, '.').value;
    AddressParts(local, domain, k);
    assert AddressSplit(s, |local|, |local| + 1 + k);
  }

  /** Where the pieces of local '@' domain sit, with a '.' at k in domain. */
  lemma AddressParts(local: string, domain: string, k: nat)
    requires k < |domain|
    ensures var s := local + ['@'] + domain;
      var at, dot := |local|, |local| + 1 + k;
      && s[at] == '@' && s[dot] == domain[k]
      && s[..at] == local && s[at + 1..dot] == domain[..k] && s[dot + 1..] == domain[k + 1..]
  {
  }

  /** A domain with a '.' at k, domain characters before it and at least
      two letters after it is accepted by the domain scanner. */
  lemma DomainScanned(d: string, k: nat)
    requires 1 <= k && k + 3 <= |d| && d[k] == '.'
    requires AllDomain(d[..k]) && AllLetters(d[k + 1..])
    ensures IsDomain(d)
  {
    forall i | k + 1 <= i < |d| ensures d[i] != '.' {
      assert IsLetter(d[k + 1..][i - k - 1]);
    }
    LastIndexAt(d, '.', k);
  }

  /** An address that matches the pattern is accepted by the scanner. */
  lemma MatchesScanned(s: string, at: int, dot: int)
    requires AddressSplit(s, at, dot)
    ensures IsAddress(s)
  {
    NoAtInLocal(s[..at]);
    CutAt(s, '@', at);
    DomainParts(s, at, dot);
    DomainScanned(s[at + 1..], dot - at - 1);
  }

  /** The local-part class does not contain '@'. */
  lemma NoAtInLocal(local: string)
    requires AllLocal(local)
    ensures '@' !in local
  {
    forall i | 0 <= i < |local| ensures local[i] != '@' {
      assert IsLocalChar(local[i]);
    }
  }

  /** The domain of a split address, seen from the text after its '@'. */
  lemma DomainParts(s: string, at: int, dot: int)
    requires 0 <= at < dot < |s|
    ensures s[at + 1..][..dot - at - 1] == s[at + 1..dot]
    ensures s[at + 1..][dot - at..] == s[dot + 1..]
    ensures s[at + 1..][dot - at - 1] == s[dot]
  {
  }

  /** The scanner decides exactly the bare pattern. */
  lemma AddressIff(s: string)
    ensures IsAddress(s) <==> MatchesAddress(s)
  {
    if IsAddress(s) {
      ScannedMatches(s);
    }
    if MatchesAddress(s) {
      var at, dot :| AddressSplit(s, at, dot);
      MatchesScanned(s, at, dot);
    }
  }

  /** The bracketed pattern matches with its '<' at p and its '>' at q: the
      text between them is a bare address, and neither `.*` around them
      crosses a line break (Go's `.` does not match '\n'). */
  ghost predicate BracketAt(s: string, p: int, q: int)
  {
    && 0 <= p < q < |s| && s[p] == '<' && s[q] == '>'
    && '\n' !in s[..p] && '\n' !in s[q + 1..]
    && MatchesAddress(s[p + 1..q])
  }

  /** The match the regular-expression engine reports: the leading `.*` is
      greedy, so among all matches the one whose '<' is rightmost. */
  ghost predicate LastBracketAt(s: string, p: int, q: int)
  {
    BracketAt(s, p, q) && forall p', q' :: BracketAt(s, p', q') ==> p' <= p
  }

  /** The address inside a bracketed match cannot contain '>', so the '>'
      of a match is the first one after its '<'. */
  lemma BracketCut(s: string, p: int, q: int)
    ensures BracketAt(s, p, q) ==> Cut(s[p + 1..], '>') == Some((s[p + 1..q], s[q + 1..]))
  {
    if BracketAt(s, p, q) {
      var g := s[p + 1..q];
      AddressChars(g);
      var t := s[p + 1..];
      assert t[..q - p - 1] == g;
      assert t[q - p..] == s[q + 1..];
      CutAt(t, '>', q - p - 1);
    }
  }

  /** Checks the bracketed pattern with its '<' at p. */
  function BracketFrom(s: string, p: nat): (r: Option<nat>)
    requires p < |s|
    ensures r.Some? ==> BracketAt(s, p, r.value)
    ensures r.None? ==> forall q :: !BracketAt(s, p, q)
  {
    if s[p] == '<' && '\n' !in s[..p] then
      match Cut(s[p + 1..], '>')
      case None =>
        assert forall q :: !BracketAt(s, p, q) by {
          forall q ensures !BracketAt(s, p, q) { BracketCut(s, p, q); }
        }
        None
      case Some((g, rest)) =>
        var q := p + 1 + |g|;
        assert s[p + 1..] == g + ">" + rest;
        assert s[p + 1..q] == g && s[q] == '>' && s[q + 1..] == rest;
        AddressIff(g);
        if '\n' !in rest && IsAddress(g) then Some(q)
        else
          assert forall q' :: BracketAt(s, p, q') ==> q' == q by {
            forall q' ensures BracketAt(s, p, q') ==> q' == q { BracketCut(s, p, q'); }
          }
          None
    else None
  }

  /** The rightmost match of the bracketed pattern whose '<' lies before n. */
  function FindBracket(s: string, n: nat): (r: Option<(nat, nat)>)
    requires n <= |s|
    ensures r.Some? ==> BracketAt(s, r.value.0, r.value.1) && r.value.0 < n
    ensures r.Some? ==> forall p, q :: BracketAt(s, p, q) && p < n ==> p <= r.value.0
    ensures r.None? ==> forall p, q :: BracketAt(s, p, q) ==> n <= p
    decreases n
  {
    if n == 0 then None
    else
      var here := BracketFrom(s, n - 1);
      if here.Some? then Some((n - 1, here.value))
      else FindBracket(s, n - 1)
  }

  /** The engine reports at most one match. */
  lemma LastBracketUnique(t: string, p: int, q: int, p': int, q': int)
    requires LastBracketAt(t, p, q) && LastBracketAt(t, p', q')
    ensures p == p' && q == q'
  {
    BracketCut(t, p, q);
    BracketCut(t, p', q');
  }

  /** The text parseEmailAddress goes on to check: the address inside the
      brackets when the bracketed pattern matches, the trimmed input otherwise. */
  function Extract(t: string): string
  {
    match FindBracket(t, |t|)
    case None => t
    case Some((p, q)) => t[p + 1..q]
  }

  /** parseEmailAddress: trim the input; if the bracketed pattern matches,
      keep the address inside the brackets; accept the result only if it
      matches the bare pattern. None stands for the source's ("", false). */
  function ParseEmailAddress(address: string): (r: Option<string>)
    ensures r.Some? ==> MatchesAddress(r.value)
  {
    var parsed := Extract(TrimSpace(address));
    AddressIff(parsed);
    if IsAddress(parsed) then Some(parsed) else None
  }

  /** Without a bracketed match, the whole text is checked. */
  lemma ExtractNone(t: string)
    requires forall p, q :: !BracketAt(t, p, q)
    ensures Extract(t) == t
  {
  }

  /** With the match the engine reports, the address inside it is checked. */
  lemma ExtractLast(t: string, p: int, q: int)
    requires LastBracketAt(t, p, q)
    ensures Extract(t) == t[p + 1..q]
  {
    var (p0, q0) := FindBracket(t, |t|).value;
    assert LastBracketAt(t, p0, q0);
    LastBracketUnique(t, p, q, p0, q0);
  }

  /** What parseEmailAddress returns, in terms of the two patterns: without a
      bracketed match, the trimmed input if it is a bare address and a
      failure otherwise; with one, the address of the match the engine
      reports. */
  lemma ParseEmailAddressSpec(address: string)
    ensures var t := TrimSpace(address);
      (forall p, q :: !BracketAt(t, p, q)) ==>
        ParseEmailAddress(address) == (if MatchesAddress(t) then Some(t) else None)
    ensures var t := TrimSpace(address);
      forall p, q :: LastBracketAt(t, p, q) ==> ParseEmailAddress(address) == Some(t[p + 1..q])
  {
    var t := TrimSpace(address);
    if forall p, q :: !BracketAt(t, p, q) {
      ExtractNone(t);
      AddressIff(t);
    }
    forall p, q | LastBracketAt(t, p, q) ensures ParseEmailAddress(address) == Some(t[p + 1..q]) {
      ExtractLast(t, p, q);
      AddressIff(t[p + 1..q]);
    }
  }

  /** parseEmailAddress in terms of the trimmed text and what is extracted
      from it. */
  lemma ParseOf(address: string, t: string, x: string)
    requires TrimSpace(address) == t && Extract(t) == x
    ensures ParseEmailAddress(address) == if IsAddress(x) then Some(x) else None
  {
  }

  /** A matching address contains no '<', hence no bracketed match. */
  lemma NoBracketIn(a: string)
    requires MatchesAddress(a)
    ensures forall p, q :: !BracketAt(a, p, q)
  {
    AddressChars(a);
  }

  /** A matching address starts with a local-part character and ends with a
      letter, so trimming leaves it as it is. */
  lemma AddressTrimmed(a: string)
    requires MatchesAddress(a)
    ensures TrimSpace(a) == a
  {
    var at, dot :| AddressSplit(a, at, dot);
    assert IsLocalChar(a[..at][0]);
    assert IsLetter(a[dot + 1..][|a| - dot - 2]);
    TrimSpaceNoop(a);
  }

  /** In `pre <a> post`, with no '<' in post, the match is at `<a>`. */
  lemma BracketedMatch(pre: string, a: string, post: string)
    requires MatchesAddress(a)
    requires '\n' !in pre && '\n' !in post && '<' !in post
    ensures LastBracketAt(pre + "<" + a + ">" + post, |pre|, |pre| + 1 + |a|)
    ensures (pre + "<" + a + ">" + post)[|pre| + 1..|pre| + 1 + |a|] == a
  {
    var s := pre + "<" + a + ">" + post;
    var p, q := |pre|, |pre| + 1 + |a|;
    BracketedParts(pre, a, post);
    assert BracketAt(s, p, q);
    NoOpenAfter(pre, a, post);
  }

  /** Where the pieces of `pre <a> post` sit. */
  lemma BracketedParts(pre: string, a: string, post: string)
    ensures var s := pre + "<" + a + ">" + post;
      var p, q := |pre|, |pre| + 1 + |a|;
      && q < |s| && s[p] == '<' && s[q] == '>'
      && s[..p] == pre && s[p + 1..q] == a && s[q + 1..] == post
  {
  }

  /** With a bare address and no '<' after it, no '<' follows the bracket
      that opens it. */
  lemma NoOpenAfter(pre: string, a: string, post: string)
    requires MatchesAddress(a) && '<' !in post
    ensures var s := pre + "<" + a + ">" + post;
      forall k :: |pre| < k < |s| ==> s[k] != '<'
  {
    var s := pre + "<" + a + ">" + post;
    var p, q := |pre|, |pre| + 1 + |a|;
    AddressChars(a);
    forall k | p < k < |s| ensures s[k] != '<' {
      if k < q {
        assert s[k] == a[k - p - 1];
      } else if q < k {
        assert s[k] == post[k - q - 1];
      }
    }
  }

  /** `pre <a> post` neither starts nor ends with white space when pre and
      post do not. */
  lemma BracketedTrimmed(pre: string, a: string, post: string)
    requires pre == [] || !IsSpace(pre[0])
    requires post == [] || !IsSpace(post[|post| - 1])
    ensures TrimSpace(pre + "<" + a + ">" + post) == pre + "<" + a + ">" + post
  {
    var s := pre + "<" + a + ">" + post;
    assert s[0] == if pre == [] then '<' else pre[0];
    assert s[|s| - 1] == if post == [] then '>' else post[|post| - 1];
    TrimSpaceNoop(s);
  }

  /** An address written as `display <addr> rest` is parsed to the bare
      address between the brackets. */
  lemma BracketedForm(pre: string, a: string, post: string)
    requires MatchesAddress(a)
    requires '\n' !in pre && '\n' !in post && '<' !in post
    requires pre == [] || !IsSpace(pre[0])
    requires post == [] || !IsSpace(post[|post| - 1])
    ensures ParseEmailAddress(pre + "<" + a + ">" + post) == Some(a)
  {
    var s := pre + "<" + a + ">" + post;
    BracketedTrimmed(pre, a, post);
    BracketedExtract(pre, a, post);
    AddressIff(a);
    ParseOf(s, s, a);
  }

  /** The text checked for `pre <a> post` is a. */
  lemma BracketedExtract(pre: string, a: string, post: string)
    requires MatchesAddress(a)
    requires '\n' !in pre && '\n' !in post && '<' !in post
    ensures Extract(pre + "<" + a + ">" + post) == a
  {
    BracketedMatch(pre, a, post);
    ExtractLast(pre + "<" + a + ">" + post, |pre|, |pre| + 1 + |a|);
  }

  /** The text checked for a bare address is the address itself. */
  lemma BareExtract(a: string)
    requires MatchesAddress(a)
    ensures Extract(a) == a
  {
    NoBracketIn(a);
    ExtractNone(a);
  }

  /** A bare address parses to itself. */
  lemma ParseBare(a: string)
    requires MatchesAddress(a)
    ensures ParseEmailAddress(a) == Some(a)
  {
    AddressTrimmed(a);
    BareExtract(a);
    AddressIff(a);
    ParseOf(a, a, a);
  }

  /** Parsing is idempotent: a parsed address parses to itself. */
  lemma ParseIdempotent(address: string)
    requires ParseEmailAddress(address).Some?
    ensures ParseEmailAddress(ParseEmailAddress(address).value) == ParseEmailAddress(address)
  {
    ParseBare(ParseEmailAddress(address).value);
  }
}
