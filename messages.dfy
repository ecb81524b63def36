/** The per-session and per-message records, and the header rewrite a
    message goes through while its DATA section streams past: existing
    X-Spam and X-Spam-Class headers are dropped, the score and the To/From
    addresses are recorded, and at the first blank line fresh X-Spam and
    X-Spam-Class headers are put in front of it. */
module Messages {
  import opened Strings
  import opened Address
  import opened Failures

  /** A spam score: the float32 the score numeral parses to, kept as its bit
      pattern. The model stores and forwards it and never computes with it. */
  type Score = bv32

  datatype Message = Message(
    id: string,
    from: seq<string>,
    to: seq<string>,
    envelopeTo: seq<string>,
    envelopeFrom: seq<string>,
    state: string,
    inHeader: bool,
    spamScore: Score,
    spamScoreSet: bool)

  datatype Session = Session(
    id: string,
    messages: map<string, Message>,
    rdns: string,
    confirmed: bool,
    remote: string,
    local: string,
    authorizedUser: string,
    dataMessage: string)

  /** The states a message goes through. */
  predicate KnownState(state: string)
  {
    state == "init" || state == "data" || state == "commit" || state == "rollback"
  }

  ghost predicate AllAddresses(addresses: seq<string>)
  {
    forall i :: 0 <= i < |addresses| ==> MatchesAddress(addresses[i])
  }

  /** What every stored message satisfies: it is filed under its own id, its
      state is one of the four, and every address it has collected matches
      the bare address pattern. */
  ghost predicate MessageOk(mid: string, m: Message)
  {
    m.id == mid && KnownState(m.state)
    && AllAddresses(m.from) && AllAddresses(m.to)
    && AllAddresses(m.envelopeTo) && AllAddresses(m.envelopeFrom)
  }

  /** What every stored session satisfies: it is filed under its own id and
      each of its messages is. */
  ghost predicate SessionOk(sid: string, s: Session)
  {
    s.id == sid && forall mid :: mid in s.messages ==> MessageOk(mid, s.messages[mid])
  }

  /** NewMessage: a message that has seen nothing yet. */
  function NewMessage(mid: string): (m: Message)
    ensures MessageOk(mid, m)
    ensures m.state == "init" && m.inHeader && !m.spamScoreSet
    ensures m.from == m.to == m.envelopeTo == m.envelopeFrom == []
  {
    Message(mid, [], [], [], [], "init", true, 0, false)
  }

  /** NewSession: a session with no messages and no authorized user. */
  function NewSession(sid: string, rdns: string, confirmed: bool, remote: string, local: string): (s: Session)
    ensures SessionOk(sid, s) && s.messages == map[]
    ensures s.confirmed == confirmed && s.authorizedUser == "" && s.dataMessage == ""
  {
    Session(sid, map[], rdns, confirmed, remote, local, "", "")
  }

  // ---------------------------------------------------------------- the score

  /** parseSpamScore: the second space-separated field, handed to the float
      parser (a parameter here); fatal when there is no such field or the
      parser fails. */
  function ParseSpamScore(line: string, parseScore: string -> Option<Score>): (r: Result<Score>)
    ensures r.Ok? <==> |Split(line, ' ')| >= 2 && parseScore(Split(line, ' ')[1]).Some?
    ensures r.Ok? ==> Some(r.value) == parseScore(Split(line, ' ')[1])
  {
    var fields := Split(line, ' ');
    if |fields| < 2 then Err(MissingSpamScore(line))
    else
      match parseScore(fields[1])
      case None => Err(BadSpamScore(fields[1]))
      case Some(score) => Ok(score)
  }

  /** In an X-Spam-Score header the second field always exists: it is the
      text after the header name up to the next space. */
  lemma ScoreNumeral(line: string)
    requires HasPrefix(line, "X-Spam-Score: ")
    ensures |Split(line, ' ')| >= 2 && Split(line, ' ')[1] == Before(line[14..], ' ')
  {
    assert line == "X-Spam-Score:" + [' '] + line[14..];
    SplitCons("X-Spam-Score:", ' ', line[14..]);
    SplitFirst(line[14..], ' ');
  }

  // ------------------------------------------------------- the class address

  /** The address the class lookup is keyed on: the first To address with
      any +alias cut from its local part; None when it has no '@'. */
  function ClassificationAddress(to: string): (r: Option<string>)
    ensures r.None? <==> '@' !in to
  {
    match Cut(to, '@')
    case None => None
    case Some((name, domain)) => Some(Before(name, '+') + "@" + domain)
  }

  /** An alias is removed from the local part and everything else is kept;
      an address without an alias is its own classification address. */
  lemma AliasStripped(local: string, tag: string, domain: string)
    requires '@' !in local && '+' !in local && '@' !in tag
    ensures ClassificationAddress(local + "+" + tag + "@" + domain) == Some(local + "@" + domain)
    ensures ClassificationAddress(local + "@" + domain) == Some(local + "@" + domain)
  {
    var aliased := local + "+" + tag;
    assert '@' !in aliased;
    CutPrefix(aliased, '@', domain);
    CutPrefix(local, '+', tag);
    CutPrefix(local, '@', domain);
  }

  // ------------------------------------------------------------ the boundary

  /** The boundary branch of filterDataLine: with a score, a To address and
      an envelope recipient known, an X-Spam header (yes exactly for the
      class "spam") and, for a non-empty class, an X-Spam-Class header go in
      front of the blank line; otherwise the blank line alone (fail open). */
  function Boundary(m: Message, line: string, getClass: (seq<string>, Score) -> string): (r: seq<string>)
    ensures |r| >= 1 && r[|r| - 1] == line
    ensures !m.spamScoreSet || m.to == [] || m.envelopeTo == [] || '@' !in m.to[0] ==> r == [line]
    ensures m.spamScoreSet && m.to != [] && m.envelopeTo != [] && '@' in m.to[0] ==>
      var spamClass := getClass([ClassificationAddress(m.to[0]).value], m.spamScore);
      && |r| == (if spamClass == "" then 2 else 3)
      && (r[0] == "X-Spam: yes" <==> spamClass == "spam")
      && (r[0] == "X-Spam: no" <==> spamClass != "spam")
      && (spamClass != "" ==> r[1] == "X-Spam-Class: " + spamClass)
  {
    if !m.spamScoreSet || |m.to| < 1 || |m.envelopeTo| < 1 then [line]
    else
      match ClassificationAddress(m.to[0])
      case None => [line]
      case Some(address) =>
        var spamClass := getClass([address], m.spamScore);
        var output := if spamClass != "" then ["X-Spam-Class: " + spamClass, line] else [line];
        var spamState := if spamClass == "spam" then "yes" else "no";
        ["X-Spam: " + spamState] + output
  }

  // ------------------------------------------------------- the header rewrite

  /** A message after one data line, and the lines that go out for it. */
  datatype Filtered = Filtered(message: Message, lines: seq<string>)

  /** The header lines filterDataLine treats specially. */
  predicate SpecialHeader(line: string)
  {
    HasPrefix(line, "X-Spam-Score: ") || HasPrefix(line, "X-Spam: ") || HasPrefix(line, "X-Spam-Class: ")
    || HasPrefix(line, "To: ") || HasPrefix(line, "From: ")
  }

  /** The address a header value adds to the message: none when it does
      not parse. */
  function ParsedAddress(value: string): (r: seq<string>)
    ensures |r| <= 1
    ensures forall i :: 0 <= i < |r| ==> MatchesAddress(r[i])
    ensures r == [] <==> ParseEmailAddress(value).None?
    ensures r != [] ==> r[0] == ParseEmailAddress(value).value
  {
    match ParseEmailAddress(value)
    case None => []
    case Some(address) => [address]
  }

  /** filterDataLine: one header line (or the blank line ending the header). */
  function FilterDataLine(m: Message, line: string, parseScore: string -> Option<Score>,
                          getClass: (seq<string>, Score) -> string): (r: Result<Filtered>)
  {
    if HasPrefix(line, "X-Spam-Score: ") then
      match ParseSpamScore(line, parseScore)
      case Err(e) => Err(e)
      case Ok(score) => Ok(Filtered(m.(spamScore := score, spamScoreSet := true), [line]))
    else if HasPrefix(line, "X-Spam: ") then Ok(Filtered(m, []))
    else if HasPrefix(line, "X-Spam-Class: ") then Ok(Filtered(m, []))
    else if HasPrefix(line, "To: ") then
      Ok(Filtered(m.(to := m.to + ParsedAddress(After(line, ' '))), [line]))
    else if HasPrefix(line, "From: ") then
      Ok(Filtered(m.(from := m.from + ParsedAddress(After(line, ' '))), [line]))
    else if TrimSpace(line) == [] then Ok(Filtered(m, Boundary(m, line, getClass)))
    else Ok(Filtered(m, [line]))
  }

  /** A line starting with one of the special header names is not blank. */
  lemma SpecialNotBlank(line: string)
    ensures SpecialHeader(line) ==> !AllSpace(line)
  {
    if |line| >= 4 {
      assert line[..4][0] == line[0];
    }
  }

  /** Two header names that differ at position k cannot both start a line. */
  lemma PrefixesDiffer(line: string, p: string, q: string, k: nat)
    requires HasPrefix(line, p) && k < |p| && k < |q| && p[k] != q[k]
    ensures !HasPrefix(line, q)
  {
    assert line[k] == p[k];
  }

  /** The value of a header is what follows the header name and its space. */
  lemma HeaderValue(line: string, header: string)
    requires HasPrefix(line, header) && |header| >= 1 && header[|header| - 1] == ' '
    requires ' ' !in header[..|header| - 1]
    ensures After(line, ' ') == line[|header|..]
  {
    var name := header[..|header| - 1];
    assert line == name + [' '] + line[|header|..];
    CutPrefix(name, ' ', line[|header|..]);
  }

  /** A line naming neither X-Spam header nor X-Spam-Score is not taken by
      the first three cases. */
  lemma NotSpamHeader(line: string, header: string)
    requires HasPrefix(line, header) && |header| >= 1 && header[0] != 'X'
    ensures !HasPrefix(line, "X-Spam-Score: ") && !HasPrefix(line, "X-Spam: ") && !HasPrefix(line, "X-Spam-Class: ")
  {
    PrefixesDiffer(line, header, "X-Spam-Score: ", 0);
    PrefixesDiffer(line, header, "X-Spam: ", 0);
    PrefixesDiffer(line, header, "X-Spam-Class: ", 0);
  }

  /** Existing X-Spam and X-Spam-Class headers are dropped. */
  lemma DropsSpamHeaders(m: Message, line: string, parseScore: string -> Option<Score>,
                         getClass: (seq<string>, Score) -> string)
    requires HasPrefix(line, "X-Spam: ") || HasPrefix(line, "X-Spam-Class: ")
    ensures FilterDataLine(m, line, parseScore, getClass) == Ok(Filtered(m, []))
  {
    if HasPrefix(line, "X-Spam: ") {
      PrefixesDiffer(line, "X-Spam: ", "X-Spam-Score: ", 6);
    } else {
      PrefixesDiffer(line, "X-Spam-Class: ", "X-Spam-Score: ", 7);
    }
  }

  /** An X-Spam-Score header passes through and records the score; it is
      fatal when the numeral after the header name does not parse. */
  lemma RecordsScore(m: Message, line: string, parseScore: string -> Option<Score>,
                     getClass: (seq<string>, Score) -> string)
    requires HasPrefix(line, "X-Spam-Score: ")
    ensures var r := FilterDataLine(m, line, parseScore, getClass);
      var score := parseScore(Before(line[14..], ' '));
      && (r.Ok? <==> score.Some?)
      && (r.Ok? ==> r.value == Filtered(m.(spamScore := score.value, spamScoreSet := true), [line]))
  {
    ScoreNumeral(line);
  }

  /** A To header passes through and adds the address it carries, when that
      parses. */
  lemma RecordsTo(m: Message, line: string, parseScore: string -> Option<Score>,
                  getClass: (seq<string>, Score) -> string)
    requires HasPrefix(line, "To: ")
    ensures FilterDataLine(m, line, parseScore, getClass)
         == Ok(Filtered(m.(to := m.to + ParsedAddress(line[4..])), [line]))
    ensures ParseEmailAddress(line[4..]).Some? ==>
      FilterDataLine(m, line, parseScore, getClass)
        == Ok(Filtered(m.(to := m.to + [ParseEmailAddress(line[4..]).value]), [line]))
    ensures ParseEmailAddress(line[4..]).None? ==>
      FilterDataLine(m, line, parseScore, getClass) == Ok(Filtered(m, [line]))
  {
    ToHeader(m, line, parseScore, getClass);
    if ParseEmailAddress(line[4..]).None? {
      assert m.to + [] == m.to;
    }
  }

  /** RecordsTo with the added address as ParsedAddress gives it. */
  lemma ToHeader(m: Message, line: string, parseScore: string -> Option<Score>,
                 getClass: (seq<string>, Score) -> string)
    requires HasPrefix(line, "To: ")
    ensures FilterDataLine(m, line, parseScore, getClass)
         == Ok(Filtered(m.(to := m.to + ParsedAddress(line[4..])), [line]))
  {
    NotSpamHeader(line, "To: ");
    HeaderValue(line, "To: ");
  }

  /** A From header passes through and adds the address it carries, when
      that parses. */
  lemma RecordsFrom(m: Message, line: string, parseScore: string -> Option<Score>,
                    getClass: (seq<string>, Score) -> string)
    requires HasPrefix(line, "From: ")
    ensures FilterDataLine(m, line, parseScore, getClass)
         == Ok(Filtered(m.(from := m.from + ParsedAddress(line[6..])), [line]))
    ensures ParseEmailAddress(line[6..]).Some? ==>
      FilterDataLine(m, line, parseScore, getClass)
        == Ok(Filtered(m.(from := m.from + [ParseEmailAddress(line[6..]).value]), [line]))
    ensures ParseEmailAddress(line[6..]).None? ==>
      FilterDataLine(m, line, parseScore, getClass) == Ok(Filtered(m, [line]))
  {
    FromHeader(m, line, parseScore, getClass);
    if ParseEmailAddress(line[6..]).None? {
      assert m.from + [] == m.from;
    }
  }

  /** RecordsFrom with the added address as ParsedAddress gives it. */
  lemma FromHeader(m: Message, line: string, parseScore: string -> Option<Score>,
                   getClass: (seq<string>, Score) -> string)
    requires HasPrefix(line, "From: ")
    ensures FilterDataLine(m, line, parseScore, getClass)
         == Ok(Filtered(m.(from := m.from + ParsedAddress(line[6..])), [line]))
  {
    NotSpamHeader(line, "From: ");
    PrefixesDiffer(line, "From: ", "To: ", 0);
    HeaderValue(line, "From: ");
  }

  /** The blank line ending the header gets the generated headers in front
      of it. */
  lemma BlankGetsBoundary(m: Message, line: string, parseScore: string -> Option<Score>,
                          getClass: (seq<string>, Score) -> string)
    requires AllSpace(line)
    ensures FilterDataLine(m, line, parseScore, getClass) == Ok(Filtered(m, Boundary(m, line, getClass)))
  {
    BlankIff(line);
    SpecialNotBlank(line);
  }

  /** Any other header line passes through and changes nothing. */
  lemma OtherPassesThrough(m: Message, line: string, parseScore: string -> Option<Score>,
                           getClass: (seq<string>, Score) -> string)
    requires !SpecialHeader(line) && !AllSpace(line)
    ensures FilterDataLine(m, line, parseScore, getClass) == Ok(Filtered(m, [line]))
  {
    BlankIff(line);
  }

  lemma AddressSnoc(addresses: seq<string>, a: string)
    ensures AllAddresses(addresses) && MatchesAddress(a) ==> AllAddresses(addresses + [a])
  {
    if AllAddresses(addresses) && MatchesAddress(a) {
      forall i | 0 <= i < |addresses + [a]| ensures MatchesAddress((addresses + [a])[i]) {
        if i < |addresses| { assert (addresses + [a])[i] == addresses[i]; }
      }
    }
  }

  /** Adding parsed addresses keeps a list of addresses valid. */
  lemma AddressesAppend(addresses: seq<string>, value: string)
    requires AllAddresses(addresses)
    ensures AllAddresses(addresses + ParsedAddress(value))
  {
    var added := ParsedAddress(value);
    if added == [] {
      assert addresses + added == addresses;
    } else {
      AddressSnoc(addresses, added[0]);
      assert added == [added[0]];
    }
  }

  /** filterDataLine changes nothing but the addresses and the score, adds
      at most one To address, and keeps the message invariant. */
  lemma FilterDataLineKeeps(mid: string, m: Message, line: string, parseScore: string -> Option<Score>,
                            getClass: (seq<string>, Score) -> string)
    requires MessageOk(mid, m)
    ensures var r := FilterDataLine(m, line, parseScore, getClass);
      r.Ok? ==>
        && MessageOk(mid, r.value.message)
        && r.value.message.(from := m.from, to := m.to, spamScore := m.spamScore, spamScoreSet := m.spamScoreSet) == m
        && |m.to| <= |r.value.message.to| <= |m.to| + 1
        && r.value.message.to[..|m.to|] == m.to
  {
    if HasPrefix(line, "X-Spam-Score: ") {
      RecordsScore(m, line, parseScore, getClass);
    } else if HasPrefix(line, "X-Spam: ") || HasPrefix(line, "X-Spam-Class: ") {
      DropsSpamHeaders(m, line, parseScore, getClass);
    } else if HasPrefix(line, "To: ") {
      ToHeader(m, line, parseScore, getClass);
      AddressesAppend(m.to, line[4..]);
    } else if HasPrefix(line, "From: ") {
      FromHeader(m, line, parseScore, getClass);
      AddressesAppend(m.from, line[6..]);
    } else if AllSpace(line) {
      BlankGetsBoundary(m, line, parseScore, getClass);
    } else {
      OtherPassesThrough(m, line, parseScore, getClass);
    }
  }

  /** The message side of dataLine: a line outside the header passes
      through; inside the header, a blank line ends the header and the line
      goes through filterDataLine. */
  function DataLineStep(m: Message, line: string, parseScore: string -> Option<Score>,
                        getClass: (seq<string>, Score) -> string): (r: Result<Filtered>)
    ensures !m.inHeader ==> r == Ok(Filtered(m, [line]))
    ensures m.inHeader && r.Ok? ==> r.value.message.inHeader == !AllSpace(line)
  {
    if !m.inHeader then Ok(Filtered(m, [line]))
    else
      BlankIff(line);
      FilterKeepsInHeader(m.(inHeader := TrimSpace(line) != []), line, parseScore, getClass);
      FilterDataLine(m.(inHeader := TrimSpace(line) != []), line, parseScore, getClass)
  }

  /** filterDataLine never changes whether the message is in its header. */
  lemma FilterKeepsInHeader(m: Message, line: string, parseScore: string -> Option<Score>,
                            getClass: (seq<string>, Score) -> string)
    ensures var r := FilterDataLine(m, line, parseScore, getClass);
      r.Ok? ==> r.value.message.inHeader == m.inHeader
  {
  }

  /** dataLine keeps the message invariant. */
  lemma DataLineStepKeeps(mid: string, m: Message, line: string, parseScore: string -> Option<Score>,
                          getClass: (seq<string>, Score) -> string)
    ensures MessageOk(mid, m) && DataLineStep(m, line, parseScore, getClass).Ok? ==>
      MessageOk(mid, DataLineStep(m, line, parseScore, getClass).value.message)
  {
    if MessageOk(mid, m) && m.inHeader {
      FilterDataLineKeeps(mid, m.(inHeader := TrimSpace(line) != []), line, parseScore, getClass);
    }
  }

  /** The step dataLine takes for one line of the current message. */
  function StepWith(parseScore: string -> Option<Score>, getClass: (seq<string>, Score) -> string)
    : (Message, string) -> Result<Filtered>
  {
    (m, line) => DataLineStep(m, line, parseScore, getClass)
  }

  /** The lines of one message fed through a step one after the other: the
      message at the end and every line that went out, or the first fatal
      error. */
  function Rewrite(m: Message, lines: seq<string>, step: (Message, string) -> Result<Filtered>): Result<Filtered>
    decreases |lines|
  {
    if lines == [] then Ok(Filtered(m, []))
    else
      match step(m, lines[0])
      case Err(e) => Err(e)
      case Ok(first) =>
        match Rewrite(first.message, lines[1..], step)
        case Err(e) => Err(e)
        case Ok(rest) => Ok(Filtered(rest.message, first.lines + rest.lines))
  }

  /** Running two runs of lines one after the other, each with a known
      result, gives the later message and both outputs in order. */
  lemma RewriteThen(m: Message, a: seq<string>, b: seq<string>, step: (Message, string) -> Result<Filtered>,
                    ma: Message, la: seq<string>, mb: Message, lb: seq<string>)
    requires Rewrite(m, a, step) == Ok(Filtered(ma, la))
    requires Rewrite(ma, b, step) == Ok(Filtered(mb, lb))
    ensures Rewrite(m, a + b, step) == Ok(Filtered(mb, la + lb))
  {
    RewriteAppend(m, a, b, step);
  }

  /** A run of header lines none of which is special or blank goes out
      unchanged and leaves the message as it was. */
  lemma OtherLinesPass(m: Message, lines: seq<string>, parseScore: string -> Option<Score>,
                       getClass: (seq<string>, Score) -> string)
    requires m.inHeader
    requires forall i :: 0 <= i < |lines| ==> !SpecialHeader(lines[i]) && !AllSpace(lines[i])
    ensures Rewrite(m, lines, StepWith(parseScore, getClass)) == Ok(Filtered(m, lines))
  {
    OrdinaryShape(parseScore, getClass);
    OrdinaryFold(m, lines, StepWith(parseScore, getClass));
  }

  /** In the header, an ordinary line goes out alone and changes nothing. */
  ghost predicate PassesOrdinaryLines(step: (Message, string) -> Result<Filtered>)
  {
    forall n: Message, line: string :: n.inHeader && !SpecialHeader(line) && !AllSpace(line) ==>
      step(n, line) == Ok(Filtered(n, [line]))
  }

  lemma OrdinaryShape(parseScore: string -> Option<Score>, getClass: (seq<string>, Score) -> string)
    ensures PassesOrdinaryLines(StepWith(parseScore, getClass))
  {
    forall n: Message, line: string | n.inHeader && !SpecialHeader(line) && !AllSpace(line)
      ensures DataLineStep(n, line, parseScore, getClass) == Ok(Filtered(n, [line]))
    {
      BlankIff(line);
      assert n.(inHeader := TrimSpace(line) != []) == n;
      OtherPassesThrough(n, line, parseScore, getClass);
    }
  }

  lemma {:induction false} OrdinaryFold(m: Message, lines: seq<string>, step: (Message, string) -> Result<Filtered>)
    requires m.inHeader && PassesOrdinaryLines(step)
    requires forall i :: 0 <= i < |lines| ==> !SpecialHeader(lines[i]) && !AllSpace(lines[i])
    ensures Rewrite(m, lines, step) == Ok(Filtered(m, lines))
    decreases |lines|
  {
    if lines != [] {
      OrdinaryFold(m, lines[1..], step);
      assert [lines[0]] + lines[1..] == lines;
    }
  }

  /** Outside the header a line goes out unchanged and the message stays. */
  ghost predicate PassesOutsideHeader(step: (Message, string) -> Result<Filtered>)
  {
    forall n: Message, line: string :: !n.inHeader ==> step(n, line) == Ok(Filtered(n, [line]))
  }

  /** Inside the header only a blank line ends the header. */
  ghost predicate KeepsHeaderUntilBlank(step: (Message, string) -> Result<Filtered>)
  {
    forall n: Message, line: string ::
      n.inHeader && !AllSpace(line) && step(n, line).Ok? ==> step(n, line).value.message.inHeader
  }

  /** A blank line inside the header ends it and gets the generated headers. */
  ghost predicate BlankEndsHeader(step: (Message, string) -> Result<Filtered>, getClass: (seq<string>, Score) -> string)
  {
    forall n: Message, line: string :: n.inHeader && AllSpace(line) ==>
      step(n, line) == Ok(Filtered(n.(inHeader := false), Boundary(n.(inHeader := false), line, getClass)))
  }

  /** dataLine's step has all three properties. */
  lemma StepShape(parseScore: string -> Option<Score>, getClass: (seq<string>, Score) -> string)
    ensures PassesOutsideHeader(StepWith(parseScore, getClass))
    ensures KeepsHeaderUntilBlank(StepWith(parseScore, getClass))
    ensures BlankEndsHeader(StepWith(parseScore, getClass), getClass)
  {
    forall n: Message, line: string | n.inHeader && AllSpace(line)
      ensures DataLineStep(n, line, parseScore, getClass)
           == Ok(Filtered(n.(inHeader := false), Boundary(n.(inHeader := false), line, getClass)))
    {
      BlankIff(line);
      BlankGetsBoundary(n.(inHeader := false), line, parseScore, getClass);
    }
  }

  lemma {:induction false} PassThroughFold(m: Message, lines: seq<string>, step: (Message, string) -> Result<Filtered>)
    requires !m.inHeader && PassesOutsideHeader(step)
    ensures Rewrite(m, lines, step) == Ok(Filtered(m, lines))
    decreases |lines|
  {
    if lines != [] {
      PassThroughFold(m, lines[1..], step);
      assert [lines[0]] + lines[1..] == lines;
    }
  }

  lemma {:induction false} HeaderStaysFold(m: Message, header: seq<string>, step: (Message, string) -> Result<Filtered>)
    requires m.inHeader && KeepsHeaderUntilBlank(step)
    requires forall i :: 0 <= i < |header| ==> !AllSpace(header[i])
    ensures Rewrite(m, header, step).Ok? ==> Rewrite(m, header, step).value.message.inHeader
    decreases |header|
  {
    if header != [] && step(m, header[0]).Ok? {
      HeaderStaysFold(step(m, header[0]).value.message, header[1..], step);
    }
  }

  /** Feeding two runs of lines is feeding the first, then the second. */
  lemma {:induction false} RewriteAppend(m: Message, a: seq<string>, b: seq<string>,
                                        step: (Message, string) -> Result<Filtered>)
    ensures Rewrite(m, a + b, step) ==
      match Rewrite(m, a, step)
      case Err(e) => Err(e)
      case Ok(first) =>
        match Rewrite(first.message, b, step)
        case Err(e) => Err(e)
        case Ok(second) => Ok(Filtered(second.message, first.lines + second.lines))
    decreases |a|
  {
    if a == [] {
      assert a + b == b;
      var second := Rewrite(m, b, step);
      if second.Ok? {
        assert [] + second.value.lines == second.value.lines;
      }
    } else {
      assert (a + b)[0] == a[0] && (a + b)[1..] == a[1..] + b;
      var first := step(m, a[0]);
      if first.Ok? {
        RewriteAppend(first.value.message, a[1..], b, step);
        var rest := Rewrite(first.value.message, a[1..], step);
        if rest.Ok? {
          var second := Rewrite(rest.value.message, b, step);
          if second.Ok? {
            assert first.value.lines + (rest.value.lines + second.value.lines)
                == (first.value.lines + rest.value.lines) + second.value.lines;
          }
        }
      }
    }
  }

  lemma BlankThenBody(n: Message, blank: string, body: seq<string>,
                      step: (Message, string) -> Result<Filtered>, getClass: (seq<string>, Score) -> string)
    requires n.inHeader && AllSpace(blank)
    requires PassesOutsideHeader(step) && BlankEndsHeader(step, getClass)
    ensures Rewrite(n, [blank] + body, step)
         == Ok(Filtered(n.(inHeader := false), Boundary(n.(inHeader := false), blank, getClass) + body))
  {
    var ended := n.(inHeader := false);
    PassThroughFold(ended, body, step);
    assert ([blank] + body)[0] == blank && ([blank] + body)[1..] == body;
  }

  lemma MessageFold(m: Message, header: seq<string>, blank: string, body: seq<string>,
                    step: (Message, string) -> Result<Filtered>, getClass: (seq<string>, Score) -> string)
    requires AllSpace(blank)
    requires PassesOutsideHeader(step) && BlankEndsHeader(step, getClass)
    requires Rewrite(m, header, step).Ok? && Rewrite(m, header, step).value.message.inHeader
    ensures var h := Rewrite(m, header, step).value;
      Rewrite(m, header + [blank] + body, step)
        == Ok(Filtered(h.message.(inHeader := false),
                       h.lines + Boundary(h.message.(inHeader := false), blank, getClass) + body))
  {
    var h := Rewrite(m, header, step).value;
    Regroup(header, [blank], body);
    RewriteAppend(m, header, [blank] + body, step);
    BlankThenBody(h.message, blank, body, step, getClass);
    Regroup(h.lines, Boundary(h.message.(inHeader := false), blank, getClass), body);
  }

  /** Past the header every line goes out unchanged, one for one. */
  lemma BodyPassesThrough(m: Message, lines: seq<string>, parseScore: string -> Option<Score>,
                          getClass: (seq<string>, Score) -> string)
    requires !m.inHeader
    ensures Rewrite(m, lines, StepWith(parseScore, getClass)) == Ok(Filtered(m, lines))
  {
    StepShape(parseScore, getClass);
    PassThroughFold(m, lines, StepWith(parseScore, getClass));
  }

  /** A whole message: the header lines are rewritten, the first blank line
      gets the generated headers in front of it and ends the header, and the
      body after it goes out unchanged. */
  lemma MessageRewrite(m: Message, header: seq<string>, blank: string, body: seq<string>,
                       parseScore: string -> Option<Score>, getClass: (seq<string>, Score) -> string)
    requires m.inHeader && AllSpace(blank)
    requires forall i :: 0 <= i < |header| ==> !AllSpace(header[i])
    requires Rewrite(m, header, StepWith(parseScore, getClass)).Ok?
    ensures var h := Rewrite(m, header, StepWith(parseScore, getClass)).value;
      Rewrite(m, header + [blank] + body, StepWith(parseScore, getClass))
        == Ok(Filtered(h.message.(inHeader := false),
                       h.lines + Boundary(h.message.(inHeader := false), blank, getClass) + body))
  {
    StepShape(parseScore, getClass);
    HeaderStaysFold(m, header, StepWith(parseScore, getClass));
    MessageFold(m, header, blank, body, StepWith(parseScore, getClass), getClass);
  }
}
