/** The filter's own test fixture (filter/filter_test.go) run through the
    model: its report events open the session and record the envelope sender
    and recipient; its header carries an old X-Spam and X-Spam-Class header,
    a score, a To and a From header, and its body has a line with an
    embedded `|`. */
module Fixture {
  import opened Strings
  import opened Address
  import opened Failures
  import opened Messages
  import Protocol
  import Store

  // Each header line is written as its name (or its continuation indent)
  // followed by its value.

  const Recipient := "touser" + "@" + "localdomain.ext"
  const Sender := "fromuser" + "@" + "example.org"

  const Received: seq<string> := [
    "Received: " + "from localhost",
    "    by " + "mailbox.rstms.net with LMTP",
    "    id " + "SYMsDtUVXGkCNQAA8o/S4",
    "    (" + "envelope-from <bounce+403268.63af5d-rumble=rstms.net@mg-d0.substack.com>)",
    "    for " + "<mkrueger>; Mon, 05 Jan 2026 12:49:41 -0700"
  ]
  const OldSpam := "X-Spam: " + "no"
  const ScoreLine := "X-Spam-Score: " + "1.155" + " " + "/ 100"
  const OldClass := "X-Spam-Class: " + "original"
  const Status: seq<string> := [
    "X-Spam-Status: " + "Yes, score=1.155 required=100.000",
    "    tests=" + "[ARC_NA=0.000, ASN=0.000, DKIM_TRACE=0.000",
    "    DMARC_" + "POLICY_ALLOW=00.500,",
    "    ZERO_" + "FONT=0.300]"
  ]
  const ToLine := "To: " + Recipient
  const FromLine := "From: " + Sender
  const Subject := "Subject: " + "filter test message"
  const Body: seq<string> := [
    "first message body line",
    "second message body line with embedded | character",
    "third and last message body line",
    "."
  ]

  /** The header lines in the order the fixture sends them: up to the old
      class header, and from the status header on. */
  function Front(): seq<string>
  {
    Received + [OldSpam] + [ScoreLine] + [OldClass]
  }

  function Back(): seq<string>
  {
    Status + [ToLine] + [FromLine] + [Subject]
  }

  /** The message as tx-begin, tx-mail, tx-rcpt and tx-data leave it
      (FixtureOpened). */
  function Started(): Message
  {
    NewMessage("cafebabe").(envelopeFrom := [Sender], envelopeTo := [Recipient], state := "data")
  }

  /** The report events the fixture sends before its first data line. */
  function Reports(sid: string, rdns: string, src: string, dst: string, user: string,
                   mid: string, from: string, to: string): (r: seq<Protocol.Event>)
    ensures |r| == 6 && forall i :: 0 <= i < |r| ==> !r[i].DataLine?
  {
    [ Protocol.LinkConnect(sid, rdns, "pass", src, dst),
      Protocol.LinkAuth(sid, "pass", user),
      Protocol.TxBegin(sid, mid),
      Protocol.TxMail(sid, mid, "ok", from),
      Protocol.TxRcpt(sid, mid, "ok", to),
      Protocol.TxData(sid, mid, "ok") ]
  }

  /** Report events handled one after the other by the store, as the event
      loop does; the first failure stops it. */
  function Replay(ss: Store.Sessions, events: seq<Protocol.Event>): (r: Result<Store.Sessions>)
    requires forall i :: 0 <= i < |events| ==> !events[i].DataLine?
    ensures events == [] ==> r == Ok(ss)
    decreases |events|
  {
    if events == [] then Ok(ss)
    else
      match Store.Handle(ss, events[0])
      case Err(e) => Err(e)
      case Ok(next) => Replay(next, events[1..])
  }

  /** The fixture's report events, from a store without its session, leave
      the fixture's message in the store as the message the data lines go
      to. */
  lemma FixtureOpened()
    ensures var r := Replay(map[], Reports("deadbeef", "sendhost.example.org", "1.2.3.4:11223", "5.6.7.8:25",
                                           "authuser", "cafebabe", Sender, Recipient));
      && r.Ok? && "deadbeef" in r.value && r.value["deadbeef"].dataMessage == "cafebabe"
      && "cafebabe" in r.value["deadbeef"].messages && r.value["deadbeef"].messages["cafebabe"] == Started()
  {
    RecipientMatches();
    SenderMatches();
    Opened(map[], "deadbeef", "sendhost.example.org", "1.2.3.4:11223", "5.6.7.8:25",
           "authuser", "cafebabe", Sender, Recipient);
  }

  /** A session opened with link-connect and link-auth, then a transaction
      with one accepted sender and one accepted recipient, up to tx-data. */
  lemma Opened(ss: Store.Sessions, sid: string, rdns: string, src: string, dst: string, user: string,
               mid: string, from: string, to: string)
    requires sid !in ss && MatchesAddress(from) && MatchesAddress(to)
    ensures var r := Replay(ss, Reports(sid, rdns, src, dst, user, mid, from, to));
      && r.Ok? && sid in r.value && r.value[sid].dataMessage == mid && mid in r.value[sid].messages
      && r.value[sid].messages[mid] == NewMessage(mid).(envelopeFrom := [from], envelopeTo := [to], state := "data")
  {
    var events := Reports(sid, rdns, src, dst, user, mid, from, to);
    var s2 := ConnectAuth(ss, sid, rdns, src, dst, user, events);
    var s6 := Transaction(s2, sid, mid, from, to, events[2..]);
  }

  /** tx-begin, tx-mail, tx-rcpt and tx-data leave a message with its
      envelope, in its data phase. */
  lemma Transaction(s2: Store.Sessions, sid: string, mid: string, from: string, to: string,
                    events: seq<Protocol.Event>) returns (s6: Store.Sessions)
    requires sid in s2 && s2[sid].messages == map[] && MatchesAddress(from) && MatchesAddress(to)
    requires |events| == 4 && forall i :: 0 <= i < |events| ==> !events[i].DataLine?
    requires events[0] == Protocol.TxBegin(sid, mid) && events[1] == Protocol.TxMail(sid, mid, "ok", from)
    requires events[2] == Protocol.TxRcpt(sid, mid, "ok", to) && events[3] == Protocol.TxData(sid, mid, "ok")
    ensures Replay(s2, events) == Ok(s6) && sid in s6 && s6[sid].dataMessage == mid && mid in s6[sid].messages
    ensures s6[sid].messages[mid] == NewMessage(mid).(envelopeFrom := [from], envelopeTo := [to], state := "data")
  {
    var s4 := BeginMail(s2, sid, mid, from, events);
    var rest := events[2..];
    assert rest[0] == events[2] && rest[1] == events[3];
    s6 := RcptData(s4, sid, mid, to, rest);
    Enveloped(s4[sid].messages[mid], mid, from, to);
  }

  /** The message record tx-begin, tx-mail, tx-rcpt and tx-data build. */
  lemma Enveloped(m: Message, mid: string, from: string, to: string)
    requires m == NewMessage(mid).(envelopeFrom := [from])
    ensures m.(envelopeTo := m.envelopeTo + [to], state := "data", inHeader := true)
         == NewMessage(mid).(envelopeFrom := [from], envelopeTo := [to], state := "data")
  {
  }

  /** link-connect and link-auth open a session without messages. */
  lemma ConnectAuth(ss: Store.Sessions, sid: string, rdns: string, src: string, dst: string, user: string,
                    events: seq<Protocol.Event>) returns (s2: Store.Sessions)
    requires sid !in ss && |events| >= 2 && forall i :: 0 <= i < |events| ==> !events[i].DataLine?
    requires events[0] == Protocol.LinkConnect(sid, rdns, "pass", src, dst) && events[1] == Protocol.LinkAuth(sid, "pass", user)
    ensures Replay(ss, events) == Replay(s2, events[2..]) && sid in s2 && s2[sid].messages == map[]
  {
    var s1 := ConnectStage(ss, sid, rdns, src, dst, events);
    s2 := AuthStage(s1, sid, user, events[1..]);
    assert events[1..][1..] == events[2..];
  }

  /** tx-begin and tx-mail start a message with its envelope sender. */
  lemma BeginMail(s2: Store.Sessions, sid: string, mid: string, from: string,
                  events: seq<Protocol.Event>) returns (s4: Store.Sessions)
    requires sid in s2 && s2[sid].messages == map[] && MatchesAddress(from)
    requires |events| >= 2 && forall i :: 0 <= i < |events| ==> !events[i].DataLine?
    requires events[0] == Protocol.TxBegin(sid, mid) && events[1] == Protocol.TxMail(sid, mid, "ok", from)
    ensures Replay(s2, events) == Replay(s4, events[2..]) && sid in s4 && mid in s4[sid].messages
    ensures s4[sid].messages[mid] == NewMessage(mid).(envelopeFrom := [from])
  {
    var s3 := BeginStage(s2, sid, mid, events);
    s4 := MailStage(s3, sid, mid, from, events[1..]);
    assert events[1..][1..] == events[2..];
  }

  /** tx-rcpt and tx-data add the envelope recipient and open the data
      phase of the message. */
  lemma RcptData(s4: Store.Sessions, sid: string, mid: string, to: string,
                 events: seq<Protocol.Event>) returns (s6: Store.Sessions)
    requires sid in s4 && mid in s4[sid].messages && MatchesAddress(to)
    requires |events| == 2 && forall i :: 0 <= i < |events| ==> !events[i].DataLine?
    requires events[0] == Protocol.TxRcpt(sid, mid, "ok", to) && events[1] == Protocol.TxData(sid, mid, "ok")
    ensures var m := s4[sid].messages[mid];
      && Replay(s4, events) == Ok(s6) && sid in s6 && s6[sid].dataMessage == mid && mid in s6[sid].messages
      && s6[sid].messages[mid] == m.(envelopeTo := m.envelopeTo + [to], state := "data", inHeader := true)
  {
    var s5 := RcptStage(s4, sid, mid, to, events);
    s6 := DataStage(s5, sid, mid, events[1..]);
  }

  lemma ConnectStage(ss: Store.Sessions, sid: string, rdns: string, src: string, dst: string,
                     events: seq<Protocol.Event>) returns (next: Store.Sessions)
    requires sid !in ss && events != [] && forall i :: 0 <= i < |events| ==> !events[i].DataLine?
    requires events[0] == Protocol.LinkConnect(sid, rdns, "pass", src, dst)
    ensures Replay(ss, events) == Replay(next, events[1..]) && sid in next && next[sid].messages == map[]
  {
    ConnectStep(ss, sid, rdns, src, dst);
    next := Store.Handle(ss, events[0]).value;
    ReplayStep(ss, events, next);
  }

  lemma AuthStage(ss: Store.Sessions, sid: string, user: string,
                  events: seq<Protocol.Event>) returns (next: Store.Sessions)
    requires sid in ss && events != [] && forall i :: 0 <= i < |events| ==> !events[i].DataLine?
    requires events[0] == Protocol.LinkAuth(sid, "pass", user)
    ensures Replay(ss, events) == Replay(next, events[1..]) && sid in next && next[sid].messages == ss[sid].messages
  {
    AuthStep(ss, sid, user);
    next := Store.Handle(ss, events[0]).value;
    ReplayStep(ss, events, next);
  }

  lemma BeginStage(ss: Store.Sessions, sid: string, mid: string,
                   events: seq<Protocol.Event>) returns (next: Store.Sessions)
    requires sid in ss && mid !in ss[sid].messages
    requires events != [] && forall i :: 0 <= i < |events| ==> !events[i].DataLine?
    requires events[0] == Protocol.TxBegin(sid, mid)
    ensures Replay(ss, events) == Replay(next, events[1..]) && sid in next && mid in next[sid].messages
    ensures next[sid].messages[mid] == NewMessage(mid)
  {
    BeginStep(ss, sid, mid);
    next := Store.Handle(ss, events[0]).value;
    ReplayStep(ss, events, next);
  }

  lemma MailStage(ss: Store.Sessions, sid: string, mid: string, from: string,
                  events: seq<Protocol.Event>) returns (next: Store.Sessions)
    requires sid in ss && mid in ss[sid].messages && MatchesAddress(from)
    requires events != [] && forall i :: 0 <= i < |events| ==> !events[i].DataLine?
    requires events[0] == Protocol.TxMail(sid, mid, "ok", from)
    ensures var m := ss[sid].messages[mid];
      && Replay(ss, events) == Replay(next, events[1..]) && sid in next && mid in next[sid].messages
      && next[sid].messages[mid] == m.(envelopeFrom := m.envelopeFrom + [from])
  {
    HandleAddress(ss, events[0]);
    MailStep(ss, sid, mid, from);
    next := Store.Handle(ss, events[0]).value;
    ReplayStep(ss, events, next);
  }

  lemma RcptStage(ss: Store.Sessions, sid: string, mid: string, to: string,
                  events: seq<Protocol.Event>) returns (next: Store.Sessions)
    requires sid in ss && mid in ss[sid].messages && MatchesAddress(to)
    requires events != [] && forall i :: 0 <= i < |events| ==> !events[i].DataLine?
    requires events[0] == Protocol.TxRcpt(sid, mid, "ok", to)
    ensures var m := ss[sid].messages[mid];
      && Replay(ss, events) == Replay(next, events[1..]) && sid in next && mid in next[sid].messages
      && next[sid].messages[mid] == m.(envelopeTo := m.envelopeTo + [to])
  {
    HandleAddress(ss, events[0]);
    RcptStep(ss, sid, mid, to);
    next := Store.Handle(ss, events[0]).value;
    ReplayStep(ss, events, next);
  }

  lemma DataStage(ss: Store.Sessions, sid: string, mid: string,
                  events: seq<Protocol.Event>) returns (next: Store.Sessions)
    requires sid in ss && mid in ss[sid].messages
    requires |events| == 1 && !events[0].DataLine?
    requires events[0] == Protocol.TxData(sid, mid, "ok")
    ensures var m := ss[sid].messages[mid];
      && Replay(ss, events) == Ok(next) && sid in next && next[sid].dataMessage == mid && mid in next[sid].messages
      && next[sid].messages[mid] == m.(state := "data", inHeader := true)
  {
    DataStep(ss, sid, mid);
    next := Store.Handle(ss, events[0]).value;
    ReplayStep(ss, events, next);
  }

  lemma ConnectStep(ss: Store.Sessions, sid: string, rdns: string, src: string, dst: string)
    requires sid !in ss
    ensures var r := Store.Handle(ss, Protocol.LinkConnect(sid, rdns, "pass", src, dst));
      r.Ok? && sid in r.value && r.value[sid].messages == map[]
  {
  }

  lemma AuthStep(ss: Store.Sessions, sid: string, user: string)
    requires sid in ss
    ensures var r := Store.Handle(ss, Protocol.LinkAuth(sid, "pass", user));
      r.Ok? && sid in r.value && r.value[sid].messages == ss[sid].messages
  {
  }

  lemma BeginStep(ss: Store.Sessions, sid: string, mid: string)
    requires sid in ss && mid !in ss[sid].messages
    ensures var r := Store.Handle(ss, Protocol.TxBegin(sid, mid));
      r.Ok? && sid in r.value && mid in r.value[sid].messages && r.value[sid].messages[mid] == NewMessage(mid)
  {
  }

  lemma MailStep(ss: Store.Sessions, sid: string, mid: string, from: string)
    requires sid in ss && mid in ss[sid].messages && MatchesAddress(from)
    ensures var r := Store.TxMail(ss, sid, mid, "ok", from);
      var m := ss[sid].messages[mid];
      r.Ok? && sid in r.value && mid in r.value[sid].messages
      && r.value[sid].messages[mid] == m.(envelopeFrom := m.envelopeFrom + [from])
  {
    ParseBare(from);
  }

  lemma RcptStep(ss: Store.Sessions, sid: string, mid: string, to: string)
    requires sid in ss && mid in ss[sid].messages && MatchesAddress(to)
    ensures var r := Store.TxRcpt(ss, sid, mid, "ok", to);
      var m := ss[sid].messages[mid];
      r.Ok? && sid in r.value && mid in r.value[sid].messages
      && r.value[sid].messages[mid] == m.(envelopeTo := m.envelopeTo + [to])
  {
    ParseBare(to);
  }

  /** tx-mail and tx-rcpt events go to their handlers. */
  lemma HandleAddress(ss: Store.Sessions, e: Protocol.Event)
    requires e.TxMail? || e.TxRcpt?
    ensures e.TxMail? ==> Store.Handle(ss, e) == Store.TxMail(ss, e.sid, e.mid, e.result, e.address)
    ensures e.TxRcpt? ==> Store.Handle(ss, e) == Store.TxRcpt(ss, e.sid, e.mid, e.result, e.address)
  {
  }

  lemma DataStep(ss: Store.Sessions, sid: string, mid: string)
    requires sid in ss && mid in ss[sid].messages
    ensures var r := Store.Handle(ss, Protocol.TxData(sid, mid, "ok"));
      var m := ss[sid].messages[mid];
      r.Ok? && sid in r.value && mid in r.value[sid].messages && r.value[sid].dataMessage == mid
      && r.value[sid].messages[mid] == m.(state := "data", inHeader := true)
  {
  }

  /** One event handled, the rest replayed. */
  lemma ReplayStep(ss: Store.Sessions, events: seq<Protocol.Event>, next: Store.Sessions)
    requires events != [] && forall i :: 0 <= i < |events| ==> !events[i].DataLine?
    requires Store.Handle(ss, events[0]) == Ok(next)
    ensures Replay(ss, events) == Replay(next, events[1..])
  {
  }

  /** The whole fixture message: the old X-Spam and X-Spam-Class headers are
      dropped, every other header line goes out as it came, the score, the
      To and the From address are recorded, the generated headers go in
      front of the blank line, and the body goes out unchanged. */
  lemma FixtureRewrite(parseScore: string -> Option<Score>, getClass: (seq<string>, Score) -> string,
                       score: Score, verdict: string)
    requires parseScore("1.155") == Some(score)
    requires getClass([Recipient], score) == verdict
    ensures Rewrite(Started(), Front() + Back() + [""] + Body, StepWith(parseScore, getClass))
         == Ok(Filtered(
              Started().(inHeader := false, spamScore := score, spamScoreSet := true, to := [Recipient], from := [Sender]),
              Received + [ScoreLine] + Back()
                + [if verdict == "spam" then "X-Spam: yes" else "X-Spam: no"]
                + (if verdict == "" then [] else ["X-Spam-Class: " + verdict])
                + [""] + Body))
  {
    HeaderLines(parseScore, getClass, score);
    StepShape(parseScore, getClass);
    Recorded(score);
    WholeMessage(Started(), Front() + Back(), Body, StepWith(parseScore, getClass), getClass,
                 Started().(spamScore := score, spamScoreSet := true, to := [Recipient], from := [Sender]),
                 Received + [ScoreLine] + Back(), "touser", "localdomain.ext", verdict);
  }

  /** What the fixture's header leaves recorded. */
  lemma Recorded(score: Score)
    ensures var n := Started().(spamScore := score, spamScoreSet := true, to := [Recipient], from := [Sender]);
      && n.inHeader && n.spamScoreSet && n.spamScore == score && n.envelopeTo != []
      && n.to == ["touser" + "@" + "localdomain.ext"] && '@' !in "touser" && '+' !in "touser"
  {
  }

  /** A header that leaves a score and an un-aliased To address recorded,
      followed by the blank line and a body. */
  lemma WholeMessage(m: Message, header: seq<string>, body: seq<string>,
                     step: (Message, string) -> Result<Filtered>, getClass: (seq<string>, Score) -> string,
                     n: Message, out: seq<string>, local: string, domain: string, verdict: string)
    requires PassesOutsideHeader(step) && BlankEndsHeader(step, getClass)
    requires Rewrite(m, header, step) == Ok(Filtered(n, out)) && n.inHeader
    requires n.spamScoreSet && n.envelopeTo != [] && n.to == [local + "@" + domain] && '@' !in local && '+' !in local
    requires getClass([local + "@" + domain], n.spamScore) == verdict
    ensures Rewrite(m, header + [""] + body, step)
         == Ok(Filtered(n.(inHeader := false),
              out + [if verdict == "spam" then "X-Spam: yes" else "X-Spam: no"]
                + (if verdict == "" then [] else ["X-Spam-Class: " + verdict])
                + [""] + body))
  {
    var spamLine := [if verdict == "spam" then "X-Spam: yes" else "X-Spam: no"];
    var classLine := if verdict == "" then [] else ["X-Spam-Class: " + verdict];
    MessageFold(m, header, "", body, step, getClass);
    BoundaryOf(n.(inHeader := false), local, domain, getClass, verdict);
    Regroup(out, spamLine + classLine, [""]);
    Regroup(out, spamLine, classLine);
  }

  /** The header of the fixture, line by line. */
  lemma HeaderLines(parseScore: string -> Option<Score>, getClass: (seq<string>, Score) -> string, score: Score)
    requires parseScore("1.155") == Some(score)
    ensures Rewrite(Started(), Front() + Back(), StepWith(parseScore, getClass))
         == Ok(Filtered(Started().(spamScore := score, spamScoreSet := true, to := [Recipient], from := [Sender]),
                        Received + [ScoreLine] + Back()))
  {
    var m1 := Started().(spamScore := score, spamScoreSet := true);
    FrontLines(parseScore, getClass, score);
    BackLines(m1, parseScore, getClass);
    RewriteThen(Started(), Front(), Back(), StepWith(parseScore, getClass),
                m1, Received + [ScoreLine], m1.(to := [Recipient], from := [Sender]), Back());
  }

  /** Up to the old class header: the old X-Spam headers go, the score is
      recorded. */
  lemma FrontLines(parseScore: string -> Option<Score>, getClass: (seq<string>, Score) -> string, score: Score)
    requires parseScore("1.155") == Some(score)
    ensures Rewrite(Started(), Front(), StepWith(parseScore, getClass))
         == Ok(Filtered(Started().(spamScore := score, spamScoreSet := true), Received + [ScoreLine]))
  {
    ReceivedOrdinary();
    LineShapes();
    FrontRun(Started(), Received, OldSpam, ScoreLine, OldClass, "1.155", "/ 100", parseScore, getClass, score);
  }

  /** From the status header on: every line passes, the To and From
      addresses are recorded. */
  lemma BackLines(m: Message, parseScore: string -> Option<Score>, getClass: (seq<string>, Score) -> string)
    requires m.inHeader && m.to == [] && m.from == []
    ensures Rewrite(m, Back(), StepWith(parseScore, getClass))
         == Ok(Filtered(m.(to := [Recipient], from := [Sender]), Back()))
  {
    StatusOrdinary();
    Ordinary(Subject, 0);
    LineShapes();
    RecipientMatches();
    SenderMatches();
    BackRun(m, Status, ToLine, FromLine, Subject, Recipient, Sender, parseScore, getClass);
  }

  /** Ordinary lines, an old X-Spam header, a score header and an old
      X-Spam-Class header, in that order. */
  lemma FrontRun(m: Message, lines: seq<string>, spam: string, scoreLine: string, classLine: string,
                 numeral: string, rest: string,
                 parseScore: string -> Option<Score>, getClass: (seq<string>, Score) -> string, score: Score)
    requires m.inHeader
    requires forall i :: 0 <= i < |lines| ==> !SpecialHeader(lines[i]) && !AllSpace(lines[i])
    requires HasPrefix(spam, "X-Spam: ") && HasPrefix(classLine, "X-Spam-Class: ") && HasPrefix(scoreLine, "X-Spam-Score: ")
    requires scoreLine[14..] == numeral + [' '] + rest && ' ' !in numeral && parseScore(numeral) == Some(score)
    ensures Rewrite(m, lines + [spam] + [scoreLine] + [classLine], StepWith(parseScore, getClass))
         == Ok(Filtered(m.(spamScore := score, spamScoreSet := true), lines + [scoreLine]))
  {
    FrontSteps(m, lines, spam, scoreLine, classLine, numeral, rest, parseScore, getClass, score);
    DropChain(StepWith(parseScore, getClass), m, m.(spamScore := score, spamScoreSet := true),
              lines, spam, scoreLine, classLine);
  }

  /** Passed lines, a dropped line, a passed line and a dropped line. */
  lemma DropChain(step: (Message, string) -> Result<Filtered>, m: Message, m1: Message,
                  a: seq<string>, b: string, c: string, d: string)
    requires Rewrite(m, a, step) == Ok(Filtered(m, a))
    requires Rewrite(m, [b], step) == Ok(Filtered(m, []))
    requires Rewrite(m, [c], step) == Ok(Filtered(m1, [c]))
    requires Rewrite(m1, [d], step) == Ok(Filtered(m1, []))
    ensures Rewrite(m, a + [b] + [c] + [d], step) == Ok(Filtered(m1, a + [c]))
  {
    Chain4(step, m, m, m, m1, m1, a, [b], [c], [d], a, [], [c], []);
    assert a + [] + [c] + [] == a + [c];
  }

  lemma FrontSteps(m: Message, lines: seq<string>, spam: string, scoreLine: string, classLine: string,
                   numeral: string, rest: string,
                   parseScore: string -> Option<Score>, getClass: (seq<string>, Score) -> string, score: Score)
    requires m.inHeader
    requires forall i :: 0 <= i < |lines| ==> !SpecialHeader(lines[i]) && !AllSpace(lines[i])
    requires HasPrefix(spam, "X-Spam: ") && HasPrefix(classLine, "X-Spam-Class: ") && HasPrefix(scoreLine, "X-Spam-Score: ")
    requires scoreLine[14..] == numeral + [' '] + rest && ' ' !in numeral && parseScore(numeral) == Some(score)
    ensures var step := StepWith(parseScore, getClass);
      var m1 := m.(spamScore := score, spamScoreSet := true);
      && Rewrite(m, lines, step) == Ok(Filtered(m, lines))
      && Rewrite(m, [spam], step) == Ok(Filtered(m, []))
      && Rewrite(m, [scoreLine], step) == Ok(Filtered(m1, [scoreLine]))
      && Rewrite(m1, [classLine], step) == Ok(Filtered(m1, []))
  {
    OtherLinesPass(m, lines, parseScore, getClass);
    DropStep(m, spam, parseScore, getClass);
    ScoreStep(m, scoreLine, numeral, rest, parseScore, getClass, score);
    DropStep(m.(spamScore := score, spamScoreSet := true), classLine, parseScore, getClass);
  }

  /** Ordinary lines, a To and a From header with bare addresses, and one
      more ordinary line. */
  lemma BackRun(m: Message, lines: seq<string>, toLine: string, fromLine: string, last: string,
                to: string, from: string,
                parseScore: string -> Option<Score>, getClass: (seq<string>, Score) -> string)
    requires m.inHeader && m.to == [] && m.from == []
    requires forall i :: 0 <= i < |lines| ==> !SpecialHeader(lines[i]) && !AllSpace(lines[i])
    requires HasPrefix(toLine, "To: ") && toLine[4..] == to && MatchesAddress(to)
    requires HasPrefix(fromLine, "From: ") && fromLine[6..] == from && MatchesAddress(from)
    requires !SpecialHeader(last) && !AllSpace(last)
    ensures Rewrite(m, lines + [toLine] + [fromLine] + [last], StepWith(parseScore, getClass))
         == Ok(Filtered(m.(to := [to], from := [from]), lines + [toLine] + [fromLine] + [last]))
  {
    var m2 := m.(to := [to]);
    BackSteps(m, lines, toLine, fromLine, last, to, from, parseScore, getClass);
    Chain4(StepWith(parseScore, getClass), m, m, m2, m2.(from := [from]), m2.(from := [from]),
           lines, [toLine], [fromLine], [last], lines, [toLine], [fromLine], [last]);
  }

  lemma BackSteps(m: Message, lines: seq<string>, toLine: string, fromLine: string, last: string,
                  to: string, from: string,
                  parseScore: string -> Option<Score>, getClass: (seq<string>, Score) -> string)
    requires m.inHeader && m.to == [] && m.from == []
    requires forall i :: 0 <= i < |lines| ==> !SpecialHeader(lines[i]) && !AllSpace(lines[i])
    requires HasPrefix(toLine, "To: ") && toLine[4..] == to && MatchesAddress(to)
    requires HasPrefix(fromLine, "From: ") && fromLine[6..] == from && MatchesAddress(from)
    requires !SpecialHeader(last) && !AllSpace(last)
    ensures var step := StepWith(parseScore, getClass);
      var m2 := m.(to := [to]);
      && Rewrite(m, lines, step) == Ok(Filtered(m, lines))
      && Rewrite(m, [toLine], step) == Ok(Filtered(m2, [toLine]))
      && Rewrite(m2, [fromLine], step) == Ok(Filtered(m2.(from := [from]), [fromLine]))
      && Rewrite(m2.(from := [from]), [last], step) == Ok(Filtered(m2.(from := [from]), [last]))
  {
    var m2 := m.(to := [to]);
    OtherLinesPass(m, lines, parseScore, getClass);
    AddressSteps(m, toLine, fromLine, to, from, parseScore, getClass);
    OtherLinesPass(m2.(from := [from]), [last], parseScore, getClass);
  }

  lemma AddressSteps(m: Message, toLine: string, fromLine: string, to: string, from: string,
                     parseScore: string -> Option<Score>, getClass: (seq<string>, Score) -> string)
    requires m.inHeader && m.to == [] && m.from == []
    requires HasPrefix(toLine, "To: ") && toLine[4..] == to && MatchesAddress(to)
    requires HasPrefix(fromLine, "From: ") && fromLine[6..] == from && MatchesAddress(from)
    ensures var step := StepWith(parseScore, getClass);
      var m2 := m.(to := [to]);
      && Rewrite(m, [toLine], step) == Ok(Filtered(m2, [toLine]))
      && Rewrite(m2, [fromLine], step) == Ok(Filtered(m2.(from := [from]), [fromLine]))
  {
    ToStep(m, toLine, to, parseScore, getClass);
    assert m.to + [to] == [to];
    FromStep(m.(to := [to]), fromLine, from, parseScore, getClass);
    assert m.from + [from] == [from];
  }

  /** The shapes of the fixture's special header lines. */
  lemma LineShapes()
    ensures HasPrefix(OldSpam, "X-Spam: ") && HasPrefix(OldClass, "X-Spam-Class: ")
    ensures HasPrefix(ScoreLine, "X-Spam-Score: ") && ScoreLine[14..] == "1.155" + [' '] + "/ 100"
    ensures HasPrefix(ToLine, "To: ") && ToLine[4..] == Recipient
    ensures HasPrefix(FromLine, "From: ") && FromLine[6..] == Sender
  {
  }

  /** The rewrite of four runs of lines, one after the other. */
  lemma Chain4(step: (Message, string) -> Result<Filtered>, m0: Message, m1: Message, m2: Message, m3: Message, m4: Message,
               a: seq<string>, b: seq<string>, c: seq<string>, d: seq<string>,
               oa: seq<string>, ob: seq<string>, oc: seq<string>, od: seq<string>)
    requires Rewrite(m0, a, step) == Ok(Filtered(m1, oa))
    requires Rewrite(m1, b, step) == Ok(Filtered(m2, ob))
    requires Rewrite(m2, c, step) == Ok(Filtered(m3, oc))
    requires Rewrite(m3, d, step) == Ok(Filtered(m4, od))
    ensures Rewrite(m0, a + b + c + d, step) == Ok(Filtered(m4, oa + ob + oc + od))
  {
    RewriteThen(m0, a, b, step, m1, oa, m2, ob);
    RewriteThen(m0, a + b, c, step, m2, oa + ob, m3, oc);
    RewriteThen(m0, a + b + c, d, step, m3, oa + ob + oc, m4, od);
  }

  // ------------------------------------------------------ one line at a time

  lemma RewriteOne(m: Message, line: string, step: (Message, string) -> Result<Filtered>, n: Message, out: seq<string>)
    requires step(m, line) == Ok(Filtered(n, out))
    ensures Rewrite(m, [line], step) == Ok(Filtered(n, out))
  {
    assert [line][1..] == [];
    assert out + [] == out;
  }

  /** In the header, a line that is not blank goes through filterDataLine. */
  lemma InHeader(m: Message, line: string, parseScore: string -> Option<Score>, getClass: (seq<string>, Score) -> string)
    requires m.inHeader && |line| > 0 && !IsSpace(line[0])
    ensures DataLineStep(m, line, parseScore, getClass) == FilterDataLine(m, line, parseScore, getClass)
  {
    BlankIff(line);
    assert m.(inHeader := TrimSpace(line) != []) == m;
  }

  /** A header line starting with the prefix starts with the prefix's first
      character. */
  lemma FirstOf(line: string, prefix: string)
    requires |prefix| > 0 && HasPrefix(line, prefix)
    ensures |line| > 0 && line[0] == prefix[0]
  {
    assert line[..|prefix|][0] == line[0];
  }

  /** An old X-Spam or X-Spam-Class header in the header is dropped. */
  lemma DropStep(m: Message, line: string, parseScore: string -> Option<Score>, getClass: (seq<string>, Score) -> string)
    requires m.inHeader && (HasPrefix(line, "X-Spam: ") || HasPrefix(line, "X-Spam-Class: "))
    ensures Rewrite(m, [line], StepWith(parseScore, getClass)) == Ok(Filtered(m, []))
  {
    if HasPrefix(line, "X-Spam: ") { FirstOf(line, "X-Spam: "); } else { FirstOf(line, "X-Spam-Class: "); }
    InHeader(m, line, parseScore, getClass);
    DropsSpamHeaders(m, line, parseScore, getClass);
    RewriteOne(m, line, StepWith(parseScore, getClass), m, []);
  }

  /** An X-Spam-Score header whose numeral parses records the score. */
  lemma ScoreStep(m: Message, line: string, numeral: string, rest: string,
                  parseScore: string -> Option<Score>, getClass: (seq<string>, Score) -> string, score: Score)
    requires m.inHeader && HasPrefix(line, "X-Spam-Score: ")
    requires line[14..] == numeral + [' '] + rest && ' ' !in numeral && parseScore(numeral) == Some(score)
    ensures Rewrite(m, [line], StepWith(parseScore, getClass))
         == Ok(Filtered(m.(spamScore := score, spamScoreSet := true), [line]))
  {
    FirstOf(line, "X-Spam-Score: ");
    InHeader(m, line, parseScore, getClass);
    CutPrefix(numeral, ' ', rest);
    RecordsScore(m, line, parseScore, getClass);
    RewriteOne(m, line, StepWith(parseScore, getClass), m.(spamScore := score, spamScoreSet := true), [line]);
  }

  /** A To header carrying a bare address records it. */
  lemma ToStep(m: Message, line: string, address: string,
               parseScore: string -> Option<Score>, getClass: (seq<string>, Score) -> string)
    requires m.inHeader && HasPrefix(line, "To: ") && line[4..] == address && MatchesAddress(address)
    ensures Rewrite(m, [line], StepWith(parseScore, getClass)) == Ok(Filtered(m.(to := m.to + [address]), [line]))
  {
    FirstOf(line, "To: ");
    InHeader(m, line, parseScore, getClass);
    ToHeader(m, line, parseScore, getClass);
    ParseBare(address);
    RewriteOne(m, line, StepWith(parseScore, getClass), m.(to := m.to + [address]), [line]);
  }

  /** A From header carrying a bare address records it. */
  lemma FromStep(m: Message, line: string, address: string,
                 parseScore: string -> Option<Score>, getClass: (seq<string>, Score) -> string)
    requires m.inHeader && HasPrefix(line, "From: ") && line[6..] == address && MatchesAddress(address)
    ensures Rewrite(m, [line], StepWith(parseScore, getClass)) == Ok(Filtered(m.(from := m.from + [address]), [line]))
  {
    FirstOf(line, "From: ");
    InHeader(m, line, parseScore, getClass);
    FromHeader(m, line, parseScore, getClass);
    ParseBare(address);
    RewriteOne(m, line, StepWith(parseScore, getClass), m.(from := m.from + [address]), [line]);
  }

  /** The headers generated at a blank line once a score and an un-aliased
      To address are known. */
  lemma BoundaryOf(m: Message, local: string, domain: string, getClass: (seq<string>, Score) -> string, verdict: string)
    requires m.spamScoreSet && m.envelopeTo != [] && m.to != [] && m.to[0] == local + "@" + domain
    requires '@' !in local && '+' !in local
    requires getClass([local + "@" + domain], m.spamScore) == verdict
    ensures Boundary(m, "", getClass)
         == [if verdict == "spam" then "X-Spam: yes" else "X-Spam: no"]
            + (if verdict == "" then [] else ["X-Spam-Class: " + verdict]) + [""]
  {
    ClassifiedAs(m, local, domain);
    var r := Boundary(m, "", getClass);
    if verdict == "" {
      assert r == [r[0], r[1]];
    } else {
      assert r == [r[0], r[1], r[2]];
    }
  }

  /** An un-aliased To address is its own classification address. */
  lemma ClassifiedAs(m: Message, local: string, domain: string)
    requires m.to != [] && m.to[0] == local + "@" + domain && '@' !in local && '+' !in local
    ensures '@' in m.to[0] && ClassificationAddress(m.to[0]) == Some(local + "@" + domain)
  {
    AliasStripped(local, "", domain);
    assert (local + "@" + domain)[|local|] == '@';
  }

  // ------------------------------------------------------- the two addresses

  lemma RecipientMatches()
    ensures MatchesAddress(Recipient)
  {
    assert Recipient[..6] == "touser";
    assert Recipient[7..18] == "localdomain";
    assert Recipient[19..] == "ext";
    assert AddressSplit(Recipient, 6, 18);
  }

  lemma SenderMatches()
    ensures MatchesAddress(Sender)
  {
    assert Sender[..8] == "fromuser";
    assert Sender[9..16] == "example";
    assert Sender[17..] == "org";
    assert AddressSplit(Sender, 8, 16);
  }

  // ----------------------------------------------------- the ordinary lines

  /** A line whose first character starts none of the special header names,
      with a character at k that is not white space. */
  lemma Ordinary(line: string, k: nat)
    requires k < |line| && !IsSpace(line[k])
    requires line[0] != 'X' && line[0] != 'T' && line[0] != 'F'
    ensures !SpecialHeader(line) && !AllSpace(line)
  {
    PrefixAt(line, "X-Spam-Score: ", 0);
    PrefixAt(line, "X-Spam: ", 0);
    PrefixAt(line, "X-Spam-Class: ", 0);
    PrefixAt(line, "To: ", 0);
    PrefixAt(line, "From: ", 0);
  }

  /** A line with a prefix agrees with it character by character. */
  lemma PrefixAt(line: string, prefix: string, k: nat)
    requires k < |prefix|
    ensures HasPrefix(line, prefix) ==> line[k] == prefix[k]
  {
    if HasPrefix(line, prefix) {
      assert line[..|prefix|][k] == line[k];
    }
  }

  lemma ReceivedOrdinary()
    ensures forall i :: 0 <= i < |Received| ==> !SpecialHeader(Received[i]) && !AllSpace(Received[i])
  {
    forall i | 0 <= i < |Received| ensures !SpecialHeader(Received[i]) && !AllSpace(Received[i]) {
      if i == 0 {
        Ordinary(Received[0], 0);
      } else if i == 1 {
        Ordinary(Received[1], 4);
      } else if i == 2 {
        Ordinary(Received[2], 4);
      } else if i == 3 {
        Ordinary(Received[3], 4);
      } else {
        Ordinary(Received[4], 4);
      }
    }
  }

  lemma StatusOrdinary()
    ensures forall i :: 0 <= i < |Status| ==> !SpecialHeader(Status[i]) && !AllSpace(Status[i])
  {
    forall i | 0 <= i < |Status| ensures !SpecialHeader(Status[i]) && !AllSpace(Status[i]) {
      if i == 0 {
        var first := Status[0];
        PrefixAt(first, "X-Spam-Score: ", 8);
        PrefixAt(first, "X-Spam: ", 6);
        PrefixAt(first, "X-Spam-Class: ", 7);
        PrefixAt(first, "To: ", 0);
        PrefixAt(first, "From: ", 0);
        SpecialNotBlank(first);
        assert !AllSpace(first) by { assert !IsSpace(first[0]); }
      } else if i == 1 {
        Ordinary(Status[1], 4);
      } else if i == 2 {
        Ordinary(Status[2], 4);
      } else {
        Ordinary(Status[3], 4);
      }
    }
  }
}
