/** The session store (Filter.Sessions) and what each protocol event does
    to it, as functions from the store before to the store after (or the
    fatal error that stops the process). The Filter class carries these out
    in place; here they are the specification, with the create and lookup
    rules and the "nothing else changes" guarantees as their contracts. */
module Store {
  import opened Strings
  import opened Address
  import opened Failures
  import opened Messages
  import Protocol

  type Sessions = map<string, Session>

  /** Every stored session is filed under its own id and is well formed. */
  ghost predicate StoreOk(ss: Sessions)
  {
    forall sid :: sid in ss ==> SessionOk(sid, ss[sid])
  }

  /** Every session other than sid is present after exactly when it was
      present before, and unchanged. */
  ghost predicate OthersUnchanged(before: Sessions, after: Sessions, sid: string)
  {
    forall other :: other != sid ==>
      (other in before <==> other in after) && (other in before ==> after[other] == before[other])
  }

  /** Every message other than mid is present after exactly when it was
      present before, and unchanged. */
  ghost predicate OtherMessagesUnchanged(before: map<string, Message>, after: map<string, Message>, mid: string)
  {
    forall other :: other != mid ==>
      (other in before <==> other in after) && (other in before ==> after[other] == before[other])
  }

  /** The change a message event may make: only message mid of session sid
      differs, and the session's own fields stay as they were. */
  ghost predicate OnlyMessageChanged(before: Sessions, after: Sessions, sid: string, mid: string)
  {
    && sid in before && sid in after
    && OthersUnchanged(before, after, sid)
    && mid in after[sid].messages
    && OtherMessagesUnchanged(before[sid].messages, after[sid].messages, mid)
    && after[sid].(messages := before[sid].messages) == before[sid]
  }

  // ------------------------------------------------------------------ lookups

  /** getSession: fatal for an unknown session. */
  function GetSession(ss: Sessions, sid: string): (r: Result<Session>)
    ensures r.Ok? <==> sid in ss
    ensures r.Ok? ==> r.value == ss[sid]
    ensures r.Err? ==> r.error == UnknownSession(sid)
  {
    if sid in ss then Ok(ss[sid]) else Err(UnknownSession(sid))
  }

  /** getSessionMessage: fatal for an unknown session, then for an unknown
      message of a known one. */
  function GetSessionMessage(ss: Sessions, sid: string, mid: string): (r: Result<(Session, Message)>)
    ensures r.Ok? <==> sid in ss && mid in ss[sid].messages
    ensures r.Ok? ==> r.value == (ss[sid], ss[sid].messages[mid])
    ensures sid !in ss ==> r == Err(UnknownSession(sid))
    ensures sid in ss && mid !in ss[sid].messages ==> r == Err(UnknownMessage(sid, mid))
  {
    match GetSession(ss, sid)
    case Err(e) => Err(e)
    case Ok(session) =>
      if mid in session.messages then Ok((session, session.messages[mid]))
      else Err(UnknownMessage(sid, mid))
  }

  /** The store with message mid of session sid replaced. */
  function PutMessage(ss: Sessions, sid: string, session: Session, mid: string, m: Message): Sessions
  {
    ss[sid := session.(messages := session.messages[mid := m])]
  }

  lemma PutMessageChanges(ss: Sessions, sid: string, mid: string, m: Message)
    requires sid in ss
    ensures var after := PutMessage(ss, sid, ss[sid], mid, m);
      OnlyMessageChanged(ss, after, sid, mid) && after[sid].messages[mid] == m
  {
  }

  lemma PutMessageKeeps(ss: Sessions, sid: string, mid: string, m: Message)
    requires sid in ss
    ensures StoreOk(ss) && MessageOk(mid, m) ==> StoreOk(PutMessage(ss, sid, ss[sid], mid, m))
  {
    var after := PutMessage(ss, sid, ss[sid], mid, m);
    if StoreOk(ss) && MessageOk(mid, m) {
      PutMessageKeepsOk(ss, sid, mid, m);
    }
  }

  lemma PutMessageKeepsOk(ss: Sessions, sid: string, mid: string, m: Message)
    requires StoreOk(ss) && sid in ss && MessageOk(mid, m)
    ensures StoreOk(PutMessage(ss, sid, ss[sid], mid, m))
  {
    var after := PutMessage(ss, sid, ss[sid], mid, m);
    forall s | s in after ensures SessionOk(s, after[s]) {
      if s == sid {
        forall other | other in after[sid].messages
          ensures MessageOk(other, after[sid].messages[other])
        {
          if other != mid { assert SessionOk(sid, ss[sid]); }
        }
      }
    }
  }

  // ----------------------------------------------------------------- sessions

  /** linkConnect: a new session, confirmed exactly when the reverse DNS
      check said "pass". */
  function LinkConnect(ss: Sessions, sid: string, rdns: string, confirmed: string, src: string, dst: string)
    : (r: Result<Sessions>)
    ensures r.Err? <==> sid in ss
    ensures r.Err? ==> r.error == ExistingSession(sid)
    ensures r.Ok? ==>
      && sid in r.value && OthersUnchanged(ss, r.value, sid)
      && r.value[sid].messages == map[]
      && (r.value[sid].confirmed <==> confirmed == "pass")
      && r.value[sid] == NewSession(sid, rdns, confirmed == "pass", src, dst)
    ensures r.Ok? && StoreOk(ss) ==> StoreOk(r.value)
  {
    if sid in ss then Err(ExistingSession(sid))
    else Ok(ss[sid := NewSession(sid, rdns, confirmed == "pass", src, dst)])
  }

  /** linkDisconnect, and sessionTimeout (not dispatched by Run), whose
      bodies are the same: the session goes away. */
  function RemoveSession(ss: Sessions, sid: string): (r: Result<Sessions>)
    ensures r.Err? <==> sid !in ss
    ensures r.Err? ==> r.error == UnknownSession(sid)
    ensures r.Ok? ==> sid !in r.value && OthersUnchanged(ss, r.value, sid)
    ensures r.Ok? && StoreOk(ss) ==> StoreOk(r.value)
  {
    match GetSession(ss, sid)
    case Err(e) => Err(e)
    case Ok(_) => Ok(ss - {sid})
  }

  /** linkAuth: the user name is recorded only on "pass". */
  function LinkAuth(ss: Sessions, sid: string, result: string, username: string): (r: Result<Sessions>)
    ensures r.Err? <==> sid !in ss
    ensures r.Err? ==> r.error == UnknownSession(sid)
    ensures r.Ok? && result == "pass" ==>
      && sid in r.value && OthersUnchanged(ss, r.value, sid)
      && r.value[sid].authorizedUser == username
      && r.value[sid].(authorizedUser := ss[sid].authorizedUser) == ss[sid]
    ensures r.Ok? && result != "pass" ==> r.value == ss
    ensures r.Ok? && StoreOk(ss) ==> StoreOk(r.value)
  {
    match GetSession(ss, sid)
    case Err(e) => Err(e)
    case Ok(session) =>
      if result == "pass" then Ok(ss[sid := session.(authorizedUser := username)]) else Ok(ss)
  }

  // ----------------------------------------------------------------- messages

  /** txReset: a known message starts over. */
  function TxReset(ss: Sessions, sid: string, mid: string): (r: Result<Sessions>)
    ensures r.Err? <==> GetSessionMessage(ss, sid, mid).Err?
    ensures r.Err? ==> r.error == GetSessionMessage(ss, sid, mid).error
    ensures r.Ok? ==> OnlyMessageChanged(ss, r.value, sid, mid) && r.value[sid].messages[mid] == NewMessage(mid)
    ensures r.Ok? && StoreOk(ss) ==> StoreOk(r.value)
  {
    match GetSessionMessage(ss, sid, mid)
    case Err(e) => Err(e)
    case Ok((session, _)) =>
      PutMessageChanges(ss, sid, mid, NewMessage(mid));
      PutMessageKeeps(ss, sid, mid, NewMessage(mid));
      Ok(PutMessage(ss, sid, session, mid, NewMessage(mid)))
  }

  /** txBegin: a new message in a known session; a message id already in
      use is fatal. */
  function TxBegin(ss: Sessions, sid: string, mid: string): (r: Result<Sessions>)
    ensures sid !in ss ==> r == Err(UnknownSession(sid))
    ensures sid in ss && mid in ss[sid].messages ==> r == Err(ExistingMessage(sid, mid))
    ensures r.Ok? <==> sid in ss && mid !in ss[sid].messages
    ensures r.Ok? ==>
      && OnlyMessageChanged(ss, r.value, sid, mid)
      && r.value[sid].messages.Keys == ss[sid].messages.Keys + {mid}
      && r.value[sid].messages[mid] == NewMessage(mid)
    ensures r.Ok? && StoreOk(ss) ==> StoreOk(r.value)
  {
    match GetSession(ss, sid)
    case Err(e) => Err(e)
    case Ok(session) =>
      if mid in session.messages then Err(ExistingMessage(sid, mid))
      else
        PutMessageChanges(ss, sid, mid, NewMessage(mid));
        PutMessageKeeps(ss, sid, mid, NewMessage(mid));
        Ok(PutMessage(ss, sid, session, mid, NewMessage(mid)))
  }

  /** The address lists a message keeps stay valid when a parsed address is
      added. */
  lemma AddAddressKeeps(mid: string, m: Message, n: Message, a: string, toEnvelopeTo: bool)
    requires MatchesAddress(a)
    requires if toEnvelopeTo then n == m.(envelopeTo := m.envelopeTo + [a])
             else n == m.(envelopeFrom := m.envelopeFrom + [a])
    ensures MessageOk(mid, m) ==> MessageOk(mid, n)
  {
    if MessageOk(mid, m) {
      AddressSnoc(m.envelopeTo, a);
      AddressSnoc(m.envelopeFrom, a);
    }
  }

  /** txMail: on "ok", the sender address, when it parses, is added to the
      envelope senders; nothing else changes. */
  function TxMail(ss: Sessions, sid: string, mid: string, result: string, address: string): (r: Result<Sessions>)
    ensures r.Err? <==> GetSessionMessage(ss, sid, mid).Err?
    ensures r.Err? ==> r.error == GetSessionMessage(ss, sid, mid).error
    ensures r.Ok? && result == "ok" && ParseEmailAddress(address).Some? ==>
      var m := ss[sid].messages[mid];
      && OnlyMessageChanged(ss, r.value, sid, mid)
      && r.value[sid].messages[mid] == m.(envelopeFrom := m.envelopeFrom + [ParseEmailAddress(address).value])
    ensures r.Ok? && !(result == "ok" && ParseEmailAddress(address).Some?) ==> r.value == ss
    ensures r.Ok? && StoreOk(ss) ==> StoreOk(r.value)
  {
    match GetSessionMessage(ss, sid, mid)
    case Err(e) => Err(e)
    case Ok((session, message)) =>
      if result == "ok" then
        match ParseEmailAddress(address)
        case None => Ok(ss)
        case Some(parsed) =>
          var m := message.(envelopeFrom := message.envelopeFrom + [parsed]);
          AddAddressKeeps(mid, message, m, parsed, false);
          PutMessageChanges(ss, sid, mid, m);
          PutMessageKeeps(ss, sid, mid, m);
          Ok(PutMessage(ss, sid, session, mid, m))
      else Ok(ss)
  }

  /** txRcpt: on "ok", the recipient address, when it parses, is added to
      the envelope recipients; nothing else changes. */
  function TxRcpt(ss: Sessions, sid: string, mid: string, result: string, address: string): (r: Result<Sessions>)
    ensures r.Err? <==> GetSessionMessage(ss, sid, mid).Err?
    ensures r.Err? ==> r.error == GetSessionMessage(ss, sid, mid).error
    ensures r.Ok? && result == "ok" && ParseEmailAddress(address).Some? ==>
      var m := ss[sid].messages[mid];
      && OnlyMessageChanged(ss, r.value, sid, mid)
      && r.value[sid].messages[mid] == m.(envelopeTo := m.envelopeTo + [ParseEmailAddress(address).value])
    ensures r.Ok? && !(result == "ok" && ParseEmailAddress(address).Some?) ==> r.value == ss
    ensures r.Ok? && StoreOk(ss) ==> StoreOk(r.value)
  {
    match GetSessionMessage(ss, sid, mid)
    case Err(e) => Err(e)
    case Ok((session, message)) =>
      if result == "ok" then
        match ParseEmailAddress(address)
        case None => Ok(ss)
        case Some(parsed) =>
          var m := message.(envelopeTo := message.envelopeTo + [parsed]);
          AddAddressKeeps(mid, message, m, parsed, true);
          PutMessageChanges(ss, sid, mid, m);
          PutMessageKeeps(ss, sid, mid, m);
          Ok(PutMessage(ss, sid, session, mid, m))
      else Ok(ss)
  }

  /** txData: on "ok", the message becomes the session's data message,
      enters the "data" state and starts in its header. */
  function TxData(ss: Sessions, sid: string, mid: string, result: string): (r: Result<Sessions>)
    ensures r.Err? <==> GetSessionMessage(ss, sid, mid).Err?
    ensures r.Err? ==> r.error == GetSessionMessage(ss, sid, mid).error
    ensures r.Ok? && result == "ok" ==>
      var m := ss[sid].messages[mid];
      && sid in r.value && OthersUnchanged(ss, r.value, sid)
      && mid in r.value[sid].messages
      && OtherMessagesUnchanged(ss[sid].messages, r.value[sid].messages, mid)
      && r.value[sid].dataMessage == mid
      && r.value[sid].(messages := ss[sid].messages, dataMessage := ss[sid].dataMessage) == ss[sid]
      && r.value[sid].messages[mid] == m.(state := "data", inHeader := true)
    ensures r.Ok? && result != "ok" ==> r.value == ss
    ensures r.Ok? && StoreOk(ss) ==> StoreOk(r.value)
  {
    match GetSessionMessage(ss, sid, mid)
    case Err(e) => Err(e)
    case Ok((session, message)) =>
      if result == "ok" then
        var m := message.(state := "data", inHeader := true);
        PutMessageChanges(ss, sid, mid, m);
        PutMessageKeeps(ss, sid, mid, m);
        Ok(PutMessage(ss, sid, session.(dataMessage := mid), mid, m))
      else Ok(ss)
  }

  /** The message state change shared by txCommit and txRollback. */
  function SetState(ss: Sessions, sid: string, mid: string, state: string): (r: Result<Sessions>)
    requires KnownState(state)
    ensures r.Err? <==> GetSessionMessage(ss, sid, mid).Err?
    ensures r.Err? ==> r.error == GetSessionMessage(ss, sid, mid).error
    ensures r.Ok? ==>
      && OnlyMessageChanged(ss, r.value, sid, mid)
      && r.value[sid].messages[mid] == ss[sid].messages[mid].(state := state)
    ensures r.Ok? && StoreOk(ss) ==> StoreOk(r.value)
  {
    match GetSessionMessage(ss, sid, mid)
    case Err(e) => Err(e)
    case Ok((session, message)) =>
      var m := message.(state := state);
      PutMessageChanges(ss, sid, mid, m);
      PutMessageKeeps(ss, sid, mid, m);
      Ok(PutMessage(ss, sid, session, mid, m))
  }

  /** txCommit: only the state changes, to "commit". */
  function TxCommit(ss: Sessions, sid: string, mid: string): (r: Result<Sessions>)
    ensures r.Err? <==> GetSessionMessage(ss, sid, mid).Err?
    ensures r.Ok? ==>
      && OnlyMessageChanged(ss, r.value, sid, mid)
      && r.value[sid].messages[mid] == ss[sid].messages[mid].(state := "commit")
  {
    SetState(ss, sid, mid, "commit")
  }

  /** txRollback: only the state changes, to "rollback". */
  function TxRollback(ss: Sessions, sid: string, mid: string): (r: Result<Sessions>)
    ensures r.Err? <==> GetSessionMessage(ss, sid, mid).Err?
    ensures r.Ok? ==>
      && OnlyMessageChanged(ss, r.value, sid, mid)
      && r.value[sid].messages[mid] == ss[sid].messages[mid].(state := "rollback")
  {
    SetState(ss, sid, mid, "rollback")
  }

  // ---------------------------------------------------------------- data line

  /** dataLine on the store: the line goes to the session's data message;
      the message may change and the lines to send back are returned. */
  function DataLine(ss: Sessions, sid: string, line: string, parseScore: string -> Option<Score>,
                    getClass: (seq<string>, Score) -> string): (r: Result<(Sessions, seq<string>)>)
    ensures sid !in ss ==> r == Err(UnknownSession(sid))
    ensures sid in ss && ss[sid].dataMessage !in ss[sid].messages ==>
      r == Err(UnknownMessage(sid, ss[sid].dataMessage))
    ensures sid in ss && ss[sid].dataMessage in ss[sid].messages ==>
      var mid := ss[sid].dataMessage;
      var step := DataLineStep(ss[sid].messages[mid], line, parseScore, getClass);
      && (r.Err? <==> step.Err?)
      && (r.Err? ==> r.error == step.error)
      && (r.Ok? ==> OnlyMessageChanged(ss, r.value.0, sid, mid)
                    && r.value.0[sid].messages[mid] == step.value.message
                    && r.value.1 == step.value.lines)
    ensures r.Ok? && StoreOk(ss) ==> StoreOk(r.value.0)
  {
    match GetSession(ss, sid)
    case Err(e) => Err(e)
    case Ok(session) =>
      match GetSessionMessage(ss, sid, session.dataMessage)
      case Err(e) => Err(e)
      case Ok((_, message)) =>
        match DataLineStep(message, line, parseScore, getClass)
        case Err(e) => Err(e)
        case Ok(step) =>
          DataLineStepKeeps(session.dataMessage, message, line, parseScore, getClass);
          PutMessageChanges(ss, sid, session.dataMessage, step.message);
          PutMessageKeeps(ss, sid, session.dataMessage, step.message);
          Ok((PutMessage(ss, sid, session, session.dataMessage, step.message), step.lines))
  }

  /** Outside the header, dataLine sends the line back unchanged and leaves
      the store as it was. */
  lemma DataLineOutsideHeader(ss: Sessions, sid: string, line: string, parseScore: string -> Option<Score>,
                              getClass: (seq<string>, Score) -> string)
    requires sid in ss && ss[sid].dataMessage in ss[sid].messages
    requires !ss[sid].messages[ss[sid].dataMessage].inHeader
    ensures DataLine(ss, sid, line, parseScore, getClass) == Ok((ss, [line]))
  {
    var session := ss[sid];
    assert session.messages[session.dataMessage := session.messages[session.dataMessage]] == session.messages;
    assert ss[sid := session] == ss;
  }

  /** Inside the header, dataLine stores the rewritten message and returns
      the rewritten lines. */
  lemma DataLineInHeader(ss: Sessions, sid: string, line: string, parseScore: string -> Option<Score>,
                         getClass: (seq<string>, Score) -> string)
    requires sid in ss && ss[sid].dataMessage in ss[sid].messages
    requires ss[sid].messages[ss[sid].dataMessage].inHeader
    ensures var m := ss[sid].messages[ss[sid].dataMessage];
      match FilterDataLine(m.(inHeader := TrimSpace(line) != []), line, parseScore, getClass)
      case Err(e) => DataLine(ss, sid, line, parseScore, getClass) == Err(e)
      case Ok(f) => DataLine(ss, sid, line, parseScore, getClass)
                    == Ok((PutMessage(ss, sid, ss[sid], ss[sid].dataMessage, f.message), f.lines))
  {
  }

  // ----------------------------------------------------------------- dispatch

  /** The text of a data line: everything after the seventh separator. */
  function Body(line: string): string
    requires |Split(line, '|')| > 7
  {
    Join(Split(line, '|')[7..], '|')
  }

  /** The handler for a decoded event other than a data line; an event the
      filter did not register for changes nothing. */
  function Handle(ss: Sessions, event: Protocol.Event): (r: Result<Sessions>)
    requires !event.DataLine?
    ensures event.Ignored? ==> r == Ok(ss)
    ensures r.Ok? && StoreOk(ss) ==> StoreOk(r.value)
  {
    match event
    case LinkConnect(sid, rdns, confirmed, src, dst) => LinkConnect(ss, sid, rdns, confirmed, src, dst)
    case LinkDisconnect(sid) => RemoveSession(ss, sid)
    case LinkAuth(sid, result, username) => LinkAuth(ss, sid, result, username)
    case TxReset(sid, mid) => TxReset(ss, sid, mid)
    case TxBegin(sid, mid) => TxBegin(ss, sid, mid)
    case TxMail(sid, mid, result, address) => TxMail(ss, sid, mid, result, address)
    case TxRcpt(sid, mid, result, address) => TxRcpt(ss, sid, mid, result, address)
    case TxData(sid, mid, result) => TxData(ss, sid, mid, result)
    case TxCommit(sid, mid, _) => TxCommit(ss, sid, mid)
    case TxRollback(sid, mid) => TxRollback(ss, sid, mid)
    case Ignored => Ok(ss)
  }

  /** One event line, as the switch in Run handles it: decode, then run the
      handler; a data line's output goes back as response lines. */
  function Step(ss: Sessions, line: string, parseScore: string -> Option<Score>,
                getClass: (seq<string>, Score) -> string): (r: Result<(Sessions, seq<string>)>)
    ensures Protocol.Decode(line).Err? ==> r == Err(Protocol.Decode(line).error)
    ensures Protocol.Decode(line) == Ok(Protocol.Ignored) ==> r == Ok((ss, []))
    ensures r.Ok? && !(Protocol.Decode(line).Ok? && Protocol.Decode(line).value.DataLine?) ==> r.value.1 == []
    ensures r.Ok? && StoreOk(ss) ==> StoreOk(r.value.0)
    ensures var atoms := Split(line, '|');
      |atoms| >= Protocol.DataLineArity && atoms[0] == "filter" && atoms[4] == "data-line" ==>
        var d := DataLine(ss, atoms[5], Join(atoms[7..], '|'), parseScore, getClass);
        && (d.Err? ==> r == Err(d.error))
        && (d.Ok? ==> r == Ok((d.value.0, Protocol.Responses(atoms[5], atoms[6], d.value.1))))
  {
    match Protocol.Decode(line)
    case Err(e) => Err(e)
    case Ok(event) =>
      if event.DataLine? then
        match DataLine(ss, event.sid, Body(line), parseScore, getClass)
        case Err(e) => Err(e)
        case Ok((next, lines)) => Ok((next, Protocol.Responses(event.sid, event.token, lines)))
      else Quiet(Handle(ss, event))
  }

  /** Each report event line reaches its own handler, with the fields of the
      line as the handler's arguments, and writes nothing. */
  lemma RouteReport(ss: Sessions, line: string, parseScore: string -> Option<Score>,
                    getClass: (seq<string>, Score) -> string)
    requires |Split(line, '|')| >= 6 && Split(line, '|')[0] == "report"
    ensures var a := Split(line, '|'); a[4] == "link-connect" && |a| >= 10 ==>
      Step(ss, line, parseScore, getClass) == Quiet(LinkConnect(ss, a[5], a[6], a[7], a[8], a[9]))
    ensures var a := Split(line, '|'); a[4] == "link-disconnect" ==>
      Step(ss, line, parseScore, getClass) == Quiet(RemoveSession(ss, a[5]))
    ensures var a := Split(line, '|'); a[4] == "link-auth" && |a| >= 8 ==>
      Step(ss, line, parseScore, getClass) == Quiet(LinkAuth(ss, a[5], a[6], a[7]))
    ensures var a := Split(line, '|'); a[4] == "tx-reset" && |a| >= 7 ==>
      Step(ss, line, parseScore, getClass) == Quiet(TxReset(ss, a[5], a[6]))
    ensures var a := Split(line, '|'); a[4] == "tx-begin" && |a| >= 7 ==>
      Step(ss, line, parseScore, getClass) == Quiet(TxBegin(ss, a[5], a[6]))
    ensures var a := Split(line, '|'); a[4] == "tx-mail" && |a| >= 9 ==>
      Step(ss, line, parseScore, getClass) == Quiet(TxMail(ss, a[5], a[6], a[7], a[8]))
    ensures var a := Split(line, '|'); a[4] == "tx-rcpt" && |a| >= 9 ==>
      Step(ss, line, parseScore, getClass) == Quiet(TxRcpt(ss, a[5], a[6], a[7], a[8]))
    ensures var a := Split(line, '|'); a[4] == "tx-data" && |a| >= 8 ==>
      Step(ss, line, parseScore, getClass) == Quiet(TxData(ss, a[5], a[6], a[7]))
    ensures var a := Split(line, '|'); a[4] == "tx-commit" && |a| >= 8 ==>
      Step(ss, line, parseScore, getClass) == Quiet(TxCommit(ss, a[5], a[6]))
    ensures var a := Split(line, '|'); a[4] == "tx-rollback" && |a| >= 7 ==>
      Step(ss, line, parseScore, getClass) == Quiet(TxRollback(ss, a[5], a[6]))
  {
    RouteLink(ss, line, parseScore, getClass);
    RouteTx(ss, line, parseScore, getClass);
  }

  /** The link events of RouteReport. */
  lemma RouteLink(ss: Sessions, line: string, parseScore: string -> Option<Score>,
                    getClass: (seq<string>, Score) -> string)
    requires |Split(line, '|')| >= 6 && Split(line, '|')[0] == "report"
    ensures var a := Split(line, '|'); a[4] == "link-connect" && |a| >= 10 ==>
      Step(ss, line, parseScore, getClass) == Quiet(LinkConnect(ss, a[5], a[6], a[7], a[8], a[9]))
    ensures var a := Split(line, '|'); a[4] == "link-disconnect" ==>
      Step(ss, line, parseScore, getClass) == Quiet(RemoveSession(ss, a[5]))
    ensures var a := Split(line, '|'); a[4] == "link-auth" && |a| >= 8 ==>
      Step(ss, line, parseScore, getClass) == Quiet(LinkAuth(ss, a[5], a[6], a[7]))
  {
    var a := Split(line, '|');
    if a[4] in Protocol.ReportArity && |a| >= Protocol.ReportArity[a[4]] {
      StepHandles(ss, line, parseScore, getClass);
      HandleRoutes(ss, Protocol.Decode(line).value);
    }
  }

  /** The transaction events of RouteReport. */
  lemma RouteTx(ss: Sessions, line: string, parseScore: string -> Option<Score>,
                    getClass: (seq<string>, Score) -> string)
    requires |Split(line, '|')| >= 6 && Split(line, '|')[0] == "report"
    ensures var a := Split(line, '|'); a[4] == "tx-reset" && |a| >= 7 ==>
      Step(ss, line, parseScore, getClass) == Quiet(TxReset(ss, a[5], a[6]))
    ensures var a := Split(line, '|'); a[4] == "tx-begin" && |a| >= 7 ==>
      Step(ss, line, parseScore, getClass) == Quiet(TxBegin(ss, a[5], a[6]))
    ensures var a := Split(line, '|'); a[4] == "tx-mail" && |a| >= 9 ==>
      Step(ss, line, parseScore, getClass) == Quiet(TxMail(ss, a[5], a[6], a[7], a[8]))
    ensures var a := Split(line, '|'); a[4] == "tx-rcpt" && |a| >= 9 ==>
      Step(ss, line, parseScore, getClass) == Quiet(TxRcpt(ss, a[5], a[6], a[7], a[8]))
    ensures var a := Split(line, '|'); a[4] == "tx-data" && |a| >= 8 ==>
      Step(ss, line, parseScore, getClass) == Quiet(TxData(ss, a[5], a[6], a[7]))
    ensures var a := Split(line, '|'); a[4] == "tx-commit" && |a| >= 8 ==>
      Step(ss, line, parseScore, getClass) == Quiet(TxCommit(ss, a[5], a[6]))
    ensures var a := Split(line, '|'); a[4] == "tx-rollback" && |a| >= 7 ==>
      Step(ss, line, parseScore, getClass) == Quiet(TxRollback(ss, a[5], a[6]))
  {
    var a := Split(line, '|');
    if a[4] in Protocol.ReportArity && |a| >= Protocol.ReportArity[a[4]] {
      StepHandles(ss, line, parseScore, getClass);
      HandleRoutes(ss, Protocol.Decode(line).value);
    }
  }

  /** The handler each kind of event reaches. */
  lemma HandleRoutes(ss: Sessions, e: Protocol.Event)
    requires !e.DataLine?
    ensures e.LinkConnect? ==> Handle(ss, e) == LinkConnect(ss, e.sid, e.rdns, e.confirmed, e.src, e.dst)
    ensures e.LinkDisconnect? ==> Handle(ss, e) == RemoveSession(ss, e.sid)
    ensures e.LinkAuth? ==> Handle(ss, e) == LinkAuth(ss, e.sid, e.result, e.username)
    ensures e.TxReset? ==> Handle(ss, e) == TxReset(ss, e.sid, e.mid)
    ensures e.TxBegin? ==> Handle(ss, e) == TxBegin(ss, e.sid, e.mid)
    ensures e.TxMail? ==> Handle(ss, e) == TxMail(ss, e.sid, e.mid, e.result, e.address)
    ensures e.TxRcpt? ==> Handle(ss, e) == TxRcpt(ss, e.sid, e.mid, e.result, e.address)
    ensures e.TxData? ==> Handle(ss, e) == TxData(ss, e.sid, e.mid, e.result)
    ensures e.TxCommit? ==> Handle(ss, e) == TxCommit(ss, e.sid, e.mid)
    ensures e.TxRollback? ==> Handle(ss, e) == TxRollback(ss, e.sid, e.mid)
  {
  }

  lemma StepHandles(ss: Sessions, line: string, parseScore: string -> Option<Score>,
                    getClass: (seq<string>, Score) -> string)
    requires Protocol.Decode(line).Ok? && !Protocol.Decode(line).value.DataLine?
    ensures Step(ss, line, parseScore, getClass) == Quiet(Handle(ss, Protocol.Decode(line).value))
  {
  }

  /** A handler outcome that writes nothing. */
  function Quiet(r: Result<Sessions>): Result<(Sessions, seq<string>)>
  {
    match r
    case Err(e) => Err(e)
    case Ok(next) => Ok((next, []))
  }

  /** The result of handling one event line: the store after it and the
      lines written, or the failure that stops the filter. */
  type Outcome = Result<(Sessions, seq<string>)>

  /** Step as a value, so that the event loop can be stated over any step. */
  function Handler(parseScore: string -> Option<Score>, getClass: (seq<string>, Score) -> string)
    : (Sessions, string) -> Outcome
  {
    (ss, line) => Step(ss, line, parseScore, getClass)
  }

  /** A step that never breaks the store invariant. */
  ghost predicate KeepsStore(step: (Sessions, string) -> Outcome)
  {
    forall ss, line :: StoreOk(ss) && step(ss, line).Ok? ==> StoreOk(step(ss, line).value.0)
  }

  lemma HandlerKeepsStore(parseScore: string -> Option<Score>, getClass: (seq<string>, Score) -> string)
    ensures KeepsStore(Handler(parseScore, getClass))
  {
    forall ss, line | StoreOk(ss) && Handler(parseScore, getClass)(ss, line).Ok?
      ensures StoreOk(Handler(parseScore, getClass)(ss, line).value.0)
    {
      assert Handler(parseScore, getClass)(ss, line) == Step(ss, line, parseScore, getClass);
    }
  }

  /** Where the event loop ends: how it stopped, the store at that point and
      everything written. */
  datatype Trace = Trace(status: Status, sessions: Sessions, output: seq<string>)

  /** The event loop over the remaining input lines: each line in turn until
      one is fatal or the input ends. */
  function Process(ss: Sessions, lines: seq<string>, step: (Sessions, string) -> Outcome): (t: Trace)
    ensures KeepsStore(step) && StoreOk(ss) ==> StoreOk(t.sessions)
    decreases |lines|
  {
    if lines == [] then Trace(Done, ss, [])
    else
      match step(ss, lines[0])
      case Err(e) => Trace(Fatal(e), ss, [])
      case Ok((next, out)) =>
        var rest := Process(next, lines[1..], step);
        Trace(rest.status, rest.sessions, out + rest.output)
  }

  /** The event loop after one line that was handled. */
  lemma ProcessHandled(ss: Sessions, lines: seq<string>, step: (Sessions, string) -> Outcome,
                       next: Sessions, out: seq<string>)
    requires lines != [] && step(ss, lines[0]) == Ok((next, out))
    ensures var rest := Process(next, lines[1..], step);
      Process(ss, lines, step) == Trace(rest.status, rest.sessions, out + rest.output)
  {
  }

  /** The event loop stops at a fatal line, with the store as it was before
      that line. */
  lemma ProcessFatal(ss: Sessions, lines: seq<string>, step: (Sessions, string) -> Outcome, e: Failure)
    requires lines != [] && step(ss, lines[0]) == Err(e)
    ensures Process(ss, lines, step) == Trace(Fatal(e), ss, [])
  {
  }
}
