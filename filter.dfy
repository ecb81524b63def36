/** The filter process itself: the session store, the handshake results,
    the input lines still to be read and everything written so far, updated
    in place by the handlers the event loop dispatches to. Each handler is
    proved to do what the matching function of the Store module specifies. */
module Filters {
  import opened Strings
  import opened Address
  import opened Failures
  import opened Messages
  import Protocol
  import Store

  /** A handler's status and new store agree with its specification: fatal
      with the store untouched, or done with the specified store. */
  predicate Outcome(r: Status, before: Store.Sessions, after: Store.Sessions, spec: Result<Store.Sessions>)
  {
    match spec
    case Err(e) => r == Fatal(e) && after == before
    case Ok(next) => r == Done && after == next
  }

  class Filter {
    var sessions: Store.Sessions
    var protocol: string
    var subsystem: string
    /** The input lines (the scanner over standard input) and how many of
        them have been read. */
    const input: seq<string>
    var next: nat
    /** Every line written to standard output. */
    var output: seq<string>
    const reports: seq<string>
    const filters: seq<string>
    /** The float parser and the spam-class lookup the filter was built with. */
    const parseScore: string -> Option<Score>
    const getClass: (seq<string>, Score) -> string

    ghost predicate Valid()
      reads this
    {
      && Store.StoreOk(sessions)
      && next <= |input|
      && reports == Protocol.ReportEvents
      && filters == Protocol.FilterEvents
    }

    /** The part of NewFilter that sets up the filter's state. */
    constructor (input: seq<string>, parseScore: string -> Option<Score>, getClass: (seq<string>, Score) -> string)
      ensures Valid()
      ensures sessions == map[] && output == [] && protocol == "" && subsystem == ""
      ensures this.input == input && next == 0
      ensures this.parseScore == parseScore && this.getClass == getClass
    {
      sessions := map[];
      protocol := "";
      subsystem := "";
      this.input := input;
      next := 0;
      output := [];
      reports := Protocol.ReportEvents;
      filters := Protocol.FilterEvents;
      this.parseScore := parseScore;
      this.getClass := getClass;
    }

    // ------------------------------------------------------------ handshake

    /** Config: reads handshake lines until `ready`. */
    method Config() returns (r: Status)
      requires Valid()
      modifies this`protocol, this`subsystem, this`next
      ensures Valid()
      ensures match Protocol.ReadConfig(input, old(next), old(protocol), old(subsystem))
        case Err(e) => r == Fatal(e)
        case Ok(h) => r == Done && protocol == h.protocol && subsystem == h.subsystem && next == h.next
    {
      ghost var spec := Protocol.ReadConfig(input, next, protocol, subsystem);
      while next < |input|
        invariant next <= |input|
        invariant Protocol.ReadConfig(input, next, protocol, subsystem) == spec
        decreases |input| - next
      {
        var line := input[next];
        next := next + 1;
        var fields := Split(line, '|');
        if |fields| < 2 {
          return Fatal(BadConfigLine(line));
        }
        if fields[1] == "protocol" {
          if |fields| < 3 {
            return Fatal(IndexOutOfRange);
          }
          protocol := fields[2];
        } else if fields[1] == "subsystem" {
          if |fields| < 3 {
            return Fatal(IndexOutOfRange);
          }
          subsystem := fields[2];
        } else if fields[1] == "ready" {
          return Done;
        }
      }
      return Fatal(ConfigFailure);
    }

    /** Register: announces the report events, the filter events and
        readiness. */
    method Register()
      requires Valid()
      modifies this`output
      ensures output == old(output) + Protocol.RegistrationLines(subsystem)
    {
      Announce("report", reports);
      Announce("filter", filters);
      output := output + ["register|ready"];
    }

    /** One of the loops of Register: a registration line per event name. */
    method Announce(kind: string, names: seq<string>)
      modifies this`output
      ensures output == old(output) + Protocol.Announce(kind, subsystem, names)
    {
      for i := 0 to |names|
        invariant output == old(output) + Protocol.Announce(kind, subsystem, names[..i])
      {
        assert names[..i + 1] == names[..i] + [names[i]];
        output := output + [Protocol.RegisterLine(kind, subsystem, names[i])];
      }
      assert names[..|names|] == names;
    }

    // ------------------------------------------------------------- sessions

    method LinkConnect(sid: string, rdns: string, confirmed: string, src: string, dst: string) returns (r: Status)
      requires Valid()
      modifies this`sessions
      ensures Valid()
      ensures Outcome(r, old(sessions), sessions, Store.LinkConnect(old(sessions), sid, rdns, confirmed, src, dst))
    {
      if sid in sessions {
        return Fatal(ExistingSession(sid));
      }
      sessions := sessions[sid := NewSession(sid, rdns, confirmed == "pass", src, dst)];
      return Done;
    }

    method LinkDisconnect(sid: string) returns (r: Status)
      requires Valid()
      modifies this`sessions
      ensures Valid()
      ensures Outcome(r, old(sessions), sessions, Store.RemoveSession(old(sessions), sid))
    {
      var found := Store.GetSession(sessions, sid);
      if found.Err? {
        return Fatal(found.error);
      }
      sessions := sessions - {sid};
      return Done;
    }

    /** sessionTimeout: the same as linkDisconnect. */
    method SessionTimeout(sid: string) returns (r: Status)
      requires Valid()
      modifies this`sessions
      ensures Valid()
      ensures Outcome(r, old(sessions), sessions, Store.RemoveSession(old(sessions), sid))
    {
      r := LinkDisconnect(sid);
    }

    method LinkAuth(sid: string, result: string, username: string) returns (r: Status)
      requires Valid()
      modifies this`sessions
      ensures Valid()
      ensures Outcome(r, old(sessions), sessions, Store.LinkAuth(old(sessions), sid, result, username))
    {
      var found := Store.GetSession(sessions, sid);
      if found.Err? {
        return Fatal(found.error);
      }
      var session := found.value;
      if result == "pass" {
        sessions := sessions[sid := session.(authorizedUser := username)];
      }
      return Done;
    }

    // ------------------------------------------------------------- messages

    method TxReset(sid: string, mid: string) returns (r: Status)
      requires Valid()
      modifies this`sessions
      ensures Valid()
      ensures Outcome(r, old(sessions), sessions, Store.TxReset(old(sessions), sid, mid))
    {
      var found := Store.GetSessionMessage(sessions, sid, mid);
      if found.Err? {
        return Fatal(found.error);
      }
      var session := found.value.0;
      sessions := Store.PutMessage(sessions, sid, session, mid, NewMessage(mid));
      return Done;
    }

    method TxBegin(sid: string, mid: string) returns (r: Status)
      requires Valid()
      modifies this`sessions
      ensures Valid()
      ensures Outcome(r, old(sessions), sessions, Store.TxBegin(old(sessions), sid, mid))
    {
      var found := Store.GetSession(sessions, sid);
      if found.Err? {
        return Fatal(found.error);
      }
      var session := found.value;
      if mid in session.messages {
        return Fatal(ExistingMessage(sid, mid));
      }
      sessions := Store.PutMessage(sessions, sid, session, mid, NewMessage(mid));
      return Done;
    }

    method TxMail(sid: string, mid: string, result: string, address: string) returns (r: Status)
      requires Valid()
      modifies this`sessions
      ensures Valid()
      ensures Outcome(r, old(sessions), sessions, Store.TxMail(old(sessions), sid, mid, result, address))
    {
      var found := Store.GetSessionMessage(sessions, sid, mid);
      if found.Err? {
        return Fatal(found.error);
      }
      ghost var spec := Store.TxMail(sessions, sid, mid, result, address);
      var (session, message) := found.value;
      if result == "ok" {
        var parsed := ParseEmailAddress(address);
        if parsed.Some? {
          message := message.(envelopeFrom := message.envelopeFrom + [parsed.value]);
          sessions := Store.PutMessage(sessions, sid, session, mid, message);
          assert spec == Ok(sessions);
        }
      }
      return Done;
    }

    method TxRcpt(sid: string, mid: string, result: string, address: string) returns (r: Status)
      requires Valid()
      modifies this`sessions
      ensures Valid()
      ensures Outcome(r, old(sessions), sessions, Store.TxRcpt(old(sessions), sid, mid, result, address))
    {
      var found := Store.GetSessionMessage(sessions, sid, mid);
      if found.Err? {
        return Fatal(found.error);
      }
      ghost var spec := Store.TxRcpt(sessions, sid, mid, result, address);
      var (session, message) := found.value;
      if result == "ok" {
        var parsed := ParseEmailAddress(address);
        if parsed.Some? {
          message := message.(envelopeTo := message.envelopeTo + [parsed.value]);
          sessions := Store.PutMessage(sessions, sid, session, mid, message);
          assert spec == Ok(sessions);
        }
      }
      return Done;
    }

    method TxData(sid: string, mid: string, result: string) returns (r: Status)
      requires Valid()
      modifies this`sessions
      ensures Valid()
      ensures Outcome(r, old(sessions), sessions, Store.TxData(old(sessions), sid, mid, result))
    {
      var found := Store.GetSessionMessage(sessions, sid, mid);
      if found.Err? {
        return Fatal(found.error);
      }
      var (session, message) := found.value;
      if result == "ok" {
        session := session.(dataMessage := mid);
        message := message.(state := "data", inHeader := true);
        sessions := Store.PutMessage(sessions, sid, session, mid, message);
      }
      return Done;
    }

    method TxCommit(sid: string, mid: string, size: string) returns (r: Status)
      requires Valid()
      modifies this`sessions
      ensures Valid()
      ensures Outcome(r, old(sessions), sessions, Store.TxCommit(old(sessions), sid, mid))
    {
      var found := Store.GetSessionMessage(sessions, sid, mid);
      if found.Err? {
        return Fatal(found.error);
      }
      var (session, message) := found.value;
      sessions := Store.PutMessage(sessions, sid, session, mid, message.(state := "commit"));
      return Done;
    }

    method TxRollback(sid: string, mid: string) returns (r: Status)
      requires Valid()
      modifies this`sessions
      ensures Valid()
      ensures Outcome(r, old(sessions), sessions, Store.TxRollback(old(sessions), sid, mid))
    {
      var found := Store.GetSessionMessage(sessions, sid, mid);
      if found.Err? {
        return Fatal(found.error);
      }
      var (session, message) := found.value;
      sessions := Store.PutMessage(sessions, sid, session, mid, message.(state := "rollback"));
      return Done;
    }

    // ------------------------------------------------------------- dispatch

    /** The report branch of the switch in Run. */
    method HandleReport(atoms: seq<string>) returns (r: Status)
      requires Valid()
      requires |atoms| >= 6
      modifies this`sessions
      ensures Valid()
      ensures match Protocol.DecodeReport(atoms)
        case Err(e) => r == Fatal(e) && sessions == old(sessions)
        case Ok(event) => Outcome(r, old(sessions), sessions, Store.Handle(old(sessions), event))
    {
      var name := atoms[Protocol.FidName];
      var sid := atoms[Protocol.FidSid];
      ghost var decoded := Protocol.DecodeReport(atoms);
      if name == "link-connect" {
        if |atoms| < 10 { return Fatal(MissingArgs(name, 10)); }
        assert decoded == Ok(Protocol.LinkConnect(sid, atoms[6], atoms[7], atoms[8], atoms[9]));
        assert Store.Handle(sessions, decoded.value) == Store.LinkConnect(sessions, sid, atoms[6], atoms[7], atoms[8], atoms[9]);
        r := LinkConnect(sid, atoms[6], atoms[7], atoms[8], atoms[9]);
      } else if name == "link-disconnect" {
        assert decoded == Ok(Protocol.LinkDisconnect(sid));
        assert Store.Handle(sessions, decoded.value) == Store.RemoveSession(sessions, sid);
        r := LinkDisconnect(sid);
      } else if name == "link-auth" {
        if |atoms| < 8 { return Fatal(MissingArgs(name, 8)); }
        assert decoded == Ok(Protocol.LinkAuth(sid, atoms[6], atoms[7]));
        assert Store.Handle(sessions, decoded.value) == Store.LinkAuth(sessions, sid, atoms[6], atoms[7]);
        r := LinkAuth(sid, atoms[6], atoms[7]);
      } else if name == "tx-reset" {
        if |atoms| < 7 { return Fatal(MissingArgs(name, 7)); }
        assert decoded == Ok(Protocol.TxReset(sid, atoms[6]));
        assert Store.Handle(sessions, decoded.value) == Store.TxReset(sessions, sid, atoms[6]);
        r := TxReset(sid, atoms[6]);
      } else if name == "tx-begin" {
        if |atoms| < 7 { return Fatal(MissingArgs(name, 7)); }
        assert decoded == Ok(Protocol.TxBegin(sid, atoms[6]));
        assert Store.Handle(sessions, decoded.value) == Store.TxBegin(sessions, sid, atoms[6]);
        r := TxBegin(sid, atoms[6]);
      } else if name == "tx-mail" {
        if |atoms| < 9 { return Fatal(MissingArgs(name, 9)); }
        assert decoded == Ok(Protocol.TxMail(sid, atoms[6], atoms[7], atoms[8]));
        assert Store.Handle(sessions, decoded.value) == Store.TxMail(sessions, sid, atoms[6], atoms[7], atoms[8]);
        r := TxMail(sid, atoms[6], atoms[7], atoms[8]);
      } else if name == "tx-rcpt" {
        if |atoms| < 9 { return Fatal(MissingArgs(name, 9)); }
        assert decoded == Ok(Protocol.TxRcpt(sid, atoms[6], atoms[7], atoms[8]));
        assert Store.Handle(sessions, decoded.value) == Store.TxRcpt(sessions, sid, atoms[6], atoms[7], atoms[8]);
        r := TxRcpt(sid, atoms[6], atoms[7], atoms[8]);
      } else if name == "tx-data" {
        if |atoms| < 8 { return Fatal(MissingArgs(name, 8)); }
        assert decoded == Ok(Protocol.TxData(sid, atoms[6], atoms[7]));
        assert Store.Handle(sessions, decoded.value) == Store.TxData(sessions, sid, atoms[6], atoms[7]);
        r := TxData(sid, atoms[6], atoms[7]);
      } else if name == "tx-commit" {
        if |atoms| < 8 { return Fatal(MissingArgs(name, 8)); }
        assert decoded == Ok(Protocol.TxCommit(sid, atoms[6], atoms[7]));
        assert Store.Handle(sessions, decoded.value) == Store.TxCommit(sessions, sid, atoms[6]);
        r := TxCommit(sid, atoms[6], atoms[7]);
      } else if name == "tx-rollback" {
        if |atoms| < 7 { return Fatal(MissingArgs(name, 7)); }
        assert decoded == Ok(Protocol.TxRollback(sid, atoms[6]));
        assert Store.Handle(sessions, decoded.value) == Store.TxRollback(sessions, sid, atoms[6]);
        r := TxRollback(sid, atoms[6]);
      } else {
        assert decoded == Ok(Protocol.Ignored);
        r := Done;
      }
    }

    /** The body of the event loop in Run: one input line, split into its
        fields and dispatched by record kind and event name. */
    method HandleLine(line: string) returns (r: Status)
      requires Valid()
      modifies this`sessions, this`output
      ensures Valid()
      ensures match Store.Step(old(sessions), line, parseScore, getClass)
        case Err(e) => r == Fatal(e) && sessions == old(sessions) && output == old(output)
        case Ok((next, written)) => r == Done && sessions == next && output == old(output) + written
    {
      var atoms := Split(line, '|');
      if |atoms| < 6 {
        return Fatal(MissingAtoms(line));
      }
      if atoms[0] == "report" {
        r := HandleReport(atoms);
      } else if atoms[0] == "filter" {
        if |atoms| <= Protocol.FidToken {
          return Fatal(IndexOutOfRange);
        }
        var phase := atoms[Protocol.FidName];
        var sid := atoms[Protocol.FidSid];
        var token := atoms[Protocol.FidToken];
        if phase == "data-line" {
          if |atoms| < 8 {
            return Fatal(MissingArgs(phase, 8));
          }
          var body := Protocol.LastAtom(line, atoms, 7);
          r := DataLine(sid, token, body);
        } else {
          r := Done;
        }
      } else {
        return Fatal(UnexpectedInput(line));
      }
    }

    /** Run: the handshake, the registration, then the event loop. */
    method Run() returns (r: Status)
      requires Valid()
      modifies this
      ensures Valid()
      ensures match Protocol.ReadConfig(input, old(next), old(protocol), old(subsystem))
        case Err(e) => r == Fatal(e)
        case Ok(h) =>
          var t := Store.Process(old(sessions), input[h.next..], Store.Handler(parseScore, getClass));
          && r == t.status && sessions == t.sessions
          && output == old(output) + Protocol.RegistrationLines(h.subsystem) + t.output
    {
      r := Config();
      if r.Fatal? {
        return;
      }
      Register();
      r := Serve();
    }

    /** The event loop of Run: every remaining input line in turn until one
        is fatal or the input ends. */
    method Serve() returns (r: Status)
      requires Valid()
      modifies this`sessions, this`output, this`next
      ensures Valid()
      ensures var t := Store.Process(old(sessions), input[old(next)..], Store.Handler(parseScore, getClass));
        r == t.status && sessions == t.sessions && output == old(output) + t.output
    {
      ghost var step := Store.Handler(parseScore, getClass);
      ghost var written: seq<string> := [];
      while next < |input|
        invariant Valid() && old(next) <= next
        invariant output == old(output) + written
        invariant var t := Store.Process(sessions, input[next..], step);
          Store.Process(old(sessions), input[old(next)..], step) == Store.Trace(t.status, t.sessions, written + t.output)
        decreases |input| - next
      {
        ghost var out;
        r, out := ServeLine();
        if r.Fatal? {
          assert written + [] == written;
          return;
        }
        Regroup(written, out, Store.Process(sessions, input[next..], step).output);
        Regroup(old(output), written, out);
        written := written + out;
      }
      assert input[next..] == [];
      return Done;
    }

    /** One turn of the event loop: read the next line and handle it. The
        outcome is stated as what is left of the loop. */
    method ServeLine() returns (r: Status, ghost out: seq<string>)
      requires Valid() && next < |input|
      modifies this`sessions, this`output, this`next
      ensures Valid() && next == old(next) + 1
      ensures var step := Store.Handler(parseScore, getClass);
        var rest := Store.Process(sessions, input[next..], step);
        r.Fatal? ==> (output == old(output) && sessions == old(sessions)
          && Store.Process(old(sessions), input[old(next)..], step) == Store.Trace(r, sessions, []))
      ensures var step := Store.Handler(parseScore, getClass);
        var rest := Store.Process(sessions, input[next..], step);
        r.Done? ==> (output == old(output) + out
          && Store.Process(old(sessions), input[old(next)..], step) == Store.Trace(rest.status, rest.sessions, out + rest.output))
    {
      ghost var step := Store.Handler(parseScore, getClass);
      var line := input[next];
      ghost var lines := input[next..];
      assert lines[0] == line && lines[1..] == input[next + 1..];
      next := next + 1;
      r := HandleLine(line);
      assert step(old(sessions), line) == Store.Step(old(sessions), line, parseScore, getClass);
      if r.Fatal? {
        Store.ProcessFatal(old(sessions), lines, step, r.reason);
        return r, [];
      }
      out := output[|old(output)|..];
      Store.ProcessHandled(old(sessions), lines, step, sessions, out);
    }

    // ------------------------------------------------------------ data line

    /** dataLine: runs the line through the header rewrite of the session's
        data message while it is in its header, then writes one response
        line per resulting line. */
    method DataLine(sid: string, token: string, line: string) returns (r: Status)
      requires Valid()
      modifies this`sessions, this`output
      ensures Valid()
      ensures match Store.DataLine(old(sessions), sid, line, parseScore, getClass)
        case Err(e) => r == Fatal(e) && sessions == old(sessions) && output == old(output)
        case Ok((next, lines)) =>
          r == Done && sessions == next && output == old(output) + Protocol.Responses(sid, token, lines)
    {
      var lines := [line];
      var found := Store.GetSession(sessions, sid);
      if found.Err? {
        return Fatal(found.error);
      }
      var session := found.value;
      var foundMessage := Store.GetSessionMessage(sessions, sid, session.dataMessage);
      if foundMessage.Err? {
        return Fatal(foundMessage.error);
      }
      var message := foundMessage.value.1;
      if message.inHeader {
        Store.DataLineInHeader(sessions, sid, line, parseScore, getClass);
        r, lines := RewriteHeader(sid, line);
        if r.Fatal? {
          return;
        }
      } else {
        Store.DataLineOutsideHeader(sessions, sid, line, parseScore, getClass);
      }
      Respond(sid, token, lines);
      return Done;
    }

    /** The part of dataLine for a message still in its header: a blank
        line ends the header, then the line is rewritten and the message
        stored back. */
    method RewriteHeader(sid: string, line: string) returns (r: Status, lines: seq<string>)
      requires Valid()
      requires sid in sessions && sessions[sid].dataMessage in sessions[sid].messages
      requires sessions[sid].messages[sessions[sid].dataMessage].inHeader
      modifies this`sessions
      ensures Valid()
      ensures var session := old(sessions)[sid];
        var m := session.messages[session.dataMessage];
        match FilterDataLine(m.(inHeader := TrimSpace(line) != []), line, parseScore, getClass)
        case Err(e) => r == Fatal(e) && sessions == old(sessions)
        case Ok(f) => r == Done && lines == f.lines
                      && sessions == Store.PutMessage(old(sessions), sid, session, session.dataMessage, f.message)
    {
      var session := sessions[sid];
      var message := session.messages[session.dataMessage];
      ghost var original := message;
      if TrimSpace(line) == [] {
        message := message.(inHeader := false);
      }
      assert message == original.(inHeader := TrimSpace(line) != []);
      var filtered := FilterDataLine(message, line, parseScore, getClass);
      if filtered.Err? {
        return Fatal(filtered.error), [];
      }
      FilterDataLineKeeps(session.dataMessage, message, line, parseScore, getClass);
      Store.PutMessageKeeps(sessions, sid, session.dataMessage, filtered.value.message);
      message, lines := filtered.value.message, filtered.value.lines;
      sessions := Store.PutMessage(sessions, sid, session, session.dataMessage, message);
      r := Done;
    }

    /** The loop at the end of dataLine: one filter-dataline response per
        line, in order. */
    method Respond(sid: string, token: string, lines: seq<string>)
      modifies this`output
      ensures output == old(output) + Protocol.Responses(sid, token, lines)
    {
      for i := 0 to |lines|
        invariant output == old(output) + Protocol.Responses(sid, token, lines[..i])
      {
        assert lines[..i + 1] == lines[..i] + [lines[i]];
        output := output + [Protocol.Response(sid, token, lines[i])];
      }
      assert lines[..|lines|] == lines;
    }
  }
}
