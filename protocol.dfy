/** The framing of the filter protocol: `|`-separated lines, the handshake
    (Config), the registration lines (Register), the routing of each event
    line by record kind and event name with its per-event field counts
    (the switch in Run, requireArgs), the recovery of a data line's body from
    the raw line (lastAtom) and the response line format. */
module Protocol {
  import opened Strings
  import opened Failures

  /** Field positions shared by every event line. */
  const FidName := 4
  const FidSid := 5
  const FidToken := 6

  /** The report events the filter subscribes to, in registration order. */
  const ReportEvents: seq<string> := [
    "link-connect", "link-disconnect", "link-auth", "tx-reset", "tx-begin",
    "tx-mail", "tx-rcpt", "tx-data", "tx-commit", "tx-rollback"
  ]

  /** The filter events the filter subscribes to. */
  const FilterEvents: seq<string> := ["data-line"]

  /** The number of fields each report event needs before it is handled. */
  const ReportArity: map<string, nat> := map[
    "link-connect" := 10, "link-disconnect" := 6, "link-auth" := 8,
    "tx-reset" := 7, "tx-begin" := 7, "tx-mail" := 9, "tx-rcpt" := 9,
    "tx-data" := 8, "tx-commit" := 8, "tx-rollback" := 7
  ]

  /** The number of fields a data-line filter event needs. */
  const DataLineArity := 8

  // ---------------------------------------------------------------- handshake

  /** What the handshake leaves behind: the announced protocol version and
      subsystem, and the index of the first line after `ready`. */
  datatype Handshake = Handshake(protocol: string, subsystem: string, next: nat)

  /** A handshake line whose second field is `ready` (the first field is not
      looked at). */
  predicate IsReadyLine(line: string)
  {
    var fields := Split(line, '|');
    |fields| >= 2 && fields[1] == "ready"
  }

  /** A handshake line Config reads without failing: it has two fields, and
      three when its key is `protocol` or `subsystem`. */
  predicate ConfigLineOk(line: string)
  {
    var fields := Split(line, '|');
    |fields| >= 2 && (fields[1] == "protocol" || fields[1] == "subsystem" ==> |fields| >= 3)
  }

  /** The value the last `key` line among the given lines sets, or initial
      when there is none. */
  function LastValue(lines: seq<string>, key: string, initial: string): string
  {
    if lines == [] then initial
    else
      var fields := Split(lines[|lines| - 1], '|');
      if |fields| >= 3 && fields[1] == key then fields[2]
      else LastValue(lines[..|lines| - 1], key, initial)
  }

  /** The value a line sets for key, when it is a `key` line with a third
      field; otherwise current. */
  function SetBy(line: string, key: string, current: string): string
  {
    var fields := Split(line, '|');
    if |fields| >= 3 && fields[1] == key then fields[2] else current
  }

  /** Setting values line by line from the front ends with the value
      LastValue finds from the back. */
  lemma {:induction false} LastValueCons(line: string, rest: seq<string>, key: string, initial: string)
    ensures LastValue([line] + rest, key, initial) == LastValue(rest, key, SetBy(line, key, initial))
    decreases |rest|
  {
    if rest != [] {
      var all := [line] + rest;
      assert all[|all| - 1] == rest[|rest| - 1];
      assert all[..|all| - 1] == [line] + rest[..|rest| - 1];
      LastValueCons(line, rest[..|rest| - 1], key, initial);
    }
  }

  lemma LastValueFrom(input: seq<string>, i: nat, n: nat, key: string, initial: string)
    requires i < n <= |input|
    ensures LastValue(input[i..n], key, initial) == LastValue(input[i + 1..n], key, SetBy(input[i], key, initial))
  {
    assert input[i..n] == [input[i]] + input[i + 1..n];
    LastValueCons(input[i], input[i + 1..n], key, initial);
  }

  /** A ready line comes at or after line i, and every line before it can
      be read. */
  ghost predicate ReadyAfter(input: seq<string>, i: nat)
  {
    exists k :: i <= k < |input| && IsReadyLine(input[k]) && forall j :: i <= j < k ==> ConfigLineOk(input[j])
  }

  lemma ReadyAfterStep(input: seq<string>, i: nat)
    requires i < |input|
    ensures ReadyAfter(input, i) <==> IsReadyLine(input[i]) || (ConfigLineOk(input[i]) && ReadyAfter(input, i + 1))
  {
    if ReadyAfter(input, i) && !IsReadyLine(input[i]) {
      var k :| i <= k < |input| && IsReadyLine(input[k]) && forall j :: i <= j < k ==> ConfigLineOk(input[j]);
      assert k != i;
      assert ConfigLineOk(input[i]);
    }
    if ConfigLineOk(input[i]) && ReadyAfter(input, i + 1) {
      var k :| i + 1 <= k < |input| && IsReadyLine(input[k]) && forall j :: i + 1 <= j < k ==> ConfigLineOk(input[j]);
      assert forall j :: i <= j < k ==> ConfigLineOk(input[j]);
    }
  }

  /** Config, read from line i on: every line needs two fields; `protocol`
      and `subsystem` lines record their third field (a line with only two
      fields panics); the first `ready` line ends the handshake; any other
      key is skipped; running out of lines is fatal. */
  function ReadConfig(input: seq<string>, i: nat, protocol: string, subsystem: string): (r: Result<Handshake>)
    requires i <= |input|
    ensures r.Ok? ==> i < r.value.next <= |input| && IsReadyLine(input[r.value.next - 1])
    ensures r.Ok? ==> forall j :: i <= j < r.value.next - 1 ==> !IsReadyLine(input[j])
    ensures r.Err? ==> r.error == ConfigFailure || r.error == IndexOutOfRange || r.error.BadConfigLine?
    decreases |input| - i
  {
    if i == |input| then Err(ConfigFailure)
    else
      var fields := Split(input[i], '|');
      if |fields| < 2 then Err(BadConfigLine(input[i]))
      else if fields[1] == "protocol" then
        if |fields| < 3 then Err(IndexOutOfRange) else ReadConfig(input, i + 1, fields[2], subsystem)
      else if fields[1] == "subsystem" then
        if |fields| < 3 then Err(IndexOutOfRange) else ReadConfig(input, i + 1, protocol, fields[2])
      else if fields[1] == "ready" then Ok(Handshake(protocol, subsystem, i + 1))
      else ReadConfig(input, i + 1, protocol, subsystem)
  }

  /** Config reads on from line i + 1 with the values line i sets, when
      line i is readable and not the ready line. */
  lemma ReadConfigNext(input: seq<string>, i: nat, protocol: string, subsystem: string)
    requires i < |input| && ConfigLineOk(input[i]) && !IsReadyLine(input[i])
    ensures ReadConfig(input, i, protocol, subsystem)
         == ReadConfig(input, i + 1, SetBy(input[i], "protocol", protocol), SetBy(input[i], "subsystem", subsystem))
  {
  }

  /** The handshake succeeds exactly when a ready line comes before any line
      Config cannot read. */
  lemma {:induction false} ReadConfigSucceeds(input: seq<string>, i: nat, protocol: string, subsystem: string)
    requires i <= |input|
    ensures ReadConfig(input, i, protocol, subsystem).Ok? <==> ReadyAfter(input, i)
    decreases |input| - i
  {
    if i < |input| {
      if !ConfigLineOk(input[i]) {
        NotReadyAfter(input, i);
      } else if IsReadyLine(input[i]) {
        ReadyAfterStep(input, i);
      } else {
        ReadyAfterStep(input, i);
        ReadConfigNext(input, i, protocol, subsystem);
        ReadConfigSucceeds(input, i + 1, SetBy(input[i], "protocol", protocol), SetBy(input[i], "subsystem", subsystem));
      }
    }
  }

  /** The protocol and subsystem the handshake records are the values of the
      last `protocol` and `subsystem` lines before the ready line, or the
      initial values when there are none. */
  lemma {:induction false} ReadConfigValues(input: seq<string>, i: nat, protocol: string, subsystem: string)
    requires i <= |input|
    ensures var r := ReadConfig(input, i, protocol, subsystem);
      r.Ok? ==> r.value.protocol == LastValue(input[i..r.value.next - 1], "protocol", protocol)
    ensures var r := ReadConfig(input, i, protocol, subsystem);
      r.Ok? ==> r.value.subsystem == LastValue(input[i..r.value.next - 1], "subsystem", subsystem)
    decreases |input| - i
  {
    if i < |input| && ConfigLineOk(input[i]) {
      if IsReadyLine(input[i]) {
        ValuesAtReady(input, i, protocol, subsystem);
      } else {
        ReadConfigValues(input, i + 1, SetBy(input[i], "protocol", protocol), SetBy(input[i], "subsystem", subsystem));
        ValuesAfter(input, i, protocol, subsystem);
      }
    } else if i < |input| {
      ReadConfigAt(input, i, protocol, subsystem);
    }
  }

  /** A line Config cannot read, before any ready line, ends the handshake
      with a failure. */
  lemma NotReadyAfter(input: seq<string>, i: nat)
    requires i < |input| && !ConfigLineOk(input[i])
    ensures !ReadyAfter(input, i)
  {
    ReadyAfterStep(input, i);
    assert !IsReadyLine(input[i]);
  }

  /** The values recorded reading on from line i + 1, with the values line
      i sets, are the values recorded reading from line i. */
  lemma ValuesStep(input: seq<string>, i: nat, protocol: string, subsystem: string, r: Result<Handshake>)
    requires r.Ok? ==> i + 1 < r.value.next <= |input|
    requires r.Ok? ==> r.value.protocol == LastValue(input[i + 1..r.value.next - 1], "protocol", SetBy(input[i], "protocol", protocol))
    requires r.Ok? ==> r.value.subsystem == LastValue(input[i + 1..r.value.next - 1], "subsystem", SetBy(input[i], "subsystem", subsystem))
    ensures r.Ok? ==> r.value.protocol == LastValue(input[i..r.value.next - 1], "protocol", protocol)
    ensures r.Ok? ==> r.value.subsystem == LastValue(input[i..r.value.next - 1], "subsystem", subsystem)
  {
    if r.Ok? {
      LastValueFrom(input, i, r.value.next - 1, "protocol", protocol);
      LastValueFrom(input, i, r.value.next - 1, "subsystem", subsystem);
    }
  }

  lemma ValuesAtReady(input: seq<string>, i: nat, protocol: string, subsystem: string)
    requires i < |input| && IsReadyLine(input[i])
    ensures var r := ReadConfig(input, i, protocol, subsystem);
      r.Ok? && r.value.protocol == LastValue(input[i..r.value.next - 1], "protocol", protocol)
    ensures var r := ReadConfig(input, i, protocol, subsystem);
      r.Ok? && r.value.subsystem == LastValue(input[i..r.value.next - 1], "subsystem", subsystem)
  {
    ReadConfigAt(input, i, protocol, subsystem);
    assert input[i..i] == [];
  }

  lemma ValuesAfter(input: seq<string>, i: nat, protocol: string, subsystem: string)
    requires i < |input| && ConfigLineOk(input[i]) && !IsReadyLine(input[i])
    requires var r := ReadConfig(input, i + 1, SetBy(input[i], "protocol", protocol), SetBy(input[i], "subsystem", subsystem));
      r.Ok? ==> r.value.protocol == LastValue(input[i + 1..r.value.next - 1], "protocol", SetBy(input[i], "protocol", protocol))
    requires var r := ReadConfig(input, i + 1, SetBy(input[i], "protocol", protocol), SetBy(input[i], "subsystem", subsystem));
      r.Ok? ==> r.value.subsystem == LastValue(input[i + 1..r.value.next - 1], "subsystem", SetBy(input[i], "subsystem", subsystem))
    ensures var r := ReadConfig(input, i, protocol, subsystem);
      r.Ok? ==> r.value.protocol == LastValue(input[i..r.value.next - 1], "protocol", protocol)
    ensures var r := ReadConfig(input, i, protocol, subsystem);
      r.Ok? ==> r.value.subsystem == LastValue(input[i..r.value.next - 1], "subsystem", subsystem)
  {
    ReadConfigNext(input, i, protocol, subsystem);
    ValuesStep(input, i, protocol, subsystem, ReadConfig(input, i, protocol, subsystem));
  }

  /** What Config does with line i when that line ends the handshake. */
  lemma ReadConfigAt(input: seq<string>, i: nat, protocol: string, subsystem: string)
    requires i < |input|
    ensures IsReadyLine(input[i]) ==> ReadConfig(input, i, protocol, subsystem) == Ok(Handshake(protocol, subsystem, i + 1))
    ensures !ConfigLineOk(input[i]) ==> ReadConfig(input, i, protocol, subsystem).Err?
  {
  }

  // ------------------------------------------------------------- registration

  function RegisterLine(kind: string, subsystem: string, name: string): string
  {
    "register|" + kind + "|" + subsystem + "|" + name
  }

  /** One registration line of the given kind per event name, in order. */
  function Announce(kind: string, subsystem: string, names: seq<string>): (r: seq<string>)
    ensures |r| == |names|
    ensures forall i :: 0 <= i < |names| ==> r[i] == RegisterLine(kind, subsystem, names[i])
  {
    if names == [] then []
    else [RegisterLine(kind, subsystem, names[0])] + Announce(kind, subsystem, names[1..])
  }

  /** Everything Register writes, in order. */
  function RegistrationLines(subsystem: string): seq<string>
  {
    Announce("report", subsystem, ReportEvents)
      + Announce("filter", subsystem, FilterEvents)
      + ["register|ready"]
  }

  /** Register writes ten report registrations in the order of ReportEvents,
      then the data-line filter registration, then `register|ready`. */
  lemma RegistrationOrder(subsystem: string)
    ensures var r := RegistrationLines(subsystem);
      && |r| == 12
      && (forall i :: 0 <= i < 10 ==> r[i] == "register|report|" + subsystem + "|" + ReportEvents[i])
      && r[10] == "register|filter|" + subsystem + "|data-line"
      && r[11] == "register|ready"
  {
    var reports := Announce("report", subsystem, ReportEvents);
    var filters := Announce("filter", subsystem, FilterEvents);
    var r := RegistrationLines(subsystem);
    assert r == reports + filters + ["register|ready"];
    forall i | 0 <= i < 10
      ensures r[i] == "register|report|" + subsystem + "|" + ReportEvents[i]
    {
      assert r[i] == reports[i];
    }
    assert r[10] == filters[0];
  }

  /** Every registered report event is one the dispatcher handles, and the
      other way round. */
  lemma RegisteredAreDispatched()
    ensures forall e :: e in ReportEvents <==> e in ReportArity
  {
  }

  // ----------------------------------------------------------------- dispatch

  /** A decoded event line. For a data line the body is not carried here: it
      is recovered from the raw line by LastAtom. */
  datatype Event =
    | LinkConnect(sid: string, rdns: string, confirmed: string, src: string, dst: string)
    | LinkDisconnect(sid: string)
    | LinkAuth(sid: string, result: string, username: string)
    | TxReset(sid: string, mid: string)
    | TxBegin(sid: string, mid: string)
    | TxMail(sid: string, mid: string, result: string, address: string)
    | TxRcpt(sid: string, mid: string, result: string, address: string)
    | TxData(sid: string, mid: string, result: string)
    | TxCommit(sid: string, mid: string, size: string)
    | TxRollback(sid: string, mid: string)
    | DataLine(sid: string, token: string)
    | Ignored

  /** The report branch of the switch in Run; each field-count test is the
      source's requireArgs for that event. */
  function DecodeReport(atoms: seq<string>): (r: Result<Event>)
    requires |atoms| >= 6
    ensures atoms[FidName] in ReportArity ==>
      && (r.Err? <==> |atoms| < ReportArity[atoms[FidName]])
      && (r.Err? ==> r.error == MissingArgs(atoms[FidName], ReportArity[atoms[FidName]]))
      && (r.Ok? ==> !r.value.Ignored? && !r.value.DataLine? && r.value.sid == atoms[FidSid])
    ensures atoms[FidName] !in ReportArity ==> r == Ok(Ignored)
    ensures atoms[FidName] == "link-connect" && |atoms| >= 10 ==>
      r == Ok(LinkConnect(atoms[FidSid], atoms[6], atoms[7], atoms[8], atoms[9]))
    ensures atoms[FidName] == "link-disconnect" ==> r == Ok(LinkDisconnect(atoms[FidSid]))
    ensures atoms[FidName] == "link-auth" && |atoms| >= 8 ==> r == Ok(LinkAuth(atoms[FidSid], atoms[6], atoms[7]))
    ensures atoms[FidName] == "tx-reset" && |atoms| >= 7 ==> r == Ok(TxReset(atoms[FidSid], atoms[6]))
    ensures atoms[FidName] == "tx-begin" && |atoms| >= 7 ==> r == Ok(TxBegin(atoms[FidSid], atoms[6]))
    ensures atoms[FidName] == "tx-mail" && |atoms| >= 9 ==> r == Ok(TxMail(atoms[FidSid], atoms[6], atoms[7], atoms[8]))
    ensures atoms[FidName] == "tx-rcpt" && |atoms| >= 9 ==> r == Ok(TxRcpt(atoms[FidSid], atoms[6], atoms[7], atoms[8]))
    ensures atoms[FidName] == "tx-data" && |atoms| >= 8 ==> r == Ok(TxData(atoms[FidSid], atoms[6], atoms[7]))
    ensures atoms[FidName] == "tx-commit" && |atoms| >= 8 ==> r == Ok(TxCommit(atoms[FidSid], atoms[6], atoms[7]))
    ensures atoms[FidName] == "tx-rollback" && |atoms| >= 7 ==> r == Ok(TxRollback(atoms[FidSid], atoms[6]))
  {
    var name := atoms[FidName];
    var sid := atoms[FidSid];
    if name == "link-connect" then
      if |atoms| < 10 then Err(MissingArgs(name, 10))
      else Ok(LinkConnect(sid, atoms[6], atoms[7], atoms[8], atoms[9]))
    else if name == "link-disconnect" then Ok(LinkDisconnect(sid))
    else if name == "link-auth" then
      if |atoms| < 8 then Err(MissingArgs(name, 8))
      else Ok(LinkAuth(sid, atoms[6], atoms[7]))
    else if name == "tx-reset" then
      if |atoms| < 7 then Err(MissingArgs(name, 7))
      else Ok(TxReset(sid, atoms[6]))
    else if name == "tx-begin" then
      if |atoms| < 7 then Err(MissingArgs(name, 7))
      else Ok(TxBegin(sid, atoms[6]))
    else if name == "tx-mail" then
      if |atoms| < 9 then Err(MissingArgs(name, 9))
      else Ok(TxMail(sid, atoms[6], atoms[7], atoms[8]))
    else if name == "tx-rcpt" then
      if |atoms| < 9 then Err(MissingArgs(name, 9))
      else Ok(TxRcpt(sid, atoms[6], atoms[7], atoms[8]))
    else if name == "tx-data" then
      if |atoms| < 8 then Err(MissingArgs(name, 8))
      else Ok(TxData(sid, atoms[6], atoms[7]))
    else if name == "tx-commit" then
      if |atoms| < 8 then Err(MissingArgs(name, 8))
      else Ok(TxCommit(sid, atoms[6], atoms[7]))
    else if name == "tx-rollback" then
      if |atoms| < 7 then Err(MissingArgs(name, 7))
      else Ok(TxRollback(sid, atoms[6]))
    else Ok(Ignored)
  }

  /** The filter branch of the switch in Run. The token (field 6) is read
      before the field count is checked, so a six-field filter line panics. */
  function DecodeFilter(atoms: seq<string>): (r: Result<Event>)
    requires |atoms| >= 6
    ensures r.Err? <==> |atoms| <= FidToken || (atoms[FidName] == "data-line" && |atoms| < DataLineArity)
    ensures r.Ok? && r.value.DataLine? <==> |atoms| >= DataLineArity && atoms[FidName] == "data-line"
    ensures r.Ok? && r.value.DataLine? ==> r.value.sid == atoms[FidSid] && r.value.token == atoms[FidToken]
    ensures r.Ok? && !r.value.DataLine? ==> r == Ok(Ignored)
  {
    if |atoms| <= FidToken then Err(IndexOutOfRange)
    else
      var phase := atoms[FidName];
      if phase == "data-line" then
        if |atoms| < 8 then Err(MissingArgs(phase, 8))
        else Ok(DataLine(atoms[FidSid], atoms[FidToken]))
      else Ok(Ignored)
  }

  /** Routes one event line: split on `|`, need six fields, then select by
      record kind and event name. */
  function Decode(line: string): (r: Result<Event>)
    ensures var atoms := Split(line, '|');
      && (|atoms| < 6 ==> r == Err(MissingAtoms(line)))
      && (|atoms| >= 6 && atoms[0] != "report" && atoms[0] != "filter" ==> r == Err(UnexpectedInput(line)))
      && (|atoms| >= 6 && atoms[0] == "report" && atoms[4] in ReportArity ==>
            (r.Err? <==> |atoms| < ReportArity[atoms[4]])
            && (r.Err? ==> r.error == MissingArgs(atoms[4], ReportArity[atoms[4]]))
            && (r.Ok? ==> !r.value.Ignored? && r.value.sid == atoms[5]))
      && (|atoms| >= 6 && atoms[0] == "report" && atoms[4] !in ReportArity ==> r == Ok(Ignored))
      && (|atoms| >= 6 && atoms[0] == "filter" ==>
            (r.Err? <==> |atoms| < 7 || (atoms[4] == "data-line" && |atoms| < DataLineArity)))
    ensures r.Ok? && r.value.DataLine? <==>
      var atoms := Split(line, '|');
      |atoms| >= DataLineArity && atoms[0] == "filter" && atoms[4] == "data-line"
    ensures r.Ok? && r.value.DataLine? ==>
      var atoms := Split(line, '|');
      r.value.sid == atoms[5] && r.value.token == atoms[6]
    ensures var atoms := Split(line, '|'); |atoms| >= 6 && atoms[0] == "report" ==> r == DecodeReport(atoms)
    ensures var atoms := Split(line, '|'); |atoms| >= 6 && atoms[0] == "filter" ==> r == DecodeFilter(atoms)
  {
    var atoms := Split(line, '|');
    if |atoms| < 6 then Err(MissingAtoms(line))
    else if atoms[0] == "report" then DecodeReport(atoms)
    else if atoms[0] == "filter" then DecodeFilter(atoms)
    else Err(UnexpectedInput(line))
  }

  // ------------------------------------------------------- data-line body text

  /** The offset in the raw line just past the first k fields and their
      separators. */
  function Offset(atoms: seq<string>, k: nat): nat
    requires k <= |atoms|
  {
    if k == 0 then 0 else Offset(atoms, k - 1) + |atoms[k - 1]| + 1
  }

  /** Past the first k fields of a joined line lies the join of the rest. */
  lemma {:induction false} OffsetSuffix(atoms: seq<string>, k: nat)
    requires k < |atoms|
    ensures Offset(atoms, k) <= |Join(atoms, '|')|
    ensures Join(atoms, '|')[Offset(atoms, k)..] == Join(atoms[k..], '|')
  {
    if k > 0 {
      OffsetSuffix(atoms, k - 1);
      var rest := atoms[k - 1..];
      assert rest[1..] == atoms[k..];
      assert Join(rest, '|') == atoms[k - 1] + "|" + Join(atoms[k..], '|');
    }
  }

  /** lastAtom: everything after the first `field` fields of the raw line,
      found by adding up field lengths; so a `|` inside the body is kept. */
  method LastAtom(line: string, atoms: seq<string>, field: nat) returns (r: string)
    requires atoms == Split(line, '|') && field < |atoms|
    ensures r == Join(atoms[field..], '|')
    ensures |r| <= |line| && r == line[|line| - |r|..]
  {
    var index := 0;
    for i := 0 to field
      invariant index == Offset(atoms, i)
    {
      index := index + |atoms[i]| + 1;
    }
    JoinSplit(line, '|');
    OffsetSuffix(atoms, field);
    r := line[index..];
  }

  /** A data-line event built from seven `|`-free header fields and any body
      (which may itself contain `|`) is routed as a data line, and the text
      after its seventh separator is exactly that body. */
  lemma DataLineFrame(head: seq<string>, body: string)
    requires |head| == 7 && head[0] == "filter" && head[4] == "data-line"
    requires forall i :: 0 <= i < 7 ==> '|' !in head[i]
    ensures var line := Join(head, '|') + "|" + body;
      && Decode(line) == Ok(DataLine(head[5], head[6]))
      && Join(Split(line, '|')[7..], '|') == body
  {
    var line := Join(head, '|') + "|" + body;
    SplitAppend(head, '|', body);
    JoinSplit(body, '|');
    assert Split(line, '|')[7..] == Split(body, '|');
  }

  // ------------------------------------------------------------ response line

  /** One output line of dataLine. */
  function Response(sid: string, token: string, line: string): string
  {
    "filter-dataline|" + sid + "|" + token + "|" + line
  }

  /** The output lines for one data-line event, in order. */
  function Responses(sid: string, token: string, lines: seq<string>): (r: seq<string>)
    ensures |r| == |lines|
    ensures forall i :: 0 <= i < |lines| ==> r[i] == Response(sid, token, lines[i])
  {
    if lines == [] then [] else [Response(sid, token, lines[0])] + Responses(sid, token, lines[1..])
  }

  /** A response line carries the session, the token and the body verbatim:
      splitting it gives them back, `|` in the body included. */
  lemma ResponseRoundTrip(sid: string, token: string, line: string)
    requires '|' !in sid && '|' !in token
    ensures var atoms := Split(Response(sid, token, line), '|');
      |atoms| >= 4 && atoms[0] == "filter-dataline" && atoms[1] == sid && atoms[2] == token
      && Join(atoms[3..], '|') == line
  {
    var head := ["filter-dataline", sid, token];
    assert head[1..] == [sid, token] && head[1..][1..] == [token];
    assert Join([sid, token], '|') == sid + "|" + token;
    assert Join(head, '|') == "filter-dataline" + "|" + (sid + "|" + token);
    assert "filter-dataline|" == "filter-dataline" + "|";
    assert Join(head, '|') + "|" + line == Response(sid, token, line);
    SplitAppend(head, '|', line);
    JoinSplit(line, '|');
    assert Split(Response(sid, token, line), '|')[3..] == Split(line, '|');
  }
}
