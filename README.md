# smtpd-filter-spamclass, modelled in Dafny

This project models the OpenSMTPD filter in `filter/filter.go` in Dafny. The filter
reads the `|`-separated filter protocol on its input. It keeps a store of SMTP
sessions and their messages. While a message's DATA section streams past, it rewrites
the message's header: old `X-Spam` and `X-Spam-Class` headers are dropped, the
`X-Spam-Score`, `To` and `From` values are recorded, and at the first blank line new
`X-Spam` and `X-Spam-Class` headers are put in front of it.

The modules follow the structure of the program:

- `Strings` (strings.dfy) models the Go string primitives the filter uses:
  `strings.Split`, `Join`, `HasPrefix`, `Cut` and `TrimSpace`.
- `Address` (address.dfy) models `parseEmailAddress`. Its two regular expressions are
  written twice: as grammars (ghost predicates that read like the patterns) and as
  executable scanners. Each scanner is proved to decide exactly its grammar, and the
  leftmost-first, greedy match of the bracketed pattern is pinned down.
- `Protocol` (protocol.dfy) models the wire format:
  - the handshake (`Config`) and the registration lines (`Register`);
  - routing by record kind and event name, with the per-event field counts
    (`requireArgs`);
  - rebuilding a data line's body from byte offsets (`lastAtom`);
  - the `filter-dataline` response.
- `Messages` (messages.dfy) holds the `Message` and `Session` records, `parseSpamScore`
  and `filterDataLine`. It also proves what the header rewrite does to a whole message.
- `Store` (store.dfy) states each protocol event as a function from the session store
  before to the store after, or to the fatal error that stops the process. It also
  defines the event loop over the remaining input lines as a function.
- `Filters` (filter.dfy) holds the `Filter` class. Its methods update `sessions` and
  `output` in place, as the Go methods update `f.Sessions` and write to `f.output`.
  Each method is proved to do exactly what the matching `Store` or `Protocol` function
  specifies, so `Run` is proved to produce the handshake result, the registration
  lines and the outcome of the event loop.
- `Fixture` (fixture.dfy) proves what the model does with the filter's own test
  message (`filter/filter_test.go`). Its six report events, as decoded events, open
  the session and the message. Its header and body, as data-line bodies, come out
  rewritten as stated, with the score parser and the class lookup kept as
  parameters.

A `log.Fatal` call, and a Go runtime panic from indexing past the end of a slice, both
become a `Failure` value (`Status.Fatal` in the class, `Result.Err` in the functions).
They are never preconditions. Two outside pieces are parameters of the `Filter`:
- the float parser, `parseScore: string -> Option<Score>`;
- the spam-class lookup, `getClass: (seq<string>, Score) -> string`, which stands for
  `Classes.GetClass`.

## Model

| member | source | states |
|---|---|---|
| Strings.Split | filter/filter.go:241 | `strings.Split` on one separator: always at least one field, and no field contains the separator |
| Strings.JoinSplit | filter/filter.go:241 | joining the fields of a split with the separator gives back the original line |
| Strings.SplitJoin | filter/filter.go:241 | splitting a join of separator-free fields gives back exactly those fields |
| Strings.SplitAppend | filter/filter.go:287 | a line made of separator-free header fields, a separator and any text splits into the header fields followed by the fields of the text |
| Strings.Cut | filter/filter.go:514 | `strings.Cut`: fails exactly when the character is absent; otherwise the string is before + c + after, with c not in before |
| Strings.Before | filter/filter.go:570 | the first result of `strings.Cut` is a prefix free of the separator, and is the whole string when the separator is absent |
| Strings.CutPrefix | filter/filter.go:563 | cutting `p + c + t` with c not in p yields exactly (p, t) |
| Strings.TrimSpace | filter/filter.go:474 | `strings.TrimSpace` leaves a string no longer than its input that neither starts nor ends with white space |
| Strings.TrimSpaceSlice | filter/filter.go:474 | TrimSpace keeps one contiguous slice of its input and drops only white space on either side of it |
| Strings.BlankIff | filter/filter.go:448 | `TrimSpace(line) == ""` holds exactly when every character of the line is white space |
| Strings.TrimSpaceNoop | filter/filter.go:474 | a string that neither starts nor ends with white space is left unchanged by TrimSpace |
| Address.AddressChars | filter/filter.go:56 | every character of a bare address is a local-part character or '@', so it contains no '<', '>' or line break |
| Address.AddressIff | filter/filter.go:56 | the scanner (cut at the first '@', split the domain at its last '.') accepts a string exactly when it matches the bare pattern `[a-zA-Z0-9._%+-]+@[a-zA-Z0-9.-]+\.[a-zA-Z]{2,}` |
| Address.BracketCut | filter/filter.go:55 | in a match of the bracketed pattern, the '>' is the first '>' after the '<' |
| Address.BracketFrom | filter/filter.go:55 | with '<' at p, returns the q of a match of `^.*<(address)>.*$` at (p, q), or None exactly when no match has its '<' at p |
| Address.FindBracket | filter/filter.go:55 | returns the match whose '<' is rightmost among all matches (the greedy leading `.*`), or None exactly when the pattern does not match |
| Address.LastBracketUnique | filter/filter.go:55 | the match the regular-expression engine reports is unique |
| Address.ParseEmailAddress | filter/filter.go:473-483 | a successful parse returns a string that matches the bare address pattern |
| Address.ExtractNone | filter/filter.go:476-478 | without a bracketed match the whole trimmed text is checked |
| Address.ExtractLast | filter/filter.go:475-477 | with the match the engine reports, the address between its brackets is checked |
| Address.ParseEmailAddressSpec | filter/filter.go:473-483 | with no bracketed match: the trimmed input if it is a bare address, failure otherwise; with the reported match: the address inside the brackets |
| Address.NoBracketIn | filter/filter.go:55 | a bare address contains no match of the bracketed pattern |
| Address.AddressTrimmed | filter/filter.go:474 | trimming a bare address leaves it unchanged |
| Address.BracketedForm | filter/filter.go:474-482 | `display <addr> rest` (no line break, no '<' after the address, no white space at either end) parses to exactly `addr` |
| Address.ParseBare | filter/filter.go:479-482 | a bare address parses to itself |
| Address.ParseIdempotent | filter/filter.go:473-483 | parsing the result of a successful parse gives the same result |
| Protocol.ReadConfig | filter/filter.go:160-184 | the handshake stops at the first line whose second field is `ready`, and fails without one; a failure is the end of input, a line with fewer than two fields, or the index panic |
| Protocol.ReadConfigSucceeds | filter/filter.go:160-184 | the handshake succeeds exactly when a `ready` line comes before any line with fewer than two fields and before any `protocol` or `subsystem` line without a value |
| Protocol.ReadConfigValues | filter/filter.go:161-177 | the recorded protocol and subsystem are the values of the last `protocol` and `subsystem` lines before the `ready` line, or the initial values when there are none |
| Protocol.Announce | filter/filter.go:187-204 | one registration line (register, kind, subsystem, name) per event name, in order |
| Protocol.RegistrationOrder | filter/filter.go:186-214 | Register writes twelve lines: ten report registrations in the order of the report list, then the data-line filter registration, then the final ready line |
| Protocol.RegisteredAreDispatched | filter/filter.go:140-154 | the registered report events are exactly the events the dispatcher has a field count for |
| Protocol.DecodeReport | filter/filter.go:245-279 | a handled report event fails exactly when it has fewer fields than its requireArgs count (10/6/8/7/7/9/9/8/8/7), with that count in the error; otherwise it decodes to the event of that name, with field 5 as its session and fields 6 to 9 as its arguments in order; an unknown event is ignored |
| Protocol.DecodeFilter | filter/filter.go:280-288 | a filter line with no field 6 panics; a data-line needs eight fields; a data-line event carries the session and token of fields 5 and 6; other filter events are ignored |
| Protocol.Decode | filter/filter.go:241-291 | fewer than six fields is fatal; a record kind other than report or filter is fatal; a report line decodes as DecodeReport and a filter line as DecodeFilter |
| Protocol.OffsetSuffix | filter/filter.go:222-229 | past the byte offset of the first k fields, a joined line is the join of the remaining fields |
| Protocol.LastAtom | filter/filter.go:222-229 | lastAtom returns the join of the fields from `field` on, and this is a suffix of the line, so a separator inside a data line's body is kept |
| Protocol.DataLineFrame | filter/filter.go:280-287 | a data-line event built from seven separator-free fields and any body is routed as a data line, and the text after its seventh separator is exactly that body |
| Protocol.Responses | filter/filter.go:453-458 | one filter-dataline response (session, token, line) per output line, in order |
| Protocol.ResponseRoundTrip | filter/filter.go:454 | splitting a response gives back the session, the token and the whole line, separators inside the line included |
| Messages.NewMessage | filter/filter.go:76-86 | a new message is in state `init`, in its header, without a score and with all four address lists empty |
| Messages.NewSession | filter/filter.go:99-108 | a new session has no messages, no authorized user, no data message and the given confirmation |
| Messages.ParseSpamScore | filter/filter.go:461-471 | succeeds exactly when the line has a second space-separated field and the float parser accepts it, and returns what the parser returns |
| Messages.ScoreNumeral | filter/filter.go:462-466 | in an `X-Spam-Score: ` header, the field handed to the parser is the text after the header name up to the next space |
| Messages.ClassificationAddress | filter/filter.go:563-571 | the class lookup address exists exactly when the To address contains '@' |
| Messages.AliasStripped | filter/filter.go:569-571 | `local+tag@domain` is looked up as `local@domain`, and an address without an alias is looked up as itself |
| Messages.Boundary | filter/filter.go:544-589 | the blank line always comes last; without a score, a To address, an envelope recipient or an '@' in the To address it goes out alone; otherwise `X-Spam: yes` exactly for the class `spam` (else `no`) comes first, then `X-Spam-Class: <class>` when the class is not empty |
| Messages.ParsedAddress | filter/filter.go:518-523 | a header value adds no address exactly when it does not parse, and otherwise exactly its parse, which is a bare address |
| Messages.HeaderValue | filter/filter.go:514 | the value `strings.Cut(line, " ")` leaves for a header is the text after the header name and its space |
| Messages.DropsSpamHeaders | filter/filter.go:505-511 | an existing `X-Spam: ` or `X-Spam-Class: ` header yields no output and leaves the message as it was |
| Messages.RecordsScore | filter/filter.go:501-503 | an `X-Spam-Score: ` header passes through and records the parsed score, and is fatal exactly when the numeral does not parse |
| Messages.RecordsTo | filter/filter.go:513-523 | a `To: ` header passes through and appends exactly the parsed address to the To list when it parses, and otherwise changes nothing |
| Messages.RecordsFrom | filter/filter.go:525-535 | a `From: ` header passes through and appends exactly the parsed address to the From list when it parses, and otherwise changes nothing |
| Messages.BlankGetsBoundary | filter/filter.go:537-591 | a blank header line gets the generated headers in front of it and leaves the message unchanged |
| Messages.OtherPassesThrough | filter/filter.go:496-499 | any other non-blank header line goes out alone and changes nothing |
| Messages.FilterDataLineKeeps | filter/filter.go:496-592 | filterDataLine changes only the From/To lists and the score, adds at most one To address and keeps the message invariant (known state, only bare addresses) |
| Messages.DataLineStep | filter/filter.go:444-452 | outside the header a line goes out unchanged; inside it, the message leaves its header exactly at a blank line |
| Messages.DataLineStepKeeps | filter/filter.go:444-452 | the data-line step keeps the message invariant |
| Messages.StepShape | filter/filter.go:444-452 | the data-line step passes lines through outside the header, stays in the header until a blank line, and at a blank line ends the header and emits the boundary headers |
| Messages.BodyPassesThrough | filter/filter.go:447-458 | once the header has ended, every later line goes out unchanged, one line out per line in, and the message stays as it is |
| Messages.RewriteThen | filter/filter.go:440-459 | data lines handled one run after another: the message the first run leaves is where the second starts, and the outputs come in order |
| Messages.OrdinaryShape | filter/filter.go:496-499 | in the header, a line that is neither blank nor one of the special headers goes out alone and changes nothing |
| Messages.OtherLinesPass | filter/filter.go:496-499 | a run of such header lines goes out unchanged and leaves the message as it was |
| Messages.MessageFold | filter/filter.go:444-459 | a header that leaves the message in its header, then a blank line, then a body: the header's output, the generated headers, the blank line and the body unchanged, with the message outside its header |
| Messages.MessageRewrite | filter/filter.go:440-459 | a whole message of non-blank header lines, a blank line and a body: the rewritten header lines, then the generated headers, then the blank line, then the body unchanged, with the message left outside its header |
| Store.GetSession | filter/filter.go:300-306 | succeeds exactly for a stored session and returns it; otherwise fatal with UnknownSession |
| Store.GetSessionMessage | filter/filter.go:308-315 | an unknown session is fatal first; then an unknown message of a known session; otherwise both records are returned |
| Store.LinkConnect | filter/filter.go:324-333 | fatal exactly when the session exists; otherwise adds exactly that session, new, with no messages and confirmed exactly on `pass`, and keeps every other session |
| Store.RemoveSession | filter/filter.go:335-341 | linkDisconnect and sessionTimeout: fatal exactly for an unknown session; otherwise remove only that session |
| Store.LinkAuth | filter/filter.go:343-351 | fatal for an unknown session; on `pass` only the authorized user of that session changes; otherwise nothing changes |
| Store.TxReset | filter/filter.go:353-359 | fatal for an unknown session or message; otherwise only that message changes, to a new message |
| Store.TxBegin | filter/filter.go:361-371 | fatal for an unknown session or an existing message; otherwise exactly that message id is added, as a new message, and nothing else changes |
| Store.TxMail | filter/filter.go:373-386 | fatal for an unknown session or message; on `ok` with a parsable address, exactly that address is appended to the envelope senders; otherwise nothing changes |
| Store.TxRcpt | filter/filter.go:388-402 | fatal for an unknown session or message; on `ok` with a parsable address, exactly that address is appended to the envelope recipients; otherwise nothing changes |
| Store.TxData | filter/filter.go:404-414 | fatal for an unknown session or message; on `ok` the session's data message becomes mid and that message enters state `data` in its header; otherwise nothing changes |
| Store.SetState | filter/filter.go:416-430 | fatal for an unknown session or message; otherwise only the state of that message changes |
| Store.TxCommit | filter/filter.go:416-422 | only the message's state changes, to `commit` |
| Store.TxRollback | filter/filter.go:424-430 | only the message's state changes, to `rollback` |
| Store.DataLine | filter/filter.go:440-459 | fatal for an unknown session or data message; otherwise only the data message changes, to what the data-line step makes of it, and the step's lines are returned |
| Store.DataLineOutsideHeader | filter/filter.go:444-453 | outside the header the store stays as it is and the line goes back alone |
| Store.DataLineInHeader | filter/filter.go:447-452 | inside the header the message is stored after filterDataLine, with InHeader cleared first on a blank line |
| Store.Handle | filter/filter.go:249-279 | an event the filter does not handle changes nothing, and every handler keeps the store invariant |
| Store.Step | filter/filter.go:239-291 | one event line: a decoding failure is fatal with the same error, an ignored event changes nothing, only a data line writes output, and the store invariant is kept; a data line of eight or more fields runs Store.DataLine for the session of field 5 on the body after the seventh separator, and answers with one response per resulting line under the session and token of fields 5 and 6 |
| Store.RouteReport | filter/filter.go:245-279 | a report line with enough fields for its event reaches that event's handler, with field 5 as the session and fields 6 to 9 as the handler's arguments, and writes nothing |
| Store.HandlerKeepsStore | filter/filter.go:239-291 | no event line breaks the store invariant |
| Store.Process | filter/filter.go:239-297 | the event loop keeps the store invariant over any run of input lines |
| Store.ProcessHandled | filter/filter.go:239-292 | after a handled line, the loop goes on from the new store, and that line's output comes first |
| Store.ProcessFatal | filter/filter.go:239-292 | the loop stops at the first fatal line, with the store as it was before that line |
| Filters.Filter.constructor | filter/filter.go:128-157 | a new filter has no sessions, has written nothing and has read no input |
| Filters.Filter.Config | filter/filter.go:160-184 | the handshake loop ends as ReadConfig says: fatal with its error, or done with its protocol, subsystem and next input line |
| Filters.Filter.Register | filter/filter.go:186-214 | appends exactly the registration lines to the output |
| Filters.Filter.Announce | filter/filter.go:187-204 | one of the registration loops: appends one registration line per name, in order |
| Filters.Filter.LinkConnect | filter/filter.go:324-333 | updates the store in place exactly as Store.LinkConnect says, fatal with the store untouched otherwise |
| Filters.Filter.LinkDisconnect | filter/filter.go:335-341 | updates the store in place exactly as Store.RemoveSession says |
| Filters.Filter.SessionTimeout | filter/filter.go:432-438 | updates the store in place exactly as Store.RemoveSession says |
| Filters.Filter.LinkAuth | filter/filter.go:343-351 | updates the store in place exactly as Store.LinkAuth says |
| Filters.Filter.TxReset | filter/filter.go:353-359 | updates the store in place exactly as Store.TxReset says |
| Filters.Filter.TxBegin | filter/filter.go:361-371 | updates the store in place exactly as Store.TxBegin says |
| Filters.Filter.TxMail | filter/filter.go:373-386 | updates the store in place exactly as Store.TxMail says |
| Filters.Filter.TxRcpt | filter/filter.go:388-402 | updates the store in place exactly as Store.TxRcpt says |
| Filters.Filter.TxData | filter/filter.go:404-414 | updates the store in place exactly as Store.TxData says |
| Filters.Filter.TxCommit | filter/filter.go:416-422 | updates the store in place exactly as Store.TxCommit says |
| Filters.Filter.TxRollback | filter/filter.go:424-430 | updates the store in place exactly as Store.TxRollback says |
| Filters.Filter.HandleReport | filter/filter.go:245-279 | the report switch: fatal with the store untouched when the event is short of fields, otherwise the store changes as the decoded event's handler says |
| Filters.Filter.HandleLine | filter/filter.go:240-291 | one pass of the event loop body: fatal with nothing changed, or the store and the output extended exactly as Store.Step says |
| Filters.Filter.DataLine | filter/filter.go:440-459 | fatal with nothing changed, or the store as Store.DataLine says and one response line per resulting line appended to the output |
| Filters.Filter.RewriteHeader | filter/filter.go:447-452 | in the header: clears InHeader on a blank line, runs filterDataLine and stores the message it returns |
| Filters.Filter.Respond | filter/filter.go:453-458 | the response loop appends exactly the response lines, in order |
| Filters.Filter.Serve | filter/filter.go:239-297 | the event loop leaves the status, store and output that Store.Process gives for the remaining input lines |
| Filters.Filter.ServeLine | filter/filter.go:239-292 | one turn of the loop: a fatal line ends the loop with nothing changed; otherwise the loop goes on from the new store with that line's output appended |
| Filters.Filter.Run | filter/filter.go:231-298 | the whole run: a failed handshake is fatal; otherwise the output is the registration lines followed by what the event loop writes, and the status and store are the event loop's |
| Fixture.Opened | filter/filter.go:324-414 | link-connect on a new session, link-auth, tx-begin, then tx-mail, tx-rcpt and tx-data with `ok` and bare addresses all succeed, and leave a new message with exactly that sender and recipient, in state `data` and in its header, as the session's data message |
| Fixture.Transaction | filter/filter.go:361-414 | tx-begin, tx-mail, tx-rcpt and tx-data on a session without messages leave exactly that message as the data message |
| Fixture.FixtureOpened | filter/filter_test.go:74-79 | the test's six report events, from an empty store, open session `deadbeef` with message `cafebabe` as its data message, holding the test's envelope sender and recipient |
| Fixture.FixtureRewrite | filter/filter_test.go:80-99 | the test's message: the old `X-Spam` and `X-Spam-Class` headers are dropped, every other header line goes out as it came, `X-Spam` and `X-Spam-Class` for the looked-up class go in front of the blank line, the body with its embedded separator goes out unchanged, and the score, To and From are recorded |

## Left out

- `NewFilter` and `readClasses` are left out: the Viper settings, `os.Executable` and loading the class file. The constructor sets up only the state the core uses, and the class lookup is the `getClass` parameter.
- Logging is left out: every `log.Printf` call and the `verbose` flag.
- Input is a sequence of lines. Errors of `bufio.Scanner`, including its line-length limit, are not modelled.
- Writes to the output never fail in the model; the source would stop on a failed write.
- `Run` ends with `Done` when the input runs out. The source logs "unexpected EOF" and returns.
- `strconv.ParseFloat` and the `float32` score are represented by the `parseScore` parameter. The score is an opaque 32-bit value that the model stores and forwards but never computes with.
- `parseArgs` is left out because nothing calls it.
- The `name` argument of each handler is only used in log messages, so it is dropped. The `size` of `txCommit` is only logged.
- Go strings are byte strings; the model's strings are sequences of characters. This makes no difference for the ASCII protocol fields and patterns. `unicode.IsSpace` is modelled with the Unicode white-space set that `strings.TrimSpace` uses.
- Sessions and messages are values stored in maps, not pointers. No record is shared between two owners, so replacing a record in its map has the same effect as Go's update through a pointer.
- `sessionTimeout` is modelled as a method. As in the source, no event in `Run` dispatches to it.
- Protocol.ReadConfig needs two fields per line, ignores the first field and skips unknown keys; a two-field `protocol` or `subsystem` line is the fatal `IndexOutOfRange`.
- Protocol.DecodeFilter reads the token (field 6) before the field count is checked, as the code does. A six-field `filter` line is therefore the fatal `IndexOutOfRange`, not a missing-arguments error.
- Store.Handle states only that unhandled events change nothing and that the store invariant is kept. That each report line goes to its own handler, with its own fields, is stated by Store.RouteReport.
- Messages.ClassificationAddress states only when an address exists. What it is for aliased and plain addresses is stated by Messages.AliasStripped.
- `Fixture` starts from decoded report events and from data-line bodies, not from the test's raw protocol lines, so it does not state the test's response lines; Protocol.DataLineFrame and Store.Step state how a raw data line becomes its body and its responses. The test's `tx-commit` and `link-disconnect` lines, its pipes and goroutine, and its `testdata/config.yaml` are not part of `Fixture`. The class file is not read, so the class of the test message stays the `getClass` parameter.
