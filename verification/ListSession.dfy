/** One LIST: the process running `get_list`, the server process and the two bounded
    channels between them, interleaved in any order. The server is the one of a fetch. */
module ListSession {

  import opened Framing
  import FS = FileServer
  import GI = GetInvariant
  import GS = GetSession
  import opened Listing
  import opened Sequences
  import opened Sessions
  import opened Wrappers

  /** The machine served and the room in each channel. */
  datatype Setup = Setup(host: FS.Host, upRoom: nat, downRoom: nat) {
    predicate WellFormed() { upRoom > 0 && downRoom > 0 }

    function ForServer(): GS.Setup { GS.Setup(host, "", upRoom, downRoom) }

    function Reply(): string { FS.Reply(host, FS.List) }
  }

  /** Where `get_list` stands; `list` is the text it printed before it closed. */
  datatype Client =
    | Requesting(sent: nat)
    | Scanning(text: string)
    | Closed(list: string)

  /** `up` carries octets to the server, `down` to the client. */
  datatype State = State(client: Client, server: GS.Server, up: string, down: string) {
    /** What the server can tell of the state. */
    function ForServer(): GS.State {
      var peer :=
        match client
        case Requesting(sent) => GS.Requesting(sent)
        case Scanning(text) => GS.Scanning(text)
        case Closed(_) => GS.Closed;
      GS.State(peer, server, up, down, None)
    }
  }

  datatype Action =
    | ClientSend(n: nat)
    | ClientRead
    | ClientEof
    | ByServer(step: GS.Action)

  const REQUEST := LIST_TEXT + TERMINATOR

  function Init(): State { State(Requesting(0), GS.Reading(""), "", "") }

  function NextClientSend(c: Setup, s: State, n: nat): Option<State> {
    match s.client
    case Requesting(sent) =>
      if sent <= |REQUEST| && GS.MayWrite(s.up, c.upRoom, |REQUEST| - sent, n) then
        Some(s.(up := s.up + REQUEST[sent..sent + n],
                client := if sent + n < |REQUEST| then Requesting(sent + n) else Scanning("")))
      else None
    case _ => None
  }

  /** One octet of the reply; the client closes as soon as its text is complete. */
  function NextClientRead(s: State): Option<State> {
    match s.client
    case Scanning(text) =>
      if s.down != "" then
        var grown := Append(text, s.down[0]);
        Some(s.(down := s.down[1..],
                client := if EndsWithTerminator(grown) then Closed(grown[..|grown| - 4]) else Scanning(grown)))
      else None
    case _ => None
  }

  /** `read` reports end of file once the server process is gone and nothing is in flight. */
  function NextClientEof(s: State): Option<State> {
    if s.client.Scanning? && s.down == "" && (s.server == GS.Left || s.server == GS.Crashed) then
      Some(s.(client := Closed(s.client.text)))
    else None
  }

  predicate IsServerStep(a: GS.Action) { a.ServerRead? || a.ServerEof? || a.ServerSend? || a.ServerLoad? }

  function NextServer(c: Setup, s: State, a: GS.Action): Option<State> {
    if !IsServerStep(a) then None
    else
      match GS.Next(c.ForServer(), s.ForServer(), a)
      case None => None
      case Some(t) => Some(s.(server := t.server, up := t.up, down := t.down))
  }

  function Next(c: Setup, s: State, a: Action): Option<State> {
    match a
    case ClientSend(n) => NextClientSend(c, s, n)
    case ClientRead => NextClientRead(s)
    case ClientEof => NextClientEof(s)
    case ByServer(step) => NextServer(c, s, step)
  }

  /** The state after a schedule, if every one of its steps was possible. */
  function After(c: Setup, schedule: seq<Action>): Option<State> {
    if schedule == [] then Some(Init())
    else
      match After(c, schedule[..|schedule| - 1])
      case None => None
      case Some(s) => Next(c, s, schedule[|schedule| - 1])
  }

  // ---------------------------------------------------------------- the invariant

  /** The request is on its way and not yet understood. */
  predicate Awaiting(s: State) {
    && s.server.Reading? && s.down == ""
    && match s.client
       case Requesting(sent) => sent < |REQUEST| && s.server.text + s.up == REQUEST[..sent]
       case Scanning(text) => text == "" && |s.server.text| < |REQUEST| && s.server.text + s.up == REQUEST
       case _ => false
  }

  /** The client is reading: what it will make of the rest is what the reply amounts to. */
  predicate Answering(c: Setup, s: State) {
    && s.client.Scanning? && GI.Replying(s.server) && s.up == ""
    && ScanFrom(s.client.text, s.down + GI.Held(s.server)) == ScanFrom("", c.Reply())
  }

  /** The client has closed with the text before the first terminator of the reply. */
  predicate Leaving(c: Setup, s: State) {
    && s.client.Closed? && s.up == "" && (GI.Replying(s.server) || s.server == GS.Crashed)
    && ScanFrom("", c.Reply()) == Complete(s.client.list, s.down + GI.Held(s.server))
  }

  predicate Inv(c: Setup, s: State) {
    Awaiting(s) || Answering(c, s) || Leaving(c, s)
  }

  /** The steps still possible: every octet is written and read once, and the two
      processes end once. */
  function Work(c: Setup, s: State): int {
    (match s.client
     case Requesting(sent) => 2 * (|REQUEST| - sent) + 1
     case Scanning(_) => 1
     case Closed(_) => 0)
    + |s.up| + 2 * |s.down|
    + GI.ServerWork(s.server) + (if s.server == GS.Crashed then 0 else 1)
    + (if Awaiting(s) then 3 * |c.Reply()| + 1 else 0)
  }

  // ---------------------------------------------------------------- steps

  lemma {:induction false} LinesNonEmpty(names: seq<string>)
    ensures GS.AllNonEmpty(FS.WithCrlf(names) + [CRLF])
  {
    if names != [] {
      LinesNonEmpty(names[1..]);
      assert FS.WithCrlf(names) + [CRLF] == [names[0] + CRLF] + (FS.WithCrlf(names[1..]) + [CRLF]);
    }
  }

  /** The server understands the request and sets out to send the whole reply. */
  lemma ListUnderstood(c: Setup)
    ensures Carried(LIST_TEXT)
    ensures var server := GS.AfterCommand(c.host, LIST_TEXT);
            && server.Sending? && GI.Replying(server)
            && GI.Held(server) == c.Reply() && GI.ServerWork(server) == 3 * |c.Reply()| + 1
  {
    WordParses(LIST_TEXT);
    if c.host.entries.Some? {
      LinesNonEmpty(FS.Visible(c.host.entries.value));
    }
  }

  lemma ClientSends(c: Setup, s: State, n: nat)
    requires Inv(c, s) && NextClientSend(c, s, n).Some?
    ensures var t := NextClientSend(c, s, n).value; Awaiting(t) && Work(c, t) < Work(c, s)
  {
    WriteExtends(s.server.text, s.up, REQUEST, s.client.sent, n);
  }

  /** One octet read off the channel, in terms of all that is to come. */
  lemma ScanStep(text: string, channel: string, held: string)
    requires channel != ""
    ensures var grown := Append(text, channel[0]);
            ScanFrom(text, channel + held)
            == if EndsWithTerminator(grown) then Complete(grown[..|grown| - 4], channel[1..] + held)
               else ScanFrom(grown, channel[1..] + held)
  {
    assert (channel + held)[0] == channel[0] && (channel + held)[1..] == channel[1..] + held;
  }

  lemma ReplyAdvances(c: Setup, s: State, grown: string)
    requires Answering(c, s) && s.down != ""
    requires ScanFrom(grown, s.down[1..] + GI.Held(s.server)) == ScanFrom("", c.Reply())
    ensures var t := s.(down := s.down[1..], client := Scanning(grown));
            Answering(c, t) && Work(c, t) < Work(c, s)
  {
  }

  lemma ReplyEnds(c: Setup, s: State, text: string)
    requires Answering(c, s) && s.down != ""
    requires ScanFrom("", c.Reply()) == Complete(text, s.down[1..] + GI.Held(s.server))
    ensures var t := s.(down := s.down[1..], client := Closed(text));
            Leaving(c, t) && Work(c, t) < Work(c, s)
  {
  }

  lemma ClientReads(c: Setup, s: State)
    requires Inv(c, s) && NextClientRead(s).Some?
    ensures var t := NextClientRead(s).value; (Answering(c, t) || Leaving(c, t)) && Work(c, t) < Work(c, s)
  {
    ScanStep(s.client.text, s.down, GI.Held(s.server));
    var grown := Append(s.client.text, s.down[0]);
    if EndsWithTerminator(grown) {
      ReplyEnds(c, s, grown[..|grown| - 4]);
    } else {
      ReplyAdvances(c, s, grown);
    }
  }

  /** The client may send any part of what is left of the request, as far as there is room,
      and reads whenever there is something to read. */
  lemma ClientSteps(c: Setup, s: State, n: nat)
    ensures NextClientSend(c, s, n).Some? <==>
              s.client.Requesting? && 1 <= n && s.client.sent + n <= |"LIST\r\n\r\n"| && |s.up| + n <= c.upRoom
    ensures NextClientSend(c, s, n).Some? ==>
              NextClientSend(c, s, n).value.up == s.up + "LIST\r\n\r\n"[s.client.sent..s.client.sent + n]
    ensures NextClientRead(s).Some? <==> s.client.Scanning? && s.down != ""
    ensures NextClientEof(s).Some? <==>
              s.client.Scanning? && s.down == "" && (s.server == GS.Left || s.server == GS.Crashed)
    ensures NextClientEof(s).Some? ==> NextClientEof(s).value == s.(client := Closed(s.client.text))
  {
    assert REQUEST == "LIST\r\n\r\n";
  }

  /** What the server reads is the next octet of the request. */
  lemma RequestOctet(s: State)
    requires Awaiting(s) && s.up != ""
    ensures |s.server.text| < |REQUEST| && s.server.text + [s.up[0]] == REQUEST[..|s.server.text| + 1]
    ensures |s.server.text| + 1 == |REQUEST| ==> s.client == Scanning("") && s.up[1..] == ""
    ensures s.server.text + s.up == (s.server.text + [s.up[0]]) + s.up[1..]
  {
    var upTo := if s.client.Requesting? then s.client.sent else |REQUEST|;
    assert REQUEST[..|REQUEST|] == REQUEST;
    NextOfLine(s.server.text, s.up, REQUEST, upTo);
  }

  lemma RequestAdvances(c: Setup, s: State)
    requires Awaiting(s) && s.up != "" && |s.server.text| + 1 < |REQUEST|
    requires s.server.text + s.up == (s.server.text + [s.up[0]]) + s.up[1..]
    ensures var t := s.(up := s.up[1..], server := GS.Reading(s.server.text + [s.up[0]]));
            Awaiting(t) && Work(c, t) < Work(c, s)
  {
  }

  lemma ReplyStarts(c: Setup, s: State)
    requires Awaiting(s) && s.client == Scanning("") && s.up != "" && s.up[1..] == ""
    ensures var t := s.(up := s.up[1..], server := GS.AfterCommand(c.host, LIST_TEXT));
            Answering(c, t) && Work(c, t) < Work(c, s)
  {
    ListUnderstood(c);
    assert "" + c.Reply() == c.Reply();
  }

  lemma ServerReads(c: Setup, s: State)
    requires Inv(c, s) && NextServer(c, s, GS.ServerRead).Some?
    ensures var t := NextServer(c, s, GS.ServerRead).value; Inv(c, t) && Work(c, t) < Work(c, s)
  {
    RequestOctet(s);
    WordParses(LIST_TEXT);
    GI.ServerReads(c.ForServer(), s.ForServer(), LIST_TEXT);
    if |s.server.text| + 1 < |REQUEST| {
      RequestAdvances(c, s);
    } else {
      ReplyStarts(c, s);
    }
  }

  /** The server reads end of file only when its client has closed, and then the command
      string is empty. */
  lemma ServerEnds(c: Setup, s: State)
    requires Inv(c, s) && NextServer(c, s, GS.ServerEof).Some?
    ensures var t := NextServer(c, s, GS.ServerEof).value;
            Leaving(c, t) && t.server == GS.Crashed && Work(c, t) < Work(c, s)
  {
    assert FS.NextToken("") == None;
  }

  lemma ServerReplies(c: Setup, s: State, a: GS.Action)
    requires Inv(c, s) && (a.ServerSend? || a.ServerLoad?) && NextServer(c, s, a).Some?
    ensures var t := NextServer(c, s, a).value; Inv(c, t) && Work(c, t) < Work(c, s)
  {
    GI.ServerStepMoves(c.ForServer(), s.ForServer(), a);
  }

  /** Every step of either program keeps the invariant and uses up work. */
  lemma StepKeeps(c: Setup, s: State, a: Action)
    requires Inv(c, s) && Next(c, s, a).Some?
    ensures var t := Next(c, s, a).value; Inv(c, t) && Work(c, t) < Work(c, s)
  {
    match a
    case ClientSend(n) => ClientSends(c, s, n);
    case ClientRead => ClientReads(c, s);
    case ClientEof => assert false;
    case ByServer(step) =>
      if step.ServerRead? {
        ServerReads(c, s);
      } else if step.ServerEof? {
        ServerEnds(c, s);
      } else {
        ServerReplies(c, s, step);
      }
  }

  /** The most steps a LIST can take. */
  function Bound(c: Setup): nat { 2 * |REQUEST| + 3 * |c.Reply()| + 3 }

  lemma RoomIsKept(c: Setup, s: State, a: Action)
    requires |s.down| <= c.downRoom && Next(c, s, a).Some?
    ensures |Next(c, s, a).value.down| <= c.downRoom
  {
  }

  lemma {:induction false} Reachable(c: Setup, schedule: seq<Action>)
    requires After(c, schedule).Some?
    ensures var s := After(c, schedule).value;
            Inv(c, s) && |schedule| + Work(c, s) <= Bound(c) && |s.down| <= c.downRoom
  {
    if schedule != [] {
      var before, a := schedule[..|schedule| - 1], schedule[|schedule| - 1];
      Reachable(c, before);
      StepKeeps(c, After(c, before).value, a);
      RoomIsKept(c, After(c, before).value, a);
    }
  }

  lemma AfterOneMore(c: Setup, schedule: seq<Action>, a: Action)
    requires After(c, schedule).Some?
    ensures After(c, schedule + [a]) == Next(c, After(c, schedule).value, a)
  {
    assert (schedule + [a])[..|schedule|] == schedule;
  }

  /** Termination: no schedule is longer than a bound linear in the reply. */
  lemma RunsAreBounded(c: Setup, schedule: seq<Action>)
    requires After(c, schedule).Some?
    ensures |schedule| <= Bound(c)
  {
    Reachable(c, schedule);
  }

  // ---------------------------------------------------------------- the outcomes

  /** The client holds `text` and waits for more, the server waits for a command. */
  predicate BothBlocked(s: State, text: string) {
    s == State(Scanning(text), GS.Reading(""), "", "")
  }

  /** The client has printed `text` and closed, and the server has called `strcmp` on the
      null token; `rest` was sent and not read. */
  predicate Ended(s: State, text: string, rest: string) {
    s == State(Closed(text), GS.Crashed, "", rest)
  }

  /** The client has printed `text` and closed, and the server cannot send the rest. */
  predicate Stranded(c: Setup, s: State, text: string, rest: string) {
    && s.client == Closed(text) && s.up == ""
    && (s.server.Sending? || s.server.Writing?) && |s.down| == c.downRoom
    && s.down + GI.Held(s.server) == rest
  }

  function ServerChoice(s: State): Action {
    ByServer(match s.server
             case Reading(_) => if s.client.Closed? then GS.ServerEof else GS.ServerRead
             case Loading(unread) => GS.ServerLoad(if unread == "" then 0 else 1)
             case _ => GS.ServerSend(1))
  }

  /** A step of the client if it has one, of the server otherwise. */
  function Choice(c: Setup, s: State): Action {
    match s.client
    case Requesting(_) => if |s.up| < c.upRoom then ClientSend(1) else ByServer(GS.ServerRead)
    case Scanning(_) => if s.down != "" then ClientRead else ServerChoice(s)
    case Closed(_) => ServerChoice(s)
  }

  /** What a state at rest looks like. */
  predicate AtRest(c: Setup, s: State) {
    match ScanFrom("", c.Reply())
    case Incomplete(text) => BothBlocked(s, text)
    case Complete(text, rest) => if |rest| <= c.downRoom then Ended(s, text, rest) else Stranded(c, s, text, rest)
  }

  lemma AwaitingMoves(c: Setup, s: State)
    requires c.WellFormed() && Awaiting(s)
    ensures Next(c, s, Choice(c, s)).Some?
  {
    if s.up == "" {
      assert s.server.text + s.up == s.server.text;
    }
  }

  lemma AnsweringMoves(c: Setup, s: State)
    requires c.WellFormed() && Answering(c, s)
    ensures Next(c, s, Choice(c, s)).Some? || BothBlocked(s, s.client.text)
  {
  }

  /** A reader with nothing to come keeps what it has. */
  lemma BlockedIsAtRest(c: Setup, s: State)
    requires Answering(c, s) && BothBlocked(s, s.client.text)
    ensures AtRest(c, s)
  {
  }

  lemma LeavingMoves(c: Setup, s: State)
    requires Leaving(c, s) && |s.down| <= c.downRoom
    ensures Next(c, s, Choice(c, s)).Some? || AtRest(c, s)
  {
    var rest := s.down + GI.Held(s.server);
    if s.server == GS.Crashed {
      assert rest == s.down;
    }
  }

  /** From a reachable state that is not at rest somebody can move. */
  lemma SomeoneCanMove(c: Setup, s: State)
    requires c.WellFormed() && Inv(c, s) && |s.down| <= c.downRoom && !AtRest(c, s)
    ensures Next(c, s, Choice(c, s)).Some?
  {
    if Awaiting(s) {
      AwaitingMoves(c, s);
    } else if Answering(c, s) {
      AnsweringMoves(c, s);
      if BothBlocked(s, s.client.text) {
        BlockedIsAtRest(c, s);
      }
    } else {
      LeavingMoves(c, s);
    }
  }

  lemma AtRestIsFinal(c: Setup, s: State, a: Action)
    requires AtRest(c, s)
    ensures Next(c, s, a) == None
  {
    match a
    case ByServer(step) => assert NextServer(c, s, step) == None;
    case _ =>
  }

  /** The runs that cannot go on, for any directory at all, are exactly those at rest: if
      the reply meets the stop test the client has printed the text before its first
      terminator and closed, and the server has ended on the null token provided what
      follows that terminator fits the channel; otherwise both sides wait on empty channels. */
  lemma MaximalRuns(c: Setup, schedule: seq<Action>)
    requires c.WellFormed() && After(c, schedule).Some?
    ensures (forall a :: Next(c, After(c, schedule).value, a) == None) <==> AtRest(c, After(c, schedule).value)
  {
    Reachable(c, schedule);
    var s := After(c, schedule).value;
    if AtRest(c, s) {
      forall a ensures Next(c, s, a) == None {
        AtRestIsFinal(c, s, a);
      }
    } else {
      SomeoneCanMove(c, s);
    }
  }

  /** The run is possible and nothing more can happen. */
  predicate Settles(c: Setup, schedule: seq<Action>) {
    match After(c, schedule)
    case None => false
    case Some(s) => AtRest(c, s)
  }

  /** Either the run is over or one more step is possible. */
  lemma SettledOrMore(c: Setup, schedule: seq<Action>) returns (step: seq<Action>)
    requires c.WellFormed() && After(c, schedule).Some?
    ensures |step| <= 1 && After(c, schedule + step).Some?
    ensures step == [] ==> Settles(c, schedule)
    ensures step != [] ==> |schedule| < Bound(c)
  {
    Reachable(c, schedule);
    var s := After(c, schedule).value;
    step := [];
    if AtRest(c, s) {
      assert schedule + step == schedule;
    } else {
      SomeoneCanMove(c, s);
      step := [Choice(c, s)];
      AfterOneMore(c, schedule, Choice(c, s));
      RunsAreBounded(c, schedule + step);
    }
  }

  lemma {:induction false} SettleWithin(c: Setup, schedule: seq<Action>, room: nat) returns (more: seq<Action>)
    requires c.WellFormed() && After(c, schedule).Some?
    requires Bound(c) <= |schedule| + room
    ensures Settles(c, schedule + more)
    decreases room
  {
    more := SettledOrMore(c, schedule);
    if more == [] {
      assert schedule + more == schedule;
    } else {
      var later := SettleWithin(c, schedule + more, room - 1);
      Associates(schedule, more, later);
      more := more + later;
    }
  }

  /** Every run can be continued until nothing more can happen. */
  lemma RunsCanSettle(c: Setup, schedule: seq<Action>)
    requires c.WellFormed() && After(c, schedule).Some?
    ensures exists more :: Settles(c, schedule + more)
  {
    var more := SettleWithin(c, schedule, Bound(c));
  }

  // ---------------------------------------------------------------- directories of lines

  /** There is something to show: an entry other than the two dots, or the error. */
  ghost predicate HasReply(host: FS.Host) {
    host.entries.Some? ==> exists e :: e in host.entries.value && e != "." && e != ".."
  }

  lemma HasReplyIffVisible(host: FS.Host)
    ensures HasReply(host) <==> host.entries.Some? ==> FS.Visible(host.entries.value) != []
  {
    if host.entries.Some? {
      var names := FS.Visible(host.entries.value);
      if names != [] {
        assert names[0] in names;
      }
      if e :| e in host.entries.value && e != "." && e != ".." {
        assert e in names;
      }
    }
  }

  /** The text a listing shows. */
  ghost function Shown(host: FS.Host): string
    requires HasReply(host)
  {
    HasReplyIffVisible(host);
    match host.entries
    case None => "INTENRAL ERROR ( Can't open directory)"
    case Some(entries) => Join(FS.Visible(entries))
  }

  lemma ErrorReply(host: FS.Host)
    requires host.entries == None
    ensures FS.Reply(host, FS.List) == FS.NO_LISTING + TERMINATOR
  {
    FS.ConcatOne(FS.NO_LISTING + TERMINATOR);
  }

  lemma ErrorIsPlain()
    ensures forall c :: c in FS.NO_LISTING ==> c != '\r' && c != '\0'
  {
  }

  lemma PlainLineScanned(text: string)
    requires forall c :: c in text ==> c != '\r' && c != '\0'
    ensures ScanFrom("", text + TERMINATOR) == Complete(text, "")
  {
    PlainTextIsFramed(text);
    ScanFramed(text, "");
    assert text + TERMINATOR + "" == text + TERMINATOR;
  }

  /** Where the whole reply leaves the client. */
  lemma ReplyScanned(host: FS.Host)
    requires host.entries.Some? ==> ValidEntries(FS.Visible(host.entries.value))
    ensures ScanFrom("", FS.Reply(host, FS.List))
            == if HasReply(host) then Complete(Shown(host), "") else Incomplete(CRLF)
  {
    HasReplyIffVisible(host);
    match host.entries
    case None =>
      ErrorReply(host);
      ErrorIsPlain();
      PlainLineScanned(FS.NO_LISTING);
    case Some(entries) => ListingScanned(host, entries);
  }

  /** A LIST that cannot go on has printed the names, joined by CR LF, or the error line,
      with nothing left over and the server ended on the null token, if and only if there
      is an entry to list or the directory does not open. Otherwise the client waits with a
      lone CR LF and the server for the next command, for ever. */
  lemma MaximalRunsListIffHasReply(c: Setup, schedule: seq<Action>)
    requires c.WellFormed() && After(c, schedule).Some?
    requires c.host.entries.Some? ==> ValidEntries(FS.Visible(c.host.entries.value))
    requires forall a :: Next(c, After(c, schedule).value, a) == None
    ensures var s := After(c, schedule).value;
            && (HasReply(c.host) ==> Ended(s, Shown(c.host), ""))
            && (!HasReply(c.host) ==> BothBlocked(s, CRLF))
            && (s.server == GS.Crashed <==> HasReply(c.host))
            && (s.client.Closed? <==> HasReply(c.host))
            && (s.client.Closed? && c.host.entries.Some? ==>
                  forall e :: e in Lines(s.client.list, "") <==> e in c.host.entries.value && e != "." && e != "..")
  {
    MaximalRuns(c, schedule);
    ReplyScanned(c.host);
    HasReplyIffVisible(c.host);
    if c.host.entries.Some? && HasReply(c.host) {
      LinesOfJoin(FS.Visible(c.host.entries.value));
    }
  }

  /** A directory with nothing in it, behind any channels. */
  function EmptyDirectory(upRoom: nat, downRoom: nat): Setup {
    Setup(FS.Host("./", map[], Some([".", ".."])), upRoom, downRoom)
  }

  lemma NothingVisible(host: FS.Host)
    requires host.entries == Some([".", ".."])
    ensures ScanFrom("", FS.Reply(host, FS.List)) == Incomplete(CRLF)
  {
    assert FS.Visible([".", ".."]) == [];
    ReplyScanned(host);
  }

  /** Its LIST comes to rest with both sides waiting. */
  lemma EmptyDirectoryBlocks(upRoom: nat, downRoom: nat)
    requires upRoom > 0 && downRoom > 0
    ensures var c := EmptyDirectory(upRoom, downRoom);
            exists schedule :: After(c, schedule).Some? && BothBlocked(After(c, schedule).value, CRLF)
  {
    var c := EmptyDirectory(upRoom, downRoom);
    RunsCanSettle(c, []);
    var schedule :| Settles(c, [] + schedule);
    assert [] + schedule == schedule;
    NothingVisible(c.host);
  }
}
