/** What holds of every run of a fetch: any channel capacities, any interleaving, any
    pattern of short reads and writes. */
module GetTheorems {

  import opened Framing
  import opened FileClient
  import FS = FileServer
  import opened Sessions
  import opened GetSession
  import opened GetInvariant
  import opened Requests
  import opened Sequences
  import opened Wrappers

  /** The octets read from the channel and not yet written to the local file. */
  function ClientHolds(client: Client): string {
    if client.Storing? && client.stored <= |client.buffer| then client.buffer[client.stored..] else ""
  }

  /** The body loop of the client is over. */
  predicate BodyDone(s: State) { s.client.Quitting? || s.client.Closed? }

  /** Both programs ended in order: the client closed after QUIT, the server left its
      loop through QUIT. */
  predicate Final(s: State) { s.client == Closed && s.server == Left }

  /** The client is gone, or cannot get QUIT out, while the server cannot write. */
  predicate Abandoned(c: Setup, s: State) {
    && (s.client == Closed || (s.client.Quitting? && |s.up| >= c.upRoom))
    && (s.server.Sending? || s.server.Writing?) && |s.down| >= c.downRoom
  }

  /** The path asked for: the name behind the base directory. */
  function Path(c: Setup): string { c.host.baseDir + c.name }

  /** The file there. */
  predicate IsServed(c: Setup, content: string) {
    Path(c) in c.host.files && c.host.files[Path(c)] == content
  }

  /** The file asked for is missing, or its size fits the 32 bits it is printed with. */
  predicate Fits(c: Setup) {
    Path(c) in c.host.files ==> |c.host.files[Path(c)]| < 0x1_0000_0000
  }

  /** The most steps a fetch can take. */
  function Bound(c: Setup): nat {
    var k := ScriptOf(c);
    2 * (|k.Request()| + |k.Quit()|) + 3 * |k.Header()| + 4 * |k.Content()| + 1
  }

  // ---------------------------------------------------------------- the steps there are

  /** The client may move any part of what it has or finds: the request, then QUIT, as far as
      the channel has room, the reply octet by octet, then up to a whole chunk whatever is
      left of the file, and any part of what it read into the local file. */
  lemma ClientSteps(c: Setup, s: State, n: nat)
    ensures NextClientSend(c, s, n).Some? <==>
              && n >= 1 && |s.up| + n <= c.upRoom
              && ((s.client.Requesting? && s.client.sent + n <= |"GET " + c.name + "\r\n\r\n"|)
                  || (s.client.Quitting? && s.client.sent + n <= |"QUIT\r\n\r\n"|))
    ensures NextClientRead(s, n).Some? <==>
              && 1 <= n <= |s.down|
              && ((s.client.Scanning? && n == 1) || (s.client.Receiving? && n <= 102400))
    ensures NextClientStore(s, n).Some? <==>
              s.client.Storing? && s.local.Some? && n >= 1 && s.client.stored + n <= |s.client.buffer|
  {
    assert Request(c) == "GET " + c.name + "\r\n\r\n" && FAREWELL == "QUIT\r\n\r\n";
  }

  /** So may the server: the command octet by octet, a chunk of the file, any part of a line
      or a chunk as far as the channel has room; it sees the end of the stream when the
      client has closed and nothing is in flight, and the end of the file at its end. */
  lemma ServerSteps(c: Setup, s: State, n: nat)
    ensures NextServerRead(c, s).Some? <==> s.server.Reading? && s.up != ""
    ensures NextServerEof(c, s).Some? <==> s.server.Reading? && s.up == "" && s.client == Closed
    ensures NextServerSend(c, s, n).Some? <==>
              && n >= 1 && |s.down| + n <= c.downRoom
              && ((s.server.Sending? && s.server.lines != [] && s.server.sent + n <= |s.server.lines[0]|)
                  || (s.server.Writing? && s.server.sent + n <= |s.server.chunk|))
    ensures NextServerLoad(s, n).Some? <==>
              s.server.Loading? && ((n == 0 && s.server.unread == "") || (1 <= n <= |s.server.unread| && n <= 102400))
  {
  }

  /** Octet by octet, either side reads what the scan of the stream gives: the scan of what is
      left never changes, and completes with the text that is acted on. */
  lemma ServerScans(c: Setup, s: State)
    ensures NextServerRead(c, s).Some? ==>
              var t := NextServerRead(c, s).value;
              && t == s.(server := t.server, up := t.up)
              && match ScanFrom(s.server.text, s.up)
                 case Complete(text, rest) =>
                   (t.up == rest && t.server == AfterCommand(c.host, text))
                   || (t.server.Reading? && ScanFrom(t.server.text, t.up) == Complete(text, rest))
                 case Incomplete(text) => t.server.Reading? && ScanFrom(t.server.text, t.up) == Incomplete(text)
    ensures NextServerEof(c, s).Some? ==>
              && ScanFrom(s.server.text, s.up) == Incomplete(s.server.text)
              && NextServerEof(c, s).value == s.(server := AfterCommand(c.host, s.server.text))
  {
  }

  lemma ClientScans(s: State, n: nat)
    ensures s.client.Scanning? && NextClientRead(s, n).Some? ==>
              var t := NextClientRead(s, n).value;
              match ScanFrom(s.client.text, s.down)
              case Complete(text, rest) =>
                t == AfterHeader(s.(down := rest), text)
                || (t.client.Scanning? && ScanFrom(t.client.text, t.down) == Complete(text, rest))
              case Incomplete(text) => t.client.Scanning? && ScanFrom(t.client.text, t.down) == Incomplete(text)
  {
  }

  /** The server of the state machine obeys every command string as the sequential one. */
  lemma ServerObeys(host: FS.Host, text: string)
    ensures var server := AfterCommand(host, text);
            match FS.Parse(text)
            case Quit => server == Left
            case NoToken => server == Crashed
            case command =>
              && server.Sending? && server.sent == 0
              && FS.Concat(server.lines) + server.body.GetOr("") == FS.Reply(host, command)
  {
    var command := FS.Parse(text);
    assert FS.Concat(FS.ReplyLines(host, command)) + "" == FS.Concat(FS.ReplyLines(host, command));
  }

  /** The client closes without QUIT on the bare token only, and opens the local file on an
      accepted header only. */
  lemma ClientObeys(s: State, text: string)
    ensures var t := AfterHeader(s, text);
            && t == s.(client := t.client, local := t.local)
            && (t.client == Closed <==> ParseHeader(text) == NotFound)
            && (t.client == Broken <==> ParseHeader(text) == Malformed)
            && t.local == (if ParseHeader(text).Accepted? then Some("") else s.local)
            && (ParseHeader(text) == Unrecognised ==> t.client == Quitting(0))
            && (ParseHeader(text).Accepted? ==>
                  t.client == if ParseHeader(text).size == 0 then Quitting(0)
                              else Receiving(ParseHeader(text).size, 0))
  {
  }

  // ---------------------------------------------------------------- all reachable states

  lemma {:induction false} Reachable(c: Setup, schedule: seq<Action>)
    requires WellFormed(c) && After(c, schedule).Some?
    ensures var s := After(c, schedule).value;
            Inv(ScriptOf(c), s) && |schedule| + Work(ScriptOf(c), s) <= Bound(c)
  {
    var k := ScriptOf(c);
    if schedule != [] {
      var before := schedule[..|schedule| - 1];
      Reachable(c, before);
      ScriptUnderstood(c);
      StepKeeps(c, k, After(c, before).value, schedule[|schedule| - 1]);
    }
  }

  /** Termination: no schedule is longer than a bound linear in the texts and the file. */
  lemma RunsAreBounded(c: Setup, schedule: seq<Action>)
    requires WellFormed(c) && After(c, schedule).Some?
    ensures |schedule| <= Bound(c)
  {
    Reachable(c, schedule);
    WorkIsNatural(ScriptOf(c), After(c, schedule).value);
  }

  /** Conservation, for a file of any size: from the moment the local file exists, what is
      in it, what the client holds, what is in flight and what the server still holds or
      has not read are together the file, in order. */
  lemma FileIsConserved(c: Setup, schedule: seq<Action>, content: string)
    requires WellFormed(c) && After(c, schedule).Some?
    requires IsServed(c, content)
    requires After(c, schedule).value.local.Some?
    ensures var s := After(c, schedule).value;
            s.local.value + ClientHolds(s.client) + s.down + Held(s.server) == content
  {
    Reachable(c, schedule);
    var s := After(c, schedule).value;
    assert s.local.value + "" == s.local.value;
  }

  lemma SmallSize(content: string)
    ensures |content| < 0x1_0000_0000 <==> |content| % 0x1_0000_0000 == |content|
    ensures |content| >= 0x1_0000_0000 ==> |content| % 0x1_0000_0000 + 102400 <= |content|
  {
  }

  /** No over-read: although every read asks for a whole chunk, the client never takes
      more octets than the size announced, and stops with exactly that many. */
  lemma NeverOverReads(c: Setup, schedule: seq<Action>, content: string)
    requires WellFormed(c) && After(c, schedule).Some?
    requires IsServed(c, content) && |content| < 0x1_0000_0000
    ensures match After(c, schedule).value.client
            case Receiving(size, total) => size == |content| && total < size
            case Storing(size, total, buffer, _) => size == |content| && total + |buffer| <= size
            case Quitting(_) => |After(c, schedule).value.local.GetOr("")| == |content|
            case Closed => |After(c, schedule).value.local.GetOr("")| == |content|
            case _ => true
  {
    Reachable(c, schedule);
    SmallSize(content);
  }

  /** Exactness, for a file of any size: when the client's body loop ends the local file is
      the served file if and only if its size fits 32 bits; then nothing of it is left in
      the channel or with the server, and otherwise something is. In either case the local
      file is the head of the file, as long as announced or less than a chunk longer. */
  lemma CopyExactIffSizeFits(c: Setup, schedule: seq<Action>, content: string)
    requires WellFormed(c) && After(c, schedule).Some? && BodyDone(After(c, schedule).value)
    requires IsServed(c, content)
    ensures var s := After(c, schedule).value;
            && (s.local == Some(content) <==> |content| < 0x1_0000_0000)
            && (s.down + Held(s.server) == "" <==> |content| < 0x1_0000_0000)
            && s.local.Some? && s.local.value <= content
            && |content| % 0x1_0000_0000 <= |s.local.value| < |content| % 0x1_0000_0000 + 102400
  {
    Reachable(c, schedule);
    SmallSize(content);
    var s := After(c, schedule).value;
    var local := s.local.value;
    assert content[..|local|] == local;
  }

  // ---------------------------------------------------------------- progress

  /** A server step, if the server has one. */
  function ServerChoice(s: State): Action {
    match s.server
    case Loading(unread) => ServerLoad(if unread == "" then 0 else 1)
    case Sending(_, _, _) => ServerSend(1)
    case Writing(_, _, _) => ServerSend(1)
    case _ => ServerRead
  }

  /** A step of the client if it has one, of the server otherwise. */
  function Choice(c: Setup, s: State): Action {
    match s.client
    case Requesting(_) => if |s.up| < c.upRoom then ClientSend(1) else ServerChoice(s)
    case Quitting(_) => if |s.up| < c.upRoom then ClientSend(1) else ServerChoice(s)
    case Scanning(_) => if s.down != "" then ClientRead(1) else ServerChoice(s)
    case Receiving(_, _) => if s.down != "" then ClientRead(1) else ServerChoice(s)
    case Storing(_, _, _, _) => ClientStore(1)
    case _ => ServerChoice(s)
  }

  lemma ServerCanMove(c: Setup, s: State)
    requires Replying(s.server) || s.server.Reading?
    requires s.server.Reading? ==> s.up != ""
    requires !s.server.Reading? && !s.server.Loading? ==> |s.down| < c.downRoom
    ensures Next(c, s, ServerChoice(s)).Some?
  {
  }

  lemma ReplyMoves(c: Setup, k: Script, s: State)
    requires WellFormed(c) && (Answering(k, s) || Fetching(k, s)) && k.size <= |k.Content()|
    ensures Next(c, s, Choice(c, s)).Some?
  {
  }

  lemma LeavingMoves(c: Setup, k: Script, s: State)
    requires WellFormed(c) && Leaving(k, s) && k.Quit() == FAREWELL && !Final(s) && !Abandoned(c, s)
    ensures Next(c, s, Choice(c, s)).Some?
  {
    if s.client == Closed || |s.up| >= c.upRoom {
      ServerCanMove(c, s);
    }
  }

  lemma ScriptTexts(c: Setup)
    ensures var k := ScriptOf(c);
            k.Request() == Request(c) && k.Quit() == FAREWELL && k.size <= |k.Content()|
  {
  }

  lemma InvMoves(c: Setup, k: Script, s: State)
    requires WellFormed(c) && Inv(k, s) && !Final(s) && !Abandoned(c, s)
    requires k.Request() == Request(c) && k.Quit() == FAREWELL && k.size <= |k.Content()|
    ensures Next(c, s, Choice(c, s)).Some?
  {
    if Answering(k, s) || Fetching(k, s) {
      ReplyMoves(c, k, s);
    } else if Leaving(k, s) {
      LeavingMoves(c, k, s);
    }
  }

  /** Progress: from every reachable state that is neither final nor abandoned, somebody
      can move. */
  lemma SomeoneCanMove(c: Setup, schedule: seq<Action>)
    requires WellFormed(c) && After(c, schedule).Some?
    requires var s := After(c, schedule).value; !Final(s) && !Abandoned(c, s)
    ensures exists a :: Next(c, After(c, schedule).value, a).Some?
  {
    Reachable(c, schedule);
    ScriptTexts(c);
    InvMoves(c, ScriptOf(c), After(c, schedule).value);
  }

  /** Nothing more can happen. */
  predicate Settled(c: Setup, s: State) { Final(s) || Abandoned(c, s) }

  lemma SettledIsAtRest(c: Setup, s: State, a: Action)
    requires Settled(c, s)
    ensures Next(c, s, a) == None
  {
  }

  /** A fetch that fits is never abandoned: the reply was read to its end. */
  lemma NeverAbandoned(c: Setup, schedule: seq<Action>)
    requires WellFormed(c) && After(c, schedule).Some? && Fits(c)
    ensures !Abandoned(c, After(c, schedule).value)
  {
    Reachable(c, schedule);
    var s := After(c, schedule).value;
    if BodyDone(s) {
      match FS.Requested(c.host, c.name)
      case Some(content) => CopyExactIffSizeFits(c, schedule, content);
      case None => assert |s.local.GetOr("") + s.down + Held(s.server)| == 0;
    }
  }

  // ---------------------------------------------------------------- complete runs

  /** The outcome of a fetch: both sides through QUIT, nothing in flight, and the local
      file equal to the served file, or never created if there is none. */
  predicate Fetched(c: Setup, s: State) {
    && Final(s) && s.up == "" && s.down == ""
    && s.local == if Path(c) in c.host.files then Some(c.host.files[Path(c)]) else None
  }

  lemma FinalIsFetched(c: Setup, schedule: seq<Action>)
    requires WellFormed(c) && After(c, schedule).Some? && Fits(c) && Final(After(c, schedule).value)
    ensures Fetched(c, After(c, schedule).value)
  {
    Reachable(c, schedule);
    var s := After(c, schedule).value;
    match FS.Requested(c.host, c.name)
    case Some(content) => CopyExactIffSizeFits(c, schedule, content);
    case None => assert |s.local.GetOr("") + s.down + Held(s.server)| == 0;
  }

  /** A run that cannot go on has fetched the file if and only if the file is missing or
      its size fits 32 bits. */
  lemma MaximalRunsFetchIffFits(c: Setup, schedule: seq<Action>)
    requires WellFormed(c) && After(c, schedule).Some?
    requires forall a :: Next(c, After(c, schedule).value, a) == None
    ensures Fetched(c, After(c, schedule).value) <==> Fits(c)
  {
    var s := After(c, schedule).value;
    if !Settled(c, s) {
      SomeoneCanMove(c, schedule);
    }
    if Fits(c) {
      NeverAbandoned(c, schedule);
      FinalIsFetched(c, schedule);
    } else {
      CopyExactIffSizeFits(c, schedule, c.host.files[Path(c)]);
    }
  }

  predicate SettledAfter(c: Setup, schedule: seq<Action>) {
    match After(c, schedule)
    case None => false
    case Some(s) => Settled(c, s)
  }

  /** Either the run is over or one more step is possible. */
  lemma SettledOrMore(c: Setup, schedule: seq<Action>) returns (step: seq<Action>)
    requires WellFormed(c) && After(c, schedule).Some?
    ensures |step| <= 1 && After(c, schedule + step).Some?
    ensures step == [] ==> SettledAfter(c, schedule)
    ensures step != [] ==> |schedule| < Bound(c)
  {
    step := [];
    if Settled(c, After(c, schedule).value) {
      assert schedule + step == schedule;
    } else {
      SomeoneCanMove(c, schedule);
      var a :| Next(c, After(c, schedule).value, a).Some?;
      RunsAreBounded(c, schedule + [a]);
      step := [a];
    }
  }

  lemma {:induction false} SettleWithin(c: Setup, schedule: seq<Action>, room: nat) returns (more: seq<Action>)
    requires WellFormed(c) && After(c, schedule).Some?
    requires Bound(c) <= |schedule| + room
    ensures SettledAfter(c, schedule + more)
    decreases room
  {
    more := SettledOrMore(c, schedule);
    if more == [] {
      assert schedule + more == schedule;
    } else {
      var later := SettleWithin(c, schedule + more, room - 1);
      Associates(schedule, more, later);
      more := more + later;
    }
  }

  /** Every run can be continued until nothing more can happen. */
  lemma RunsCanSettle(c: Setup, schedule: seq<Action>)
    requires WellFormed(c) && After(c, schedule).Some?
    ensures exists more :: SettledAfter(c, schedule + more)
  {
    var more := SettleWithin(c, schedule, Bound(c));
  }

  /** A file of 2^32 octets, announced as empty, behind the narrowest channels. */
  function Oversize(): (c: Setup)
    ensures WellFormed(c) && !Fits(c)
  {
    var content: string := seq(0x1_0000_0000, _ => 'x');
    var c := Setup(FS.Host("", map["f" := content], None), "f", 1, 1);
    assert c.host.baseDir + c.name == "f";
    c
  }

  /** Its fetch comes to rest without having fetched it. */
  lemma OversizeIsNotFetched()
    ensures exists schedule ::
              SettledAfter(Oversize(), schedule) && !Fetched(Oversize(), After(Oversize(), schedule).value)
  {
    var c := Oversize();
    RunsCanSettle(c, []);
    var schedule :| SettledAfter(c, [] + schedule);
    assert [] + schedule == schedule;
    forall a ensures Next(c, After(c, schedule).value, a) == None {
      SettledIsAtRest(c, After(c, schedule).value, a);
    }
    MaximalRunsFetchIffFits(c, schedule);
  }

  /** What the state machine sends is the server's reply. */
  lemma ScriptIsReply(c: Setup)
    requires ValidName(c.name)
    ensures ScriptOf(c).Header() + ScriptOf(c).Content() == FS.Reply(c.host, FS.Get(c.name))
  {
    RequestIsUnderstood(c, ScriptOf(c));
    GetParses(c.name);
  }

  /** The same fetch, seen by the server alone: to the client's request and QUIT it answers
      with the header and the file, and leaves by QUIT. */
  lemma ServerAlone(c: Setup)
    requires WellFormed(c)
    ensures FS.Serve(c.host, "GET " + c.name + "\r\n\r\nQUIT\r\n\r\n")
            == FS.Session(ScriptOf(c).Header() + ScriptOf(c).Content(), "", FS.ByQuit)
  {
    ScriptIsReply(c);
    FetchServed(c.host, c.name);
  }
}
