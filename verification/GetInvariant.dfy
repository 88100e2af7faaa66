/** What every step of a fetch keeps, and what every step uses up. */
module GetInvariant {

  import opened Framing
  import opened FileClient
  import FS = FileServer
  import opened GetSession
  import opened Sequences
  import opened Wrappers

  // ---------------------------------------------------------------- the invariant

  /** The octets the server process holds and has still to send. */
  function Held(server: Server): string {
    match server
    case Sending(lines, sent, body) =>
      if lines != [] && sent <= |lines[0]|
      then lines[0][sent..] + FS.Concat(lines[1..]) + body.GetOr("") else ""
    case Loading(unread) => unread
    case Writing(chunk, sent, unread) => if sent <= |chunk| then chunk[sent..] + unread else ""
    case _ => ""
  }

  /** The server is somewhere between understanding a request and reading the next. */
  predicate Replying(server: Server) {
    match server
    case Sending(lines, sent, _) =>
      lines != [] && sent < |lines[0]| && AllNonEmpty(lines)
    case Loading(_) => true
    case Writing(chunk, sent, _) => sent < |chunk|
    case Reading(text) => text == ""
    case _ => false
  }

  function PartOfCommand(server: Server): string {
    if server.Reading? then server.text else ""
  }

  /** The request is on its way and not yet understood. */
  predicate Awaiting(k: Script, s: State) {
    && s.server.Reading? && s.down == "" && s.local == None
    && match s.client
       case Requesting(sent) => sent < |k.Request()| && s.server.text + s.up == k.Request()[..sent]
       case Scanning(text) => text == "" && |s.server.text| < |k.Request()| && s.server.text + s.up == k.Request()
       case _ => false
  }

  /** The reply is on its way and its header not yet read in full. */
  predicate Answering(k: Script, s: State) {
    && s.client.Scanning? && Replying(s.server) && s.up == "" && s.local == None
    && |s.client.text| < |k.Header()|
    && s.client.text + s.down + Held(s.server) == k.Header() + k.Content()
  }

  /** The client is in its body loop. */
  predicate Fetching(k: Script, s: State) {
    && k.body.Some? && s.local.Some? && s.up == "" && Replying(s.server)
    && match s.client
       case Receiving(size, total) =>
         && size == k.size && total == |s.local.value| && total < size
         && s.local.value + s.down + Held(s.server) == k.Content()
       case Storing(size, total, buffer, stored) =>
         && size == k.size && stored < |buffer| && |buffer| <= FileClient.CHUNK
         && total + stored == |s.local.value| && total < size
         && s.local.value + buffer[stored..] + s.down + Held(s.server) == k.Content()
       case _ => false
  }

  /** What the client has stored and what it has not is still the whole file, and it
      stored at least the announced size. */
  predicate Conserved(k: Script, s: State) {
    && s.local.Some? == k.body.Some?
    && s.local.GetOr("") + s.down + Held(s.server) == k.Content()
    && k.size <= |s.local.GetOr("")| < k.size + FileClient.CHUNK
  }

  /** The client is done with the reply. */
  predicate Leaving(k: Script, s: State) {
    && Conserved(k, s)
    && match s.client
       case Quitting(sent) =>
         && sent < |k.Quit()| && (Replying(s.server) || s.server.Reading?)
         && PartOfCommand(s.server) + s.up == k.Quit()[..sent]
       case Closed =>
         || (s.server == Left && s.up == "")
         || ((Replying(s.server) || s.server.Reading?)
             && |PartOfCommand(s.server)| < |k.Quit()|
             && PartOfCommand(s.server) + s.up == k.Quit())
       case _ => false
  }

  predicate Inv(k: Script, s: State) {
    Awaiting(k, s) || Answering(k, s) || Fetching(k, s) || Leaving(k, s)
  }

  // ---------------------------------------------------------------- the measure

  function ClientWork(k: Script, client: Client): int {
    match client
    case Requesting(sent) => 2 * (|k.Request()| - sent) + 2 * |k.Quit()|
    case Scanning(_) => 2 * |k.Quit()|
    case Receiving(_, _) => 2 * |k.Quit()|
    case Storing(_, _, buffer, stored) => |buffer| - stored + 2 * |k.Quit()|
    case Quitting(sent) => 2 * (|k.Quit()| - sent)
    case _ => 0
  }

  function ServerWork(server: Server): int {
    match server
    case Sending(lines, sent, body) =>
      if lines == [] then 0
      else 3 * (|lines[0]| - sent + |FS.Concat(lines[1..])|) + 4 * |body.GetOr("")| + 1
    case Loading(unread) => 4 * |unread| + 1
    case Writing(chunk, sent, unread) => 3 * (|chunk| - sent) + 4 * |unread| + 1
    case _ => 0
  }

  /** The work the reply will be, while the request is still under way. */
  function Expected(k: Script, s: State): int {
    if Awaiting(k, s) then 3 * |k.Header()| + 4 * |k.Content()| + 1 else 0
  }

  /** The steps still possible: every octet is written, read, loaded and stored once. */
  function Work(k: Script, s: State): int {
    ClientWork(k, s.client) + |s.up| + 2 * |s.down| + ServerWork(s.server) + Expected(k, s)
  }

  lemma WorkIsNatural(k: Script, s: State)
    requires Inv(k, s)
    ensures Work(k, s) >= 0
  {
  }

  // ---------------------------------------------------------------- server steps

  lemma LineSent(lines: seq<string>, body: Option<string>)
    requires lines != [] && AllNonEmpty(lines)
    ensures var server := AfterLine(lines, body);
            && Replying(server) && PartOfCommand(server) == ""
            && Held(server) == FS.Concat(lines[1..]) + body.GetOr("")
            && ServerWork(server) <= 3 * |FS.Concat(lines[1..])| + 4 * |body.GetOr("")| + 1
  {
  }

  /** What a server write does to the channel and to what is held. */
  predicate SendMoves(s: State, t: State, n: nat) {
    && t == s.(server := t.server, down := t.down)
    && Replying(t.server) && PartOfCommand(t.server) == PartOfCommand(s.server) == ""
    && t.down + Held(t.server) == s.down + Held(s.server)
    && |t.down| == |s.down| + n
    && ServerWork(t.server) <= ServerWork(s.server) - 3 * n
  }

  /** What is held with `sent` octets of the first line out. */
  lemma HeldLines(lines: seq<string>, sent: nat, body: Option<string>)
    requires lines != [] && sent <= |lines[0]|
    ensures Held(Sending(lines, sent, body)) == lines[0][sent..] + (FS.Concat(lines[1..]) + body.GetOr(""))
  {
    Associates(lines[0][sent..], FS.Concat(lines[1..]), body.GetOr(""));
  }

  lemma LineGoesOn(s: State, n: nat, t: State)
    requires s.server.Sending? && Replying(s.server) && n >= 1
    requires var (lines, sent, body) := (s.server.lines, s.server.sent, s.server.body);
             && sent + n < |lines[0]|
             && t == s.(down := s.down + lines[0][sent..sent + n], server := Sending(lines, sent + n, body))
    ensures SendMoves(s, t, n)
  {
    var lines, sent, body := s.server.lines, s.server.sent, s.server.body;
    HeldLines(lines, sent, body);
    HeldLines(lines, sent + n, body);
    SliceMoveKeeps(s.down, lines[0], sent, n, FS.Concat(lines[1..]) + body.GetOr(""));
  }

  lemma LineEnds(s: State, n: nat, t: State)
    requires s.server.Sending? && Replying(s.server) && n >= 1
    requires var (lines, sent, body) := (s.server.lines, s.server.sent, s.server.body);
             && sent + n == |lines[0]|
             && t == s.(down := s.down + lines[0][sent..sent + n], server := AfterLine(lines, body))
    ensures SendMoves(s, t, n)
  {
    var lines, sent, body := s.server.lines, s.server.sent, s.server.body;
    var more := FS.Concat(lines[1..]) + body.GetOr("");
    HeldLines(lines, sent, body);
    LineSent(lines, body);
    SliceMoveKeeps(s.down, lines[0], sent, n, more);
    assert lines[0][sent + n..] + more == more;
  }

  lemma SendLineMoves(c: Setup, s: State, n: nat)
    requires s.server.Sending? && Replying(s.server) && NextServerSend(c, s, n).Some?
    ensures SendMoves(s, NextServerSend(c, s, n).value, n)
  {
    if s.server.sent + n < |s.server.lines[0]| {
      LineGoesOn(s, n, NextServerSend(c, s, n).value);
    } else {
      LineEnds(s, n, NextServerSend(c, s, n).value);
    }
  }

  lemma SendChunkMoves(c: Setup, s: State, n: nat)
    requires s.server.Writing? && Replying(s.server) && NextServerSend(c, s, n).Some?
    ensures SendMoves(s, NextServerSend(c, s, n).value, n)
  {
  }

  /** A server write moves octets from the server into the channel, in order. */
  lemma ServerSendMoves(c: Setup, s: State, n: nat)
    requires Replying(s.server) && NextServerSend(c, s, n).Some?
    ensures SendMoves(s, NextServerSend(c, s, n).value, n) && n > 0
  {
    if s.server.Sending? {
      SendLineMoves(c, s, n);
    } else {
      SendChunkMoves(c, s, n);
    }
  }

  /** Reading the served file moves octets into the server's buffer, in order. */
  lemma ServerLoadMoves(s: State, n: nat)
    requires Replying(s.server) && NextServerLoad(s, n).Some?
    ensures var t := NextServerLoad(s, n).value;
            && t == s.(server := t.server)
            && Replying(t.server) && PartOfCommand(t.server) == PartOfCommand(s.server) == ""
            && Held(t.server) == Held(s.server)
            && ServerWork(t.server) < ServerWork(s.server)
  {
  }

  // ---------------------------------------------------------------- awaiting

  lemma RequestWritten(k: Script, s: State, n: nat, t: State)
    requires Awaiting(k, s) && s.client.Requesting? && 1 <= n <= |k.Request()| - s.client.sent
    requires var sent := s.client.sent;
             t == s.(up := s.up + k.Request()[sent..sent + n],
                     client := if sent + n < |k.Request()| then Requesting(sent + n) else Scanning(""))
    ensures Awaiting(k, t) && Work(k, t) < Work(k, s)
  {
    WriteExtends(s.server.text, s.up, k.Request(), s.client.sent, n);
  }

  lemma AwaitingSend(c: Setup, k: Script, s: State, n: nat)
    requires k.Request() == Request(c) && Awaiting(k, s) && NextClientSend(c, s, n).Some?
    ensures var t := NextClientSend(c, s, n).value; Awaiting(k, t) && Work(k, t) < Work(k, s)
  {
    RequestWritten(k, s, n, NextClientSend(c, s, n).value);
  }

  /** Appending the next octet of a framed text. */
  lemma AppendPrefix(text: string, n: nat)
    requires Carried(text) && n < |text| + 4
    ensures var whole := text + TERMINATOR;
            && Append(whole[..n], whole[n]) == whole[..n + 1]
            && (EndsWithTerminator(whole[..n + 1]) <==> n + 1 == |whole|)
            && whole[..|whole|] == whole && whole[..|whole| - 4] == text
  {
    PrefixEnds(text, n + 1);
  }

  /** The server reads one more octet of a framed text. */
  lemma ServerReads(c: Setup, s: State, text: string)
    requires Carried(text) && s.server.Reading? && s.up != "" && |s.server.text| < |text| + 4
    requires s.server.text + [s.up[0]] == (text + TERMINATOR)[..|s.server.text| + 1]
    ensures NextServerRead(c, s)
            == Some(s.(up := s.up[1..],
                       server := if |s.server.text| + 1 == |text| + 4 then AfterCommand(c.host, text)
                                 else Reading(s.server.text + [s.up[0]])))
  {
    var n := |s.server.text|;
    var whole := text + TERMINATOR;
    assert s.server.text == whole[..n + 1][..n] == whole[..n];
    AppendPrefix(text, n);
  }

  /** What the server reads while it awaits the request is the next octet of it. */
  lemma AwaitedOctet(k: Script, s: State)
    requires Awaiting(k, s) && s.up != ""
    ensures |s.server.text| < |k.Request()|
    ensures s.server.text + [s.up[0]] == k.Request()[..|s.server.text| + 1]
    ensures |s.server.text| + 1 == |k.Request()| ==>
              s.up == [s.up[0]] && (s.client.Requesting? ==> s.client.sent == |k.Request()|)
    ensures s.server.text + s.up == (s.server.text + [s.up[0]]) + s.up[1..]
  {
  }

  lemma RequestAdvances(k: Script, s: State, t: State)
    requires Awaiting(k, s) && s.up != "" && |s.server.text| + 1 < |k.Request()|
    requires t == s.(up := s.up[1..], server := Reading(s.server.text + [s.up[0]]))
    ensures Awaiting(k, t) && Work(k, t) < Work(k, s)
  {
  }

  lemma ReplyStarts(c: Setup, k: Script, s: State, t: State)
    requires Understood(c, k) && Awaiting(k, s) && |s.up| == 1 && |s.server.text| + 1 == |k.Request()|
    requires s.client.Requesting? ==> s.client.sent == |k.Request()|
    requires t == s.(up := "", server := AfterCommand(c.host, k.request))
    ensures Answering(k, t) && Work(k, t) < Work(k, s)
  {
  }

  lemma AwaitingRead(c: Setup, k: Script, s: State)
    requires Understood(c, k) && Awaiting(k, s) && NextServerRead(c, s).Some?
    ensures var t := NextServerRead(c, s).value;
            (Awaiting(k, t) || Answering(k, t)) && Work(k, t) < Work(k, s)
  {
    AwaitedOctet(k, s);
    ServerReads(c, s, k.request);
    if |s.server.text| + 1 < |k.Request()| {
      RequestAdvances(k, s, NextServerRead(c, s).value);
    } else {
      ReplyStarts(c, k, s, NextServerRead(c, s).value);
    }
  }

  // ---------------------------------------------------------------- the server's reply

  /** Only the server moved, and what it holds and what is in flight still join up. */
  predicate ServerMoved(s: State, t: State) {
    && t == s.(server := t.server, down := t.down)
    && Replying(s.server) && Replying(t.server)
    && PartOfCommand(t.server) == PartOfCommand(s.server) == ""
    && t.down + Held(t.server) == s.down + Held(s.server)
    && 2 * |t.down| + ServerWork(t.server) < 2 * |s.down| + ServerWork(s.server)
  }

  lemma AnsweringServer(k: Script, s: State, t: State)
    requires Answering(k, s) && ServerMoved(s, t)
    ensures Answering(k, t) && Work(k, t) < Work(k, s)
  {
    Associates(s.client.text, s.down, Held(s.server));
  }

  lemma FetchingServer(k: Script, s: State, t: State)
    requires Fetching(k, s) && ServerMoved(s, t)
    ensures Fetching(k, t) && Work(k, t) < Work(k, s)
  {
    var before := if s.client.Storing? then s.local.value + s.client.buffer[s.client.stored..] else s.local.value;
    Associates(before, t.down, Held(t.server));
  }

  lemma LeavingServer(k: Script, s: State, t: State)
    requires Leaving(k, s) && ServerMoved(s, t)
    ensures Leaving(k, t) && Work(k, t) < Work(k, s)
  {
    Associates(s.local.GetOr(""), t.down, Held(t.server));
  }

  // ---------------------------------------------------------------- reading the header

  /** The client reads one more octet of a framed text. */
  lemma ClientReads(s: State, text: string)
    requires Carried(text) && s.client.Scanning? && s.down != "" && |s.client.text| < |text| + 4
    requires s.client.text + [s.down[0]] == (text + TERMINATOR)[..|s.client.text| + 1]
    ensures var read := s.(down := s.down[1..]);
            NextClientRead(s, 1)
            == Some(if |s.client.text| + 1 == |text| + 4 then AfterHeader(read, text)
                    else read.(client := Scanning(s.client.text + [s.down[0]])))
  {
    AppendPrefix(text, |s.client.text|);
  }

  lemma HeaderAdvances(k: Script, s: State, t: State)
    requires Answering(k, s) && s.down != "" && |s.client.text| + 1 < |k.Header()|
    requires t == s.(down := s.down[1..], client := Scanning(s.client.text + [s.down[0]]))
    ensures Answering(k, t) && Work(k, t) < Work(k, s)
  {
    assert s.down[..1] == [s.down[0]];
  }

  lemma HeaderLeaves(k: Script, s: State)
    requires Answering(k, s) && s.down != "" && |s.client.text| + 1 == |k.Header()|
    requires s.client.text + [s.down[0]] == k.Header()[..|s.client.text| + 1]
    ensures "" + s.down[1..] + Held(s.server) == k.Content()
  {
    TailsEqual(k.Header(), s.down[1..] + Held(s.server), k.Content());
  }

  lemma FetchRefused(k: Script, s: State, t: State)
    requires Answering(k, s) && s.down != "" && k.body == None && k.size == 0
    requires "" + s.down[1..] + Held(s.server) == k.Content()
    requires t == s.(down := s.down[1..], client := Quitting(0))
    ensures Leaving(k, t) && Work(k, t) < Work(k, s)
  {
  }

  lemma FetchBegins(k: Script, s: State, t: State)
    requires Answering(k, s) && s.down != "" && k.body.Some?
    requires "" + s.down[1..] + Held(s.server) == k.Content()
    requires t == s.(down := s.down[1..], client := BodyLoop(k.size, 0), local := Some(""))
    ensures (Fetching(k, t) || Leaving(k, t)) && Work(k, t) < Work(k, s)
  {
  }

  /** With the header read, exactly the file is in flight or held by the server. */
  lemma HeaderEnds(k: Script, s: State)
    requires HeaderUnderstood(k) && Answering(k, s) && s.down != "" && |s.client.text| + 1 == |k.Header()|
    requires s.client.text + [s.down[0]] == k.Header()[..|s.client.text| + 1]
    ensures var t := AfterHeader(s.(down := s.down[1..]), k.header);
            (Fetching(k, t) || Leaving(k, t)) && Work(k, t) < Work(k, s)
  {
    HeaderLeaves(k, s);
    var read := s.(down := s.down[1..]);
    match k.body
    case None => FetchRefused(k, s, AfterHeader(read, k.header));
    case Some(_) => FetchBegins(k, s, AfterHeader(read, k.header));
  }

  lemma AnsweringRead(k: Script, s: State, n: nat)
    requires HeaderUnderstood(k) && Answering(k, s) && NextClientRead(s, n).Some?
    ensures var t := NextClientRead(s, n).value;
            (Answering(k, t) || Fetching(k, t) || Leaving(k, t)) && Work(k, t) < Work(k, s)
  {
    var text := s.client.text;
    NextOctet(text, s.down, Held(s.server), k.Header(), k.Content());
    ClientReads(s, k.header);
    if |text| + 1 < |k.Header()| {
      HeaderAdvances(k, s, NextClientRead(s, n).value);
    } else {
      HeaderEnds(k, s);
    }
  }

  // ---------------------------------------------------------------- the body loop

  lemma FetchingRead(k: Script, s: State, n: nat)
    requires Fetching(k, s) && NextClientRead(s, n).Some?
    ensures var t := NextClientRead(s, n).value; Fetching(k, t) && Work(k, t) < Work(k, s)
  {
    MoveKeeps(s.local.value, s.down, n, Held(s.server));
  }

  lemma FetchingStore(k: Script, s: State, n: nat)
    requires Fetching(k, s) && NextClientStore(s, n).Some?
    ensures var t := NextClientStore(s, n).value;
            (Fetching(k, t) || Leaving(k, t)) && Work(k, t) < Work(k, s)
  {
    var buffer, i, after := s.client.buffer, s.client.stored, s.down + Held(s.server);
    var local := s.local.value;
    Associates(local + buffer[i..], s.down, Held(s.server));
    Associates(local, buffer[i..], after);
    SliceMoveKeeps(local, buffer, i, n, after);
    var more := local + buffer[i..i + n];
    Associates(more, buffer[i + n..], after);
    Associates(more + buffer[i + n..], s.down, Held(s.server));
    if i + n == |buffer| {
      assert more + buffer[i + n..] == more;
    }
  }

  // ---------------------------------------------------------------- leaving

  lemma FarewellWritten(k: Script, s: State, n: nat, t: State)
    requires Leaving(k, s) && s.client.Quitting? && 1 <= n <= |k.Quit()| - s.client.sent
    requires var sent := s.client.sent;
             t == s.(up := s.up + k.Quit()[sent..sent + n],
                     client := if sent + n < |k.Quit()| then Quitting(sent + n) else Closed)
    ensures Leaving(k, t) && Work(k, t) < Work(k, s)
  {
    WriteExtends(PartOfCommand(s.server), s.up, k.Quit(), s.client.sent, n);
  }

  lemma LeavingSend(c: Setup, k: Script, s: State, n: nat)
    requires k.Quit() == FAREWELL && Leaving(k, s) && NextClientSend(c, s, n).Some?
    ensures var t := NextClientSend(c, s, n).value; Leaving(k, t) && Work(k, t) < Work(k, s)
  {
    FarewellWritten(k, s, n, NextClientSend(c, s, n).value);
  }

  /** What the server reads after its reply is the next octet of QUIT. */
  lemma FarewellOctet(k: Script, s: State)
    requires Leaving(k, s) && s.server.Reading? && s.up != ""
    ensures |s.server.text| < |k.Quit()|
    ensures s.server.text + [s.up[0]] == k.Quit()[..|s.server.text| + 1]
    ensures |s.server.text| + 1 == |k.Quit()| ==> s.client == Closed && s.up[1..] == ""
    ensures s.server.text + s.up == (s.server.text + [s.up[0]]) + s.up[1..]
  {
    var line := k.Quit();
    var upTo := if s.client.Quitting? then s.client.sent else |line|;
    assert line[..|line|] == line;
    NextOfLine(s.server.text, s.up, line, upTo);
  }

  lemma FarewellAdvances(k: Script, s: State, t: State)
    requires Leaving(k, s) && s.server.Reading? && s.up != "" && |s.server.text| + 1 < |k.Quit()|
    requires s.server.text + s.up == (s.server.text + [s.up[0]]) + s.up[1..]
    requires t == s.(up := s.up[1..], server := Reading(s.server.text + [s.up[0]]))
    ensures Leaving(k, t) && Work(k, t) < Work(k, s)
  {
  }

  lemma FarewellRead(k: Script, s: State, t: State)
    requires Leaving(k, s) && s.server.Reading? && s.client == Closed && s.up != "" && s.up[1..] == ""
    requires t == s.(up := "", server := Left)
    ensures Leaving(k, t) && Work(k, t) < Work(k, s)
  {
  }

  lemma LeavingRead(c: Setup, k: Script, s: State)
    requires Understood(c, k) && Leaving(k, s) && NextServerRead(c, s).Some?
    ensures var t := NextServerRead(c, s).value; Leaving(k, t) && Work(k, t) < Work(k, s)
  {
    FarewellOctet(k, s);
    ServerReads(c, s, k.quit);
    if |s.server.text| + 1 < |k.Quit()| {
      FarewellAdvances(k, s, NextServerRead(c, s).value);
    } else {
      FarewellRead(k, s, NextServerRead(c, s).value);
    }
  }

  // ---------------------------------------------------------------- every step

  lemma ServerStepMoves(c: Setup, s: State, a: Action)
    requires Replying(s.server) && (a.ServerSend? || a.ServerLoad?) && Next(c, s, a).Some?
    ensures ServerMoved(s, Next(c, s, a).value)
  {
    match a
    case ServerSend(n) => ServerSendMoves(c, s, n);
    case ServerLoad(n) => ServerLoadMoves(s, n);
  }

  lemma AwaitingStep(c: Setup, k: Script, s: State, a: Action)
    requires Understood(c, k) && Awaiting(k, s) && Next(c, s, a).Some?
    ensures var t := Next(c, s, a).value; Inv(k, t) && Work(k, t) < Work(k, s)
  {
    match a
    case ClientSend(n) => AwaitingSend(c, k, s, n);
    case ServerRead => AwaitingRead(c, k, s);
    case ClientRead(_) => assert false;
    case ClientStore(_) => assert false;
    case ServerEof => assert false;
    case ServerSend(_) => assert false;
    case ServerLoad(_) => assert false;
  }

  lemma AnsweringStep(c: Setup, k: Script, s: State, a: Action)
    requires Understood(c, k) && Answering(k, s) && Next(c, s, a).Some?
    ensures var t := Next(c, s, a).value; Inv(k, t) && Work(k, t) < Work(k, s)
  {
    match a
    case ClientRead(n) => AnsweringRead(k, s, n);
    case ServerSend(_) => ServerStepMoves(c, s, a); AnsweringServer(k, s, Next(c, s, a).value);
    case ServerLoad(_) => ServerStepMoves(c, s, a); AnsweringServer(k, s, Next(c, s, a).value);
    case ClientSend(_) => assert false;
    case ClientStore(_) => assert false;
    case ServerRead => assert false;
    case ServerEof => assert false;
  }

  lemma FetchingStep(c: Setup, k: Script, s: State, a: Action)
    requires Fetching(k, s) && Next(c, s, a).Some?
    ensures var t := Next(c, s, a).value; Inv(k, t) && Work(k, t) < Work(k, s)
  {
    match a
    case ClientRead(n) => FetchingRead(k, s, n);
    case ClientStore(n) => FetchingStore(k, s, n);
    case ServerSend(_) => ServerStepMoves(c, s, a); FetchingServer(k, s, Next(c, s, a).value);
    case ServerLoad(_) => ServerStepMoves(c, s, a); FetchingServer(k, s, Next(c, s, a).value);
    case ClientSend(_) => assert false;
    case ServerRead => assert false;
    case ServerEof => assert false;
  }

  lemma LeavingStep(c: Setup, k: Script, s: State, a: Action)
    requires Understood(c, k) && Leaving(k, s) && Next(c, s, a).Some?
    ensures var t := Next(c, s, a).value; Inv(k, t) && Work(k, t) < Work(k, s)
  {
    match a
    case ClientSend(n) => LeavingSend(c, k, s, n);
    case ServerRead => LeavingRead(c, k, s);
    case ServerSend(_) => ServerStepMoves(c, s, a); LeavingServer(k, s, Next(c, s, a).value);
    case ServerLoad(_) => ServerStepMoves(c, s, a); LeavingServer(k, s, Next(c, s, a).value);
    case ServerEof => assert false;
    case ClientRead(_) => assert false;
    case ClientStore(_) => assert false;
  }

  /** Every step of either program keeps the invariant and uses up work. */
  lemma StepKeeps(c: Setup, k: Script, s: State, a: Action)
    requires Understood(c, k) && Inv(k, s) && Next(c, s, a).Some?
    ensures var t := Next(c, s, a).value; Inv(k, t) && Work(k, t) < Work(k, s)
  {
    if Awaiting(k, s) {
      AwaitingStep(c, k, s, a);
    } else if Answering(k, s) {
      AnsweringStep(c, k, s, a);
    } else if Fetching(k, s) {
      FetchingStep(c, k, s, a);
    } else {
      LeavingStep(c, k, s, a);
    }
  }
}
