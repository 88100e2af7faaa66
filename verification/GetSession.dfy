/** One fetch: client process, server process and the two bounded channels between them,
    interleaved in any order. Every system call on a channel or a file is one step that
    moves as many octets as the scheduler likes; the local computation up to the next call
    belongs to the step. */
module GetSession {

  import opened Framing
  import opened FileClient
  import FS = FileServer
  import opened Headers
  import opened Sessions
  import opened Wrappers

  /** The machine served, the name asked for and the room in each channel. */
  datatype Setup = Setup(host: FS.Host, name: string, upRoom: nat, downRoom: nat)

  predicate WellFormed(c: Setup) {
    ValidName(c.name) && c.upRoom > 0 && c.downRoom > 0
  }

  /** Where `start_protocol` of client.c stands. */
  datatype Client =
    | Requesting(sent: nat)
    | Scanning(text: string)
    | Receiving(size: nat, total: nat)
    | Storing(size: nat, total: nat, buffer: string, stored: nat)
    | Quitting(sent: nat)
    | Closed
    | Broken

  /** Where `start_protocol` of server.c stands. */
  datatype Server =
    | Reading(text: string)
    | Sending(lines: seq<string>, sent: nat, body: Option<string>)
    | Loading(unread: string)
    | Writing(chunk: string, sent: nat, unread: string)
    | Left
    | Crashed

  /** `up` carries octets to the server, `down` to the client; `local` is the local file. */
  datatype State = State(client: Client, server: Server, up: string, down: string, local: Option<string>)

  datatype Action =
    | ClientSend(n: nat)
    | ClientRead(n: nat)
    | ClientStore(n: nat)
    | ServerRead
    | ServerEof
    | ServerSend(n: nat)
    | ServerLoad(n: nat)

  function Init(): State {
    State(Requesting(0), Reading(""), "", "", None)
  }

  // ---------------------------------------------------------------- the two programs

  function BodyLoop(size: nat, total: nat): Client {
    if total < size then Receiving(size, total) else Quitting(0)
  }

  /** The client after the header: the test at the head of the body loop included. */
  function AfterHeader(s: State, text: string): State {
    match ParseHeader(text)
    case NotFound => s.(client := Closed)
    case Unrecognised => s.(client := Quitting(0))
    case Malformed => s.(client := Broken)
    case Accepted(size) => s.(client := BodyLoop(size, 0), local := Some(""))
  }

  /** The server after a command string. */
  function AfterCommand(host: FS.Host, text: string): Server {
    var command := FS.Parse(text);
    if command == FS.Quit then Left
    else if command == FS.NoToken then Crashed
    else Sending(FS.ReplyLines(host, command), 0, FS.ReplyBody(host, command))
  }

  /** The server after the first of `lines` is out. */
  function AfterLine(lines: seq<string>, body: Option<string>): Server
    requires lines != []
  {
    if |lines| > 1 then Sending(lines[1..], 0, body)
    else match body
         case None => Reading("")
         case Some(content) => Loading(content)
  }

  /** `write` asked for `wanted` octets may move `n` of them into a channel. */
  predicate MayWrite(channel: string, room: nat, wanted: int, n: nat) {
    1 <= n <= wanted && |channel| + n <= room
  }

  function Request(c: Setup): string { GetText(c.name) + TERMINATOR }

  const FAREWELL := QUIT_TEXT + TERMINATOR

  function NextClientSend(c: Setup, s: State, n: nat): Option<State> {
    match s.client
    case Requesting(sent) =>
      var line := Request(c);
      if sent <= |line| && MayWrite(s.up, c.upRoom, |line| - sent, n) then
        Some(s.(up := s.up + line[sent..sent + n],
                client := if sent + n < |line| then Requesting(sent + n) else Scanning("")))
      else None
    case Quitting(sent) =>
      var line := FAREWELL;
      if sent <= |line| && MayWrite(s.up, c.upRoom, |line| - sent, n) then
        Some(s.(up := s.up + line[sent..sent + n],
                client := if sent + n < |line| then Quitting(sent + n) else Closed))
      else None
    case _ => None
  }

  function NextClientRead(s: State, n: nat): Option<State> {
    match s.client
    case Scanning(text) =>
      if n == 1 && s.down != "" then
        var grown := Append(text, s.down[0]);
        var read := s.(down := s.down[1..]);
        if EndsWithTerminator(grown) then Some(AfterHeader(read, grown[..|grown| - 4]))
        else Some(read.(client := Scanning(grown)))
      else None
    case Receiving(size, total) =>
      if 1 <= n <= |s.down| && n <= FileClient.CHUNK then
        Some(s.(down := s.down[n..], client := Storing(size, total, s.down[..n], 0)))
      else None
    case _ => None
  }

  function NextClientStore(s: State, n: nat): Option<State> {
    match s.client
    case Storing(size, total, buffer, stored) =>
      if s.local.Some? && n >= 1 && stored + n <= |buffer| then
        Some(s.(local := Some(s.local.value + buffer[stored..stored + n]),
                client := if stored + n < |buffer| then Storing(size, total, buffer, stored + n)
                          else BodyLoop(size, total + |buffer|)))
      else None
    case _ => None
  }

  function NextServerRead(c: Setup, s: State): Option<State> {
    match s.server
    case Reading(text) =>
      if s.up != "" then
        var grown := Append(text, s.up[0]);
        Some(s.(up := s.up[1..],
                server := if EndsWithTerminator(grown) then AfterCommand(c.host, grown[..|grown| - 4])
                          else Reading(grown)))
      else None
    case _ => None
  }

  /** `read` reports end of file once the client has closed and nothing is in flight. */
  function NextServerEof(c: Setup, s: State): Option<State> {
    if s.server.Reading? && s.up == "" && s.client == Closed then
      Some(s.(server := AfterCommand(c.host, s.server.text)))
    else None
  }

  function NextServerSend(c: Setup, s: State, n: nat): Option<State> {
    match s.server
    case Sending(lines, sent, body) =>
      if lines != [] && sent <= |lines[0]| && MayWrite(s.down, c.downRoom, |lines[0]| - sent, n) then
        Some(s.(down := s.down + lines[0][sent..sent + n],
                server := if sent + n < |lines[0]| then Sending(lines, sent + n, body)
                          else AfterLine(lines, body)))
      else None
    case Writing(chunk, sent, unread) =>
      if sent <= |chunk| && MayWrite(s.down, c.downRoom, |chunk| - sent, n) then
        Some(s.(down := s.down + chunk[sent..sent + n],
                server := if sent + n < |chunk| then Writing(chunk, sent + n, unread) else Loading(unread)))
      else None
    case _ => None
  }

  /** `read` on the served file; it returns nothing only at its end. */
  function NextServerLoad(s: State, n: nat): Option<State> {
    match s.server
    case Loading(unread) =>
      if unread == "" && n == 0 then Some(s.(server := Reading("")))
      else if 1 <= n <= |unread| && n <= FS.CHUNK then
        Some(s.(server := Writing(unread[..n], 0, unread[n..])))
      else None
    case _ => None
  }

  function Next(c: Setup, s: State, a: Action): Option<State> {
    match a
    case ClientSend(n) => NextClientSend(c, s, n)
    case ClientRead(n) => NextClientRead(s, n)
    case ClientStore(n) => NextClientStore(s, n)
    case ServerRead => NextServerRead(c, s)
    case ServerEof => NextServerEof(c, s)
    case ServerSend(n) => NextServerSend(c, s, n)
    case ServerLoad(n) => NextServerLoad(s, n)
  }

  /** The state after a schedule, if every one of its steps was possible. */
  function After(c: Setup, schedule: seq<Action>): Option<State> {
    if schedule == [] then Some(Init())
    else
      match After(c, schedule[..|schedule| - 1])
      case None => None
      case Some(s) => Next(c, s, schedule[|schedule| - 1])
  }

  // ---------------------------------------------------------------- the script of a fetch

  /** What the two programs will say to each other. */
  datatype Script = Script(request: string, header: string, quit: string, body: Option<string>, size: nat) {
    function Content(): string { body.GetOr("") }

    function Request(): string { request + TERMINATOR }

    function Header(): string { header + TERMINATOR }

    function Quit(): string { quit + TERMINATOR }
  }

  function ScriptOf(c: Setup): Script {
    match FS.Requested(c.host, c.name)
    case None => Script(GetText(c.name), NotFoundText(c.name), QUIT_TEXT, None, 0)
    case Some(content) =>
      var size := |content| % FS.TWO_32;
      Script(GetText(c.name), OkText(size), QUIT_TEXT, Some(content), size)
  }

  predicate AllNonEmpty(lines: seq<string>) {
    forall i :: 0 <= i < |lines| ==> lines[i] != ""
  }

  ghost predicate RequestUnderstood(c: Setup, k: Script) {
    && k.request == GetText(c.name) && Carried(k.request)
    && var reply := AfterCommand(c.host, k.request);
       && reply.Sending? && reply.sent == 0 && reply.lines != [] && AllNonEmpty(reply.lines)
       && FS.Concat(reply.lines) == k.Header()
       && reply.body == k.body
  }

  ghost predicate HeaderUnderstood(k: Script) {
    && Carried(k.header)
    && ParseHeader(k.header) == (if k.body.Some? then Accepted(k.size) else Unrecognised)
    && k.size == |k.Content()| % FS.TWO_32
  }

  ghost predicate QuitUnderstood(k: Script) {
    k.quit == QUIT_TEXT && Carried(k.quit) && FS.Parse(k.quit) == FS.Quit
  }

  /** The two programs understand the texts of the script. */
  ghost predicate Understood(c: Setup, k: Script) {
    RequestUnderstood(c, k) && HeaderUnderstood(k) && QuitUnderstood(k)
  }

  lemma RequestIsUnderstood(c: Setup, k: Script)
    requires ValidName(c.name) && k == ScriptOf(c)
    ensures RequestUnderstood(c, k)
  {
    GetParses(c.name);
    match FS.Requested(c.host, c.name)
    case None => NotFoundLines(c.host, c.name);
    case Some(content) => OkLines(c.host, c.name, content);
  }

  lemma HeaderIsUnderstood(c: Setup, k: Script)
    requires ValidName(c.name) && k == ScriptOf(c)
    ensures HeaderUnderstood(k)
  {
    match FS.Requested(c.host, c.name)
    case None =>
      NotFoundTextParses(c.name);
    case Some(content) =>
      OkTextCarried(|content| % FS.TWO_32);
      OkTextParses(|content| % FS.TWO_32);
  }

  lemma QuitIsUnderstood(k: Script)
    requires k.quit == QUIT_TEXT
    ensures QuitUnderstood(k)
  {
    WordParses(QUIT_TEXT);
  }

  /** The script of every fetch of a valid name is understood. */
  lemma ScriptUnderstood(c: Setup)
    requires ValidName(c.name)
    ensures Understood(c, ScriptOf(c))
  {
    var k := ScriptOf(c);
    RequestIsUnderstood(c, k);
    HeaderIsUnderstood(c, k);
    QuitIsUnderstood(k);
  }
}
