/** One session of the file server (FileTransfer_Proyecto/server.c). */
module FileServer {

  import opened Framing
  import opened Numerals
  import opened Sequences
  import opened Sockets
  import opened Wrappers

  /** What the server can see of its machine: regular files by full path, and the
      entries of the base directory in `readdir` order if it can be opened. */
  datatype Host = Host(baseDir: string, files: map<string, string>, entries: Option<seq<string>>)

  const CHUNK: nat := 102400
  const TWO_32: nat := 0x1_0000_0000

  // ---------------------------------------------------------------- commands

  /** The delimiters given to `strtok`. */
  predicate IsDelimiter(c: char) { c == ' ' || c == '\t' || c == '\U{08}' }

  function SkipDelimiters(s: string): (r: string)
    ensures |r| <= |s|
  {
    if s == "" || !IsDelimiter(s[0]) then s else SkipDelimiters(s[1..])
  }

  function TokenLength(s: string): (n: nat)
    ensures n <= |s|
    ensures forall i :: 0 <= i < n ==> !IsDelimiter(s[i])
    ensures n < |s| ==> IsDelimiter(s[n])
  {
    if s == "" || IsDelimiter(s[0]) then 0 else 1 + TokenLength(s[1..])
  }

  /** One call of `strtok`: the token and the text the next call continues with. */
  function NextToken(s: string): Option<(string, string)> {
    var body := SkipDelimiters(s);
    var n := TokenLength(body);
    if n == 0 then None
    else Some((body[..n], if n < |body| then body[n + 1..] else ""))
  }

  datatype Command = Get(name: string) | GetNothing | List | Quit | Unknown | NoToken

  function Parse(text: string): Command {
    match NextToken(text)
    case None => NoToken
    case Some((method_, more)) =>
      if method_ == "GET" then
        match NextToken(more)
        case None => GetNothing
        case Some((name, _)) => Get(name)
      else if method_ == "LIST" then List
      else if method_ == "QUIT" then Quit
      else Unknown
  }

  // ---------------------------------------------------------------- replies

  const NO_LISTING := "INTENRAL ERROR ( Can't open directory)"

  function Concat(lines: seq<string>): string {
    if lines == [] then "" else lines[0] + Concat(lines[1..])
  }

  predicate IsVisible(entry: string) { entry != "." && entry != ".." }

  function Visible(entries: seq<string>): (r: seq<string>)
    ensures forall e :: e in r <==> e in entries && e != "." && e != ".."
  {
    if entries == [] then []
    else if IsVisible(entries[0]) then [entries[0]] + Visible(entries[1..])
    else Visible(entries[1..])
  }

  /** Every string followed by CR LF. */
  function WithCrlf(names: seq<string>): seq<string> {
    if names == [] then [] else [names[0] + CRLF] + WithCrlf(names[1..])
  }

  /** The file `doGet` opens: the directory and the name joined with nothing between. */
  function Requested(host: Host, name: string): Option<string> {
    var path := host.baseDir + name;
    if path in host.files then Some(host.files[path]) else None
  }

  function SizeLine(size: nat): string {
    "Size: " + Decimal(size % TWO_32) + CRLF
  }

  /** The lines sent for a command, one `sendLine` each. */
  function ReplyLines(host: Host, command: Command): seq<string> {
    match command
    case Get(name) =>
      (match Requested(host, name)
       case None => ["NOT_FOUND " + name + TERMINATOR]
       case Some(content) => ["OK" + CRLF, SizeLine(|content|), CRLF])
    case GetNothing => ["ERROR ( Missing FileName )" + TERMINATOR]
    case List =>
      (match host.entries
       case None => [NO_LISTING + TERMINATOR]
       case Some(entries) => WithCrlf(Visible(entries)) + [CRLF])
    case Quit => []
    case Unknown => ["UNKOWN METHOD" + TERMINATOR]
    case NoToken => []
  }

  /** The file sent after the lines, if the command sends one. */
  function ReplyBody(host: Host, command: Command): Option<string> {
    match command
    case Get(name) => Requested(host, name)
    case _ => None
  }

  function Reply(host: Host, command: Command): string {
    match ReplyBody(host, command)
    case None => Concat(ReplyLines(host, command))
    case Some(content) => Concat(ReplyLines(host, command)) + content
  }

  lemma {:induction false} ConcatAppend(lines: seq<string>, last: string)
    ensures Concat(lines + [last]) == Concat(lines) + last
  {
    if lines != [] {
      assert (lines + [last])[1..] == lines[1..] + [last];
      ConcatAppend(lines[1..], last);
    }
  }

  lemma ConcatOne(line: string)
    ensures Concat([line]) == line
  {
  }

  lemma ConcatThree(a: string, b: string, c: string)
    ensures Concat([a, b, c]) == a + b + c
  {
    ConcatOne(c);
  }

  /** The reply to GET in full: the announced size and the file at the path made of the base
      directory and the name, or the name back if there is no such file. */
  function FileReply(host: Host, name: string): string {
    var path := host.baseDir + name;
    if path in host.files
    then "OK\r\nSize: " + Decimal(|host.files[path]| % 0x1_0000_0000) + "\r\n\r\n" + host.files[path]
    else "NOT_FOUND " + name + "\r\n\r\n"
  }

  lemma GetReply(host: Host, name: string)
    ensures Reply(host, Get(name)) == FileReply(host, name)
  {
    var path := host.baseDir + name;
    if path in host.files {
      var size := SizeLine(|host.files[path]|);
      ConcatThree("OK" + CRLF, size, CRLF);
      assert "OK" + CRLF + "Size: " == "OK\r\nSize: " && CRLF + CRLF == "\r\n\r\n";
      assert "OK" + CRLF + size + CRLF
          == "OK\r\nSize: " + Decimal(|host.files[path]| % 0x1_0000_0000) + "\r\n\r\n";
    } else {
      ConcatOne("NOT_FOUND " + name + TERMINATOR);
    }
  }

  /** The replies that carry nothing of the request. */
  lemma FixedReplies(host: Host)
    ensures Reply(host, GetNothing) == "ERROR ( Missing FileName )\r\n\r\n"
    ensures Reply(host, Unknown) == "UNKOWN METHOD\r\n\r\n"
    ensures host.entries == None ==> Reply(host, List) == "INTENRAL ERROR ( Can't open directory)\r\n\r\n"
  {
    ConcatOne("ERROR ( Missing FileName )" + TERMINATOR);
    ConcatOne("UNKOWN METHOD" + TERMINATOR);
    ConcatOne(NO_LISTING + TERMINATOR);
  }

  /** Only the two dots are left out of a listing, and the order is kept. */
  lemma {:induction false} VisibleInOrder(before: seq<string>, entry: string, after: seq<string>)
    ensures Visible(before + [entry] + after)
            == Visible(before) + (if entry == "." || entry == ".." then [] else [entry]) + Visible(after)
  {
    var entries := before + [entry] + after;
    if before == [] {
      assert entries[0] == entry && entries[1..] == after;
    } else {
      assert entries[0] == before[0] && entries[1..] == before[1..] + [entry] + after;
      VisibleInOrder(before[1..], entry, after);
    }
  }

  // ---------------------------------------------------------------- sessions

  /** How a session ends: by QUIT, or by `strcmp` on the null token. */
  datatype End = ByQuit | ByNullToken

  datatype Session = Session(output: string, unread: string, end: End)

  predicate Ends(command: Command) { command == Quit || command == NoToken }

  /** A whole session as a function of the octets the client sends before it closes. */
  function Serve(host: Host, input: string): Session
    decreases |input|
  {
    var (text, rest) := Received(input);
    var command := Parse(text);
    assert NextToken("") == None;
    if Ends(command) then
      Session("", rest, if command == Quit then ByQuit else ByNullToken)
    else
      var more := Serve(host, rest);
      Session(Reply(host, command) + more.output, more.unread, more.end)
  }

  /** The listing from entry `i` on is its line, if it has one, and the listing of the rest. */
  lemma ListingFrom(entries: seq<string>, i: nat)
    requires i < |entries|
    ensures var later := Concat(WithCrlf(Visible(entries[i + 1..])));
            Concat(WithCrlf(Visible(entries[i..])))
            == if IsVisible(entries[i]) then entries[i] + CRLF + later else later
  {
    assert entries[i..][1..] == entries[i + 1..];
    if IsVisible(entries[i]) {
      var later := Visible(entries[i + 1..]);
      assert ([entries[i]] + later)[1..] == later;
      assert ([entries[i] + CRLF] + WithCrlf(later))[1..] == WithCrlf(later);
    }
  }

  /** `doList`. */
  method DoList(host: Host, client: Socket)
    modifies client`outgoing, client`offered
    ensures client.outgoing == old(client.outgoing) + Reply(host, List)
  {
    match host.entries
    case None =>
      ConcatOne(NO_LISTING + TERMINATOR);
      var _ := client.SendLine(NO_LISTING + TERMINATOR);
    case Some(entries) =>
      var i := 0;
      while i < |entries|
        invariant 0 <= i <= |entries|
        invariant client.outgoing + Concat(WithCrlf(Visible(entries[i..])))
                  == old(client.outgoing) + Concat(WithCrlf(Visible(entries)))
      {
        ListingFrom(entries, i);
        if IsVisible(entries[i]) {
          Associates(client.outgoing, entries[i] + CRLF, Concat(WithCrlf(Visible(entries[i + 1..]))));
          var _ := client.SendLine(entries[i] + CRLF);
        }
        i := i + 1;
      }
      ghost var listed := Concat(WithCrlf(Visible(entries)));
      assert client.outgoing == old(client.outgoing) + listed by {
        assert entries[i..] == [] && client.outgoing + "" == client.outgoing;
      }
      ConcatAppend(WithCrlf(Visible(entries)), CRLF);
      Associates(old(client.outgoing), listed, CRLF);
      var _ := client.SendLine(CRLF);
  }

  lemma SentSoFar(before: string, chunk: string, i: nat, n: nat)
    requires i + n <= |chunk|
    ensures before + chunk[..i] + chunk[i..][..n] == before + chunk[..i + n]
  {
  }

  /** The body loop of `doGet`: read a chunk, write all of it, until end of file. */
  method SendFile(client: Socket, content: string)
    modifies client`outgoing, client`offered
    ensures client.outgoing == old(client.outgoing) + content
  {
    var readBuffer, unread := ReadFile(content, CHUNK);
    while readBuffer != ""
      invariant readBuffer == "" ==> unread == ""
      invariant client.outgoing + readBuffer + unread == old(client.outgoing) + content
      decreases |readBuffer| + |unread|
    {
      ghost var before := client.outgoing;
      var writeBytes := 0;
      while writeBytes < |readBuffer|
        invariant writeBytes <= |readBuffer|
        invariant client.outgoing == before + readBuffer[..writeBytes]
      {
        var n := client.Write(readBuffer[writeBytes..]);
        SentSoFar(before, readBuffer, writeBytes, n);
        writeBytes := writeBytes + n;
      }
      assert readBuffer[..writeBytes] == readBuffer;
      readBuffer, unread := ReadFile(unread, CHUNK);
      Associates(client.outgoing, readBuffer, unread);
    }
  }

  /** `doGet`: the reply header, then the file chunk by chunk. */
  method DoGet(host: Host, client: Socket, fileName: string)
    modifies client`outgoing, client`offered
    ensures client.outgoing == old(client.outgoing) + Reply(host, Get(fileName))
    ensures client.outgoing == old(client.outgoing) + FileReply(host, fileName)
  {
    GetReply(host, fileName);
    match Requested(host, fileName)
    case None =>
      ConcatOne("NOT_FOUND " + fileName + TERMINATOR);
      var _ := client.SendLine("NOT_FOUND " + fileName + TERMINATOR);
    case Some(content) =>
      var _ := client.SendLine("OK" + CRLF);
      var _ := client.SendLine(SizeLine(|content|));
      var _ := client.SendLine(CRLF);
      ConcatThree("OK" + CRLF, SizeLine(|content|), CRLF);
      SendFile(client, content);
  }

  /** The dispatch of `start_protocol` for a command that does not end the session. */
  method Answer(host: Host, client: Socket, command: Command)
    requires !Ends(command)
    modifies client`outgoing, client`offered
    ensures client.outgoing == old(client.outgoing) + Reply(host, command)
  {
    match command
    case Get(name) =>
      DoGet(host, client, name);
    case GetNothing =>
      ConcatOne("ERROR ( Missing FileName )" + TERMINATOR);
      var _ := client.SendLine("ERROR ( Missing FileName )" + TERMINATOR);
    case List =>
      DoList(host, client);
    case Unknown =>
      ConcatOne("UNKOWN METHOD" + TERMINATOR);
      var _ := client.SendLine("UNKOWN METHOD" + TERMINATOR);
  }

  /** `start_protocol`: serve commands until QUIT, whatever the chunking of the reads
      and writes. */
  method StartProtocol(host: Host, client: Socket) returns (end: End)
    modifies client
    ensures var session := Serve(host, old(client.incoming));
            && client.outgoing == old(client.outgoing) + session.output
            && client.incoming == session.unread
            && end == session.end
  {
    ghost var session := Serve(host, client.incoming);
    ghost var ahead := session;
    while true
      invariant ahead == Serve(host, client.incoming)
      invariant session.unread == ahead.unread && session.end == ahead.end
      invariant client.outgoing + ahead.output == old(client.outgoing) + session.output
      decreases |client.incoming|
    {
      ghost var sent := client.outgoing;
      var cmdString := client.ReadText();
      var command := Parse(cmdString);
      if Ends(command) {
        return if command == Quit then ByQuit else ByNullToken;
      }
      ahead := Serve(host, client.incoming);
      Answer(host, client, command);
      Associates(sent, Reply(host, command), ahead.output);
    }
  }
}
