/** The two clients (FileTransfer_Proyecto/client.c): fetch one file, list the directory. */
module FileClient {

  import opened Framing
  import opened Numerals
  import opened Sockets
  import opened Wrappers

  const CHUNK: nat := 102400

  /** What the reply header makes the client do. `Malformed` stands for the headers on
      which the parse dereferences a pointer it should not. */
  datatype Header = NotFound | Accepted(size: nat) | Unrecognised | Malformed

  /** The index of the first `c` in `s`, or `|s|`. */
  function IndexOf(s: string, c: char): (n: nat)
    ensures n <= |s| && c !in s[..n]
    ensures n < |s| ==> s[n] == c
  {
    if s == "" || s[0] == c then 0
    else
      var n := IndexOf(s[1..], c);
      assert s[..n + 1] == [s[0]] + s[1..][..n];
      n + 1
  }

  /** Split at the first CR, step over the LF, find the colon, skip two, read a number. */
  function ParseHeader(text: string): Header {
    var cr := IndexOf(text, '\r');
    var token := text[..cr];
    if token == "NOT_FOUND" then NotFound
    else if token != "OK" then Unrecognised
    else if cr + 2 > |text| then Malformed
    else
      var line := text[cr + 2..];
      var colon := IndexOf(line, ':');
      if colon + 2 > |line| then Malformed
      else Accepted(ParseUnsignedLong(line[colon + 2..]))
  }

  /** How a client ends: normally, by returning before QUIT, by a fault, or not at all,
      its body loop reading end of file for ever. */
  datatype Outcome = Finished | ReturnedEarly | Faulted | Spinning

  /** `doGet`: every read asks for a full chunk, whatever remains of `size`. The local
      copy is a prefix of what arrives, at least `size` long and less than a chunk
      longer; with too little to read the loop never ends. */
  method DoGet(server: Socket, size: nat) returns (local: string, outcome: Outcome)
    modifies server`incoming, server`chunks
    ensures old(server.incoming) == local + server.incoming
    ensures outcome == if size <= |old(server.incoming)| then Finished else Spinning
    ensures outcome == Finished ==> size <= |local| && (|local| < size + 102400)
    ensures size == 0 ==> local == ""
    ensures outcome == Spinning ==> server.incoming == ""
    ensures size == 0 ==> server.chunks == old(server.chunks)
    ensures size > 0 && outcome == Finished ==>
              |server.chunks| > 0 && |local| - |server.chunks[|server.chunks| - 1]| < size
  {
    local := "";
    var totalReadBytes := 0;
    while totalReadBytes < size
      invariant old(server.incoming) == local + server.incoming
      invariant totalReadBytes == |local| && (totalReadBytes < size + CHUNK)
      invariant size == 0 ==> local == ""
      invariant totalReadBytes == 0 ==> server.chunks == old(server.chunks)
      invariant totalReadBytes > 0 ==>
                  |server.chunks| > 0 && |local| - |server.chunks[|server.chunks| - 1]| < size
      decreases |server.incoming|
    {
      var readBuffer := server.Read(CHUNK);
      if readBuffer == "" {
        return local, Spinning;
      }
      ghost var stored := local;
      var writeBytes := 0;
      while writeBytes < |readBuffer|
        invariant writeBytes <= |readBuffer|
        invariant local == stored + readBuffer[..writeBytes]
      {
        var n: nat :| 1 <= n <= |readBuffer| - writeBytes;
        local := local + readBuffer[writeBytes..writeBytes + n];
        writeBytes := writeBytes + n;
      }
      totalReadBytes := totalReadBytes + |readBuffer|;
    }
    outcome := Finished;
  }

  /** `start_protocol`: request the file, parse the header, store the body, send QUIT.
      `local` is the local file if it was created. */
  method StartProtocol(server: Socket, remoteFilename: string) returns (local: Option<string>, outcome: Outcome)
    modifies server
    ensures var (text, body) := Received(old(server.incoming));
            match ParseHeader(text)
            case NotFound => outcome == ReturnedEarly && local == None && server.incoming == body
            case Malformed => outcome == Faulted && local == None && server.incoming == body
            case Unrecognised => outcome == Finished && local == None && server.incoming == body
            case Accepted(size) =>
              && local.Some? && body == local.value + server.incoming
              && outcome == (if size <= |body| then Finished else Spinning)
              && (outcome == Finished ==> size <= |local.value| && |local.value| < size + 102400)
              && (size == 0 ==> local == Some(""))
              && (outcome == Spinning ==> server.incoming == "" && local == Some(body))
    ensures server.outgoing == old(server.outgoing) + ("GET " + remoteFilename + TERMINATOR)
                               + (if outcome == Finished then "QUIT" + TERMINATOR else "")
  {
    var _ := server.SendLine("GET " + remoteFilename + TERMINATOR);
    local := None;
    var cmdString := server.ReadText();
    match ParseHeader(cmdString) {
      case NotFound =>
        return local, ReturnedEarly;
      case Malformed =>
        return local, Faulted;
      case Accepted(size) =>
        var copy;
        copy, outcome := DoGet(server, size);
        local := Some(copy);
        assert copy + "" == copy;
        if outcome == Spinning {
          return;
        }
      case Unrecognised =>
    }
    outcome := Finished;
    var _ := server.SendLine("QUIT" + TERMINATOR);
  }

  /** `get_list`: the text printed. */
  method GetList(server: Socket) returns (list: string)
    modifies server
    ensures server.outgoing == old(server.outgoing) + ("LIST" + TERMINATOR)
    ensures (list, server.incoming) == Received(old(server.incoming))
  {
    var _ := server.SendLine("LIST" + TERMINATOR);
    list := server.ReadText();
  }
}
