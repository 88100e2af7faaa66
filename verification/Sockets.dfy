/** Blocking stream I/O seen from one process. The kernel decides how many octets a call
    moves; a call moves at least one unless there is nothing to move. I/O errors are not
    modelled. */
module Sockets {

  import opened Framing

  /** A connected stream socket: the octets still to arrive, the octets sent so far, what each
      `read` so far has returned and what each `write` was offered. `incoming == ""` is the
      state in which `read` reports end of file. */
  class Socket {
    var incoming: string
    var outgoing: string
    ghost var chunks: seq<string>
    ghost var offered: seq<string>

    constructor (incoming: string)
      ensures this.incoming == incoming && outgoing == "" && chunks == [] && offered == []
    {
      this.incoming := incoming;
      this.outgoing := "";
      this.chunks, this.offered := [], [];
    }

    method Read(limit: nat) returns (chunk: string)
      requires limit > 0
      modifies this`incoming, this`chunks
      ensures old(incoming) == chunk + incoming && chunks == old(chunks) + [chunk]
      ensures |chunk| <= limit
      ensures chunk == "" <==> old(incoming) == ""
    {
      chunk := "";
      if incoming != "" {
        var n: nat :| 1 <= n <= |incoming| && n <= limit;
        chunk, incoming := incoming[..n], incoming[n..];
      }
      chunks := chunks + [chunk];
    }

    method Write(data: string) returns (n: nat)
      modifies this`outgoing, this`offered
      ensures n <= |data| && (data != "" ==> n > 0)
      ensures outgoing == old(outgoing) + data[..n] && offered == old(offered) + [data]
    {
      n := 0;
      if data != "" {
        n :| 1 <= n <= |data|;
      }
      outgoing, offered := outgoing + data[..n], offered + [data];
    }

    /** `sendLine`: write until the whole line is out. */
    method SendLine(line: string) returns (writeBytes: nat)
      modifies this`outgoing, this`offered
      ensures writeBytes == |line|
      ensures outgoing == old(outgoing) + line
    {
      writeBytes := Write(line);
      while writeBytes < |line|
        invariant writeBytes <= |line|
        invariant outgoing == old(outgoing) + line[..writeBytes]
      {
        var n := Write(line[writeBytes..]);
        assert line[..writeBytes] + line[writeBytes..][..n] == line[..writeBytes + n];
        writeBytes := writeBytes + n;
      }
      assert line[..writeBytes] == line;
    }

    /** The read loop the server and both clients share: one octet at a time until the
        string ends in the terminator, or the peer closes. */
    method ReadText() returns (text: string)
      modifies this`incoming, this`chunks
      ensures (text, incoming) == Received(old(incoming))
    {
      text := "";
      var readBuffer := Read(1);
      while readBuffer != ""
        invariant |readBuffer| <= 1 && (readBuffer == "" ==> incoming == "")
        invariant ScanFrom(text, readBuffer + incoming) == ScanFrom("", old(incoming))
        decreases |readBuffer| + |incoming|
      {
        ghost var input := readBuffer + incoming;
        assert input[0] == readBuffer[0] && input[1..] == incoming;
        text := Append(text, readBuffer[0]);
        if EndsWithTerminator(text) {
          text := text[..|text| - 4];
          return;
        }
        readBuffer := Read(1);
      }
    }
  }

  /** `read` on a regular file: the octets handed over and those still unread. */
  method ReadFile(unread: string, limit: nat) returns (chunk: string, remaining: string)
    requires limit > 0
    ensures unread == chunk + remaining
    ensures |chunk| <= limit
    ensures chunk == "" <==> unread == ""
  {
    chunk, remaining := "", unread;
    if unread != "" {
      var n: nat :| 1 <= n <= |unread| && n <= limit;
      chunk, remaining := unread[..n], unread[n..];
    }
  }
}
