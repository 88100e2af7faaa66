/** The two functions of tcp_ping/ping.c, each with its own view of the connection. */
module PingProgram {

  import opened Ping
  import opened PingTheorems
  import opened Sockets

  /** `bufferSend`: cleared by `calloc`, then filled by index. */
  method FillBuffer(realsize: nat) returns (bufferSend: array<char>)
    requires realsize > 0
    ensures fresh(bufferSend) && bufferSend[..] == SendBuffer(realsize)
  {
    bufferSend := new char[realsize + 1](_ => NUL);
    var i := 0;
    while i < realsize - 1
      invariant 0 <= i <= realsize - 1
      invariant forall k :: 0 <= k < i ==> bufferSend[k] == Letter(k)
      invariant forall k :: i <= k <= realsize ==> bufferSend[k] == NUL
    {
      bufferSend[i] := (i % 26 + 65) as char;
      i := i + 1;
    }
  }

  lemma WriteSlice(before: string, m: string, i: nat, n: nat, slice: string)
    requires i <= |m| && n <= |slice| && slice == m[i..]
    ensures before + m[..i] + slice[..n] == before + m[..i + n]
  {
  }

  /** Every write after `before` was offered the rest of the message, its NUL included. */
  ghost predicate OffersAllThatIsLeft(m: string, before: seq<string>, offered: seq<string>) {
    && |offered| >= |before| && offered[..|before|] == before
    && forall i :: |before| <= i < |offered| ==> 0 < |offered[i]| <= |m| && offered[i] == m[|m| - |offered[i]|..]
  }

  /** The send loop: everything, or everything but the NUL. */
  method SendMessage(socket: Socket, c: Setup) returns (totalBytes: nat)
    requires WellFormed(c)
    modifies socket`outgoing, socket`offered
    ensures totalBytes == |Message(c)| || totalBytes == |Message(c)| - 1
    ensures socket.outgoing == old(socket.outgoing) + Message(c)[..totalBytes]
    ensures OffersAllThatIsLeft(Message(c), old(socket.offered), socket.offered)
  {
    var realsize := RealSize(c.msgSize);
    BufferHoldsMessage(c);
    var bufferSend := FillBuffer(realsize);
    var strlen := Strlen(bufferSend[..]);
    ghost var message := Message(c);
    assert bufferSend[..realsize] == message;
    totalBytes := 0;
    while totalBytes < strlen
      invariant totalBytes <= strlen + 1 == realsize && bufferSend[..realsize] == message
      invariant socket.outgoing == old(socket.outgoing) + message[..totalBytes]
      invariant OffersAllThatIsLeft(message, old(socket.offered), socket.offered)
    {
      var bytesSent := socket.Write(bufferSend[totalBytes..strlen + 1]);
      WriteSlice(old(socket.outgoing), message, totalBytes, bytesSent, bufferSend[totalBytes..strlen + 1]);
      totalBytes := totalBytes + bytesSent;
    }
  }

  /** No read after `before` but perhaps the last ended in NUL or met the end of file. */
  ghost predicate ReadOn(before: seq<string>, chunks: seq<string>) {
    && |chunks| > |before| && chunks[..|before|] == before
    && forall i :: |before| <= i < |chunks| - 1 ==> chunks[i] != "" && !EndsInNul(chunks[i])
  }

  /** The reads after `before` stopped at the first that did. */
  ghost predicate StoppedAtNul(before: seq<string>, chunks: seq<string>) {
    ReadOn(before, chunks) && (chunks[|chunks| - 1] == "" || EndsInNul(chunks[|chunks| - 1]))
  }

  lemma ReadOnce(before: seq<string>, chunks: seq<string>, chunk: string)
    requires chunks == before || (ReadOn(before, chunks) && !StoppedAtNul(before, chunks))
    ensures ReadOn(before, chunks + [chunk])
  {
  }

  /** The read loop of both sides: until what has arrived ends in NUL or the peer closes.
      One message with one NUL is read to its end, whatever the chunking. */
  method ReadToNul(socket: Socket, limit: nat) returns (data: string)
    requires limit > 0
    modifies socket`incoming, socket`chunks
    ensures old(socket.incoming) == data + socket.incoming
    ensures StoppedAtNul(old(socket.chunks), socket.chunks)
    ensures EndsInNul(data) || socket.incoming == ""
    ensures OneNul(old(socket.incoming)) ==> data == old(socket.incoming) && socket.incoming == ""
  {
    data := "";
    ghost var input, before := socket.incoming, socket.chunks;
    var buffer := socket.Read(limit);
    ReadOnce(before, before, buffer);
    while buffer != ""
      invariant input == data + buffer + socket.incoming
      invariant buffer == "" ==> socket.incoming == ""
      invariant ReadOn(before, socket.chunks) && socket.chunks[|socket.chunks| - 1] == buffer
      decreases |buffer| + |socket.incoming|
    {
      data := data + buffer;
      if EndsInNul(data) {
        if OneNul(input) {
          EndsInNulIffWhole(input, |data|);
        }
        return;
      }
      ghost var chunks := socket.chunks;
      buffer := socket.Read(limit);
      ReadOnce(before, chunks, buffer);
    }
  }

  /** Replies `memcmp` over the cleared receive buffer takes for the message: the message
      without its NUL, and anything that begins with the message. */
  predicate TakenForMessage(m: string, reply: string) {
    |m| > 0 && (reply == m[..|m| - 1] || m <= reply)
  }

  lemma PaddedIsMessage(m: string, read: string)
    requires OneNul(m) && Padded(read, |m|) == m
    ensures read == m[..|m| - 1] || m <= read
  {
    if |read| < |m| {
      assert m[|read|] == NUL;
    }
  }

  /** Stopping at a chunk that ends in NUL cannot change the verdict. */
  lemma VerdictOnWhole(m: string, read: string, unread: string)
    requires OneNul(m) && (EndsInNul(read) || unread == "")
    ensures Padded(read, |m|) == m <==> TakenForMessage(m, read + unread)
  {
    var reply := read + unread;
    if Padded(read, |m|) == m {
      PaddedIsMessage(m, read);
    }
    if TakenForMessage(m, reply) {
      if |read| >= |m| {
        assert read[..|m|] == reply[..|m|] == m;
      } else {
        assert read == m[..|read|];
        EndsInNulIffWhole(m, |read|);
        assert reply == read == m[..|m| - 1];
        assert Padded(read, |m|) == m;
      }
    }
  }

  /** The state machine's sender judges a reply as the program does. */
  lemma CompareVerdict(c: Setup, total: nat, received: string)
    requires WellFormed(c)
    ensures var t := Compare(c, total, received);
            && t.Returned? && t.received == received
            && (t.ok <==> TakenForMessage(Message(c), received))
  {
    MessageHasOneNul(c);
    VerdictOnWhole(Message(c), received, "");
    assert received + "" == received;
  }

  /** `pingSend`. Whatever the chunking it reports success exactly when the reply is its
      message, with its NUL or without; the reply must fit the receive buffer, which has
      room for one octet more. */
  method PingSend(socket: Socket, c: Setup) returns (ok: bool)
    requires WellFormed(c) && |socket.incoming| <= |Message(c)| + 1
    modifies socket
    ensures var sent := Message(c);
            || socket.outgoing == old(socket.outgoing) + sent
            || socket.outgoing == old(socket.outgoing) + sent[..|sent| - 1]
    ensures OffersAllThatIsLeft(Message(c), old(socket.offered), socket.offered)
    ensures ok <==> TakenForMessage(Message(c), old(socket.incoming))
    ensures StoppedAtNul(old(socket.chunks), socket.chunks)
    ensures old(socket.incoming) == Message(c) ==> socket.incoming == ""
  {
    var totalBytes := SendMessage(socket, c);
    var realsize := RealSize(c.msgSize);
    BufferHoldsMessage(c);
    MessageHasOneNul(c);
    var received := ReadToNul(socket, realsize);
    VerdictOnWhole(Message(c), received, socket.incoming);
    ok := Padded(received, realsize) == SendBuffer(realsize)[..realsize];
  }

  /** `PingListen`: read until a chunk ends in NUL or the peer closes, then echo. */
  method PingListen(socket: Socket) returns (readData: string)
    modifies socket
    ensures old(socket.incoming) == readData + socket.incoming
    ensures socket.outgoing == old(socket.outgoing) + readData
    ensures StoppedAtNul(old(socket.chunks), socket.chunks)
    ensures EndsInNul(readData) || socket.incoming == ""
    ensures OneNul(old(socket.incoming)) ==> readData == old(socket.incoming)
  {
    readData := ReadToNul(socket, CHUNK);
    var totalBytesSent := 0;
    while totalBytesSent < |readData|
      invariant totalBytesSent <= |readData|
      invariant socket.outgoing == old(socket.outgoing) + readData[..totalBytesSent]
      modifies socket`outgoing, socket`offered
    {
      var bytesSent := socket.Write(readData[totalBytesSent..]);
      WriteSlice(old(socket.outgoing), readData, totalBytesSent, bytesSent, readData[totalBytesSent..]);
      totalBytesSent := totalBytesSent + bytesSent;
    }
  }
}
