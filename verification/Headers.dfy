/** The reply header of a fetch, as the server prints it and as the client parses it. */
module Headers {

  import opened Framing
  import opened Numerals
  import opened FileClient
  import FS = FileServer
  import opened Sessions
  import opened Wrappers

  /** The text the client finds before the terminator of an OK reply. */
  function OkText(size: nat): string {
    "OK" + CRLF + "Size: " + Decimal(size)
  }

  function NotFoundText(name: string): string {
    "NOT_FOUND " + name
  }

  lemma {:induction false} IndexOfAfter(before: string, c: char, after: string)
    requires c !in before
    ensures IndexOf(before + [c] + after, c) == |before|
  {
    if before != "" {
      assert (before + [c] + after)[1..] == before[1..] + [c] + after;
      IndexOfAfter(before[1..], c, after);
    }
  }

  /** The OK header has no terminator inside, whatever follows it. */
  lemma OkTextCarried(size: nat)
    ensures Carried(OkText(size))
  {
    DecimalDigits(size);
    var text := OkText(size);
    forall k | 0 <= k < |text| ensures !TerminatorAt(text + TERMINATOR, k) && text[k] != '\0' {
    }
  }

  /** The client reads back exactly the number the server printed. */
  lemma OkTextParses(size: nat)
    ensures ParseHeader(OkText(size))
            == Accepted(if size <= 0x7fff_ffff_ffff_ffff then size else 0x7fff_ffff_ffff_ffff)
  {
    var text := OkText(size);
    var line := "Size: " + Decimal(size);
    assert text == "OK" + ['\r'] + ("\n" + line);
    IndexOfAfter("OK", '\r', "\n" + line);
    assert text[..2] == "OK";
    assert text[4..] == line;
    assert line == "Size" + [':'] + (" " + Decimal(size));
    IndexOfAfter("Size", ':', " " + Decimal(size));
    DecimalRoundTrip(size);
  }

  lemma TokenEnds(token: string, tail: string)
    requires '\r' !in token && (tail == "" || tail[0] == '\r')
    ensures IndexOf(token + tail, '\r') == |token| && (token + tail)[..|token|] == token
    ensures |tail| >= 2 ==> (token + tail)[|token| + 2..] == tail[2..]
  {
    if tail == "" {
      assert token + tail == token;
      assert IndexOf(token, '\r') == |token|;
    } else {
      assert token + tail == token + ['\r'] + tail[1..];
      IndexOfAfter(token, '\r', tail[1..]);
    }
  }

  /** The client's parse of every other header: the bare token, anything else that is not OK,
      and an OK without a second line or without a number in it. */
  lemma HeaderForms(token: string, tail: string)
    requires '\r' !in token && (tail == "" || tail[0] == '\r')
    ensures token == "NOT_FOUND" ==> ParseHeader(token + tail) == NotFound
    ensures token != "NOT_FOUND" && token != "OK" ==> ParseHeader(token + tail) == Unrecognised
    ensures token == "OK" && |tail| < 2 ==> ParseHeader(token + tail) == Malformed
  {
    TokenEnds(token, tail);
  }

  lemma OkParses(text: string, tail: string)
    requires text == "OK" + tail && |tail| >= 2 && tail[0] == '\r'
    ensures var line := tail[2..];
            var colon := IndexOf(line, ':');
            ParseHeader(text)
            == if colon + 2 > |line| then Malformed else Accepted(ParseUnsignedLong(line[colon + 2..]))
  {
    TokenEnds("OK", tail);
  }

  /** With an OK and a second line, the number is what stands two octets behind the first
      colon of that line. */
  lemma OkForms(tail: string, key: string, after: string)
    requires |tail| >= 2 && tail[0] == '\r' && ':' !in key
    ensures tail[2..] == key ==> ParseHeader("OK" + tail) == Malformed
    ensures tail[2..] == key + [':'] + after ==>
              ParseHeader("OK" + tail)
              == if after == "" then Malformed else Accepted(ParseUnsignedLong(after[1..]))
  {
    OkParses("OK" + tail, tail);
    IndexOfAfter(key, ':', after);
    if tail[2..] == key {
      assert IndexOf(key, ':') == |key|;
    }
    if tail[2..] == key + [':'] + after && after != "" {
      assert tail[2..][|key| + 2..] == after[1..];
    }
  }

  /** A missing-file reply always carries the name, so it is never the bare token. */
  lemma NotFoundTextParses(name: string)
    requires ValidName(name)
    ensures Carried(NotFoundText(name))
    ensures ParseHeader(NotFoundText(name)) == Unrecognised
  {
    PlainTextIsFramed(NotFoundText(name));
  }

  /** The header lines of an OK reply amount to the OK text and its terminator. */
  lemma OkLines(host: FS.Host, name: string, content: string)
    requires FS.Requested(host, name) == Some(content)
    ensures FS.Concat(FS.ReplyLines(host, FS.Get(name)))
            == OkText(|content| % FS.TWO_32) + TERMINATOR
  {
    FS.ConcatThree("OK" + CRLF, FS.SizeLine(|content|), CRLF);
  }

  lemma NotFoundLines(host: FS.Host, name: string)
    requires FS.Requested(host, name) == None
    ensures FS.Concat(FS.ReplyLines(host, FS.Get(name))) == NotFoundText(name) + TERMINATOR
  {
  }

  lemma FoundRoundTrip(host: FS.Host, name: string, content: string)
    requires FS.Requested(host, name) == Some(content)
    ensures var size := |content| % 0x1_0000_0000;
            && Received(FS.Reply(host, FS.Get(name))) == (OkText(size), content)
            && ParseHeader(OkText(size)) == Accepted(size)
  {
    var size := |content| % FS.TWO_32;
    OkLines(host, name, content);
    OkTextCarried(size);
    OkTextParses(size);
    ReceivedFramed(OkText(size), content);
  }

  lemma MissingRoundTrip(host: FS.Host, name: string)
    requires ValidName(name) && FS.Requested(host, name) == None
    ensures Received(FS.Reply(host, FS.Get(name))) == (NotFoundText(name), "")
  {
    NotFoundLines(host, name);
    NotFoundTextParses(name);
    ReceivedFramed(NotFoundText(name), "");
  }

  lemma OkTextIs(size: nat)
    ensures OkText(size) == "OK\r\nSize: " + Decimal(size)
  {
    assert "OK" + CRLF + "Size: " == "OK\r\nSize: ";
  }

  /** Scanning the reply to a valid GET stops exactly at the end of the header and gives
      back the true size modulo 2^32, whatever the file contains: even CR LF sequences at
      its head stay unread. */
  lemma HeaderRoundTrip(host: FS.Host, name: string)
    requires ValidName(name)
    ensures var path := host.baseDir + name;
            if path in host.files then
              var content := host.files[path];
              var (text, unread) := Received(FS.Reply(host, FS.Get(name)));
              && text == "OK\r\nSize: " + Decimal(|content| % 0x1_0000_0000) && unread == content
              && ParseHeader(text) == Accepted(|content| % 0x1_0000_0000)
            else
              && Received(FS.Reply(host, FS.Get(name))) == ("NOT_FOUND " + name, "")
              && ParseHeader("NOT_FOUND " + name) == Unrecognised
  {
    match FS.Requested(host, name)
    case Some(content) =>
      FoundRoundTrip(host, name, content);
      OkTextIs(|content| % 0x1_0000_0000);
    case None =>
      MissingRoundTrip(host, name);
      NotFoundTextParses(name);
  }
}
