/** LIST: the reply the server sends and what the client makes of it. */
module Listing {

  import opened Framing
  import opened FileServer
  import opened Sessions
  import opened Wrappers

  /** A directory entry that is one line of text. */
  predicate ValidEntry(name: string) {
    name != "" && forall i :: 0 <= i < |name| ==> name[i] != '\0' && name[i] != '\r' && name[i] != '\n'
  }

  predicate ValidEntries(names: seq<string>) {
    forall i :: 0 <= i < |names| ==> ValidEntry(names[i])
  }

  /** The names with CR LF between them. */
  function Join(names: seq<string>): string
    requires names != []
  {
    if |names| == 1 then names[0] else names[0] + CRLF + Join(names[1..])
  }

  /** The lines of a text that uses CR LF between lines. */
  function Lines(text: string, line: string): seq<string>
    decreases |text|
  {
    if text == "" then [line]
    else if |text| >= 2 && text[..2] == CRLF then [line] + Lines(text[2..], "")
    else Lines(text[1..], line + [text[0]])
  }

  lemma {:induction false} ListingJoins(names: seq<string>)
    requires names != []
    ensures Concat(WithCrlf(names)) + CRLF == Join(names) + TERMINATOR
  {
    var lines := WithCrlf(names);
    assert CRLF + CRLF == TERMINATOR;
    if |names| > 1 {
      ListingJoins(names[1..]);
      assert names[0] + CRLF + Concat(lines[1..]) + CRLF == names[0] + CRLF + (Concat(lines[1..]) + CRLF);
    }
  }

  lemma {:induction false} JoinCarried(names: seq<string>)
    requires names != [] && ValidEntries(names)
    ensures Carried(Join(names)) && Join(names) != "" && Join(names)[0] != '\r'
  {
    var first := names[0];
    if |names| == 1 {
      PlainTextIsFramed(first);
    } else {
      var more := Join(names[1..]);
      JoinCarried(names[1..]);
      var whole := Join(names) + TERMINATOR;
      forall k | 0 <= k < |Join(names)| ensures !TerminatorAt(whole, k) && whole[k] != '\0' {
        if k < |first| {
          assert whole[k] == first[k];
        } else if k >= |first| + 2 {
          var j := k - |first| - 2;
          assert TerminatorAt(whole, k) <==> TerminatorAt(more + TERMINATOR, j);
        }
      }
    }
  }

  lemma {:induction false} LinesOfName(name: string, i: nat, rest: string)
    requires ValidEntry(name) && i <= |name|
    requires rest == "" || (|rest| >= 2 && rest[..2] == CRLF)
    ensures Lines(name[i..] + rest, name[..i]) == Lines(rest, name)
    decreases |name| - i
  {
    if i == |name| {
      assert name[i..] + rest == rest && name[..i] == name;
    } else {
      var text := name[i..] + rest;
      assert |text| >= 2 ==> text[..2][0] == name[i];
      assert text[1..] == name[i + 1..] + rest;
      assert name[..i] + [name[i]] == name[..i + 1];
      LinesOfName(name, i + 1, rest);
    }
  }

  /** Splitting the joined names gives the names back. */
  lemma {:induction false} LinesOfJoin(names: seq<string>)
    requires names != [] && ValidEntries(names)
    ensures Lines(Join(names), "") == names
  {
    var first := names[0];
    if |names| == 1 {
      LinesOfName(first, 0, "");
      assert first + "" == first;
    } else {
      var rest := CRLF + Join(names[1..]);
      LinesOfName(first, 0, rest);
      assert first + rest == Join(names);
      LinesOfJoin(names[1..]);
    }
  }

  lemma ListReply(host: Host, entries: seq<string>)
    requires host.entries == Some(entries)
    ensures Reply(host, List) == Concat(WithCrlf(Visible(entries))) + CRLF
  {
    ConcatAppend(WithCrlf(Visible(entries)), CRLF);
  }

  /** The reply to LIST on a directory that opens leaves the client with exactly the visible
      names joined in directory order, and nothing left over. The client prints the text as
      it is; that splitting it gives the names back says that none is lost or blurred. */
  lemma ListRoundTrip(host: Host, entries: seq<string>, rest: string)
    requires host.entries == Some(entries) && Visible(entries) != [] && ValidEntries(Visible(entries))
    ensures var (text, unread) := Received(Reply(host, List) + rest);
            && text == Join(Visible(entries)) && unread == rest && Lines(text, "") == Visible(entries)
            && forall e :: e in Lines(text, "") <==> e in entries && e != "." && e != ".."
  {
    var names := Visible(entries);
    ListReply(host, entries);
    ListingJoins(names);
    JoinCarried(names);
    ReceivedFramed(Join(names), rest);
    LinesOfJoin(names);
  }

  lemma EmptyListReply()
    ensures ScanFrom("", CRLF) == Incomplete(CRLF)
  {
  }

  /** The reply from an opened directory is read to its end with the names joined, if there
      is one, and otherwise leaves the reader with a CR LF, short of a terminator. */
  lemma ListingScanned(host: Host, entries: seq<string>)
    requires host.entries == Some(entries) && ValidEntries(Visible(entries))
    ensures ScanFrom("", Reply(host, List))
            == if Visible(entries) == [] then Incomplete(CRLF) else Complete(Join(Visible(entries)), "")
  {
    var names := Visible(entries);
    ListReply(host, entries);
    if names == [] {
      EmptyListReply();
    } else {
      ListingJoins(names);
      JoinCarried(names);
      ScanFramed(Join(names), "");
      assert Join(names) + TERMINATOR + "" == Join(names) + TERMINATOR;
    }
  }

  /** The client's stop test is met in the reply if and only if there is an entry to list. */
  lemma ListStopsIffNotEmpty(host: Host, entries: seq<string>)
    requires host.entries == Some(entries) && ValidEntries(Visible(entries))
    ensures ScanFrom("", Reply(host, List)).Complete? <==> Visible(entries) != []
  {
    ListingScanned(host, entries);
  }

  lemma ListEncoded()
    ensures Encode([LIST_TEXT]) == "LIST\r\n\r\n"
  {
  }

  /** A client that sends LIST and then closes, without QUIT, is answered and leaves the
      server calling `strcmp` on the null token. */
  lemma ListThenCloseEndsOnNullToken(host: Host)
    ensures Serve(host, "LIST\r\n\r\n") == Session(Reply(host, List), "", ByNullToken)
  {
    WordParses(LIST_TEXT);
    SessionToEndOfFile(host, [LIST_TEXT]);
    ListEncoded();
    assert Replies(host, [LIST_TEXT]) == Reply(host, List);
  }
}
