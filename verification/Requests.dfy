/** What the server makes of every form of request, in the octets received and sent. */
module Requests {

  import opened Framing
  import opened FileServer
  import opened Numerals
  import opened Sequences
  import opened Sessions
  import opened Wrappers

  // ---------------------------------------------------------------- words

  /** What may follow a word: nothing, or a blank and anything at all. */
  predicate AfterWord(more: string) { more == "" || more[0] in BLANKS }

  lemma {:induction false} BlanksSkipped(blanks: string, s: string)
    requires IsBlank(blanks)
    ensures SkipDelimiters(blanks + s) == SkipDelimiters(s)
  {
    if blanks == "" {
      assert blanks + s == s;
    } else {
      assert (blanks + s)[0] == blanks[0] && blanks[0] in blanks && (blanks + s)[1..] == blanks[1..] + s;
      BlanksSkipped(blanks[1..], s);
    }
  }

  /** The first word of a text is its first token, whatever blanks stand before it. */
  lemma WordIsToken(blanks: string, word: string, more: string)
    requires IsBlank(blanks) && IsWord(word) && AfterWord(more)
    ensures NextToken(blanks + word + more) == Some((word, if more == "" then "" else more[1..]))
  {
    assert blanks + word + more == blanks + (word + more);
    BlanksSkipped(blanks, word + more);
    assert (word + more)[0] == word[0] && word[0] in word;
    FirstToken(word, more);
  }

  lemma BlankHasNoToken(blanks: string)
    requires IsBlank(blanks)
    ensures NextToken(blanks) == None
  {
    BlanksSkipped(blanks, "");
    assert blanks + "" == blanks;
  }

  // ---------------------------------------------------------------- commands

  /** The first word decides: LIST and QUIT whatever follows them, and any word that is not
      a method is an unknown one. */
  lemma MethodParses(blanks: string, word: string, more: string)
    requires IsBlank(blanks) && IsWord(word) && AfterWord(more) && word != "GET"
    ensures Parse(blanks + word + more)
            == if word == "LIST" then List else if word == "QUIT" then Quit else Unknown
  {
    WordIsToken(blanks, word, more);
  }

  /** GET takes the second word, whatever separates the two and whatever follows. */
  lemma NamedGetParses(blanks: string, gap: string, name: string, more: string)
    requires IsBlank(blanks) && IsBlank(gap) && gap != "" && IsWord(name) && AfterWord(more)
    ensures Parse(blanks + "GET" + gap + name + more) == Get(name)
  {
    var rest := gap + name + more;
    assert gap[0] in gap && rest[0] == gap[0];
    assert blanks + "GET" + gap + name + more == blanks + "GET" + rest;
    WordIsToken(blanks, "GET", rest);
    assert rest[1..] == gap[1..] + name + more;
    WordIsToken(gap[1..], name, more);
  }

  lemma NamelessGetParses(blanks: string, gap: string)
    requires IsBlank(blanks) && IsBlank(gap)
    ensures Parse(blanks + "GET" + gap) == GetNothing
  {
    WordIsToken(blanks, "GET", gap);
    BlankHasNoToken(if gap == "" then "" else gap[1..]);
  }

  lemma BlankParses(blanks: string)
    requires IsBlank(blanks)
    ensures Parse(blanks) == NoToken
  {
    BlankHasNoToken(blanks);
  }

  // ---------------------------------------------------------------- sessions

  /** A session that sends `reply` and goes on with `rest`. */
  predicate Answered(host: Host, text: string, rest: string, reply: string) {
    var later := Serve(host, rest);
    Serve(host, text + "\r\n\r\n" + rest) == Session(reply + later.output, later.unread, later.end)
  }

  lemma CommandServed(host: Host, text: string, rest: string)
    requires Carried(text)
    ensures match Parse(text)
            case Quit => Serve(host, text + "\r\n\r\n" + rest) == Session("", rest, ByQuit)
            case NoToken => Serve(host, text + "\r\n\r\n" + rest) == Session("", rest, ByNullToken)
            case _ => Answered(host, text, rest, Reply(host, Parse(text)))
  {
    assert TERMINATOR == "\r\n\r\n";
    ReceivedFramed(text, rest);
  }

  lemma ThenQuit(host: Host, text: string, quit: string)
    requires Carried(text) && !Ends(Parse(text)) && Carried(quit) && Parse(quit) == Quit
    ensures Serve(host, text + "\r\n\r\n" + (quit + "\r\n\r\n")) == Session(Reply(host, Parse(text)), "", ByQuit)
  {
    CommandServed(host, text, quit + "\r\n\r\n");
    CommandServed(host, quit, "");
    assert quit + "\r\n\r\n" + "" == quit + "\r\n\r\n";
  }

  lemma FetchText(name: string)
    ensures GetText(name) + "\r\n\r\n" + (QUIT_TEXT + "\r\n\r\n") == "GET " + name + "\r\n\r\nQUIT\r\n\r\n"
  {
  }

  /** What a fetching client sends, and what the server makes of it. */
  lemma FetchServed(host: Host, name: string)
    requires ValidName(name)
    ensures Serve(host, "GET " + name + "\r\n\r\nQUIT\r\n\r\n") == Session(Reply(host, Get(name)), "", ByQuit)
  {
    GetParses(name);
    WordParses(QUIT_TEXT);
    ThenQuit(host, GetText(name), QUIT_TEXT);
    FetchText(name);
  }

  /** An unknown method is answered and the session goes on. */
  lemma UnknownIsAnswered(host: Host, blanks: string, word: string, more: string, rest: string)
    requires IsBlank(blanks) && IsWord(word) && AfterWord(more) && word != "GET" && word != "LIST" && word != "QUIT"
    requires Carried(blanks + word + more)
    ensures Answered(host, blanks + word + more, rest, "UNKOWN METHOD\r\n\r\n")
  {
    MethodParses(blanks, word, more);
    CommandServed(host, blanks + word + more, rest);
    FixedReplies(host);
  }

  /** GET without a name is answered with an error and the session goes on. */
  lemma NamelessGetIsAnswered(host: Host, blanks: string, gap: string, rest: string)
    requires IsBlank(blanks) && IsBlank(gap) && Carried(blanks + "GET" + gap)
    ensures Answered(host, blanks + "GET" + gap, rest, "ERROR ( Missing FileName )\r\n\r\n")
  {
    NamelessGetParses(blanks, gap);
    CommandServed(host, blanks + "GET" + gap, rest);
    FixedReplies(host);
  }

  /** GET is answered with the file in the base directory or with the name. */
  lemma NamedGetIsAnswered(host: Host, blanks: string, gap: string, name: string, more: string, rest: string)
    requires IsBlank(blanks) && IsBlank(gap) && gap != "" && IsWord(name) && AfterWord(more)
    requires Carried(blanks + "GET" + gap + name + more)
    ensures Answered(host, blanks + "GET" + gap + name + more, rest, FileReply(host, name))
  {
    NamedGetParses(blanks, gap, name, more);
    CommandServed(host, blanks + "GET" + gap + name + more, rest);
    GetReply(host, name);
  }

  /** LIST is answered with the entries, a line each, and a blank line, or with an error. */
  lemma ListIsAnswered(host: Host, blanks: string, more: string, rest: string)
    requires IsBlank(blanks) && AfterWord(more) && Carried(blanks + "LIST" + more)
    ensures match host.entries
            case None =>
              Answered(host, blanks + "LIST" + more, rest, "INTENRAL ERROR ( Can't open directory)\r\n\r\n")
            case Some(entries) =>
              Answered(host, blanks + "LIST" + more, rest, Concat(WithCrlf(Visible(entries))) + "\r\n")
  {
    MethodParses(blanks, "LIST", more);
    CommandServed(host, blanks + "LIST" + more, rest);
    match host.entries
    case None => FixedReplies(host);
    case Some(entries) => ConcatAppend(WithCrlf(Visible(entries)), CRLF);
  }

  /** QUIT ends the session in order, a blank request on the null token; neither is
      answered, and nothing behind them is read. */
  lemma SessionEnds(host: Host, blanks: string, more: string, rest: string)
    requires IsBlank(blanks) && AfterWord(more)
    ensures Carried(blanks + "QUIT" + more) ==>
              Serve(host, blanks + "QUIT" + more + "\r\n\r\n" + rest) == Session("", rest, ByQuit)
    ensures Carried(blanks) ==> Serve(host, blanks + "\r\n\r\n" + rest) == Session("", rest, ByNullToken)
  {
    MethodParses(blanks, "QUIT", more);
    BlankParses(blanks);
    if Carried(blanks + "QUIT" + more) {
      CommandServed(host, blanks + "QUIT" + more, rest);
    }
    if Carried(blanks) {
      CommandServed(host, blanks, rest);
    }
  }

  /** End of file ends a request like a terminator: what was read of it is obeyed. */
  lemma UnterminatedIsObeyed(host: Host, text: string)
    requires NoTerminator(text) && '\0' !in text
    ensures match Parse(text)
            case Quit => Serve(host, text) == Session("", "", ByQuit)
            case NoToken => Serve(host, text) == Session("", "", ByNullToken)
            case _ => Serve(host, text) == Session(Reply(host, Parse(text)), "", ByNullToken)
  {
    AllIsRead(text);
    BlankParses("");
    AllIsRead("");
    assert Serve(host, "") == Session("", "", ByNullToken);
    assert Reply(host, Parse(text)) + "" == Reply(host, Parse(text));
  }
}
