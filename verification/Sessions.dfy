/** What a client sends, and what a session of well-formed requests amounts to. */
module Sessions {

  import opened Framing
  import opened FileServer
  import opened Sequences
  import opened Wrappers

  /** Space, tab and backspace, which separate words. */
  const BLANKS := " \t\U{08}"

  predicate IsBlank(s: string) { forall c :: c in s ==> c in BLANKS }

  predicate IsWord(s: string) { s != "" && forall c :: c in s ==> c !in BLANKS }

  /** A file name the protocol can carry. */
  predicate ValidName(name: string) {
    IsWord(name) && forall c :: c in name ==> c != '\0' && c != '\r' && c != '\n'
  }

  /** The texts the two clients send. */
  function GetText(name: string): string { "GET " + name }

  const LIST_TEXT := "LIST"
  const QUIT_TEXT := "QUIT"

  function Encode(texts: seq<string>): string {
    if texts == [] then "" else texts[0] + TERMINATOR + Encode(texts[1..])
  }

  function Replies(host: Host, texts: seq<string>): string {
    if texts == [] then "" else Reply(host, Parse(texts[0])) + Replies(host, texts[1..])
  }

  // ---------------------------------------------------------------- parsing requests

  lemma {:induction false} TokenStops(word: string, more: string)
    requires forall c :: c in word ==> !IsDelimiter(c)
    requires more == "" || IsDelimiter(more[0])
    ensures TokenLength(word + more) == |word|
  {
    if word != "" {
      assert (word + more)[1..] == word[1..] + more;
      TokenStops(word[1..], more);
    }
  }

  /** A word free of delimiters is one token, and the scan goes on after the delimiter. */
  lemma FirstToken(word: string, more: string)
    requires word != "" && forall c :: c in word ==> !IsDelimiter(c)
    requires more == "" || IsDelimiter(more[0])
    ensures NextToken(word + more) == Some((word, if more == "" then "" else more[1..]))
  {
    TokenStops(word, more);
  }

  /** The clients' requests survive framing and are parsed as the commands they name. */
  lemma GetParses(name: string)
    requires ValidName(name)
    ensures Carried(GetText(name)) && Parse(GetText(name)) == Get(name)
  {
    PlainTextIsFramed(GetText(name));
    var more := " " + name;
    assert GetText(name) == "GET" + more;
    FirstToken("GET", more);
    assert more[1..] == name;
    FirstToken(name, "");
    assert name + "" == name;
  }

  lemma WordParses(word: string)
    requires word == "LIST" || word == "QUIT"
    ensures Carried(word) && Parse(word) == if word == "LIST" then List else Quit
  {
    PlainTextIsFramed(word);
    FirstToken(word, "");
    assert word + "" == word;
  }

  // ---------------------------------------------------------------- whole sessions

  lemma {:induction false} ServeRequests(host: Host, texts: seq<string>, rest: string)
    requires forall t :: t in texts ==> Carried(t) && !Ends(Parse(t))
    ensures var ahead := Serve(host, rest);
            Serve(host, Encode(texts) + rest)
            == Session(Replies(host, texts) + ahead.output, ahead.unread, ahead.end)
  {
    if texts == [] {
      assert Encode(texts) + rest == rest;
    } else {
      var later := Encode(texts[1..]) + rest;
      assert Encode(texts) + rest == texts[0] + TERMINATOR + later;
      ReceivedFramed(texts[0], later);
      ServeRequests(host, texts[1..], rest);
      Associates(Reply(host, Parse(texts[0])), Replies(host, texts[1..]), Serve(host, rest).output);
    }
  }

  /** A session that reaches QUIT sends the replies to the requests before it, in order,
      and consumes nothing after QUIT's terminator. */
  lemma SessionToQuit(host: Host, texts: seq<string>, quit: string, tail: string)
    requires forall t :: t in texts ==> Carried(t) && !Ends(Parse(t))
    requires Carried(quit) && Parse(quit) == Quit
    ensures Serve(host, Encode(texts) + (quit + TERMINATOR + tail))
            == Session(Replies(host, texts), tail, ByQuit)
  {
    ServeRequests(host, texts, quit + TERMINATOR + tail);
    ReceivedFramed(quit, tail);
  }

  /** A client that closes without QUIT, after whole requests, leaves the server calling
      `strcmp` on the null token. */
  lemma SessionToEndOfFile(host: Host, texts: seq<string>)
    requires forall t :: t in texts ==> Carried(t) && !Ends(Parse(t))
    ensures Serve(host, Encode(texts)) == Session(Replies(host, texts), "", ByNullToken)
  {
    ServeRequests(host, texts, "");
    assert Encode(texts) + "" == Encode(texts);
    assert Received("") == ("", "");
  }
}
