/** The framing both ends of the file-transfer protocol use: text read one octet at a
    time into a growing C string until the string ends in CR LF CR LF. */
module Framing {

  const CRLF := "\r\n"
  const TERMINATOR := "\r\n\r\n"

  /** The four characters of the terminator stand in `s` from index `k` on. */
  predicate TerminatorAt(s: string, k: int) {
    0 <= k <= |s| - 4 && s[k] == '\r' && s[k + 1] == '\n' && s[k + 2] == '\r' && s[k + 3] == '\n'
  }

  /** The test on the last four characters, which is false for shorter strings. */
  predicate EndsWithTerminator(s: string) {
    TerminatorAt(s, |s| - 4)
  }

  /** `strncat(s, &octet, 1)`: a NUL octet appends nothing. */
  function Append(s: string, octet: char): string {
    if octet == '\0' then s else s + [octet]
  }

  /** Outcome of the read loop: the text before the terminator and the octets not
      read, or the text gathered when the stream ended first. */
  datatype Scan = Complete(text: string, rest: string) | Incomplete(text: string)

  /** The read loop, `text` being the string gathered so far. */
  function ScanFrom(text: string, input: string): Scan
    decreases |input|
  {
    if input == "" then
      Incomplete(text)
    else
      var grown := Append(text, input[0]);
      if EndsWithTerminator(grown) then
        Complete(grown[..|grown| - 4], input[1..])
      else
        ScanFrom(grown, input[1..])
  }

  function StripNul(s: string): string {
    if s == "" then "" else Append(StripNul(s[..|s| - 1]), s[|s| - 1])
  }

  /** The terminator written after `text` is the first one a reader meets. */
  ghost predicate FirstTerminator(text: string) {
    forall k :: 0 <= k < |text| ==> !TerminatorAt(text + TERMINATOR, k)
  }

  /** Text that reaches a reader unchanged when a terminator follows it. */
  ghost predicate Carried(text: string) {
    FirstTerminator(text) && '\0' !in text
  }

  /** No terminator occurs in `s`. */
  ghost predicate NoTerminator(s: string) {
    forall k :: !TerminatorAt(s, k)
  }

  /** The test on four characters is the comparison with the terminator. */
  lemma TerminatorIs(s: string, k: nat)
    requires k + 4 <= |s|
    ensures TerminatorAt(s, k) <==> s[k..k + 4] == "\r\n\r\n"
  {
    var four := s[k..k + 4];
    assert four[0] == s[k] && four[1] == s[k + 1] && four[2] == s[k + 2] && four[3] == s[k + 3];
  }

  /** A proper prefix of a framed text never looks complete; the whole always does. */
  lemma PrefixEnds(text: string, k: nat)
    requires FirstTerminator(text) && k <= |text| + 4
    ensures EndsWithTerminator((text + TERMINATOR)[..k]) <==> k == |text| + 4
  {
    var whole := text + TERMINATOR;
    assert TerminatorAt(whole[..k], k - 4) <==> k >= 4 && TerminatorAt(whole, k - 4);
  }

  lemma {:induction false} ScanResumes(text: string, k: nat, rest: string)
    requires Carried(text) && k < |text| + 4
    ensures ScanFrom((text + TERMINATOR)[..k], (text + TERMINATOR)[k..] + rest) == Complete(text, rest)
    decreases |text| + 4 - k
  {
    var whole := text + TERMINATOR;
    var input := whole[k..] + rest;
    assert input[0] == whole[k] && input[1..] == whole[k + 1..] + rest;
    assert Append(whole[..k], whole[k]) == whole[..k + 1];
    PrefixEnds(text, k + 1);
    if k + 1 < |text| + 4 {
      ScanResumes(text, k + 1, rest);
    }
  }

  /** A framed text followed by anything is recovered exactly, and nothing after its
      terminator is consumed. */
  lemma ScanFramed(text: string, rest: string)
    requires Carried(text)
    ensures ScanFrom("", text + TERMINATOR + rest) == Complete(text, rest)
  {
    ScanResumes(text, 0, rest);
  }

  /** Appending one octet to terminator-free text either completes a first terminator
      or leaves the text terminator-free. */
  lemma GrowNoTerminator(text: string, octet: char)
    requires NoTerminator(text)
    ensures var grown := Append(text, octet);
            if EndsWithTerminator(grown)
            then octet != '\0' && FirstTerminator(grown[..|grown| - 4])
                 && grown == grown[..|grown| - 4] + TERMINATOR
            else NoTerminator(grown)
  {
    var grown := Append(text, octet);
    assert forall k :: TerminatorAt(grown, k) && k < |grown| - 4 ==> TerminatorAt(text, k);
    if EndsWithTerminator(grown) {
      assert grown == grown[..|grown| - 4] + TERMINATOR;
    }
  }

  /** What the read loop may return on `input`, `read` being the octets read before. */
  ghost predicate ScanResult(read: string, input: string, result: Scan) {
    match result
    case Complete(found, rest) =>
      && |rest| < |input| && rest == input[|input| - |rest|..]
      && FirstTerminator(found)
      && StripNul(read + input[..|input| - |rest|]) == found + TERMINATOR
      && input[|input| - |rest| - 1] != '\0'
    case Incomplete(found) =>
      found == StripNul(read + input) && NoTerminator(found)
  }

  lemma ScanResultStep(read: string, input: string, result: Scan)
    requires input != "" && ScanResult(read + [input[0]], input[1..], result)
    ensures ScanResult(read, input, result)
  {
    match result
    case Complete(_, rest) =>
      var n := |input| - |rest|;
      assert read + [input[0]] + input[1..][..n - 1] == read + input[..n];
    case Incomplete(_) =>
      assert read + [input[0]] + input[1..] == read + input;
  }

  lemma {:induction false} ScanFromSound(read: string, input: string)
    requires NoTerminator(StripNul(read))
    ensures ScanResult(read, input, ScanFrom(StripNul(read), input))
    decreases |input|
  {
    var text := StripNul(read);
    if input == "" {
      assert read + input == read;
    } else {
      var grown := Append(text, input[0]);
      GrowNoTerminator(text, input[0]);
      if !EndsWithTerminator(grown) {
        ScanFromSound(read + [input[0]], input[1..]);
        ScanResultStep(read, input, ScanFrom(text, input));
      }
    }
  }

  lemma {:induction false} NoNulToStrip(s: string)
    ensures '\0' !in StripNul(s)
    ensures '\0' !in s ==> StripNul(s) == s
  {
    if s != "" {
      NoNulToStrip(s[..|s| - 1]);
      assert s == s[..|s| - 1] + [s[|s| - 1]];
    }
  }

  lemma NoNulFound(read: string, input: string, result: Scan)
    requires ScanResult(read, input, result)
    ensures '\0' !in result.text
  {
    match result
    case Complete(found, rest) =>
      NoNulToStrip(read + input[..|input| - |rest|]);
      assert forall c :: c in found ==> c in found + TERMINATOR;
    case Incomplete(_) => NoNulToStrip(read + input);
  }

  /** On any stream at all the loop stops at the first terminator of the NUL-free text
      and consumes nothing after it, or takes the whole stream if there is none. */
  lemma ScanSound(input: string)
    ensures ScanResult("", input, ScanFrom("", input))
    ensures '\0' !in ScanFrom("", input).text
  {
    ScanFromSound("", input);
    NoNulFound("", input, ScanFrom("", input));
  }

  /** What the read loop leaves its caller, terminator seen or not: the text, and the
      octets not read. */
  function Received(input: string): (r: (string, string))
    ensures r.0 != "" ==> |r.1| < |input|
  {
    ScanSound(input);
    match ScanFrom("", input)
    case Complete(text, rest) => (text, rest)
    case Incomplete(text) => (text, "")
  }

  /** Dropping the NULs octet by octet keeps everything else where it is. */
  lemma {:induction false} StripNulParts(before: string, octet: char, after: string)
    ensures StripNul(before + [octet] + after)
            == StripNul(before) + (if octet == '\0' then "" else [octet]) + StripNul(after)
    decreases |after|
  {
    var whole := before + [octet] + after;
    if after == "" {
      assert whole[..|whole| - 1] == before;
    } else {
      assert whole[..|whole| - 1] == before + [octet] + after[..|after| - 1];
      StripNulParts(before, octet, after[..|after| - 1]);
    }
  }

  lemma HeldTerminator(text: string, n: nat, found: string)
    requires n <= |text| && text[..n] == found + TERMINATOR
    ensures TerminatorAt(text, |found|)
  {
    var read := text[..n];
    assert TerminatorAt(read, |found|);
  }

  /** Text that holds no terminator and no NUL is read to the end of the stream. */
  lemma AllIsRead(text: string)
    requires NoTerminator(text) && '\0' !in text
    ensures ScanFrom("", text) == Incomplete(text) && Received(text) == (text, "")
  {
    ScanSound(text);
    NoNulToStrip(text);
    match ScanFrom("", text)
    case Incomplete(found) => assert "" + text == text;
    case Complete(found, rest) =>
      var read := text[..|text| - |rest|];
      assert "" + read == read;
      NoNulToStrip(read);
      HeldTerminator(text, |read|, found);
  }

  lemma ReceivedFramed(text: string, rest: string)
    requires Carried(text)
    ensures Received(text + TERMINATOR + rest) == (text, rest)
  {
    ScanFramed(text, rest);
  }

  /** Text without a carriage return is framed by the terminator that follows it. */
  lemma PlainTextIsFramed(text: string)
    requires '\r' !in text
    ensures FirstTerminator(text)
  {
  }
}
