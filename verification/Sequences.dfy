/** Facts about cutting and joining strings. */
module Sequences {

  lemma Associates<T>(a: seq<T>, b: seq<T>, c: seq<T>)
    ensures a + (b + c) == (a + b) + c
  {
  }

  /** Writing the next `n` octets of `line` extends what a reader has and will have. */
  lemma WriteExtends(read: string, channel: string, line: string, sent: nat, n: nat)
    requires sent + n <= |line| && read + channel == line[..sent]
    ensures read + (channel + line[sent..sent + n]) == line[..sent + n]
  {
  }

  /** Moving octets from the head of one buffer to the tail of another keeps the join. */
  lemma MoveKeeps(before: string, from: string, n: nat, after: string)
    requires n <= |from|
    ensures (before + from[..n]) + from[n..] + after == before + from + after
  {
  }

  lemma SliceMoveKeeps(before: string, from: string, i: nat, n: nat, after: string)
    requires i + n <= |from|
    ensures (before + from[i..i + n]) + (from[i + n..] + after) == before + (from[i..] + after)
  {
  }

  /** The head of `read + channel + rest` is the head of what it equals. */
  lemma NextOctet(read: string, channel: string, rest: string, whole: string, more: string)
    requires read + channel + rest == whole + more && channel != "" && |read| < |whole|
    ensures read == whole[..|read|] && channel[0] == whole[|read|]
    ensures read + [channel[0]] == whole[..|read| + 1]
  {
    var all := read + channel + rest;
    assert read == all[..|read|] == whole[..|read|];
    assert all[|read|] == channel[0];
  }

  /** The next octet read of a line of which `upTo` octets have been written. */
  lemma NextOfLine(read: string, channel: string, line: string, upTo: nat)
    requires upTo <= |line| && read + channel == line[..upTo] && channel != ""
    ensures |read| < upTo && read + [channel[0]] == line[..|read| + 1]
    ensures |read| + 1 == |line| ==> upTo == |line| && channel[1..] == ""
    ensures read + channel == (read + [channel[0]]) + channel[1..]
  {
    var written := line[..upTo];
    NextOctet(read, channel, "", written, "");
    assert |read + channel| == upTo;
    assert written[..|read| + 1] == line[..|read| + 1];
    assert channel == [channel[0]] + channel[1..];
  }

  /** Dropping a shared head leaves equal tails. */
  lemma TailsEqual(whole: string, rest: string, more: string)
    requires whole + rest == whole + more
    ensures rest == more
  {
    assert rest == (whole + rest)[|whole|..];
  }
}
