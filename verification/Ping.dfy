/** The TCP echo ping (tcp_ping/ping.c): sender, echo server and the two bounded channels
    between them, interleaved in any order. Both sides stop reading when a chunk ends in
    NUL. */
module Ping {

  import opened Wrappers

  const CHUNK: nat := 1024
  const NUL := '\0'

  /** The message size in KB and the room in each channel. */
  datatype Setup = Setup(msgSize: nat, upRoom: nat, downRoom: nat)

  /** `u_int` multiplication of the size in KB. */
  function RealSize(msgSize: nat): nat { msgSize * 1024 % 0x1_0000_0000 }

  predicate WellFormed(c: Setup) {
    RealSize(c.msgSize) > 0 && c.upRoom > 0 && c.downRoom > 0
  }

  lemma RealSizeIsKilobytes(msgSize: nat)
    ensures RealSize(msgSize) == msgSize % 0x40_0000 * 1024
  {
  }

  // ---------------------------------------------------------------- the message

  function Letter(i: nat): (r: char)
    ensures r != NUL
  {
    (i % 26 + 65) as char
  }

  function Letters(n: nat): (s: string)
    ensures |s| == n && NUL !in s
  {
    seq(n, i requires i >= 0 => Letter(i))
  }

  /** `bufferSend` once filled: the letters and the two octets `calloc` left clear. */
  function SendBuffer(realsize: nat): (s: string)
    requires realsize > 0
    ensures |s| == realsize + 1
  {
    Letters(realsize - 1) + [NUL, NUL]
  }

  /** `strlen`. */
  function Strlen(s: string): (n: nat)
    requires NUL in s
    ensures n < |s| && s[n] == NUL && NUL !in s[..n]
  {
    if s[0] == NUL then 0
    else
      var n := Strlen(s[1..]);
      assert s[..n + 1] == [s[0]] + s[1..][..n];
      1 + n
  }

  /** The message with its terminator, `realsize` octets. */
  function Message(c: Setup): (s: string)
    requires WellFormed(c)
    ensures |s| == RealSize(c.msgSize) && |s| >= 1024
  {
    RealSizeIsKilobytes(c.msgSize);
    Letters(RealSize(c.msgSize) - 1) + [NUL]
  }

  lemma AlphabetAt(k: nat)
    requires k < 26
    ensures (k + 65) as char == "ABCDEFGHIJKLMNOPQRSTUVWXYZ"[k]
  {
  }

  /** What the code computes with is the message: its octets and its `strlen`. */
  lemma BufferHoldsMessage(c: Setup)
    requires WellFormed(c)
    ensures var n := c.msgSize * 1024 % 0x1_0000_0000;
            && Message(c) == SendBuffer(n)[..n] && Strlen(SendBuffer(n)) == n - 1
            && Message(c)[n - 1] == '\0'
            && forall i :: 0 <= i < n - 1 ==> Message(c)[i] == "ABCDEFGHIJKLMNOPQRSTUVWXYZ"[i % 26] != '\0'
  {
    forall i: nat ensures Letter(i) == "ABCDEFGHIJKLMNOPQRSTUVWXYZ"[i % 26] {
      AlphabetAt(i % 26);
    }
  }

  // ---------------------------------------------------------------- the two programs

  /** `pingSend`: `total` is `totalBytes`, `received` what is in `bufferRecv` so far. */
  datatype Client =
    | Sending(total: nat)
    | Receiving(total: nat, received: string)
    | Returned(total: nat, received: string, ok: bool)

  /** `PingListen`. */
  datatype Server =
    | Listening(data: string)
    | Echoing(data: string, sent: nat)
    | Done(data: string)

  datatype State = State(client: Client, server: Server, up: string, down: string)

  datatype Action =
    | ClientSend(n: nat)
    | ClientRead(n: nat)
    | ClientEof
    | ServerRead(n: nat)
    | ServerEof
    | ServerSend(n: nat)

  function Init(): State { State(Sending(0), Listening(""), "", "") }

  predicate EndsInNul(s: string) { s != "" && s[|s| - 1] == NUL }

  function Padded(s: string, n: nat): string {
    if |s| >= n then s[..n] else s + seq(n - |s|, _ => NUL)
  }

  /** The comparison at the end of `pingSend`. */
  function Compare(c: Setup, total: nat, received: string): Client
    requires WellFormed(c)
  {
    Returned(total, received, Padded(received, |Message(c)|) == Message(c))
  }

  function EchoLoop(data: string, sent: nat): Server {
    if sent < |data| then Echoing(data, sent) else Done(data)
  }

  function NextClientSend(c: Setup, s: State, n: nat): Option<State>
    requires WellFormed(c)
  {
    var strlen := |Message(c)| - 1;
    if s.client.Sending? && s.client.total < strlen
       && 1 <= n <= strlen - s.client.total + 1 && |s.up| + n <= c.upRoom then
      var total := s.client.total + n;
      Some(s.(up := s.up + Message(c)[s.client.total..total],
              client := if total < strlen then Sending(total) else Receiving(total, "")))
    else None
  }

  function NextClientRead(c: Setup, s: State, n: nat): Option<State>
    requires WellFormed(c)
  {
    if s.client.Receiving? && 1 <= n <= |s.down| && n <= |Message(c)| then
      var received := s.client.received + s.down[..n];
      Some(s.(down := s.down[n..],
              client := if EndsInNul(received) then Compare(c, s.client.total, received)
                        else Receiving(s.client.total, received)))
    else None
  }

  function NextServerRead(s: State, n: nat): Option<State> {
    if s.server.Listening? && 1 <= n <= |s.up| && n <= CHUNK then
      var data := s.server.data + s.up[..n];
      Some(s.(up := s.up[n..], server := if EndsInNul(data) then EchoLoop(data, 0) else Listening(data)))
    else None
  }

  function NextServerSend(c: Setup, s: State, n: nat): Option<State> {
    match s.server
    case Echoing(data, sent) =>
      if 1 <= n && sent + n <= |data| && |s.down| + n <= c.downRoom then
        Some(s.(down := s.down + data[sent..sent + n], server := EchoLoop(data, sent + n)))
      else None
    case _ => None
  }

  function Next(c: Setup, s: State, a: Action): Option<State>
    requires WellFormed(c)
  {
    match a
    case ClientSend(n) => NextClientSend(c, s, n)
    case ClientRead(n) => NextClientRead(c, s, n)
    case ClientEof =>
      if s.client.Receiving? && s.down == "" && s.server.Done? then
        Some(s.(client := Compare(c, s.client.total, s.client.received)))
      else None
    case ServerRead(n) => NextServerRead(s, n)
    case ServerEof =>
      if s.server.Listening? && s.up == "" && s.client.Returned? then
        Some(s.(server := EchoLoop(s.server.data, 0)))
      else None
    case ServerSend(n) => NextServerSend(c, s, n)
  }

  function After(c: Setup, schedule: seq<Action>): Option<State>
    requires WellFormed(c)
  {
    if schedule == [] then Some(Init())
    else
      match After(c, schedule[..|schedule| - 1])
      case None => None
      case Some(s) => Next(c, s, schedule[|schedule| - 1])
  }

  /** A write that stops exactly at `strlen`, so that the loop ends with the NUL unsent. */
  predicate DropsNul(c: Setup, s: State, a: Action)
    requires WellFormed(c)
  {
    a.ClientSend? && s.client.Sending? && s.client.total + a.n == |Message(c)| - 1
  }

  /** Some write of the schedule did that. */
  predicate Dropped(c: Setup, schedule: seq<Action>)
    requires WellFormed(c)
  {
    exists i :: 0 <= i < |schedule| &&
      match After(c, schedule[..i])
      case None => false
      case Some(s) => DropsNul(c, s, schedule[i])
  }

  // ---------------------------------------------------------------- the invariant

  /** The server's data, the octets in flight and those received are all cut from the one
      message `m`, each exactly where the other side has got to. */
  predicate Inv(m: string, s: State) {
    match (s.client, s.server)
    case (Sending(total), Listening(data)) =>
      total < |m| - 1 && data + s.up == m[..total] && s.down == ""
    case (Receiving(total, received), Listening(data)) =>
      && (total == |m| - 1 || (total == |m| && |data| < |m|))
      && data + s.up == m[..total] && s.down == "" && received == ""
    case (Receiving(total, received), Echoing(data, sent)) =>
      total == |m| && data == m && sent < |m| && s.up == "" && received + s.down == m[..sent]
    case (Receiving(total, received), Done(data)) =>
      total == |m| && data == m && |received| < |m| && s.up == "" && received + s.down == m
    case (Returned(total, received, ok), Done(data)) =>
      total == |m| && data == m && received == m && ok && s.up == "" && s.down == ""
    case _ => false
  }

  /** Every octet is sent, read, echoed and received at most once. */
  function Work(m: string, s: State): int {
    (if s.client.Sending? then 4 * (|m| - s.client.total) else 0)
    + 3 * |s.up|
    + (match s.server
       case Listening(data) => 2 * |data|
       case Echoing(data, sent) => 2 * (|data| - sent)
       case Done(_) => 0)
    + |s.down|
  }
}
