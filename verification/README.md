# Verified models of the socket exercises

A Dafny model of the three parts of the repository that carry a protocol or an algorithm, with
proofs of what they promise:

- the GET / LIST / QUIT file transfer (`FileTransfer_Proyecto`), as two sequential programs and as
  two processes interleaved over two bounded channels, and the forking accept loop that serves it;
- the NUL-terminated TCP echo ping (`tcp_ping`), as two programs and as an interleaved pair;
- the Internet checksum, the echo request built with it and the hex dump (`raw`), and the offset
  walk of the sniffer (`Sniffer/linux_raw`) that ends in the same dump.

`dafny verify dfyconfig.toml` checks everything.

## How it is modelled

| file | models |
|---|---|
| `Framing.dfy`, `Numerals.dfy` | the CR LF CR LF read loop; `%u` and `strtol` |
| `Sockets.dfy` | `read`, `write`, `sendLine` seen from one process; every call moves any positive number of octets |
| `FileServer.dfy`, `Sessions.dfy`, `Requests.dfy` | `server.c`: tokens, replies, a whole session, and what every form of request gets |
| `FileClient.dfy`, `Headers.dfy` | `client.c`: the header parse, the body loop, both clients |
| `GetSession.dfy`, `GetInvariant.dfy`, `GetTheorems.dfy` | one fetch as a two-process state machine, its invariant and measure, its theorems |
| `Listing.dfy` | the LIST reply and what the client makes of it |
| `ListSession.dfy` | one LIST as a two-process state machine, its invariant and measure, its theorems |
| `ForkLoop.dfy` | the accept loop over all processes |
| `Ping.dfy`, `PingTheorems.dfy`, `PingProgram.dfy` | the ping as a state machine, its theorems, its two functions |
| `Checksum.dfy`, `ChecksumLaws.dfy`, `Packet.dfy` | `csum`, its laws, the packet `main` builds |
| `HexDump.dfy`, `Sniffer.dfy` | `dump`, `processPacket` |

The endpoints appear twice on purpose. As methods over a `Socket` they keep the loops and counters
of the source and are proved against functions of the octet streams, so what they do cannot depend
on how the kernel cuts the streams. As state machines they run against each other: a step is one
system call on a channel or file, moving as many octets as the scheduler likes, and the theorems
quantify over every schedule and every channel capacity of at least one. Both use the same parse
and reply functions.

Octets of the text protocols are `char`; nothing depends on there being only 256 of them. The
checksum and the dump use integers below 256. The 64-bit sum of `csum` cannot wrap for any length
an `int` holds (`WordSumBound`), so it is an unbounded integer here.

Where the code falls short of what it is for, the model keeps the code and the theorems give the
exact condition:

- the size is printed as 32 bits, so a fetch that has come to rest has copied the file if and only
  if it is missing or shorter than 2^32 octets (`MaximalRunsFetchIffFits`; `OversizeIsNotFetched`
  exhibits a failing setup);
- two folds are enough for every buffer of a length if and only if the length is at most 131076
  (`LengthBoundIsTight`);
- a ping ends with both sides blocked if and only if some write stopped at `strlen`
  (`Dichotomy`), which is possible over any channels, and a ping can succeed at all if and only if
  the channel to the server has room for two octets (`CanSucceedIffRoomForTwo`);
- a LIST that has come to rest has printed the names and ended, the server on the null token because
  the client closes without QUIT, if and only if there is an entry to list or the directory does not
  open; otherwise both sides wait in `read` for ever (`MaximalRunsListIffHasReply`;
  `EmptyDirectoryBlocks` exhibits one).

The header text in `client.c` calls the file `server.c`; the model follows the code.

## Model

| member | source | states |
|---|---|---|
| Framing.ScanSound | FileTransfer_Proyecto/server.c:92-101 | on any octet stream, NULs included, the read loop stops at the first terminator and consumes nothing after it, or takes the whole stream when there is none; the text it leaves has no NUL |
| Framing.TerminatorIs | FileTransfer_Proyecto/server.c:96-97 | the test on the last four characters is the comparison with CR LF CR LF |
| Framing.StripNulParts | FileTransfer_Proyecto/server.c:95 | a NUL anywhere in the stream appends nothing, and every other octet keeps its place |
| Framing.AllIsRead | FileTransfer_Proyecto/server.c:92-101 | without a terminator everything up to the end of the stream is the text |
| Framing.ScanFramed | FileTransfer_Proyecto/client.c:103-111 | a text without a terminator of its own, followed by one and by anything at all, is recovered exactly and what follows stays unread |
| Numerals.DecimalIsCanonical | FileTransfer_Proyecto/server.c:177 | the printed decimal has no leading zero, one digit below ten |
| Numerals.NumberParses | FileTransfer_Proyecto/client.c:124 | strtol after any white space, with a sign or none, before anything but a digit: saturated, and a negative number wrapped to unsigned long |
| Numerals.DecimalRoundTrip | FileTransfer_Proyecto/client.c:124 | parsing the printed decimal of n gives n for every n up to the largest signed long, and saturates beyond |
| Sockets.Socket.SendLine | FileTransfer_Proyecto/server.c:194-203 | whatever the short writes, exactly the line is sent |
| Sockets.Socket.ReadText | FileTransfer_Proyecto/server.c:92-101 | the loop leaves the text and the unread rest that the scan of the stream defines |
| FileServer.DoList | FileTransfer_Proyecto/server.c:126-145 | every entry but "." and ".." is sent as a line in directory order, then a bare CR LF, or the error line |
| FileServer.VisibleInOrder | FileTransfer_Proyecto/server.c:132-137 | exactly the entries "." and ".." are left out, the others keep their order and number |
| FileServer.DoGet | FileTransfer_Proyecto/server.c:147-192 | the size modulo 2^32 and the file at base directory + name are sent, or NOT_FOUND and the name if there is no such file |
| FileServer.FixedReplies | FileTransfer_Proyecto/server.c:109-119 | the three replies that carry nothing of the request, in full |
| FileServer.SendFile | FileTransfer_Proyecto/server.c:181-187 | under any short reads of the file and short writes of the socket the file is sent octet for octet |
| FileServer.StartProtocol | FileTransfer_Proyecto/server.c:83-124 | the output, the unread input and the way the session ends are those of the stream function Serve, for every input and every chunking |
| Sessions.GetParses | FileTransfer_Proyecto/server.c:105-111 | a GET request for a valid name survives framing and tokenising as that name |
| Sessions.WordParses | FileTransfer_Proyecto/server.c:113-116 | LIST and QUIT survive framing and tokenising as themselves |
| Requests.MethodParses | FileTransfer_Proyecto/server.c:105-119 | the first word decides, after any blanks: LIST and QUIT whatever follows, and every other word but GET is an unknown method |
| Requests.NamedGetParses | FileTransfer_Proyecto/server.c:105-112 | GET takes the second word, whatever spaces, tabs and backspaces separate the two and whatever follows |
| Requests.UnknownIsAnswered | FileTransfer_Proyecto/server.c:117-119 | an unknown method is answered UNKOWN METHOD and the session goes on with the rest of the stream |
| Requests.NamelessGetIsAnswered | FileTransfer_Proyecto/server.c:107-110 | GET without a name is answered with the missing-name error and the session goes on |
| Requests.NamedGetIsAnswered | FileTransfer_Proyecto/server.c:107-112 | GET is answered with the file at base directory + name, or with NOT_FOUND, and the session goes on |
| Requests.ListIsAnswered | FileTransfer_Proyecto/server.c:113-114 | LIST is answered with the lines of the directory or the error, and the session goes on |
| Requests.SessionEnds | FileTransfer_Proyecto/server.c:105-116 | QUIT ends the session in order and a blank request ends it on the null token, unanswered, with nothing behind them read |
| Requests.UnterminatedIsObeyed | FileTransfer_Proyecto/server.c:92-106 | a last request cut off by the end of the stream is obeyed as if it were terminated |
| Sessions.SessionToQuit | FileTransfer_Proyecto/server.c:91-122 | for every sequence of carried requests followed by QUIT the output is the replies in order, the server leaves through QUIT and every octet after QUIT's terminator stays unread |
| Sessions.SessionToEndOfFile | FileTransfer_Proyecto/server.c:92-106 | a client that closes after whole requests without QUIT leaves the server comparing the null token |
| FileClient.DoGet | FileTransfer_Proyecto/client.c:133-172 | the copy is a prefix of what arrives, at least the size and less than one chunk more; every read but the last left it short of the size; with too little arriving the loop never ends |
| FileClient.StartProtocol | FileTransfer_Proyecto/client.c:88-131 | for every reply stream: whether the file is created, what is stored, what stays unread, how the client ends, and that QUIT is sent exactly when it ends normally; a client left reading end of file has stored everything that arrived |
| FileClient.GetList | FileTransfer_Proyecto/client.c:61-76 | LIST is sent and the text printed is the scan of a stream that the peer ends |
| Headers.HeaderRoundTrip | FileTransfer_Proyecto/client.c:103-124 | scanning the reply stops at the end of its header whatever the file at base directory + name contains, and the parse gives its size modulo 2^32, or the unrecognised branch for a missing file |
| Headers.OkTextParses | FileTransfer_Proyecto/client.c:116-124 | split at CR, skip LF, find the colon, skip two, parse: exactly the number the server printed |
| Headers.NotFoundTextParses | FileTransfer_Proyecto/client.c:119-127 | the missing-file reply carries the name, so it never equals the bare token that returns before QUIT |
| Headers.HeaderForms | FileTransfer_Proyecto/client.c:116-129 | the bare NOT_FOUND token, any token that is neither it nor OK, and an OK without a second line |
| Headers.OkForms | FileTransfer_Proyecto/client.c:119-124 | after OK the number is what stands two octets behind the first colon of the second line; without colon or number the parse runs off the string |
| GetSession.ScriptUnderstood | FileTransfer_Proyecto/server.c:105-179 | for every valid name both programs read each other's texts as the request, the header and the QUIT they are |
| GetInvariant.StepKeeps | FileTransfer_Proyecto/client.c:98-172 | every step of either program keeps the joint invariant over phases, buffers and channels, and strictly lowers the work left |
| GetTheorems.ClientSteps | FileTransfer_Proyecto/client.c:98-172 | exactly which transfers the client can make: any part of its text within the room, up to 102400 octets of what is in flight whatever is left of the file, any part of its buffer |
| GetTheorems.ServerSteps | FileTransfer_Proyecto/server.c:91-203 | the same for the server, its chunks of the file and the end of the stream |
| GetTheorems.ServerScans | FileTransfer_Proyecto/server.c:92-101 | reading octet by octet the server never changes what the scan of the stream gives, and acts on that text |
| GetTheorems.ClientScans | FileTransfer_Proyecto/client.c:103-111 | the same for the client and the header |
| GetTheorems.ServerObeys | FileTransfer_Proyecto/server.c:105-120 | on every command string the server of the state machine sends the reply of the sequential one, or ends |
| GetTheorems.ClientObeys | FileTransfer_Proyecto/client.c:116-129 | on every header the client closes without QUIT for the bare token only, and opens the local file for an accepted header only |
| GetTheorems.FileIsConserved | FileTransfer_Proyecto/client.c:155-167 | in every reachable state with a local file, local file + client buffer + channel + server buffer + unread file = the served file, for files of any size |
| GetTheorems.NeverOverReads | FileTransfer_Proyecto/client.c:155-163 | below 2^32 octets the client never takes more than the announced size although each read asks for a full chunk, and stops with exactly that |
| GetTheorems.CopyExactIffSizeFits | FileTransfer_Proyecto/server.c:176-187 | when the body loop ends, the copy is exact, and nothing is left in flight, if and only if the size is below 2^32; for any size it is a prefix of the file, as long as the size modulo 2^32 or less than a chunk longer |
| GetTheorems.SomeoneCanMove | FileTransfer_Proyecto/client.c:98-129 | no deadlock: every reachable state that is neither final nor abandoned has an enabled step, for all capacities of at least one |
| GetTheorems.NeverAbandoned | FileTransfer_Proyecto/server.c:182-187 | a fetch that fits never leaves the server unable to write to a client that stopped reading |
| GetTheorems.RunsAreBounded | FileTransfer_Proyecto/server.c:91-122 | no run of a fetch has more steps than a bound linear in the texts and the file |
| GetTheorems.MaximalRunsFetchIffFits | FileTransfer_Proyecto/client.c:88-131 | a run that cannot go on has both sides through QUIT, empty channels and the local file equal to the file at base directory + name (or absent if there is none) if and only if that file is missing or below 2^32 octets |
| GetTheorems.RunsCanSettle | FileTransfer_Proyecto/client.c:98-129 | every run can be continued to a state of rest |
| GetTheorems.SettledIsAtRest | FileTransfer_Proyecto/client.c:129-130 | the final and the abandoned states have no step |
| GetTheorems.OversizeIsNotFetched | FileTransfer_Proyecto/server.c:177 | a concrete setup, a file of 2^32 octets, whose fetch comes to rest without fetching |
| GetTheorems.ServerAlone | FileTransfer_Proyecto/server.c:83-124 | to GET, the name and QUIT on one stream the sequential session answers with the header and file the state machine sends, and leaves by QUIT |
| Listing.ListRoundTrip | FileTransfer_Proyecto/server.c:132-140 | for a directory with something to list the client's scan leaves the names joined by CR LF and consumes nothing else; the names can be recovered from that text, in order: all entries but "." and ".." |
| Listing.ListStopsIffNotEmpty | FileTransfer_Proyecto/client.c:66-74 | the stop test is met in the reply if and only if there is an entry to list |
| Listing.ListThenCloseEndsOnNullToken | FileTransfer_Proyecto/server.c:92-106 | a client that sends LIST and then closes is answered and leaves the server comparing the null token |
| ListSession.StepKeeps | FileTransfer_Proyecto/client.c:62-83 | every step of either program keeps the joint invariant, in which what the client has and what is still to come scan like the whole reply, and strictly lowers the work left |
| ListSession.ClientSteps | FileTransfer_Proyecto/client.c:62-74 | exactly which transfers the client can make, for the literal request |
| ListSession.RunsAreBounded | FileTransfer_Proyecto/client.c:66-74 | no run of a LIST has more steps than a bound linear in the reply |
| ListSession.MaximalRuns | FileTransfer_Proyecto/client.c:46-86 | for any directory at all, the runs that cannot go on are exactly those where the client closed with the text before the first terminator and the server ended, or cannot send what follows it, or, without a terminator, where both wait on empty channels |
| ListSession.RunsCanSettle | FileTransfer_Proyecto/client.c:46-86 | every run can be continued to a state of rest |
| ListSession.MaximalRunsListIffHasReply | FileTransfer_Proyecto/server.c:132-143 | a run that cannot go on has printed the names joined, from which all entries but "." and ".." can be recovered, or the error line, with the server ended on the null token and the channels empty, if and only if there is such an entry or the directory does not open; otherwise the client waits with a lone CR LF and the server for a command |
| ListSession.EmptyDirectoryBlocks | FileTransfer_Proyecto/client.c:66-74 | a concrete directory, with only the two dots, whose LIST comes to rest with both sides waiting, for all capacities |
| ForkLoop.StepKeeps | FileTransfer_Proyecto/server.c:46-76 | every step of any process keeps the descriptor discipline, the exclusiveness of service and the census |
| ForkLoop.LoopOrder | FileTransfer_Proyecto/server.c:46-74 | step by step: a fork leaves the parent to close the descriptor and adds the child that serves; nobody else moves |
| ForkLoop.StepsOfAPlace | FileTransfer_Proyecto/server.c:46-74 | a process has exactly the steps of its place in the loop |
| ForkLoop.DescriptorsAreFew | FileTransfer_Proyecto/server.c:51-67 | in every run a process has one client descriptor from accept to close, also when it forks, and none otherwise; no connection has more than two copies |
| ForkLoop.ServedByOneProcess | FileTransfer_Proyecto/server.c:58-62 | over the whole of any run one connection is served by one process only |
| ForkLoop.ServedByAChild | FileTransfer_Proyecto/server.c:58-67 | over the whole of any run, whoever serves a connection did not exist while the connection was waiting for its fork, so it is not the process that accepted it |
| ForkLoop.FirstProcessNeverServes | FileTransfer_Proyecto/server.c:58-67 | in every run the server process itself never serves |
| ForkLoop.LostOnlyToFailedForks | FileTransfer_Proyecto/server.c:51-70 | in every run, of the connections accepted exactly as many as forks failed are neither given to a child nor held by a process about to fork |
| ForkLoop.EveryConnectionServed | FileTransfer_Proyecto/server.c:51-70 | while no fork fails every accepted connection has its serving process or is about to get it |
| ForkLoop.Census | FileTransfer_Proyecto/server.c:58-74 | processes = 1 + forks - crashed sessions - failed forks; processes outside a session = 1 + completed sessions - failed forks |
| Ping.BufferHoldsMessage | tcp_ping/ping.c:67-79 | for every size whose 32-bit byte count is not 0, the message is the head of the filled buffer: the alphabet over and over and a NUL, its only one, where strlen ends |
| PingTheorems.StepsThereAre | tcp_ping/ping.c:38-93 | exactly which transfers the two sides can make, with their limits |
| PingTheorems.StepKeeps | tcp_ping/ping.c:38-93 | every step of either side keeps all buffers cut from the one message and strictly lowers the work left |
| PingTheorems.BuffersHoldPrefixes | tcp_ping/ping.c:38-44 | in every reachable state the server has a prefix of the message and stops listening exactly when it has all of it; the sender never receives more than realsize octets; runs are bounded |
| PingTheorems.DroppedIffShort | tcp_ping/ping.c:79-83 | the send loop ended one octet short if and only if some write of the schedule stopped at strlen |
| PingTheorems.Dichotomy | tcp_ping/ping.c:79-106 | every run that cannot go on ends with success, or with both sides blocked on empty channels exactly when a write stopped at strlen |
| PingTheorems.OutcomesAreAtRest | tcp_ping/ping.c:88-93 | neither outcome has a further step |
| PingTheorems.CanAlwaysBlock | tcp_ping/ping.c:79-83 | for every size and all capacities some schedule blocks both sides |
| PingTheorems.CanSucceedIffRoomForTwo | tcp_ping/ping.c:79-80 | some schedule succeeds if and only if the channel to the server has room for two octets |
| PingProgram.FillBuffer | tcp_ping/ping.c:74-77 | the index loop leaves the letter pattern and two clear octets |
| PingProgram.SendMessage | tcp_ping/ping.c:79-83 | under any short writes exactly the message, or exactly the message without its NUL, is sent, every write being offered all that is left with the NUL |
| PingProgram.ReadToNul | tcp_ping/ping.c:88-93 | reading stops at the first chunk that ends in NUL or at the end of the stream; one message with one NUL is read to its end under any chunking |
| PingProgram.CompareVerdict | tcp_ping/ping.c:97-103 | the sender of the state machine accepts the message, with its NUL or without, and what begins with it |
| PingProgram.PingSend | tcp_ping/ping.c:59-109 | whatever the chunking it reports success if and only if the reply is its message without the NUL, or begins with its message |
| PingProgram.PingListen | tcp_ping/ping.c:19-57 | what was read is a prefix of the input and is echoed octet for octet |
| Checksum.SumWords | raw/main.c:149-159 | the pointer loop and the odd octet compute the deferred-carry sum of the slice |
| Checksum.Csum | raw/main.c:144-167 | the result is the two-fold complement of that sum, and up to 131076 octets the complement of the ones' complement sum of section 1 of RFC 1071 |
| Checksum.OnesSumIsResidue | raw/main.c:150-163 | adding back every carry at once equals deferring all of them to the end |
| Checksum.ExactIffNoCarry | raw/main.c:162-163 | for every length an int can hold, two folds are right if and only if the second leaves no carry, and otherwise one too many |
| Checksum.LengthBoundIsTight | raw/main.c:162-163 | all buffers of a length get the right checksum if and only if the length is at most 131076 |
| Checksum.NetworkSumIsSwapped | raw/main.c:150-159 | the big-endian ones' complement sum is the little-endian one with its octets swapped, odd octet included (section 2(B) of RFC 1071) |
| Checksum.StoredOctetsAreNetworkOrder | raw/main.c:104-105 | storing the host-order result in host order puts the network-order checksum in the packet |
| ChecksumLaws.OneWordChangeDetected | raw/main.c:149-166 | a change of one word goes unnoticed if and only if it is none, or exchanges 0 and 0xffff while some other octet is not zero |
| ChecksumLaws.LastOctetChangeDetected | raw/main.c:155-166 | a change of the odd last octet, a word of its own, is always noticed |
| ChecksumLaws.VerifiesIffChecksum | raw/main.c:144-167 | a buffer with a clear checksum word verifies after a store there if and only if the word stored is its checksum, or 0xffff for a checksum of 0 |
| ChecksumLaws.PermutationUndetected | raw/main.c:150-153 | permuting the words of a buffer of any length never changes the checksum (section 2(A) of RFC 1071) |
| Packet.IpHeaderVerifies | raw/main.c:81-104 | every IP header, any fields, addresses and options, verifies once its checksum is stored |
| Packet.EchoRequestVerifies | raw/main.c:94-105 | an echo request with any payload within the bound verifies once its checksum is stored |
| Packet.PacketOctets | raw/main.c:75-105 | every octet of the packet but the checksums: version, header words, the length of the whole packet, time to live, protocol, addresses, the echo fields, the payload |
| Packet.StoreChecksum | raw/main.c:104-105 | the checksum of a slice is stored in its word, everything else is unchanged, and a clear word makes the slice verify |
| Packet.BuildPacket | raw/main.c:75-105 | the buffer holds the echo request with both checksums stored, and both parts verify |
| HexDump.Dump | raw/main.c:169-192 | the nested loops print exactly the rows of the layout |
| HexDump.FinishRow | raw/main.c:176-189 | the padding, bar, text and newline of the line that ends at an octet |
| HexDump.DumpReadsBack | Sniffer/linux_raw/main.c:220-243 | a reader of the hex columns recovers exactly the octets dumped |
| HexDump.DumpIsInjective | Sniffer/linux_raw/main.c:220-243 | equal dumps come from equal octets |
| HexDump.DumpLength | raw/main.c:173-190 | the length is 51 for every line begun plus one for every octet |
| HexDump.BarColumn | raw/main.c:177-180 | every line has its bar in column 48 |
| HexDump.RowCharacters | raw/main.c:173-190 | a line character by character: two lower-case hex digits and a space for each octet, blanks, bar, printable ASCII or a dot, newline |
| Sniffer.HeaderLengths | Sniffer/linux_raw/main.c:177-216 | the low nibble of the first IP octet and the high nibble of TCP octet 12 count words of four octets |
| Sniffer.WalkEnds | Sniffer/linux_raw/main.c:115-138 | where the walk ends on any buffer, by protocol and length nibbles |
| Sniffer.ProcessPacket | Sniffer/linux_raw/main.c:115-143 | a frame whose header nibbles give its header lengths has its payload dumped; any other has the rest from the offset walked to, or nothing when that is past its end |
| Sniffer.PayloadIsDumped | Sniffer/linux_raw/main.c:121-138 | a frame whose header nibbles give its header lengths has exactly its payload dumped, whatever is stale behind it, and the payload reads back |
| Sniffer.EchoPacketIsDumped | Sniffer/linux_raw/main.c:121-138 | the packet of raw/main.c behind any Ethernet header has its payload dumped |

## Left out

- I/O errors: `read` and `write` never fail; their `u_int` error values are not modelled.
- Fixed buffers and memory: strings grow without limit, so the bounds of `writeBuffer` and of the
  argument arrays on file names, allocation failure and leaks are not modelled. The string of a
  read loop starts empty; the client's is uninitialised in the source.
- Files: the served file is regular and does not change while it is served, and the local file opens.
- Valid names: the theorems about a fetch are for non-empty names without NUL, space, tab,
  backspace, CR and LF, the ones a request can carry as one token.
- Connections: a socket closed by its peer delivers end of file but no reset; the server's own close after QUIT is not
  followed by an end of file at the client, which has closed by then.
- Connection setup and address conversion in `netlib/tcp.c`, argument parsing, `debug` output,
  timing: foreign calls and short branches.
- The headers printed by the sniffer's decoders: only the offsets they return are modelled.
- The receive half of `raw/main.c`, `UDP_FileTransfer`, `file_transfer`, `simple_socket`, `bdcast`
  and `Sniffer/pcap_clase.c`.
- FileClient.GetList: the stream it reads ends where the peer closes; with a peer that does not, as
  this server does not after an empty listing, it waits, which MaximalRunsListIffHasReply states.
- GetTheorems.SettledIsAtRest: a server writing to a client that has closed waits for ever in the model
  once the channel is full; in the source the write fails. It does not occur in a fetch that fits.
- ListSession.MaximalRuns: the same for a LIST client that closes at a terminator inside a file name;
  it does not occur when every name is a single line.
- Sniffer.ProcessPacket: a frame shorter than its headers announce yields no text in the model; the
  source then passes a wrapped length and reads off the buffer.
- PingProgram.PingSend: the receive buffer is a growing string and the reply must fit the source's
  `realsize + 1` octets; that the pair never exceeds `realsize` is BuffersHoldPrefixes.
- Ping sizes whose `u_int` byte count is 0 (0 KB and multiples of 2^22 KB); any other size is
  modelled with the byte count as it wraps.
