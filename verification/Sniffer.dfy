/** How far Sniffer/linux_raw/main.c walks into a captured frame before it dumps the rest. */
module Sniffer {

  import opened HexDump
  import opened Octets
  import Packet
  import opened Wrappers

  const BUFFER_SIZE: nat := 65536
  const ETHERNET: nat := 14
  const ICMP: nat := 8

  // ---------------------------------------------------------------- the code

  /** `ip->ihl*4`: the low half of the first octet of the IP header. */
  function IpLength(first: Byte): nat { first % 16 * 4 }

  /** `tcp->offset*4`: the high half of octet 12 of the TCP header. */
  function TcpLength(octet12: Byte): nat { octet12 / 16 * 4 }

  /** The offset of what `processPacket` dumps. */
  function PayloadStart(buffer: seq<Byte>): (pos: nat)
    requires |buffer| == BUFFER_SIZE
    ensures pos <= ETHERNET + 60 + 60
  {
    var ip := ETHERNET;
    var layer4 := ip + IpLength(buffer[ip]);
    match buffer[ip + 9]
    case 1 => layer4 + ICMP
    case 6 => layer4 + TcpLength(buffer[layer4 + 12])
    case _ => layer4
  }

  // ---------------------------------------------------------------- well-formed frames

  /** A frame layer by layer, with the nibbles that share an octet with a header length. */
  datatype Frame = Frame(ethernet: seq<Byte>, ip: seq<Byte>, layer4: seq<Byte>, payload: seq<Byte>,
                         version: nat, flags: nat)
  {
    function Octets(): seq<Byte> { ethernet + ip + layer4 + payload }

    /** The headers announce their lengths, in words of four octets: IP in the low nibble of
        its first octet, TCP in the high nibble of its octet 12. */
    predicate WellFormed() {
      && |ethernet| == 14
      && version < 16 && |ip| % 4 == 0 && 20 <= |ip| <= 60 && ip[0] == 16 * version + |ip| / 4
      && match ip[9]
         case 1 => |layer4| == 8
         case 6 =>
           flags < 16 && |layer4| % 4 == 0 && 20 <= |layer4| <= 60 && layer4[12] == 16 * (|layer4| / 4) + flags
         case _ => |layer4| == 0
    }
  }

  /** The length nibbles count words. */
  lemma HeaderLengths(words: nat, other: nat)
    requires words < 16 && other < 16
    ensures IpLength(16 * other + words) == 4 * words && TcpLength(16 * words + other) == 4 * words
  {
  }

  /** Where the walk ends on any buffer, well-formed or not. */
  lemma WalkEnds(buffer: seq<Byte>, version: nat, words: nat, offset: nat, flags: nat)
    requires |buffer| == 65536 && version < 16 && words < 16 && offset < 16 && flags < 16
    requires buffer[14] == 16 * version + words && buffer[14 + 4 * words + 12] == 16 * offset + flags
    ensures PayloadStart(buffer)
            == 14 + 4 * words + if buffer[23] == 1 then 8 else if buffer[23] == 6 then 4 * offset else 0
  {
    HeaderLengths(words, version);
    HeaderLengths(offset, flags);
  }

  /** Where the octets that decide the walk stand. */
  lemma FrameOctets(f: Frame, stale: seq<Byte>, buffer: seq<Byte>)
    requires f.WellFormed() && buffer == f.Octets() + stale
    ensures buffer[14] == f.ip[0] && buffer[23] == f.ip[9]
    ensures f.ip[9] == 6 ==> buffer[14 + |f.ip| + 12] == f.layer4[12]
    ensures buffer[14 + |f.ip| + |f.layer4|..|f.Octets()|] == f.payload
  {
  }

  lemma FrameWalk(f: Frame, buffer: seq<Byte>)
    requires f.WellFormed() && |buffer| == BUFFER_SIZE
    requires buffer[14] == f.ip[0] && buffer[23] == f.ip[9]
    requires f.ip[9] == 6 ==> buffer[14 + |f.ip| + 12] == f.layer4[12]
    ensures PayloadStart(buffer) == 14 + |f.ip| + |f.layer4|
  {
    HeaderLengths(|f.ip| / 4, f.version);
    if f.ip[9] == 6 {
      HeaderLengths(|f.layer4| / 4, f.flags);
    }
  }

  /** Whatever stale octets follow it in the buffer, a well-formed frame has exactly its
      payload dumped, and the payload can be read back from the dump. */
  lemma PayloadIsDumped(f: Frame, stale: seq<Byte>)
    requires f.WellFormed() && |f.Octets()| + |stale| == BUFFER_SIZE
    ensures var buffer, size := f.Octets() + stale, |f.Octets()|;
            var pos := PayloadStart(buffer);
            pos <= size && buffer[pos..size] == f.payload && Decode(Rows(buffer[pos..size])) == f.payload
  {
    var buffer := f.Octets() + stale;
    FrameOctets(f, stale, buffer);
    FrameWalk(f, buffer);
    DumpReadsBack(f.payload);
  }

  /** `processPacket` on a frame of `size` octets at the head of the buffer: the dump it
      prints, or nothing if the length it passes wraps below zero and runs off the buffer. */
  method ProcessPacket(buffer: array<Byte>, size: nat) returns (out: Option<string>)
    requires buffer.Length == BUFFER_SIZE && size <= BUFFER_SIZE
    ensures var pos := PayloadStart(buffer[..]);
            out == if pos <= size then Some(Rows(buffer[pos..size])) else None
    ensures forall f: Frame :: f.WellFormed() && f.Octets() == buffer[..size] ==> out == Some(Rows(f.payload))
  {
    var pos := ETHERNET;
    var ip := pos;
    pos := pos + IpLength(buffer[ip]);
    var protocol := buffer[ip + 9];
    match protocol {
      case 1 => pos := pos + ICMP;
      case 6 => pos := pos + TcpLength(buffer[pos + 12]);
      case _ =>
    }
    assert pos == PayloadStart(buffer[..]);
    forall f: Frame | f.WellFormed() && f.Octets() == buffer[..size]
      ensures pos <= size && buffer[pos..size] == f.payload
    {
      PayloadIsDumped(f, buffer[size..]);
      assert f.Octets() + buffer[size..] == buffer[..];
    }
    if pos > size {
      return None;
    }
    var text := Dump(buffer[pos..size]);
    out := Some(text);
  }

  lemma SealedIsWellFormed(ethernet: seq<Byte>, header: seq<Byte>, payload: seq<Byte>, stale: seq<Byte>)
    requires |ethernet| == ETHERNET && |header| == 20 && header[0] == 0x45 && header[9] == 1
    requires ETHERNET + 28 + |payload| + |stale| == BUFFER_SIZE
    ensures var buffer := ethernet + Packet.Seal(header, Packet.EchoRequest(0, payload)) + stale;
            PayloadStart(buffer) == 42 && buffer[42..42 + |payload|] == payload
  {
    var message := Packet.EchoRequest(0, payload);
    var sealed := Packet.Seal(header, message);
    var buffer := ethernet + sealed + stale;
    assert sealed[0] == header[0] && sealed[9] == header[9];
    assert sealed[28..] == message[8..] == payload;
    assert buffer[ETHERNET] == sealed[0] && buffer[ETHERNET + 9] == sealed[9];
    assert buffer[42..42 + |payload|] == sealed[28..];
  }

  /** The packet of raw/main.c, behind any Ethernet header, has its payload dumped. */
  lemma EchoPacketIsDumped(ethernet: seq<Byte>, stale: seq<Byte>)
    requires |ethernet| == ETHERNET && ETHERNET + 92 + |stale| == BUFFER_SIZE
    ensures var buffer := ethernet + Packet.Sent() + stale;
            var pos := PayloadStart(buffer);
            pos <= ETHERNET + 92 && buffer[pos..ETHERNET + 92] == Packet.Payload()
  {
    var header := Packet.IpHeader(Packet.FIELDS, 0, Packet.SOURCE + Packet.DESTINATION);
    SealedIsWellFormed(ethernet, header, Packet.Payload(), stale);
  }
}
