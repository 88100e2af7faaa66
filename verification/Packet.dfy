/** The echo request raw/main.c builds in its buffer. */
module Packet {

  import opened Checksum
  import opened ChecksumLaws
  import opened Octets

  const BUFFER_SIZE: nat := 4096
  const IP_HEADER: nat := 20
  const ICMP_HEADER: nat := 8
  const PAYLOAD: nat := 64

  /** An IP header: the ten octets before the checksum, the checksum as stored in host
      order, and the addresses and options after it. */
  function IpHeader(fields: seq<Byte>, check: nat, addresses: seq<Byte>): (b: seq<Byte>)
    requires |fields| == 10 && check <= ONES
    ensures |b| == 12 + |addresses|
  {
    fields + [check % 256, check / 256] + addresses
  }

  /** An echo request with a given checksum word. */
  function EchoRequest(check: nat, payload: seq<Byte>): (b: seq<Byte>)
    requires check <= ONES
    ensures |b| == ICMP_HEADER + |payload|
  {
    [8, 0, check % 256, check / 256, 0, 10, 0, 20] + payload
  }

  /** Every IP header verifies once its checksum is stored (section 3.1 of RFC 791). */
  lemma IpHeaderVerifies(fields: seq<Byte>, addresses: seq<Byte>)
    requires |fields| == 10 && 12 + |addresses| <= LIMIT
    ensures CsumOf(IpHeader(fields, CsumOf(IpHeader(fields, 0, addresses)), addresses)) == 0
  {
    var clear := IpHeader(fields, 0, addresses);
    var check := CsumOf(clear);
    assert StoreWord(clear, 10, check) == IpHeader(fields, check, addresses);
    VerifiesIffChecksum(clear, 10, check);
  }

  /** An echo request verifies whatever its payload, within the checksum's bound. */
  lemma EchoRequestVerifies(payload: seq<Byte>)
    requires ICMP_HEADER + |payload| <= LIMIT
    ensures CsumOf(EchoRequest(CsumOf(EchoRequest(0, payload)), payload)) == 0
  {
    var clear := EchoRequest(0, payload);
    var check := CsumOf(clear);
    assert StoreWord(clear, 2, check) == EchoRequest(check, payload);
    VerifiesIffChecksum(clear, 2, check);
  }

  // ---------------------------------------------------------------- the packet that is sent

  const FIELDS: seq<Byte> := [0x45, 0, 0, 92, 0, 1, 0, 0, 10, 1]
  const SOURCE: seq<Byte> := [192, 168, 56, 101]
  const DESTINATION: seq<Byte> := [192, 168, 56, 1]

  function Payload(): (b: seq<Byte>)
    ensures |b| == PAYLOAD
  {
    seq(PAYLOAD, _ => 65)
  }

  /** A clear header and a clear message with their checksums stored. */
  function Seal(header: seq<Byte>, message: seq<Byte>): (b: seq<Byte>)
    requires |header| == IP_HEADER && |message| >= ICMP_HEADER
    ensures |b| == |header| + |message|
  {
    StoreWord(header, 10, CsumOf(header)) + StoreWord(message, 2, CsumOf(message))
  }

  /** Store the checksum of `bytes` octets from `start` on in their word at offset `at`. */
  method StoreChecksum(buffer: array<Byte>, start: nat, bytes: nat, at: nat)
    requires start + bytes <= buffer.Length && at % 2 == 0 && at + 1 < bytes <= LIMIT
    modifies buffer
    ensures var was := old(buffer[start..start + bytes]);
            && buffer[start..start + bytes] == StoreWord(was, at, CsumOf(was))
            && (WordAt(was, at) == 0 ==> CsumOf(buffer[start..start + bytes]) == 0)
    ensures buffer[..start] == old(buffer[..start]) && buffer[start + bytes..] == old(buffer[start + bytes..])
  {
    ghost var was: seq<Byte> := buffer[start..start + bytes];
    var check := Csum(buffer, start, bytes);
    buffer[start + at], buffer[start + at + 1] := check % 256, check / 256;
    if WordAt(was, at) == 0 {
      VerifiesIffChecksum(was, at, check);
    }
  }

  /** The header fields, the checksum left clear. */
  method FillIpHeader(buffer: array<Byte>)
    requires buffer.Length == BUFFER_SIZE && forall i :: 0 <= i < BUFFER_SIZE ==> buffer[i] == 0
    modifies buffer
    ensures buffer[..IP_HEADER] == IpHeader(FIELDS, 0, SOURCE + DESTINATION)
    ensures forall i :: IP_HEADER <= i < BUFFER_SIZE ==> buffer[i] == 0
  {
    buffer[0], buffer[3], buffer[5], buffer[8], buffer[9] := 0x45, 92, 1, 10, 1;
    forall i | 0 <= i < 4 {
      buffer[12 + i] := SOURCE[i];
    }
    forall i | 0 <= i < 4 {
      buffer[16 + i] := DESTINATION[i];
    }
  }

  /** The echo request, the checksum left clear. */
  method FillEchoRequest(buffer: array<Byte>)
    requires buffer.Length == BUFFER_SIZE && forall i :: IP_HEADER <= i < BUFFER_SIZE ==> buffer[i] == 0
    modifies buffer
    ensures buffer[..IP_HEADER] == old(buffer[..IP_HEADER])
    ensures buffer[IP_HEADER..92] == EchoRequest(0, Payload())
    ensures forall i :: 92 <= i < BUFFER_SIZE ==> buffer[i] == 0
  {
    buffer[20], buffer[25], buffer[27] := 8, 10, 20;
    forall i | IP_HEADER + ICMP_HEADER <= i < IP_HEADER + ICMP_HEADER + PAYLOAD {
      buffer[i] := 65;
    }
  }

  /** Store both checksums. */
  method SealPacket(buffer: array<Byte>, ghost header: seq<Byte>, ghost message: seq<Byte>)
    requires buffer.Length == BUFFER_SIZE && |header| == IP_HEADER && |message| == ICMP_HEADER + PAYLOAD
    requires buffer[..IP_HEADER] == header && buffer[IP_HEADER..92] == message
    modifies buffer
    ensures buffer[..92] == Seal(header, message) && buffer[92..] == old(buffer[92..])
    ensures WordAt(header, 10) == 0 ==> CsumOf(buffer[..IP_HEADER]) == 0
    ensures WordAt(message, 2) == 0 ==> CsumOf(buffer[IP_HEADER..92]) == 0
  {
    ghost var rest: seq<Byte> := buffer[IP_HEADER..];
    assert rest[..72] == message && rest[72..] == buffer[92..];
    StoreChecksum(buffer, 0, IP_HEADER, 10);
    assert buffer[IP_HEADER..92] == rest[..72] && buffer[92..] == rest[72..];
    StoreChecksum(buffer, IP_HEADER, ICMP_HEADER + PAYLOAD, 2);
  }

  lemma ClearWords(fields: seq<Byte>, addresses: seq<Byte>, payload: seq<Byte>)
    requires |fields| == 10
    ensures WordAt(IpHeader(fields, 0, addresses), 10) == 0 && WordAt(EchoRequest(0, payload), 2) == 0
  {
  }

  /** Sealing changes the two checksum words only. */
  lemma SealedOctets(header: seq<Byte>, message: seq<Byte>)
    requires |header| == IP_HEADER && |message| >= ICMP_HEADER
    ensures var packet := Seal(header, message);
            && packet[..10] == header[..10] && packet[12..20] == header[12..]
            && packet[20..22] == message[..2] && packet[24..] == message[4..]
  {
  }

  /** The packet that is sent. */
  function Sent(): (packet: seq<Byte>)
    ensures |packet| == 92
  {
    Seal(IpHeader(FIELDS, 0, SOURCE + DESTINATION), EchoRequest(0, Payload()))
  }

  lemma HeaderParts(fields: seq<Byte>, addresses: seq<Byte>)
    requires |fields| == 10
    ensures IpHeader(fields, 0, addresses)[..10] == fields && IpHeader(fields, 0, addresses)[12..] == addresses
  {
  }

  lemma MessageParts(payload: seq<Byte>)
    ensures EchoRequest(0, payload)[..2] == [8, 0] && EchoRequest(0, payload)[4..] == [0, 10, 0, 20] + payload
  {
  }

  lemma SentParts()
    ensures var packet := Sent();
            && packet[..10] == FIELDS && packet[12..20] == SOURCE + DESTINATION
            && packet[20..22] == [8, 0] && packet[24..] == [0, 10, 0, 20] + Payload()
  {
    var header, message := IpHeader(FIELDS, 0, SOURCE + DESTINATION), EchoRequest(0, Payload());
    HeaderParts(FIELDS, SOURCE + DESTINATION);
    MessageParts(Payload());
    SealedOctets(header, message);
  }

  /** An echo request octet by octet: version 4 and five words of header, the length of the
      whole packet, identification 1, time to live 10, protocol 1, the two addresses, type 8
      with 10 and 20 in its last two fields, and the letter A to the end. */
  predicate IsEchoPacket(packet: seq<Byte>) {
    && |packet| == 92
    && packet[0] == 16 * 4 + 5 && packet[1] == 0 && packet[2] as int * 256 + packet[3] as int == |packet|
    && packet[4..10] == [0, 1, 0, 0, 10, 1]
    && packet[12..20] == [192, 168, 56, 101, 192, 168, 56, 1]
    && packet[20..22] == [8, 0] && packet[24..28] == [0, 10, 0, 20]
    && forall i :: 28 <= i < 92 ==> packet[i] as char == 'A'
  }

  lemma PartsAreEchoPacket(packet: seq<Byte>)
    requires |packet| == 92
    requires packet[..10] == FIELDS && packet[12..20] == SOURCE + DESTINATION
    requires packet[20..22] == [8, 0] && packet[24..] == [0, 10, 0, 20] + Payload()
    ensures IsEchoPacket(packet)
  {
    var fields, message := packet[..10], packet[24..];
    assert packet[0] == fields[0] && packet[1] == fields[1] && packet[2] == fields[2] && packet[3] == fields[3];
    assert packet[4..10] == fields[4..] && packet[24..28] == message[..4];
    forall i | 28 <= i < 92 ensures packet[i] as char == 'A' {
      assert packet[i] == message[i - 24] == Payload()[i - 28];
    }
  }

  /** The packet sent is what its fields are meant to say. */
  lemma PacketOctets()
    ensures IsEchoPacket(Sent())
  {
    SentParts();
    PartsAreEchoPacket(Sent());
  }

  /** `main` up to the dump: the packet with both checksums stored in host order, each part
      verifying. */
  method BuildPacket() returns (buffer: array<Byte>, length: nat)
    ensures fresh(buffer) && buffer.Length == 4096 && length == 92
    ensures buffer[..length] == Sent()
    ensures CsumOf(buffer[..IP_HEADER]) == 0 && CsumOf(buffer[IP_HEADER..length]) == 0
  {
    buffer := new Byte[BUFFER_SIZE](_ => 0);
    FillIpHeader(buffer);
    FillEchoRequest(buffer);
    length := IP_HEADER + ICMP_HEADER + PAYLOAD;
    ClearWords(FIELDS, SOURCE + DESTINATION, Payload());
    SealPacket(buffer, IpHeader(FIELDS, 0, SOURCE + DESTINATION), EchoRequest(0, Payload()));
  }
}
