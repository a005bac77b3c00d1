/** The BattlEye datagram: `BE`, a checksum, then 0xFF, a type, usually a sequence byte, and data. The checksum is any
    function of the payload; the protocol's CRC32 is one. */
module BattleyeCodec {
  import opened Wrappers
  import opened Bytes

  const COMMAND: byte := 1
  const MESSAGE: byte := 2
  const PREFIX: byte := 0xFF
  const HEADER: Data := [66, 69]

  type Checksum = Data -> u32

  /** Two views of one payload: `payload` is all of it, `data` what follows the sequence byte. */
  datatype Packet = Packet(kind: byte, sequence: byte, payload: Data, data: Data)

  function Payload(kind: byte, sequence: Option<int>, data: Data): Data {
    [PREFIX, kind] + (if sequence.Some? then [sequence.value % 256] else []) + data
  }

  function Encode(crc: Checksum, kind: byte, sequence: Option<int>, data: Data): Data {
    var payload := Payload(kind, sequence, data);
    HEADER + PackU32(crc(payload)) + payload
  }

  function Decode(crc: Checksum, packet: Data): Option<Packet> {
    if |packet| < 9 || packet[..2] != HEADER then None
    else if packet[2..6] != PackU32(crc(packet[6..])) then None
    else if packet[6] != PREFIX then None
    else Some(Packet(packet[7], packet[8], packet[8..], packet[9..]))
  }

  /** A framed packet with a sequence byte is read back as it was; one without, a login, is read back when there is a
      byte of content to stand where the sequence byte would be. */
  lemma CodecRoundTrip(crc: Checksum, kind: byte, sequence: Option<int>, data: Data)
    ensures var p := Decode(crc, Encode(crc, kind, sequence, data));
            if sequence.Some? then
              p == Some(Packet(kind, sequence.value % 256, [sequence.value % 256] + data, data))
            else if data == [] then p == None
            else p == Some(Packet(kind, data[0], data, data[1..]))
  {
    hide PackU32;
    var payload := Payload(kind, sequence, data);
    var packet := Encode(crc, kind, sequence, data);
    assert packet[..2] == HEADER && packet[2..6] == PackU32(crc(payload)) && packet[6..] == payload;
    if sequence.Some? {
      assert packet[8..] == payload[2..] == [sequence.value % 256] + data;
      assert packet[9..] == data;
    } else {
      assert packet[8..] == payload[2..] == data;
    }
  }

  /** Nothing but a framed packet is accepted: what is decoded, framed again, is the datagram. */
  lemma DecodeExact(crc: Checksum, packet: Data)
    requires Decode(crc, packet).Some?
    ensures var p := Decode(crc, packet).value;
            packet == Encode(crc, p.kind, Some(p.sequence), p.data)
  {
    hide PackU32;
    var p := Decode(crc, packet).value;
    assert packet[6..] == [PREFIX, p.kind] + [p.sequence % 256] + p.data;
    assert packet == packet[..2] + packet[2..6] + packet[6..];
  }

  /** A datagram byte by byte: the header, the checksum of everything behind it, low byte first, 0xFF, the type, the
      sequence byte when there is one, and the data. */
  lemma DatagramBytes(crc: Checksum, data: Data)
    requires crc([0xFF, 1, 7] + data) == 0x0102_0304 && crc([0xFF, 0] + data) == 0x0A0B_0C0D
    ensures Encode(crc, COMMAND, Some(263), data) == [66, 69, 4, 3, 2, 1, 0xFF, 1, 7] + data
    ensures Encode(crc, 0, None, data) == [66, 69, 13, 12, 11, 10, 0xFF, 0] + data
  {
    assert Payload(COMMAND, Some(263), data) == [0xFF, 1, 7] + data;
    assert Payload(0, None, data) == [0xFF, 0] + data;
  }
}
