/** The CESoPSN packet on the wire: a twelve-byte header, laid out like the RTP fixed header of
    section 5.1 of RFC 3550 but with version 0, followed by the payload. */
module CesopsnPacket {
  import opened Common

  type Byte = n: int | 0 <= n < 0x100
  type U16 = n: int | 0 <= n < 0x1_0000
  type U32 = n: int | 0 <= n < 0x1_0000_0000

  const CESOPSN_VERSION: Byte := 0
  const CESOPSN_HEADER_LEN := 12

  datatype Header = Header(
    sequenceNumber: U16,
    timestamp: U32,
    ssrc: U32,
    circuitId: U16,
    payloadType: Byte,
    marker: bool,
    extension: bool,
    version: Byte)

  /** `receivedAt` is the local reception time; it is not on the wire. */
  datatype Packet = Packet(header: Header, payload: seq<Byte>, receivedAt: Option<int>)

  datatype ParseError = TooShort(length: nat) | UnsupportedVersion(version: Byte)

  // ---------- Big-endian fields ----------

  function BigEndian16(n: U16): seq<Byte> {
    [n / 0x100, n % 0x100]
  }

  function BigEndian32(n: U32): seq<Byte> {
    BigEndian16(n / 0x1_0000) + BigEndian16(n % 0x1_0000)
  }

  function Read16(bytes: seq<Byte>): U16
    requires |bytes| == 2
  {
    bytes[0] as int * 0x100 + bytes[1]
  }

  function Read32(bytes: seq<Byte>): U32
    requires |bytes| == 4
  {
    Read16(bytes[..2]) * 0x1_0000 + Read16(bytes[2..])
  }

  lemma Read16Write(n: U16)
    ensures Read16(BigEndian16(n)) == n
  {
  }

  lemma Read32Write(n: U32)
    ensures Read32(BigEndian32(n)) == n
  {
    var hi, lo := BigEndian16(n / 0x1_0000), BigEndian16(n % 0x1_0000);
    assert (hi + lo)[..2] == hi && (hi + lo)[2..] == lo;
  }

  lemma Write16Read(bytes: seq<Byte>)
    requires |bytes| == 2
    ensures BigEndian16(Read16(bytes)) == bytes
  {
  }

  lemma Write32Read(bytes: seq<Byte>)
    requires |bytes| == 4
    ensures BigEndian32(Read32(bytes)) == bytes
  {
    var hi, lo := bytes[..2], bytes[2..];
    Write16Read(hi);
    Write16Read(lo);
    assert hi + lo == bytes;
  }

  // ---------- Header ----------

  // Octets are numbers below 256, so shifts and masks are written as arithmetic: `x << 6` is
  // 64 (x % 4), `x & 0x7F` is x % 128, and `|` of disjoint bits is a sum.

  /** The low two version bits on top (the others are shifted out), then the extension bit. */
  function FlagOctet0(version: Byte, extension: bool): Byte {
    (version % 4) * 64 + if extension then 0x10 else 0x00
  }

  /** Marker bit, then the low seven bits of the payload type. */
  function FlagOctet1(marker: bool, payloadType: Byte): Byte {
    (if marker then 0x80 else 0x00) + payloadType % 0x80
  }

  function VersionOf(octet0: Byte): Byte {
    octet0 / 64
  }

  predicate ExtensionOf(octet0: Byte) {
    octet0 / 0x10 % 2 == 1
  }

  predicate MarkerOf(octet1: Byte) {
    octet1 / 0x80 == 1
  }

  function PayloadTypeOf(octet1: Byte): Byte {
    octet1 % 0x80
  }

  /** The padding bit and the four CSRC-count bits, which the writer always clears. */
  predicate UnusedBitsClear(octet0: Byte) {
    octet0 / 0x20 % 2 == 0 && octet0 % 0x10 == 0
  }

  /** The twelve header bytes. Padding and CSRC count are always written as zero. */
  function HeaderBytes(h: Header): (bytes: seq<Byte>)
    ensures |bytes| == CESOPSN_HEADER_LEN
  {
    [FlagOctet0(h.version, h.extension), FlagOctet1(h.marker, h.payloadType)]
    + BigEndian16(h.sequenceNumber) + BigEndian32(h.timestamp) + BigEndian32(h.ssrc)
  }

  method HeaderToBytes(h: Header) returns (bytes: seq<Byte>)
    ensures bytes == HeaderBytes(h)
  {
    bytes := [];
    var byte0 := FlagOctet0(h.version, h.extension);
    bytes := bytes + [byte0];
    var byte1 := FlagOctet1(h.marker, h.payloadType);
    bytes := bytes + [byte1];
    bytes := bytes + BigEndian16(h.sequenceNumber);
    bytes := bytes + BigEndian32(h.timestamp);
    bytes := bytes + BigEndian32(h.ssrc);
  }

  function HeaderFromBytes(bytes: seq<Byte>): Result<Header, ParseError> {
    if |bytes| < CESOPSN_HEADER_LEN then
      Err(TooShort(|bytes|))
    else
      var version := VersionOf(bytes[0]);
      if version != CESOPSN_VERSION then
        Err(UnsupportedVersion(version))
      else
        Ok(Header(Read16(bytes[2..4]), Read32(bytes[4..8]), Read32(bytes[8..12]), 0,
                  PayloadTypeOf(bytes[1]), MarkerOf(bytes[1]), ExtensionOf(bytes[0]), version))
  }

  // ---------- Packet ----------

  function PacketBytes(p: Packet): (bytes: seq<Byte>)
    ensures |bytes| == CESOPSN_HEADER_LEN + |p.payload|
  {
    HeaderBytes(p.header) + p.payload
  }

  method PacketToBytes(p: Packet) returns (bytes: seq<Byte>)
    ensures bytes == PacketBytes(p)
  {
    bytes := HeaderToBytes(p.header);
    bytes := bytes + p.payload;
  }

  function PacketFromBytes(bytes: seq<Byte>, now: int): Result<Packet, ParseError> {
    match HeaderFromBytes(bytes)
    case Err(e) => Err(e)
    case Ok(header) => Ok(Packet(header, bytes[CESOPSN_HEADER_LEN..], Some(now)))
  }

  /** What a header keeps when it crosses the wire: everything but the circuit id and the
      payload type's top bit. */
  function OnTheWire(h: Header): Header {
    h.(circuitId := 0, payloadType := h.payloadType % 0x80, version := h.version % 4)
  }

  // ---------- Round trips ----------

  lemma HeaderLayout(h: Header, payload: seq<Byte>)
    ensures var bytes := HeaderBytes(h) + payload;
            && bytes[2..4] == BigEndian16(h.sequenceNumber)
            && bytes[4..8] == BigEndian32(h.timestamp)
            && bytes[8..12] == BigEndian32(h.ssrc)
            && bytes[12..] == payload
  {
  }

  /** Parse after print, for every packet: a packet whose low two version bits are zero comes back
      with exactly the circuit id and the payload type's top bit lost; any other version is refused
      with the two bits that were sent. */
  lemma ParsePrint(p: Packet, now: int)
    ensures PacketFromBytes(PacketBytes(p), now) ==
            if p.header.version % 4 == 0
            then Ok(Packet(OnTheWire(p.header), p.payload, Some(now)))
            else Err(UnsupportedVersion(p.header.version % 4))
  {
    var h := p.header;
    HeaderLayout(h, p.payload);
    Read16Write(h.sequenceNumber);
    Read32Write(h.timestamp);
    Read32Write(h.ssrc);
  }

  /** A packet survives the wire with only its circuit id cleared exactly when it is of version 0
      and its payload type fits seven bits. */
  lemma RoundTripExact(p: Packet, now: int)
    ensures PacketFromBytes(PacketBytes(p), now) ==
            Ok(Packet(p.header.(circuitId := 0), p.payload, Some(now)))
            <==> p.header.version == 0 && p.header.payloadType < 0x80
  {
    ParsePrint(p, now);
  }

  /** Print after parse: only the padding and CSRC-count bits can change, and they come back
      cleared, so the bytes are unchanged exactly when those bits were zero. */
  lemma PrintParse(bytes: seq<Byte>, now: int)
    requires PacketFromBytes(bytes, now).Ok?
    ensures var printed := PacketBytes(PacketFromBytes(bytes, now).value);
            && |printed| == |bytes| && printed[1..] == bytes[1..]
            && printed[0] == (if ExtensionOf(bytes[0]) then 0x10 else 0)
            && (printed == bytes <==> UnusedBitsClear(bytes[0]))
  {
    var printed := PacketBytes(PacketFromBytes(bytes, now).value);
    PrintedFields(bytes, now);
    SplitAtFields(printed);
    SplitAtFields(bytes);
    FirstByte(bytes[0]);
    assert printed == [printed[0]] + printed[1..] && bytes == [bytes[0]] + bytes[1..];
  }

  lemma FirstByte(byte: Byte)
    requires VersionOf(byte) == 0
    ensures byte == (if ExtensionOf(byte) then 0x10 else 0) <==> UnusedBitsClear(byte)
  {
  }

  lemma PrintedFields(bytes: seq<Byte>, now: int)
    requires PacketFromBytes(bytes, now).Ok?
    ensures var printed := PacketBytes(PacketFromBytes(bytes, now).value);
            && |printed| == |bytes|
            && printed[0] == (if ExtensionOf(bytes[0]) then 0x10 else 0) && printed[1..2] == bytes[1..2]
            && printed[2..4] == bytes[2..4] && printed[4..8] == bytes[4..8] && printed[8..12] == bytes[8..12]
            && printed[12..] == bytes[12..]
  {
    Write16Read(bytes[2..4]);
    Write32Read(bytes[4..8]);
    Write32Read(bytes[8..12]);
    HeaderLayout(HeaderFromBytes(bytes).value, bytes[12..]);
  }

  lemma SplitAtFields(bytes: seq<Byte>)
    requires |bytes| >= 12
    ensures bytes[1..] == bytes[1..2] + bytes[2..4] + bytes[4..8] + bytes[8..12] + bytes[12..]
  {
  }

  /** A byte string is accepted exactly when it holds a whole header with version bits zero. */
  lemma ParseAccepts(bytes: seq<Byte>, now: int)
    ensures PacketFromBytes(bytes, now).Ok? <==> |bytes| >= CESOPSN_HEADER_LEN && bytes[0] < 0x40
  {
  }

  // ---------- The wire format ----------

  /** The bytes of every packet, one by one, most significant byte of each number first: version in the top
      two bits and extension in bit 4 of the first byte, marker in the top bit and payload type in the low
      seven of the second, then sequence number, timestamp and synchronization source, then the payload. */
  lemma WireFormat(p: Packet)
    ensures var h, bytes := p.header, PacketBytes(p);
            && |bytes| == 12 + |p.payload| && bytes[12..] == p.payload
            && bytes[0] == 64 * (h.version % 4) + (if h.extension then 16 else 0)
            && bytes[1] == 128 * (if h.marker then 1 else 0) + h.payloadType % 128
            && bytes[2] as int * 256 + bytes[3] == h.sequenceNumber
            && bytes[4] as int * 16777216 + bytes[5] as int * 65536 + bytes[6] as int * 256 + bytes[7] == h.timestamp
            && bytes[8] as int * 16777216 + bytes[9] as int * 65536 + bytes[10] as int * 256 + bytes[11] == h.ssrc
  {
    HeaderLayout(p.header, p.payload);
    BigEndianBytes(p.header.timestamp);
    BigEndianBytes(p.header.ssrc);
    var bytes := PacketBytes(p);
    assert bytes[2..4][0] == bytes[2] && bytes[2..4][1] == bytes[3];
    assert bytes[4..8][0] == bytes[4] && bytes[4..8][1] == bytes[5] && bytes[4..8][2] == bytes[6] && bytes[4..8][3] == bytes[7];
    assert bytes[8..12][0] == bytes[8] && bytes[8..12][1] == bytes[9] && bytes[8..12][2] == bytes[10] && bytes[8..12][3] == bytes[11];
  }

  lemma BigEndianBytes(n: U32)
    ensures var b := BigEndian32(n);
            b[0] as int * 16777216 + b[1] as int * 65536 + b[2] as int * 256 + b[3] == n
  {
  }
}
