/** The wire format of a packet: a 20-byte big-endian header followed by an
    optional payload, as encoded by packetToBuffer and decoded by
    bufferToPacket, plus the integer truncations uint16/uint32 and
    createPacket, which fills a header from a connection's cursors. */
module Packets {

  datatype Option<T> = None | Some(value: T)

  type Byte = x: int | 0 <= x < 256

  const VERSION := 1
  const EXTENSION := 0
  const ID_MASK := 0xF0
  const HEADER_SIZE := 20

  // Packet types occupy the high nibble of byte 0.
  const PACKET_DATA := 0x00
  const PACKET_FIN := 0x10
  const PACKET_STATE := 0x20
  const PACKET_RESET := 0x30
  const PACKET_SYN := 0x40

  const MIN_PACKET_SIZE := 20
  const DEFAULT_WINDOW_SIZE := 0x40000

  const TWO16 := 0x1_0000
  const TWO32 := 0x1_0000_0000

  predicate IsU16(x: int) { 0 <= x < TWO16 }
  predicate IsU32(x: int) { 0 <= x < TWO32 }

  /** `n & 0xffff`: the low 16 bits of an integer, i.e. its residue modulo 2^16. */
  function Uint16(n: int): (r: int)
    ensures IsU16(r)
    ensures IsU16(n) ==> r == n
  {
    n % TWO16
  }

  /** `n & 0xffff` differs from n by a multiple of 2^16: it wraps -1 to
      65535 and 65536 to 0. */
  lemma Uint16Congruent(n: int)
    ensures (n - Uint16(n)) % TWO16 == 0
    ensures Uint16(-1) == 0xFFFF && Uint16(TWO16) == 0
  {
    assert n == (n / TWO16) * TWO16 + Uint16(n);
  }

  /** `n >>> 0`: the residue of an integer modulo 2^32. */
  function Uint32(n: int): (r: int)
    ensures IsU32(r)
    ensures (n - r) % TWO32 == 0
    ensures IsU32(n) ==> r == n
  {
    n % TWO32
  }

  predicate IsPacketType(id: int) {
    id == PACKET_DATA || id == PACKET_FIN || id == PACKET_STATE || id == PACKET_RESET || id == PACKET_SYN
  }

  /** Header fields as the program holds them, plus the payload (null or a buffer). */
  datatype Packet = Packet(
    id: int,
    connection: int,
    timestamp: int,
    timediff: int,
    window: int,
    seqNr: int,
    ack: int,
    data: Option<seq<Byte>>)

  /** A packet whose fields fit the widths the encoder writes (the buffer
      writers reject anything else) and whose type has a zero low nibble. */
  predicate Encodable(p: Packet) {
    && 0 <= p.id < 256 && p.id % 16 == 0
    && IsU16(p.connection) && IsU32(p.timestamp) && IsU32(p.timediff)
    && IsU32(p.window) && IsU16(p.seqNr) && IsU16(p.ack)
  }

  function PayloadOf(data: Option<seq<Byte>>): seq<Byte> {
    match data
    case None => []
    case Some(d) => d
  }

  /** Byte 0 of the header: `packet.id | VERSION`. VERSION is 1, so the OR
      sets the lowest bit of the type byte. */
  function TypeVersion(id: Byte): (r: Byte)
    ensures r % 2 == 1 && r - r % 2 == id - id % 2
  {
    id - id % 2 + VERSION
  }

  /** Type of a received packet: `buffer[0] & ID_MASK`. ID_MASK is 0xF0, so
      the AND clears the low nibble of byte 0. */
  function TypeOf(b: Byte): (r: Byte)
    ensures r % 16 == 0 && 0 <= b - r < 16
  {
    b - b % 16
  }

  // The four bytes of a value, least significant first.
  function B0(v: int): Byte { v % 0x100 }
  function B1(v: int): Byte { v / 0x100 % 0x100 }
  function B2(v: int): Byte { v / 0x100 / 0x100 % 0x100 }
  function B3(v: int): Byte { v / 0x100 / 0x100 / 0x100 % 0x100 }

  /** readUInt16BE */
  function ReadU16(b: seq<Byte>, off: nat): (r: int)
    requires off + 2 <= |b|
    ensures IsU16(r)
  {
    b[off] as int * 0x100 + b[off + 1] as int
  }

  /** readUInt32BE */
  function ReadU32(b: seq<Byte>, off: nat): (r: int)
    requires off + 4 <= |b|
    ensures IsU32(r)
  {
    b[off] as int * 0x100_0000 + b[off + 1] as int * 0x1_0000 + b[off + 2] as int * 0x100 + b[off + 3] as int
  }

  /** The big-endian bytes of a 16-bit value read back as that value. */
  lemma U16Bytes(v: int)
    requires IsU16(v)
    ensures B1(v) * 0x100 + B0(v) == v
  {
    assert v == v / 0x100 * 0x100 + v % 0x100;
  }

  /** The big-endian bytes of a 32-bit value read back as that value. */
  lemma U32Bytes(w: int)
    requires IsU32(w)
    ensures B3(w) * 0x100_0000 + B2(w) * 0x1_0000 + B1(w) * 0x100 + B0(w) == w
  {
    var a := w / 0x100;
    var b := a / 0x100;
    var c := b / 0x100;
    assert w == a * 0x100 + w % 0x100;
    assert a == b * 0x100 + a % 0x100;
    assert b == c * 0x100 + b % 0x100;
  }

  lemma SplitByte(v: int, x: nat, y: Byte)
    requires v == x * 0x100 + y
    ensures v / 0x100 == x && v % 0x100 == y
  {}

  /** Reading two bytes and writing the value back gives the same two bytes. */
  lemma BytesU16(x: Byte, y: Byte)
    ensures B1(x as int * 0x100 + y) == x && B0(x as int * 0x100 + y) == y
  {
    SplitByte(x as int * 0x100 + y, x, y);
  }

  /** Reading four bytes and writing the value back gives the same four bytes. */
  lemma BytesU32(a: Byte, b: Byte, c: Byte, d: Byte)
    ensures var w := a as int * 0x100_0000 + b as int * 0x1_0000 + c as int * 0x100 + d;
      B3(w) == a && B2(w) == b && B1(w) == c && B0(w) == d
  {
    var w := a as int * 0x100_0000 + b as int * 0x1_0000 + c as int * 0x100 + d;
    var hi := a as int * 0x1_0000 + b as int * 0x100 + c;
    SplitByte(w, hi, d);
    SplitByte(hi, a as int * 0x100 + b, c);
    SplitByte(a as int * 0x100 + b, a, b);
  }

  /** The 20-byte header packetToBuffer writes: type|version, extension,
      then connection, timestamp, timediff, window, seq and ack big-endian. */
  function Header(p: Packet): (r: seq<Byte>)
    requires Encodable(p)
    ensures |r| == HEADER_SIZE
  {
    [TypeVersion(p.id), EXTENSION,
     B1(p.connection), B0(p.connection),
     B3(p.timestamp), B2(p.timestamp), B1(p.timestamp), B0(p.timestamp),
     B3(p.timediff), B2(p.timediff), B1(p.timediff), B0(p.timediff),
     B3(p.window), B2(p.window), B1(p.window), B0(p.window),
     B1(p.seqNr), B0(p.seqNr),
     B1(p.ack), B0(p.ack)]
  }

  /** packetToBuffer: the header followed by the payload bytes, if any. */
  function Encode(p: Packet): (r: seq<Byte>)
    requires Encodable(p)
    ensures |r| == HEADER_SIZE + |PayloadOf(p.data)|
  {
    Header(p) + PayloadOf(p.data)
  }

  /** Layout of an encoded packet: byte 0 is the type with the version bit
      set, byte 1 the extension, then the header fields big-endian at offsets
      2, 4, 8, 12, 16 and 18, then the payload. */
  lemma EncodeLayout(p: Packet)
    requires Encodable(p)
    ensures var r := Encode(p);
      && r[0] == p.id + VERSION && r[1] == EXTENSION
      && ReadU16(r, 2) == p.connection
      && ReadU32(r, 4) == p.timestamp
      && ReadU32(r, 8) == p.timediff
      && ReadU32(r, 12) == p.window
      && ReadU16(r, 16) == p.seqNr
      && ReadU16(r, 18) == p.ack
      && r[HEADER_SIZE..] == PayloadOf(p.data)
  {
    var h := Header(p);
    var r := Encode(p);
    assert r[..HEADER_SIZE] == h;
    U16Bytes(p.connection);
    U32Bytes(p.timestamp);
    U32Bytes(p.timediff);
    U32Bytes(p.window);
    U16Bytes(p.seqNr);
    U16Bytes(p.ack);
  }

  /** bufferToPacket. A buffer shorter than the header makes the field
      readers throw; that outcome is None. The payload is the bytes after the
      header when there are any, and null otherwise. */
  function Decode(b: seq<Byte>): (r: Option<Packet>)
    ensures r.Some? <==> |b| >= HEADER_SIZE
    ensures r.Some? ==> Encodable(r.value)
    ensures r.Some? ==> r.value.data == if |b| > HEADER_SIZE then Some(b[HEADER_SIZE..]) else None
  {
    if |b| < HEADER_SIZE then None
    else
      Some(Packet(
        id := TypeOf(b[0]),
        connection := ReadU16(b, 2),
        timestamp := ReadU32(b, 4),
        timediff := ReadU32(b, 8),
        window := ReadU32(b, 12),
        seqNr := ReadU16(b, 16),
        ack := ReadU16(b, 18),
        data := if |b| > HEADER_SIZE then Some(b[HEADER_SIZE..]) else None))
  }

  /** An empty buffer payload is not distinguishable from none on the wire. */
  function NormalizeData(data: Option<seq<Byte>>): Option<seq<Byte>> {
    if data.Some? && data.value != [] then data else None
  }

  /** Round trip: decoding an encoded packet gives back every header field;
      a non-empty payload comes back byte-equal, an empty or absent one as null. */
  lemma DecodeEncode(p: Packet)
    requires Encodable(p)
    ensures Decode(Encode(p)) == Some(p.(data := NormalizeData(p.data)))
  {
    EncodeLayout(p);
  }

  /** The fields of a decoded header, re-encoded, are the header's own bytes. */
  lemma ReencodeHeader(b: seq<Byte>)
    requires |b| >= HEADER_SIZE && b[0] % 16 == VERSION && b[1] == EXTENSION
    ensures Encode(Decode(b).value) == b
  {
    var p := Decode(b).value;
    BytesU16(b[2], b[3]);
    BytesU32(b[4], b[5], b[6], b[7]);
    BytesU32(b[8], b[9], b[10], b[11]);
    BytesU32(b[12], b[13], b[14], b[15]);
    BytesU16(b[16], b[17]);
    BytesU16(b[18], b[19]);
    assert Header(p) == b[..HEADER_SIZE];
    assert PayloadOf(p.data) == b[HEADER_SIZE..];
    assert b == b[..HEADER_SIZE] + b[HEADER_SIZE..];
  }

  /** The converse round trip: re-encoding a decoded buffer reproduces it
      exactly when its low nibble carries the version and byte 1 is zero. */
  lemma EncodeDecode(b: seq<Byte>)
    requires |b| >= HEADER_SIZE
    ensures Decode(b).Some?
    ensures Encode(Decode(b).value) == b <==> (b[0] % 16 == VERSION && b[1] == EXTENSION)
  {
    if b[0] % 16 == VERSION && b[1] == EXTENSION {
      ReencodeHeader(b);
    } else {
      EncodeLayout(Decode(b).value);
    }
  }
}
