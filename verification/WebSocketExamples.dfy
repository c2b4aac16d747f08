/** The bytes of numbers and masks, and the example frames of section 5.7 of RFC 6455. */
module WebSocketExamples {
  import opened Basics
  import opened Octets
  import opened WebSocketFrames

  /** The value of bytes in network byte order. */
  ghost predicate Reads(b: seq<Octet>, n: int) {
    && (|b| == 2 ==> n == 256 * (b[0] as int) + b[1] as int)
    && (|b| == 4 ==> n == 0x100_0000 * (b[0] as int) + 0x1_0000 * (b[1] as int) + 256 * (b[2] as int) + b[3] as int)
  }

  lemma NetworkOrderRead(b: seq<Octet>)
    ensures |b| == 2 ==> Reads(b, Get16(b))
    ensures |b| == 4 ==> Reads(b, Get32(b))
  {
  }

  /** Numbers are written and read with the highest byte first. */
  lemma NetworkOrder(n: nat)
    ensures n < 0x1_0000 ==> Reads(Put16(n), n)
    ensures n < 0x1_0000_0000 ==> Reads(Put32(n), n)
  {
    NumbersRoundTrip(n);
    NetworkOrderRead(Put16(n));
    NetworkOrderRead(Put32(n));
  }

  /** Masking flips exactly the bits of a byte that are set in the byte of the key. */
  lemma MaskFlipsBits(data: seq<Octet>, key: seq<Octet>, phase: nat, i: nat, x: Byte, y: Byte) returns (r: Byte)
    requires |key| == 4 && i < |data| && data[i] == x as int && key[(phase + i) % 4] == y as int
    ensures Masked(data, key, phase)[i] == r as int
    ensures r & y == !x & y && r & !y == x & !y
  {
    r := XorFlips(x, y);
  }

  const HELLO: seq<Octet> := [0x48, 0x65, 0x6C, 0x6C, 0x6F]
  const KEY: seq<Octet> := [0x37, 0xFA, 0x21, 0x3D]

  lemma HelloBytes()
    ensures XorByte(0x48, 0x37) == 0x7F && XorByte(0x65, 0xFA) == 0x9F && XorByte(0x6C, 0x21) == 0x4D
    ensures XorByte(0x6C, 0x3D) == 0x51 && XorByte(0x6F, 0x37) == 0x58
  {
  }

  lemma FiveMasked(data: seq<Octet>, key: seq<Octet>, m: seq<Octet>)
    requires |data| == |m| == 5 && |key| == 4
    requires XorByte(data[0], key[0]) == m[0] && XorByte(data[1], key[1]) == m[1] && XorByte(data[2], key[2]) == m[2]
    requires XorByte(data[3], key[3]) == m[3] && XorByte(data[4], key[0]) == m[4]
    ensures Masked(data, key, 0) == m
  {
    forall i | 0 <= i < 5 ensures Masked(data, key, 0)[i] == m[i] {
      assert (0 + i) % 4 == if i < 4 then i else 0;
    }
  }

  lemma HelloMasked()
    ensures Masked(HELLO, KEY, 0) == [0x7F, 0x9F, 0x4D, 0x51, 0x58]
  {
    HelloBytes();
    FiveMasked(HELLO, KEY, [0x7F, 0x9F, 0x4D, 0x51, 0x58]);
  }

  /** A single-frame masked text message. */
  const MASKED_HELLO: seq<Octet> := [0x81, 0x85, 0x37, 0xFA, 0x21, 0x3D, 0x7F, 0x9F, 0x4D, 0x51, 0x58]

  lemma HelloFrame()
    ensures MaskedFrame(Header(1, 0, 1, 5, 1), Short, KEY, HELLO) == MASKED_HELLO
  {
    HelloMasked();
  }

  /** It is read as "Hello". */
  lemma HelloRead(b: seq<Octet>)
    requires |b| >= 14 && b[..11] == [0x81, 0x85, 0x37, 0xFA, 0x21, 0x3D, 0x7F, 0x9F, 0x4D, 0x51, 0x58]
    ensures ReadPrefix(b) == Accepted(Header(1, 0, 1, 5, 1), 5, [0x37, 0xFA, 0x21, 0x3D], 6)
    ensures Masked(b[6..11], [0x37, 0xFA, 0x21, 0x3D], 0) == [0x48, 0x65, 0x6C, 0x6C, 0x6F]
  {
    HelloFrame();
    CutFrame(b, MASKED_HELLO, 11, Header(1, 0, 1, 5, 1), Short, KEY, HELLO);
  }

  /** The reader's packet then holds "Hello". */
  method ReadHello() returns (packet: Packet)
    ensures packet.payload != null && packet.payload[..] == [0x48, 0x65, 0x6C, 0x6C, 0x6F]
  {
    var buffer := new Octet[14](_ => 0);
    Receive(buffer, 0, [0x81, 0x85, 0x37, 0xFA, 0x21, 0x3D, 0x7F, 0x9F, 0x4D, 0x51, 0x58]);
    HelloRead(buffer[..]);
    packet := new Packet();
    var ok := packet.ReadPacket(buffer, 11);
  }

  /** The frames the server sends: "Hello" as a text, and the headers for 256 bytes and for 64 KiB of
      binary data. */
  lemma SentExamples(h: Header)
    requires h.Valid() && h.rsv == 0
    ensures h.opcode == 1 ==>
      Wire(h, [0x48, 0x65, 0x6C, 0x6C, 0x6F]) == [0x81, 0x05, 0x48, 0x65, 0x6C, 0x6C, 0x6F]
    ensures h.opcode == 2 ==> WireHeader(h, 256) == [0x82, 0x7E, 0x01, 0x00]
    ensures h.opcode == 2 ==>
      WireHeader(h, 65536) == [0x82, 0x7F, 0x00, 0x00, 0x00, 0x00, 0x00, 0x01, 0x00, 0x00]
  {
  }
}
