/** WebSocket frames (section 5.2 of RFC 6455): reading a masked frame in two parts, and writing. */
module WebSocketFrames {
  import opened Basics
  import opened Octets

  const MAX_PACKET_LENGTH := 50 * 1024 * 1024
  const SHORT_MAX := 32767
  const MAX_HEADER_LEN := 14

  // ---------------------------------------------------------------- header bytes

  /** The two fixed header bytes as bit fields, from the lowest bit of the first byte on. */
  datatype Header = Header(opcode: nat, rsv: nat, fin: nat, length: nat, mask: nat) {
    ghost predicate Valid() {
      opcode < 16 && rsv < 8 && fin < 2 && length < 128 && mask < 2
    }
  }

  function HeaderBytes(h: Header): (b: seq<Octet>)
    requires h.Valid()
    ensures |b| == 2
  {
    [h.opcode + 16 * h.rsv + 128 * h.fin, h.length + 128 * h.mask]
  }

  function HeaderOf(b0: Octet, b1: Octet): (h: Header)
    ensures h.Valid()
  {
    Header(b0 % 16, b0 / 16 % 8, b0 / 128, b1 % 128, b1 / 128)
  }

  lemma HeaderRoundTrip(h: Header)
    requires h.Valid()
    ensures HeaderOf(HeaderBytes(h)[0], HeaderBytes(h)[1]) == h
  {
    var first := h.opcode + 16 * h.rsv + 128 * h.fin;
    assert first % 16 == h.opcode && first / 16 == h.rsv + 8 * h.fin;
    assert (h.rsv + 8 * h.fin) % 8 == h.rsv && first / 128 == h.fin;
    var second := h.length + 128 * h.mask;
    assert second % 128 == h.length && second / 128 == h.mask;
  }

  /** A 16-bit number in network byte order. */
  function Put16(n: nat): (b: seq<Octet>)
    ensures |b| == 2
  {
    [n / 256 % 256, n % 256]
  }

  /** A 32-bit number in network byte order. */
  function Put32(n: nat): (b: seq<Octet>)
    ensures |b| == 4
  {
    [n / 0x100_0000 % 256, n / 0x1_0000 % 256, n / 256 % 256, n % 256]
  }

  function Get16(b: seq<Octet>): nat
    requires |b| == 2
  {
    256 * (b[0] as int) + b[1] as int
  }

  function Get32(b: seq<Octet>): nat
    requires |b| == 4
  {
    0x100_0000 * (b[0] as int) + 0x1_0000 * (b[1] as int) + 256 * (b[2] as int) + b[3] as int
  }

  lemma NumbersRoundTrip(n: nat)
    ensures n < 0x1_0000 ==> Get16(Put16(n)) == n
    ensures n < 0x1_0000_0000 ==> Get32(Put32(n)) == n
  {
  }

  /** The three forms of a payload length. */
  datatype Form = Short | Medium | Long

  ghost predicate Fits(n: nat, form: Form) {
    match form
    case Short => n < 126
    case Medium => n < 0x1_0000
    case Long => n <= MAX_PACKET_LENGTH
  }

  /** The length field of the second header byte. */
  function Field(n: nat, form: Form): nat {
    match form
    case Short => n
    case Medium => 126
    case Long => 127
  }

  /** The extended length. */
  function Extension(n: nat, form: Form): seq<Octet> {
    match form
    case Short => []
    case Medium => Put16(n)
    case Long => ZERO32 + Put32(n)
  }

  const ZERO32: seq<Octet> := [0, 0, 0, 0]

  // ---------------------------------------------------------------- reading a header

  datatype Prefix =
    | Rejected
    | Accepted(header: Header, length: nat, key: seq<Octet>, offset: nat)

  /** What the header rules read off the front of a buffer. */
  function ReadPrefix(b: seq<Octet>): (p: Prefix)
    requires |b| >= MAX_HEADER_LEN
    ensures p.Accepted? ==> 2 <= p.offset <= MAX_HEADER_LEN && |p.key| == 4 && p.length <= MAX_PACKET_LENGTH
  {
    var h := HeaderOf(b[0], b[1]);
    if h.length < 126 then WithKey(b, h, h.length, 2)
    else if h.length == 126 then WithKey(b, h, Get16(b[2..4]), 4)
    else
      var high, low := Get32(b[2..6]), Get32(b[6..10]);
      if high != 0 || low > MAX_PACKET_LENGTH then Rejected else WithKey(b, h, low, 10)
  }

  function WithKey(b: seq<Octet>, h: Header, length: nat, offset: nat): (p: Prefix)
    requires offset + 4 <= |b|
    ensures p.Accepted? && |p.key| == 4 && p.length == length && p.offset >= offset
  {
    if h.mask == 0 then Accepted(h, length, ZERO32, offset)
    else Accepted(h, length, b[offset..offset + 4], offset + 4)
  }

  /** The bytes of a frame before its payload. */
  function PrefixBytes(h: Header, n: nat, form: Form, key: seq<Octet>): seq<Octet>
    requires h.Valid() && h.length == Field(n, form)
  {
    HeaderBytes(h) + Extension(n, form) + (if h.mask == 0 then [] else key)
  }

  lemma At(p: seq<Octet>, q: seq<Octet>, r: seq<Octet>, b: seq<Octet>)
    requires p + q + r <= b
    ensures |p| + |q| + |r| <= |b| && b[..|p|] == p
    ensures b[|p|..|p| + |q|] == q && b[|p| + |q|..|p| + |q| + |r|] == r
  {
    assert b[..|p| + |q| + |r|] == p + q + r;
  }

  /** What is read with the bytes of a given length form at their places. */
  lemma ReadForm(b: seq<Octet>, h: Header, n: nat, form: Form)
    requires |b| >= MAX_HEADER_LEN && h.length == Field(n, form) && HeaderOf(b[0], b[1]) == h
    requires form.Short? ==> n < 126
    requires form.Medium? ==> Get16(b[2..4]) == n
    requires form.Long? ==> Get32(b[2..6]) == 0 && Get32(b[6..10]) == n <= MAX_PACKET_LENGTH
    ensures ReadPrefix(b) == WithKey(b, h, n, match form case Short => 2 case Medium => 4 case Long => 10)
  {
  }

  /** Reading gives back what was written, whatever follows. */
  lemma PrefixRoundTrip(h: Header, n: nat, form: Form, key: seq<Octet>, b: seq<Octet>)
    requires h.Valid() && Fits(n, form) && h.length == Field(n, form) && |key| == 4
    requires h.mask == 0 ==> key == ZERO32
    requires |b| >= MAX_HEADER_LEN && PrefixBytes(h, n, form, key) <= b
    ensures ReadPrefix(b) == Accepted(h, n, key, |PrefixBytes(h, n, form, key)|)
  {
    var first, ext, last := HeaderBytes(h), Extension(n, form), if h.mask == 0 then [] else key;
    At(first, ext, last, b);
    HeaderRoundTrip(h);
    assert b[0] == b[..2][0] && b[1] == b[..2][1];
    NumbersRoundTrip(n);
    if form.Long? {
      LongParts(n, b);
    }
    ReadForm(b, h, n, form);
  }

  lemma LongParts(n: nat, b: seq<Octet>)
    requires |b| >= 10 && b[2..10] == ZERO32 + Put32(n)
    ensures Get32(b[2..6]) == 0 && b[6..10] == Put32(n)
  {
    assert b[2..6] == b[2..10][..4] && b[6..10] == b[2..10][4..];
    assert b[2..6] == ZERO32;
  }

  // ---------------------------------------------------------------- masking

  /** Section 5.3 of RFC 6455, for data that begins at position `phase` of the payload. */
  function Masked(data: seq<Octet>, key: seq<Octet>, phase: nat): (m: seq<Octet>)
    requires |key| == 4
    ensures |m| == |data|
    ensures forall i :: 0 <= i < |data| ==> m[i] == XorByte(data[i], key[(phase + i) % 4])
  {
    seq(|data|, i requires 0 <= i < |data| => XorByte(data[i], key[(phase + i) % 4]))
  }

  /** Masking in two parts is masking at once, if the second part continues the phase. */
  lemma MaskedInParts(a: seq<Octet>, b: seq<Octet>, key: seq<Octet>, phase: nat)
    requires |key| == 4
    ensures Masked(a + b, key, phase) == Masked(a, key, phase) + Masked(b, key, phase + |a|)
  {
  }

  lemma MaskedTwice(data: seq<Octet>, key: seq<Octet>, phase: nat)
    requires |key| == 4
    ensures Masked(Masked(data, key, phase), key, phase) == data
  {
    forall i | 0 <= i < |data| ensures Masked(Masked(data, key, phase), key, phase)[i] == data[i] {
      XorTwice(data[i], key[(phase + i) % 4]);
    }
  }

  // ---------------------------------------------------------------- receiving

  /** Bytes of the stream arrive in a buffer. */
  method Receive(to: array<Octet>, at: nat, bytes: seq<Octet>)
    requires at + |bytes| <= to.Length
    modifies to
    ensures to[..at] == old(to[..at]) && to[at..at + |bytes|] == bytes
    ensures to[at + |bytes|..] == old(to[at + |bytes|..])
  {
    forall i | 0 <= i < |bytes| {
      to[at + i] := bytes[i];
    }
  }

  const SIZE_RANGE: nat := 0x1_0000_0000_0000_0000
  const WORD_RANGE: nat := 0x1_0000_0000

  /** How often a loop runs whose bound is a signed number compared as an unsigned one. */
  function Iterations(bound: int): nat {
    bound % SIZE_RANGE
  }

  ghost predicate InPayload(p: Prefix, i: nat)
    requires p.Accepted?
  {
    i < p.length
  }

  /** The unmasking loop writes no further than the payload. */
  ghost predicate Inside(p: Prefix, size: nat) {
    p.Accepted? && p.header.mask != 0 && p.length != 0 ==>
      forall i: nat :: i < Iterations(size - p.offset) ==> InPayload(p, i)
  }

  /** What the code does not check: the whole header is there, and no more than its payload. */
  predicate Complete(p: Prefix, size: nat) {
    p.Accepted? && p.header.mask != 0 && p.length != 0 ==> p.offset <= size <= p.offset + p.length
  }

  /** The loop stays inside if and only if the first read holds a whole header and no more than one
      frame. */
  lemma StaysInside(p: Prefix, size: nat)
    requires size < 0x8000_0000 && (p.Accepted? ==> p.offset <= MAX_HEADER_LEN && p.length < WORD_RANGE)
    ensures Inside(p, size) <==> Complete(p, size)
  {
    if p.Accepted? && p.header.mask != 0 && p.length != 0 {
      assert Iterations(size - p.offset) ==
        if size < p.offset then SIZE_RANGE + (size - p.offset) else size - p.offset;
      assert !InPayload(p, p.length);
    }
  }

  class Packet {
    var header: Header
    var key: seq<Octet>
    var length: nat  // the payload length the header announces
    var len: nat     // how much of the payload has been received
    var payload: array?<Octet>

    constructor ()
      ensures payload == null && length == 0 && len == 0
    {
      header := Header(0, 0, 0, 0, 0);
      key := ZERO32;
      length, len, payload := 0, 0, null;
    }

    ghost predicate Valid()
      reads this
    {
      |key| == 4 && len <= length && (payload == null <==> length == 0)
      && (payload != null ==> payload.Length == length)
    }

    /** Unmasks bytes into another buffer, or in place, as payload bytes from position `phase` on. */
    static method Unmask(to: array<Octet>, start: nat, from: array<Octet>, at: nat, size: nat,
                         key: seq<Octet>, phase: nat)
      requires |key| == 4 && start + size <= to.Length && at + size <= from.Length
      requires from == to ==> at == start
      modifies to
      ensures to[..start] == old(to[..start]) && to[start + size..] == old(to[start + size..])
      ensures to[start..start + size] == Masked(old(from[at..at + size]), key, phase)
    {
      ghost var data := from[at..at + size];
      var i := 0;
      while i < size
        invariant i <= size
        invariant forall k {:trigger to[k]} :: 0 <= k < to.Length && !(start <= k < start + i) ==>
          to[k] == old(to[k])
        invariant forall k {:trigger from[k]} :: at + i <= k < at + size ==> from[k] == old(from[k])
        invariant forall k {:trigger to[k]} :: start <= k < start + i ==>
          to[k] == XorByte(data[k - start], key[(phase + (k - start)) % 4])
      {
        to[start + i] := XorByte(from[at + i], key[(phase + i) % 4]);
        i := i + 1;
      }
    }

    /** Reads the header and unmasks the part of the payload behind it. Without a mask the payload
        stays as it was allocated. */
    method ReadPacket(buffer: array<Octet>, size: nat) returns (ok: bool)
      requires MAX_HEADER_LEN <= buffer.Length && size <= buffer.Length && payload == null
      requires size >= 2 ==> Complete(ReadPrefix(buffer[..]), size)
      modifies this
      ensures ok <==> size >= 2 && ReadPrefix(buffer[..]).Accepted?
      ensures ok ==> payload == null || fresh(payload)
      ensures ok ==> Holds(ReadPrefix(buffer[..]), buffer[..], size)
    {
      if size < 2 {
        return false;
      }
      var p := ReadPrefix(buffer[..]);
      if p.Rejected? {
        return false;
      }
      var data := FirstPayload(p, buffer, size);
      Store(p, size, data);
      return true;
    }

    method Store(p: Prefix, size: nat, data: array?<Octet>)
      requires p.Accepted?
      modifies this
      ensures header == p.header && key == p.key && length == p.length && payload == data
      ensures len == (size - p.offset) % WORD_RANGE
      ensures 0 <= size - p.offset < WORD_RANGE ==> len == size - p.offset
    {
      header, key, length, len := p.header, p.key, p.length, (size - p.offset) % WORD_RANGE;
      payload := data;
    }

    /** The packet has the header, key and lengths that were read, and the unmasked part. */
    ghost predicate Holds(p: Prefix, buffer: seq<Octet>, size: nat)
      reads this, payload
      requires p.Accepted? && size <= |buffer| && |p.key| == 4
    {
      && header == p.header && key == p.key && length == p.length
      && len == (size - p.offset) % WORD_RANGE
      && (if length == 0 then payload == null else payload != null && payload.Length == length)
      && (header.mask != 0 && length != 0 ==>
            p.offset <= size && len <= length && payload[..len] == Masked(buffer[p.offset..size], key, 0))
    }

    /** Allocates the payload and unmasks what has arrived of it. */
    static method FirstPayload(p: Prefix, buffer: array<Octet>, size: nat) returns (data: array?<Octet>)
      requires p.Accepted? && |p.key| == 4 && size <= buffer.Length && Complete(p, size)
      ensures if p.length == 0 then data == null else data != null && fresh(data) && data.Length == p.length
      ensures p.header.mask != 0 && p.length != 0 ==>
        data[..size - p.offset] == Masked(buffer[p.offset..size], p.key, 0)
    {
      if p.length == 0 {
        return null;
      }
      data := new Octet[p.length];
      if p.header.mask != 0 {
        Unmask(data, 0, buffer, p.offset, size - p.offset, p.key, 0);
      }
    }

    /** Unmasks the next part of the payload from another buffer, or in place. */
    method DecodePacketData(from: array<Octet>, at: nat, size: nat) returns (ok: bool)
      requires Valid() && at + size <= from.Length && (from == payload ==> at == len)
      modifies payload
      ensures ok <==> payload != null && size <= length - len
      ensures ok ==>
        && payload[..len] == old(payload[..len])
        && payload[len..len + size] == Masked(old(from[at..at + size]), key, len)
        && payload[len + size..] == old(payload[len + size..])
      ensures !ok && payload != null ==> payload[..] == old(payload[..])
    {
      if payload == null {
        return false;
      }
      if size > length - len {
        return false;
      }
      Unmask(payload, len, from, at, size, key, len);
      return true;
    }

    /** Receives the rest of the payload behind what is there and unmasks it in place. */
    method ReceiveRest(rest: seq<Octet>) returns (ok: bool)
      requires Valid() && payload != null && |rest| == length - len
      modifies this`len, payload
      ensures ok && Valid() && len == length
      ensures payload[..] == old(payload[..len]) + Masked(rest, key, old(len))
    {
      ghost var head := payload[..len];
      Receive(payload, len, rest);
      ok := DecodePacketData(payload, len, |rest|);
      Cut(payload[..], len, |rest|);
      len := len + |rest|;
    }
  }

  /** The bytes a client sends for a payload: header, length, mask key and masked payload. */
  function MaskedFrame(h: Header, form: Form, key: seq<Octet>, data: seq<Octet>): (f: seq<Octet>)
    requires h.Valid() && h.mask == 1 && h.length == Field(|data|, form) && |key| == 4
  {
    PrefixBytes(h, |data|, form, key) + Masked(data, key, 0)
  }

  /** Reads the packet of a masked frame that begins in a buffer. */
  method ReadFirst(buffer: array<Octet>, first: nat) returns (packet: Packet)
    requires MAX_HEADER_LEN <= buffer.Length && 2 <= first <= buffer.Length
    requires var p := ReadPrefix(buffer[..]);
      p.Accepted? && p.header.mask == 1 && p.offset <= first <= p.offset + p.length
    ensures fresh(packet) && (packet.payload != null ==> fresh(packet.payload)) && packet.Valid()
    ensures var p := ReadPrefix(buffer[..]);
      && packet.header == p.header && packet.length == p.length && packet.key == p.key
      && packet.len == first - p.offset
      && (packet.payload != null ==>
            packet.payload[..packet.len] == Masked(buffer[..][p.offset..first], p.key, 0))
  {
    packet := new Packet();
    var ok := packet.ReadPacket(buffer, first);
  }

  /** Receives the first part of a frame and reads its packet. */
  method ReceiveFirst(frame: seq<Octet>, first: nat,
                      ghost h: Header, ghost form: Form, ghost mask: seq<Octet>, ghost data: seq<Octet>)
    returns (packet: Packet)
    requires h.Valid() && h.mask == 1 && Fits(|data|, form) && h.length == Field(|data|, form)
    requires |mask| == 4 && frame == MaskedFrame(h, form, mask, data)
    requires |PrefixBytes(h, |data|, form, mask)| <= first <= MAX_HEADER_LEN && first <= |frame|
    ensures packet.Valid() && packet.header == h && packet.length == |data| && packet.key == mask
    ensures packet.len == first - |PrefixBytes(h, |data|, form, mask)|
    ensures fresh(packet) && (packet.payload != null ==> fresh(packet.payload))
    ensures packet.payload != null ==>
      packet.payload[..packet.len] + Masked(frame[first..], mask, packet.len) == data
  {
    var rbuffer := new Octet[1024](_ => 0);
    Receive(rbuffer, 0, frame[..first]);
    assert rbuffer[..][0..first] == frame[..first];
    CutFrame(rbuffer[..], frame, first, h, form, mask, data);
    packet := ReadFirst(rbuffer, first);
  }

  /** Receives a frame in two parts: first at most 14 bytes with the whole header among them, then
      the rest, straight into the payload buffer, where it is unmasked in place. However the frame
      is cut, the payload is the one that was sent, unless the second part comes short. */
  method ReceiveFrame(frame: seq<Octet>, first: nat, second: nat,
                      ghost h: Header, ghost form: Form, ghost mask: seq<Octet>, ghost data: seq<Octet>)
    returns (ok: bool, packet: Packet)
    requires h.fin == 1 || h.opcode == 0
    requires h.Valid() && h.mask == 1 && Fits(|data|, form) && h.length == Field(|data|, form)
    requires |mask| == 4 && frame == MaskedFrame(h, form, mask, data)
    requires |PrefixBytes(h, |data|, form, mask)| <= first <= MAX_HEADER_LEN && first + second <= |frame|
    ensures ok <==> first + second == |frame|
    ensures packet.header == h && packet.length == |data|
    ensures ok ==> packet.len == |data|
    ensures ok && data != [] ==> packet.payload != null && packet.payload[..] == data
  {
    packet := ReceiveFirst(frame, first, h, form, mask, data);
    if packet.length > 0 && packet.len < packet.length {
      if second != packet.length - packet.len {
        return false, packet;
      }
      assert frame[first..first + second] == frame[first..];
      ok := packet.ReceiveRest(frame[first..first + second]);
    } else {
      assert frame[first..] == [];
      ok := true;
    }
  }

  /** What the receiver needs to know of a frame cut behind its header. */
  lemma CutFrame(buffer: seq<Octet>, frame: seq<Octet>, first: nat,
                 h: Header, form: Form, mask: seq<Octet>, data: seq<Octet>)
    requires h.Valid() && h.mask == 1 && Fits(|data|, form) && h.length == Field(|data|, form)
    requires |mask| == 4 && frame == MaskedFrame(h, form, mask, data)
    requires |PrefixBytes(h, |data|, form, mask)| <= first <= MAX_HEADER_LEN && first <= |frame|
    requires |buffer| >= MAX_HEADER_LEN && buffer[0..first] == frame[..first]
    ensures ReadPrefix(buffer) == Accepted(h, |data|, mask, |PrefixBytes(h, |data|, form, mask)|)
    ensures var offset := |PrefixBytes(h, |data|, form, mask)|;
      && first - offset <= |data| && |frame[first..]| == |data| - (first - offset)
      && Masked(buffer[offset..first], mask, 0) + Masked(frame[first..], mask, first - offset) == data
  {
    var prefix, masked := PrefixBytes(h, |data|, form, mask), Masked(data, mask, 0);
    var n := first - |prefix|;
    FirstPart(prefix, masked, buffer, first);
    PrefixRoundTrip(h, |data|, form, mask, buffer);
    UnmaskedInParts(data, mask, n);
    Rest(prefix, masked, first);
  }

  lemma Cut(s: seq<Octet>, n: nat, k: nat)
    requires n + k == |s|
    ensures s == s[..n] + s[n..n + k]
  {
  }

  lemma Rest(prefix: seq<Octet>, masked: seq<Octet>, first: nat)
    requires |prefix| <= first <= |prefix + masked|
    ensures (prefix + masked)[first..] == masked[first - |prefix|..]
  {
  }

  lemma FirstPart(prefix: seq<Octet>, masked: seq<Octet>, buffer: seq<Octet>, first: nat)
    requires |prefix| <= first <= |prefix + masked| && first <= |buffer|
    requires buffer[0..first] == (prefix + masked)[..first]
    ensures prefix <= buffer && buffer[|prefix|..first] == masked[..first - |prefix|]
  {
    assert buffer[..|prefix|] == buffer[0..first][..|prefix|] == prefix;
    assert buffer[|prefix|..first] == buffer[0..first][|prefix|..];
  }

  /** The mask phase carried over the cut makes both parts fit together. */
  lemma UnmaskedInParts(data: seq<Octet>, key: seq<Octet>, n: nat)
    requires |key| == 4 && n <= |data|
    ensures var m := Masked(data, key, 0); Masked(m[..n], key, 0) + Masked(m[n..], key, n) == data
    ensures Masked(Masked(data, key, 0), key, 0) == data
  {
    var m := Masked(data, key, 0);
    assert m[..n] + m[n..] == m;
    MaskedInParts(m[..n], m[n..], key, 0);
    MaskedTwice(data, key, 0);
  }

  // ---------------------------------------------------------------- sending

  /** The length form the writer chooses; it leaves the 16-bit form before its end. */
  function FormFor(n: nat): Form {
    if n < 126 then Short else if n < SHORT_MAX then Medium else Long
  }

  /** The number of bytes of a length form. */
  function FormSize(form: Form): nat {
    match form
    case Short => 0
    case Medium => 2
    case Long => 8
  }

  ghost predicate Minimal(n: nat, form: Form) {
    Fits(n, form) && forall f :: Fits(n, f) ==> FormSize(form) <= FormSize(f)
  }

  /** The writer chooses the shortest form exactly outside of 32767 to 65535. */
  lemma ShortestForm(n: nat)
    requires n <= 52_428_800
    ensures |Extension(n, FormFor(n))| == FormSize(FormFor(n))
    ensures Minimal(n, FormFor(n)) <==> n < 32767 || n > 65535
  {
    assert Fits(n, Medium) <==> n <= 0xFFFF;
    assert Fits(n, Long);
  }

  /** The header the server sends: unmasked and complete. */
  function SentHeader(h: Header, n: nat): Header {
    h.(mask := 0, fin := 1, length := Field(n, FormFor(n)))
  }

  /** The bytes of a packet on the wire. */
  function Wire(h: Header, data: seq<Octet>): seq<Octet>
    requires h.Valid()
  {
    PrefixBytes(SentHeader(h, |data|), |data|, FormFor(|data|), ZERO32) + data
  }

  /** How a send ends: whether the descriptor is valid, and the number of bytes taken or -1. */
  datatype Sent = Sent(valid: bool, count: int) {
    predicate Possible(message: seq<Octet>) {
      -1 <= count <= |message|
    }

    /** The bytes that went out. */
    function Part(message: seq<Octet>): seq<Octet>
      requires Possible(message)
    {
      if valid && count > 0 then message[..count] else []
    }

    /** What the wrapper returns; a send of no bytes counts as an error. */
    function Code(): int {
      if !valid then 0 else if count == 0 then -1 else count
    }
  }

  method SendMessage(wire: seq<Octet>, message: seq<Octet>, s: Sent) returns (r: int, now: seq<Octet>)
    requires s.Possible(message)
    ensures now == wire + s.Part(message) && r == s.Code()
  {
    if !s.valid {
      return 0, wire;
    }
    now := if s.count > 0 then wire + message[..s.count] else wire;
    r := if s.count == 0 then -1 else s.count;
  }

  /** Writes the extended length behind the place of the two fixed bytes. The wide form leaves the
      high half of the field as it is. */
  method PutLength(buffer: array<Octet>, n: nat) returns (field: nat, offset: nat)
    requires n < 0x1_0000_0000 && buffer.Length == MAX_HEADER_LEN && buffer[2..6] == ZERO32
    modifies buffer
    ensures field == Field(n, FormFor(n)) && 2 <= offset <= MAX_HEADER_LEN
    ensures buffer[2..offset] == Extension(n, FormFor(n))
  {
    if n < 126 {
      return n, 2;
    }
    if n < SHORT_MAX {
      Receive(buffer, 2, Put16(n));
      return 126, 4;
    }
    Receive(buffer, 6, Put32(n));
    assert buffer[2..6] == buffer[..6][2..6];
    assert buffer[2..10] == buffer[2..6] + buffer[6..6 + 4];
    return 127, 10;
  }

  lemma Behind(b: seq<Octet>, end: nat)
    requires 2 <= end <= |b|
    ensures b[2..end] == b[2..][..end - 2] && b[..end] == b[..2] + b[2..end]
  {
  }

  /** Builds the header in a buffer. */
  method BuildHeader(h: Header, n: nat) returns (buffer: array<Octet>, offset: nat)
    requires h.Valid() && n < 0x1_0000_0000
    ensures fresh(buffer) && offset <= buffer.Length
    ensures buffer[..offset] == PrefixBytes(SentHeader(h, n), n, FormFor(n), ZERO32)
  {
    buffer := new Octet[MAX_HEADER_LEN](_ => 0);
    var field;
    field, offset := PutLength(buffer, n);
    var first := HeaderBytes(h.(mask := 0, fin := 1, length := field));
    Behind(buffer[..], offset);
    Receive(buffer, 0, first);
    Behind(buffer[..], offset);
    assert buffer[..2] == buffer[0..0 + |first|];
  }

  /** The bytes of a packet's header on the wire. */
  function WireHeader(h: Header, n: nat): seq<Octet>
    requires h.Valid()
  {
    PrefixBytes(SentHeader(h, n), n, FormFor(n), ZERO32)
  }

  /** When sending reports success. The result of the second send is compared as an unsigned word. */
  predicate Succeeds(header: seq<Octet>, data: seq<Octet>, s1: Sent, s2: Sent) {
    && s1.valid && s1.count == |header|
    && if s2.valid then (data != [] && s2.count == |data|) || (s2.count <= 0 && |data| == WORD_RANGE - 1)
       else data == []
  }

  /** Sends a packet: first the header, then, if that went out, the payload. */
  method SendPacket(wire: seq<Octet>, h: Header, data: seq<Octet>, s1: Sent, s2: Sent)
    returns (code: int, now: seq<Octet>)
    requires h.Valid() && |data| < WORD_RANGE
    requires s1.Possible(WireHeader(h, |data|)) && s2.Possible(data)
    ensures code == if Succeeds(WireHeader(h, |data|), data, s1, s2) then 0 else 1
    ensures now == wire + s1.Part(WireHeader(h, |data|))
                 + (if s1.valid && s1.count == |WireHeader(h, |data|)| then s2.Part(data) else [])
    ensures code == 0 && |data| < WORD_RANGE - 1 ==> now == wire + Wire(h, data)
    ensures 0 < |data| < WORD_RANGE - 1 ==> (code == 0 <==> now == wire + Wire(h, data))
    ensures data == [] && s1.valid && s1.count == |WireHeader(h, 0)| && s2.valid ==>
      code == 1 && now == wire + Wire(h, data)
  {
    var buffer, offset := BuildHeader(h, |data|);
    ghost var header := buffer[..offset];
    var r;
    r, now := SendMessage(wire, buffer[..offset], s1);
    if r != offset {
      assert !(s1.valid && s1.count == |header|);
      return 1, now;
    }
    assert header[..offset] == header && data[..|data|] == data;
    assert wire + header + data == wire + (header + data);
    r, now := SendMessage(now, data, s2);
    if r % WORD_RANGE != |data| {
      return 1, now;
    }
    return 0, now;
  }

  // ---------------------------------------------------------------- splitting a stream

  datatype Frame = Frame(opcode: nat, rsv: nat, payload: seq<Octet>) {
    ghost predicate Sendable() {
      opcode < 16 && rsv < 8 && |payload| < 0x1_0000_0000
    }
  }

  datatype Frames = Broken | Frames(list: seq<Frame>)

  const BLANK: seq<Octet> := [0, 0, 0, 0, 0, 0, 0, 0, 0, 0, 0, 0, 0, 0]

  /** A byte stream cut into frames by the reader's header rules. */
  function Split(stream: seq<Octet>): Frames
    decreases |stream|
  {
    if stream == [] then Frames([])
    else
      var p := ReadPrefix(stream + BLANK);
      if p.Rejected? || p.offset + p.length > |stream| then Broken
      else
        var end := p.offset + p.length;
        var rest := Split(stream[end..]);
        if rest == Broken then Broken
        else Frames([Frame(p.header.opcode, p.header.rsv, stream[p.offset..end])] + rest.list)
  }

  function HeaderFor(f: Frame): (h: Header)
    requires f.Sendable()
    ensures h.Valid()
  {
    Header(f.opcode, f.rsv, 0, 0, 0)
  }

  /** The packets written one after the other. */
  function Stream(frames: seq<Frame>): seq<Octet>
    requires forall k :: 0 <= k < |frames| ==> frames[k].Sendable()
  {
    if frames == [] then [] else Wire(HeaderFor(frames[0]), frames[0].payload) + Stream(frames[1..])
  }

  /** No packet is longer than the reader accepts. */
  ghost predicate AllAccepted(frames: seq<Frame>) {
    forall k :: 0 <= k < |frames| ==> |frames[k].payload| <= 52_428_800
  }

  lemma FirstFrame(f: Frame, rest: seq<Octet>)
    requires f.Sendable() && |f.payload| <= MAX_PACKET_LENGTH
    ensures var wire := Wire(HeaderFor(f), f.payload); var s := wire + rest;
      var p := ReadPrefix(s + BLANK);
      && p.Accepted? && p.offset + p.length == |wire| && p.offset <= |wire|
      && p.header.opcode == f.opcode && p.header.rsv == f.rsv
      && s[p.offset..|wire|] == f.payload && s[|wire|..] == rest
  {
    var n := |f.payload|;
    var h := SentHeader(HeaderFor(f), n);
    var prefix := PrefixBytes(h, n, FormFor(n), ZERO32);
    var s := prefix + f.payload + rest;
    assert s + BLANK == prefix + (f.payload + rest + BLANK);
    PrefixRoundTrip(h, n, FormFor(n), ZERO32, s + BLANK);
  }

  lemma LongRejected(b: seq<Octet>)
    requires |b| >= MAX_HEADER_LEN && HeaderOf(b[0], b[1]).length == 127
    requires Get32(b[6..10]) > MAX_PACKET_LENGTH
    ensures ReadPrefix(b) == Rejected
  {
  }

  lemma TooLong(f: Frame, rest: seq<Octet>)
    requires f.Sendable() && |f.payload| > 52_428_800
    ensures ReadPrefix(Wire(HeaderFor(f), f.payload) + rest + BLANK) == Rejected
  {
    var n := |f.payload|;
    var h := SentHeader(HeaderFor(f), n);
    var b := Wire(HeaderFor(f), f.payload) + rest + BLANK;
    assert b == PrefixBytes(h, n, Long, ZERO32) + (f.payload + rest + BLANK);
    At(HeaderBytes(h), Extension(n, Long), [], b);
    HeaderRoundTrip(h);
    assert b[0] == b[..2][0] && b[1] == b[..2][1];
    NumbersRoundTrip(n);
    LongParts(n, b);
    LongRejected(b);
  }

  /** What is sent splits back into the same packets, in order, if no packet is longer than the
      reader accepts, and only then. */
  lemma {:induction false} StreamSplits(frames: seq<Frame>)
    requires forall k :: 0 <= k < |frames| ==> frames[k].Sendable()
    ensures Split(Stream(frames)) == if AllAccepted(frames) then Frames(frames) else Broken
  {
    if frames != [] {
      var first, rest := frames[0], frames[1..];
      StreamSplits(rest);
      assert [first] + rest == frames;
      if |first.payload| <= MAX_PACKET_LENGTH {
        FirstFrame(first, Stream(rest));
        assert AllAccepted(frames) <==> AllAccepted(rest);
      } else {
        TooLong(first, Stream(rest));
      }
    }
  }
}
