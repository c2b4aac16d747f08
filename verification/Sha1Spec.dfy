/**
 SHA-1 as a function of the whole message, after sections 4 to 6.1 of RFC 3174. The operations on
 words are parameters; Sha1Words gives those of the standard.
 */
module Sha1Spec {
  import opened Basics

  datatype Hash<W> = Hash(a: W, b: W, c: W, d: W, e: W)

  const LENGTH_RANGE: nat := 0x1_0000_0000_0000_0000

  // ---------------------------------------------------------------- sections 4 and 2: padding

  function Zeros(n: nat): (z: seq<Octet>)
    ensures |z| == n && forall i :: 0 <= i < n ==> z[i] == 0
  {
    seq(n, _ => 0)
  }

  /** Byte i, counted from the lowest, of a number. */
  function ByteOf(n: nat, i: nat): Octet {
    if i == 0 then n % 256 else ByteOf(n / 256, i - 1)
  }

  /** A 64-bit number, highest byte first. */
  function LengthBytes(n: nat): (b: seq<Octet>)
    ensures |b| == 8
  {
    seq(8, i requires 0 <= i < 8 => ByteOf(n, 7 - i))
  }

  /** The fewest zero bytes after the byte 0x80 that leave room for the length at a block's end. */
  function ZeroCount(len: nat): nat {
    (55 - len) % 64
  }

  function Padding(len: nat): seq<Octet> {
    [0x80] + Zeros(ZeroCount(len)) + LengthBytes(8 * len)
  }

  function Pad(message: seq<Octet>): seq<Octet> {
    message + Padding(|message|)
  }

  /** The padding fills the last block, with fewer than 64 zero bytes. */
  lemma PaddingFills(len: nat)
    ensures (len + |Padding(len)|) % 64 == 0 && ZeroCount(len) < 64
  {
  }

  // ---------------------------------------------------------------- section 4: blocks

  type Block = b: seq<Octet> | |b| == 64 witness Zeros(64)

  /** Chunks one after the other. */
  function Joined<T>(chunks: seq<seq<T>>): seq<T> {
    if chunks == [] then [] else Joined(chunks[..|chunks| - 1]) + chunks[|chunks| - 1]
  }

  lemma JoinedMore<T>(chunks: seq<seq<T>>, chunk: seq<T>)
    ensures Joined(chunks + [chunk]) == Joined(chunks) + chunk
  {
    assert (chunks + [chunk])[..|chunks|] == chunks;
  }

  /** A padded message viewed as blocks. */
  function Blocks(p: seq<Octet>): seq<Block> {
    if |p| < 64 then [] else Blocks(p[..|p| - 64]) + [p[|p| - 64..]]
  }

  lemma {:induction false} BlocksOfJoined(blocks: seq<Block>)
    ensures |Joined(blocks)| == 64 * |blocks| && Blocks(Joined(blocks)) == blocks
  {
    if blocks != [] {
      var k := |blocks| - 1;
      var p, last := Joined(blocks[..k]), blocks[k];
      BlocksOfJoined(blocks[..k]);
      assert (p + last)[..|p|] == p && (p + last)[|p|..] == last;
    }
  }

  // ---------------------------------------------------------------- section 6.1: with any operations

  /** Words and the operations on them: the initial state, the constants, four bytes as a word and
      back, additions, exclusive disjunction, circular shifts, and the functions of the rounds. */
  datatype Arithmetic<!W> = Arithmetic(
    initial: Hash<W>,
    constants: nat -> W,
    bigEndian: (Octet, Octet, Octet, Octet) -> W,
    byteOf: (W, nat) -> Octet,
    plus: (W, W) -> W,
    sum: (W, W, W, W, W) -> W,
    xor: (W, W, W, W) -> W,
    rotate: (nat, W) -> W,
    choose: (W, W, W) -> W,
    parity: (W, W, W) -> W,
    majority: (W, W, W) -> W)
  {
    function F(t: nat, b: W, c: W, d: W): W {
      if t < 20 then choose(b, c, d)
      else if t < 40 then parity(b, c, d)
      else if t < 60 then majority(b, c, d)
      else parity(b, c, d)
    }

    function Schedule(block: Block, t: nat): W {
      if t < 16 then bigEndian(block[4 * t], block[4 * t + 1], block[4 * t + 2], block[4 * t + 3])
      else rotate(1, xor(Schedule(block, t - 3), Schedule(block, t - 8),
                         Schedule(block, t - 14), Schedule(block, t - 16)))
    }

    function Round(h: Hash<W>, t: nat, w: W): Hash<W> {
      Hash(sum(rotate(5, h.a), F(t, h.b, h.c, h.d), h.e, w, constants(t / 20)), h.a, rotate(30, h.b), h.c, h.d)
    }

    /** The word buffers after the first t rounds. */
    function Rounds(h: Hash<W>, words: seq<W>, t: nat): Hash<W>
      requires t <= |words|
    {
      if t == 0 then h else Round(Rounds(h, words, t - 1), t - 1, words[t - 1])
    }

    /** The message schedule of a block. */
    function Words(block: Block): seq<W> {
      seq(80, t requires 0 <= t < 80 => Schedule(block, t))
    }

    function Add(g: Hash<W>, h: Hash<W>): Hash<W> {
      Hash(plus(g.a, h.a), plus(g.b, h.b), plus(g.c, h.c), plus(g.d, h.d), plus(g.e, h.e))
    }

    function Compress(h: Hash<W>, block: Block): Hash<W> {
      var w := Words(block);
      Add(h, Rounds(h, w, |w|))
    }

    /** Every block of the message in turn. */
    function Absorb(blocks: seq<Block>): Hash<W> {
      if blocks == [] then initial else Compress(Absorb(blocks[..|blocks| - 1]), blocks[|blocks| - 1])
    }

    lemma AbsorbMore(blocks: seq<Block>, block: Block)
      ensures Absorb(blocks + [block]) == Compress(Absorb(blocks), block)
    {
      assert (blocks + [block])[..|blocks|] == blocks;
    }

    function WordBytes(w: W): seq<Octet> {
      [byteOf(w, 3), byteOf(w, 2), byteOf(w, 1), byteOf(w, 0)]
    }

    function Digest(h: Hash<W>): seq<Octet> {
      WordBytes(h.a) + WordBytes(h.b) + WordBytes(h.c) + WordBytes(h.d) + WordBytes(h.e)
    }

    function Sha1(message: seq<Octet>): seq<Octet> {
      Digest(Absorb(Blocks(Pad(message))))
    }
  }
}
