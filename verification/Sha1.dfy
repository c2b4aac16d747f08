/** The streaming SHA-1 context. */
module Sha1Context {
  import opened Basics
  import opened Sha1Spec

  const SHA_SUCCESS := 0
  const SHA_STATE_ERROR := 3

  const U32: nat := 0x1_0000_0000

  class Context<W(0)> {
    const sha: Arithmetic<W>
    const intermediate: array<W>
    const block: array<Octet>
    var lengthLow: nat
    var lengthHigh: nat
    var index: nat
    var computed: bool
    var corrupted: nat

    /** The bytes given since the last reset, and the blocks of them that were compressed. */
    ghost var message: seq<Octet>
    ghost var blocks: seq<Block>

    function State(): Hash<W>
      reads intermediate
      requires intermediate.Length == 5
    {
      Hash(intermediate[0], intermediate[1], intermediate[2], intermediate[3], intermediate[4])
    }

    ghost predicate Shaped()
      reads this
    {
      && intermediate.Length == 5 && block.Length == 64
      && lengthLow < U32 && lengthHigh < U32
    }

    /** The full blocks of the message are compressed, the rest is buffered. */
    ghost predicate Buffered()
      reads this`index, this`message, this`blocks, intermediate, block
    {
      && intermediate.Length == 5 && block.Length == 64 && index < 64
      && message == Joined(blocks) + block[..index]
      && State() == sha.Absorb(blocks)
    }

    /** The two length words count the bits of the message. */
    ghost predicate LengthKept()
      reads this`lengthLow, this`lengthHigh, this`message
    {
      lengthHigh * U32 + lengthLow == 8 * |message|
    }

    /** The padded message is compressed. */
    ghost predicate Finished()
      reads this`message, intermediate
    {
      intermediate.Length == 5 && State() == sha.Absorb(Blocks(Pad(message)))
    }

    /** Before the end of the message, unless it was too long. */
    ghost predicate Absorbing()
      reads this, intermediate, block
    {
      Shaped() && (corrupted == 0 ==> Buffered() && LengthKept())
    }

    ghost predicate Valid()
      reads this, intermediate, block
    {
      if computed then Shaped() && (corrupted == 0 ==> Finished()) else Absorbing()
    }

    constructor (sha: Arithmetic<W>)
      ensures Valid() && this.sha == sha && message == [] && !computed && corrupted == 0
      ensures fresh(intermediate) && fresh(block)
    {
      this.sha := sha;
      intermediate := new W[5];
      block := new Octet[64];
      lengthLow, lengthHigh, index, computed, corrupted := 0, 0, 0, false, 0;
      message, blocks := [], [];
      new;
      var _ := Reset();
    }

    method Reset() returns (code: nat)
      requires Shaped()
      modifies this, intermediate
      ensures Valid() && message == [] && !computed && corrupted == 0 && code == 0
    {
      StartOver();
      computed := false;
      return SHA_SUCCESS;
    }

    method StartOver()
      requires Shaped()
      modifies this`lengthLow, this`lengthHigh, this`index, this`corrupted, this`message, this`blocks,
               intermediate
      ensures Absorbing() && message == [] && corrupted == 0
    {
      lengthLow := 0;
      lengthHigh := 0;
      index := 0;
      SetInitial();
      corrupted := 0;
      message, blocks := [], [];
      assert block[..index] == [];
    }

    method SetInitial()
      requires intermediate.Length == 5
      modifies intermediate
      ensures State() == sha.initial
    {
      intermediate[0] := sha.initial.a;
      intermediate[1] := sha.initial.b;
      intermediate[2] := sha.initial.c;
      intermediate[3] := sha.initial.d;
      intermediate[4] := sha.initial.e;
    }

    /** The 80 words of the message schedule. */
    method Expand(ghost b: Block) returns (w: array<W>)
      requires block.Length == 64 && b == block[..]
      ensures fresh(w) && w[..] == sha.Words(b)
    {
      w := new W[80];
      var t := 0;
      while t < 16
        invariant 0 <= t <= 16
        invariant forall u :: 0 <= u < t ==> w[u] == sha.Schedule(b, u)
      {
        w[t] := sha.bigEndian(block[t * 4], block[t * 4 + 1], block[t * 4 + 2], block[t * 4 + 3]);
        t := t + 1;
      }
      while t < 80
        invariant 16 <= t <= 80
        invariant forall u :: 0 <= u < t ==> w[u] == sha.Schedule(b, u)
      {
        w[t] := sha.rotate(1, sha.xor(w[t - 3], w[t - 8], w[t - 14], w[t - 16]));
        t := t + 1;
      }
    }

    /** The 80 rounds on the word buffers. */
    method RunRounds(h: Hash<W>, w: array<W>) returns (r: Hash<W>)
      requires w.Length == 80
      ensures r == sha.Rounds(h, w[..], 80)
    {
      ghost var ws := w[..];
      var A, B, C, D, E := h.a, h.b, h.c, h.d, h.e;
      var t := 0;
      while t < 20
        invariant 0 <= t <= 20 && Hash(A, B, C, D, E) == sha.Rounds(h, ws, t)
      {
        var temp := sha.sum(sha.rotate(5, A), sha.choose(B, C, D), E, w[t], sha.constants(0));
        E := D;
        D := C;
        C := sha.rotate(30, B);
        B := A;
        A := temp;
        t := t + 1;
      }
      while t < 40
        invariant 20 <= t <= 40 && Hash(A, B, C, D, E) == sha.Rounds(h, ws, t)
      {
        var temp := sha.sum(sha.rotate(5, A), sha.parity(B, C, D), E, w[t], sha.constants(1));
        E := D;
        D := C;
        C := sha.rotate(30, B);
        B := A;
        A := temp;
        t := t + 1;
      }
      while t < 60
        invariant 40 <= t <= 60 && Hash(A, B, C, D, E) == sha.Rounds(h, ws, t)
      {
        var temp := sha.sum(sha.rotate(5, A), sha.majority(B, C, D), E, w[t], sha.constants(2));
        E := D;
        D := C;
        C := sha.rotate(30, B);
        B := A;
        A := temp;
        t := t + 1;
      }
      while t < 80
        invariant 60 <= t <= 80 && Hash(A, B, C, D, E) == sha.Rounds(h, ws, t)
      {
        var temp := sha.sum(sha.rotate(5, A), sha.parity(B, C, D), E, w[t], sha.constants(3));
        E := D;
        D := C;
        C := sha.rotate(30, B);
        B := A;
        A := temp;
        t := t + 1;
      }
      return Hash(A, B, C, D, E);
    }

    method ProcessMessageBlock()
      requires Shaped()
      modifies this`index, intermediate
      ensures index == 0 && State() == sha.Compress(old(State()), block[..])
    {
      var w := Expand(block[..]);
      var r := RunRounds(State(), w);
      intermediate[0] := sha.plus(intermediate[0], r.a);
      intermediate[1] := sha.plus(intermediate[1], r.b);
      intermediate[2] := sha.plus(intermediate[2], r.c);
      intermediate[3] := sha.plus(intermediate[3], r.d);
      intermediate[4] := sha.plus(intermediate[4], r.e);
      index := 0;
    }

    /** Adds eight bits to the length, which must stay below 2^64. */
    method CountByte()
      requires lengthLow < U32 && lengthHigh < U32 && LengthKept()
      modifies this`lengthLow, this`lengthHigh, this`corrupted
      ensures lengthLow < U32 && lengthHigh < U32
      ensures if 8 * (|message| + 1) < LENGTH_RANGE
        then corrupted == old(corrupted) && lengthHigh * U32 + lengthLow == 8 * (|message| + 1)
        else corrupted == 1
    {
      lengthLow := (lengthLow + 8) % U32;
      if lengthLow == 0 {
        lengthHigh := (lengthHigh + 1) % U32;
        if lengthHigh == 0 {
          corrupted := 1;
        }
      }
    }

    /** Buffers one byte, counts it and compresses the block it completes. */
    method TakeByte(b: Octet)
      requires Absorbing() && corrupted == 0
      modifies this`index, this`lengthLow, this`lengthHigh, this`corrupted, this`message, this`blocks,
               intermediate, block
      ensures message == old(message) + [b] && Absorbing()
      ensures corrupted == if 8 * |message| < LENGTH_RANGE then 0 else 1
    {
      StoreByte(b);
      CountByte();
      message := message + [b];
      if index == 64 {
        Flush();
      }
    }

    /** Appends a byte to the buffer. */
    method StoreByte(b: Octet)
      requires block.Length == 64 && index < 64 && message == Joined(blocks) + block[..index]
      modifies this`index, block
      ensures index == old(index) + 1 && message + [b] == Joined(blocks) + block[..index]
    {
      ghost var rest := block[..index];
      block[index] := b;
      index := index + 1;
      assert block[..index] == rest + [b];
    }

    /** Compresses a full buffer. */
    method Flush()
      requires Shaped() && index == 64 && State() == sha.Absorb(blocks)
      requires message == Joined(blocks) + block[..index]
      modifies this`index, this`blocks, intermediate
      ensures Buffered()
    {
      assert block[..index] == block[..];
      sha.AbsorbMore(blocks, block[..]);
      JoinedMore(blocks, block[..]);
      ProcessMessageBlock();
      blocks := blocks + [block[..]];
      assert block[..index] == [];
    }

    /** Takes in the next portion of the message. A message that reaches 2^64 bits corrupts the
        context, although this call still reports success. */
    method Input(data: seq<Octet>) returns (code: nat)
      requires Valid()
      modifies this`index, this`lengthLow, this`lengthHigh, this`corrupted, this`message, this`blocks,
               intermediate, block
      ensures Valid()
      ensures data == [] ==> code == 0 && message == old(message) && corrupted == old(corrupted)
      ensures data != [] && computed ==> code == corrupted == 3 && message == old(message)
      ensures data != [] && !computed && old(corrupted) != 0 ==>
        code == corrupted == old(corrupted) && message == old(message)
      ensures data != [] && !computed && old(corrupted) == 0 ==> code == 0
      ensures !computed && old(corrupted) == 0 && 8 * (|old(message)| + |data|) < 0x1_0000_0000_0000_0000 ==>
        corrupted == 0 && message == old(message) + data
      ensures !computed && old(corrupted) == 0 && data != [] ==>
        (corrupted == 1 <==> 8 * (|old(message)| + |data|) >= 0x1_0000_0000_0000_0000)
    {
      if |data| == 0 {
        return SHA_SUCCESS;
      }
      if computed {
        corrupted := SHA_STATE_ERROR;
        return SHA_STATE_ERROR;
      }
      if corrupted != 0 {
        return corrupted;
      }
      TakeBytes(data);
      return SHA_SUCCESS;
    }

    /** Takes bytes in until the message is too long. */
    method TakeBytes(data: seq<Octet>)
      requires Absorbing() && corrupted == 0 && data != []
      modifies this`index, this`lengthLow, this`lengthHigh, this`corrupted, this`message, this`blocks,
               intermediate, block
      ensures Absorbing()
      ensures corrupted == if 8 * (|old(message)| + |data|) < LENGTH_RANGE then 0 else 1
      ensures corrupted == 0 ==> message == old(message) + data
    {
      ghost var before := message;
      var i := 0;
      while i < |data| && corrupted == 0
        invariant i <= |data| && Absorbing()
        invariant message == before + data[..i]
        invariant corrupted == if i > 0 && 8 * |message| >= LENGTH_RANGE then 1 else 0
      {
        assert data[..i + 1] == data[..i] + [data[i]];
        TakeByte(data[i]);
        i := i + 1;
      }
      assert corrupted == 0 ==> data[..i] == data;
    }

    /** Fills the buffer with zeros up to a position. */
    method FillZeros(upto: nat)
      requires block.Length == 64 && index <= upto <= 64
      modifies this`index, block
      ensures index == upto && block[..upto] == old(block[..index]) + Zeros(upto - old(index))
    {
      ghost var start, kept := index, block[..index];
      while index < upto
        invariant start <= index <= upto
        invariant block[..index] == kept + Zeros(index - start)
      {
        ghost var before := block[..index];
        block[index] := 0;
        index := index + 1;
        assert block[..index] == before + [0];
      }
    }

    /** Stores a 32-bit word in the buffer, highest byte first. */
    method StoreWord(at: nat, word: nat)
      requires block.Length == 64 && at + 4 <= 64
      modifies block
      ensures block[..] == old(block[..at]) + LengthWord(word) + old(block[at + 4..])
    {
      block[at] := word / 0x100_0000 % 256;
      block[at + 1] := word / 0x1_0000 % 256;
      block[at + 2] := word / 0x100 % 256;
      block[at + 3] := word % 256;
    }

    /** Stores the message length in the last eight bytes of the buffer. */
    method StoreLength()
      requires Shaped()
      modifies block
      ensures block[..] == old(block[..56]) + LengthBytes(lengthHigh * U32 + lengthLow)
    {
      ghost var kept := block[..56];
      StoreWord(56, lengthHigh);
      assert block[..60] == kept + LengthWord(lengthHigh);
      StoreWord(60, lengthLow);
      LengthWords(lengthHigh, lengthLow);
      assert block[..] == kept + (LengthWord(lengthHigh) + LengthWord(lengthLow));
    }

    /** Stores the byte that begins the padding. */
    method StoreMark()
      requires block.Length == 64 && index < 64
      modifies this`index, block
      ensures index == old(index) + 1 && block[..index] == old(block[..index]) + [0x80]
    {
      block[index] := 0x80;
      index := index + 1;
    }

    /** Writes 0x80 and zeros behind the rest of the message. */
    method Mark(upto: nat)
      requires block.Length == 64 && index < upto <= 64
      modifies this`index, block
      ensures index == upto
      ensures block[..upto] == old(block[..index]) + [0x80] + Zeros(upto - old(index) - 1)
    {
      StoreMark();
      FillZeros(upto);
    }

    /** Compresses the buffer, which is block b. */
    method CompressBuffer(ghost before: seq<Block>, ghost b: Block)
      requires Shaped() && State() == sha.Absorb(before) && block[..] == b
      modifies this`index, intermediate
      ensures index == 0 && State() == sha.Absorb(before + [b])
    {
      sha.AbsorbMore(before, b);
      ProcessMessageBlock();
    }

    /** Writes 0x80 and zeros over the rest of the buffer and compresses it. */
    method PadFirstBlock(ghost before: seq<Block>)
      requires Shaped() && index < 64 && State() == sha.Absorb(before)
      modifies this`index, intermediate, block
      ensures index == 0 && State() == sha.Absorb(before + [MarkedBlock(old(block[..index]))])
    {
      ghost var marked := MarkedBlock(block[..index]);
      Mark(64);
      assert block[..] == block[..64] == marked;
      CompressBuffer(before, marked);
    }

    /** Stores the length at the end of the buffer and compresses it. */
    method PadLastBlock(ghost before: seq<Block>)
      requires Shaped() && LengthKept() && State() == sha.Absorb(before)
      modifies this`index, intermediate, block
      ensures State() == sha.Absorb(before + [old(block[..56]) + LengthBytes(8 * |message|)])
    {
      ghost var last := block[..56] + LengthBytes(8 * |message|);
      StoreLength();
      CompressBuffer(before, last);
    }

    /** Pads when the buffer has no room for the length. */
    method PadTwoBlocks()
      requires Shaped() && LengthKept() && 55 < index < 64 && State() == sha.Absorb(blocks)
      modifies this`index, intermediate, block
      ensures State() ==
        sha.Absorb(blocks + [MarkedBlock(old(block[..index]))] + [Zeros(56) + LengthBytes(8 * |message|)])
    {
      ghost var marked := MarkedBlock(block[..index]);
      PadFirstBlock(blocks);
      FillZeros(56);
      assert block[..56] == Zeros(56);
      PadLastBlock(blocks + [marked]);
    }

    /** Pads when the buffer has room for the length. */
    method PadOneBlock()
      requires Shaped() && LengthKept() && index <= 55 && State() == sha.Absorb(blocks)
      modifies this`index, intermediate, block
      ensures State() == sha.Absorb(blocks + [LastBlock(old(block[..index]), |message|)])
    {
      ghost var rest := block[..index];
      Mark(56);
      assert block[..56] + LengthBytes(8 * |message|) == LastBlock(rest, |message|);
      PadLastBlock(blocks);
    }

    /** Pads the message and compresses its last one or two blocks. */
    method PadMessage()
      requires Absorbing() && corrupted == 0
      modifies this`index, intermediate, block
      ensures Finished()
    {
      if index > 55 {
        TwoBlocks(blocks, block[..index]);
        PadTwoBlocks();
      } else {
        OneBlock(blocks, block[..index]);
        PadOneBlock();
      }
    }

    /** Clears the buffer. */
    method WipeBlock()
      requires block.Length == 64
      modifies block
      ensures forall i :: 0 <= i < 64 ==> block[i] == 0
    {
      for i := 0 to 64
        invariant forall k :: 0 <= k < i ==> block[k] == 0
      {
        block[i] := 0;
      }
    }

    /** Finishes the message, once, and gives the digest. */
    method Result() returns (code: nat, digest: seq<Octet>)
      requires Valid()
      modifies this`index, this`lengthLow, this`lengthHigh, this`computed, intermediate, block
      ensures Valid() && code == corrupted
      ensures code == 0 ==> computed && digest == sha.Sha1(message)
    {
      if corrupted != 0 {
        return corrupted, [];
      }
      if !computed {
        PadMessage();
        WipeBlock();
        lengthLow := 0;
        lengthHigh := 0;
        computed := true;
      }
      digest := sha.Digest(State());
      return SHA_SUCCESS, digest;
    }
  }

  /** The four bytes of a 32-bit word, highest first. */
  function LengthWord(w: nat): seq<Octet> {
    [w / 0x100_0000 % 256, w / 0x1_0000 % 256, w / 0x100 % 256, w % 256]
  }

  lemma WordBytesOf(w: nat)
    ensures ByteOf(w, 0) == w % 256
    ensures ByteOf(w, 1) == w / 0x100 % 256
    ensures ByteOf(w, 2) == w / 0x1_0000 % 256
    ensures ByteOf(w, 3) == w / 0x100_0000 % 256
  {
    assert w / 256 / 256 == w / 0x1_0000 && w / 0x1_0000 / 256 == w / 0x100_0000;
    assert ByteOf(w / 256, 1) == ByteOf(w / 0x1_0000, 0);
    assert ByteOf(w, 3) == ByteOf(w / 256, 2) == ByteOf(w / 0x1_0000, 1) == ByteOf(w / 0x100_0000, 0);
  }

  lemma LowestByteOf(x: nat, low: nat)
    ensures ByteOf(256 * x + low, 0) == ByteOf(low, 0)
  {
    assert (256 * x + low) % 256 == low % 256;
  }

  lemma NextByteOf(x: nat, low: nat, i: nat)
    ensures ByteOf(256 * x + low, i + 1) == ByteOf(x + low / 256, i)
  {
    assert (256 * x + low) / 256 == x + low / 256;
  }

  /** The low word holds the four lowest bytes. */
  lemma LowWordBytes(high: nat, low: nat)
    ensures var n := high * U32 + low;
      && ByteOf(n, 0) == ByteOf(low, 0) && ByteOf(n, 1) == ByteOf(low, 1)
      && ByteOf(n, 2) == ByteOf(low, 2) && ByteOf(n, 3) == ByteOf(low, 3)
  {
    var h1, h2, h3 := 0x100_0000 * high, 0x1_0000 * high, 0x100 * high;
    var l1, l2, l3 := low / 256, low / 256 / 256, low / 256 / 256 / 256;
    LowestByteOf(h1, low);
    NextByteOf(h1, low, 0);
    LowestByteOf(h2, l1);
    NextByteOf(h1, low, 1);
    NextByteOf(h2, l1, 0);
    LowestByteOf(h3, l2);
    NextByteOf(h1, low, 2);
    NextByteOf(h2, l1, 1);
    NextByteOf(h3, l2, 0);
    LowestByteOf(high, l3);
    NextByteOf(0, low, 0);
    NextByteOf(0, low, 1);
    NextByteOf(0, l1, 0);
    NextByteOf(0, low, 2);
    NextByteOf(0, l1, 1);
    NextByteOf(0, l2, 0);
  }

  lemma LengthBytesOf(n: nat)
    ensures LengthBytes(n) == [ByteOf(n, 7), ByteOf(n, 6), ByteOf(n, 5), ByteOf(n, 4),
                               ByteOf(n, 3), ByteOf(n, 2), ByteOf(n, 1), ByteOf(n, 0)]
  {
  }

  /** The high word holds the four highest bytes. */
  lemma HighWordBytes(high: nat, low: nat)
    requires low < U32
    ensures var n := high * U32 + low;
      && ByteOf(n, 4) == ByteOf(high, 0) && ByteOf(n, 5) == ByteOf(high, 1)
      && ByteOf(n, 6) == ByteOf(high, 2) && ByteOf(n, 7) == ByteOf(high, 3)
  {
    var n := high * U32 + low;
    DropFour(n);
    assert n / U32 == high;
    assert ByteOf(n, 4 + 0) == ByteOf(high, 0) && ByteOf(n, 4 + 1) == ByteOf(high, 1);
    assert ByteOf(n, 4 + 2) == ByteOf(high, 2) && ByteOf(n, 4 + 3) == ByteOf(high, 3);
  }

  /** The 64-bit length is its high word followed by its low word. */
  lemma LengthWords(high: nat, low: nat)
    requires high < U32 && low < U32
    ensures LengthBytes(high * U32 + low) == LengthWord(high) + LengthWord(low)
  {
    HighWordBytes(high, low);
    LowWordBytes(high, low);
    LengthBytesOf(high * U32 + low);
    WordBytesOf(high);
    WordBytesOf(low);
  }

  lemma DropFour(n: nat)
    ensures forall i: nat :: ByteOf(n, 4 + i) == ByteOf(n / U32, i)
  {
    forall i: nat ensures ByteOf(n, 4 + i) == ByteOf(n / U32, i) {
      assert n / 256 / 256 == n / 0x1_0000 && n / 0x1_0000 / 256 == n / 0x100_0000;
      assert n / 0x100_0000 / 256 == n / U32;
      assert ByteOf(n, 4 + i) == ByteOf(n / 256, 3 + i) == ByteOf(n / 0x1_0000, 2 + i);
      assert ByteOf(n / 0x1_0000, 2 + i) == ByteOf(n / 0x100_0000, 1 + i);
    }
  }

  /** The rest of a message, the mark, and zeros up to the end of the block. */
  function MarkedBlock(rest: seq<Octet>): Block
    requires |rest| < 64
  {
    rest + [0x80] + Zeros(63 - |rest|)
  }

  /** The rest of a message, the mark, zeros and the length. */
  function LastBlock(rest: seq<Octet>, length: nat): Block
    requires |rest| <= 55
  {
    rest + [0x80] + Zeros(55 - |rest|) + LengthBytes(8 * length)
  }

  lemma ZerosJoined(m: nat, n: nat)
    ensures Zeros(m + n) == Zeros(m) + Zeros(n)
  {
  }

  lemma Grouped<T>(a: seq<T>, b: seq<T>, c: seq<T>)
    ensures a + b + c == a + (b + c)
  {
  }

  lemma OneGroup<T>(a: seq<T>, b: seq<T>, c: seq<T>, d: seq<T>)
    ensures a + (b + c + d) == a + b + c + d
  {
  }

  lemma TwoGroups<T>(a: seq<T>, b: seq<T>, c: seq<T>, d: seq<T>, e: seq<T>)
    ensures a + (b + (c + d) + e) == (a + b + c) + (d + e)
  {
  }

  lemma JoinedOne<T>(chunk: seq<T>)
    ensures Joined([chunk]) == chunk
  {
    assert [chunk][..0] == [] && Joined([chunk]) == Joined([]) + chunk;
  }

  lemma {:induction false} JoinedAll<T>(a: seq<seq<T>>, b: seq<seq<T>>)
    ensures Joined(a + b) == Joined(a) + Joined(b)
    decreases |b|
  {
    if b == [] {
      assert a + b == a;
    } else {
      var k := |b| - 1;
      JoinedAll(a, b[..k]);
      assert a + b == a + b[..k] + [b[k]];
      JoinedMore(a + b[..k], b[k]);
      Grouped(Joined(a), Joined(b[..k]), b[k]);
    }
  }

  /** Whole blocks behind chunks, whatever the last chunk is. */
  lemma BlocksBehind(blocks: seq<Block>, rest: seq<Octet>, pad: seq<Octet>, more: seq<Block>)
    requires rest + pad == Joined(more)
    ensures Blocks(Joined(blocks) + rest + pad) == blocks + more
  {
    Grouped(Joined(blocks), rest, pad);
    JoinedAll(blocks, more);
    BlocksOfJoined(blocks + more);
  }

  lemma ZeroCountBehind(blocks: seq<Block>, rest: seq<Octet>)
    requires |rest| < 64
    ensures ZeroCount(|Joined(blocks) + rest|) == if |rest| <= 55 then 55 - |rest| else 119 - |rest|
  {
    BlocksOfJoined(blocks);
  }

  lemma PaddedInOne(rest: seq<Octet>, len: nat)
    requires |rest| <= 55 && ZeroCount(len) == 55 - |rest|
    ensures rest + Padding(len) == Joined([LastBlock(rest, len)])
  {
    OneGroup(rest, [0x80], Zeros(55 - |rest|), LengthBytes(8 * len));
    JoinedOne(LastBlock(rest, len));
  }

  lemma PaddedInTwo(rest: seq<Octet>, len: nat)
    requires 55 < |rest| < 64 && ZeroCount(len) == 119 - |rest|
    ensures rest + Padding(len) == Joined([MarkedBlock(rest)] + [Zeros(56) + LengthBytes(8 * len)])
  {
    ZerosJoined(63 - |rest|, 56);
    TwoGroups(rest, [0x80], Zeros(63 - |rest|), Zeros(56), LengthBytes(8 * len));
    JoinedOne(MarkedBlock(rest));
    JoinedMore([MarkedBlock(rest)], Zeros(56) + LengthBytes(8 * len));
  }

  /** The padding of a message whose rest fits with the length into one block. */
  lemma OneBlock(blocks: seq<Block>, rest: seq<Octet>)
    requires |rest| <= 55
    ensures var message := Joined(blocks) + rest;
      Blocks(Pad(message)) == blocks + [LastBlock(rest, |message|)]
  {
    var len := |Joined(blocks) + rest|;
    ZeroCountBehind(blocks, rest);
    PaddedInOne(rest, len);
    BlocksBehind(blocks, rest, Padding(len), [LastBlock(rest, len)]);
  }

  /** The padding of a message whose rest needs a second block for the length. */
  lemma TwoBlocks(blocks: seq<Block>, rest: seq<Octet>)
    requires 55 < |rest| < 64
    ensures var message := Joined(blocks) + rest;
      Blocks(Pad(message)) == blocks + [MarkedBlock(rest)] + [Zeros(56) + LengthBytes(8 * |message|)]
  {
    var len := |Joined(blocks) + rest|;
    var marked, last := [MarkedBlock(rest)], [Zeros(56) + LengthBytes(8 * len)];
    ZeroCountBehind(blocks, rest);
    PaddedInTwo(rest, len);
    BlocksBehind(blocks, rest, Padding(len), marked + last);
    Grouped(blocks, marked, last);
  }

  lemma {:induction false} JoinedGrows<T>(chunks: seq<seq<T>>, k: nat)
    requires k <= |chunks|
    ensures |Joined(chunks[..k])| <= |Joined(chunks)|
    decreases |chunks|
  {
    if k < |chunks| {
      JoinedGrows(chunks[..|chunks| - 1], k);
      assert chunks[..|chunks| - 1][..k] == chunks[..k];
    } else {
      assert chunks[..k] == chunks;
    }
  }

  /** However a message of fewer than 2^64 bits is cut into calls of Input, the digest is that of
      the whole message, and asking for it again gives the same digest. */
  method DigestInPieces<W(0)>(sha: Arithmetic<W>, chunks: seq<seq<Octet>>)
    returns (digest: seq<Octet>, again: seq<Octet>)
    requires 8 * |Joined(chunks)| < 0x1_0000_0000_0000_0000
    ensures digest == again == sha.Sha1(Joined(chunks))
  {
    var context := new Context(sha);
    var i := 0;
    while i < |chunks|
      invariant i <= |chunks| && context.Valid() && context.sha == sha && fresh(context)
      invariant fresh(context.intermediate) && fresh(context.block)
      invariant context.corrupted == 0 && !context.computed && context.message == Joined(chunks[..i])
    {
      assert chunks[..i + 1][..i] == chunks[..i];
      JoinedGrows(chunks, i + 1);
      var _ := context.Input(chunks[i]);
      i := i + 1;
    }
    assert chunks[..i] == chunks;
    var code;
    code, digest := context.Result();
    code, again := context.Result();
  }
}
