/** What the word operations of SHA-1 do to each bit, and where its constants come from. */
module Sha1Laws {
  import opened Basics
  import opened Sha1Spec
  import opened Sha1Words

  /** Each bit of the first word chooses between those of the others. */
  lemma ChooseBits(b: Word, c: Word, d: Word)
    ensures RFC_3174.choose(b, c, d) & b == c & b
    ensures RFC_3174.choose(b, c, d) & !b == d & !b
  {
  }

  /** Where the first two words agree, the majority agrees with them, and the order does not matter. */
  lemma MajorityBits(b: Word, c: Word, d: Word)
    ensures RFC_3174.majority(b, c, d) & !(b ^ c) == b & !(b ^ c)
    ensures RFC_3174.majority(b, c, d) == RFC_3174.majority(b, d, c) == RFC_3174.majority(c, d, b)
  {
  }

  /** Where two words agree, the parity is the third word; elsewhere its complement. */
  lemma ParityBits(b: Word, c: Word, d: Word)
    ensures RFC_3174.parity(b, c, d) & !(b ^ c) == d & !(b ^ c)
    ensures RFC_3174.parity(b, c, d) & (b ^ c) == !d & (b ^ c)
  {
  }

  /** The shifts of the algorithm are circular. */
  lemma RotateBits(x: Word)
    ensures RFC_3174.rotate(1, x) == x.RotateLeft(1)
    ensures RFC_3174.rotate(5, x) == x.RotateLeft(5)
    ensures RFC_3174.rotate(30, x) == x.RotateLeft(30)
  {
    assert (x << 1) | (x >> 31) == x.RotateLeft(1);
    assert (x << 5) | (x >> 27) == x.RotateLeft(5);
    assert (x << 30) | (x >> 2) == x.RotateLeft(30);
  }

  lemma AssembledBits(a: Byte, b: Byte, c: Byte, d: Byte)
    ensures var w := Assembled(a, b, c, d);
      ByteBits(w, 3) == a && ByteBits(w, 2) == b && ByteBits(w, 1) == c && ByteBits(w, 0) == d
  {
  }

  lemma ByteAsOctet(a: Byte)
    ensures (a as int) as Byte == a
  {
  }

  /** A word assembled from four bytes has them, the first one highest. */
  lemma BytesOfWord(a: Byte, b: Byte, c: Byte, d: Byte)
    ensures RFC_3174.WordBytes(RFC_3174.bigEndian(a as int, b as int, c as int, d as int))
         == [a as int, b as int, c as int, d as int]
  {
    AssembledBits(a, b, c, d);
    ByteAsOctet(a);
    ByteAsOctet(b);
    ByteAsOctet(c);
    ByteAsOctet(d);
  }

  /** A number is the whole part of 2^30 times the root of another. */
  ghost predicate IsRoot(k: int, n: int) {
    k * k <= n * 0x1000_0000_0000_0000 < (k + 1) * (k + 1)
  }

  /** The constants are the roots of 2, 3, 5 and 10. */
  lemma ConstantsAreRoots()
    ensures IsRoot(RFC_3174.constants(0) as int, 2) && IsRoot(RFC_3174.constants(1) as int, 3)
    ensures IsRoot(RFC_3174.constants(2) as int, 5) && IsRoot(RFC_3174.constants(3) as int, 10)
  {
  }
}
