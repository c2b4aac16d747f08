/** The 32-bit words of SHA-1 and the operations on them, after section 5 of RFC 3174. */
module Sha1Words {
  import opened Basics
  import opened Sha1Spec

  type Word = bv32

  /** Byte k, counted from the lowest, of a word. */
  function ByteBits(w: Word, k: nat): Byte {
    if k == 0 then (w & 0xFF) as Byte
    else if k == 1 then ((w >> 8) & 0xFF) as Byte
    else if k == 2 then ((w >> 16) & 0xFF) as Byte
    else (w >> 24) as Byte
  }

  function ByteOfWord(w: Word, k: nat): Octet {
    ByteBits(w, k) as int
  }

  /** Four bytes as a word, the highest first. */
  function Assembled(a: Byte, b: Byte, c: Byte, d: Byte): Word {
    (a as Word << 24) | (b as Word << 16) | (c as Word << 8) | (d as Word)
  }

  function BigEndian(a: Octet, b: Octet, c: Octet, d: Octet): Word {
    Assembled(a as Byte, b as Byte, c as Byte, d as Byte)
  }

  function Constant(k: nat): Word {
    if k == 0 then 0x5A827999
    else if k == 1 then 0x6ED9EBA1
    else if k == 2 then 0x8F1BBCDC
    else 0xCA62C1D6
  }

  function Plus(x: Word, y: Word): Word {
    x + y
  }

  function Sum(v: Word, w: Word, x: Word, y: Word, z: Word): Word {
    v + w + x + y + z
  }

  function Xor(w: Word, x: Word, y: Word, z: Word): Word {
    w ^ x ^ y ^ z
  }

  function Rotate(n: nat, x: Word): Word {
    if n < 32 then (x << n) | (x >> (32 - n)) else x
  }

  function Choose(b: Word, c: Word, d: Word): Word {
    (b & c) | (!b & d)
  }

  function Parity(b: Word, c: Word, d: Word): Word {
    b ^ c ^ d
  }

  function Majority(b: Word, c: Word, d: Word): Word {
    (b & c) | (b & d) | (c & d)
  }

  const RFC_3174: Arithmetic<Word> := Arithmetic(
    Hash(0x67452301, 0xEFCDAB89, 0x98BADCFE, 0x10325476, 0xC3D2E1F0),
    Constant, BigEndian, ByteOfWord, Plus, Sum, Xor, Rotate, Choose, Parity, Majority)
}
