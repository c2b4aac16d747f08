/** Numbers below 256 as bytes, and their exclusive disjunction. */
module Octets {
  import opened Basics

  function ToByte(a: Octet): Byte {
    a as Byte
  }

  function ToOctet(x: Byte): Octet {
    x as int
  }

  function Xor(x: Byte, y: Byte): Byte {
    x ^ y
  }

  function XorByte(a: Octet, b: Octet): Octet {
    ToOctet(Xor(ToByte(a), ToByte(b)))
  }

  lemma ByteAsOctet(x: Byte)
    ensures ToByte(ToOctet(x)) == x
  {
  }

  function Successor(x: Byte): Byte {
    x + 1
  }

  lemma SuccessorOf(x: Byte)
    ensures x == 255 || ToOctet(Successor(x)) == ToOctet(x) + 1
  {
  }

  lemma Ends()
    ensures ToOctet(0) == 0 && ToOctet(255) == 255
  {
  }

  lemma NextOctet(x: Byte)
    requires ToOctet(x) != 255
    ensures ToOctet(x) + 1 < 256 && ToOctet(ToByte(ToOctet(x) + 1)) == ToOctet(x) + 1
  {
    Ends();
    SuccessorOf(x);
    ByteAsOctet(Successor(x));
  }

  lemma {:induction false} OctetAsByte(a: Octet)
    ensures ToOctet(ToByte(a)) == a
    decreases a as int
  {
    Ends();
    if a == 0 {
      ByteAsOctet(0);
    } else {
      var b: Octet := a - 1;
      OctetAsByte(b);
      NextOctet(ToByte(b));
    }
  }

  lemma XorUndoes(x: Byte, y: Byte)
    ensures Xor(Xor(x, y), y) == x
  {
  }

  lemma XorTwice(a: Octet, b: Octet)
    ensures XorByte(XorByte(a, b), b) == a
  {
    var x, y := ToByte(a), ToByte(b);
    ByteAsOctet(Xor(x, y));
    XorUndoes(x, y);
    OctetAsByte(a);
  }

  lemma FlippedBits(x: Byte, y: Byte)
    ensures Xor(x, y) & y == !x & y && Xor(x, y) & !y == x & !y
  {
  }

  /** The result has the bits of the first byte, flipped where the second has its own. */
  lemma XorFlips(x: Byte, y: Byte) returns (r: Byte)
    ensures XorByte(x as int, y as int) == r as int
    ensures r & y == !x & y && r & !y == x & !y
  {
    ByteAsOctet(x);
    ByteAsOctet(y);
    FlippedBits(x, y);
    r := Xor(x, y);
  }
}
