/** The example of a handshake in section 1.3 of RFC 6455. */
module HandshakeExample {
  import opened Basics
  import opened Handshakes

  import Base64
  import Sha1Examples
  import Sha1Laws
  import Sha1Words

  ghost predicate Reads(s: seq<Octet>, text: string) {
    |s| == |text| && forall i :: 0 <= i < |s| ==> s[i] == text[i] as int
  }

  /** The magic string is the one of the protocol. */
  lemma MagicReads()
    ensures Reads(MAGIC, "258EAFA5-E914-47DA-95CA-C5AB0DC85B11")
  {
  }

  lemma SampleMessage(key: seq<Octet>)
    requires Reads(key, "dGhlIHNhbXBsZSBub25jZQ==")
    ensures Sha1Examples.IsKey(key + MAGIC)
  {
  }

  lemma SampleQuads()
    ensures Base64.STANDARD.Quad(0xB3, 0x7A, 0x4F) == [115, 51, 112, 80]
    ensures Base64.STANDARD.Quad(0x2C, 0xC0, 0x62) == [76, 77, 66, 105]
    ensures Base64.STANDARD.Quad(0x4F, 0x16, 0x90) == [84, 120, 97, 81]
    ensures Base64.STANDARD.Quad(0xF6, 0x46, 0x06) == [57, 107, 89, 71]
    ensures Base64.STANDARD.Quad(0xCF, 0x38, 0x59) == [122, 122, 104, 90]
    ensures Base64.STANDARD.Quad(0x45, 0xB2, 0xBE) == [82, 98, 75, 43]
    ensures Base64.STANDARD.Tail([0xC4, 0xEA]) == [120, 79, 111, 61]
  {
  }

  lemma TwoQuads(a: Byte, b: Byte, c: Byte, d: Byte, e: Byte, f: Byte, x: seq<Byte>)
    ensures Base64.STANDARD.Characters([a, b, c, d, e, f] + x)
         == Base64.STANDARD.Quad(a, b, c) + Base64.STANDARD.Quad(d, e, f) + Base64.STANDARD.Characters(x)
  {
    var ab, y := Base64.STANDARD, [d, e, f] + x;
    assert y[3..] == x && ([a, b, c, d, e, f] + x)[3..] == y;
    Base64.Associate(ab.Quad(a, b, c), ab.Quad(d, e, f), ab.Characters(x));
  }

  lemma SampleEnd()
    ensures Base64.STANDARD.Characters([0xCF, 0x38, 0x59, 0x45, 0xB2, 0xBE, 0xC4, 0xEA])
         == [122, 122, 104, 90, 82, 98, 75, 43, 120, 79, 111, 61]
  {
    SampleQuads();
    TwoQuads(0xCF, 0x38, 0x59, 0x45, 0xB2, 0xBE, [0xC4, 0xEA]);
    assert [0xCF, 0x38, 0x59, 0x45, 0xB2, 0xBE] + [0xC4, 0xEA] == [0xCF, 0x38, 0x59, 0x45, 0xB2, 0xBE, 0xC4, 0xEA];
  }

  const DIGEST: seq<Byte> := [
    0xB3, 0x7A, 0x4F, 0x2C, 0xC0, 0x62, 0x4F, 0x16, 0x90, 0xF6,
    0x46, 0x06, 0xCF, 0x38, 0x59, 0x45, 0xB2, 0xBE, 0xC4, 0xEA]

  lemma DigestParts()
    ensures DIGEST == [0xB3, 0x7A, 0x4F, 0x2C, 0xC0, 0x62] + DIGEST[6..]
    ensures DIGEST[6..] == [0x4F, 0x16, 0x90, 0xF6, 0x46, 0x06] + DIGEST[12..]
    ensures DIGEST[12..] == [0xCF, 0x38, 0x59, 0x45, 0xB2, 0xBE, 0xC4, 0xEA]
  {
  }

  lemma SampleMiddle()
    ensures Base64.STANDARD.Characters(DIGEST[6..])
         == [84, 120, 97, 81, 57, 107, 89, 71] + [122, 122, 104, 90, 82, 98, 75, 43, 120, 79, 111, 61]
  {
    DigestParts();
    SampleQuads();
    SampleEnd();
    TwoQuads(0x4F, 0x16, 0x90, 0xF6, 0x46, 0x06, DIGEST[12..]);
  }

  lemma SampleCharacters()
    ensures Base64.STANDARD.Characters(DIGEST) ==
      [115, 51, 112, 80, 76, 77, 66, 105] + ([84, 120, 97, 81, 57, 107, 89, 71] +
      [122, 122, 104, 90, 82, 98, 75, 43, 120, 79, 111, 61])
  {
    DigestParts();
    SampleQuads();
    SampleMiddle();
    TwoQuads(0xB3, 0x7A, 0x4F, 0x2C, 0xC0, 0x62, DIGEST[6..]);
  }

  lemma BytesOf(s: seq<Octet>, x: seq<Byte>)
    requires |s| == |x| && forall i :: 0 <= i < |s| ==> s[i] == x[i] as int
    ensures AsBytes(s) == x
  {
    forall i | 0 <= i < |x| ensures AsBytes(s)[i] == x[i] {
      Sha1Laws.ByteAsOctet(x[i]);
    }
  }

  /** The same as numbers. */
  const OCTETS: seq<Octet> := [
    0xB3, 0x7A, 0x4F, 0x2C, 0xC0, 0x62, 0x4F, 0x16, 0x90, 0xF6,
    0x46, 0x06, 0xCF, 0x38, 0x59, 0x45, 0xB2, 0xBE, 0xC4, 0xEA]

  lemma FirstOctets()
    ensures forall i :: 0 <= i < 10 ==> OCTETS[i] == DIGEST[i] as int
  {
  }

  lemma LastOctets()
    ensures forall i :: 10 <= i < 20 ==> OCTETS[i] == DIGEST[i] as int
  {
  }

  lemma SampleDigest(key: seq<Octet>)
    requires Reads(key, "dGhlIHNhbXBsZSBub25jZQ==")
    ensures KeyDigest(Sha1Words.RFC_3174, key) == DIGEST
  {
    SampleMessage(key);
    Sha1Examples.KeyDigest(key + MAGIC);
    FirstOctets();
    LastOctets();
    BytesOf(OCTETS, DIGEST);
  }

  ghost predicate BytesRead(s: seq<Byte>, text: string) {
    |s| == |text| && forall i :: 0 <= i < |s| ==> s[i] as int == text[i] as int
  }

  lemma FirstCharacters(t: seq<Byte>)
    requires t == [115, 51, 112, 80, 76, 77, 66, 105] + [84, 120, 97, 81, 57, 107, 89, 71]
    ensures BytesRead(t, "s3pPLMBiTxaQ9kYG")
  {
  }

  lemma LastCharacters(t: seq<Byte>)
    requires t == [122, 122, 104, 90, 82, 98, 75, 43, 120, 79, 111, 61]
    ensures BytesRead(t, "zzhZRbK+xOo=")
  {
  }

  lemma BothRead(s: seq<Byte>, a: string, t: seq<Byte>, b: string)
    requires BytesRead(s, a) && BytesRead(t, b)
    ensures BytesRead(s + t, a + b)
  {
  }

  lemma AcceptKeyReads()
    ensures BytesRead(
      [115, 51, 112, 80, 76, 77, 66, 105] + ([84, 120, 97, 81, 57, 107, 89, 71] +
      [122, 122, 104, 90, 82, 98, 75, 43, 120, 79, 111, 61]), "s3pPLMBiTxaQ9kYGzzhZRbK+xOo=")
  {
    var s, t := [115, 51, 112, 80, 76, 77, 66, 105], [84, 120, 97, 81, 57, 107, 89, 71];
    var u := [122, 122, 104, 90, 82, 98, 75, 43, 120, 79, 111, 61];
    FirstCharacters(s + t);
    LastCharacters(u);
    BothRead(s + t, "s3pPLMBiTxaQ9kYG", u, "zzhZRbK+xOo=");
    Base64.Associate(s, t, u);
    assert "s3pPLMBiTxaQ9kYG" + "zzhZRbK+xOo=" == "s3pPLMBiTxaQ9kYGzzhZRbK+xOo=";
  }

  /** The key of the example is answered with the accept key of the example. */
  lemma SampleAcceptKey(key: seq<Octet>)
    requires Reads(key, "dGhlIHNhbXBsZSBub25jZQ==")
    ensures BytesRead(AcceptKey(key), "s3pPLMBiTxaQ9kYGzzhZRbK+xOo=")
  {
    SampleDigest(key);
    SampleCharacters();
    AcceptKeyReads();
  }

  /** The same through the method: the buffer holds the accept key as a C string. */
  method AnswerSample(key: seq<Octet>, acceptBuffer: array<Byte>)
    requires Reads(key, "dGhlIHNhbXBsZSBub25jZQ==") && acceptBuffer.Length >= 29
    modifies acceptBuffer
    ensures BytesRead(acceptBuffer[..28], "s3pPLMBiTxaQ9kYGzzhZRbK+xOo=") && acceptBuffer[28] == 0
  {
    var ok := CalculateAcceptKey(key, acceptBuffer, true);
    SampleAcceptKey(key);
    assert acceptBuffer[..28] == acceptBuffer[..29][..28];
  }
}
