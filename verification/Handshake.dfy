/** The accept key of the WebSocket handshake (section 4.2.2 of RFC 6455). */
module Handshakes {
  import opened Basics

  import Base64
  import Sha1Context
  import Sha1Spec
  import Sha1Words

  /** 258EAFA5-E914-47DA-95CA-C5AB0DC85B11 */
  const MAGIC: seq<Octet> := [
    50, 53, 56, 69, 65, 70, 65, 53, 45, 69, 57, 49, 52, 45, 52, 55, 68, 65, 45,
    57, 53, 67, 65, 45, 67, 53, 65, 66, 48, 68, 67, 56, 53, 66, 49, 49]

  const CONCATENATED_SIZE := 256

  /** Octets as the encoder takes them. */
  function AsBytes(s: seq<Octet>): seq<Byte> {
    seq(|s|, i requires 0 <= i < |s| => s[i] as Byte)
  }

  /** The digest of the key followed by the magic string. */
  function KeyDigest<W>(sha: Sha1Spec.Arithmetic<W>, key: seq<Octet>): seq<Byte> {
    AsBytes(sha.Sha1(key + MAGIC))
  }

  /** The accept key: the digest in base64, on one line. */
  function AcceptKey(key: seq<Octet>): seq<Byte> {
    Base64.STANDARD.Characters(KeyDigest(Sha1Words.RFC_3174, key))
  }

  lemma OneLine(ab: Base64.Alphabet, digest: seq<Byte>)
    requires |digest| == 20
    ensures |ab.Characters(digest)| == 28
    ensures ab.Encoded(digest) == ab.Characters(digest) + [Base64.LF]
  {
    ab.CharactersLength(digest);
  }

  lemma NulIsUnknown()
    ensures Base64.STANDARD.Value(0) == Base64.UNKNOWN
  {
    assert forall i: Byte :: !Base64.STANDARD.IsSymbol(0, i);
  }

  /** No character is a NUL. */
  lemma NoNul(digest: seq<Byte>)
    ensures 0 !in Base64.STANDARD.Characters(digest)
  {
    Base64.StandardIsValid();
    Base64.STANDARD.GroupsOfCharacters(digest);
    NulIsUnknown();
  }

  /** The length of a string that ends with a NUL. */
  method StrLen(s: array<Byte>, ghost text: seq<Byte>) returns (len: nat)
    requires |text| < s.Length && s[..|text|] == text && s[|text|] == 0 && 0 !in text
    ensures len == |text|
  {
    assert forall k :: 0 <= k < |text| ==> s[k] == text[k];
    len := 0;
    while s[len] != 0
      invariant len <= |text|
      decreases |text| - len
    {
      len := len + 1;
    }
  }

  /** Encodes a digest; the line feed behind its one line becomes the NUL. */
  method EncodeLine(ab: Base64.Alphabet, digest: seq<Byte>, memory: bool, ghost line: seq<Byte>)
    returns (encoded: array?<Byte>, len: nat)
    requires |digest| == 20 && 0 !in line && ab.Encoded(digest) == line + [Base64.LF]
    ensures encoded != null <==> memory
    ensures encoded != null ==>
      && fresh(encoded) && len == |line| + 1 && len <= encoded.Length
      && encoded[..len] == line + [0]
  {
    var size;
    encoded, size := Base64.Encode(ab, digest, memory);
    if encoded != null {
      ghost var text := line + [Base64.LF];
      len := StrLen(encoded, text);
      assert text[..|line|] == line;
      encoded[len - 1] := 0;
    } else {
      len := 0;
    }
  }

  /** Writes the encoded digest of the key and the magic string as a C string, for an alphabet
      without NUL. */
  method WriteKey<W(0)>(ab: Base64.Alphabet, sha: Sha1Spec.Arithmetic<W>, key: seq<Octet>,
                        acceptBuffer: array<Byte>, memory: bool) returns (ok: bool)
    requires |key + MAGIC| < CONCATENATED_SIZE && acceptBuffer.Length >= 29
    requires 0 !in ab.Characters(KeyDigest(sha, key))
    modifies acceptBuffer
    ensures ok == memory
    ensures ok ==> acceptBuffer[..29] == ab.Characters(KeyDigest(sha, key)) + [0]
    ensures acceptBuffer[29..] == old(acceptBuffer[29..])
  {
    var digest, again := Sha1Context.DigestInPieces(sha, [key + MAGIC]);
    Sha1Context.JoinedOne(key + MAGIC);
    OneLine(ab, AsBytes(digest));
    var encoded, len := EncodeLine(ab, AsBytes(digest), memory, ab.Characters(KeyDigest(sha, key)));
    if encoded == null {
      return false;
    }
    forall i | 0 <= i < len {
      acceptBuffer[i] := encoded[i];
    }
    assert acceptBuffer[..29] == encoded[..29];
    return true;
  }

  /** Writes the accept key of a key as a C string. Without memory for the encoding nothing is usable. */
  method CalculateAcceptKey(key: seq<Octet>, acceptBuffer: array<Byte>, memory: bool) returns (ok: bool)
    requires 0 !in key && |key + MAGIC| < CONCATENATED_SIZE && acceptBuffer.Length >= 29
    modifies acceptBuffer
    ensures ok == memory
    ensures ok ==> acceptBuffer[..29] == AcceptKey(key) + [0]
    ensures AcceptKey(key) == Base64.STANDARD.Characters(AsBytes(Sha1Words.RFC_3174.Sha1(key + MAGIC)))
    ensures acceptBuffer[29..] == old(acceptBuffer[29..])
  {
    NoNul(KeyDigest(Sha1Words.RFC_3174, key));
    ok := WriteKey(Base64.STANDARD, Sha1Words.RFC_3174, key, acceptBuffer, memory);
  }
}
