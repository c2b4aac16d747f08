/** The rounds and the message schedule of SHA-1, sixteen words at a time, for known words. */
module Sha1Chunks {
  import opened Basics
  import opened Sha1Laws
  import opened Sha1Spec
  import opened Sha1Words

  function Mixed(t: nat, b: Word, c: Word, d: Word): Word {
    if t < 20 then Choose(b, c, d) else if 40 <= t < 60 then Majority(b, c, d) else Parity(b, c, d)
  }

  function Added(t: nat): Word {
    if t < 20 then 0x5A827999 else if t < 40 then 0x6ED9EBA1 else if t < 60 then 0x8F1BBCDC else 0xCA62C1D6
  }

  lemma FunctionOf(t: nat, b: Word, c: Word, d: Word)
    requires t < 80
    ensures RFC_3174.F(t, b, c, d) == Mixed(t, b, c, d)
  {
    if t < 20 {
      assert Mixed(t, b, c, d) == Choose(b, c, d);
    } else if 40 <= t < 60 {
      assert Mixed(t, b, c, d) == Majority(b, c, d);
    } else {
      assert Mixed(t, b, c, d) == Parity(b, c, d);
    }
  }

  lemma ConstantOf(t: nat)
    requires t < 80
    ensures RFC_3174.constants(t / 20) == Added(t)
  {
    assert t / 20 == if t < 20 then 0 else if t < 40 then 1 else if t < 60 then 2 else 3;
  }

  /** A round by the named operations. */
  function Next(t: nat, h: Hash<Word>, w: Word): Hash<Word> {
    Hash(Sum(Rotate(5, h.a), Mixed(t, h.b, h.c, h.d), h.e, w, Added(t)), h.a, Rotate(30, h.b), h.c, h.d)
  }

  lemma RoundIsNext(h: Hash<Word>, t: nat, w: Word)
    requires t < 80
    ensures RFC_3174.Round(h, t, w) == Next(t, h, w)
  {
    ConstantOf(t);
    FunctionOf(t, h.b, h.c, h.d);
  }

  /** After t rounds from state h the state is s. */
  ghost predicate Runs(h: Hash<Word>, ws: seq<Word>, t: nat, s: Hash<Word>) {
    t <= |ws| == 80 && RFC_3174.Rounds(h, ws, t) == s
  }

  /** The words from t on are those of w. */
  ghost predicate Window(ws: seq<Word>, t: nat, w: seq<Word>) {
    |w| == 16 && t + 16 <= |ws| == 80 && forall i :: 0 <= i < 16 ==> ws[t + i] == w[i]
  }

  ghost predicate At(ws: seq<Word>, t: nat, w: Word) {
    t < |ws| && ws[t] == w
  }

  /** The same, word by word. */
  ghost predicate Sixteen(ws: seq<Word>, t: nat, w: seq<Word>) {
    && |w| == 16 && |ws| == 80
    && At(ws, t, w[0]) && At(ws, t + 1, w[1]) && At(ws, t + 2, w[2]) && At(ws, t + 3, w[3])
    && At(ws, t + 4, w[4]) && At(ws, t + 5, w[5]) && At(ws, t + 6, w[6]) && At(ws, t + 7, w[7])
    && At(ws, t + 8, w[8]) && At(ws, t + 9, w[9]) && At(ws, t + 10, w[10]) && At(ws, t + 11, w[11])
    && At(ws, t + 12, w[12]) && At(ws, t + 13, w[13]) && At(ws, t + 14, w[14]) && At(ws, t + 15, w[15])
  }

  lemma SixteenIsWindow(ws: seq<Word>, t: nat, w: seq<Word>)
    ensures Sixteen(ws, t, w) <==> Window(ws, t, w)
  {
    if Sixteen(ws, t, w) {
      forall i | 0 <= i < 16 ensures ws[t + i] == w[i] {
        assert At(ws, t + i, w[i]);
      }
    }
  }

  lemma NextRuns(h: Hash<Word>, ws: seq<Word>, t: nat, s: Hash<Word>, w: Word)
    requires t < 80 && Runs(h, ws, t, s) && At(ws, t, w)
    ensures Runs(h, ws, t + 1, Next(t, s, w))
  {
    RoundIsNext(s, t, w);
  }

  ghost predicate Scheduled(ws: seq<Word>) {
    |ws| == 80 && forall t :: 16 <= t < 80 ==> Extends(ws, t)
  }

  ghost predicate Extends(ws: seq<Word>, t: nat)
    requires 16 <= t < |ws|
  {
    ws[t] == (ws[t - 3] ^ ws[t - 8] ^ ws[t - 14] ^ ws[t - 16]).RotateLeft(1)
  }

  lemma WordExtends(b: Block, t: nat)
    requires 16 <= t < 80
    ensures Extends(RFC_3174.Words(b), t)
  {
    var ws := RFC_3174.Words(b);
    RotateBits(ws[t - 3] ^ ws[t - 8] ^ ws[t - 14] ^ ws[t - 16]);
  }

  lemma WordsAreScheduled(b: Block)
    ensures Scheduled(RFC_3174.Words(b))
  {
    forall t | 16 <= t < 80 ensures Extends(RFC_3174.Words(b), t) {
      WordExtends(b, t);
    }
  }

  /** Word i of q is right if those before it are. */
  ghost predicate WordAt(p: seq<Word>, q: seq<Word>, i: nat)
    requires |p| == |q| == 16 && i < 16
  {
    var w := p + q;
    w[i + 16] == (w[i + 13] ^ w[i + 8] ^ w[i + 2] ^ w[i]).RotateLeft(1)
  }

  ghost predicate Follows(p: seq<Word>, q: seq<Word>) {
    && |p| == |q| == 16
    && WordAt(p, q, 0) && WordAt(p, q, 1) && WordAt(p, q, 2) && WordAt(p, q, 3)
    && WordAt(p, q, 4) && WordAt(p, q, 5) && WordAt(p, q, 6) && WordAt(p, q, 7)
    && WordAt(p, q, 8) && WordAt(p, q, 9) && WordAt(p, q, 10) && WordAt(p, q, 11)
    && WordAt(p, q, 12) && WordAt(p, q, 13) && WordAt(p, q, 14) && WordAt(p, q, 15)
  }

  lemma FollowsAt(p: seq<Word>, q: seq<Word>, i: nat)
    requires Follows(p, q) && i < 16
    ensures WordAt(p, q, i)
  {
  }

  lemma NextWord(ws: seq<Word>, t: nat, p: seq<Word>, q: seq<Word>, i: nat)
    requires t + 32 <= 80 && Scheduled(ws) && |p| == |q| == 16 && i < 16 && WordAt(p, q, i)
    requires forall j :: 0 <= j < 16 + i ==> ws[t + j] == (p + q)[j]
    ensures ws[t + (16 + i)] == (p + q)[16 + i]
  {
    var k := t + 16 + i;
    assert Extends(ws, k);
    assert ws[k - 3] == ws[t + (13 + i)] && ws[k - 8] == ws[t + (8 + i)];
    assert ws[k - 14] == ws[t + (2 + i)] && ws[k - 16] == ws[t + i];
  }

  lemma SecondWindow(ws: seq<Word>, t: nat, p: seq<Word>, q: seq<Word>)
    requires t + 32 <= |ws| == 80 && |p| == |q| == 16 && forall j :: 0 <= j < 32 ==> ws[t + j] == (p + q)[j]
    ensures Window(ws, t + 16, q)
  {
    forall i | 0 <= i < 16 ensures ws[t + 16 + i] == q[i] {
      assert ws[t + (16 + i)] == (p + q)[16 + i];
    }
  }

  lemma NextWindow(ws: seq<Word>, t: nat, p: seq<Word>, q: seq<Word>)
    requires t + 32 <= 80 && Scheduled(ws) && Window(ws, t, p)
    requires |q| == 16 && forall i :: 0 <= i < 16 ==> WordAt(p, q, i)
    ensures Window(ws, t + 16, q)
  {
    for i := 0 to 16
      invariant forall j :: 0 <= j < 16 + i ==> ws[t + j] == (p + q)[j]
    {
      NextWord(ws, t, p, q, i);
    }
    SecondWindow(ws, t, p, q);
  }

  /** The words from t on are those of w, as a slice. */
  ghost predicate Slice(ws: seq<Word>, t: nat, w: seq<Word>) {
    |ws| == 80 && t <= 64 && |w| == 16 && ws[t..t + 16] == w
  }

  lemma SliceIsWindow(ws: seq<Word>, t: nat, w: seq<Word>)
    ensures Slice(ws, t, w) <==> Window(ws, t, w)
  {
    if Slice(ws, t, w) {
      forall i | 0 <= i < 16 ensures ws[t + i] == w[i] {
        assert ws[t..t + 16][i] == ws[t + i];
      }
    }
  }

  lemma SliceIsSixteen(ws: seq<Word>, t: nat, w: seq<Word>)
    ensures Slice(ws, t, w) <==> Sixteen(ws, t, w)
  {
    SliceIsWindow(ws, t, w);
    SixteenIsWindow(ws, t, w);
  }

  /** Sixteen words of the schedule determine the next sixteen. */
  lemma NextSlice(ws: seq<Word>, t: nat, p: seq<Word>, q: seq<Word>)
    requires t + 32 <= 80 && Scheduled(ws) && Slice(ws, t, p) && Follows(p, q)
    ensures Slice(ws, t + 16, q)
  {
    SliceIsWindow(ws, t, p);
    forall i | 0 <= i < 16 ensures WordAt(p, q, i) {
      FollowsAt(p, q, i);
    }
    NextWindow(ws, t, p, q);
    SliceIsWindow(ws, t + 16, q);
  }

  // ---------------------------------------------------------------- the first words of a block

  lemma BitsAssembled(w: Word)
    ensures Assembled(ByteBits(w, 3), ByteBits(w, 2), ByteBits(w, 1), ByteBits(w, 0)) == w
  {
  }

  lemma WordFromBytes(w: Word)
    ensures var sha := RFC_3174;
      sha.bigEndian(sha.byteOf(w, 3), sha.byteOf(w, 2), sha.byteOf(w, 1), sha.byteOf(w, 0)) == w
  {
    BitsAssembled(w);
    ByteAsOctet(ByteBits(w, 0));
    ByteAsOctet(ByteBits(w, 1));
    ByteAsOctet(ByteBits(w, 2));
    ByteAsOctet(ByteBits(w, 3));
  }

  ghost predicate WordBytesAt(b: Block, w: seq<Word>, i: nat)
    requires |w| == 16 && i < 16
  {
    b[4 * i..4 * i + 4] == RFC_3174.WordBytes(w[i])
  }

  lemma FirstWord(b: Block, w: seq<Word>, i: nat)
    requires |w| == 16 && i < 16 && WordBytesAt(b, w, i)
    ensures RFC_3174.Words(b)[i] == w[i]
  {
    var q := b[4 * i..4 * i + 4];
    WordFromBytes(w[i]);
    assert q[0] == b[4 * i] && q[1] == b[4 * i + 1] && q[2] == b[4 * i + 2] && q[3] == b[4 * i + 3];
  }

  /** A block begins the message schedule with its words. */
  lemma FirstSlice(b: Block, w: seq<Word>)
    requires |w| == 16 && forall i :: 0 <= i < 16 ==> WordBytesAt(b, w, i)
    ensures Slice(RFC_3174.Words(b), 0, w)
  {
    forall i | 0 <= i < 16 ensures RFC_3174.Words(b)[0 + i] == w[i] {
      FirstWord(b, w, i);
    }
    SliceIsWindow(RFC_3174.Words(b), 0, w);
  }
}
