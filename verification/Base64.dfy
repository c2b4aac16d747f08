/** The base64 encoder and decoder. */
module Base64 {
  import opened Basics

  const LF: Byte := 10
  const PAD: Byte := 61
  const UNKNOWN: Byte := 0x80
  const LINE := 72

  // ---------------------------------------------------------------- sequences

  lemma Associate(a: seq<Byte>, b: seq<Byte>, c: seq<Byte>)
    ensures a + b + c == a + (b + c)
  {
  }

  lemma NothingAdded(a: seq<Byte>)
    ensures a + [] == a && [] + a == a && a[0..] == a && a[..|a|] == a
  {
  }

  lemma Drop(x: seq<Byte>, i: nat, k: nat)
    requires i + k <= |x|
    ensures x[i..][k..] == x[i + k..] && x[i..][..k] == x[i..i + k]
  {
  }

  lemma Parts(g: seq<Byte>, t: seq<Byte>)
    ensures (g + t)[..|g|] == g && (g + t)[|g|..] == t
  {
  }

  // ---------------------------------------------------------------- lines

  /** A text cut into lines of 72 characters, each ended by a line feed. */
  function Lines(t: seq<Byte>): (l: seq<Byte>) {
    if |t| == 0 then []
    else if |t| <= LINE then t + [LF]
    else t[..LINE] + [LF] + Lines(t[LINE..])
  }

  /** The number of bytes of a text of n characters cut into lines. */
  function WithFeeds(n: nat): nat {
    n + (n + LINE - 1) / LINE
  }

  lemma {:induction false} LinesLength(t: seq<Byte>)
    ensures |Lines(t)| == WithFeeds(|t|)
  {
    if |t| > LINE {
      LinesLength(t[LINE..]);
    }
  }

  lemma LineEarlier(i: nat)
    requires i >= 73
    ensures (i - 73) % 73 == i % 73 && (i - 73) / 73 == i / 73 - 1
  {
  }

  /** Every 73rd byte and the last one is a line feed; the others are the characters in order. */
  lemma {:induction false} LinesAt(t: seq<Byte>, i: nat)
    requires i < |Lines(t)|
    ensures i % 73 == 72 || i == |Lines(t)| - 1 ==> Lines(t)[i] == 10
    ensures i % 73 != 72 && i != |Lines(t)| - 1 ==> i - i / 73 < |t| && Lines(t)[i] == t[i - i / 73]
  {
    if i < LINE || |t| <= LINE {
      assert i / 73 == 0 && i % 73 == i;
    } else if i > LINE {
      var rest := t[LINE..];
      LinesAt(rest, i - 73);
      LineEarlier(i);
      assert Lines(t)[i] == Lines(rest)[i - 73] && |Lines(t)| == 73 + |Lines(rest)|;
    }
  }

  /** The characters from position p on, four at a time, starting in column col, each full line
      ended on the way. */
  function BreakFrom(t: seq<Byte>, p: nat, col: nat): seq<Byte>
    decreases |t| - p
  {
    if |t| < p + 4 then (if col > 0 then [LF] else [])
    else if col + 4 >= LINE then t[p..p + 4] + ([LF] + BreakFrom(t, p + 4, 0))
    else t[p..p + 4] + BreakFrom(t, p + 4, col + 4)
  }

  lemma FirstLine(line: seq<Byte>, t: seq<Byte>)
    requires |line| == LINE
    ensures Lines(line + t) == line + ([LF] + Lines(t))
  {
    Parts(line, t);
    Associate(line, [LF], Lines(t));
    if t == [] {
      NothingAdded(line);
      NothingAdded([LF]);
    }
  }

  /** Ending lines on the way gives the text cut into lines. */
  lemma {:induction false} BreakFromIsLines(line: seq<Byte>, t: seq<Byte>, p: nat)
    requires p <= |t| && |line| < LINE && |line| % 4 == 0 && (|t| - p) % 4 == 0
    ensures line + BreakFrom(t, p, |line|) == Lines(line + t[p..])
    decreases |t| - p
  {
    if p == |t| {
      NothingAdded(line);
    } else {
      var g, r := t[p..p + 4], t[p + 4..];
      assert t[p..] == g + r;
      Associate(line, g, r);
      if |line| + 4 == LINE {
        NothingAdded(BreakFrom(t, p + 4, 0));
        NothingAdded(r);
        BreakFromIsLines([], t, p + 4);
        FirstLine(line + g, r);
        Associate(line, g, [LF] + BreakFrom(t, p + 4, 0));
      } else {
        BreakFromIsLines(line + g, t, p + 4);
        Associate(line, g, BreakFrom(t, p + 4, |line| + 4));
      }
    }
  }

  // ---------------------------------------------------------------- the size of the buffer

  const SIZE_RANGE: nat := 0x1_0000_0000_0000_0000

  /** The size computation in 64-bit unsigned arithmetic. */
  function BufferSize(len: nat): (olen: nat)
    requires len < SIZE_RANGE
  {
    var quads := (len * 4 % SIZE_RANGE / 3 + 4) % SIZE_RANGE;
    var feeds := (quads + quads / 72) % SIZE_RANGE;
    (feeds + 1) % SIZE_RANGE
  }

  const QUARTER: nat := 0x4000_0000_0000_0000

  lemma SizeFits(len: nat)
    requires len < QUARTER
    ensures BufferSize(len) == len * 4 / 3 + 4 + (len * 4 / 3 + 4) / 72 + 1 >= len
  {
    var quads := len * 4 / 3 + 4;
    NoWrap(len * 4);
    NoWrap(quads);
    NoWrap(quads + quads / 72);
    NoWrap(quads + quads / 72 + 1);
  }

  lemma NoWrap(n: nat)
    requires n < SIZE_RANGE
    ensures n % SIZE_RANGE == n
  {
  }

  lemma SizeWraps(len: nat)
    requires QUARTER <= len < SIZE_RANGE
    ensures BufferSize(len) < len
  {
    var wrapped := len * 4 % SIZE_RANGE;
    assert wrapped == len * 4 - len / QUARTER * SIZE_RANGE;
    assert wrapped <= 4 * (len - QUARTER);
    var quads := wrapped / 3 + 4;
    NoWrap(quads);
    NoWrap(quads + quads / 72);
    NoWrap(quads + quads / 72 + 1);
  }

  lemma FeedsFit(len: nat)
    requires len < QUARTER
    ensures WithFeeds((len + 2) / 3 * 4) + 1 <= BufferSize(len)
  {
    SizeFits(len);
    var n, m := (len + 2) / 3 * 4, len * 4 / 3 + 4;
    assert n + 1 <= m;
    assert (n + LINE - 1) / LINE <= m / 72 + 1;
  }

  /** The overflow test rejects exactly the lengths whose quadruple does not fit in 64 bits; for
      all others the computation does not wrap and the buffer holds all characters, all line feeds
      and the final NUL. */
  lemma BufferSuffices(len: nat)
    requires len < SIZE_RANGE
    ensures BufferSize(len) < len <==> len >= QUARTER
    ensures len < QUARTER ==>
      && BufferSize(len) == len * 4 / 3 + 4 + (len * 4 / 3 + 4) / 72 + 1
      && WithFeeds((len + 2) / 3 * 4) + 1 <= BufferSize(len)
  {
    if len < QUARTER {
      SizeFits(len);
      FeedsFit(len);
    } else {
      SizeWraps(len);
    }
  }

  // ---------------------------------------------------------------- padding and groups

  function Pads(g: seq<Byte>): nat {
    if g == [] then 0 else Pads(g[..|g| - 1]) + (if g[|g| - 1] == PAD then 1 else 0)
  }

  lemma PadsGrow(g: seq<Byte>, c: Byte)
    ensures Pads(g + [c]) == Pads(g) + if c == PAD then 1 else 0
  {
    assert (g + [c])[..|g|] == g;
  }

  lemma PadsOf(g: seq<Byte>)
    requires |g| == 4
    ensures Pads(g) == (if g[0] == PAD then 1 else 0) + (if g[1] == PAD then 1 else 0)
              + (if g[2] == PAD then 1 else 0) + (if g[3] == PAD then 1 else 0)
  {
    PadsGrow([], g[0]);
    PadsGrow([g[0]], g[1]);
    PadsGrow([g[0], g[1]], g[2]);
    PadsGrow([g[0], g[1], g[2]], g[3]);
    assert g == [g[0], g[1], g[2]] + [g[3]] && [g[0], g[1], g[2]] == [g[0], g[1]] + [g[2]]
      && [g[0], g[1]] == [g[0]] + [g[1]] && [g[0]] == [] + [g[0]];
  }

  /** The three bytes of four numbers below 64. */
  function Triple(b0: Byte, b1: Byte, b2: Byte, b3: Byte): seq<Byte> {
    [(b0 << 2) | (b1 >> 4), (b1 << 4) | (b2 >> 2), (b2 << 6) | b3]
  }

  /** The four numbers below 64 of three bytes; the decoder's bit fields give the bytes back. */
  lemma TripleUndoes(a: Byte, b: Byte, c: Byte)
    ensures a >> 2 < 64 && ((a & 0x03) << 4) | (b >> 4) < 64
    ensures ((b & 0x0f) << 2) | (c >> 6) < 64 && c & 0x3f < 64
    ensures Triple(a >> 2, ((a & 0x03) << 4) | (b >> 4), ((b & 0x0f) << 2) | (c >> 6), c & 0x3f)
            == [a, b, c]
  {
  }

  lemma TailUndoes(a: Byte, b: Byte)
    ensures a >> 2 < 64 && (a & 0x03) << 4 < 64 && ((a & 0x03) << 4) | (b >> 4) < 64
    ensures (b & 0x0f) << 2 < 64
    ensures Triple(a >> 2, (a & 0x03) << 4, 0, 0)[0] == a
    ensures var t := Triple(a >> 2, ((a & 0x03) << 4) | (b >> 4), (b & 0x0f) << 2, 0);
      t[0] == a && t[1] == b && t[..2] == [a, b]
  {
  }

  /** The number of characters for n bytes. */
  lemma QuadCount(n: nat)
    ensures (n + 2) / 3 * 4 == if n == 0 then 0 else if n < 3 then 4 else 4 + (n - 3 + 2) / 3 * 4
    ensures (n + 2) / 3 * 4 % 4 == 0
  {
  }

  function Prepend(a: seq<Byte>, b: Option<seq<Byte>>): Option<seq<Byte>> {
    if b == None then None else Some(a + b.value)
  }

  lemma PrependTwice(a: seq<Byte>, b: seq<Byte>, c: Option<seq<Byte>>)
    ensures Prepend(a, Prepend(b, c)) == Prepend(a + b, c)
  {
    if c.Some? {
      Associate(a, b, c.value);
    }
  }

  lemma PrependNothing(c: Option<seq<Byte>>)
    ensures Prepend([], c) == c
  {
    if c.Some? {
      NothingAdded(c.value);
    }
  }

  // ---------------------------------------------------------------- the alphabet

  /** The characters for the numbers below 64: all different, and none of them the padding
      character or the line feed. */
  datatype Alphabet = Alphabet(symbol: Byte -> Byte) {

    ghost predicate Clash(i: Byte, j: Byte) {
      i < 64 && j < 64 && i != j && symbol(i) == symbol(j)
    }

    ghost predicate Reserved(i: Byte) {
      i < 64 && (symbol(i) == PAD || symbol(i) == LF)
    }

    ghost predicate Valid() {
      (forall i, j :: !Clash(i, j)) && (forall i :: !Reserved(i))
    }

    ghost predicate IsSymbol(c: Byte, i: Byte) {
      i < 64 && symbol(i) == c
    }

    /** The decoder's table: the padding character counts as a zero. */
    ghost function Value(c: Byte): (v: Byte)
      ensures v < 64 || v == UNKNOWN
    {
      if c == PAD then 0
      else if i :| IsSymbol(c, i) then i
      else UNKNOWN
    }

    lemma ValueOfSymbol(i: Byte)
      requires Valid() && i < 64
      ensures Value(symbol(i)) == i && symbol(i) != PAD
    {
      assert IsSymbol(symbol(i), i) && !Reserved(i);
      assert !Clash(i, Value(symbol(i)));
    }

    // -------------------------------------------------------------- encoding

    /** The four characters for three bytes. */
    function Quad(a: Byte, b: Byte, c: Byte): seq<Byte> {
      [symbol(a >> 2), symbol(((a & 0x03) << 4) | (b >> 4)),
       symbol(((b & 0x0f) << 2) | (c >> 6)), symbol(c & 0x3f)]
    }

    /** The characters for one or two bytes. */
    function Tail(x: seq<Byte>): (q: seq<Byte>)
      requires 0 < |x| < 3
      ensures |q| == 4
    {
      if |x| == 1 then [symbol(x[0] >> 2), symbol((x[0] & 0x03) << 4), PAD, PAD]
      else [symbol(x[0] >> 2), symbol(((x[0] & 0x03) << 4) | (x[1] >> 4)),
            symbol((x[1] & 0x0f) << 2), PAD]
    }

    /** The characters for a byte string, without line breaks: section 4 of RFC 4648. */
    function Characters(x: seq<Byte>): (t: seq<Byte>) {
      if |x| == 0 then []
      else if |x| < 3 then Tail(x)
      else Quad(x[0], x[1], x[2]) + Characters(x[3..])
    }

    lemma {:induction false} CharactersLength(x: seq<Byte>)
      ensures |Characters(x)| == (|x| + 2) / 3 * 4
      ensures |Characters(x)| % 4 == 0 && (x == [] <==> |Characters(x)| == 0)
    {
      QuadCount(|x|);
      if |x| >= 3 {
        var rest := x[3..];
        CharactersLength(rest);
        assert |rest| == |x| - 3 && |Characters(x)| == 4 + |Characters(rest)|;
      }
    }

    /** What base64_encode produces, before the final NUL. */
    function Encoded(x: seq<Byte>): seq<Byte> {
      Lines(Characters(x))
    }

    // -------------------------------------------------------------- decoding

    ghost predicate AllValid(t: seq<Byte>) {
      forall k :: 0 <= k < |t| ==> Value(t[k]) != UNKNOWN
    }

    /** The characters that are not skipped. */
    ghost function Known(t: seq<Byte>): (k: seq<Byte>) {
      if t == [] then []
      else (if Value(t[0]) != UNKNOWN then [t[0]] else []) + Known(t[1..])
    }

    ghost function GroupBytes(g: seq<Byte>): seq<Byte>
      requires |g| == 4 && AllValid(g)
    {
      Triple(Value(g[0]), Value(g[1]), Value(g[2]), Value(g[3]))
    }

    /** A group and what is decoded behind it: padding ends the text. */
    ghost function AfterGroup(g: seq<Byte>, rest: Option<seq<Byte>>): Option<seq<Byte>>
      requires |g| == 4 && AllValid(g)
    {
      if Pads(g) == 0 then Prepend(GroupBytes(g), rest)
      else if Pads(g) <= 2 then Some(GroupBytes(g)[..3 - Pads(g)])
      else None
    }

    /** Decodes groups of four characters. */
    ghost function Groups(t: seq<Byte>): Option<seq<Byte>>
      requires AllValid(t)
    {
      if |t| < 4 then Some([]) else AfterGroup(t[..4], Groups(t[4..]))
    }

    lemma {:induction false} KnownIsKnown(t: seq<Byte>)
      ensures AllValid(Known(t))
    {
      if t != [] {
        KnownIsKnown(t[1..]);
      }
    }

    /** What base64_decode computes: nothing without characters or with an incomplete group. */
    ghost function Decoded(t: seq<Byte>): Option<seq<Byte>> {
      KnownIsKnown(t);
      if |Known(t)| == 0 || |Known(t)| % 4 != 0 then None else Groups(Known(t))
    }

    // -------------------------------------------------------------- the round trip

    lemma {:induction false} KnownAppend(a: seq<Byte>, b: seq<Byte>)
      ensures Known(a + b) == Known(a) + Known(b)
    {
      if a == [] {
        NothingAdded(b);
        NothingAdded(Known(b));
      } else {
        assert (a + b)[1..] == a[1..] + b;
        KnownAppend(a[1..], b);
        var first := if Value(a[0]) != UNKNOWN then [a[0]] else [];
        Associate(first, Known(a[1..]), Known(b));
      }
    }

    lemma {:induction false} AllKnown(t: seq<Byte>)
      requires AllValid(t)
      ensures Known(t) == t
    {
      if t != [] {
        AllKnown(t[1..]);
      }
    }

    lemma FeedSkipped()
      requires Valid()
      ensures Known([LF]) == []
    {
      forall i ensures !IsSymbol(LF, i) {
        assert !Reserved(i);
      }
      assert [LF][1..] == [];
    }

    /** The decoder skips the line feeds. */
    lemma {:induction false} LinesKnown(t: seq<Byte>)
      requires Valid() && AllValid(t)
      ensures Known(Lines(t)) == t
    {
      FeedSkipped();
      if 0 < |t| <= LINE {
        KnownAppend(t, [LF]);
        AllKnown(t);
        NothingAdded(t);
      } else if |t| > LINE {
        var first, rest := t[..LINE], t[LINE..];
        assert t == first + rest;
        KnownAppend(first + [LF], Lines(rest));
        KnownAppend(first, [LF]);
        NothingAdded(first);
        AllKnown(first);
        LinesKnown(rest);
      }
    }

    lemma GroupStep(g: seq<Byte>, tail: seq<Byte>)
      requires |g| == 4 && AllValid(g) && AllValid(tail)
      ensures AllValid(g + tail) && Groups(g + tail) == AfterGroup(g, Groups(tail))
    {
      Parts(g, tail);
    }

    lemma QuadDecodes(a: Byte, b: Byte, c: Byte)
      requires Valid()
      ensures var g := Quad(a, b, c); AllValid(g) && GroupBytes(g) == [a, b, c] && Pads(g) == 0
    {
      TripleUndoes(a, b, c);
      ValueOfSymbol(a >> 2);
      ValueOfSymbol(((a & 0x03) << 4) | (b >> 4));
      ValueOfSymbol(((b & 0x0f) << 2) | (c >> 6));
      ValueOfSymbol(c & 0x3f);
      PadsOf(Quad(a, b, c));
    }

    lemma OneByteDecodes(a: Byte)
      requires Valid()
      ensures var g := Tail([a]); AllValid(g) && Pads(g) == 2 && GroupBytes(g)[..1] == [a]
    {
      TailUndoes(a, 0);
      ValueOfSymbol(a >> 2);
      ValueOfSymbol((a & 0x03) << 4);
      PadsOf(Tail([a]));
    }

    lemma PaddedGroup(i0: Byte, i1: Byte, i2: Byte)
      requires Valid() && i0 < 64 && i1 < 64 && i2 < 64
      ensures var g := [symbol(i0), symbol(i1), symbol(i2), PAD];
        AllValid(g) && Pads(g) == 1 && GroupBytes(g) == Triple(i0, i1, i2, 0)
    {
      ValueOfSymbol(i0);
      ValueOfSymbol(i1);
      ValueOfSymbol(i2);
      PadsOf([symbol(i0), symbol(i1), symbol(i2), PAD]);
    }

    lemma TwoBytesDecode(a: Byte, b: Byte)
      requires Valid()
      ensures var g := Tail([a, b]); AllValid(g) && Pads(g) == 1 && GroupBytes(g)[..2] == [a, b]
    {
      TailUndoes(a, b);
      PaddedGroup(a >> 2, ((a & 0x03) << 4) | (b >> 4), (b & 0x0f) << 2);
      assert Tail([a, b]) == [symbol(a >> 2), symbol(((a & 0x03) << 4) | (b >> 4)),
                              symbol((b & 0x0f) << 2), PAD];
    }

    lemma TailDecodes(x: seq<Byte>)
      requires Valid() && 0 < |x| < 3
      ensures AllValid(Tail(x)) && Pads(Tail(x)) == 3 - |x| && GroupBytes(Tail(x))[..|x|] == x
    {
      if |x| == 1 {
        assert x == [x[0]];
        OneByteDecodes(x[0]);
      } else {
        assert x == [x[0], x[1]];
        TwoBytesDecode(x[0], x[1]);
      }
    }

    lemma {:induction false} GroupsOfCharacters(x: seq<Byte>)
      requires Valid()
      ensures AllValid(Characters(x)) && (x != [] ==> Groups(Characters(x)) == Some(x))
    {
      if 0 < |x| < 3 {
        TailDecodes(x);
        NothingAdded(Tail(x));
        GroupStep(Tail(x), []);
      } else if |x| >= 3 {
        QuadDecodes(x[0], x[1], x[2]);
        GroupsOfCharacters(x[3..]);
        GroupStep(Quad(x[0], x[1], x[2]), Characters(x[3..]));
        assert [x[0], x[1], x[2]] + x[3..] == x;
      }
    }

    lemma DecodedLines(t: seq<Byte>)
      requires Valid() && AllValid(t)
      ensures Decoded(Lines(t)) == if |t| == 0 || |t| % 4 != 0 then None else Groups(t)
    {
      LinesKnown(t);
    }

    /** Decoding what was encoded gives every non-empty byte string back. */
    lemma RoundTrip(x: seq<Byte>)
      requires Valid()
      ensures Decoded(Encoded(x)) == if x == [] then None else Some(x)
    {
      GroupsOfCharacters(x);
      CharactersLength(x);
      DecodedLines(Characters(x));
    }

    /** A character that is neither a symbol nor padding is skipped, wherever it stands. */
    lemma Skipped(a: seq<Byte>, c: Byte, b: seq<Byte>)
      requires c != 61 && forall i: Byte :: i < 64 ==> symbol(i) != c
      ensures Decoded(a + [c] + b) == Decoded(a + b)
    {
      assert forall i: Byte :: !IsSymbol(c, i);
      assert [c][1..] == [] && Known([c]) == [];
      KnownAppend(a + [c], b);
      KnownAppend(a, [c]);
      KnownAppend(a, b);
      NothingAdded(Known(a));
    }

    /** Padding ends the text: the groups behind it are not decoded. */
    lemma {:induction false} PaddingEnds(x: seq<Byte>, t: seq<Byte>)
      requires Valid() && |x| % 3 != 0 && AllValid(t)
      ensures AllValid(Characters(x) + t) && Groups(Characters(x) + t) == Some(x)
    {
      GroupsOfCharacters(x);
      if |x| < 3 {
        TailDecodes(x);
        GroupStep(Tail(x), t);
      } else {
        var q, rest := Quad(x[0], x[1], x[2]), Characters(x[3..]);
        QuadDecodes(x[0], x[1], x[2]);
        PaddingEnds(x[3..], t);
        Associate(q, rest, t);
        GroupStep(q, rest + t);
        assert [x[0], x[1], x[2]] + x[3..] == x;
      }
    }

    lemma DecodedToPadding(x: seq<Byte>, t: seq<Byte>)
      requires Valid() && |x| % 3 != 0 && AllValid(t) && |t| % 4 == 0
      ensures Decoded(Characters(x) + t) == Some(x)
    {
      PaddingEnds(x, t);
      CharactersLength(x);
      SumOfFours(|Characters(x)|, |t|);
      DecodedKnown(Characters(x) + t);
    }

    lemma DecodedKnown(t: seq<Byte>)
      requires AllValid(t) && |t| > 0 && |t| % 4 == 0
      ensures Decoded(t) == Groups(t)
    {
      AllKnown(t);
    }

    lemma SumOfFours(a: nat, b: nat)
      requires a % 4 == 0 && b % 4 == 0
      ensures (a + b) % 4 == 0
    {
    }

    /** Three padding characters make a text invalid. */
    lemma ThreePads(x: seq<Byte>, i: Byte)
      requires Valid() && |x| % 3 == 0 && i < 64
      ensures Decoded(Characters(x) + [symbol(i), 61, 61, 61]) == None
    {
      var g := [symbol(i), PAD, PAD, PAD];
      ValueOfSymbol(i);
      PadsOf(g);
      NothingAdded(g);
      GroupStep(g, []);
      ThreePadsBehind(x, g);
      CharactersLength(x);
      SumOfFours(|Characters(x)|, 4);
      DecodedKnown(Characters(x) + g);
    }

    lemma {:induction false} ThreePadsBehind(x: seq<Byte>, g: seq<Byte>)
      requires Valid() && |x| % 3 == 0 && |g| == 4 && AllValid(g) && Groups(g) == None
      ensures AllValid(Characters(x) + g) && Groups(Characters(x) + g) == None
    {
      if x == [] {
        NothingAdded(g);
      } else {
        var q, rest := Quad(x[0], x[1], x[2]), Characters(x[3..]);
        QuadDecodes(x[0], x[1], x[2]);
        ThreePadsBehind(x[3..], g);
        Associate(q, rest, g);
        GroupStep(q, rest + g);
      }
    }
  }

  // ---------------------------------------------------------------- writing to the buffer

  /** Writes one byte at the output position. */
  method Emit(out: array<Byte>, pos: nat, c: Byte, ghost written: seq<Byte>)
    returns (next: nat, ghost now: seq<Byte>)
    requires pos < out.Length && out[..pos] == written
    modifies out
    ensures next == pos + 1 && now == written + [c] && out[..next] == now
  {
    out[pos] := c;
    next, now := pos + 1, written + [c];
  }

  /** Writes four bytes. */
  method EmitFour(out: array<Byte>, pos: nat, c0: Byte, c1: Byte, c2: Byte, c3: Byte,
                  ghost written: seq<Byte>)
    returns (next: nat, ghost now: seq<Byte>)
    requires pos + 4 <= out.Length && out[..pos] == written
    modifies out
    ensures next == pos + 4 && now == written + [c0, c1, c2, c3] && out[..next] == now
  {
    next, now := Emit(out, pos, c0, written);
    next, now := Emit(out, next, c1, now);
    next, now := Emit(out, next, c2, now);
    next, now := Emit(out, next, c3, now);
  }

  // ---------------------------------------------------------------- the encoder

  /** Behind k groups of characters come those of the bytes behind k groups. */
  lemma {:induction false} CharactersBehind(ab: Alphabet, x: seq<Byte>, k: nat)
    requires 3 * k <= |x|
    ensures 4 * k <= |ab.Characters(x)| && ab.Characters(x)[4 * k..] == ab.Characters(x[3 * k..])
  {
    if k == 0 {
      NothingAdded(x);
      NothingAdded(ab.Characters(x));
    } else {
      var q, rest := ab.Quad(x[0], x[1], x[2]), x[3..];
      CharactersBehind(ab, rest, k - 1);
      Drop(x, 3, 3 * (k - 1));
      Parts(q, ab.Characters(rest));
      Drop(ab.Characters(x), 4, 4 * (k - 1));
    }
  }

  lemma CharactersFrom(ab: Alphabet, x: seq<Byte>, i: nat)
    requires i <= |x| && i % 3 == 0
    ensures i / 3 * 4 <= |ab.Characters(x)| && ab.Characters(x)[i / 3 * 4..] == ab.Characters(x[i..])
  {
    CharactersBehind(ab, x, i / 3);
  }

  /** The next group of characters is that of the next three bytes. */
  lemma NextQuad(ab: Alphabet, x: seq<Byte>, i: nat)
    requires i + 3 <= |x| && i % 3 == 0
    ensures i / 3 * 4 + 4 <= |ab.Characters(x)|
    ensures ab.Characters(x)[i / 3 * 4..i / 3 * 4 + 4] == ab.Quad(x[i], x[i + 1], x[i + 2])
  {
    var t, p := ab.Characters(x), i / 3 * 4;
    CharactersFrom(ab, x, i);
    Parts(ab.Quad(x[i], x[i + 1], x[i + 2]), ab.Characters(x[i..][3..]));
    Drop(t, p, 4);
  }

  /** The last group of characters is that of the one or two bytes left. */
  lemma LastQuad(ab: Alphabet, x: seq<Byte>, i: nat)
    requires i <= |x| < i + 3 && i % 3 == 0
    ensures var p := i / 3 * 4; var t := ab.Characters(x);
      if i == |x| then p == |t| else p + 4 == |t| && t[p..p + 4] == ab.Tail(x[i..])
  {
    var t, p := ab.Characters(x), i / 3 * 4;
    CharactersFrom(ab, x, i);
    ab.CharactersLength(x);
    if i < |x| {
      Drop(t, p, 4);
      NothingAdded(ab.Tail(x[i..]));
    }
  }

  lemma EncodedFits(ab: Alphabet, x: seq<Byte>)
    requires |x| < QUARTER
    ensures |ab.Encoded(x)| < BufferSize(|x|)
  {
    ab.CharactersLength(x);
    LinesLength(ab.Characters(x));
    FeedsFit(|x|);
  }

  /** The text when all characters from position p on are written behind what there is. */
  function Broken(text: seq<Byte>, t: seq<Byte>, p: nat, col: nat): (b: seq<Byte>)
    ensures |b| >= |text|
    decreases |t| - p
  {
    if |t| < p + 4 then (if col > 0 then text + [LF] else text)
    else if col + 4 >= LINE then Broken(text + t[p..p + 4] + [LF], t, p + 4, 0)
    else Broken(text + t[p..p + 4], t, p + 4, col + 4)
  }

  lemma {:induction false} BrokenIsBreak(text: seq<Byte>, t: seq<Byte>, p: nat, col: nat)
    ensures Broken(text, t, p, col) == text + BreakFrom(t, p, col)
    decreases |t| - p
  {
    if |t| < p + 4 {
      NothingAdded(text);
    } else if col + 4 >= LINE {
      BrokenIsBreak(text + t[p..p + 4] + [LF], t, p + 4, 0);
      Associate(text, t[p..p + 4], [LF] + BreakFrom(t, p + 4, 0));
      Associate(text + t[p..p + 4], [LF], BreakFrom(t, p + 4, 0));
    } else {
      BrokenIsBreak(text + t[p..p + 4], t, p + 4, col + 4);
      Associate(text, t[p..p + 4], BreakFrom(t, p + 4, col + 4));
    }
  }

  /** Encodes one full group of three bytes, and ends the line if it is full. */
  method EncodeGroup(ab: Alphabet, src: seq<Byte>, out: array<Byte>, i: nat, at: nat, col: nat,
                     ghost written: seq<Byte>, ghost p: nat)
    returns (pos: nat, line_len: nat, ghost text: seq<Byte>)
    requires i + 3 <= |src| && 3 * p == 4 * i && col < LINE
    requires at == |written| && at <= out.Length && out[..at] == written
    requires |Broken(written, ab.Characters(src), p, col)| < out.Length
    modifies out
    ensures line_len < LINE && pos == |text| <= out.Length && out[..pos] == text
    ensures Broken(text, ab.Characters(src), p + 4, line_len)
         == Broken(written, ab.Characters(src), p, col)
  {
    ghost var t := ab.Characters(src);
    assert p == i / 3 * 4 && i % 3 == 0;
    NextQuad(ab, src, i);
    ghost var quad := ab.Quad(src[i], src[i + 1], src[i + 2]);
    assert t[p..p + 4] == quad;
    assert |Broken(written + quad, t, p + 4, col + 4)| >= |written + quad|;
    assert |Broken(written + quad + [LF], t, p + 4, 0)| >= |written + quad + [LF]|;
    pos, text := EmitFour(out, at, ab.symbol(src[i] >> 2),
      ab.symbol(((src[i] & 0x03) << 4) | (src[i + 1] >> 4)),
      ab.symbol(((src[i + 1] & 0x0f) << 2) | (src[i + 2] >> 6)),
      ab.symbol(src[i + 2] & 0x3f), written);
    line_len := col + 4;
    if line_len >= LINE {
      pos, text := Emit(out, pos, LF, text);
      line_len := 0;
    }
  }

  /** Encodes the full groups of three bytes. */
  method EncodeGroups(ab: Alphabet, src: seq<Byte>, out: array<Byte>)
    returns (pos: nat, i: nat, line_len: nat, ghost text: seq<Byte>, ghost p: nat)
    requires out.Length > |Broken([], ab.Characters(src), 0, 0)|
    modifies out
    ensures i <= |src| < i + 3 && 3 * p == 4 * i && line_len < LINE
    ensures pos == |text| <= out.Length && out[..pos] == text
    ensures Broken(text, ab.Characters(src), p, line_len) == Broken([], ab.Characters(src), 0, 0)
  {
    pos, i, line_len, text, p := 0, 0, 0, [], 0;
    while |src| - i >= 3
      invariant i <= |src| && 3 * p == 4 * i && line_len < LINE
      invariant pos == |text| <= out.Length && out[..pos] == text
      invariant Broken(text, ab.Characters(src), p, line_len) == Broken([], ab.Characters(src), 0, 0)
    {
      pos, line_len, text := EncodeGroup(ab, src, out, i, pos, line_len, text, p);
      i, p := i + 3, p + 4;
    }
  }

  /** Encodes the one or two bytes left behind the full groups. */
  method EncodeTail(ab: Alphabet, src: seq<Byte>, out: array<Byte>, i: nat, at: nat,
                    ghost written: seq<Byte>)
    returns (pos: nat, ghost text: seq<Byte>)
    requires i < |src| < i + 3
    requires at == |written| && at + 4 <= out.Length && out[..at] == written
    modifies out
    ensures text == written + ab.Tail(src[i..]) && pos == |text| && out[..pos] == text
  {
    if |src| - i == 1 {
      pos, text := EmitFour(out, at, ab.symbol(src[i] >> 2), ab.symbol((src[i] & 0x03) << 4),
        PAD, PAD, written);
    } else {
      pos, text := EmitFour(out, at, ab.symbol(src[i] >> 2),
        ab.symbol(((src[i] & 0x03) << 4) | (src[i + 1] >> 4)),
        ab.symbol((src[i + 1] & 0x0f) << 2), PAD, written);
    }
  }

  /** Encodes what is left behind the full groups and ends the last line. */
  method EncodeEnd(ab: Alphabet, src: seq<Byte>, out: array<Byte>, i: nat, at: nat, col: nat,
                   ghost written: seq<Byte>, ghost p: nat)
    returns (pos: nat)
    requires i <= |src| < i + 3 && 3 * p == 4 * i && col < LINE
    requires at == |written| && at <= out.Length && out[..at] == written
    requires |Broken(written, ab.Characters(src), p, col)| < out.Length
    modifies out
    ensures pos < out.Length && out[..pos] == Broken(written, ab.Characters(src), p, col)
  {
    ghost var text := written;
    var line_len := col;
    pos := at;
    assert p == i / 3 * 4 && i % 3 == 0;
    LastQuad(ab, src, i);
    if |src| - i != 0 {
      LastBroken(written, ab.Characters(src), p, col);
      pos, text := EncodeTail(ab, src, out, i, pos, text);
      line_len := line_len + 4;
    }
    if line_len != 0 {
      pos, text := Emit(out, pos, LF, text);
    }
  }

  lemma LastBroken(text: seq<Byte>, t: seq<Byte>, p: nat, col: nat)
    requires |t| == p + 4
    ensures Broken(text, t, p, col) == text + t[p..p + 4] + [LF]
  {
  }

  /** Encodes all of the input into a buffer of the computed size. */
  method EncodeInto(ab: Alphabet, src: seq<Byte>, out: array<Byte>) returns (outLen: nat)
    requires |src| < QUARTER && out.Length == BufferSize(|src|)
    modifies out
    ensures outLen < out.Length && out[..outLen] == ab.Encoded(src) && out[outLen] == 0
  {
    BrokenIsEncoded(ab, src);
    EncodedFits(ab, src);
    var pos, i, line_len;
    ghost var text, p;
    pos, i, line_len, text, p := EncodeGroups(ab, src, out);
    outLen := EncodeEnd(ab, src, out, i, pos, line_len, text, p);
    ghost var encoded := out[..outLen];
    out[outLen] := 0;
    assert out[..outLen] == encoded;
  }

  /** Writing the characters group by group, with line feeds on the way, gives the encoding. */
  lemma BrokenIsEncoded(ab: Alphabet, src: seq<Byte>)
    ensures Broken([], ab.Characters(src), 0, 0) == ab.Encoded(src)
  {
    var t := ab.Characters(src);
    ab.CharactersLength(src);
    BrokenIsBreak([], t, 0, 0);
    BreakFromIsLines([], t, 0);
    NothingAdded(t);
  }

  /** Encodes a byte string; rejects lengths for which the buffer size overflows. */
  method Encode(ab: Alphabet, src: seq<Byte>, memory: bool) returns (out: array?<Byte>, outLen: nat)
    requires |src| < SIZE_RANGE
    ensures out == null <==> |src| >= QUARTER || !memory
    ensures out != null ==>
      && fresh(out) && out.Length == BufferSize(|src|)
      && outLen < out.Length && out[..outLen] == ab.Encoded(src) && out[outLen] == 0
  {
    var olen := BufferSize(|src|);
    BufferSuffices(|src|);
    if olen < |src| || !memory {
      return null, 0;
    }
    out := new Byte[olen];
    outLen := EncodeInto(ab, src, out);
  }

  // ---------------------------------------------------------------- the decoder

  /** A table with one entry changed. */
  function Updated(table: Byte -> Byte, at: Byte, v: Byte): Byte -> Byte {
    c => if c == at then v else table(c)
  }

  /** The decoder's lookup table. */
  method BuildTable(ab: Alphabet) returns (dtable: Byte -> Byte)
    requires ab.Valid()
    ensures forall c :: dtable(c) == ab.Value(c)
  {
    dtable := c => UNKNOWN;
    var i: Byte := 0;
    while i < 64
      invariant i <= 64
      invariant forall k: Byte :: k < i ==> dtable(ab.symbol(k)) == k
      invariant forall c :: (forall k: Byte :: k < i ==> ab.symbol(k) != c) ==> dtable(c) == UNKNOWN
    {
      forall k: Byte | k < i ensures ab.symbol(k) != ab.symbol(i) {
        assert !ab.Clash(k, i);
      }
      dtable := Updated(dtable, ab.symbol(i), i);
      i := i + 1;
    }
    dtable := Updated(dtable, PAD, 0);
    forall c ensures dtable(c) == ab.Value(c) {
      if k: Byte :| ab.IsSymbol(c, k) {
        ab.ValueOfSymbol(k);
      } else {
        forall k: Byte | k < 64 ensures ab.symbol(k) != c {
          assert !ab.IsSymbol(c, k);
        }
      }
    }
  }

  /** The number of known characters from position i on. */
  ghost function KnownFrom(ab: Alphabet, src: seq<Byte>, i: nat): nat
    requires i <= |src|
    decreases |src| - i
  {
    if i == |src| then 0
    else (if ab.Value(src[i]) != UNKNOWN then 1 else 0) + KnownFrom(ab, src, i + 1)
  }

  lemma {:induction false} KnownFromIsKnown(ab: Alphabet, src: seq<Byte>, i: nat)
    requires i <= |src|
    ensures KnownFrom(ab, src, i) == |ab.Known(src[i..])|
    decreases |src| - i
  {
    if i < |src| {
      Drop(src, i, 1);
      KnownFromIsKnown(ab, src, i + 1);
    }
  }

  /** The counting pass. */
  method CountKnown(ghost ab: Alphabet, src: seq<Byte>, dtable: Byte -> Byte) returns (count: nat)
    requires forall c :: dtable(c) == ab.Value(c)
    ensures count == KnownFrom(ab, src, 0)
  {
    count := 0;
    var i := 0;
    while i < |src|
      invariant i <= |src| && count + KnownFrom(ab, src, i) == KnownFrom(ab, src, 0)
    {
      if dtable(src[i]) != UNKNOWN {
        count := count + 1;
      }
      i := i + 1;
    }
  }

  /** What is decoded from position i on when the characters of g are already collected. */
  ghost function DecodeFrom(ab: Alphabet, src: seq<Byte>, i: nat, g: seq<Byte>): Option<seq<Byte>>
    requires i <= |src| && ab.AllValid(g) && |g| < 4
    decreases |src| - i, 0
  {
    if i == |src| then Some([])
    else if ab.Value(src[i]) == UNKNOWN then DecodeFrom(ab, src, i + 1, g)
    else if |g| < 3 then DecodeFrom(ab, src, i + 1, g + [src[i]])
    else Complete(ab, src, i + 1, g + [src[i]])
  }

  /** What is decoded from a complete group and the input from position i on. */
  ghost function Complete(ab: Alphabet, src: seq<Byte>, i: nat, g: seq<Byte>): Option<seq<Byte>>
    requires i <= |src| && ab.AllValid(g) && |g| == 4
    decreases |src| - i, 1
  {
    ab.AfterGroup(g, DecodeFrom(ab, src, i, []))
  }

  /** Collecting characters on the way decodes the same groups as dropping unknown ones first. */
  lemma {:induction false} DecodeFromIsGroups(ab: Alphabet, src: seq<Byte>, i: nat, g: seq<Byte>)
    requires i <= |src| && ab.AllValid(g) && |g| < 4
    ensures ab.AllValid(g + ab.Known(src[i..]))
    ensures DecodeFrom(ab, src, i, g) == ab.Groups(g + ab.Known(src[i..]))
    decreases |src| - i
  {
    if i == |src| {
      NothingAdded(g);
    } else {
      var c, k := src[i], ab.Known(src[i + 1..]);
      Drop(src, i, 1);
      NothingAdded(k);
      if ab.Value(c) == UNKNOWN {
        DecodeFromIsGroups(ab, src, i + 1, g);
      } else {
        Associate(g, [c], k);
        if |g| < 3 {
          DecodeFromIsGroups(ab, src, i + 1, g + [c]);
        } else {
          DecodeFromIsGroups(ab, src, i + 1, []);
          ab.GroupStep(g + [c], k);
        }
      }
    }
  }

  /** The block starts with the values of the characters of g. */
  ghost predicate Holds(block: array<Byte>, ab: Alphabet, g: seq<Byte>)
    reads block
  {
    |g| <= block.Length && forall k :: 0 <= k < |g| ==> block[k] == ab.Value(g[k])
  }

  /** Writes the three bytes of a complete group. */
  method EmitGroup(ghost ab: Alphabet, out: array<Byte>, pos: nat, block: array<Byte>,
                   ghost g: seq<Byte>, ghost written: seq<Byte>)
    returns (next: nat, ghost now: seq<Byte>)
    requires out != block && block.Length == 4 && pos + 3 <= out.Length && out[..pos] == written
    requires |g| == 4 && ab.AllValid(g) && Holds(block, ab, g)
    modifies out
    ensures next == pos + 3 && now == written + ab.GroupBytes(g) && out[..next] == now
  {
    var bytes := Triple(block[0], block[1], block[2], block[3]);
    next, now := Emit(out, pos, bytes[0], written);
    next, now := Emit(out, next, bytes[1], now);
    next, now := Emit(out, next, bytes[2], now);
  }

  /** Drops the bytes that padding stands for. */
  method DropPadding(pos: nat, pad: nat, ghost before: seq<Byte>, ghost bytes: seq<Byte>)
    returns (valid: bool, end: nat)
    requires |bytes| == 3 && pos == |before| + 3 && pad > 0
    ensures valid <==> pad <= 2
    ensures valid ==> end == pos - pad && (before + bytes)[..end] == before + bytes[..3 - pad]
  {
    if pad == 1 {
      return true, pos - 1;
    } else if pad == 2 {
      return true, pos - 2;
    } else {
      return false, 0;
    }
  }

  /** Decodes a complete group; padding ends the text. */
  method FinishGroup(ghost ab: Alphabet, out: array<Byte>, pos: nat, block: array<Byte>, pad: nat,
                     ghost g: seq<Byte>, ghost text: seq<Byte>, ghost src: seq<Byte>, ghost i: nat)
    returns (stopped: bool, valid: bool, end: nat, ghost now: seq<Byte>)
    requires out != block && block.Length == 4 && pos + 3 <= out.Length && i <= |src|
    requires pos == |text| && out[..pos] == text && |g| == 4 && ab.AllValid(g) && pad == Pads(g)
    requires Holds(block, ab, g)
    modifies out
    ensures stopped <==> pad != 0
    ensures !stopped ==>
      && end == |now| == pos + 3 && out[..end] == now
      && Prepend(text, Complete(ab, src, i, g)) == Prepend(now, DecodeFrom(ab, src, i, []))
    ensures stopped && valid ==>
      end <= pos + 3 && Prepend(text, Complete(ab, src, i, g)) == Some(out[..end])
    ensures stopped && !valid ==> Prepend(text, Complete(ab, src, i, g)) == None
  {
    end, now := EmitGroup(ab, out, pos, block, g, text);
    stopped, valid := pad != 0, true;
    if stopped {
      valid, end := DropPadding(end, pad, text, ab.GroupBytes(g));
      assert valid ==> out[..end] == now[..end];
    } else {
      PrependTwice(text, ab.GroupBytes(g), DecodeFrom(ab, src, i, []));
    }
  }

  /** Adds the value of a character to the block, and counts padding. */
  method Collect(ghost ab: Alphabet, block: array<Byte>, ghost g: seq<Byte>, c: Byte, value: Byte,
                 count: nat, pad: nat)
    returns (more: nat, pads: nat)
    requires block.Length == 4 && count == |g| < 4 && pad == Pads(g)
    requires Holds(block, ab, g) && value == ab.Value(c)
    modifies block
    ensures more == |g| + 1 && pads == Pads(g + [c]) && Holds(block, ab, g + [c])
  {
    PadsGrow(g, c);
    pads := if c == PAD then pad + 1 else pad;
    block[count] := value;
    more := count + 1;
  }

  /** Takes a known character in and decodes the group it completes. */
  method TakeKnown(ghost ab: Alphabet, src: seq<Byte>, i: nat, value: Byte, out: array<Byte>, pos: nat,
                   block: array<Byte>, count: nat, pad: nat, ghost g: seq<Byte>, ghost text: seq<Byte>)
    returns (stopped: bool, valid: bool, end: nat, more: nat, pads: nat,
             ghost now: seq<Byte>, ghost h: seq<Byte>)
    requires out != block && block.Length == 4 && i < |src| && value == ab.Value(src[i]) != UNKNOWN
    requires pos == |text| <= out.Length && out[..pos] == text && 4 * pos + 3 * (count + 1) <= 4 * out.Length
    requires count == |g| < 4 && ab.AllValid(g) && pad == Pads(g) && Holds(block, ab, g)
    modifies out, block
    ensures !stopped ==>
      && end == |now| <= out.Length && out[..end] == now && 4 * end + 3 * more == 4 * pos + 3 * (count + 1)
      && more == |h| < 4 && ab.AllValid(h) && pads == Pads(h) && Holds(block, ab, h)
      && Prepend(now, DecodeFrom(ab, src, i + 1, h)) == Prepend(text, DecodeFrom(ab, src, i, g))
    ensures stopped && valid ==>
      end <= out.Length && Prepend(text, DecodeFrom(ab, src, i, g)) == Some(out[..end])
    ensures stopped && !valid ==> Prepend(text, DecodeFrom(ab, src, i, g)) == None
  {
    more, pads := Collect(ab, block, g, src[i], value, count, pad);
    h := g + [src[i]];
    if more == 4 {
      stopped, valid, end, now := FinishGroup(ab, out, pos, block, pads, h, text, src, i + 1);
      more, pads, h := 0, 0, [];
    } else {
      stopped, valid, end, now := false, true, pos, text;
    }
  }

  /** The decoding pass, into a buffer of three bytes for every four characters. */
  method DecodeInto(ghost ab: Alphabet, src: seq<Byte>, dtable: Byte -> Byte, out: array<Byte>)
    returns (valid: bool, outLen: nat)
    requires forall c :: dtable(c) == ab.Value(c)
    requires 4 * out.Length == 3 * KnownFrom(ab, src, 0)
    modifies out
    ensures valid ==> outLen <= out.Length && DecodeFrom(ab, src, 0, []) == Some(out[..outLen])
    ensures !valid ==> DecodeFrom(ab, src, 0, []) == None
  {
    ghost var whole := DecodeFrom(ab, src, 0, []);
    var block := new Byte[4](_ => 0);
    var pos: nat, count: nat, pad: nat, i: nat := 0, 0, 0, 0;
    ghost var text: seq<Byte>, g: seq<Byte> := [], [];
    PrependNothing(whole);
    while i < |src|
      invariant i <= |src| && pos == |text| <= out.Length && out[..pos] == text
      invariant |g| < 4 && ab.AllValid(g) && whole == Prepend(text, DecodeFrom(ab, src, i, g))
      invariant 4 * (out.Length - pos) == 3 * (count + KnownFrom(ab, src, i))
      invariant count == |g| && pad == Pads(g)
      invariant Holds(block, ab, g)
    {
      var tmp := dtable(src[i]);
      if tmp != UNKNOWN {
        var stopped;
        stopped, valid, pos, count, pad, text, g :=
          TakeKnown(ab, src, i, tmp, out, pos, block, count, pad, g, text);
        if stopped {
          return valid, pos;
        }
      }
      i := i + 1;
    }
    NothingAdded(text);
    return true, pos;
  }

  /** Decodes a text, skipping unknown characters. */
  method Decode(ab: Alphabet, src: seq<Byte>, memory: bool) returns (out: array?<Byte>, outLen: nat)
    requires ab.Valid()
    ensures out == null <==> ab.Decoded(src) == None || !memory
    ensures out != null ==>
      fresh(out) && outLen <= out.Length && ab.Decoded(src) == Some(out[..outLen])
  {
    var dtable := BuildTable(ab);
    var count := CountKnown(ab, src, dtable);
    KnownFromIsKnown(ab, src, 0);
    NothingAdded(src);
    if count == 0 || count % 4 != 0 {
      return null, 0;
    }
    if !memory {
      return null, 0;
    }
    ab.KnownIsKnown(src);
    DecodeFromIsGroups(ab, src, 0, []);
    NothingAdded(ab.Known(src));
    var buffer := new Byte[3 * (count / 4)];
    var valid, n := DecodeInto(ab, src, dtable, buffer);
    if !valid {
      return null, 0;
    }
    return buffer, n;
  }

  // ---------------------------------------------------------------- the alphabet of the program

  /** A to Z, a to z, 0 to 9, + and /. */
  function StandardSymbol(i: Byte): Byte {
    if i < 26 then 65 + i
    else if i < 52 then 97 + (i - 26)
    else if i < 62 then 48 + (i - 52)
    else if i == 62 then 43
    else 47
  }

  const STANDARD := Alphabet(StandardSymbol)

  lemma StandardIsValid()
    ensures STANDARD.Valid()
  {
    forall i: Byte, j: Byte ensures !STANDARD.Clash(i, j) {
    }
    forall i: Byte ensures !STANDARD.Reserved(i) {
    }
  }

  ghost predicate Spells(i: Byte, a: char, b: char, c: char, d: char) {
    STANDARD.symbol(i) as char == a && STANDARD.symbol(i + 1) as char == b &&
    STANDARD.symbol(i + 2) as char == c && STANDARD.symbol(i + 3) as char == d
  }

  lemma FirstSixteen()
    ensures Spells(0, 'A', 'B', 'C', 'D') && Spells(4, 'E', 'F', 'G', 'H')
    ensures Spells(8, 'I', 'J', 'K', 'L') && Spells(12, 'M', 'N', 'O', 'P')
  {
  }

  lemma SecondSixteen()
    ensures Spells(16, 'Q', 'R', 'S', 'T') && Spells(20, 'U', 'V', 'W', 'X')
    ensures Spells(24, 'Y', 'Z', 'a', 'b') && Spells(28, 'c', 'd', 'e', 'f')
  {
  }

  lemma ThirdSixteen()
    ensures Spells(32, 'g', 'h', 'i', 'j') && Spells(36, 'k', 'l', 'm', 'n')
    ensures Spells(40, 'o', 'p', 'q', 'r') && Spells(44, 's', 't', 'u', 'v')
  {
  }

  lemma LastSixteen()
    ensures Spells(48, 'w', 'x', 'y', 'z') && Spells(52, '0', '1', '2', '3')
    ensures Spells(56, '4', '5', '6', '7') && Spells(60, '8', '9', '+', '/')
  {
  }

  /** Table 1 of RFC 4648. */
  lemma StandardAlphabet()
    ensures Spells(0, 'A', 'B', 'C', 'D') && Spells(4, 'E', 'F', 'G', 'H')
    ensures Spells(8, 'I', 'J', 'K', 'L') && Spells(12, 'M', 'N', 'O', 'P')
    ensures Spells(16, 'Q', 'R', 'S', 'T') && Spells(20, 'U', 'V', 'W', 'X')
    ensures Spells(24, 'Y', 'Z', 'a', 'b') && Spells(28, 'c', 'd', 'e', 'f')
    ensures Spells(32, 'g', 'h', 'i', 'j') && Spells(36, 'k', 'l', 'm', 'n')
    ensures Spells(40, 'o', 'p', 'q', 'r') && Spells(44, 's', 't', 'u', 'v')
    ensures Spells(48, 'w', 'x', 'y', 'z') && Spells(52, '0', '1', '2', '3')
    ensures Spells(56, '4', '5', '6', '7') && Spells(60, '8', '9', '+', '/')
  {
    FirstSixteen();
    SecondSixteen();
    ThirdSixteen();
    LastSixteen();
  }

  /** The first vectors of section 10 of RFC 4648, with the program's line feed. */
  lemma StandardVectors()
    ensures STANDARD.Encoded([]) == []
    ensures STANDARD.Encoded([102]) == [90, 103, 61, 61, 10]
    ensures STANDARD.Encoded([102, 111]) == [90, 109, 56, 61, 10]
    ensures STANDARD.Encoded([102, 111, 111]) == [90, 109, 57, 118, 10]
  {
    assert STANDARD.Characters([102, 111, 111]) == STANDARD.Quad(102, 111, 111) + STANDARD.Characters([]);
  }
}
