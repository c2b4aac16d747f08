/**
 The theory of the hash map's bucket array: what a well-formed cyclic table is, which finite map
 it stands for, and that each single write of the map's loops keeps it well formed.
 */
module RobinHood {
  import opened Basics
  import opened Bits

  /** The part of an item that `compare` looks at: two items compare as equal exactly when their
      keys are the same. Items are finite byte strings, so the classes of any equivalence on them
      can be numbered; a map without a comparator uses one number only. */
  type Key = nat

  /** The bytes of an item. */
  type Payload = seq<Byte>

  datatype Item = Item(key: Key, payload: Payload)

  /** A bucket is free when its `dib`, the distance from its home bucket plus one, is zero. */
  datatype Bucket = Bucket(hash: nat, dib: nat, item: Item)

  /** Stored items are told apart by their clipped hash and their key. */
  datatype Id = Id(hash: nat, key: Key)

  function IdOf(b: Bucket): Id {
    Id(b.hash, b.item.key)
  }

  type Table = seq<Bucket>

  // ---------------------------------------------------------------- cyclic positions

  function Next(i: nat, n: nat): (j: nat)
    requires i < n
    ensures j < n
  {
    if i + 1 == n then 0 else i + 1
  }

  function Prev(i: nat, n: nat): (j: nat)
    requires i < n
    ensures j < n && Next(j, n) == i
  {
    if i == 0 then n - 1 else i - 1
  }

  /** How many steps of Next lead from one position to another. */
  function Dist(from: nat, to: nat, n: nat): (d: nat)
    requires from < n && to < n
    ensures d < n
  {
    if from <= to then to - from else to + n - from
  }

  function Home(hash: nat, n: nat): (h: nat)
    requires n > 0
    ensures h < n
  {
    And(hash, n - 1)
  }

  lemma WrapIsNext(i: nat, n: nat)
    requires IsPow2(n) && i < n
    ensures And(i + 1, n - 1) == Next(i, n)
  {
    MaskIsRemainder(i + 1, n);
    RemainderUnique(i + 1, n, if i + 1 == n then 1 else 0, Next(i, n));
  }

  // ---------------------------------------------------------------- well-formed tables

  ghost predicate Full(s: Table, i: int) {
    0 <= i < |s| && s[i].dib > 0
  }

  ghost predicate Holds(s: Table, i: int, id: Id) {
    Full(s, i) && IdOf(s[i]) == id
  }

  // Each universal property below is stated through a named instance, so that it is used only
  // where a proof mentions that instance.

  ghost predicate HomedAt(s: Table, i: int) {
    Full(s, i) ==> s[i].dib == Dist(Home(s[i].hash, |s|), i, |s|) + 1
  }

  ghost predicate SteppedAt(s: Table, i: int) {
    0 <= i < |s| ==> s[Next(i, |s|)].dib <= s[i].dib + 1
  }

  ghost predicate Clash(s: Table, i: int, j: int) {
    Full(s, i) && Full(s, j) && i != j && IdOf(s[i]) == IdOf(s[j])
  }

  ghost predicate ItemIn(s: Table, m: map<Id, Item>, i: int) {
    Full(s, i) ==> IdOf(s[i]) in m && m[IdOf(s[i])] == s[i].item
  }

  ghost predicate Placed(s: Table, m: map<Id, Item>, id: Id) {
    id in m ==> exists i :: Holds(s, i, id)
  }

  /** Every stored `dib` is the cyclic distance from the home bucket plus one. */
  ghost predicate Homed(s: Table) {
    forall i :: HomedAt(s, i)
  }

  /** From one bucket to the next `dib` grows by at most one. */
  ghost predicate Stepped(s: Table) {
    forall i :: SteppedAt(s, i)
  }

  /** No two buckets hold items with the same identity. */
  ghost predicate Distinct(s: Table) {
    forall i, j :: !Clash(s, i, j)
  }

  /** The table stores exactly the items of m. */
  ghost predicate Stores(s: Table, m: map<Id, Item>) {
    (forall i :: ItemIn(s, m, i)) && (forall id :: Placed(s, m, id))
  }

  /** The number of occupied buckets. */
  ghost function Occupied(s: Table): (c: nat)
    ensures c <= |s|
  {
    if s == [] then 0
    else Occupied(s[..|s| - 1]) + (if s[|s| - 1].dib > 0 then 1 else 0)
  }

  /** A well-formed Robin Hood table that stands for the finite map m. */
  ghost predicate Good(s: Table, m: map<Id, Item>) {
    Homed(s) && Stepped(s) && Distinct(s) && Stores(s, m) && Occupied(s) == |m|
  }

  /** An entry that is carried by a probe and has arrived at bucket i. */
  ghost predicate Carried(s: Table, e: Bucket, i: nat) {
    && i < |s|
    && e.dib == Dist(Home(e.hash, |s|), i, |s|) + 1
    && e.dib <= s[Prev(i, |s|)].dib + 1
  }

  // ---------------------------------------------------------------- counting buckets

  lemma {:induction false} OccupiedUpdate(s: Table, i: nat, b: Bucket)
    requires i < |s|
    ensures Occupied(s[i := b]) ==
            Occupied(s) - (if s[i].dib > 0 then 1 else 0) + (if b.dib > 0 then 1 else 0)
  {
    var k := |s| - 1;
    if i == k {
      assert s[i := b][..k] == s[..k];
    } else {
      assert s[i := b][..k] == s[..k][i := b];
      OccupiedUpdate(s[..k], i, b);
    }
  }

  lemma {:induction false} FreeBucket(s: Table) returns (e: nat)
    requires Occupied(s) < |s|
    ensures e < |s| && s[e].dib == 0
  {
    var k := |s| - 1;
    if s[k].dib == 0 {
      e := k;
    } else {
      e := FreeBucket(s[..k]);
    }
  }

  /** A table with two buckets to spare has two different free buckets. */
  lemma TwoFreeBuckets(s: Table) returns (e0: nat, e1: nat)
    requires Occupied(s) + 1 < |s|
    ensures e0 < |s| && e1 < |s| && e0 != e1 && s[e0].dib == 0 && s[e1].dib == 0
  {
    e0 := FreeBucket(s);
    var b := s[e0].(dib := 1);
    OccupiedUpdate(s, e0, b);
    e1 := FreeBucket(s[e0 := b]);
  }

  lemma {:induction false} NothingOccupied(s: Table)
    requires forall i :: 0 <= i < |s| ==> s[i].dib == 0
    ensures Occupied(s) == 0
  {
    if s != [] {
      NothingOccupied(s[..|s| - 1]);
    }
  }

  lemma EmptyTable(s: Table)
    requires forall i :: 0 <= i < |s| ==> s[i].dib == 0
    ensures Good(s, map[])
  {
    NothingOccupied(s);
  }

  // ---------------------------------------------------------------- probing

  /** Going back d buckets from i lowers `dib` by at most d, so the path from an item's home to
      the item is fully occupied. */
  lemma {:induction false} BackFrom(s: Table, p: nat, i: nat)
    requires Stepped(s) && p < |s| && i < |s|
    ensures s[i].dib <= s[p].dib + Dist(p, i, |s|)
    decreases Dist(p, i, |s|)
  {
    if p != i {
      assert SteppedAt(s, p);
      BackFrom(s, Next(p, |s|), i);
    }
  }

  /** With a free bucket in the table, no stored `dib` reaches the number of buckets. */
  lemma DibBound(s: Table, free: nat, i: nat)
    requires Stepped(s) && free < |s| && s[free].dib == 0 && i < |s|
    ensures s[i].dib < |s|
  {
    BackFrom(s, free, i);
  }

  /** The d buckets up to bucket i are d occupied ones. */
  lemma {:induction false} RunIsCounted(s: Table, i: nat, d: nat)
    requires i < |s| && d <= |s|
    requires forall p :: 0 <= p < |s| && Dist(p, i, |s|) < d ==> s[p].dib > 0
    ensures Occupied(s) >= d
    decreases d
  {
    if d > 0 {
      var t := s[i := s[i].(dib := 0)];
      OccupiedUpdate(s, i, s[i].(dib := 0));
      assert Dist(i, i, |s|) < d;
      forall p | 0 <= p < |t| && Dist(p, Prev(i, |t|), |t|) < d - 1 ensures t[p].dib > 0 {
        assert Dist(p, i, |s|) < d;
      }
      RunIsCounted(t, Prev(i, |s|), d - 1);
    }
  }

  /** No stored `dib` is greater than the number of items: the path from home is occupied. */
  lemma DibWithinItems(s: Table, m: map<Id, Item>, i: nat)
    requires Good(s, m) && |m| < |s| && i < |s|
    ensures s[i].dib <= |m|
  {
    var free := FreeBucket(s);
    DibBound(s, free, i);
    forall p | 0 <= p < |s| && Dist(p, i, |s|) < s[i].dib ensures s[p].dib > 0 {
      BackFrom(s, p, i);
    }
    RunIsCounted(s, i, s[i].dib);
  }

  /** Nor is that of a carried entry, which is one item more. */
  lemma CarriedWithinItems(s: Table, m: map<Id, Item>, e: Bucket, i: nat)
    requires Good(s, m) && |m| < |s| && Carried(s, e, i)
    ensures e.dib <= |m| + 1
  {
    DibWithinItems(s, m, Prev(i, |s|));
  }

  /** A carried entry's `dib` stays below the number of buckets too, wherever it is put down, as
      long as some other bucket is free. */
  lemma CarriedBound(s: Table, e: Bucket, i: nat, free: nat)
    requires Stepped(s) && Carried(s, e, i) && free < |s| && s[free].dib == 0 && free != i
    ensures e.dib <= Dist(free, i, |s|) < |s|
  {
    BackFrom(s, free, Prev(i, |s|));
  }

  /** Two different free buckets of s. */
  ghost predicate Free2(s: Table, f0: nat, f1: nat) {
    f0 < |s| && f1 < |s| && f0 != f1 && s[f0].dib == 0 && s[f1].dib == 0
  }

  /** A probe that finds bucket i at least as far from home as itself moves on, and gets closer
      to a free bucket. */
  lemma MoveOn(s: Table, e: Bucket, i: nat, f0: nat, f1: nat)
    requires Stepped(s) && Carried(s, e, i) && Free2(s, f0, f1)
    requires 0 < s[i].dib && e.dib <= s[i].dib
    ensures e.dib + 1 < |s|
    ensures Carried(s, e.(dib := e.dib + 1), Next(i, |s|))
    ensures Dist(Next(i, |s|), f0, |s|) < Dist(i, f0, |s|)
  {
    CarriedBound(s, e, i, f0);
    CarriedBound(s, e.(dib := e.dib + 1), Next(i, |s|), if f0 == Next(i, |s|) then f1 else f0);
  }

  // ---------------------------------------------------------------- looking for an item

  /** Every copy of id lies at or beyond the point a probe for it has reached after d steps. */
  ghost predicate Ahead(s: Table, id: Id, d: nat) {
    forall p :: Holds(s, p, id) ==> s[p].dib >= d
  }

  /** A bucket that does not hold id is passed without missing it. */
  lemma PassBy(s: Table, id: Id, d: nat, i: nat)
    requires Homed(s) && i < |s| && Ahead(s, id, d) && !Holds(s, i, id)
    requires d == Dist(Home(id.hash, |s|), i, |s|) + 1
    ensures Ahead(s, id, d + 1)
  {
    forall p | Holds(s, p, id) ensures s[p].dib >= d + 1 {
      assert HomedAt(s, p);
    }
  }

  /** A probe for id that reaches a bucket closer to its home than the probe is to id's own, a
      free one for instance, has shown that id is not stored. */
  lemma NotStored(s: Table, m: map<Id, Item>, id: Id, d: nat, i: nat)
    requires Good(s, m) && i < |s| && Ahead(s, id, d) && !Holds(s, i, id)
    requires d == Dist(Home(id.hash, |s|), i, |s|) + 1
    requires s[i].dib < d
    ensures id !in m
  {
    if id in m {
      assert Placed(s, m, id);
      var p :| Holds(s, p, id);
      assert HomedAt(s, p);
      BackFrom(s, i, p);
    }
  }

  /** A lookup that only stops at a free bucket and compares every bucket on its way. */
  lemma NotFound(s: Table, m: map<Id, Item>, id: Id, d: nat, i: nat)
    requires Good(s, m) && i < |s| && Ahead(s, id, d) && s[i].dib == 0
    requires d == Dist(Home(id.hash, |s|), i, |s|) + 1
    ensures id !in m
  {
    NotStored(s, m, id, d, i);
  }

  lemma Found(s: Table, m: map<Id, Item>, i: nat)
    requires Good(s, m) && i < |s| && s[i].dib > 0
    ensures IdOf(s[i]) in m && m[IdOf(s[i])] == s[i].item
  {
    assert ItemIn(s, m, i);
  }

  // ---------------------------------------------------------------- single writes

  /** The item of an occupied bucket is replaced by one with the same identity. */
  lemma Replace(s: Table, m: map<Id, Item>, i: nat, item: Item)
    requires Good(s, m) && i < |s| && s[i].dib > 0 && item.key == s[i].item.key
    ensures Good(s[i := s[i].(item := item)], m[IdOf(s[i]) := item])
  {
    var id, t := IdOf(s[i]), s[i := s[i].(item := item)];
    var m' := m[id := item];
    OccupiedUpdate(s, i, s[i].(item := item));
    Found(s, m, i);
    SameShape(s, t);
    forall id' ensures Placed(t, m', id') {
      if id' in m' {
        assert Placed(s, m, id');
        var p :| Holds(s, p, id');
        assert Holds(t, p, id');
      }
    }
    forall p ensures ItemIn(t, m', p) {
      assert ItemIn(s, m, p) && !Clash(s, i, p);
    }
  }

  /** Replacing items by items with the same identity keeps the shape of a table. */
  lemma SameShape(s: Table, t: Table)
    requires |s| == |t| && forall i :: 0 <= i < |s| ==> s[i].dib == t[i].dib && IdOf(s[i]) == IdOf(t[i])
    requires Homed(s) && Stepped(s) && Distinct(s)
    ensures Homed(t) && Stepped(t) && Distinct(t)
  {
    forall i ensures HomedAt(t, i) {
      assert HomedAt(s, i);
      assert Full(t, i) ==> IdOf(t[i]).hash == IdOf(s[i]).hash;
    }
    forall i ensures SteppedAt(t, i) {
      assert SteppedAt(s, i);
    }
    forall i, j ensures !Clash(t, i, j) {
      assert !Clash(s, i, j);
    }
  }

  /** Writing a carried entry into bucket i, free or closer to its home, keeps the shape. */
  lemma WriteKeepsShape(s: Table, m: map<Id, Item>, e: Bucket, i: nat)
    requires Good(s, m) && Carried(s, e, i) && IdOf(e) !in m
    requires s[i].dib < e.dib
    ensures var t := s[i := e]; Homed(t) && Stepped(t) && Distinct(t)
  {
    var t := s[i := e];
    forall k ensures HomedAt(t, k) {
      assert HomedAt(s, k);
    }
    forall k ensures SteppedAt(t, k) {
      assert SteppedAt(s, k);
    }
    forall j, k ensures !Clash(t, j, k) {
      assert !Clash(s, j, k) && ItemIn(s, m, j) && ItemIn(s, m, k);
    }
  }

  /** What a table stores after bucket i, free or not, is overwritten by an entry new to it. */
  lemma WriteStores(s: Table, m: map<Id, Item>, e: Bucket, i: nat, m': map<Id, Item>)
    requires Stores(s, m) && Distinct(s) && i < |s| && e.dib > 0 && IdOf(e) !in m
    requires m' == (if s[i].dib > 0 then m - {IdOf(s[i])} else m)[IdOf(e) := e.item]
    ensures Stores(s[i := e], m')
  {
    var t := s[i := e];
    forall k ensures ItemIn(t, m', k) {
      assert ItemIn(s, m, k) && !Clash(s, i, k);
    }
    forall id ensures Placed(t, m', id) {
      if id == IdOf(e) {
        assert Holds(t, i, id);
      } else if id in m' {
        assert Placed(s, m, id);
        var k :| Holds(s, k, id);
        assert Holds(t, k, id);
      }
    }
  }

  /** A carried entry is put down in a free bucket. */
  lemma PutDown(s: Table, m: map<Id, Item>, e: Bucket, i: nat)
    requires Good(s, m) && Carried(s, e, i) && IdOf(e) !in m && s[i].dib == 0
    ensures Good(s[i := e], m[IdOf(e) := e.item])
  {
    WriteKeepsShape(s, m, e, i);
    OccupiedUpdate(s, i, e);
    WriteStores(s, m, e, i, m[IdOf(e) := e.item]);
  }

  /** The map a table stands for after a carried entry has taken the place of another one. */
  ghost function Swapped(m: map<Id, Item>, out: Id, e: Bucket): map<Id, Item> {
    (m - {out})[IdOf(e) := e.item]
  }

  lemma SwappedMap(m: map<Id, Item>, x: Bucket, e: Bucket)
    requires IdOf(e) !in m && IdOf(x) in m && m[IdOf(x)] == x.item
    ensures var m' := Swapped(m, IdOf(x), e);
            |m'| == |m| && IdOf(x) !in m' && m'[IdOf(x) := x.item] == m[IdOf(e) := e.item]
  {
    assert (m - {IdOf(x)}).Keys == m.Keys - {IdOf(x)};
    assert |m - {IdOf(x)}| == |m| - 1;
  }

  /** A carried entry takes bucket i from an item closer to its home, which is carried on. */
  lemma Swap(s: Table, m: map<Id, Item>, e: Bucket, i: nat)
    requires Good(s, m) && Carried(s, e, i) && IdOf(e) !in m && 0 < s[i].dib < e.dib
    ensures var t, m' := s[i := e], Swapped(m, IdOf(s[i]), e);
            && Good(t, m') && Carried(t, s[i], i) && IdOf(s[i]) !in m'
            && m'[IdOf(s[i]) := s[i].item] == m[IdOf(e) := e.item]
  {
    Found(s, m, i);
    assert HomedAt(s, i);
    WriteKeepsShape(s, m, e, i);
    OccupiedUpdate(s, i, e);
    SwappedMap(m, s[i], e);
    WriteStores(s, m, e, i, Swapped(m, IdOf(s[i]), e));
  }

  // ---------------------------------------------------------------- carrying an entry

  /** The state of an insertion: the table stands for m, the entry e, new to it, has arrived at
      bucket i, and putting e down somewhere will complete the map `all`. */
  ghost predicate Carrying(s: Table, m: map<Id, Item>, e: Bucket, i: nat, f0: nat, f1: nat,
                           all: map<Id, Item>)
  {
    && Good(s, m) && Carried(s, e, i) && Free2(s, f0, f1) && e.dib < |s|
    && IdOf(e) !in m && m[IdOf(e) := e.item] == all
  }

  lemma CarryStart(s: Table, m: map<Id, Item>, e: Bucket, f0: nat, f1: nat)
    requires Good(s, m) && Free2(s, f0, f1) && IdOf(e) !in m && e.dib == 1
    ensures Carrying(s, m, e, Home(e.hash, |s|), f0, f1, m[IdOf(e) := e.item])
  {
  }

  lemma CarryPutDown(s: Table, m: map<Id, Item>, e: Bucket, i: nat, f0: nat, f1: nat,
                     all: map<Id, Item>)
    requires Carrying(s, m, e, i, f0, f1, all) && s[i].dib == 0
    ensures Good(s[i := e], all)
  {
    PutDown(s, m, e, i);
  }

  /** One round at an occupied bucket: the entry further from its home stays or settles there, the
      other one is carried on to the next bucket, where it still fits the table. */
  lemma CarryStep(s: Table, m: map<Id, Item>, e: Bucket, i: nat, f0: nat, f1: nat,
                  all: map<Id, Item>)
    returns (s': Table, m': map<Id, Item>, e': Bucket, i': nat)
    requires Carrying(s, m, e, i, f0, f1, all) && 0 < s[i].dib
    ensures s' == if s[i].dib < e.dib then s[i := e] else s
    ensures var x := if s[i].dib < e.dib then s[i] else e; e' == x.(dib := x.dib + 1)
    ensures i' == Next(i, |s|) < |s| && e'.dib < |s|
    ensures Carrying(s', m', e', i', f0, f1, all)
    ensures Dist(i', f0, |s|) < Dist(i, f0, |s|)
  {
    s', m', e' := s, m, e;
    if s[i].dib < e.dib {
      Swap(s, m, e, i);
      DibBound(s, f0, i);
      s', m', e' := s[i := e], Swapped(m, IdOf(s[i]), e), s[i];
    }
    MoveOn(s', e', i, f0, f1);
    e', i' := e'.(dib := e'.dib + 1), Next(i, |s|);
  }

  // ---------------------------------------------------------------- setting an item

  /** The state of a set of entry e0 in a table that stood for m0: either e0 is still looking for
      its place and has missed no copy of itself, or it has settled, was new, and a displaced
      entry is carried. */
  ghost predicate Setting(s: Table, m: map<Id, Item>, e: Bucket, i: nat, f0: nat, f1: nat,
                          e0: Bucket, m0: map<Id, Item>)
  {
    || (&& m == m0 && e == e0.(dib := e.dib) && Ahead(s, IdOf(e0), e.dib)
        && Good(s, m) && Carried(s, e, i) && Free2(s, f0, f1) && e.dib < |s|)
    || (IdOf(e0) !in m0 && Carrying(s, m, e, i, f0, f1, m0[IdOf(e0) := e0.item]))
  }

  lemma SetStart(s: Table, m: map<Id, Item>, e: Bucket, f0: nat, f1: nat)
    requires Good(s, m) && Free2(s, f0, f1) && e.dib == 1
    ensures Setting(s, m, e, Home(e.hash, |s|), f0, f1, e, m)
  {
  }

  /** At a free bucket the entry was new and is put down. */
  lemma SetFree(s: Table, m: map<Id, Item>, e: Bucket, i: nat, f0: nat, f1: nat,
                e0: Bucket, m0: map<Id, Item>)
    requires Setting(s, m, e, i, f0, f1, e0, m0) && s[i].dib == 0
    ensures IdOf(e0) !in m0 && Good(s[i := e], m0[IdOf(e0) := e0.item])
  {
    if IdOf(e) !in m {
      PutDown(s, m, e, i);
    } else {
      NotFound(s, m, IdOf(e), e.dib, i);
    }
  }

  /** A carried entry never meets its equal: the equality test succeeds only for the entry that is
      being set, on the one stored copy, and the copy's item is replaced. */
  lemma SetEqual(s: Table, m: map<Id, Item>, e: Bucket, i: nat, f0: nat, f1: nat,
                 e0: Bucket, m0: map<Id, Item>)
    requires Setting(s, m, e, i, f0, f1, e0, m0) && s[i].dib > 0 && IdOf(s[i]) == IdOf(e)
    ensures IdOf(e0) in m0 && m0[IdOf(e0)] == s[i].item && e.item == e0.item
    ensures Good(s[i := s[i].(item := e.item)], m0[IdOf(e0) := e0.item])
  {
    Found(s, m, i);
    Replace(s, m, i, e.item);
  }

  /** One round of a set at an occupied bucket with another item. */
  lemma SetStep(s: Table, m: map<Id, Item>, e: Bucket, i: nat, f0: nat, f1: nat,
                e0: Bucket, m0: map<Id, Item>)
    returns (s': Table, m': map<Id, Item>, e': Bucket, i': nat)
    requires Setting(s, m, e, i, f0, f1, e0, m0) && 0 < s[i].dib && IdOf(s[i]) != IdOf(e)
    ensures s' == if s[i].dib < e.dib then s[i := e] else s
    ensures var x := if s[i].dib < e.dib then s[i] else e; e' == x.(dib := x.dib + 1)
    ensures i' == Next(i, |s|) < |s| && e'.dib < |s|
    ensures Setting(s', m', e', i', f0, f1, e0, m0)
    ensures Dist(i', f0, |s|) < Dist(i, f0, |s|)
  {
    if IdOf(e) !in m {
      s', m', e', i' := CarryStep(s, m, e, i, f0, f1, m0[IdOf(e0) := e0.item]);
    } else {
      if s[i].dib < e.dib {
        NotStored(s, m, IdOf(e), e.dib, i);
      }
      MoveOn(s, e, i, f0, f1);
      PassBy(s, IdOf(e), e.dib, i);
      s', m', e', i' := s, m, e.(dib := e.dib + 1), Next(i, |s|);
    }
  }

  // ---------------------------------------------------------------- the backward shift

  /** The table seen during a backward shift: bucket h counts as free, whatever stale entry it
      still contains. */
  ghost function Hollow(s: Table, h: nat): Table
    requires h < |s|
  {
    s[h := s[h].(dib := 0)]
  }

  ghost predicate SteppedBut(s: Table, h: nat) {
    forall i :: i != h ==> SteppedAt(s, i)
  }

  /** A table that stands for m and is well formed but for its hole h, where a bucket at distance
      d used to be. */
  ghost predicate Shifting(s: Table, m: map<Id, Item>, h: nat, d: nat) {
    && h < |s|
    && var v := Hollow(s, h);
    && Homed(v) && Distinct(v) && Stores(v, m) && Occupied(v) == |m|
    && SteppedBut(v, h)
    && s[Next(h, |s|)].dib <= d + 1
    && d <= s[Prev(h, |s|)].dib + 1
  }

  /** Removing the item of bucket i opens a hole there. */
  lemma OpenHole(s: Table, m: map<Id, Item>, i: nat)
    requires Good(s, m) && i < |s| && |s| > 1 && s[i].dib > 0
    ensures Shifting(s[i := s[i].(dib := 0)], m - {IdOf(s[i])}, i, s[i].dib)
  {
    var t, m' := s[i := s[i].(dib := 0)], m - {IdOf(s[i])};
    assert Hollow(t, i) == t;
    OccupiedUpdate(s, i, s[i].(dib := 0));
    Found(s, m, i);
    assert |m'| == |m| - 1 by {
      assert m'.Keys == m.Keys - {IdOf(s[i])};
    }
    HoleStores(s, m, i);
    HoleShape(s, i);
  }

  lemma HoleShape(s: Table, i: nat)
    requires Homed(s) && Stepped(s) && Distinct(s) && i < |s| && |s| > 1
    ensures var t := s[i := s[i].(dib := 0)]; Homed(t) && Distinct(t) && SteppedBut(t, i)
    ensures s[Next(i, |s|)].dib <= s[i].dib + 1 && s[i].dib <= s[Prev(i, |s|)].dib + 1
  {
    var t := s[i := s[i].(dib := 0)];
    forall k ensures HomedAt(t, k) {
      assert HomedAt(s, k);
    }
    forall k | k != i ensures SteppedAt(t, k) {
      assert SteppedAt(s, k);
    }
    forall j, k ensures !Clash(t, j, k) {
      assert !Clash(s, j, k);
    }
    assert SteppedAt(s, i) && SteppedAt(s, Prev(i, |s|));
  }

  lemma HoleStores(s: Table, m: map<Id, Item>, i: nat)
    requires Stores(s, m) && Distinct(s) && Full(s, i)
    ensures Stores(s[i := s[i].(dib := 0)], m - {IdOf(s[i])})
  {
    var t, m' := s[i := s[i].(dib := 0)], m - {IdOf(s[i])};
    forall k ensures ItemIn(t, m', k) {
      assert ItemIn(s, m, k) && !Clash(s, i, k);
    }
    forall id ensures Placed(t, m', id) {
      if id in m' {
        assert Placed(s, m, id);
        var k :| Holds(s, k, id);
        assert Holds(t, k, id);
      }
    }
  }

  /** The next bucket's item, not in its home bucket, moves back into the hole. */
  lemma MoveBack(s: Table, m: map<Id, Item>, h: nat, d: nat) returns (t: Table, i: nat)
    requires Shifting(s, m, h, d) && |s| > 1 && s[Next(h, |s|)].dib > 1
    ensures i == Next(h, |s|) && t == s[h := s[i].(dib := s[i].dib - 1)]
    ensures Shifting(t, m, i, s[i].dib)
  {
    i := Next(h, |s|);
    t := s[h := s[i].(dib := s[i].dib - 1)];
    var v, v' := Hollow(s, h), Hollow(t, i);
    assert Full(v, i);
    assert SteppedAt(v, i);
    MoveBackHomed(v, v', h, i);
    MoveBackStepped(v, v', h, i, d);
    MoveBackCount(v, v', h, i);
    MoveBackStores(v, v', m, h, i);
  }

  lemma MoveBackCount(v: Table, v': Table, h: nat, i: nat)
    requires |v| == |v'| && h < |v| && i < |v| && h != i
    requires !Full(v, h) && Full(v, i) && Full(v', h) && !Full(v', i)
    requires forall k :: 0 <= k < |v| && k != h && k != i ==> v'[k] == v[k]
    ensures Occupied(v') == Occupied(v)
  {
    OccupiedUpdate(v, h, v'[h]);
    OccupiedUpdate(v[h := v'[h]], i, v'[i]);
    assert v' == v[h := v'[h]][i := v'[i]];
  }

  /** v' is v with bucket i, one step closer to its home, moved into the hole h before it. */
  ghost predicate MovedBack(v: Table, v': Table, h: nat, i: nat) {
    && |v| == |v'| > 1 && h < |v| && i == Next(h, |v|)
    && !Full(v, h) && v[i].dib > 1 && v'[h] == v[i].(dib := v[i].dib - 1) && !Full(v', i)
    && (forall k :: 0 <= k < |v| && k != h && k != i ==> v'[k] == v[k])
  }

  lemma MoveBackHomed(v: Table, v': Table, h: nat, i: nat)
    requires MovedBack(v, v', h, i) && Homed(v) && Distinct(v)
    ensures Homed(v') && Distinct(v')
  {
    forall k ensures HomedAt(v', k) {
      assert HomedAt(v, if k == h then i else k);
    }
    forall j, k ensures !Clash(v', j, k) {
      assert !Clash(v, if j == h then i else j, if k == h then i else k);
    }
  }

  lemma MoveBackStepped(v: Table, v': Table, h: nat, i: nat, d: nat)
    requires MovedBack(v, v', h, i) && SteppedBut(v, h)
    requires v[i].dib <= d + 1 && d <= v[Prev(h, |v|)].dib + 1
    ensures SteppedBut(v', i)
  {
    forall j | j != i ensures SteppedAt(v', j) {
      if j != h {
        assert SteppedAt(v, j);
      }
    }
  }

  lemma MoveBackStores(v: Table, v': Table, m: map<Id, Item>, h: nat, i: nat)
    requires Stores(v, m) && |v| == |v'| && h < |v| && i < |v| && h != i
    requires Full(v, i) && !Full(v, h) && Full(v', h) && !Full(v', i)
    requires IdOf(v'[h]) == IdOf(v[i]) && v'[h].item == v[i].item
    requires forall k :: 0 <= k < |v| && k != h && k != i ==> v'[k] == v[k]
    ensures Stores(v', m)
  {
    forall k ensures ItemIn(v', m, k) {
      assert ItemIn(v, m, if k == h then i else k);
    }
    forall id ensures Placed(v', m, id) {
      if id in m {
        assert Placed(v, m, id);
        var k :| Holds(v, k, id);
        assert Holds(v', if k == i then h else k, id);
      }
    }
  }

  /** The shift stops before a bucket that is free or at home: the hole becomes free. */
  lemma CloseHole(s: Table, m: map<Id, Item>, h: nat, d: nat)
    requires Shifting(s, m, h, d) && |s| > 1 && s[Next(h, |s|)].dib <= 1
    ensures Good(s[h := s[h].(dib := 0)], m)
  {
    var v := Hollow(s, h);
    forall j ensures SteppedAt(v, j) {
    }
  }

  // ---------------------------------------------------------------- reading a whole table

  /** The finite map read off the first k buckets, one after the other. */
  ghost function Collect(s: Table, k: nat): map<Id, Item>
    requires k <= |s|
  {
    if k == 0 then map[]
    else if s[k - 1].dib == 0 then Collect(s, k - 1)
    else Collect(s, k - 1)[IdOf(s[k - 1]) := s[k - 1].item]
  }

  /** What the first k buckets of a well-formed table give, and that nothing else is among it. */
  lemma {:induction false} Collected(s: Table, m: map<Id, Item>, k: nat)
    requires Stores(s, m) && Distinct(s) && k <= |s|
    ensures forall i :: Full(s, i) ==> (IdOf(s[i]) in Collect(s, k) <==> i < k)
    ensures forall id :: id in Collect(s, k) ==> id in m && Collect(s, k)[id] == m[id]
  {
    if k > 0 {
      Collected(s, m, k - 1);
      assert ItemIn(s, m, k - 1);
      forall i | Full(s, i) ensures IdOf(s[i]) in Collect(s, k) <==> i < k {
        assert !Clash(s, i, k - 1);
      }
    }
  }

  /** Reading on by one bucket adds its item, which is new, and there is room for it. */
  lemma CollectMore(s: Table, m: map<Id, Item>, k: nat)
    requires Good(s, m) && k < |s|
    ensures s[k].dib == 0 ==> Collect(s, k + 1) == Collect(s, k)
    ensures s[k].dib > 0 ==>
      && IdOf(s[k]) !in Collect(s, k) && |Collect(s, k)| < |m|
      && Collect(s, k + 1) == Collect(s, k)[IdOf(s[k]) := s[k].item]
  {
    Collected(s, m, k);
    if s[k].dib > 0 {
      assert Full(s, k);
      Found(s, m, k);
      var c := Collect(s, k);
      SubsetSize(c.Keys, m.Keys - {IdOf(s[k])});
    }
  }

  lemma {:induction false} SubsetSize(a: set<Id>, b: set<Id>)
    requires a <= b
    ensures |a| <= |b|
  {
    if a != {} {
      var x :| x in a;
      SubsetSize(a - {x}, b - {x});
    }
  }

  /** The map a well-formed table stands for is a function of its buckets. */
  lemma CollectsAll(s: Table, m: map<Id, Item>)
    requires Good(s, m)
    ensures Collect(s, |s|) == m
  {
    Collected(s, m, |s|);
    forall id | id in m ensures id in Collect(s, |s|) {
      assert Placed(s, m, id);
      var i :| Holds(s, i, id);
    }
  }

  /** The occupied buckets from bucket k on, in order. */
  ghost function Scan(s: Table, k: nat): seq<Bucket>
    requires k <= |s|
    decreases |s| - k
  {
    if k == |s| then []
    else if s[k].dib == 0 then Scan(s, k + 1)
    else [s[k]] + Scan(s, k + 1)
  }

  lemma {:induction false} ScanFrom(s: Table, k: nat)
    requires Distinct(s) && k <= |s|
    ensures forall b :: b in Scan(s, k) ==> exists i :: k <= i && Full(s, i) && s[i] == b
    ensures forall i :: k <= i && Full(s, i) ==> s[i] in Scan(s, k)
    ensures forall j, l :: 0 <= j < l < |Scan(s, k)| ==> IdOf(Scan(s, k)[j]) != IdOf(Scan(s, k)[l])
    ensures |Scan(s, k)| + Occupied(s[..k]) == Occupied(s)
    decreases |s| - k
  {
    if k == |s| {
      assert s[..k] == s;
    } else {
      ScanFrom(s, k + 1);
      assert s[..k + 1][..k] == s[..k];
      if s[k].dib > 0 {
        forall b | b in Scan(s, k + 1) ensures IdOf(b) != IdOf(s[k]) {
          var i :| k + 1 <= i && Full(s, i) && s[i] == b;
          assert !Clash(s, k, i) && Full(s, k);
        }
      }
    }
  }

  /** A full scan of a table that stands for m comes across every item of m exactly once. */
  lemma ScansEachOnce(s: Table, m: map<Id, Item>)
    requires Good(s, m)
    ensures |Scan(s, 0)| == |m|
    ensures forall j, l :: 0 <= j < l < |Scan(s, 0)| ==> IdOf(Scan(s, 0)[j]) != IdOf(Scan(s, 0)[l])
    ensures forall id :: id in m <==> exists b :: b in Scan(s, 0) && IdOf(b) == id
    ensures forall b :: b in Scan(s, 0) ==> IdOf(b) in m && m[IdOf(b)] == b.item
  {
    ScanFrom(s, 0);
    assert s[..0] == [];
    forall b | b in Scan(s, 0) ensures IdOf(b) in m && m[IdOf(b)] == b.item {
      var i :| Full(s, i) && s[i] == b;
      assert ItemIn(s, m, i);
    }
    forall id | id in m ensures exists b :: b in Scan(s, 0) && IdOf(b) == id {
      assert Placed(s, m, id);
      var i :| Holds(s, i, id);
    }
  }
}
