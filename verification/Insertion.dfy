/**
 The insertion loops of the hash map as one function of the table, with the 16-bit `dib` field: when
 they do what they are for, and that the number of items decides it.
 */
module Insertion {
  import opened Basics
  import opened Bits
  import opened RobinHood

  /** With more items than this the 16 bits of `dib` can be too few. */
  const MAX_ITEMS := 0xFFFF

  /** What the 16-bit field keeps of a number. */
  function DibField(d: nat): (f: nat)
    ensures f <= d && (d <= MAX_ITEMS ==> f == d)
  {
    d % 0x1_0000
  }

  /** What a finite map says of an identity. */
  function Lookup(m: map<Id, Item>, id: Id): Option<Item> {
    if id in m then Some(m[id]) else None
  }

  /** The table after an insertion, the item that was replaced, and the entry carried last. */
  datatype Inserted = Inserted(table: Table, previous: Option<Item>, last: Bucket)

  /** Inserts the entry e from bucket i on, comparing items or not. */
  function Insert(s: Table, e: Bucket, i: nat, free: nat, compare: bool): (r: Inserted)
    requires i < |s| && free < |s| && s[free].dib == 0
    ensures |r.table| == |s|
    decreases Dist(i, free, |s|)
  {
    var b := s[i];
    if b.dib == 0 then Inserted(s[i := e], None, e)
    else if compare && e.hash == b.hash && e.item.key == b.item.key then
      Inserted(s[i := b.(item := e.item)], Some(b.item), e)
    else
      var x := if b.dib < e.dib then b else e;
      Insert(if b.dib < e.dib then s[i := e] else s, x.(dib := DibField(x.dib + 1)), Next(i, |s|), free,
             compare)
  }

  /** One round past a bucket with another item, where the field is wide enough. */
  lemma InsertRound(s: Table, e: Bucket, i: nat, free: nat, compare: bool, s': Table, e': Bucket)
    requires i < |s| && free < |s| && s[free].dib == 0 && s[i].dib > 0
    requires compare ==> IdOf(s[i]) != IdOf(e)
    requires s' == if s[i].dib < e.dib then s[i := e] else s
    requires var x := if s[i].dib < e.dib then s[i] else e; e' == x.(dib := x.dib + 1)
    requires e'.dib <= MAX_ITEMS
    ensures Insert(s, e, i, free, compare) == Insert(s', e', Next(i, |s|), free, compare)
  {
  }

  lemma InsertFree(s: Table, e: Bucket, i: nat, free: nat, compare: bool)
    requires i < |s| && free < |s| && s[free].dib == 0 && s[i].dib == 0
    ensures Insert(s, e, i, free, compare) == Inserted(s[i := e], None, e)
  {
  }

  lemma InsertEqual(s: Table, e: Bucket, i: nat, free: nat)
    requires i < |s| && free < |s| && s[free].dib == 0 && s[i].dib > 0 && IdOf(s[i]) == IdOf(e)
    ensures Insert(s, e, i, free, true) == Inserted(s[i := s[i].(item := e.item)], Some(s[i].item), e)
  {
  }

  /** Which free bucket bounds the loop does not matter. */
  lemma {:induction false} InsertAnyFree(s: Table, e: Bucket, i: nat, f: nat, g: nat, compare: bool)
    requires i < |s| && f < |s| && g < |s| && s[f].dib == 0 && s[g].dib == 0
    ensures Insert(s, e, i, f, compare) == Insert(s, e, i, g, compare)
    decreases Dist(i, f, |s|)
  {
    var b := s[i];
    if b.dib > 0 && !(compare && e.hash == b.hash && e.item.key == b.item.key) {
      var x := if b.dib < e.dib then b else e;
      InsertAnyFree(if b.dib < e.dib then s[i := e] else s, x.(dib := DibField(x.dib + 1)), Next(i, |s|), f, g,
                    compare);
    }
  }

  /** The first free bucket from k on, or the number of buckets. */
  function FreeFrom(s: Table, k: nat): (f: nat)
    requires k <= |s|
    ensures k <= f <= |s|
    ensures f < |s| ==> s[f].dib == 0
    ensures f == |s| ==> forall i :: k <= i < |s| ==> s[i].dib > 0
    decreases |s| - k
  {
    if k == |s| || s[k].dib == 0 then k else FreeFrom(s, k + 1)
  }

  /** The table after setting an item, in a table with a free bucket. */
  function SetIn(s: Table, e: Bucket): (r: Inserted)
    ensures |r.table| == |s|
  {
    var f := FreeFrom(s, 0);
    if f < |s| then Insert(s, e, Home(e.hash, |s|), f, true) else Inserted(s, None, e)
  }

  lemma SetInIs(s: Table, e: Bucket, f: nat)
    requires f < |s| && s[f].dib == 0
    ensures SetIn(s, e) == Insert(s, e, Home(e.hash, |s|), f, true)
  {
    InsertAnyFree(s, e, Home(e.hash, |s|), FreeFrom(s, 0), f, true);
  }

  // ---------------------------------------------------------------- within the bound

  /** An entry that is still looking for its stored copy is no further from home than that copy. */
  lemma SeekingWithinItems(s: Table, m: map<Id, Item>, id: Id, d: nat)
    requires Good(s, m) && |m| < |s| && id in m && Ahead(s, id, d)
    ensures d <= |m|
  {
    assert Placed(s, m, id);
    var p :| Holds(s, p, id);
    DibWithinItems(s, m, p);
  }

  /** A round of a set leads to a `dib` that fits the field. */
  lemma SetWithinItems(s: Table, m: map<Id, Item>, e: Bucket, i: nat, f0: nat, f1: nat,
                       e0: Bucket, m0: map<Id, Item>)
    requires Setting(s, m, e, i, f0, f1, e0, m0) && |m0| + 1 < |s|
    requires |m0| < MAX_ITEMS || (IdOf(e0) in m0 && |m0| <= MAX_ITEMS)
    ensures e.dib <= MAX_ITEMS
  {
    if IdOf(e0) in m0 {
      SeekingWithinItems(s, m, IdOf(e0), e.dib);
    } else {
      SameSize(m, IdOf(e), e.item, m0, IdOf(e0), e0.item);
      CarriedWithinItems(s, m, e, i);
    }
  }

  lemma SameSize(m: map<Id, Item>, id: Id, item: Item, m0: map<Id, Item>, id0: Id, item0: Item)
    requires id !in m && id0 !in m0
    requires m == m0 || m[id := item] == m0[id0 := item0]
    ensures |m| == |m0|
  {
    OneMore(m, id, item);
    OneMore(m0, id0, item0);
  }

  lemma OneMore(m: map<Id, Item>, id: Id, item: Item)
    requires id !in m
    ensures |m[id := item]| == |m| + 1
  {
    assert m[id := item].Keys == m.Keys + {id};
  }

  lemma {:induction false} SetInserts(s: Table, m: map<Id, Item>, e: Bucket, i: nat, f0: nat, f1: nat,
                                      e0: Bucket, m0: map<Id, Item>)
    requires Setting(s, m, e, i, f0, f1, e0, m0) && |m0| + 1 < |s|
    requires |m0| < MAX_ITEMS || (IdOf(e0) in m0 && |m0| <= MAX_ITEMS)
    ensures var r := Insert(s, e, i, f0, true);
      Good(r.table, m0[IdOf(e0) := e0.item]) && r.previous == Lookup(m0, IdOf(e0))
    decreases Dist(i, f0, |s|)
  {
    if s[i].dib == 0 {
      SetFree(s, m, e, i, f0, f1, e0, m0);
      InsertFree(s, e, i, f0, true);
    } else if IdOf(s[i]) == IdOf(e) {
      SetEqual(s, m, e, i, f0, f1, e0, m0);
      InsertEqual(s, e, i, f0);
    } else {
      var s', m', e', i' := SetStep(s, m, e, i, f0, f1, e0, m0);
      SetWithinItems(s', m', e', i', f0, f1, e0, m0);
      InsertRound(s, e, i, f0, true, s', e');
      SetInserts(s', m', e', i', f0, f1, e0, m0);
    }
  }

  /** Setting an item in a table of few enough items is setting it in the finite map. */
  lemma InsertSets(s: Table, m: map<Id, Item>, e: Bucket, f0: nat, f1: nat)
    requires Good(s, m) && Free2(s, f0, f1) && e.dib == 1 && |m| + 1 < |s|
    requires |m| < MAX_ITEMS || (IdOf(e) in m && |m| <= MAX_ITEMS)
    ensures var r := Insert(s, e, Home(e.hash, |s|), f0, true);
      Good(r.table, m[IdOf(e) := e.item]) && r.previous == Lookup(m, IdOf(e))
  {
    SetStart(s, m, e, f0, f1);
    SetInserts(s, m, e, Home(e.hash, |s|), f0, f1, e, m);
  }

  lemma {:induction false} CarryInserts(s: Table, m: map<Id, Item>, e: Bucket, i: nat, f0: nat, f1: nat,
                                        all: map<Id, Item>)
    requires Carrying(s, m, e, i, f0, f1, all) && |all| < |s| && |all| <= MAX_ITEMS
    ensures Good(Insert(s, e, i, f0, false).table, all)
    decreases Dist(i, f0, |s|)
  {
    if s[i].dib == 0 {
      CarryPutDown(s, m, e, i, f0, f1, all);
      InsertFree(s, e, i, f0, false);
    } else {
      var s', m', e', i' := CarryStep(s, m, e, i, f0, f1, all);
      OneMore(m', IdOf(e'), e'.item);
      CarriedWithinItems(s', m', e', i');
      InsertRound(s, e, i, f0, false, s', e');
      CarryInserts(s', m', e', i', f0, f1, all);
    }
  }

  /** Inserting a new item without comparing adds it to the finite map. */
  lemma InsertAdds(s: Table, m: map<Id, Item>, e: Bucket, f0: nat, f1: nat)
    requires Good(s, m) && Free2(s, f0, f1) && e.dib == 1 && |m| + 1 < |s|
    requires IdOf(e) !in m && |m| < MAX_ITEMS
    ensures Good(Insert(s, e, Home(e.hash, |s|), f0, false).table, m[IdOf(e) := e.item])
  {
    CarryStart(s, m, e, f0, f1);
    CarryInserts(s, m, e, Home(e.hash, |s|), f0, f1, m[IdOf(e) := e.item]);
  }

  // ---------------------------------------------------------------- beyond the bound

  /** A table of c items: as many as the field can tell apart share a hash and fill the buckets from
      their home on, one bucket is free, and the others are at home behind it. */
  function CrowdedBucket(c: nat, i: nat): Bucket {
    if i < MAX_ITEMS && i < c then Bucket(0, i + 1, Item(i, []))
    else if MAX_ITEMS < i <= c then Bucket(i, 1, Item(i, []))
    else ZERO_BUCKET
  }

  const ZERO_BUCKET := Bucket(0, 0, Item(0, []))

  function Crowded(c: nat, n: nat): Table {
    seq(n, i requires 0 <= i < n => CrowdedBucket(c, i))
  }

  lemma HomeOfSmall(h: nat, n: nat)
    requires IsPow2(n) && h < n
    ensures Home(h, n) == h
  {
    MaskIsRemainder(h, n);
    RemainderUnique(h, n, 0, h);
  }

  lemma CrowdedShape(c: nat, n: nat)
    requires c >= MAX_ITEMS && IsPow2(n) && n > c + 1
    ensures var s := Crowded(c, n); Homed(s) && Stepped(s) && Distinct(s)
  {
    var s := Crowded(c, n);
    forall i ensures HomedAt(s, i) {
      if Full(s, i) {
        HomeOfSmall(s[i].hash, n);
      }
    }
    forall i ensures SteppedAt(s, i) {
    }
    forall i, j ensures !Clash(s, i, j) {
    }
  }

  lemma {:induction false} CrowdedCount(c: nat, n: nat)
    requires c >= MAX_ITEMS
    ensures Occupied(Crowded(c, n)) ==
      if n <= MAX_ITEMS then n else if n <= c then n - 1 else c
  {
    if n > 0 {
      CrowdedCount(c, n - 1);
      assert Crowded(c, n)[..n - 1] == Crowded(c, n - 1);
    }
  }

  /** Every table without equal items stands for the map that is read off it. */
  lemma {:induction false} ReadOff(s: Table, k: nat)
    requires Distinct(s) && k <= |s|
    ensures |Collect(s, k)| == Occupied(s[..k])
    ensures forall i :: 0 <= i < k && Full(s, i) ==>
      IdOf(s[i]) in Collect(s, k) && Collect(s, k)[IdOf(s[i])] == s[i].item
    ensures forall id :: id in Collect(s, k) ==> exists i :: i < k && Holds(s, i, id)
  {
    if k > 0 {
      ReadOff(s, k - 1);
      assert s[..k][..k - 1] == s[..k - 1];
      if s[k - 1].dib > 0 {
        var c, id := Collect(s, k - 1), IdOf(s[k - 1]);
        assert Holds(s, k - 1, id);
        forall i | i < k - 1 ensures !Holds(s, i, id) {
          assert !Clash(s, i, k - 1);
        }
        assert id !in c;
        OneMore(c, id, s[k - 1].item);
      }
    }
  }

  lemma CrowdedGood(c: nat, n: nat)
    requires c >= MAX_ITEMS && IsPow2(n) && n > c + 1
    ensures var m := Collect(Crowded(c, n), n); Good(Crowded(c, n), m) && |m| == c
  {
    var s := Crowded(c, n);
    CrowdedShape(c, n);
    CrowdedCount(c, n);
    ReadOff(s, n);
    assert s[..n] == s;
    forall i ensures ItemIn(s, Collect(s, n), i) {
    }
    forall id ensures Placed(s, Collect(s, n), id) {
    }
  }

  /** The entry that has reached bucket k of the crowd. Behind the crowd its `dib` has become zero. */
  function Newcomer(n: nat, k: nat): Bucket {
    Bucket(0, DibField(k + 1), Item(n, []))
  }

  lemma {:induction false} NewcomerPasses(c: nat, n: nat, k: nat, compare: bool)
    requires c >= MAX_ITEMS && n > c + 1 && k <= MAX_ITEMS
    ensures var s := Crowded(c, n);
      Insert(s, Newcomer(n, k), k, MAX_ITEMS, compare).table == s[MAX_ITEMS := Newcomer(n, MAX_ITEMS)]
    decreases MAX_ITEMS - k
  {
    if k < MAX_ITEMS {
      NewcomerPasses(c, n, k + 1, compare);
    }
  }

  ghost predicate Absent(t: Table, id: Id) {
    forall i :: !Holds(t, i, id)
  }

  /** One item too many: its `dib` becomes zero, so the bucket it is written to still counts as free
      and the item is not stored. */
  lemma NewcomerIsLost(c: nat, n: nat, compare: bool)
    requires c >= MAX_ITEMS && IsPow2(n) && n > c + 1
    ensures var s, e := Crowded(c, n), Newcomer(n, 0);
      Insert(s, e, Home(e.hash, n), MAX_ITEMS, compare).table == s[MAX_ITEMS := Newcomer(n, MAX_ITEMS)]
    ensures Absent(Crowded(c, n)[MAX_ITEMS := Newcomer(n, MAX_ITEMS)], Id(0, n))
  {
    NewcomerPasses(c, n, 0, compare);
    HomeOfSmall(0, n);
  }

  // ---------------------------------------------------------------- the bound is exact

  /** A set in a table of c items, with room for one more and within the field so far. */
  ghost predicate SetOf(c: nat, s: Table, m: map<Id, Item>, e: Bucket, f0: nat, f1: nat) {
    && Good(s, m) && |m| == c && c + 1 < |s| && IsPow2(|s|) && Free2(s, f0, f1)
    && e.dib == 1 && IdOf(e) !in m
    && forall i :: 0 <= i < |s| ==> s[i].dib <= MAX_ITEMS
  }

  ghost predicate Stored(s: Table, m: map<Id, Item>, e: Bucket, f0: nat)
    requires 0 < |s| && f0 < |s| && s[f0].dib == 0
  {
    Good(Insert(s, e, Home(e.hash, |s|), f0, true).table, m[IdOf(e) := e.item])
  }

  lemma {:induction false} BigPow2(k: nat) returns (n: nat)
    ensures IsPow2(n) && n > k
  {
    if k == 0 {
      return 1;
    }
    n := BigPow2(k - 1);
    DoubleOfPow2(n);
    n := 2 * n;
  }

  /** Every set of a new item in every table of c items works if and only if c is less than 65535. */
  lemma SafeExactly(c: nat)
    ensures c < 65535 <==>
      forall s, m, e, f0, f1 :: SetOf(c, s, m, e, f0, f1) ==> Stored(s, m, e, f0)
  {
    if c < MAX_ITEMS {
      forall s, m, e, f0, f1 | SetOf(c, s, m, e, f0, f1) ensures Stored(s, m, e, f0) {
        InsertSets(s, m, e, f0, f1);
      }
    } else {
      var n := BigPow2(c + 2);
      CrowdedIsSetting(c, n);
      CrowdedFails(c, n);
    }
  }

  lemma NotStoring(t: Table, m: map<Id, Item>, id: Id)
    requires id in m && Absent(t, id)
    ensures !Stores(t, m)
  {
    assert !Placed(t, m, id);
  }

  lemma CrowdedFails(c: nat, n: nat)
    requires c >= MAX_ITEMS && IsPow2(n) && n > c + 2
    ensures Crowded(c, n)[MAX_ITEMS].dib == 0
    ensures !Stored(Crowded(c, n), Collect(Crowded(c, n), n), Newcomer(n, 0), MAX_ITEMS)
  {
    var s, e := Crowded(c, n), Newcomer(n, 0);
    var m' := Collect(s, n)[IdOf(e) := e.item];
    NewcomerIsLost(c, n, true);
    NotStoring(s[MAX_ITEMS := Newcomer(n, MAX_ITEMS)], m', Id(0, n));
  }

  lemma CrowdedIsSetting(c: nat, n: nat)
    requires c >= MAX_ITEMS && IsPow2(n) && n > c + 2
    ensures SetOf(c, Crowded(c, n), Collect(Crowded(c, n), n), Newcomer(n, 0), MAX_ITEMS, c + 1)
  {
    var s := Crowded(c, n);
    CrowdedGood(c, n);
    CrowdedShape(c, n);
    ReadOff(s, n);
    forall i ensures !Holds(s, i, Id(0, n)) {
    }
    assert Id(0, n) !in Collect(s, n);
  }
}
