/** The hash map: an open-addressed bucket array that grows and shrinks by re-insertion. */
module HashMaps {
  import opened Basics
  import opened Bits
  import opened Insertion
  import opened RobinHood

  import Floats
  import LoadFactors

  /** What the allocator grants to a new map: its record and its buckets. */
  datatype Memory = Memory(forMap: bool, forBuckets: bool) {
    predicate Enough() {
      forMap && forBuckets
    }
  }

  const GROW_AT := 60 // per cent
  const SHRINK_AT := 10 // per cent
  const HASH_RANGE := 0x1_0000_0000_0000

  function ClipHash(hash: nat): (h: nat) {
    hash % HASH_RANGE
  }

  /** A threshold of a table with n buckets, as LoadFactors.ThresholdIsPercent justifies it. */
  function Percent(n: nat, pct: nat): nat {
    n * pct / 100
  }

  /** The first buckets of the array are s. Proofs go from array to table, never back. */
  ghost predicate Mirrors(a: array<Bucket>, s: Table)
    reads a
  {
    |s| <= a.Length && forall k {:trigger a[k]} :: 0 <= k < |s| ==> a[k] == s[k]
  }

  lemma PercentBound(n: nat, pct: nat)
    requires pct <= 95
    ensures 100 * Percent(n, pct) <= 95 * n
  {
    assert n * pct <= n * 95;
  }

  /** Doubling a word, where words range below a limit. */
  function Twice(x: nat, range: nat): (r: nat)
    requires x < range
    ensures r < range
  {
    if 2 * x < range then 2 * x else 2 * x - range
  }

  lemma TwiceWraps(x: nat, range: nat)
    requires x < range
    ensures Twice(x, range) == 2 * x % range
  {
    RemainderUnique(2 * x, range, if 2 * x < range then 0 else 1, Twice(x, range));
  }

  /** The capacity after k doublings in words of so many bits. */
  function Doublings(k: nat, bits: nat): (n: nat)
    requires bits > 4
    ensures n == if k + 4 < bits then Pow2(k + 4) else 0
  {
    if k == 0 then
      assert Pow2(2) == 4 && Pow2(4) == 16;
      Pow2Grows(5, bits);
      16
    else
      Pow2Grows(if k + 4 < bits then k + 5 else bits, bits);
      Twice(Doublings(k - 1, bits), Pow2(bits))
  }

  /** The loop ends after k doublings. */
  predicate Reaches(cap: nat, bits: nat, k: nat)
    requires bits > 4
  {
    Doublings(k, bits) >= cap
  }

  /** In words of so many bits, doubling reaches a capacity if and only if it is at most half the range;
      beyond that it never ends. */
  lemma RoundUpEnds(cap: nat, bits: nat)
    requires bits > 4
    ensures (exists k: nat :: Reaches(cap, bits, k)) <==> cap <= Pow2(bits - 1)
  {
    if cap <= Pow2(bits - 1) {
      var k: nat := bits - 5;
      assert k + 4 == bits - 1 && Reaches(cap, bits, k);
    } else {
      forall k: nat ensures !Reaches(cap, bits, k) {
        if k + 4 < bits {
          Pow2Grows(k + 4, bits - 1);
        }
      }
    }
  }

  class HashMap {
    var cap: nat
    var nbuckets: nat
    var count: nat
    var mask: nat
    var growat: nat
    var shrinkat: nat
    var loadfactor: nat
    var growpower: nat
    var oom: bool
    var buckets: array<Bucket>

    /** The finite map this hash map stands for. */
    ghost var contents: map<Id, Item>

    ghost function Slots(): Table
      reads this`buckets, this`nbuckets, buckets
      requires nbuckets <= buckets.Length
    {
      buckets[..nbuckets]
    }

    /** The bucket array can be longer than `nbuckets`: a clear that fails to allocate keeps it. */
    ghost predicate Sized()
      reads this`buckets, this`nbuckets, this`mask, this`cap
    {
      && IsPow2(nbuckets) && IsPow2(cap) && 16 <= cap <= nbuckets <= buckets.Length
      && mask == nbuckets - 1
    }

    ghost predicate Tuned()
      reads this`nbuckets, this`loadfactor, this`growpower, this`growat, this`shrinkat
    {
      && 50 <= loadfactor <= 95 && 1 <= growpower <= 16
      && (growat == Percent(nbuckets, loadfactor) || growat == Percent(nbuckets, GROW_AT))
      && shrinkat == Percent(nbuckets, SHRINK_AT)
    }

    ghost predicate Valid()
      reads this`cap, this`buckets, this`nbuckets, this`mask, this`loadfactor, this`growpower, this`growat,
            this`shrinkat, this`count, this`contents, buckets
    {
      && Sized() && Tuned()
      && Good(Slots(), contents)
      && count == |contents| <= MAX_ITEMS
      && 100 * count <= 95 * nbuckets
    }

    /** All buckets are zero. */
    ghost predicate Blank()
      reads this`buckets, this`nbuckets, buckets
    {
      nbuckets <= buckets.Length && forall i :: 0 <= i < nbuckets ==> buckets[i] == ZERO_BUCKET
    }

    /** There is room for an item within the items that are always kept, or it is replaced. */
    ghost predicate RoomFor(id: Id)
      reads this`count, this`contents
    {
      count < MAX_ITEMS || id in contents
    }

    /** The smallest power of two that is at least 16 and at least `cap`. */
    static method RoundUp(cap: nat) returns (ncap: nat)
      ensures IsPow2(ncap) && ncap >= 16 && ncap >= cap
      ensures forall p: nat :: IsPow2(p) && p >= 16 && p >= cap ==> ncap <= p
    {
      ncap := 16;
      assert IsPow2(16);
      while ncap < cap
        invariant IsPow2(ncap) && ncap >= 16
        invariant forall p: nat :: IsPow2(p) && p >= 16 && p >= cap ==> ncap <= p
      {
        forall p: nat | IsPow2(p) && p >= 16 && p >= cap ensures 2 * ncap <= p {
          Pow2Gap(ncap, p);
        }
        DoubleOfPow2(ncap);
        ncap := 2 * ncap;
      }
    }

    constructor (ncap: nat)
      requires IsPow2(ncap) && ncap >= 16
      ensures Valid() && fresh(buckets)
      ensures contents == map[] && cap == nbuckets == ncap && loadfactor == GROW_AT && growpower == 1
      ensures growat == Percent(nbuckets, GROW_AT) && !oom && Blank()
    {
      cap, nbuckets, mask := ncap, ncap, ncap - 1;
      count, growpower, oom := 0, 1, false;
      loadfactor := GROW_AT;
      growat := Percent(ncap, GROW_AT);
      shrinkat := Percent(ncap, SHRINK_AT);
      var fresh_buckets := new Bucket[ncap];
      ZeroBuckets(fresh_buckets, ncap);
      buckets := fresh_buckets;
      contents := map[];
      EmptyTable(fresh_buckets[..ncap]);
    }

    static method ZeroBuckets(a: array<Bucket>, n: nat)
      requires n <= a.Length
      modifies a
      ensures forall i :: 0 <= i < n ==> a[i] == ZERO_BUCKET
    {
      forall i | 0 <= i < n {
        a[i] := ZERO_BUCKET;
      }
    }

    /** A new map, if there is memory for it and for its buckets. */
    static method New(cap: nat, memory: Memory) returns (map0: HashMap?)
      ensures map0 != null <==> memory.Enough()
      ensures map0 != null ==>
        && fresh(map0) && fresh(map0.buckets) && map0.Valid() && map0.contents == map[] && map0.Blank()
        && map0.nbuckets == map0.cap >= cap && map0.growat == Percent(map0.nbuckets, GROW_AT)
        && (forall p: nat :: IsPow2(p) && p >= 16 && p >= cap ==> map0.cap <= p)
    {
      var ncap := RoundUp(cap);
      if !memory.forMap {
        return null;
      }
      if !memory.forBuckets {
        return null;
      }
      map0 := new HashMap(ncap);
    }

    method SetGrowByPower(power: nat)
      requires Valid()
      modifies this`growpower
      ensures Valid() && 1 <= growpower <= 16
      ensures 1 <= power <= 16 ==> growpower == power
      ensures power == 0 ==> growpower == 1
      ensures power > 16 ==> growpower == 16
    {
      growpower := if power < 1 then 1 else if power > 16 then 16 else power;
    }

    method SetLoadFactor(factor: Floats.Number)
      requires Valid()
      modifies this`loadfactor, this`growat
      ensures Valid() && growat == Percent(nbuckets, loadfactor)
      ensures loadfactor == LoadFactors.NewPercent(factor, old(loadfactor))
    {
      LoadFactors.NewPercentIs(factor, loadfactor);
      loadfactor := LoadFactors.NewPercent(factor, loadfactor);
      growat := Percent(nbuckets, loadfactor);
    }

    /** The home bucket of a hash in a table whose mask is n - 1. */
    static method HomeOf(hash: nat, n: nat) returns (i: nat)
      requires IsPow2(n)
      ensures i == Home(hash, n) < n
    {
      i := And(hash, n - 1);
    }

    /** The bucket after bucket i. */
    static method After(i: nat, n: nat) returns (j: nat)
      requires IsPow2(n) && i < n
      ensures j == Next(i, n) < n
    {
      j := And(i + 1, n - 1);
      WrapIsNext(i, n);
    }

    /** Looks for an item from its home bucket on; only a free bucket ends the search early. */
    method Probe(key: Key, hash: nat) returns (found: bool, i: nat)
      requires Sized() && Good(Slots(), contents) && |contents| < nbuckets
      ensures found <==> Id(hash, key) in contents
      ensures found ==> i < nbuckets && Holds(Slots(), i, Id(hash, key))
    {
      ghost var id := Id(hash, key);
      ghost var s := Slots();
      ghost var free := FreeBucket(s);
      ghost var d := 1;
      i := HomeOf(hash, mask + 1);
      while true
        invariant i < nbuckets && d == Dist(Home(hash, nbuckets), i, nbuckets) + 1
        invariant d - 1 + Dist(i, free, nbuckets) == Dist(Home(hash, nbuckets), free, nbuckets)
        invariant Ahead(s, id, d)
        decreases Dist(i, free, nbuckets)
      {
        var bucket := buckets[i];
        assert bucket == s[i];
        if bucket.dib == 0 {
          NotFound(s, contents, id, d, i);
          return false, i;
        }
        if bucket.hash == hash && bucket.item.key == key {
          Found(s, contents, i);
          return true, i;
        }
        PassBy(s, id, d, i);
        i := After(i, mask + 1);
        d := d + 1;
      }
    }

    method GetWithHash(key: Key, hash: nat) returns (r: Option<Item>)
      requires Valid()
      ensures r == Lookup(contents, Id(ClipHash(hash), key))
    {
      var found, i := Probe(key, ClipHash(hash));
      if !found {
        return None;
      }
      Found(Slots(), contents, i);
      return Some(buckets[i].item);
    }

    /** Puts an entry into the n buckets of a table with a free one, from its home on; returns the
        entry carried last. Items are never compared. */
    static method Reinsert(entry0: Bucket, to: array<Bucket>, n: nat, ghost s0: Table, ghost free: nat)
      returns (entry: Bucket, ghost s: Table)
      requires IsPow2(n) && |s0| == n && Mirrors(to, s0) && free < n && s0[free].dib == 0
      modifies to
      ensures |s| == n && Mirrors(to, s)
      ensures var r := Insert(s0, entry0, Home(entry0.hash, n), free, false); s == r.table && entry == r.last
    {
      s, entry := s0, entry0;
      var j: nat := HomeOf(entry.hash, n);
      ghost var goal := Insert(s, entry, j, free, false);
      while true
        invariant |s| == n && Mirrors(to, s) && j < n && s[free].dib == 0
        invariant Insert(s, entry, j, free, false) == goal
        decreases Dist(j, free, n)
      {
        var bucket := to[j];
        if bucket.dib == 0 {
          to[j] := entry;
          s := s[j := entry];
          return;
        }
        if bucket.dib < entry.dib {
          to[j] := entry;
          s := s[j := entry];
          entry := bucket;
        }
        j := After(j, n);
        entry := entry.(dib := DibField(entry.dib + 1));
      }
    }

    /** Moves the items of the first buckets of `from`, which are overwritten on the way, into the
        empty table `to`. */
    static method MoveAll(from: array<Bucket>, n1: nat, to: array<Bucket>, n2: nat,
                          ghost s1: Table, ghost s2: Table, ghost contents: map<Id, Item>)
      returns (ghost s: Table)
      requires from != to && IsPow2(n2) && |contents| < n2 && |contents| <= MAX_ITEMS
      requires |s1| == n1 && Mirrors(from, s1) && Good(s1, contents)
      requires |s2| == n2 && Mirrors(to, s2) && Good(s2, map[])
      modifies from, to
      ensures |s| == n2 && Mirrors(to, s) && Good(s, contents)
    {
      s := s2;
      ghost var m := map[];
      var i := 0;
      while i < n1
        invariant i <= n1 && |s| == n2 && Mirrors(to, s)
        invariant Good(s, m) && m == Collect(s1, i)
        invariant forall k {:trigger from[k]} :: i <= k < n1 ==> from[k] == s1[k]
      {
        var entry := from[i];
        CollectMore(s1, contents, i);
        if entry.dib != 0 {
          from[i] := entry.(dib := 1);
          ghost var f0, f1 := TwoFreeBuckets(s);
          InsertAdds(s, m, from[i], f0, f1);
          entry, s := Reinsert(from[i], to, n2, s, f0);
          from[i] := entry;
          m := Collect(s1, i + 1);
        }
        i := i + 1;
      }
      CollectsAll(s1, contents);
    }

    /** Moves every item into an empty map and takes over its buckets. */
    method TakeOver(map2: HashMap)
      requires Valid() && map2.Valid() && map2.contents == map[]
      requires map2 != this && map2.buckets != buckets && map2.cap == map2.nbuckets >= cap
      requires map2.growat == Percent(map2.nbuckets, GROW_AT) && 100 * count <= 95 * map2.nbuckets
      modifies this`buckets, this`nbuckets, this`mask, this`growat, this`shrinkat, buckets, map2.buckets
      ensures Valid() && buckets == map2.buckets && nbuckets == map2.nbuckets && growat == map2.growat
    {
      ghost var s := MoveAll(buckets, nbuckets, map2.buckets, map2.nbuckets, Slots(), map2.Slots(), contents);
      buckets := map2.buckets;
      nbuckets := map2.nbuckets;
      mask := map2.mask;
      growat := map2.growat;
      shrinkat := map2.shrinkat;
      assert Slots() == s;
    }

    /** Moves every item to a table of another size; fails, changing nothing, without memory. */
    method Resize(newCap: nat, memory: Memory) returns (done: bool)
      requires Valid() && IsPow2(newCap) && newCap >= cap && 100 * count <= 95 * newCap
      modifies this`buckets, this`nbuckets, this`mask, this`growat, this`shrinkat, buckets
      ensures Valid() && done == memory.Enough()
      ensures done ==> nbuckets == newCap && growat == Percent(newCap, GROW_AT) && fresh(buckets)
      ensures !done ==> unchanged(this) && unchanged(buckets)
    {
      var map2 := New(newCap, memory);
      if map2 == null {
        return false;
      }
      TakeOver(map2);
      return true;
    }

    /** Sets an item in a table with a free bucket, from its home on. */
    static method Upsert(entry0: Bucket, to: array<Bucket>, n: nat, ghost s0: Table, ghost free: nat)
      returns (previous: Option<Item>, ghost s: Table)
      requires IsPow2(n) && |s0| == n && Mirrors(to, s0) && free < n && s0[free].dib == 0
      modifies to
      ensures |s| == n && Mirrors(to, s)
      ensures var r := Insert(s0, entry0, Home(entry0.hash, n), free, true);
        s == r.table && previous == r.previous
    {
      s := s0;
      var entry := entry0;
      var i: nat := HomeOf(entry.hash, n);
      ghost var goal := Insert(s, entry, i, free, true);
      while true
        invariant |s| == n && Mirrors(to, s) && i < n && s[free].dib == 0
        invariant Insert(s, entry, i, free, true) == goal
        decreases Dist(i, free, n)
      {
        var bucket := to[i];
        if bucket.dib == 0 {
          to[i] := entry;
          s := s[i := entry];
          return None, s;
        }
        if entry.hash == bucket.hash && entry.item.key == bucket.item.key {
          to[i] := bucket.(item := entry.item);
          s := s[i := bucket.(item := entry.item)];
          return Some(bucket.item), s;
        }
        if bucket.dib < entry.dib {
          to[i] := entry;
          s := s[i := entry];
          entry := bucket;
        }
        i := After(i, n);
        entry := entry.(dib := DibField(entry.dib + 1));
      }
    }

    /** Grows a table that has reached its threshold. */
    method MakeRoom(memory: Memory) returns (done: bool)
      requires Valid()
      modifies this`buckets, this`nbuckets, this`mask, this`growat, this`shrinkat, buckets
      ensures Valid() && done == (memory.Enough() || old(count < growat))
      ensures !done ==> unchanged(this) && unchanged(buckets)
      ensures old(count < growat) ==> buckets == old(buckets) && Slots() == old(Slots())
      ensures done ==> 100 * (count + 1) <= 95 * nbuckets && (buckets == old(buckets) || fresh(buckets))
      ensures done ==>
        && nbuckets == old(if count < growat then nbuckets else nbuckets * Pow2(growpower))
        && growat == if old(count < growat) then old(growat) else Percent(nbuckets, GROW_AT)
    {
      PercentBound(nbuckets, loadfactor);
      if count < growat {
        return true;
      }
      ShiftOfPow2(nbuckets, growpower);
      done := Resize(nbuckets * Pow2(growpower), memory);
    }

    /** Puts an item into a table with a free bucket for it. */
    method Put(entry: Bucket) returns (previous: Option<Item>)
      requires Valid() && 100 * (count + 1) <= 95 * nbuckets && entry.dib == 1
      modifies this`count, this`contents, buckets
      ensures Sized() && Tuned() && contents == old(contents)[IdOf(entry) := entry.item]
      ensures old(RoomFor(IdOf(entry))) ==> Valid() && previous == Lookup(old(contents), IdOf(entry))
      ensures var r := SetIn(old(Slots()), entry); Slots() == r.table && previous == r.previous
      ensures count == old(count) + if previous == None then 1 else 0
    {
      previous := Place(entry);
      contents := contents[IdOf(entry) := entry.item];
      if previous == None {
        count := count + 1;
      }
    }

    /** Places an item in the buckets. */
    method Place(entry: Bucket) returns (previous: Option<Item>)
      requires Sized() && Good(Slots(), contents) && |contents| + 1 < nbuckets && entry.dib == 1
      modifies buckets
      ensures |contents| < MAX_ITEMS || (IdOf(entry) in contents && |contents| <= MAX_ITEMS) ==>
        Good(Slots(), contents[IdOf(entry) := entry.item]) && previous == Lookup(contents, IdOf(entry))
      ensures var r := SetIn(old(Slots()), entry); Slots() == r.table && previous == r.previous
    {
      ghost var s, f0, f1;
      f0, f1 := TwoFreeBuckets(Slots());
      SetInIs(Slots(), entry, f0);
      if |contents| < MAX_ITEMS || (IdOf(entry) in contents && |contents| <= MAX_ITEMS) {
        InsertSets(Slots(), contents, entry, f0, f1);
      }
      previous, s := Upsert(entry, buckets, nbuckets, Slots(), f0);
      assert Slots() == s;
    }

    /** Inserts or replaces an item; without memory for a table that must grow, nothing changes. Up to
        65535 items the map holds them all; a new one beyond that goes where the loop puts it. */
    method SetWithHash(item: Item, hash: nat, memory: Memory)
      returns (previous: Option<Item>, ghost before: Table)
      requires Valid()
      modifies this`buckets, this`nbuckets, this`mask, this`growat, this`shrinkat, this`oom,
               this`count, this`contents, buckets
      ensures Sized() && Tuned() && (buckets == old(buckets) || fresh(buckets))
      ensures oom == (!memory.Enough() && old(count >= growat))
      ensures oom ==>
        && Valid() && previous == None && contents == old(contents)
        && buckets == old(buckets) && buckets[..] == old(buckets[..])
        && unchanged(`nbuckets, `mask, `growat, `shrinkat, `count)
      ensures !oom ==>
        && contents == old(contents)[Id(ClipHash(hash), item.key) := item]
        && nbuckets == old(if count < growat then nbuckets else nbuckets * Pow2(growpower))
        && growat == if old(count < growat) then old(growat) else Percent(nbuckets, GROW_AT)
      ensures !oom && old(RoomFor(Id(ClipHash(hash), item.key))) ==>
        Valid() && previous == Lookup(old(contents), Id(ClipHash(hash), item.key))
      ensures !oom ==> Good(before, old(contents)) && (old(count < growat) ==> before == old(Slots()))
      ensures !oom ==> var r := SetIn(before, Bucket(ClipHash(hash), 1, item));
        && Slots() == r.table && previous == r.previous
        && count == old(count) + if previous == None then 1 else 0
    {
      var done := MakeRoom(memory);
      oom, before := !done, Slots();
      if !done {
        return None, before;
      }
      previous := Put(Bucket(ClipHash(hash), 1, item));
    }

    /** Frees one bucket. */
    static method FreeSlot(to: array<Bucket>, i: nat, ghost s0: Table) returns (ghost s: Table)
      requires i < |s0| && Mirrors(to, s0)
      modifies to
      ensures s == s0[i := s0[i].(dib := 0)] && Mirrors(to, s)
    {
      to[i] := to[i].(dib := 0);
      s := s0[i := s0[i].(dib := 0)];
    }

    /** Frees bucket i and shifts the items after it back, up to one that is at home. */
    static method ShiftBack(to: array<Bucket>, n: nat, i0: nat,
                            ghost s0: Table, ghost m0: map<Id, Item>)
      returns (ghost s: Table)
      requires IsPow2(n) && n > 1 && |s0| == n && Mirrors(to, s0)
      requires Good(s0, m0) && |m0| < n && i0 < n && s0[i0].dib > 0
      modifies to
      ensures |s| == n && Mirrors(to, s) && Good(s, m0 - {IdOf(s0[i0])})
    {
      s := s0;
      ghost var m := m0 - {IdOf(s[i0])};
      ghost var free := FreeBucket(s);
      ghost var d := s[i0].dib;
      OpenHole(s, m0, i0);
      s := FreeSlot(to, i0, s);
      var prev: nat := i0;
      while true
        invariant Mirrors(to, s) && |s| == n && prev < n
        invariant Shifting(s, m, prev, d)
        invariant free < n && free != prev && s[free].dib == 0
        decreases Dist(prev, free, n)
      {
        var i := After(prev, n);
        var bucket := to[i];
        if bucket.dib <= 1 {
          CloseHole(s, m, prev, d);
          s := FreeSlot(to, prev, s);
          return;
        }
        ghost var s', h' := MoveBack(s, m, prev, d);
        to[prev] := bucket.(dib := bucket.dib - 1);
        s, d := s', bucket.dib;
        prev := i;
      }
    }

    /** Takes the item of bucket i out of the table. */
    method TakeOut(i: nat)
      requires Valid() && i < nbuckets && buckets[i].dib > 0
      modifies this`count, this`contents, buckets
      ensures Valid()
      ensures contents == old(contents) - {old(IdOf(buckets[i]))}
      ensures count == old(count) - 1
    {
      ghost var id := IdOf(buckets[i]);
      Found(Slots(), contents, i);
      RemovedSize(contents, id);
      ghost var s := ShiftBack(buckets, nbuckets, i, Slots(), contents);
      assert Slots() == s;
      contents := contents - {id};
      count := count - 1;
    }

    /** Halves a table with few items, memory permitting, but never below `cap`. */
    method Shrink(memory: Memory)
      requires Valid()
      modifies this`buckets, this`nbuckets, this`mask, this`growat, this`shrinkat, buckets
      ensures Valid() && (buckets == old(buckets) || fresh(buckets))
      ensures nbuckets == old(if memory.Enough() && nbuckets > cap && count <= shrinkat then nbuckets / 2 else nbuckets)
      ensures growat == if nbuckets == old(nbuckets) then old(growat) else Percent(nbuckets, GROW_AT)
    {
      if nbuckets > cap && count <= shrinkat {
        Pow2Gap(cap, nbuckets);
        HalfOfPow2(nbuckets);
        var _ := Resize(nbuckets / 2, memory);
      }
    }

    /** Takes the item of bucket i out and shrinks the table if few items are left. */
    method Remove(i: nat, memory: Memory) returns (r: Option<Item>)
      requires Valid() && i < nbuckets && buckets[i].dib > 0
      modifies this`buckets, this`nbuckets, this`mask, this`growat, this`shrinkat,
               this`count, this`contents, buckets
      ensures Valid() && (buckets == old(buckets) || fresh(buckets))
      ensures var id := old(IdOf(buckets[i]));
        && contents == old(contents) - {id} && r == Lookup(old(contents), id) && r.Some?
      ensures nbuckets ==
        if memory.Enough() && old(nbuckets > cap && count - 1 <= shrinkat) then old(nbuckets) / 2
        else old(nbuckets)
      ensures growat == if nbuckets == old(nbuckets) then old(growat) else Percent(nbuckets, GROW_AT)
    {
      Found(Slots(), contents, i);
      r := Some(buckets[i].item);
      TakeOut(i);
      Shrink(memory);
    }

    /** Removes an item; the table shrinks when few items are left, memory permitting. */
    method DeleteWithHash(key: Key, hash: nat, memory: Memory) returns (r: Option<Item>)
      requires Valid()
      modifies this`buckets, this`nbuckets, this`mask, this`growat, this`shrinkat, this`oom,
               this`count, this`contents, buckets
      ensures Valid() && (buckets == old(buckets) || fresh(buckets)) && !oom
      ensures contents == old(contents) - {Id(ClipHash(hash), key)}
      ensures r == Lookup(old(contents), Id(ClipHash(hash), key))
      ensures nbuckets ==
        if r.Some? && memory.Enough() && old(nbuckets > cap && count - 1 <= shrinkat) then old(nbuckets) / 2
        else old(nbuckets)
      ensures growat == if nbuckets == old(nbuckets) then old(growat) else Percent(nbuckets, GROW_AT)
    {
      oom := false;
      var found, i := Probe(key, ClipHash(hash));
      if !found {
        return None;
      }
      r := Remove(i, memory);
    }

    /** Calls the element-freeing function on every item; returns the buckets it was called for. */
    method FreeElements() returns (freed: seq<Bucket>)
      requires nbuckets <= buckets.Length
      ensures freed == Scan(Slots(), 0)
    {
      freed := [];
      for i := 0 to nbuckets
        invariant freed + Scan(Slots(), i) == Scan(Slots(), 0)
      {
        assert Slots()[i] == buckets[i];
        if buckets[i].dib != 0 {
          freed := freed + [buckets[i]];
        }
      }
    }

    /** The bucket array of a cleared map: a new one of `cap` buckets where the sizes differ and
        there is memory for it. */
    method ClearedBuckets(update_cap: bool, memory: bool)
      requires Sized()
      modifies this`cap, this`buckets, this`nbuckets
      ensures cap == (if update_cap then old(nbuckets) else old(cap)) && nbuckets == cap
      ensures nbuckets <= buckets.Length
      ensures if !update_cap && memory && old(nbuckets != cap) then fresh(buckets) && buckets.Length == cap
        else buckets == old(buckets)
    {
      if update_cap {
        cap := nbuckets;
      } else if nbuckets != cap {
        if memory {
          buckets := new Bucket[cap];
        }
        nbuckets := cap;
      }
    }

    /** Empties the map. Without memory for a smaller array the old one is kept. */
    method Clear(update_cap: bool, memory: bool) returns (freed: seq<Bucket>)
      requires Valid()
      modifies this`count, this`cap, this`buckets, this`nbuckets, this`mask, this`growat,
               this`shrinkat, this`contents, buckets
      ensures Valid() && contents == map[]
      ensures if !update_cap && memory && old(nbuckets != cap) then fresh(buckets) && buckets.Length == cap
        else buckets == old(buckets)
      ensures cap == (if update_cap then old(nbuckets) else old(cap)) && nbuckets == cap
      ensures growat == Percent(nbuckets, loadfactor)
      ensures freed == old(Scan(Slots(), 0))
    {
      count := 0;
      freed := FreeElements();
      ClearedBuckets(update_cap, memory);
      Erase();
      Retune();
    }

    /** The mask and the thresholds of a table of another size. */
    method Retune()
      requires IsPow2(nbuckets) && IsPow2(cap) && 16 <= cap <= nbuckets <= buckets.Length
      requires 50 <= loadfactor <= 95 && 1 <= growpower <= 16
      modifies this`mask, this`growat, this`shrinkat
      ensures Sized() && Tuned() && growat == Percent(nbuckets, loadfactor)
    {
      mask := nbuckets - 1;
      growat := Percent(nbuckets, loadfactor);
      shrinkat := Percent(nbuckets, SHRINK_AT);
    }

    /** Frees every bucket. */
    method Erase()
      requires nbuckets <= buckets.Length
      modifies this`contents, buckets
      ensures contents == map[] && Good(Slots(), map[])
    {
      ZeroBuckets(buckets, nbuckets);
      contents := map[];
      EmptyTable(Slots());
    }

    /** The next occupied bucket at or after the cursor; a cursor beyond the table finds none. */
    method Iter(cursor: nat) returns (next: nat, item: Option<Item>)
      requires Valid()
      ensures cursor >= nbuckets ==> item == None && next == cursor
      ensures cursor < nbuckets ==> cursor <= next <= nbuckets
      ensures cursor < nbuckets && item == None ==> Scan(Slots(), cursor) == []
      ensures item.Some? ==>
        && cursor < next && item == Some(buckets[next - 1].item)
        && Scan(Slots(), cursor) == [buckets[next - 1]] + Scan(Slots(), next)
    {
      next := cursor;
      while next < nbuckets
        invariant cursor <= next && (cursor < nbuckets ==> next <= nbuckets)
        invariant cursor >= nbuckets ==> next == cursor
        invariant cursor < nbuckets ==> Scan(Slots(), cursor) == Scan(Slots(), next)
      {
        assert Slots()[next] == buckets[next];
        next := next + 1;
        if buckets[next - 1].dib != 0 {
          return next, Some(buckets[next - 1].item);
        }
      }
      return next, None;
    }
  }

  lemma RemovedSize(m: map<Id, Item>, id: Id)
    requires id in m
    ensures |m - {id}| == |m| - 1
  {
    assert (m - {id}).Keys == m.Keys - {id};
  }
}
