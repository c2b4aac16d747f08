/** What clipped hashes and whole thresholds mean: 48 bits are kept, and the thresholds are those of
    the program's doubles. */
module HashMapLaws {
  import opened Basics
  import opened Bits
  import opened HashMaps
  import opened HashMapRuns
  import opened Insertion
  import opened RobinHood

  import Doubles
  import LoadFactors

  // ---------------------------------------------------------------- 48 bits

  lemma SixteenTimes(n: nat)
    requires IsPow2(n)
    ensures IsPow2(16 * n)
  {
    DoubleOfPow2(n);
    DoubleOfPow2(2 * n);
    DoubleOfPow2(4 * n);
    DoubleOfPow2(8 * n);
  }

  lemma Is48Bits()
    ensures IsPow2(0x1_0000_0000_0000)
  {
    SixteenTimes(1);
    SixteenTimes(0x10);
    SixteenTimes(0x100);
    SixteenTimes(0x1000);
    SixteenTimes(0x1_0000);
    SixteenTimes(0x10_0000);
    SixteenTimes(0x100_0000);
    SixteenTimes(0x1000_0000);
    SixteenTimes(0x1_0000_0000);
    SixteenTimes(0x10_0000_0000);
    SixteenTimes(0x100_0000_0000);
    SixteenTimes(0x1000_0000_0000);
  }

  lemma Below(h: nat, n: nat)
    requires h < n
    ensures h % n == h
  {
  }

  /** Clipping keeps the low 48 bits of a hash. */
  lemma ClipIsMask(h: nat)
    ensures ClipHash(h) == And(h, 0xFFFF_FFFF_FFFF)
    ensures h < 0x1_0000_0000_0000 ==> ClipHash(h) == h
  {
    Is48Bits();
    MaskIsRemainder(h, 0x1_0000_0000_0000);
    if h < 0x1_0000_0000_0000 {
      Below(h, 0x1_0000_0000_0000);
    }
  }

  // ---------------------------------------------------------------- whose items are told apart

  /** The caller names the same item. */
  predicate Same(key: Key, h: nat, key': Key, h': nat) {
    key == key' && And(h, 0xFFFF_FFFF_FFFF) == And(h', 0xFFFF_FFFF_FFFF)
  }

  /** After a set, a get returns the item if it names it, and otherwise what it returned before. */
  lemma GetAfterSet(m: map<Id, Item>, item: Item, h: nat, memory: Memory, out: Outcome,
                    key: Key, h': nat, r: Outcome)
    requires out != OutOfMemory
    ensures Answers(Effect(m, Set(item, h, memory), out), Get(key, h'), r) <==>
      if Same(item.key, h, key, h') then r == Returned(Some(item)) else Answers(m, Get(key, h'), r)
  {
    ClipIsMask(h);
    ClipIsMask(h');
  }

  /** After a deletion, a get returns nothing if it names the item, and otherwise what it returned before. */
  lemma GetAfterDelete(m: map<Id, Item>, key0: Key, h: nat, memory: Memory, out: Outcome,
                       key: Key, h': nat, r: Outcome)
    ensures Answers(Effect(m, Delete(key0, h, memory), out), Get(key, h'), r) <==>
      if Same(key0, h, key, h') then r == Returned(None) else Answers(m, Get(key, h'), r)
  {
    ClipIsMask(h);
    ClipIsMask(h');
  }

  /** Hashes below 2^48 are told apart, whatever the keys. */
  lemma HashesDiffer(key: Key, h: nat, key': Key, h': nat)
    requires h < 0x1_0000_0000_0000 && h' < 0x1_0000_0000_0000 && h != h'
    ensures !Same(key, h, key', h')
  {
    ClipIsMask(h);
    ClipIsMask(h');
  }

  /** On the hash map itself: a set under another hash leaves what a get returns, whatever the keys. */
  method OtherSetStays(hm: HashMap, key: Key, h: nat, item: Item, h': nat, memory: Memory)
    returns (first: Option<Item>, second: Option<Item>)
    requires hm.Valid() && |hm.contents| < 65535
    requires h < 0x1_0000_0000_0000 && h' < 0x1_0000_0000_0000 && h != h'
    modifies hm, hm.buckets
    ensures first == second
  {
    ClipIsMask(h);
    ClipIsMask(h');
    first := hm.GetWithHash(key, h);
    var out := PerformSet(hm, item, h', memory);
    second := hm.GetWithHash(key, h);
  }

  /** So does a deletion. */
  method OtherDeleteStays(hm: HashMap, key: Key, h: nat, key': Key, h': nat, memory: Memory)
    returns (first: Option<Item>, second: Option<Item>)
    requires hm.Valid() && h < 0x1_0000_0000_0000 && h' < 0x1_0000_0000_0000 && h != h'
    modifies hm, hm.buckets
    ensures first == second
  {
    ClipIsMask(h);
    ClipIsMask(h');
    first := hm.GetWithHash(key, h);
    var deleted := hm.DeleteWithHash(key', h', memory);
    second := hm.GetWithHash(key, h);
  }

  /** Two items with one key and different hashes below 2^48 are both stored. */
  method BothStored(a: Item, b: Item, h: nat, h': nat)
    returns (replaced: Option<Item>, first: Option<Item>, second: Option<Item>)
    requires h < 0x1_0000_0000_0000 && h' < 0x1_0000_0000_0000 && h != h'
    ensures replaced == None && first == Some(a) && second == Some(b)
  {
    ClipIsMask(h);
    ClipIsMask(h');
    var enough := Memory(true, true);
    var hm := HashMap.New(0, enough);
    var out := PerformSet(hm, a, h, enough);
    out := PerformSet(hm, b, h', enough);
    replaced := out.item;
    first := hm.GetWithHash(a.key, h);
    second := hm.GetWithHash(b.key, h');
  }

  // ---------------------------------------------------------------- thresholds

  lemma LargestIs()
    ensures LoadFactors.LARGEST == 0x4000_0000_0000
  {
    assert Pow2(2) == 4;
    SixteenTimesPow2(2);
    SixteenTimesPow2(6);
    SixteenTimesPow2(10);
    SixteenTimesPow2(14);
    SixteenTimesPow2(18);
    SixteenTimesPow2(22);
    SixteenTimesPow2(26);
    SixteenTimesPow2(30);
    SixteenTimesPow2(34);
    SixteenTimesPow2(38);
    SixteenTimesPow2(42);
  }

  /** The thresholds of a table are the products of its size and the factor in doubles. */
  lemma PercentIsThreshold(n: nat, pct: nat)
    requires IsPow2(n) && 4 <= n <= 0x4000_0000_0000 && 1 <= pct <= 95
    ensures Percent(n, pct) == LoadFactors.Threshold(n, pct)
  {
    LargestIs();
    LoadFactors.ThresholdIsPercent(n, pct);
  }

  /** New and resized tables have the default factor of 0.60. */
  lemma GrowAtIsDefault()
    ensures GROW_AT == LoadFactors.Percent(Doubles.Rounded(0.6))
  {
    LoadFactors.DefaultPercent();
  }

  /** The fields of a map: it shrinks at 0.10 of its size, and grows at 0.60 or at its own factor. */
  lemma ThresholdsOf(hm: HashMap)
    requires hm.Valid() && hm.nbuckets <= 0x4000_0000_0000
    ensures hm.shrinkat == LoadFactors.Threshold(hm.nbuckets, 10)
    ensures hm.growat == LoadFactors.Threshold(hm.nbuckets, 60)
         || hm.growat == LoadFactors.Threshold(hm.nbuckets, hm.loadfactor)
  {
    PercentIsThreshold(hm.nbuckets, 10);
    PercentIsThreshold(hm.nbuckets, 60);
    PercentIsThreshold(hm.nbuckets, hm.loadfactor);
  }
}
