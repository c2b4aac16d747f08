/** Sets one after the other in an empty table, and how many of them work whatever the items. */
module SetRuns {
  import opened Basics
  import opened Bits
  import opened Insertion
  import opened RobinHood

  /** The table after setting items in turn. */
  function SetAll(s: Table, es: seq<Bucket>): (r: Table)
    ensures |r| == |s|
  {
    if es == [] then s else SetIn(SetAll(s, es[..|es| - 1]), es[|es| - 1]).table
  }

  /** The finite map after setting items in turn. */
  function MapOf(es: seq<Bucket>): map<Id, Item> {
    if es == [] then map[] else MapOf(es[..|es| - 1])[IdOf(es[|es| - 1]) := es[|es| - 1].item]
  }

  lemma SetAllMore(s: Table, es: seq<Bucket>, e: Bucket)
    ensures SetAll(s, es + [e]) == SetIn(SetAll(s, es), e).table
    ensures MapOf(es + [e]) == MapOf(es)[IdOf(e) := e.item]
  {
    assert (es + [e])[..|es|] == es;
  }

  /** The buckets of a new table. */
  function Zeroed(n: nat): Table {
    seq(n, _ => ZERO_BUCKET)
  }

  /** Entries of different items, as a set starts with them. */
  ghost predicate NewItems(es: seq<Bucket>) {
    && (forall i :: 0 <= i < |es| ==> es[i].dib == 1)
    && forall i, j :: 0 <= i < j < |es| ==> IdOf(es[i]) != IdOf(es[j])
  }

  /** A new table of n buckets holds the items that were set. */
  ghost predicate Keeps(es: seq<Bucket>, n: nat) {
    Good(SetAll(Zeroed(n), es), MapOf(es))
  }

  lemma {:induction false} MapSize(es: seq<Bucket>)
    ensures |MapOf(es)| <= |es|
  {
    if es != [] {
      var m, e := MapOf(es[..|es| - 1]), es[|es| - 1];
      MapSize(es[..|es| - 1]);
      assert m[IdOf(e) := e.item].Keys == m.Keys + {IdOf(e)};
    }
  }

  /** Few enough sets are all kept. */
  lemma {:induction false} FewAreKept(es: seq<Bucket>, n: nat)
    requires |es| <= MAX_ITEMS && |es| < n && forall i :: 0 <= i < |es| ==> es[i].dib == 1
    ensures Keeps(es, n)
  {
    if es == [] {
      EmptyTable(Zeroed(n));
    } else {
      var before, e := es[..|es| - 1], es[|es| - 1];
      FewAreKept(before, n);
      MapSize(before);
      var s := SetAll(Zeroed(n), before);
      var f, g := TwoFreeBuckets(s);
      InsertSets(s, MapOf(before), e, f, g);
      SetInIs(s, e, f);
    }
  }

  // ---------------------------------------------------------------- the run that fails

  /** The k-th item of the crowd. */
  function CrowdEntry(k: nat): Bucket {
    if k < MAX_ITEMS then Bucket(0, 1, Item(k, [])) else Bucket(k + 1, 1, Item(k + 1, []))
  }

  function CrowdRun(c: nat): seq<Bucket> {
    seq(c, k requires 0 <= k < c => CrowdEntry(k))
  }

  /** An item with the hash of all before it goes past them. */
  lemma {:induction false} PassesCrowd(c: nat, n: nat, k: nat, f: nat)
    requires k <= c < MAX_ITEMS && c + 1 < f < n
    ensures Crowded(c, n)[f].dib == 0
    ensures Insert(Crowded(c, n), Bucket(0, k + 1, Item(c, [])), k, f, true)
         == Inserted(Crowded(c, n)[c := Bucket(0, c + 1, Item(c, []))], None, Bucket(0, c + 1, Item(c, [])))
    decreases c - k
  {
    if k < c {
      PassesCrowd(c, n, k + 1, f);
    }
  }

  /** The next item of the crowd is new, and makes it larger by one. */
  lemma CrowdGrows(c: nat, n: nat)
    requires IsPow2(n) && c + 2 < n
    ensures var r := SetIn(Crowded(c, n), CrowdEntry(c)); r.table == Crowded(c + 1, n) && r.previous == None
  {
    var s, e := Crowded(c, n), CrowdEntry(c);
    SetInIs(s, e, c + 2);
    HomeOfSmall(e.hash, n);
    if c < MAX_ITEMS {
      PassesCrowd(c, n, 0, c + 2);
      assert s[c := Bucket(0, c + 1, Item(c, []))] == Crowded(c + 1, n);
    } else {
      InsertFree(s, e, c + 1, c + 2, true);
      assert s[c + 1 := e] == Crowded(c + 1, n);
    }
  }

  /** Setting the items of the crowd in a new table leaves the crowded table. */
  lemma {:induction false} CrowdIsRun(c: nat, n: nat)
    requires IsPow2(n) && c + 2 < n
    ensures SetAll(Zeroed(n), CrowdRun(c)) == Crowded(c, n)
  {
    if c == 0 {
      assert Zeroed(n) == Crowded(0, n);
    } else {
      CrowdIsRun(c - 1, n);
      CrowdGrows(c - 1, n);
      assert CrowdRun(c) == CrowdRun(c - 1) + [CrowdEntry(c - 1)];
      SetAllMore(Zeroed(n), CrowdRun(c - 1), CrowdEntry(c - 1));
    }
  }

  /** After the crowd one more item of its hash is not stored. */
  lemma CrowdLoses(c: nat, n: nat)
    requires c >= MAX_ITEMS && IsPow2(n) && c + 2 < n
    ensures Absent(SetIn(Crowded(c, n), Newcomer(n, 0)).table, Id(0, n))
    ensures SetIn(Crowded(c, n), Newcomer(n, 0)).previous == None
  {
    NewcomerIsLost(c, n, true);
    SetInIs(Crowded(c, n), Newcomer(n, 0), MAX_ITEMS);
    NewcomerIsNew(c, n, 0);
    HomeOfSmall(0, n);
  }

  lemma {:induction false} NewcomerIsNew(c: nat, n: nat, k: nat)
    requires c >= MAX_ITEMS && n > c + 1 && k <= MAX_ITEMS
    ensures Crowded(c, n)[MAX_ITEMS].dib == 0
    ensures Insert(Crowded(c, n), Newcomer(n, k), k, MAX_ITEMS, true).previous == None
    decreases MAX_ITEMS - k
  {
    if k < MAX_ITEMS {
      NewcomerIsNew(c, n, k + 1);
    }
  }

  lemma CrowdRunFails(c: nat, n: nat)
    requires c >= MAX_ITEMS && IsPow2(n) && c + 2 < n
    ensures var es := CrowdRun(c) + [Newcomer(n, 0)]; NewItems(es) && !Keeps(es, n)
  {
    var es, e := CrowdRun(c), Newcomer(n, 0);
    CrowdIsRun(c, n);
    CrowdLoses(c, n);
    SetAllMore(Zeroed(n), es, e);
    NotStoring(SetAll(Zeroed(n), es + [e]), MapOf(es + [e]), Id(0, n));
  }

  /** All sets of so many different items in every new table with room for them are kept if and only if
      there are at most 65535 of them. */
  lemma SafeRuns(m: nat)
    ensures m <= 65535 <==>
      forall es, n :: |es| == m && NewItems(es) && IsPow2(n) && m + 1 < n ==> Keeps(es, n)
  {
    if m <= MAX_ITEMS {
      forall es, n | |es| == m && NewItems(es) && IsPow2(n) && m + 1 < n ensures Keeps(es, n) {
        FewAreKept(es, n);
      }
    } else {
      var n := BigPow2(m + 2);
      CrowdRunFails(m - 1, n);
    }
  }
}
