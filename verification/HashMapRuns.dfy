/** Runs of hash map operations, and the finite map they must agree with. */
module HashMapRuns {
  import opened Basics
  import opened Bits
  import opened HashMaps
  import opened Insertion
  import opened RobinHood
  import opened SetRuns

  import Floats

  /** An operation, with whether there is memory for the allocation it may make. */
  datatype Op =
    | Set(item: Item, hash: nat, memory: Memory)
    | Get(key: Key, hash: nat)
    | Delete(key: Key, hash: nat, memory: Memory)
    | Clear(update_cap: bool, granted: bool)
    | LoadFactor(factor: Floats.Number)
    | GrowByPower(power: nat)

  /** What the caller sees of an operation. */
  datatype Outcome = Returned(item: Option<Item>) | OutOfMemory | Done

  /** The finite map after an operation, given whether it ran out of memory. */
  function Effect(m: map<Id, Item>, op: Op, out: Outcome): map<Id, Item> {
    match op
    case Set(item, hash, _) => if out.OutOfMemory? then m else m[Id(ClipHash(hash), item.key) := item]
    case Delete(key, hash, _) => m - {Id(ClipHash(hash), key)}
    case Clear(_, _) => map[]
    case _ => m
  }

  /** What an operation on the finite map m may answer. */
  predicate Answers(m: map<Id, Item>, op: Op, out: Outcome) {
    match op
    case Set(item, hash, memory) =>
      (out.OutOfMemory? && !memory.Enough()) || out == Returned(Lookup(m, Id(ClipHash(hash), item.key)))
    case Get(key, hash) => out == Returned(Lookup(m, Id(ClipHash(hash), key)))
    case Delete(key, hash, _) => out == Returned(Lookup(m, Id(ClipHash(hash), key)))
    case _ => out == Done
  }

  /** The finite map after the first k operations of a run. */
  ghost function After(m: map<Id, Item>, ops: seq<Op>, outs: seq<Outcome>, k: nat): map<Id, Item>
    requires k <= |ops| && k <= |outs|
  {
    if k == 0 then m else Effect(After(m, ops, outs, k - 1), ops[k - 1], outs[k - 1])
  }

  /** Every answer of the run is the one of the finite map at that point. */
  ghost predicate Agrees(m: map<Id, Item>, ops: seq<Op>, outs: seq<Outcome>) {
    |outs| <= |ops| && forall k :: 0 <= k < |outs| ==> AnswersAt(m, ops, outs, k)
  }

  ghost predicate AnswersAt(m: map<Id, Item>, ops: seq<Op>, outs: seq<Outcome>, k: nat)
    requires k < |outs| <= |ops|
  {
    Answers(After(m, ops, outs, k), ops[k], outs[k])
  }

  lemma {:induction false} AfterExtends(m: map<Id, Item>, ops: seq<Op>, outs: seq<Outcome>,
                                        out: Outcome, k: nat)
    requires k <= |outs| <= |ops|
    ensures After(m, ops, outs + [out], k) == After(m, ops, outs, k)
  {
    if k > 0 {
      AfterExtends(m, ops, outs, out, k - 1);
    }
  }

  lemma AgreesExtends(m: map<Id, Item>, ops: seq<Op>, outs: seq<Outcome>, out: Outcome)
    requires Agrees(m, ops, outs) && |outs| < |ops|
    requires Answers(After(m, ops, outs, |outs|), ops[|outs|], out)
    ensures Agrees(m, ops, outs + [out])
    ensures After(m, ops, outs + [out], |outs| + 1) ==
            Effect(After(m, ops, outs, |outs|), ops[|outs|], out)
  {
    var outs' := outs + [out];
    AfterExtends(m, ops, outs, out, |outs|);
    forall k | 0 <= k < |outs'| ensures AnswersAt(m, ops, outs', k) {
      AfterExtends(m, ops, outs, out, k);
      assert k < |outs| ==> AnswersAt(m, ops, outs, k);
    }
  }

  /** There is room for the item of a set within the items the map can hold, or it is replaced. */
  ghost predicate HasRoom(m: map<Id, Item>, op: Op) {
    op.Set? ==> |m| < MAX_ITEMS || Id(ClipHash(op.hash), op.item.key) in m
  }

  /** The identities stored after the first k operations if no allocation fails. */
  ghost function Stored(keys: set<Id>, ops: seq<Op>, k: nat): set<Id>
    requires k <= |ops|
  {
    if k == 0 then keys
    else
      var before := Stored(keys, ops, k - 1);
      match ops[k - 1]
      case Set(item, hash, _) => before + {Id(ClipHash(hash), item.key)}
      case Delete(key, hash, _) => before - {Id(ClipHash(hash), key)}
      case Clear(_, _) => {}
      case _ => before
  }

  /** At no time are there more items than a map can hold. */
  ghost predicate FewItems(keys: set<Id>, ops: seq<Op>) {
    forall k :: 0 <= k <= |ops| ==> |Stored(keys, ops, k)| <= MAX_ITEMS
  }

  /** A failed allocation only leaves items out. */
  lemma {:induction false} AtMostStored(m: map<Id, Item>, ops: seq<Op>, outs: seq<Outcome>, k: nat)
    requires k <= |ops| && k <= |outs|
    ensures After(m, ops, outs, k).Keys <= Stored(m.Keys, ops, k)
  {
    if k > 0 {
      AtMostStored(m, ops, outs, k - 1);
    }
  }

  /** If none fails, all items are there. */
  lemma {:induction false} AllStored(m: map<Id, Item>, ops: seq<Op>, outs: seq<Outcome>, k: nat)
    requires k <= |ops| && k <= |outs| && forall j :: 0 <= j < k ==> !outs[j].OutOfMemory?
    ensures After(m, ops, outs, k).Keys == Stored(m.Keys, ops, k)
  {
    if k > 0 {
      AllStored(m, ops, outs, k - 1);
    }
  }

  /** A run that never needs more items has room at every set. */
  lemma RoomInRun(m: map<Id, Item>, ops: seq<Op>, outs: seq<Outcome>, k: nat)
    requires FewItems(m.Keys, ops) && k < |ops| && k <= |outs|
    ensures HasRoom(After(m, ops, outs, k), ops[k])
  {
    if ops[k].Set? {
      AtMostStored(m, ops, outs, k);
      RoomFor(After(m, ops, outs, k), Id(ClipHash(ops[k].hash), ops[k].item.key), Stored(m.Keys, ops, k + 1));
    }
  }

  lemma RoomFor(m: map<Id, Item>, id: Id, all: set<Id>)
    requires m.Keys <= all && id in all && |all| <= MAX_ITEMS
    ensures |m| < MAX_ITEMS || id in m
  {
    if id !in m {
      assert |m.Keys + {id}| == |m| + 1;
      SubsetSize(m.Keys + {id}, all);
    }
  }

  /** A set, and whether it ran out of memory. */
  method PerformSet(hm: HashMap, item: Item, hash: nat, memory: Memory) returns (out: Outcome)
    requires hm.Valid()
    modifies hm, hm.buckets
    ensures hm.buckets == old(hm.buckets) || fresh(hm.buckets)
    ensures hm.contents == Effect(old(hm.contents), Set(item, hash, memory), out)
    ensures HasRoom(old(hm.contents), Set(item, hash, memory)) ==>
      hm.Valid() && Answers(old(hm.contents), Set(item, hash, memory), out)
  {
    var previous;
    ghost var before;
    previous, before := hm.SetWithHash(item, hash, memory);
    out := if hm.oom then OutOfMemory else Returned(previous);
  }

  method PerformDelete(hm: HashMap, key: Key, hash: nat, memory: Memory) returns (out: Outcome)
    requires hm.Valid()
    modifies hm, hm.buckets
    ensures hm.Valid() && (hm.buckets == old(hm.buckets) || fresh(hm.buckets))
    ensures Answers(old(hm.contents), Delete(key, hash, memory), out)
    ensures hm.contents == Effect(old(hm.contents), Delete(key, hash, memory), out)
  {
    var r := hm.DeleteWithHash(key, hash, memory);
    out := Returned(r);
  }

  method PerformClear(hm: HashMap, update_cap: bool, granted: bool) returns (out: Outcome)
    requires hm.Valid()
    modifies hm, hm.buckets
    ensures hm.Valid() && (hm.buckets == old(hm.buckets) || fresh(hm.buckets))
    ensures out == Done && hm.contents == map[]
  {
    var freed := hm.Clear(update_cap, granted);
    out := Done;
  }

  /** One operation on the hash map. */
  method Perform(hm: HashMap, op: Op) returns (out: Outcome)
    requires hm.Valid()
    modifies hm, hm.buckets
    ensures hm.buckets == old(hm.buckets) || fresh(hm.buckets)
    ensures hm.contents == Effect(old(hm.contents), op, out)
    ensures HasRoom(old(hm.contents), op) ==> hm.Valid() && Answers(old(hm.contents), op, out)
  {
    match op
    case Set(item, hash, memory) =>
      out := PerformSet(hm, item, hash, memory);
    case Get(key, hash) =>
      var r := hm.GetWithHash(key, hash);
      out := Returned(r);
    case Delete(key, hash, memory) =>
      out := PerformDelete(hm, key, hash, memory);
    case Clear(update_cap, granted) =>
      out := PerformClear(hm, update_cap, granted);
    case LoadFactor(factor) =>
      hm.SetLoadFactor(factor);
      out := Done;
    case GrowByPower(power) =>
      hm.SetGrowByPower(power);
      out := Done;
  }

  /** Whether there is room for an operation. */
  method MayPerform(hm: HashMap, op: Op) returns (room: bool)
    requires hm.Valid()
    ensures room <==> HasRoom(hm.contents, op)
  {
    if !op.Set? || hm.count < MAX_ITEMS {
      return true;
    }
    var r := hm.GetWithHash(op.item.key, op.hash);
    room := r != None;
  }

  /** Any run of operations, whatever allocations fail, gives the answers of the finite map, up to the
      first set that needs more than 65535 items. There is none if the run never needs more. */
  method Run(hm: HashMap, ops: seq<Op>) returns (outs: seq<Outcome>)
    requires hm.Valid()
    modifies hm, hm.buckets
    ensures hm.Valid() && Agrees(old(hm.contents), ops, outs)
    ensures hm.contents == After(old(hm.contents), ops, outs, |outs|)
    ensures |outs| < |ops| ==> !HasRoom(hm.contents, ops[|outs|])
    ensures FewItems(old(hm.contents).Keys, ops) ==> |outs| == |ops|
    ensures hm.count == |hm.contents| && 100 * hm.count <= 95 * hm.nbuckets
  {
    outs := [];
    while |outs| < |ops|
      invariant hm.Valid() && (hm.buckets == old(hm.buckets) || fresh(hm.buckets))
      invariant |outs| <= |ops| && Agrees(old(hm.contents), ops, outs)
      invariant hm.contents == After(old(hm.contents), ops, outs, |outs|)
    {
      if FewItems(old(hm.contents).Keys, ops) {
        RoomInRun(old(hm.contents), ops, outs, |outs|);
      }
      var room := MayPerform(hm, ops[|outs|]);
      if !room {
        return;
      }
      var out := Perform(hm, ops[|outs|]);
      AgreesExtends(old(hm.contents), ops, outs, out);
      outs := outs + [out];
    }
  }

  // ---------------------------------------------------------------- one item too many

  /** Fills a new map of enough buckets with 65535 items of one hash. */
  method FillCrowd(n: nat) returns (hm: HashMap)
    requires IsPow2(n) && n >= 0x2_0000
    ensures fresh(hm) && fresh(hm.buckets) && hm.Valid() && hm.nbuckets == n
    ensures hm.count == MAX_ITEMS < hm.growat && hm.Slots() == Crowded(MAX_ITEMS, n)
  {
    var enough := Memory(true, true);
    var map0 := HashMap.New(n, enough);
    hm := map0;
    assert hm.Slots() == Crowded(0, n);
    var k := 0;
    while k < MAX_ITEMS
      invariant k <= MAX_ITEMS && fresh(hm) && fresh(hm.buckets) && hm.Valid()
      invariant hm.nbuckets == n && hm.count == k && hm.growat == Percent(n, GROW_AT)
      invariant hm.Slots() == Crowded(k, n)
    {
      CrowdGrows(k, n);
      var previous;
      ghost var before;
      previous, before := hm.SetWithHash(Item(k, []), 0, enough);
      k := k + 1;
    }
  }

  /** Another item of that hash is counted but not stored. */
  method LoseItem(n: nat) returns (hm: HashMap)
    requires IsPow2(n) && n >= 0x2_0000
    ensures fresh(hm) && hm.Sized() && !hm.oom && hm.count == MAX_ITEMS + 1
    ensures Id(0, n) in hm.contents && Absent(hm.Slots(), Id(0, n))
  {
    hm := FillCrowd(n);
    CrowdLoses(MAX_ITEMS, n);
    var previous;
    ghost var before;
    previous, before := hm.SetWithHash(Item(n, []), 0, Memory(true, true));
  }

  /** What the history of a run says about an identity: the item last set, unless it was deleted or
      the map cleared since. */
  function LastWrite(ops: seq<Op>, outs: seq<Outcome>, k: nat, id: Id): Option<Item>
    requires k <= |ops| && k <= |outs|
  {
    if k == 0 then None else
    var op, out := ops[k - 1], outs[k - 1];
    if op.Set? && out != OutOfMemory && id == Id(ClipHash(op.hash), op.item.key) then Some(op.item)
    else if op.Clear? || (op.Delete? && id == Id(ClipHash(op.hash), op.key)) then None
    else LastWrite(ops, outs, k - 1, id)
  }

  lemma {:induction false} HistoryLookup(ops: seq<Op>, outs: seq<Outcome>, k: nat, id: Id)
    requires k <= |ops| && k <= |outs|
    ensures Lookup(After(map[], ops, outs, k), id) == LastWrite(ops, outs, k, id)
  {
    if k > 0 {
      HistoryLookup(ops, outs, k - 1, id);
    }
  }

  /** In a run from an empty map every lookup, every replacement and every deletion returns the
      item last set under its hash and key. */
  lemma LastWriteWins(ops: seq<Op>, outs: seq<Outcome>, k: nat)
    requires Agrees(map[], ops, outs) && k < |outs|
    ensures ops[k].Get? ==>
      outs[k] == Returned(LastWrite(ops, outs, k, Id(ClipHash(ops[k].hash), ops[k].key)))
    ensures ops[k].Delete? ==>
      outs[k] == Returned(LastWrite(ops, outs, k, Id(ClipHash(ops[k].hash), ops[k].key)))
    ensures ops[k].Set? && outs[k] != OutOfMemory ==>
      outs[k] == Returned(LastWrite(ops, outs, k, Id(ClipHash(ops[k].hash), ops[k].item.key)))
  {
    assert AnswersAt(map[], ops, outs, k);
    match ops[k]
    case Set(item, hash, _) => HistoryLookup(ops, outs, k, Id(ClipHash(hash), item.key));
    case Get(key, hash) => HistoryLookup(ops, outs, k, Id(ClipHash(hash), key));
    case Delete(key, hash, _) => HistoryLookup(ops, outs, k, Id(ClipHash(hash), key));
    case _ =>
  }

  // ---------------------------------------------------------------- hashes computed from keys

  /** The calls that compute the hash from the key: equal keys come with equal hashes. */
  ghost predicate Hashed(ops: seq<Op>, hash: Key -> nat) {
    forall k :: 0 <= k < |ops| && ops[k].Set? ==> ops[k].hash == hash(ops[k].item.key)
  }

  /** Then the finite map stores at most one item for each key. */
  lemma {:induction false} OneItemPerKey(ops: seq<Op>, outs: seq<Outcome>, k: nat, hash: Key -> nat)
    requires Hashed(ops, hash) && k <= |ops| && k <= |outs|
    ensures forall id :: id in After(map[], ops, outs, k) ==> id == Id(ClipHash(hash(id.key)), id.key)
    ensures forall id :: id in After(map[], ops, outs, k) ==> After(map[], ops, outs, k)[id].key == id.key
  {
    if k > 0 {
      OneItemPerKey(ops, outs, k - 1, hash);
    }
  }
}
