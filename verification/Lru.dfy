/** The process-local store: an LRU with whole-millisecond expiry checked on read. */
module Lru {
  import opened Base

  const MAX_TTL_SEC := 31536000

  /** One stored value; the store keeps items from least to most recently touched. */
  datatype Item<V> = Item(key: string, value: V, expires: int)

  type Items<V> = seq<Item<V>>

  function Find<V>(s: Items<V>, key: string): (r: Option<Item<V>>)
    ensures r.Some? ==> r.value.key == key
  {
    if s == [] then None else if s[0].key == key then Some(s[0]) else Find(s[1..], key)
  }

  function Remove<V>(s: Items<V>, key: string): Items<V> {
    if s == [] then [] else if s[0].key == key then Remove(s[1..], key) else [s[0]] + Remove(s[1..], key)
  }

  predicate Distinct<V>(s: Items<V>) {
    s == [] || (Find(s[1..], s[0].key).None? && Distinct(s[1..]))
  }

  // ---------------------------------------------------------- one step, as values

  /** A read drops an expired item and otherwise promotes it unchanged. */
  function AfterGet<V>(s: Items<V>, key: string, now: real): Items<V> {
    var found := Find(s, key);
    if found.None? then s
    else if now.Floor >= found.value.expires then Remove(s, key)
    else Remove(s, key) + [found.value]
  }

  function Got<V>(s: Items<V>, key: string, now: real): Option<V> {
    var found := Find(s, key);
    if found.None? || now.Floor >= found.value.expires then None else Some(found.value.value)
  }

  predicate ValidTtl(ttlSec: int) {
    1 <= ttlSec <= MAX_TTL_SEC
  }

  function Evicted<V>(s: Items<V>, max: nat): Items<V> {
    if |s| > max then Evicted(s[1..], max) else s
  }

  function AfterPut<V>(s: Items<V>, max: nat, key: string, value: V, ttlSec: int, now: real): Items<V> {
    if max == 0 || !ValidTtl(ttlSec) then s
    else Evicted(Remove(s, key) + [Item(key, value, now.Floor + ttlSec * 1000)], max)
  }

  // ------------------------------------------------------------------- the store

  class LocalCache<V> {
    const maxSize: nat
    var entries: Items<V>

    ghost predicate Valid()
      reads this
    {
      Distinct(entries) && |entries| <= maxSize
    }

    constructor (maxSize: nat)
      ensures Valid() && this.maxSize == maxSize && entries == []
    {
      this.maxSize := maxSize;
      entries := [];
    }

    method Get(key: string, now: real) returns (value: Option<V>)
      requires Valid()
      modifies this
      ensures Valid()
      ensures value == Got(old(entries), key, now)
      ensures entries == AfterGet(old(entries), key, now)
    {
      hide Find, Remove, Distinct;
      RemoveFacts(entries, key);
      var entry := Find(entries, key);
      if entry.None? {
        return None;
      }
      if now.Floor >= entry.value.expires {
        entries := Remove(entries, key);
        return None;
      }
      AppendFacts(Remove(entries, key), entry.value);
      entries := Remove(entries, key) + [entry.value];
      return Some(entry.value.value);
    }

    /** False when the TTL is refused; a store without room accepts nothing and checks nothing. */
    method Put(key: string, value: V, ttlSec: int, now: real) returns (accepted: bool)
      requires Valid()
      modifies this
      ensures Valid()
      ensures accepted <==> maxSize == 0 || 1 <= ttlSec <= 31536000
      ensures !accepted ==> entries == old(entries)
      ensures entries == AfterPut(old(entries), maxSize, key, value, ttlSec, now)
    {
      hide Find, Remove;
      if maxSize == 0 {
        return true;
      }
      if !ValidTtl(ttlSec) {
        return false;
      }
      var item := Item(key, value, now.Floor + ttlSec * 1000);
      RemoveFacts(entries, key);
      AppendFacts(Remove(entries, key), item);
      entries := Remove(entries, key) + [item];
      ghost var full := entries;
      while |entries| > maxSize
        invariant Distinct(entries)
        invariant Evicted(entries, maxSize) == Evicted(full, maxSize)
        decreases |entries|
      {
        entries := entries[1..];
      }
      return true;
    }
  }

  lemma {:induction false} RemoveFacts<V>(s: Items<V>, key: string)
    requires Distinct(s)
    ensures Distinct(Remove(s, key)) && Find(Remove(s, key), key).None?
    ensures |Remove(s, key)| == |s| - (if Find(s, key).Some? then 1 else 0)
    ensures Find(s, key).None? ==> Remove(s, key) == s
  {
    if s != [] {
      RemoveFacts(s[1..], key);
      FindRemove(s[1..], key, s[0].key);
    }
  }

  lemma {:induction false} FindRemove<V>(s: Items<V>, key: string, other: string)
    ensures Find(Remove(s, key), other) == if other == key then None else Find(s, other)
  {
    if s != [] {
      FindRemove(s[1..], key, other);
    }
  }

  lemma {:induction false} FindAppend<V>(s: Items<V>, item: Item<V>, other: string)
    ensures Find(s + [item], other) ==
              if Find(s, other).Some? then Find(s, other) else if item.key == other then Some(item) else None
  {
    if s == [] {
      assert s + [item] == [item];
    } else {
      FindAppend(s[1..], item, other);
      assert (s + [item])[1..] == s[1..] + [item];
    }
  }

  lemma {:induction false} AppendFacts<V>(s: Items<V>, item: Item<V>)
    requires Distinct(s) && Find(s, item.key).None?
    ensures Distinct(s + [item])
  {
    if s == [] {
      assert s + [item] == [item];
    } else {
      AppendFacts(s[1..], item);
      assert (s + [item])[1..] == s[1..] + [item];
      FindAppend(s[1..], item, s[0].key);
    }
  }

  // ------------------------------------------------------------------------ runs

  datatype Op<V> =
    | Get(key: string, now: real)
    | Put(key: string, value: V, ttlSec: int, now: real)
  {
    predicate Stores(max: nat) {
      Put? && max > 0 && ValidTtl(ttlSec)
    }

    function Stored(): Item<V>
      requires Put?
    {
      Item(key, value, now.Floor + ttlSec * 1000)
    }
  }

  function Apply<V>(s: Items<V>, max: nat, op: Op<V>): Items<V> {
    match op
    case Get(key, now) => AfterGet(s, key, now)
    case Put(key, value, ttlSec, now) => AfterPut(s, max, key, value, ttlSec, now)
  }

  function Run<V>(max: nat, ops: seq<Op<V>>): Items<V> {
    if ops == [] then [] else Apply(Run(max, ops[..|ops| - 1]), max, ops[|ops| - 1])
  }

  /** One stored item more than fits: exactly the first one goes. */
  lemma EvictOne<V>(s: Items<V>, max: nat)
    requires Distinct(s) && |s| <= max + 1
    ensures Evicted(s, max) == if |s| == max + 1 then s[1..] else s
    ensures Distinct(Evicted(s, max))
  {
    if |s| == max + 1 {
      assert Evicted(s[1..], max) == s[1..];
    }
  }

  lemma ApplyValid<V>(s: Items<V>, max: nat, op: Op<V>)
    requires Distinct(s) && |s| <= max
    ensures Distinct(Apply(s, max, op)) && |Apply(s, max, op)| <= max
    ensures op.Stores(max) ==>
              var stored := Remove(s, op.key) + [op.Stored()];
              Distinct(stored) && |stored| <= max + 1 && Apply(s, max, op) == Evicted(stored, max)
  {
    hide Find, Remove, Distinct, Evicted;
    RemoveFacts(s, op.key);
    if op.Stores(max) {
      AppendFacts(Remove(s, op.key), op.Stored());
      EvictOne(Remove(s, op.key) + [op.Stored()], max);
    } else if op.Get? && Find(s, op.key).Some? {
      AppendFacts(Remove(s, op.key), Find(s, op.key).value);
    }
  }

  /** A run never holds a key twice nor more than its capacity. */
  lemma {:induction false} RunValid<V>(max: nat, ops: seq<Op<V>>)
    ensures Distinct(Run(max, ops)) && |Run(max, ops)| <= max
  {
    hide Distinct, Apply;
    if ops == [] {
      NothingDistinct<V>();
    } else {
      RunValid(max, ops[..|ops| - 1]);
      ApplyValid(Run(max, ops[..|ops| - 1]), max, ops[|ops| - 1]);
    }
  }

  lemma NothingDistinct<V>()
    ensures Distinct<V>([])
  {
  }

  // ------------------------------------------------- a hit is the latest fresh put

  /** Index of the latest accepted put of a key, -1 when there is none. */
  function LatestPut<V>(ops: seq<Op<V>>, key: string): (i: int)
    ensures -1 <= i < |ops|
    ensures i >= 0 ==> ops[i].Put? && ops[i].key == key && ValidTtl(ops[i].ttlSec)
    ensures forall j :: i < j < |ops| ==> !(ops[j].Put? && ops[j].key == key && ValidTtl(ops[j].ttlSec))
  {
    if ops == [] then -1
    else
      var n := |ops| - 1;
      if ops[n].Put? && ops[n].key == key && ValidTtl(ops[n].ttlSec) then n else LatestPut(ops[..n], key)
  }

  /** What one operation leaves under a key: the old item, the stored one, or nothing. */
  lemma FindAfter<V>(s: Items<V>, max: nat, op: Op<V>, key: string)
    requires Distinct(s) && |s| <= max
    ensures var found := Find(Apply(s, max, op), key);
            || found.None?
            || (op.Stores(max) && op.key == key && found == Some(op.Stored()))
            || (!(op.Stores(max) && op.key == key) && found == Find(s, key))
  {
    hide Find, Remove, Distinct, Evicted;
    FindRemove(s, op.key, key);
    if op.Stores(max) {
      var stored := Remove(s, op.key) + [op.Stored()];
      ApplyValid(s, max, op);
      EvictOne(stored, max);
      FindAppend(Remove(s, op.key), op.Stored(), key);
      FindInTail(stored, key);
    } else if op.Get? && Find(s, op.key).Some? {
      FindAppend(Remove(s, op.key), Find(s, op.key).value, key);
    }
  }

  lemma FindInTail<V>(s: Items<V>, key: string)
    requires Distinct(s) && s != []
    ensures Find(s[1..], key).None? || Find(s[1..], key) == Find(s, key)
  {
  }

  /** Every stored item is its key's latest put, with that put's expiry. */
  lemma {:induction false} StoredIsLatestPut<V>(max: nat, ops: seq<Op<V>>, key: string)
    requires Find(Run(max, ops), key).Some?
    ensures LatestPut(ops, key) >= 0
    ensures Find(Run(max, ops), key) == Some(ops[LatestPut(ops, key)].Stored())
  {
    hide Find, Apply, Distinct;
    if ops == [] {
      FindNothing<V>(key);
    } else {
      var n := |ops| - 1;
      RunValid(max, ops[..n]);
      FindAfter(Run(max, ops[..n]), max, ops[n], key);
      if !(ops[n].Stores(max) && ops[n].key == key) {
        StoredIsLatestPut(max, ops[..n], key);
        RunValid(max, ops[..n]);
        HoldsNothing(max, ops[..n], key);
      }
    }
  }

  lemma FindNothing<V>(key: string)
    ensures Find<V>([], key).None?
  {
  }

  lemma HoldsNothing<V>(max: nat, ops: seq<Op<V>>, key: string)
    ensures Find(Run(max, ops), key).Some? ==> max > 0
  {
    RunValid(max, ops);
  }

  /** A hit returns the latest put of its key, strictly before that put's whole-ms expiry. */
  lemma HitIsLatestFreshPut<V>(max: nat, ops: seq<Op<V>>, key: string, now: real)
    requires Got(Run(max, ops), key, now).Some?
    ensures var i := LatestPut(ops, key);
            && i >= 0
            && Got(Run(max, ops), key, now) == Some(ops[i].value)
            && now.Floor < ops[i].now.Floor + ops[i].ttlSec * 1000
  {
    StoredIsLatestPut(max, ops, key);
  }

  // ----------------------------------------- with room for all, the history decides

  /** What a plain put history answers: the latest put while it is fresh. */
  function HistoryGet<V>(ops: seq<Op<V>>, key: string, now: real): Option<V> {
    var i := LatestPut(ops, key);
    if i < 0 || now.Floor >= ops[i].now.Floor + 1000 * ops[i].ttlSec then None else Some(ops[i].value)
  }

  predicate ClockAdvances<V>(ops: seq<Op<V>>, now: real) {
    ops == [] || (ops[|ops| - 1].now <= now && ClockAdvances(ops[..|ops| - 1], ops[|ops| - 1].now))
  }

  function PutKeys<V>(ops: seq<Op<V>>): set<string> {
    set i | 0 <= i < |ops| && ops[i].Put? :: ops[i].key
  }

  lemma {:induction false} FindMember<V>(s: Items<V>, i: nat)
    requires i < |s|
    ensures Find(s, s[i].key).Some?
    decreases |s|
  {
    if s[0].key != s[i].key {
      FindMember(s[1..], i - 1);
    }
  }

  lemma {:induction false} DistinctSize<V>(s: Items<V>, keys: set<string>)
    requires Distinct(s) && forall i :: 0 <= i < |s| ==> s[i].key in keys
    ensures |s| <= |keys|
    decreases |s|
  {
    if s != [] {
      var rest := s[1..];
      forall i | 0 <= i < |rest| ensures rest[i].key in keys - {s[0].key} {
        FindMember(rest, i);
        assert rest[i] == s[i + 1];
      }
      DistinctSize(rest, keys - {s[0].key});
    }
  }

  /** As many places as keys ever put: storing one of them evicts nothing. */
  lemma RoomToStore<V>(max: nat, ops: seq<Op<V>>, key: string, keys: set<string>)
    requires PutKeys(ops) <= keys && key in keys && |keys| <= max
    ensures |Remove(Run(max, ops), key)| < max
  {
    var s := Run(max, ops);
    var rest := Remove(s, key);
    RunValid(max, ops);
    RemoveFacts(s, key);
    hide Run, Find, Remove, Distinct;
    forall i | 0 <= i < |rest| ensures rest[i].key in keys - {key} {
      FindMember(rest, i);
      FindRemove(s, key, rest[i].key);
      StoredIsLatestPut(max, ops, rest[i].key);
    }
    DistinctSize(rest, keys - {key});
  }

  /** Without eviction, only the reader who finds an item expired removes it. */
  lemma FindKept<V>(s: Items<V>, max: nat, op: Op<V>, key: string)
    requires Distinct(s) && |s| <= max && (op.Stores(max) ==> |Remove(s, op.key)| < max)
    ensures op.Stores(max) && op.key == key ==> Find(Apply(s, max, op), key) == Some(op.Stored())
    ensures !(op.Stores(max) && op.key == key) && Find(s, key).Some? ==>
              || Find(Apply(s, max, op), key) == Find(s, key)
              || op.now.Floor >= Find(s, key).value.expires
  {
    hide Find, Remove, Distinct, Evicted;
    FindRemove(s, op.key, key);
    RemoveFacts(s, op.key);
    if op.Stores(max) {
      ApplyValid(s, max, op);
      EvictOne(Remove(s, op.key) + [op.Stored()], max);
      FindAppend(Remove(s, op.key), op.Stored(), key);
    } else if op.Get? && Find(s, op.key).Some? {
      FindAppend(Remove(s, op.key), Find(s, op.key).value, key);
    }
  }

  lemma FewerKeys<V>(ops: seq<Op<V>>)
    requires ops != []
    ensures PutKeys(ops[..|ops| - 1]) <= PutKeys(ops) && |PutKeys(ops[..|ops| - 1])| <= |PutKeys(ops)|
    ensures ops[|ops| - 1].Put? ==> ops[|ops| - 1].key in PutKeys(ops)
  {
    var fewer, all := PutKeys(ops[..|ops| - 1]), PutKeys(ops);
    assert fewer <= all;
    assert all == fewer + (all - fewer);
  }

  lemma {:induction false} KeptUnlessExpired<V>(max: nat, ops: seq<Op<V>>, key: string, now: real)
    requires |PutKeys(ops)| <= max && ClockAdvances(ops, now) && LatestPut(ops, key) >= 0
    ensures Find(Run(max, ops), key).Some? || now.Floor >= ops[LatestPut(ops, key)].Stored().expires
  {
    hide Find, Apply, Distinct, PutKeys;
    var n := |ops| - 1;
    var op := ops[n];
    FewerKeys(ops);
    RunValid(max, ops[..n]);
    if op.Stores(max) {
      RoomToStore(max, ops[..n], op.key, PutKeys(ops));
    }
    FindKept(Run(max, ops[..n]), max, op, key);
    if !(op.Stores(max) && op.key == key) {
      KeptUnlessExpired(max, ops[..n], key, op.now);
      if Find(Run(max, ops[..n]), key).Some? {
        StoredIsLatestPut(max, ops[..n], key);
      }
    }
  }

  /** A store with a place for every key put answers exactly like the put history. */
  lemma RoomyStoreIsHistory<V>(max: nat, ops: seq<Op<V>>, key: string, now: real)
    requires |PutKeys(ops)| <= max && ClockAdvances(ops, now)
    ensures Got(Run(max, ops), key, now) == HistoryGet(ops, key, now)
  {
    if LatestPut(ops, key) >= 0 {
      KeptUnlessExpired(max, ops, key, now);
    }
    if Find(Run(max, ops), key).Some? {
      StoredIsLatestPut(max, ops, key);
    }
  }

  // --------------------------------------------------------- recency and eviction

  /** The operation stores the key or reads it fresh. */
  predicate Touches<V>(before: Items<V>, max: nat, op: Op<V>) {
    if op.Get? then Got(before, op.key, op.now).Some? else op.Stores(max)
  }

  function LastTouch<V>(max: nat, ops: seq<Op<V>>, key: string): (t: int)
    ensures t < |ops|
  {
    if ops == [] then -1
    else
      var n := |ops| - 1;
      if ops[n].key == key && Touches(Run(max, ops[..n]), max, ops[n]) then n else LastTouch(max, ops[..n], key)
  }

  /** Items in strictly ascending order of last touch, all after `low`. */
  predicate TouchOrder<V>(s: Items<V>, max: nat, ops: seq<Op<V>>, low: int) {
    s == [] || (low < LastTouch(max, ops, s[0].key) && TouchOrder(s[1..], max, ops, LastTouch(max, ops, s[0].key)))
  }

  lemma {:induction false} TouchOrderLower<V>(s: Items<V>, max: nat, ops: seq<Op<V>>, low: int, lower: int)
    requires TouchOrder(s, max, ops, low) && lower <= low
    ensures TouchOrder(s, max, ops, lower)
  {
  }

  /** An operation leaves the other keys' touches alone. */
  lemma {:induction false} OthersInOrder<V>(s: Items<V>, max: nat, ops: seq<Op<V>>, low: int)
    requires ops != [] && TouchOrder(s, max, ops[..|ops| - 1], low)
    ensures TouchOrder(Remove(s, ops[|ops| - 1].key), max, ops, low)
    decreases |s|
  {
    if s != [] {
      var n := |ops| - 1;
      var t := LastTouch(max, ops[..n], s[0].key);
      OthersInOrder(s[1..], max, ops, t);
      if s[0].key == ops[n].key {
        TouchOrderLower(Remove(s[1..], ops[n].key), max, ops, t, low);
      }
    }
  }

  /** The touched item goes last. */
  lemma {:induction false} TouchedGoesLast<V>(s: Items<V>, item: Item<V>, max: nat, ops: seq<Op<V>>, low: int)
    requires ops != [] && TouchOrder(s, max, ops[..|ops| - 1], low) && low < |ops| - 1
    requires item.key == ops[|ops| - 1].key && LastTouch(max, ops, item.key) == |ops| - 1
    ensures TouchOrder(Remove(s, item.key) + [item], max, ops, low)
    decreases |s|
  {
    if s == [] {
      assert Remove(s, item.key) + [item] == [item];
    } else {
      var n := |ops| - 1;
      var t := LastTouch(max, ops[..n], s[0].key);
      TouchedGoesLast(s[1..], item, max, ops, t);
      var rest := Remove(s[1..], item.key) + [item];
      if s[0].key == item.key {
        TouchOrderLower(rest, max, ops, t, low);
      } else {
        assert (Remove(s, item.key) + [item])[1..] == rest;
      }
    }
  }

  /** When the operation touched nothing, no last touch moved. */
  lemma {:induction false} UntouchedOrder<V>(s: Items<V>, max: nat, ops: seq<Op<V>>, low: int)
    requires ops != [] && TouchOrder(s, max, ops[..|ops| - 1], low)
    requires !Touches(Run(max, ops[..|ops| - 1]), max, ops[|ops| - 1])
    ensures TouchOrder(s, max, ops, low)
    decreases |s|
  {
    if s != [] {
      UntouchedOrder(s[1..], max, ops, LastTouch(max, ops[..|ops| - 1], s[0].key));
    }
  }

  /** The store is ordered by last touch, so what is evicted was touched longest ago. */
  lemma {:induction false} StoreInTouchOrder<V>(max: nat, ops: seq<Op<V>>)
    ensures TouchOrder(Run(max, ops), max, ops, -1)
  {
    if ops != [] {
      var n := |ops| - 1;
      var before, op := Run(max, ops[..n]), ops[n];
      StoreInTouchOrder(max, ops[..n]);
      RunValid(max, ops[..n]);
      hide Find, Remove, Evicted, Run, Distinct;
      if op.Stores(max) {
        var stored := Remove(before, op.key) + [op.Stored()];
        ApplyValid(before, max, op);
        EvictOne(stored, max);
        TouchedGoesLast(before, op.Stored(), max, ops, -1);
        if |stored| == max + 1 {
          TouchOrderLower(stored[1..], max, ops, LastTouch(max, ops, stored[0].key), -1);
        }
      } else if Touches(before, max, op) {
        TouchedGoesLast(before, Find(before, op.key).value, max, ops, -1);
      } else if op.Get? && Find(before, op.key).Some? {
        OthersInOrder(before, max, ops, -1);
      } else {
        UntouchedOrder(before, max, ops, -1);
      }
      RunLast(max, ops);
    }
  }

  lemma RunLast<V>(max: nat, ops: seq<Op<V>>)
    requires ops != []
    ensures Run(max, ops) == Apply(Run(max, ops[..|ops| - 1]), max, ops[|ops| - 1])
  {
  }

  /** The first item, the next to be evicted, has the oldest last touch of all. */
  lemma {:induction false} VictimIsOldest<V>(s: Items<V>, max: nat, ops: seq<Op<V>>, low: int, key: string)
    requires TouchOrder(s, max, ops, low) && Find(s, key).Some?
    ensures LastTouch(max, ops, s[0].key) <= LastTouch(max, ops, key)
    ensures low < LastTouch(max, ops, key)
    decreases |s|
  {
    if s[0].key != key {
      VictimIsOldest(s[1..], max, ops, LastTouch(max, ops, s[0].key), key);
    }
  }

  /** A put evicts at most one other key: the one whose last put or fresh read is the oldest. */
  lemma EvictionTakesOldest<V>(max: nat, ops: seq<Op<V>>, op: Op<V>, key: string, other: string)
    requires op.Put? && key != op.key && other != op.key
    requires Find(Run(max, ops), key).Some? && Find(Run(max, ops), other).Some?
    requires Find(Run(max, ops + [op]), key).None?
    ensures LastTouch(max, ops, key) <= LastTouch(max, ops, other)
    ensures other != key ==> Find(Run(max, ops + [op]), other) == Find(Run(max, ops), other)
  {
    var s := Run(max, ops);
    RunLast(max, ops + [op]);
    assert (ops + [op])[..|ops|] == ops;
    RunValid(max, ops);
    EvictedIsFirst(s, max, op, key, other);
    StoreInTouchOrder(max, ops);
    VictimIsOldest(s, max, ops, -1, other);
  }

  lemma EvictedIsFirst<V>(s: Items<V>, max: nat, op: Op<V>, key: string, other: string)
    requires Distinct(s) && |s| <= max && op.Put? && key != op.key && other != op.key
    requires Find(s, key).Some? && Find(Apply(s, max, op), key).None?
    ensures s != [] && s[0].key == key
    ensures other != key ==> Find(Apply(s, max, op), other) == Find(s, other)
  {
    FindFirst(s, key);
    FindFirst(s, other);
    assert op.Stores(max);
    ApplyValid(s, max, op);
    RemoveFacts(s, op.key);
    var rest, item := Remove(s, op.key), op.Stored();
    EvictOne(rest + [item], max);
    FindRemove(s, op.key, key);
    FindAppend(rest, item, key);
    hide Find, Remove, Distinct, Evicted, Apply;
    assert |rest| == max && rest == s;
    assert (s + [item])[1..] == s[1..] + [item];
    FindAppend(s[1..], item, key);
    FindAppend(s[1..], item, other);
  }

  lemma FindFirst<V>(s: Items<V>, key: string)
    ensures s != [] && s[0].key != key ==> Find(s, key) == Find(s[1..], key)
    ensures s == [] ==> Find(s, key).None?
  {
  }

  // ------------------------------------------------------------------- inclusion

  /** `a` is `b` with some items left out. */
  ghost predicate Within<V>(a: Items<V>, b: Items<V>)
    decreases |b|
  {
    if a == [] then true
    else if b == [] then false
    else if a[0].key == b[0].key then a[0] == b[0] && Within(a[1..], b[1..])
    else Within(a, b[1..])
  }

  lemma {:induction false} WithinFind<V>(a: Items<V>, b: Items<V>, key: string)
    requires Within(a, b) && Distinct(b) && Find(a, key).Some?
    ensures Find(b, key) == Find(a, key)
    decreases |b|
  {
    if a[0].key == b[0].key {
      if a[0].key != key {
        WithinFind(a[1..], b[1..], key);
      }
    } else {
      WithinFind(a, b[1..], key);
    }
  }

  /** Something can always be added in front of the larger side. */
  lemma WithinWeaken<V>(a: Items<V>, b: Items<V>)
    requires b != [] && Distinct(b) && Within(a, b[1..])
    ensures Within(a, b)
  {
    if a != [] && a[0].key == b[0].key {
      WithinFind(a, b[1..], a[0].key);
    }
  }

  lemma {:induction false} WithinTail<V>(a: Items<V>, b: Items<V>)
    requires Within(a, b) && a != [] && Distinct(b)
    ensures Within(a[1..], b)
    decreases |b|
  {
    if a[0].key != b[0].key {
      WithinTail(a, b[1..]);
    }
    WithinWeaken(a[1..], b);
  }

  lemma {:induction false} WithinRemove<V>(a: Items<V>, b: Items<V>, key: string)
    requires Within(a, b) && Distinct(b)
    ensures Within(Remove(a, key), Remove(b, key))
    decreases |b|
  {
    if a != [] {
      RemoveFacts(b, key);
      if a[0].key == b[0].key {
        WithinRemove(a[1..], b[1..], key);
      } else {
        WithinRemove(a, b[1..], key);
        if b[0].key != key {
          assert Remove(b, key)[1..] == Remove(b[1..], key);
          WithinWeaken(Remove(a, key), Remove(b, key));
        }
      }
    }
  }

  lemma {:induction false} WithinAppend<V>(a: Items<V>, b: Items<V>, item: Item<V>)
    requires Within(a, b) && Distinct(b) && Find(b, item.key).None?
    ensures Within(a + [item], b + [item])
    decreases |b|
  {
    if b == [] {
      assert a + [item] == [item] && b + [item] == [item];
    } else {
      assert (b + [item])[1..] == b[1..] + [item];
      if a != [] && a[0].key == b[0].key {
        WithinAppend(a[1..], b[1..], item);
        assert (a + [item])[1..] == a[1..] + [item];
      } else {
        WithinAppend(a, b[1..], item);
        assert (a + [item])[0] == if a == [] then item else a[0];
      }
    }
  }

  lemma {:induction false} WithinAppendRight<V>(a: Items<V>, b: Items<V>, item: Item<V>)
    requires Within(a, b)
    ensures Within(a, b + [item])
    decreases |b|
  {
    if a != [] {
      assert (b + [item])[1..] == b[1..] + [item];
      if a[0].key == b[0].key {
        WithinAppendRight(a[1..], b[1..], item);
      } else {
        WithinAppendRight(a, b[1..], item);
      }
    }
  }

  /** The smaller store lies within the larger one and is not much shorter. */
  ghost predicate Included<V>(small: Items<V>, large: Items<V>, n: nat, m: nat) {
    Within(small, large) && |large| - |small| <= m - n
  }

  lemma GetKeepsInclusion<V>(small: Items<V>, large: Items<V>, n: nat, m: nat, key: string, now: real)
    requires Distinct(small) && Distinct(large) && Included(small, large, n, m)
    ensures Included(AfterGet(small, key, now), AfterGet(large, key, now), n, m)
  {
    hide Find, Remove, Distinct, Within;
    RemoveFacts(small, key);
    RemoveFacts(large, key);
    WithinRemove(small, large, key);
    var found := Find(large, key);
    if Find(small, key).Some? {
      WithinFind(small, large, key);
      WithinAppend(Remove(small, key), Remove(large, key), found.value);
    } else if found.Some? {
      // Only the larger store holds the key: it alone is reordered or shortened.
      WithinAppendRight(Remove(small, key), Remove(large, key), found.value);
    }
  }

  lemma EvictKeepsInclusion<V>(small: Items<V>, large: Items<V>, n: nat, m: nat)
    requires Distinct(small) && Distinct(large) && Included(small, large, n, m)
    requires n <= m && |small| <= n + 1 && |large| <= m + 1
    ensures Included(Evicted(small, n), Evicted(large, m), n, m)
  {
    EvictOne(small, n);
    EvictOne(large, m);
    if |small| == n + 1 {
      if |large| <= m {
        WithinTail(small, large);
      } else if small[0].key != large[0].key {
        WithinTail(small, large[1..]);
      }
    }
  }

  lemma PutKeepsInclusion<V>(small: Items<V>, large: Items<V>, n: nat, m: nat, op: Op<V>)
    requires Distinct(small) && |small| <= n <= m && Distinct(large) && |large| <= m
    requires Included(small, large, n, m) && op.Stores(n)
    ensures Included(Apply(small, n, op), Apply(large, m, op), n, m)
  {
    hide Find, Remove, Distinct, Within, Evicted;
    RemoveFacts(small, op.key);
    RemoveFacts(large, op.key);
    WithinRemove(small, large, op.key);
    WithinAppend(Remove(small, op.key), Remove(large, op.key), op.Stored());
    if Find(small, op.key).Some? {
      WithinFind(small, large, op.key);
    }
    ApplyValid(small, n, op);
    ApplyValid(large, m, op);
    EvictKeepsInclusion(Remove(small, op.key) + [op.Stored()], Remove(large, op.key) + [op.Stored()], n, m);
  }

  /** At every moment of one trace, a smaller store is included in a larger one. */
  lemma {:induction false} RunsIncluded<V>(n: nat, m: nat, ops: seq<Op<V>>)
    requires n <= m
    ensures Included(Run(n, ops), Run(m, ops), n, m)
  {
    hide Apply, Distinct;
    RunValid(n, ops);
    RunValid(m, ops);
    if ops != [] {
      var k := |ops| - 1;
      var small, large, op := Run(n, ops[..k]), Run(m, ops[..k]), ops[k];
      RunsIncluded(n, m, ops[..k]);
      RunValid(n, ops[..k]);
      RunValid(m, ops[..k]);
      if n > 0 {
        StepKeepsInclusion(small, large, n, m, op);
      }
    }
  }

  lemma StepKeepsInclusion<V>(small: Items<V>, large: Items<V>, n: nat, m: nat, op: Op<V>)
    requires 0 < n <= m && Distinct(small) && |small| <= n && Distinct(large) && |large| <= m
    requires Included(small, large, n, m)
    ensures Included(Apply(small, n, op), Apply(large, m, op), n, m)
  {
    if op.Get? {
      GetKeepsInclusion(small, large, n, m, op.key, op.now);
    } else if op.Stores(n) {
      PutKeepsInclusion(small, large, n, m, op);
    }
  }

  /** Growing the capacity never loses or changes a hit on the same trace. */
  lemma LargerCapacityKeepsHits<V>(n: nat, m: nat, ops: seq<Op<V>>, key: string, now: real)
    requires n <= m
    requires Got(Run(n, ops), key, now).Some?
    ensures Got(Run(m, ops), key, now) == Got(Run(n, ops), key, now)
  {
    RunsIncluded(n, m, ops);
    RunValid(m, ops);
    WithinFind(Run(n, ops), Run(m, ops), key);
  }
}
