/** The in-process key-value cache with a fixed time-to-live per entry
    (projects/thread-safe-cache/main.go). Wall-clock time is the explicit
    parameter `now`, in nanoseconds; each operation and each eviction sweep is
    one atomic step, as the cache's read/write lock makes it. */
module TtlCache {
  import opened Wrappers

  /** `cacheItem`: a value and the instant after which it is expired. */
  datatype Item<V> = Item(value: V, expiration: int)

  type Items<V> = map<string, Item<V>>

  /** What `Get` reports for `key` at time `now`: an item is still visible at
      exactly its expiration instant and hidden once `now` is past it. */
  function Lookup<V>(items: Items<V>, key: string, now: int): Option<V> {
    if key in items && now <= items[key].expiration then Some(items[key].value) else None
  }

  /** What one eviction sweep at time `now` leaves: every item that is not yet
      past its expiration. */
  function Swept<V>(items: Items<V>, now: int): (r: Items<V>)
    ensures r.Keys <= items.Keys
    ensures forall k :: k in items ==> (k in r <==> now <= items[k].expiration)
    ensures forall k :: k in r ==> r[k] == items[k]
  {
    map k | k in items && now <= items[k].expiration :: items[k]
  }

  class Cache<V> {
    var items: Items<V>
    const ttl: int

    /** `NewCache`. A non-positive ttl makes `time.NewTicker` in the eviction
        goroutine panic, which ends the process, so it is excluded. */
    constructor (ttl: int)
      requires ttl > 0
      ensures items == map[] && this.ttl == ttl
    {
      items := map[];
      this.ttl := ttl;
    }

    /** `Set`: stores `value` under `key`, expiring `ttl` after `now`,
        whatever was stored there before. */
    method Set(key: string, value: V, now: int)
      modifies this
      ensures items == old(items)[key := Item(value, now + ttl)]
      ensures key in items && items[key] == Item(value, now + ttl)
      ensures forall k :: k != key ==> (k in items <==> k in old(items))
      ensures forall k :: k != key && k in items ==> items[k] == old(items)[k]
    {
      items := items[key := Item(value, now + ttl)];
    }

    /** `Get`: the value stored under `key` if it is present and not past its
        expiration at `now`. Expired items are hidden but not removed. */
    method Get(key: string, now: int) returns (r: Option<V>)
      ensures r.Some? <==> key in items && now <= items[key].expiration
      ensures r.Some? ==> r.value == items[key].value
    {
      if key in items {
        var item := items[key];
        if now > item.expiration {
          return None;
        }
        return Some(item.value);
      }
      return None;
    }

    /** `Delete`: removes `key`; nothing happens when it is absent. */
    method Delete(key: string)
      modifies this
      ensures items == old(items) - {key}
      ensures key !in items
      ensures forall k :: k != key ==> (k in items <==> k in old(items))
      ensures forall k :: k in items ==> items[k] == old(items)[k]
    {
      items := items - {key};
    }

    /** The body of the `startEviction` loop: visits every item once, in no
        particular order, and deletes the ones past their expiration. */
    method EvictExpired(now: int)
      modifies this
      ensures items == Swept(old(items), now)
    {
      var pending := items.Keys;
      while pending != {}
        invariant pending <= old(items).Keys
        invariant items.Keys <= old(items).Keys
        invariant forall k :: k in old(items) ==>
          (k in items <==> k in pending || now <= old(items)[k].expiration)
        invariant forall k :: k in items ==> items[k] == old(items)[k]
        decreases pending
      {
        var k :| k in pending;
        if now > items[k].expiration {
          items := items - {k};
        }
        pending := pending - {k};
      }
    }
  }

  // ---------------------------------------------------------------------
  // Single operations
  // ---------------------------------------------------------------------

  /** A `Set` at `t0` is visible to a `Get` at `t` exactly while
      `t - t0 <= ttl`. */
  lemma SetThenLookup<V>(items: Items<V>, key: string, value: V, t0: int, ttl: int, t: int)
    ensures Lookup(items[key := Item(value, t0 + ttl)], key, t)
         == if t - t0 <= ttl then Some(value) else None
  {
  }

  /** After `Delete(key)` a `Get(key)` finds nothing, and other keys read as before. */
  lemma DeleteThenLookup<V>(items: Items<V>, key: string, other: string, t: int)
    ensures Lookup(items - {key}, key, t) == None
    ensures other != key ==> Lookup(items - {key}, other, t) == Lookup(items, other, t)
  {
  }

  /** Once a key reads as expired it stays expired until it is written again. */
  lemma ExpiryIsPermanent<V>(items: Items<V>, key: string, t: int, t': int)
    requires Lookup(items, key, t) == None && t <= t'
    ensures Lookup(items, key, t') == None
  {
  }

  /** A sweep at `s` never changes what a `Get` at any `now >= s` sees. */
  lemma SweptLookup<V>(items: Items<V>, s: int, now: int, key: string)
    requires s <= now
    ensures Lookup(Swept(items, s), key, now) == Lookup(items, key, now)
  {
  }

  /** Sweeping twice is sweeping once at the later instant; in particular a
      second sweep at the same instant changes nothing. */
  lemma SweptTwice<V>(items: Items<V>, s1: int, s2: int)
    ensures Swept(Swept(items, s1), s2) == Swept(items, if s1 < s2 then s2 else s1)
    ensures Swept(Swept(items, s1), s1) == Swept(items, s1)
  {
  }

  // ---------------------------------------------------------------------
  // Sweeps interleaved with client operations
  // ---------------------------------------------------------------------

  /** One step on the cache's map: a client write or an eviction sweep. */
  datatype Op<V> = SetOp(key: string, value: V, at: int) | DeleteOp(key: string) | SweepOp(at: int)

  function Apply<V>(items: Items<V>, ttl: int, op: Op<V>): Items<V> {
    match op
    case SetOp(k, v, t) => items[k := Item(v, t + ttl)]
    case DeleteOp(k) => items - {k}
    case SweepOp(t) => Swept(items, t)
  }

  function Run<V>(items: Items<V>, ttl: int, ops: seq<Op<V>>): Items<V>
    decreases |ops|
  {
    if ops == [] then items else Run(Apply(items, ttl, ops[0]), ttl, ops[1..])
  }

  /** The same steps with the sweeps taken out. */
  function WithoutSweeps<V>(ops: seq<Op<V>>): (r: seq<Op<V>>)
    ensures forall i :: 0 <= i < |r| ==> !r[i].SweepOp?
    ensures |r| <= |ops|
  {
    if ops == [] then []
    else if ops[0].SweepOp? then WithoutSweeps(ops[1..])
    else [ops[0]] + WithoutSweeps(ops[1..])
  }

  /** No sweep happens after `now`. */
  predicate SweepsNoLaterThan<V>(ops: seq<Op<V>>, now: int) {
    forall i :: 0 <= i < |ops| && ops[i].SweepOp? ==> ops[i].at <= now
  }

  /** `fewer` is `more` with some items removed that are expired at `now`. */
  ghost predicate AgreeAt<V>(fewer: Items<V>, more: Items<V>, now: int) {
    && fewer.Keys <= more.Keys
    && (forall k :: k in fewer ==> fewer[k] == more[k])
    && (forall k :: k in more && k !in fewer ==> more[k].expiration < now)
  }

  lemma {:induction false} RunAgrees<V>(fewer: Items<V>, more: Items<V>, ttl: int, ops: seq<Op<V>>, now: int)
    requires AgreeAt(fewer, more, now) && SweepsNoLaterThan(ops, now)
    ensures AgreeAt(Run(fewer, ttl, ops), Run(more, ttl, WithoutSweeps(ops)), now)
    decreases |ops|
  {
    if ops != [] {
      var op := ops[0];
      assert SweepsNoLaterThan(ops[1..], now) by {
        forall i | 0 <= i < |ops[1..]| && ops[1..][i].SweepOp? ensures ops[1..][i].at <= now {
          assert ops[1..][i] == ops[i + 1];
        }
      }
      if op.SweepOp? {
        assert op.at <= now;
        RunAgrees(Apply(fewer, ttl, op), more, ttl, ops[1..], now);
      } else {
        assert WithoutSweeps(ops) == [op] + WithoutSweeps(ops[1..]);
        assert ([op] + WithoutSweeps(ops[1..]))[1..] == WithoutSweeps(ops[1..]);
        RunAgrees(Apply(fewer, ttl, op), Apply(more, ttl, op), ttl, ops[1..], now);
      }
    }
  }

  /** Eviction is invisible to readers: however many sweeps run between the
      client's writes, as long as none runs after `now`, every `Get` at
      `now` answers as if no sweep had happened. */
  lemma SweepsAreInvisible<V>(items: Items<V>, ttl: int, ops: seq<Op<V>>, now: int, key: string)
    requires SweepsNoLaterThan(ops, now)
    ensures Lookup(Run(items, ttl, ops), key, now) == Lookup(Run(items, ttl, WithoutSweeps(ops)), key, now)
  {
    RunAgrees(items, items, ttl, ops, now);
  }

  // ---------------------------------------------------------------------
  // The eviction schedule
  // ---------------------------------------------------------------------

  /** The `j`-th tick of the eviction ticker of a cache created at `created`. */
  function Tick(created: int, ttl: int, j: nat): int {
    created + j * ttl
  }

  /** An item written at `t0` and left alone is gone from the map after the
      sweep of some tick no later than `t0 + 2 * ttl`, even if no `Get` ever
      touches it. */
  lemma EvictedWithinTwoTtl<V>(items: Items<V>, key: string, created: int, ttl: int, t0: int)
    requires ttl > 0 && created <= t0
    requires key in items && items[key].expiration == t0 + ttl
    ensures exists j: nat :: && t0 + ttl < Tick(created, ttl, j) <= t0 + 2 * ttl
                             && key !in Swept(items, Tick(created, ttl, j))
  {
    var d := t0 - created;
    var q, r := d / ttl, d % ttl;
    assert d == q * ttl + r && 0 <= r < ttl;
    var j: nat := q + 2;
    assert j * ttl == q * ttl + 2 * ttl;
    assert Tick(created, ttl, j) == t0 - r + 2 * ttl;
  }
}
