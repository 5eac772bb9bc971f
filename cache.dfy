/**
 * The API's in-process expiring key/value store.
 *
 * Every operation of the source holds one mutex over the whole map for its
 * whole body, so each method below is one atomic step on `items`. Time is the
 * explicit parameter `now`, in whole seconds on a monotonic clock.
 */
module Cache {
  import opened Wrappers

  /** A stored value with the instant it was stored and how long it lives. */
  datatype Item<T> = Item(value: T, creation: nat, lifetime: nat)

  /** Seconds since the item was stored; a clock reading before `creation` counts as zero. */
  function Elapsed<T>(it: Item<T>, now: nat): nat
  {
    if now >= it.creation then now - it.creation else 0
  }

  /** Expiry is strict: an item is still live when exactly `lifetime` seconds have passed. */
  predicate IsExpired<T>(it: Item<T>, now: nat)
  {
    Elapsed(it, now) > it.lifetime
  }

  /** The item stored at `now` for `lifetime` seconds. */
  function NewItem<T>(value: T, now: nat, lifetime: nat): (it: Item<T>)
    ensures it.value == value
    ensures forall t: nat {:trigger IsExpired(it, t)} :: now <= t ==> (IsExpired(it, t) <==> t > now + lifetime)
  {
    Item(value, now, lifetime)
  }

  /** An item is expired exactly when the clock is past its creation plus its lifetime. */
  lemma ExpiredIffPastDeadline<T>(it: Item<T>, now: nat)
    ensures IsExpired(it, now) <==> now > it.creation + it.lifetime
  {
  }

  /** Once expired, an item stays expired as the clock moves on. */
  lemma ExpiryIsPermanent<T>(it: Item<T>, now: nat, later: nat)
    requires now <= later && IsExpired(it, now)
    ensures IsExpired(it, later)
  {
  }

  // ---------------------------------------------------------------------------
  // The map-level meaning of the operations

  type Store<T> = map<string, Item<T>>

  /** What a reader sees under `key` at `now`: the value of a live item, else nothing. */
  function Live<T>(m: Store<T>, key: string, now: nat): (r: Option<T>)
    ensures r.Some? <==> key in m && !IsExpired(m[key], now)
    ensures r.Some? ==> r.value == m[key].value
  {
    if key in m && !IsExpired(m[key], now) then Some(m[key].value) else None
  }

  /** The map after a `get` of `key` at `now`: an expired item under `key` is dropped. */
  function Evicted<T>(m: Store<T>, key: string, now: nat): (r: Store<T>)
    ensures forall k {:trigger k in r} :: k != key ==> (k in r <==> k in m) && (k in m ==> r[k] == m[k])
    ensures key in r <==> key in m && !IsExpired(m[key], now)
    ensures key in r ==> r[key] == m[key]
  {
    if key in m && IsExpired(m[key], now) then m - {key} else m
  }

  /** The map after a cleanup at `now`: exactly the live items remain, unchanged. */
  function Swept<T>(m: Store<T>, now: nat): (r: Store<T>)
    ensures forall k {:trigger k in r} :: k in r <==> k in m && !IsExpired(m[k], now)
    ensures forall k {:trigger r[k]} :: k in r ==> r[k] == m[k]
  {
    map k | k in m && !IsExpired(m[k], now) :: m[k]
  }

  // ---------------------------------------------------------------------------
  // The store object

  class Cache<T> {
    var items: Store<T>

    constructor ()
      ensures items == map[]
    {
      items := map[];
    }

    /**
     * Stores `value` under `key` for `lifetime` seconds, replacing what was
     * there, and hands back the previous value only if it was still live.
     */
    method Set(key: string, value: T, lifetime: nat, now: nat) returns (previous: Option<T>)
      modifies this
      ensures previous == Live(old(items), key, now)
      ensures items == old(items)[key := NewItem(value, now, lifetime)]
    {
      var oldItem: Option<Item<T>> := if key in items then Some(items[key]) else None;
      items := items[key := NewItem(value, now, lifetime)];
      match oldItem {
        case Some(it) =>
          if IsExpired(it, now) {
            previous := None;
          } else {
            previous := Some(it.value);
          }
        case None =>
          previous := None;
      }
    }

    /** The live value under `key`; an expired item found there is removed. */
    method Get(key: string, now: nat) returns (r: Option<T>)
      modifies this
      ensures r == Live(old(items), key, now)
      ensures items == Evicted(old(items), key, now)
    {
      if key in items {
        var it := items[key];
        if IsExpired(it, now) {
          items := items - {key};
          r := None;
        } else {
          r := Some(it.value);
        }
      } else {
        r := None;
      }
    }

    /** Removes `key` whatever its state and hands back its value only if it was live. */
    method Del(key: string, now: nat) returns (r: Option<T>)
      modifies this
      ensures r == Live(old(items), key, now)
      ensures items == old(items) - {key}
    {
      var removed: Option<Item<T>> := if key in items then Some(items[key]) else None;
      items := items - {key};
      match removed {
        case Some(it) =>
          if IsExpired(it, now) {
            r := None;
          } else {
            r := Some(it.value);
          }
        case None =>
          r := None;
      }
    }

    /** Plain key membership: an expired item not yet removed still counts. */
    method Exists(key: string) returns (b: bool)
      ensures b <==> key in items
    {
      b := key in items;
    }

    /** Drops every expired item. */
    method Cleanup(now: nat)
      modifies this
      ensures items == Swept(old(items), now)
    {
      items := map k | k in items && !IsExpired(items[k], now) :: items[k];
    }
  }

  // ---------------------------------------------------------------------------
  // Properties relating the operations

  /** After a set at `t`, a read at any instant up to `t + lifetime` sees the value. */
  lemma SetThenLive<T>(m: Store<T>, key: string, value: T, lifetime: nat, t: nat, later: nat)
    requires t <= later <= t + lifetime
    ensures Live(m[key := NewItem(value, t, lifetime)], key, later) == Some(value)
    ensures Evicted(m[key := NewItem(value, t, lifetime)], key, later) == m[key := NewItem(value, t, lifetime)]
  {
  }

  /** After a set at `t`, a read once `lifetime` has been exceeded sees nothing and evicts. */
  lemma SetThenExpired<T>(m: Store<T>, key: string, value: T, lifetime: nat, t: nat, later: nat)
    requires later > t + lifetime
    ensures Live(m[key := NewItem(value, t, lifetime)], key, later) == None
    ensures key !in Evicted(m[key := NewItem(value, t, lifetime)], key, later)
  {
  }

  /** A get of a live key leaves the map as it was. */
  lemma GetLiveKeepsMap<T>(m: Store<T>, key: string, now: nat)
    requires Live(m, key, now).Some?
    ensures Evicted(m, key, now) == m
  {
  }

  /** Neither eviction nor cleanup at `now` changes what any later read sees. */
  lemma RemovalsAreInvisible<T>(m: Store<T>, key: string, now: nat, later: nat)
    requires now <= later
    ensures forall k :: Live(Evicted(m, key, now), k, later) == Live(m, k, later)
    ensures forall k :: Live(Swept(m, now), k, later) == Live(m, k, later)
  {
    forall k ensures Live(Swept(m, now), k, later) == Live(m, k, later) {
      if k in m && IsExpired(m[k], now) {
        ExpiryIsPermanent(m[k], now, later);
      }
    }
  }

  /** A second delete of the same key finds nothing: a delete is a single-use pop. */
  lemma DelIsSingleUse<T>(m: Store<T>, key: string, now: nat, later: nat)
    ensures Live(m - {key}, key, later) == None
    ensures (m - {key}) - {key} == m - {key}
  {
  }

  /** An expired item still counts for `Exists` until something removes it. */
  lemma ExistsSeesExpired<T>(m: Store<T>, key: string, now: nat)
    requires key in m && IsExpired(m[key], now)
    ensures key in m && Live(m, key, now) == None
  {
  }

  /** Set, get and delete of one key leave every other key's item as it was. */
  lemma OtherKeysUntouched<T>(m: Store<T>, key: string, other: string, it: Item<T>, now: nat)
    requires other != key
    ensures other in m[key := it] <==> other in m
    ensures other in Evicted(m, key, now) <==> other in m
    ensures other in m - {key} <==> other in m
    ensures other in m ==>
              && m[key := it][other] == m[other]
              && Evicted(m, key, now)[other] == m[other]
              && (m - {key})[other] == m[other]
  {
  }

  /** Cleanup is idempotent at a given instant. */
  lemma SweepIdempotent<T>(m: Store<T>, now: nat)
    ensures Swept(Swept(m, now), now) == Swept(m, now)
  {
  }
}
