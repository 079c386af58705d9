/**
 The in-memory TTL cache, one operation at a time: every operation agrees with a
 log that is never cleaned up.  Expiry compares the clock, passed in, with the
 entry's deadline; the deadline instant itself still counts as live.
 */
module Cache {
  import opened Options

  datatype Entry<V> = Entry(value: V, expiresAt: int)

  predicate Expired<V>(e: Entry<V>, now: int) {
    now > e.expiresAt
  }

  datatype Op<V> = Set(key: string, entry: Entry<V>) | Invalidate(key: string) | InvalidateAll

  type Log<V> = seq<Op<V>>

  /** The last word of the log on `key`. */
  function Lookup<V>(log: Log<V>, key: string): Option<Entry<V>> {
    if log == [] then None
    else
      match log[|log| - 1]
      case Set(k, e) => if k == key then Some(e) else Lookup(log[..|log| - 1], key)
      case Invalidate(k) => if k == key then None else Lookup(log[..|log| - 1], key)
      case InvalidateAll => None
  }

  /** What a cache that forgets nothing answers at `now`. */
  function Answer<V>(log: Log<V>, key: string, now: int): Option<V> {
    match Lookup(log, key)
    case Some(e) => if Expired(e, now) then None else Some(e.value)
    case None => None
  }

  lemma LookupOneMore<V>(log: Log<V>, op: Op<V>, key: string)
    ensures Lookup(log + [op], key) ==
            match op
            case Set(k, e) => if k == key then Some(e) else Lookup(log, key)
            case Invalidate(k) => if k == key then None else Lookup(log, key)
            case InvalidateAll => None
  {
    assert (log + [op])[..|log|] == log;
  }

  /** `items` holds only the last words of the log, and lacks only expired ones. */
  ghost predicate Represents<V(!new)>(items: map<string, Entry<V>>, log: Log<V>, now: int) {
    && (forall key :: key in items ==> Lookup(log, key) == Some(items[key]))
    && (forall key :: key !in items && Lookup(log, key).Some? ==> Expired(Lookup(log, key).value, now))
  }

  /** An entry the clock has passed stays expired. */
  lemma RepresentsLater<V(!new)>(items: map<string, Entry<V>>, log: Log<V>, now: int, later: int)
    requires Represents(items, log, now) && now <= later
    ensures Represents(items, log, later)
  {
  }

  lemma OpRepresents<V(!new)>(items: map<string, Entry<V>>, items': map<string, Entry<V>>, log: Log<V>, op: Op<V>,
                              now: int)
    requires Represents(items, log, now)
    requires match op
             case Set(k, e) => items' == items[k := e]
             case Invalidate(k) => items' == items - {k}
             case InvalidateAll => items' == map[]
    ensures Represents(items', log + [op], now)
  {
    forall key
      ensures key in items' ==> Lookup(log + [op], key) == Some(items'[key])
      ensures key !in items' && Lookup(log + [op], key).Some? ==> Expired(Lookup(log + [op], key).value, now)
    {
      LookupOneMore(log, op, key);
    }
  }

  /** A value is answered up to and including its deadline, and not after. */
  lemma LiveUntilDeadline<V>(log: Log<V>, key: string, value: V, ttl: int, at: int, now: int)
    ensures Answer(log + [Op.Set(key, Entry(value, at + ttl))], key, now)
            == if now - at <= ttl then Some(value) else None
  {
    LookupOneMore(log, Op.Set(key, Entry(value, at + ttl)), key);
    hide Lookup;
  }

  class Cache<V(!new)> {
    const ttl: int
    var items: map<string, Entry<V>>
    var hits: nat
    var misses: nat

    /** Everything ever stored or invalidated, and the latest reading of the clock. */
    ghost var log: Log<V>
    ghost var clock: int

    ghost predicate Valid()
      reads this
    {
      Represents(items, log, clock)
    }

    constructor (ttl: int, now: int)
      ensures Valid() && log == [] && clock == now && this.ttl == ttl
      ensures hits == misses == 0
    {
      this.ttl := ttl;
      items := map[];
      hits, misses := 0, 0;
      log, clock := [], now;
    }

    method Get(key: string, now: int) returns (r: Option<V>)
      requires Valid() && clock <= now
      modifies this
      ensures Valid() && log == old(log) && clock == now
      ensures r == Answer(log, key, now)
      ensures hits == old(hits) + (if r.Some? then 1 else 0)
      ensures misses == old(misses) + (if r.None? then 1 else 0)
    {
      RepresentsLater(items, log, clock, now);
      clock := now;
      var ok := key in items;
      if !ok || Expired(items[key], now) {
        misses := misses + 1;
        if ok && Expired(items[key], now) {
          items := items - {key};
        }
        return None;
      }
      hits := hits + 1;
      return Some(items[key].value);
    }

    method Set(key: string, value: V, now: int)
      requires Valid() && clock <= now
      modifies this
      ensures Valid() && clock == now && hits == old(hits) && misses == old(misses)
      ensures log == old(log) + [Op.Set(key, Entry(value, now + ttl))]
    {
      RepresentsLater(items, log, clock, now);
      clock := now;
      var e := Entry(value, now + ttl);
      OpRepresents(items, items[key := e], log, Op.Set(key, e), now);
      items := items[key := e];
      log := log + [Op.Set(key, e)];
    }

    method Invalidate(key: string, now: int)
      requires Valid() && clock <= now
      modifies this
      ensures Valid() && clock == now && hits == old(hits) && misses == old(misses)
      ensures log == old(log) + [Op.Invalidate(key)]
    {
      RepresentsLater(items, log, clock, now);
      clock := now;
      OpRepresents(items, items - {key}, log, Op.Invalidate(key), now);
      items := items - {key};
      log := log + [Op.Invalidate(key)];
    }

    method InvalidateAll(now: int)
      requires Valid() && clock <= now
      modifies this
      ensures Valid() && clock == now && hits == old(hits) && misses == old(misses)
      ensures log == old(log) + [Op.InvalidateAll] && items == map[]
    {
      RepresentsLater(items, log, clock, now);
      clock := now;
      OpRepresents(items, map[], log, Op.InvalidateAll, now);
      items := map[];
      log := log + [Op.InvalidateAll];
    }

    /** One pass of the background cleanup: exactly the live entries survive. */
    method RemoveExpired(now: int)
      requires Valid() && clock <= now
      modifies this
      ensures Valid() && log == old(log) && clock == now && hits == old(hits) && misses == old(misses)
      ensures items == map k | k in old(items) && !Expired(old(items)[k], now) :: old(items)[k]
    {
      RepresentsLater(items, log, clock, now);
      clock := now;
      var rest := items.Keys;
      while rest != {}
        invariant rest <= items.Keys && log == old(log) && clock == now
        invariant hits == old(hits) && misses == old(misses)
        invariant forall k :: k in items ==> k in old(items) && items[k] == old(items)[k]
        invariant forall k :: k in old(items) && k !in items ==> Expired(old(items)[k], now)
        invariant forall k :: k in items && k !in rest ==> !Expired(items[k], now)
        decreases rest
      {
        var key :| key in rest;
        rest := rest - {key};
        if Expired(items[key], now) {
          items := items - {key};
        }
      }
    }

    /** Whatever the log would answer is still held. */
    method Stats() returns (size: nat, h: nat, m: nat)
      requires Valid()
      ensures h == hits && m == misses
      ensures size == |items|
      ensures forall key :: Answer(log, key, clock).Some? ==> key in items
    {
      return |items|, hits, misses;
    }
  }
}
