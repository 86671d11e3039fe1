/**
 * The handler's shared key/value store (gocache over ristretto), as a map from
 * key to entry with an explicit clock. Entries carry an optional absolute
 * expiry; an expired entry reads as absent. Store faults are a parameter:
 * the keys whose reads and whose writes fail.
 */
module ResultCache {
  import opened Wrappers
  import opened Records
  import opened TheGraph

  /**
   * What is stored under a key: the marshalled form of one of the three kinds
   * of value the handler caches. Decoding a value as another kind fails.
   */
  datatype Payload =
    | DayDataList(rows: seq<PoolDayData>)
    | PoolRecord(pool: Pool)
    | TokenRecord(token: Token)

  /** A stored value and, when it was written with a time to live, the instant it expires. */
  datatype Entry = Entry(value: Payload, expiresAt: Option<int>)

  /** One minute in nanoseconds: the time to live of a cached metrics list. */
  const MetricsTtl: nat := 60_000_000_000

  /** The keys whose reads fail with an error other than not-found, and whose writes are refused. */
  datatype StoreFaults = StoreFaults(getFails: set<string>, setFails: set<string>)

  /** The outcome of a read: the stored value, not found, or a store error. */
  datatype Lookup = Hit(value: Payload) | Miss | ReadFailed

  /** An entry is served until its expiry has passed; one without expiry is served forever. */
  predicate Live(e: Entry, now: int) {
    e.expiresAt.None? || now <= e.expiresAt.value
  }

  /** The expiry of an entry written at `now` with the given time to live. */
  function ExpiryAt(now: int, ttl: Option<nat>): Option<int> {
    match ttl
    case None => None
    case Some(d) => Some(now + d)
  }

  /** A read of `key` at instant `now`. */
  function Read(entries: map<string, Entry>, now: int, faults: StoreFaults, key: string): Lookup {
    if key in faults.getFails then ReadFailed
    else if key in entries && Live(entries[key], now) then Hit(entries[key].value)
    else Miss
  }

  /** The entries after a write of `value` under `key` at `now`; a refused write changes nothing. */
  function Written(entries: map<string, Entry>, now: int, faults: StoreFaults, key: string, value: Payload, ttl: Option<nat>): map<string, Entry> {
    if key in faults.setFails then entries
    else entries[key := Entry(value, ExpiryAt(now, ttl))]
  }

  /** A value written and read back at the same instant is the value written. */
  lemma ReadAfterWrite(entries: map<string, Entry>, now: int, faults: StoreFaults, key: string, value: Payload, ttl: Option<nat>)
    requires key !in faults.getFails && key !in faults.setFails
    ensures Read(Written(entries, now, faults, key, value, ttl), now, faults, key) == Hit(value)
  {
  }

  /** A write under one key leaves every read of another key as it was. */
  lemma WriteIsolated(entries: map<string, Entry>, now: int, faults: StoreFaults, key: string, value: Payload, ttl: Option<nat>, other: string, later: int)
    requires other != key
    ensures Read(Written(entries, now, faults, key, value, ttl), later, faults, other) == Read(entries, later, faults, other)
  {
  }

  /**
   * A value written with a time to live is served up to and including its expiry
   * and is a miss from then on; one written without is served at every later instant.
   */
  lemma ExpiryWindow(entries: map<string, Entry>, now: int, faults: StoreFaults, key: string, value: Payload, ttl: Option<nat>, later: int)
    requires key !in faults.getFails && key !in faults.setFails
    ensures Read(Written(entries, now, faults, key, value, ttl), later, faults, key) == Hit(value)
      <==> ttl.None? || later <= now + ttl.value
    ensures ttl.Some? && later > now + ttl.value ==>
      Read(Written(entries, now, faults, key, value, ttl), later, faults, key) == Miss
  {
  }

  /** The store as the handler holds it: the entries and the current instant in nanoseconds. */
  class Store {
    var entries: map<string, Entry>
    var now: int

    constructor (start: int)
      ensures entries == map[] && now == start
    {
      entries := map[];
      now := start;
    }

    /** `Get`: the live value under `key`, not found, or the store's error. */
    method Get(key: string, faults: StoreFaults) returns (r: Lookup)
      ensures r == Read(entries, now, faults, key)
      ensures r.Hit? ==> key in entries && r.value == entries[key].value
    {
      if key in faults.getFails {
        return ReadFailed;
      }
      if key !in entries {
        return Miss;
      }
      var e := entries[key];
      if e.expiresAt.Some? && now > e.expiresAt.value {
        return Miss;
      }
      return Hit(e.value);
    }

    /** `Set`: stores `value` under `key`, expiring `ttl` after now when one is given. */
    method Set(key: string, value: Payload, ttl: Option<nat>, faults: StoreFaults) returns (ok: bool)
      modifies this`entries
      ensures ok <==> key !in faults.setFails
      ensures entries == Written(old(entries), now, faults, key, value, ttl)
    {
      if key in faults.setFails {
        return false;
      }
      var expiresAt: Option<int> := None;
      if ttl.Some? {
        expiresAt := Some(now + ttl.value);
      }
      entries := entries[key := Entry(value, expiresAt)];
      return true;
    }

    /** Eviction by the cache's admission policy: the key is simply gone. */
    method Evict(key: string)
      modifies this`entries
      ensures entries == map k | k in old(entries) && k != key :: old(entries)[k]
      ensures Read(entries, now, StoreFaults({}, {}), key) == Miss
    {
      entries := map k | k in entries && k != key :: entries[k];
    }

    /** The passage of time. */
    method Advance(elapsed: nat)
      modifies this`now
      ensures now == old(now) + elapsed
    {
      now := now + elapsed;
    }
  }
}
