/**
  The key-value cache backend shared by the router, the service and the sweep.
  Entries do not expire here: time-based eviction is left to the backend and
  is not part of this model. Every call that changes the backend is logged.
*/
module CacheBackend {
  import opened Common

  /** A call made on the backend. */
  datatype CacheOp =
    | BackendAcquired                                  // `FastAPICache.get_backend()`
    | Stored(key: string, value: string, expire: int)   // `set(key, value, expire=...)`
    | KeyCleared(key: string, namespace: string)        // `clear(key=k, namespace=ns)`
    | PositionalCleared(arg: string)                   // `clear(k)`

  class Cache {
    var entries: map<string, string>
    var log: seq<CacheOp>

    constructor ()
      ensures entries == map[] && log == []
    {
      entries := map[];
      log := [];
    }

    /** `backend.get(key)`: the stored value, if any. */
    function Get(key: string): (v: Option<string>)
      reads this
      ensures v.Some? <==> key in entries
      ensures v.Some? ==> v.value == entries[key]
    {
      if key in entries then Some(entries[key]) else None
    }

    /** `FastAPICache.get_backend()`, recorded so callers can tell whether it happened. */
    method AcquireBackend()
      modifies this
      ensures entries == old(entries)
      ensures log == old(log) + [BackendAcquired]
    {
      log := log + [BackendAcquired];
    }

    /** `backend.set(key, value, expire=...)` */
    method Set(key: string, value: string, expire: int)
      modifies this
      ensures entries == old(entries)[key := value]
      ensures log == old(log) + [Stored(key, value, expire)]
    {
      entries := entries[key := value];
      log := log + [Stored(key, value, expire)];
    }

    /** `backend.clear(key=key, namespace=namespace)`: removes `key`. */
    method ClearByKey(key: string, namespace: string)
      modifies this
      ensures entries == old(entries) - {key}
      ensures log == old(log) + [KeyCleared(key, namespace)]
    {
      entries := entries - {key};
      log := log + [KeyCleared(key, namespace)];
    }

    /** `backend.clear(arg)`: taken here to remove the entry named `arg`. */
    method ClearPositional(arg: string)
      modifies this
      ensures entries == old(entries) - {arg}
      ensures log == old(log) + [PositionalCleared(arg)]
    {
      entries := entries - {arg};
      log := log + [PositionalCleared(arg)];
    }
  }
}
