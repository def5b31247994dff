/**
 * The side channels the auth session writes to, kept as logs: the TanStack
 * query client (a set of cached keys plus the invalidations and clears it
 * received), the router's navigation history and the toast service.
 */
module QueryCache {
  /** A query key, such as `["users"]`. */
  type QueryKey = seq<string>

  datatype CacheEvent = Invalidated(key: QueryKey) | Cleared

  class QueryClient {
    /** The keys that hold cached data. */
    var keys: set<QueryKey>
    /** Every invalidation and clear, oldest first. */
    var events: seq<CacheEvent>

    constructor (keys: set<QueryKey>)
      ensures this.keys == keys && events == []
    {
      this.keys := keys;
      events := [];
    }

    /** `invalidateQueries({ queryKey })`: cached data is marked stale, not dropped. */
    method InvalidateQueries(key: QueryKey)
      modifies this
      ensures keys == old(keys)
      ensures events == old(events) + [Invalidated(key)]
    {
      events := events + [Invalidated(key)];
    }

    /** `clear()`: every cached entry is dropped. */
    method Clear()
      modifies this
      ensures keys == {}
      ensures events == old(events) + [Cleared]
    {
      keys := {};
      events := events + [Cleared];
    }
  }
}

module Navigation {
  class Router {
    /** The paths passed to `push`, oldest first. */
    var history: seq<string>

    constructor ()
      ensures history == []
    {
      history := [];
    }

    method Push(path: string)
      modifies this
      ensures history == old(history) + [path]
    {
      history := history + [path];
    }
  }
}

module Toasts {
  datatype Severity = Success | Error

  datatype ToastMessage = ToastMessage(severity: Severity, summary: string, detail: string)

  class ToastService {
    /** The toasts passed to `add`, oldest first. */
    var shown: seq<ToastMessage>

    constructor ()
      ensures shown == []
    {
      shown := [];
    }

    method Add(t: ToastMessage)
      modifies this
      ensures shown == old(shown) + [t]
    {
      shown := shown + [t];
    }
  }
}
