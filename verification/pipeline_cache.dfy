/** The browser-side cache of pipeline data: entries in localStorage under the
    prefix 'pipeline-cache-', each holding the data and the time it was written,
    valid for five minutes. The clock is a parameter. */
module PipelineCache {
  import opened Common

  const CachePrefix: string := "pipeline-cache-"

  /** Five minutes in milliseconds. */
  const CacheDuration: int := 300_000

  /** One localStorage item: the empty string, text JSON.parse rejects, or a parsed
      cache entry. */
  datatype Item<T> = EmptyText | Unparsable | Entry(data: T, timestamp: int)

  type Store<T> = map<string, Item<T>>

  // ---------------------------------------------------------------- the rules as values

  /** What getCachedData answers. */
  function Lookup<T>(store: Store<T>, key: string, now: int): Option<T> {
    var k := CachePrefix + key;
    if k !in store then None
    else match store[k]
      case EmptyText => None
      case Unparsable => None
      case Entry(data, timestamp) => if now - timestamp > CacheDuration then None else Some(data)
  }

  /** The store after getCachedData: an expired entry is removed. */
  function AfterLookup<T>(store: Store<T>, key: string, now: int): Store<T> {
    var k := CachePrefix + key;
    if k in store && store[k].Entry? && now - store[k].timestamp > CacheDuration then store - {k} else store
  }

  function Stored<T>(store: Store<T>, key: string, data: T, now: int): Store<T> {
    store[CachePrefix + key := Entry(data, now)]
  }

  /** The store after clearPipelineCache: the two entries of one pipeline, or every
      prefixed key when no (or an empty) pipeline id is given. */
  function Cleared<T>(store: Store<T>, pipelineId: Option<string>): Store<T> {
    if Truthy(pipelineId) then
      store - {CachePrefix + "overview-" + pipelineId.value, CachePrefix + "meetings-" + pipelineId.value}
    else map k | k in store && !StartsWith(k, CachePrefix) :: store[k]
  }

  /** A value written is read back unchanged until five minutes have passed, and the
      read leaves the store as it was. */
  lemma SetThenGet<T>(store: Store<T>, key: string, data: T, written: int, now: int)
    requires written <= now <= written + CacheDuration
    ensures Lookup(Stored(store, key, data, written), key, now) == Some(data)
    ensures AfterLookup(Stored(store, key, data, written), key, now) == Stored(store, key, data, written)
  {
  }

  /** After five minutes the entry reads as nothing and is removed; every other key is
      left alone. */
  lemma ExpiredEntryRemoved<T>(store: Store<T>, key: string, now: int)
    requires CachePrefix + key in store && store[CachePrefix + key].Entry?
    requires now - store[CachePrefix + key].timestamp > CacheDuration
    ensures Lookup(store, key, now).None?
    ensures CachePrefix + key !in AfterLookup(store, key, now)
    ensures forall k :: k != CachePrefix + key ==>
      (k in AfterLookup(store, key, now) <==> k in store)
  {
  }

  /** Clearing one pipeline drops its overview and meetings entries only: its
      stage-history and sort entries and every other key survive. Clearing all drops
      exactly the prefixed keys. */
  lemma ClearedSpec<T>(store: Store<T>, pipelineId: Option<string>, key: string)
    ensures Truthy(pipelineId) ==>
      (key in Cleared(store, pipelineId) <==>
        key in store && key != CachePrefix + "overview-" + pipelineId.value
        && key != CachePrefix + "meetings-" + pipelineId.value)
    ensures (Truthy(pipelineId) && key in store && key != CachePrefix + "overview-" + pipelineId.value
             && key != CachePrefix + "meetings-" + pipelineId.value) ==>
      Cleared(store, pipelineId)[key] == store[key]
    ensures !Truthy(pipelineId) ==> (key in Cleared(store, pipelineId) <==> key in store && !StartsWith(key, CachePrefix))
  {
  }

  /** Clearing one pipeline keeps its stage-history and sort entries. */
  lemma ClearKeepsHistoryAndSort<T>(store: Store<T>, id: string)
    requires id != ""
    ensures var c := Cleared(store, Some(id));
      && (CachePrefix + "stage-history-" + id in store ==> CachePrefix + "stage-history-" + id in c)
      && (CachePrefix + "sort-" + id in store ==> CachePrefix + "sort-" + id in c)
  {
    var o := CachePrefix + "overview-" + id;
    var m := CachePrefix + "meetings-" + id;
    var h := CachePrefix + "stage-history-" + id;
    var s := CachePrefix + "sort-" + id;
    assert h[15] == 's' && o[15] == 'o' && m[15] == 'm';
    assert s[15] == 's' && s[16] == 'o' && h[16] == 't';
    assert h != o && h != m && s != o && s != m;
  }

  // ---------------------------------------------------------------- localStorage

  /** The window's localStorage (absent during server rendering). */
  class Cache<T> {
    var store: Store<T>
    const hasWindow: bool

    constructor(hasWindow: bool, store: Store<T>)
      ensures this.hasWindow == hasWindow && this.store == store
    {
      this.hasWindow := hasWindow;
      this.store := store;
    }

    /** getCachedData. */
    method Get(key: string, now: int) returns (r: Option<T>)
      modifies this
      ensures !hasWindow ==> r.None? && store == old(store)
      ensures hasWindow ==> r == Lookup(old(store), key, now) && store == AfterLookup(old(store), key, now)
    {
      if !hasWindow {
        return None;
      }
      var k := CachePrefix + key;
      if k !in store {
        return None;
      }
      match store[k]
      case EmptyText =>
        r := None;
      case Unparsable =>
        r := None;
      case Entry(data, timestamp) =>
        var age := now - timestamp;
        if age > CacheDuration {
          store := store - {k};
          r := None;
        } else {
          r := Some(data);
        }
    }

    /** setCachedData. `storageFails` says that serialising the entry or `setItem`
        throws (a full quota, say); the error is swallowed and the storage stays as it was. */
    method Set(key: string, data: T, now: int, storageFails: bool)
      modifies this
      ensures store == if hasWindow && !storageFails then Stored(old(store), key, data, now) else old(store)
    {
      if hasWindow && !storageFails {
        store := store[CachePrefix + key := Entry(data, now)];
      }
    }

    /** clearPipelineCache: remove one pipeline's two entries, or every prefixed key one
        by one. */
    method Clear(pipelineId: Option<string>)
      modifies this
      ensures store == if hasWindow then Cleared(old(store), pipelineId) else old(store)
    {
      if !hasWindow {
        return;
      }
      if Truthy(pipelineId) {
        store := store - {CachePrefix + "overview-" + pipelineId.value};
        store := store - {CachePrefix + "meetings-" + pipelineId.value};
        return;
      }
      var keys := set k | k in store && StartsWith(k, CachePrefix);
      ghost var before := store;
      while keys != {}
        invariant keys <= before.Keys
        invariant store == map k | k in before && (!StartsWith(k, CachePrefix) || k in keys) :: before[k]
        decreases keys
      {
        var k :| k in keys;
        store := store - {k};
        keys := keys - {k};
      }
    }
  }
}
