/** The mutex-guarded cache around the LRU engine (geecache/cache.go), without
    the mutex: the LRU engine is created on first use. */
module MainCache {
  import opened Wrappers
  import opened ByteView
  import Lru

  /** How the LRU engine measures a stored view. */
  function ViewLen(v: Byteview): nat
  {
    v.Len()
  }

  class Cache {
    /** The engine, `nil` until the first `add`. */
    var lru: Lru.Cache?<Byteview>
    /** The capacity the engine is created with. */
    const cacheBytes: nat

    ghost predicate Valid()
      reads this, lru
    {
      && cacheBytes >= 0
      && (lru != null ==>
            && lru.Valid()
            && lru.maxBytes == cacheBytes
            && !lru.hasOnEvicted
            && lru.valueLen == ViewLen)
    }

    /** The entries held, front first; none while the engine does not exist. */
    ghost function Entries(): seq<Lru.Entry<Byteview>>
      reads this, lru
    {
      if lru == null then [] else lru.ll
    }

    /** The values held, by key; none while the engine does not exist. */
    ghost function Contents(): map<string, Byteview>
      reads this, lru
    {
      if lru == null then map[] else lru.cache
    }

    /** `cache{cacheBytes: cacheBytes}`: no engine yet. */
    constructor (cacheBytes: int)
      requires cacheBytes >= 0
      ensures Valid() && lru == null && this.cacheBytes == cacheBytes
    {
      this.cacheBytes := cacheBytes;
      lru := null;
    }

    /** `add`: creates the engine with capacity `cacheBytes` on first use, then adds. */
    method Add(key: string, value: Byteview)
      requires Valid()
      modifies this`lru, lru
      ensures Valid() && lru != null
      ensures old(lru) != null ==> lru == old(lru)
      ensures old(lru) == null ==> fresh(lru)
      ensures lru.ll == Lru.Trim(Lru.Inserted(old(Entries()), key, value), cacheBytes, ViewLen).0
      ensures lru.ll != [] ==> key in lru.cache && lru.cache[key] == value
      ensures lru.evicted == (if old(lru) == null then [] else old(lru.evicted))
    {
      if lru == null {
        lru := new Lru.Cache(cacheBytes, false, ViewLen);
      }
      Lru.AddThenGet(lru.ll, key, value, cacheBytes, ViewLen);
      lru.Add(key, value);
    }

    /** `get`: not found while the engine does not exist (and it is not created);
        otherwise the engine's `Get`, which also promotes the entry. */
    method Get(key: string) returns (value: Option<Byteview>)
      requires Valid()
      modifies lru
      ensures Valid() && lru == old(lru)
      ensures lru == null ==> value == None
      ensures lru != null ==>
        && (key in old(lru.cache) ==> value == Some(old(lru.cache)[key]) && key in Lru.Keys(old(lru.ll)) && lru.ll == Lru.MoveToFront(old(lru.ll), Lru.IndexOf(old(lru.ll), key)))
        && (key !in old(lru.cache) ==> value == None && lru.ll == old(lru.ll))
        && lru.cache == old(lru.cache) && lru.nbytes == old(lru.nbytes) && lru.evicted == old(lru.evicted)
    {
      if lru == null {
        return None;
      }
      value := lru.Get(key);
    }
  }
}
