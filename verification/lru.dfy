/** The byte-bounded LRU engine (geecache/lru/lru.go).

    The doubly linked list `ll` is modelled as a sequence whose first element is
    the front (most recently used) and whose last element is the back (least
    recently used).  The index `cache` maps each present key to the value held by
    its list element: a Go `*list.Element` and its entry are one object, so the
    model keeps only the entry. */
module Lru {
  import opened Wrappers

  /** A list entry: the key is kept so that eviction can delete it from the index. */
  datatype Entry<V> = Entry(key: string, value: V)

  /** Bytes charged for one entry: `len(key) + value.Len()`. */
  function Size<V>(e: Entry<V>, valueLen: V -> nat): nat
  {
    |e.key| + valueLen(e.value)
  }

  /** Bytes charged for all entries of a list. */
  function Bytes<V>(s: seq<Entry<V>>, valueLen: V -> nat): nat
  {
    if s == [] then 0 else Size(s[0], valueLen) + Bytes(s[1..], valueLen)
  }

  /** The keys present in a list. */
  function Keys<V>(s: seq<Entry<V>>): set<string>
  {
    if s == [] then {} else {s[0].key} + Keys(s[1..])
  }

  /** No key occurs twice in the list. */
  predicate DistinctKeys<V>(s: seq<Entry<V>>)
  {
    s != [] ==> s[0].key !in Keys(s[1..]) && DistinctKeys(s[1..])
  }

  /** The map from each key of the list to the value of its entry: what the
      index must hold. */
  function Index<V>(s: seq<Entry<V>>): map<string, V>
  {
    if s == [] then map[] else Index(s[1..])[s[0].key := s[0].value]
  }

  /** Position of a present key. */
  function IndexOf<V>(s: seq<Entry<V>>, key: string): (i: nat)
    requires key in Keys(s)
    ensures i < |s| && s[i].key == key
  {
    if s[0].key == key then 0 else 1 + IndexOf(s[1..], key)
  }

  /** The list without its element at position `i`. */
  function Without<V>(s: seq<Entry<V>>, i: nat): seq<Entry<V>>
    requires i < |s|
  {
    s[..i] + s[i + 1..]
  }

  /** `ll.MoveToFront` of the element at position `i`. */
  function MoveToFront<V>(s: seq<Entry<V>>, i: nat): seq<Entry<V>>
    requires i < |s|
  {
    [s[i]] + Without(s, i)
  }

  /** The list right after `Add` has updated or pushed the entry, before eviction. */
  function Inserted<V>(s: seq<Entry<V>>, key: string, value: V): seq<Entry<V>>
  {
    if key in Keys(s) then [Entry(key, value)] + Without(s, IndexOf(s, key))
    else [Entry(key, value)] + s
  }

  /** The eviction loop of `Add` on a list: while the capacity is non-zero and
      exceeded, drop the back entry.  Gives the entries kept and the entries
      evicted, in eviction order. */
  function Trim<V>(s: seq<Entry<V>>, maxBytes: nat, valueLen: V -> nat): (seq<Entry<V>>, seq<Entry<V>>)
    decreases |s|
  {
    if maxBytes == 0 || Bytes(s, valueLen) <= maxBytes || s == [] then (s, [])
    else
      var rest := Trim(s[..|s| - 1], maxBytes, valueLen);
      (rest.0, [s[|s| - 1]] + rest.1)
  }

  class Cache<V> {
    /** Capacity in bytes; 0 means unbounded. */
    const maxBytes: int
    /** `Value.Len()` of the stored values. */
    const valueLen: V -> nat
    /** Whether an `OnEvicted` callback is installed. */
    const hasOnEvicted: bool
    /** Bytes currently charged. */
    var nbytes: int
    /** The recency list, front first. */
    var ll: seq<Entry<V>>
    /** The index from key to the value of its list element. */
    var cache: map<string, V>
    /** The calls made to `OnEvicted` so far, in order. */
    var evicted: seq<Entry<V>>

    /** The list and the index hold the same keys and the byte count is exact. */
    ghost predicate Consistent()
      reads this
    {
      && maxBytes >= 0
      && DistinctKeys(ll)
      && cache == Index(ll)
      && nbytes == Bytes(ll, valueLen)
    }

    /** The byte count is within a non-zero capacity. */
    ghost predicate WithinCapacity()
      reads this
    {
      maxBytes != 0 ==> nbytes <= maxBytes
    }

    /** The invariant kept by every public operation. */
    ghost predicate Valid()
      reads this
    {
      Consistent() && WithinCapacity()
    }

    /** `New`: an empty cache. */
    constructor (maxBytes: int, hasOnEvicted: bool, valueLen: V -> nat)
      requires maxBytes >= 0
      ensures Valid()
      ensures this.maxBytes == maxBytes && this.hasOnEvicted == hasOnEvicted && this.valueLen == valueLen
      ensures ll == [] && cache == map[] && nbytes == 0 && evicted == []
    {
      this.maxBytes := maxBytes;
      this.valueLen := valueLen;
      this.hasOnEvicted := hasOnEvicted;
      nbytes := 0;
      ll := [];
      cache := map[];
      evicted := [];
    }

    /** `Get`: on a hit, returns the value and moves its entry to the front. */
    method Get(key: string) returns (value: Option<V>)
      requires Valid()
      modifies this`ll
      ensures Valid()
      ensures key in old(cache) ==> key in Keys(old(ll)) && value == Some(old(cache)[key]) && ll == MoveToFront(old(ll), IndexOf(old(ll), key))
      ensures key !in old(cache) ==> value == None && ll == old(ll)
    {
      IndexKeys(ll);
      if key in cache {
        var i := IndexOf(ll, key);
        MoveToFrontKeepsIndex(ll, i, valueLen);
        ll := MoveToFront(ll, i);
        value := Some(cache[key]);
      } else {
        value := None;
      }
    }

    /** `RemoveOldest`: drops the back entry, if any, and reports it to `OnEvicted`. */
    method RemoveOldest()
      requires Consistent()
      modifies this`ll, this`cache, this`nbytes, this`evicted
      ensures Consistent()
      ensures old(WithinCapacity()) ==> WithinCapacity()
      ensures old(ll) == [] ==> ll == [] && cache == old(cache) && nbytes == old(nbytes) && evicted == old(evicted)
      ensures old(ll) != [] ==>
        var back := old(ll)[|old(ll)| - 1];
        && ll == old(ll)[..|old(ll)| - 1]
        && cache == old(cache) - {back.key}
        && nbytes == old(nbytes) - Size(back, valueLen)
        && evicted == old(evicted) + (if hasOnEvicted then [back] else [])
    {
      if ll != [] {
        var back := ll[|ll| - 1];
        RemoveBackKeepsIndex(ll, valueLen);
        ll := ll[..|ll| - 1];
        cache := cache - {back.key};
        nbytes := nbytes - (|back.key| + valueLen(back.value));
        if hasOnEvicted {
          evicted := evicted + [back];
        }
      }
    }

    /** `Add`: updates or pushes the entry at the front, then evicts from the back
        while a non-zero capacity is exceeded. */
    method Add(key: string, value: V)
      requires Valid()
      modifies this`ll, this`cache, this`nbytes, this`evicted
      ensures Valid()
      ensures ll == Trim(Inserted(old(ll), key, value), maxBytes, valueLen).0
      ensures evicted == old(evicted) + (if hasOnEvicted then Trim(Inserted(old(ll), key, value), maxBytes, valueLen).1 else [])
      ensures maxBytes == 0 ==> ll == Inserted(old(ll), key, value) && evicted == old(evicted)
    {
      IndexKeys(ll);
      InsertedKeepsIndex(ll, key, value, valueLen);
      if key in cache {
        var i := IndexOf(ll, key);
        nbytes := nbytes + valueLen(value) - valueLen(cache[key]);
        ll := [Entry(key, value)] + Without(ll, i);
      } else {
        nbytes := nbytes + |key| + valueLen(value);
        ll := [Entry(key, value)] + ll;
      }
      cache := cache[key := value];
      ghost var target := Trim(ll, maxBytes, valueLen);
      ghost var gone: seq<Entry<V>> := [];
      ghost var before := evicted;
      while maxBytes != 0 && maxBytes < nbytes
        invariant Consistent()
        invariant Evicting(ll, gone, target, maxBytes, valueLen)
        invariant hasOnEvicted ==> evicted == before + gone
        invariant !hasOnEvicted ==> evicted == before
        decreases |ll|
      {
        EvictStep(ll, gone, target, maxBytes, valueLen);
        var back := ll[|ll| - 1];
        RemoveOldest();
        assert hasOnEvicted ==> evicted == before + (gone + [back]) by {
          assert before + gone + [back] == before + (gone + [back]);
        }
        gone := gone + [back];
      }
      EvictDone(ll, gone, target, maxBytes, valueLen);
    }

    /** `Len`: the number of entries, which is also the number of index entries. */
    method Len() returns (n: nat)
      requires Valid()
      ensures n == |ll| == |cache|
    {
      DistinctKeysCount(ll);
      n := |ll|;
    }
  }

  /* ---------- Lemmas about the list operations ---------- */

  lemma {:induction false} BytesAppend<V>(a: seq<Entry<V>>, b: seq<Entry<V>>, valueLen: V -> nat)
    ensures Bytes(a + b, valueLen) == Bytes(a, valueLen) + Bytes(b, valueLen)
  {
    if a != [] {
      assert (a + b)[1..] == a[1..] + b;
      BytesAppend(a[1..], b, valueLen);
    } else {
      assert a + b == b;
    }
  }

  lemma {:induction false} IndexKeys<V>(s: seq<Entry<V>>)
    ensures Index(s).Keys == Keys(s)
  {
    if s != [] { IndexKeys(s[1..]); }
  }

  lemma {:induction false} AppendIndex<V>(a: seq<Entry<V>>, b: seq<Entry<V>>)
    ensures Keys(a + b) == Keys(a) + Keys(b)
    ensures Index(a + b) == Index(b) + Index(a)
    ensures DistinctKeys(a + b) <==> DistinctKeys(a) && DistinctKeys(b) && Keys(a) !! Keys(b)
  {
    if a == [] {
      assert a + b == b;
    } else {
      assert (a + b)[1..] == a[1..] + b;
      AppendIndex(a[1..], b);
    }
  }

  /** Removing the element at `i` keeps the other entries and their index. */
  lemma WithoutKeepsIndex<V>(s: seq<Entry<V>>, i: nat, valueLen: V -> nat)
    requires i < |s| && DistinctKeys(s)
    ensures DistinctKeys(Without(s, i)) && s[i].key !in Keys(Without(s, i))
    ensures Keys(Without(s, i)) == Keys(s) - {s[i].key}
    ensures Index(Without(s, i)) == Index(s) - {s[i].key}
    ensures Bytes(s, valueLen) == Bytes(Without(s, i), valueLen) + Size(s[i], valueLen)
  {
    WithoutKeys(s, i);
    WithoutBytes(s, i, valueLen);
  }

  lemma {:induction false} WithoutBytes<V>(s: seq<Entry<V>>, i: nat, valueLen: V -> nat)
    requires i < |s|
    ensures Bytes(s, valueLen) == Bytes(Without(s, i), valueLen) + Size(s[i], valueLen)
  {
    var w := Without(s, i);
    if i == 0 {
      assert w == s[1..];
    } else {
      var t := s[1..];
      assert w == [s[0]] + Without(t, i - 1);
      assert w[1..] == Without(t, i - 1);
      assert t[i - 1] == s[i];
      WithoutBytes(t, i - 1, valueLen);
    }
  }

  lemma {:induction false} WithoutKeys<V>(s: seq<Entry<V>>, i: nat)
    requires i < |s| && DistinctKeys(s)
    ensures DistinctKeys(Without(s, i)) && s[i].key !in Keys(Without(s, i))
    ensures Keys(Without(s, i)) == Keys(s) - {s[i].key}
    ensures Index(Without(s, i)) == Index(s) - {s[i].key}
  {
    var w := Without(s, i);
    if i == 0 {
      assert w == s[1..];
      IndexKeys(s[1..]);
    } else {
      var t := s[1..];
      assert w == [s[0]] + Without(t, i - 1);
      assert w[1..] == Without(t, i - 1);
      assert t[i - 1] == s[i];
      WithoutKeys(t, i - 1);
      assert s[0].key != s[i].key by { ElementKey(t, i - 1); }
    }
  }

  lemma ElementKey<V>(s: seq<Entry<V>>, i: nat)
    requires i < |s|
    ensures s[i].key in Keys(s)
  {
    if i > 0 { ElementKey(s[1..], i - 1); }
  }

  /** Moving an element to the front keeps keys, index and byte count. */
  lemma MoveToFrontKeepsIndex<V>(s: seq<Entry<V>>, i: nat, valueLen: V -> nat)
    requires i < |s| && DistinctKeys(s)
    ensures DistinctKeys(MoveToFront(s, i))
    ensures Index(MoveToFront(s, i)) == Index(s)
    ensures Bytes(MoveToFront(s, i), valueLen) == Bytes(s, valueLen)
  {
    WithoutKeepsIndex(s, i, valueLen);
    var m := MoveToFront(s, i);
    var k := s[i].key;
    assert m[0] == s[i] && m[1..] == Without(s, i);
    IndexAt(s, i);
    assert Index(m) == (Index(s) - {k})[k := s[i].value];
    RestoreKey(Index(s), k);
  }

  /** Removing a key before writing it makes no difference. */
  lemma ReplaceKey<K, V>(m: map<K, V>, k: K, v: V)
    ensures (m - {k})[k := v] == m[k := v]
  {
    var r := (m - {k})[k := v];
    assert r.Keys == m[k := v].Keys;
  }

  /** Removing a key and putting back its value gives the same map. */
  lemma RestoreKey<K, V>(m: map<K, V>, k: K)
    requires k in m
    ensures (m - {k})[k := m[k]] == m
  {
    var r := (m - {k})[k := m[k]];
    assert r.Keys == m.Keys;
    assert forall x | x in r :: r[x] == m[x];
  }

  /** The index maps the key of each element of a list without duplicates to that element's value. */
  lemma {:induction false} IndexAt<V>(s: seq<Entry<V>>, i: nat)
    requires i < |s| && DistinctKeys(s)
    ensures s[i].key in Index(s) && Index(s)[s[i].key] == s[i].value
  {
    if i > 0 {
      IndexAt(s[1..], i - 1);
      assert s[i].key in Keys(s[1..]) by { IndexKeys(s[1..]); }
    }
  }

  /** The state `Add` reaches before its eviction loop is consistent. */
  lemma InsertedKeepsIndex<V>(s: seq<Entry<V>>, key: string, value: V, valueLen: V -> nat)
    requires DistinctKeys(s)
    ensures DistinctKeys(Inserted(s, key, value))
    ensures Index(Inserted(s, key, value)) == Index(s)[key := value]
    ensures key in Keys(s) ==> key in Index(s) && Bytes(Inserted(s, key, value), valueLen) == Bytes(s, valueLen) + valueLen(value) - valueLen(Index(s)[key])
    ensures key !in Keys(s) ==> Bytes(Inserted(s, key, value), valueLen) == Bytes(s, valueLen) + |key| + valueLen(value)
  {
    var t := Inserted(s, key, value);
    if key in Keys(s) {
      var i := IndexOf(s, key);
      WithoutKeepsIndex(s, i, valueLen);
      IndexAt(s, i);
      assert t[1..] == Without(s, i);
      ReplaceKey(Index(s), key, value);
    } else {
      assert t[1..] == s;
    }
  }

  /** Dropping the back entry keeps the index of the remaining keys. */
  lemma RemoveBackKeepsIndex<V>(s: seq<Entry<V>>, valueLen: V -> nat)
    requires s != [] && DistinctKeys(s)
    ensures DistinctKeys(s[..|s| - 1])
    ensures Index(s[..|s| - 1]) == Index(s) - {s[|s| - 1].key}
    ensures Bytes(s, valueLen) == Bytes(s[..|s| - 1], valueLen) + Size(s[|s| - 1], valueLen)
  {
    assert Without(s, |s| - 1) == s[..|s| - 1];
    WithoutKeepsIndex(s, |s| - 1, valueLen);
  }

  /** With distinct keys, the index has exactly one entry per list element. */
  lemma {:induction false} DistinctKeysCount<V>(s: seq<Entry<V>>)
    requires DistinctKeys(s)
    ensures |Index(s)| == |s|
  {
    if s != [] {
      DistinctKeysCount(s[1..]);
      IndexKeys(s[1..]);
    }
  }

  /* ---------- What the eviction loop guarantees ---------- */

  /** The entries kept are a prefix of the list and the evicted ones are its
      remaining tail, taken from the back: strict least-recently-used order. */
  lemma {:induction false} TrimSplits<V>(s: seq<Entry<V>>, maxBytes: nat, valueLen: V -> nat)
    ensures var (kept, gone) := Trim(s, maxBytes, valueLen);
      && |kept| + |gone| == |s|
      && kept == s[..|kept|]
      && forall j :: 0 <= j < |gone| ==> gone[j] == s[|s| - 1 - j]
    decreases |s|
  {
    if !(maxBytes == 0 || Bytes(s, valueLen) <= maxBytes || s == []) {
      var t := s[..|s| - 1];
      TrimSplits(t, maxBytes, valueLen);
      var (kept, gone) := Trim(t, maxBytes, valueLen);
      assert Trim(s, maxBytes, valueLen) == (kept, [s[|s| - 1]] + gone);
      var g := [s[|s| - 1]] + gone;
      forall j | 0 < j < |g| ensures g[j] == s[|s| - 1 - j] {
        assert g[j] == gone[j - 1] == t[|t| - 1 - (j - 1)];
      }
    }
  }

  /** The state of the eviction loop of `Add`: `ll` is what is left of the
      inserted list, and the entries evicted so far followed by those the loop
      will still evict are exactly those `Trim` evicts. */
  ghost predicate Evicting<V>(ll: seq<Entry<V>>, gone: seq<Entry<V>>, target: (seq<Entry<V>>, seq<Entry<V>>), maxBytes: nat, valueLen: V -> nat)
  {
    Trim(ll, maxBytes, valueLen).0 == target.0 && gone + Trim(ll, maxBytes, valueLen).1 == target.1
  }

  /** One round of the eviction loop keeps its state: the back entry is the next one evicted. */
  lemma EvictStep<V>(ll: seq<Entry<V>>, gone: seq<Entry<V>>, target: (seq<Entry<V>>, seq<Entry<V>>), maxBytes: nat, valueLen: V -> nat)
    requires Evicting(ll, gone, target, maxBytes, valueLen)
    requires maxBytes != 0 && Bytes(ll, valueLen) > maxBytes
    ensures ll != [] && Evicting(ll[..|ll| - 1], gone + [ll[|ll| - 1]], target, maxBytes, valueLen)
  {
    var rest := Trim(ll[..|ll| - 1], maxBytes, valueLen).1;
    assert gone + ([ll[|ll| - 1]] + rest) == (gone + [ll[|ll| - 1]]) + rest;
  }

  /** When the loop stops, the list is what `Trim` keeps and the evicted entries are what it drops. */
  lemma EvictDone<V>(ll: seq<Entry<V>>, gone: seq<Entry<V>>, target: (seq<Entry<V>>, seq<Entry<V>>), maxBytes: nat, valueLen: V -> nat)
    requires Evicting(ll, gone, target, maxBytes, valueLen)
    requires !(maxBytes != 0 && maxBytes < Bytes(ll, valueLen))
    ensures ll == target.0 && gone == target.1
  {
    assert Trim(ll, maxBytes, valueLen) == (ll, []);
    assert gone + [] == gone;
  }

  /** With a non-zero capacity, what the loop keeps fits in it. */
  lemma {:induction false} TrimFits<V>(s: seq<Entry<V>>, maxBytes: nat, valueLen: V -> nat)
    requires maxBytes != 0
    ensures Bytes(Trim(s, maxBytes, valueLen).0, valueLen) <= maxBytes
    decreases |s|
  {
    if Bytes(s, valueLen) > maxBytes {
      assert s != [];
      TrimFits(s[..|s| - 1], maxBytes, valueLen);
    }
  }

  /** With capacity 0 nothing is evicted. */
  lemma TrimUnbounded<V>(s: seq<Entry<V>>, valueLen: V -> nat)
    ensures Trim(s, 0, valueLen) == (s, [])
  {
  }

  /** The loop stops as soon as the list fits: keeping one more entry would not fit. */
  lemma {:induction false} TrimLongest<V>(s: seq<Entry<V>>, maxBytes: nat, valueLen: V -> nat)
    ensures var (kept, gone) := Trim(s, maxBytes, valueLen);
      gone != [] ==> |kept| < |s| && Bytes(s[..|kept| + 1], valueLen) > maxBytes
    decreases |s|
  {
    if !(maxBytes == 0 || Bytes(s, valueLen) <= maxBytes || s == []) {
      var t := s[..|s| - 1];
      TrimLongest(t, maxBytes, valueLen);
      TrimSplits(t, maxBytes, valueLen);
      var (kept, gone) := Trim(t, maxBytes, valueLen);
      if gone == [] {
        assert kept == t;
        assert s[..|kept| + 1] == s;
      } else {
        assert s[..|kept| + 1] == t[..|kept| + 1];
      }
    }
  }

  /** The entry `Add` just wrote is at the front of what is kept, unless the loop
      evicted everything. */
  lemma AddedEntryFirst<V>(s: seq<Entry<V>>, key: string, value: V, maxBytes: nat, valueLen: V -> nat)
    ensures var kept := Trim(Inserted(s, key, value), maxBytes, valueLen).0;
      kept == [] || kept[0] == Entry(key, value)
  {
    TrimSplits(Inserted(s, key, value), maxBytes, valueLen);
  }

  /** An entry larger than a non-zero capacity on its own is inserted and then
      evicted, together with everything else. */
  lemma OversizedEntryEvicted<V>(s: seq<Entry<V>>, key: string, value: V, maxBytes: nat, valueLen: V -> nat)
    requires maxBytes != 0 && |key| + valueLen(value) > maxBytes
    ensures Trim(Inserted(s, key, value), maxBytes, valueLen).0 == []
  {
    var t := Inserted(s, key, value);
    var kept := Trim(t, maxBytes, valueLen).0;
    TrimFits(t, maxBytes, valueLen);
    AddedEntryFirst(s, key, value, maxBytes, valueLen);
  }

  /** Reading a key right after `Add` wrote it finds the value written, unless the
      loop evicted everything. */
  lemma AddThenGet<V>(s: seq<Entry<V>>, key: string, value: V, maxBytes: nat, valueLen: V -> nat)
    ensures var kept := Trim(Inserted(s, key, value), maxBytes, valueLen).0;
      kept != [] ==> key in Index(kept) && Index(kept)[key] == value
  {
    AddedEntryFirst(s, key, value, maxBytes, valueLen);
  }

  /** The eviction guard of `Add` as written, for any capacity. */
  predicate OverCapacity(maxBytes: int, nbytes: int)
  {
    maxBytes != 0 && maxBytes < nbytes
  }

  /** With a negative capacity the guard holds for every list, even the empty one,
      on which `RemoveOldest` changes nothing: the loop of `Add` never ends. */
  lemma NegativeCapacityNeverFits<V>(s: seq<Entry<V>>, maxBytes: int, valueLen: V -> nat)
    requires maxBytes < 0
    ensures OverCapacity(maxBytes, Bytes(s, valueLen))
    ensures OverCapacity(maxBytes, 0)
  {
  }
}
