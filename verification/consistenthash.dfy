/** The consistent-hash ring (geecache/consistenthash/consistenthash.go). */
module ConsistentHash {
  import opened Wrappers

  /** The values a Go `uint32` can hold. */
  type Uint32 = x: int | 0 <= x < 0x1_0000_0000

  /** `Hash`: maps the bytes of a string to a `uint32`.  Which function is used
      is a parameter of the model. */
  type Hash = string -> Uint32

  /** The decimal digit character for `d`. */
  function Digit(d: nat): char
    requires d < 10
  {
    "0123456789"[d]
  }

  /** `strconv.Itoa` for non-negative numbers. */
  function Itoa(i: nat): string
  {
    if i < 10 then [Digit(i)] else Itoa(i / 10) + [Digit(i % 10)]
  }

  predicate Sorted(s: seq<int>)
  {
    forall i, j :: 0 <= i < j < |s| ==> s[i] <= s[j]
  }

  /* ---------- sort.Ints, as a function on sequences ---------- */

  function InsertSorted(x: int, s: seq<int>): seq<int>
  {
    if s == [] || x <= s[0] then [x] + s else [s[0]] + InsertSorted(x, s[1..])
  }

  /** The ascending rearrangement of `s`. */
  function SortInts(s: seq<int>): seq<int>
  {
    if s == [] then [] else InsertSorted(s[0], SortInts(s[1..]))
  }

  lemma {:induction false} InsertSortedElements(x: int, s: seq<int>)
    ensures multiset(InsertSorted(x, s)) == multiset(s) + multiset{x}
  {
    if s != [] && x > s[0] {
      InsertSortedElements(x, s[1..]);
      assert s == [s[0]] + s[1..];
    }
  }
  lemma {:induction false} InsertSortedBound(x: int, s: seq<int>, b: int)
    requires b <= x && forall k :: 0 <= k < |s| ==> b <= s[k]
    ensures forall k :: 0 <= k < |InsertSorted(x, s)| ==> b <= InsertSorted(x, s)[k]
  {
    if s != [] && x > s[0] {
      InsertSortedBound(x, s[1..], b);
    }
  }
  lemma {:induction false} InsertSortedCorrect(x: int, s: seq<int>)
    requires Sorted(s)
    ensures Sorted(InsertSorted(x, s))
  {
    if s != [] && x > s[0] {
      var tail := s[1..];
      InsertSortedCorrect(x, tail);
      InsertSortedBound(x, tail, s[0]);
      var t := InsertSorted(x, tail);
      var r := [s[0]] + t;
      assert r == InsertSorted(x, s);
      forall i, j | 0 <= i < j < |r| ensures r[i] <= r[j] {
        if i == 0 {
          assert r[j] == t[j - 1];
        } else {
          assert r[i] == t[i - 1] && r[j] == t[j - 1];
        }
      }
    } else {
      var r := [x] + s;
      forall i, j | 0 <= i < j < |r| ensures r[i] <= r[j] {
        if i == 0 {
          assert r[j] == s[j - 1];
        } else {
          assert r[i] == s[i - 1] && r[j] == s[j - 1];
        }
      }
    }
  }

  /** `sort.Ints` sorts ascending and keeps every element with its multiplicity. */
  lemma {:induction false} SortIntsCorrect(s: seq<int>)
    ensures Sorted(SortInts(s))
    ensures multiset(SortInts(s)) == multiset(s)
  {
    if s != [] {
      SortIntsCorrect(s[1..]);
      InsertSortedCorrect(s[0], SortInts(s[1..]));
      InsertSortedElements(s[0], SortInts(s[1..]));
      assert s == [s[0]] + s[1..];
    }
  }

  /* ---------- Virtual nodes ---------- */

  /** How many virtual nodes each real node gets: the loop `i < replicas` runs
      no time when `replicas` is not positive. */
  function ReplicaCount(replicas: int): nat
  {
    if replicas > 0 then replicas else 0
  }

  /** The virtual nodes of one real node, in the order `Add` creates them:
      `hash(Itoa(i) + node)` for `i` in `[0, replicas)`. */
  function Replicas(hash: Hash, replicas: int, node: string): seq<(int, string)>
  {
    seq(ReplicaCount(replicas), i requires 0 <= i < ReplicaCount(replicas) => (hash(Itoa(i) + node) as int, node))
  }

  /** The virtual nodes of a list of real nodes, in creation order. */
  function VirtualNodes(hash: Hash, replicas: int, nodes: seq<string>): seq<(int, string)>
  {
    if nodes == [] then []
    else VirtualNodes(hash, replicas, nodes[..|nodes| - 1]) + Replicas(hash, replicas, nodes[|nodes| - 1])
  }

  /** The hash values of a list of virtual nodes. */
  function HashesOf(ps: seq<(int, string)>): seq<int>
  {
    if ps == [] then [] else HashesOf(ps[..|ps| - 1]) + [ps[|ps| - 1].0]
  }

  /** Writing the virtual nodes into the map one after another: a later write to
      the same hash replaces an earlier one. */
  function Apply(m: map<int, string>, ps: seq<(int, string)>): map<int, string>
  {
    if ps == [] then m else Apply(m, ps[..|ps| - 1])[ps[|ps| - 1].0 := ps[|ps| - 1].1]
  }

  /** `Add` creates exactly `replicas` virtual nodes per real node. */
  lemma {:induction false} VirtualNodesCount(hash: Hash, replicas: int, nodes: seq<string>)
    ensures |VirtualNodes(hash, replicas, nodes)| == |nodes| * ReplicaCount(replicas)
  {
    if nodes != [] {
      var n := |nodes|;
      VirtualNodesCount(hash, replicas, nodes[..n - 1]);
      assert (n - 1) * ReplicaCount(replicas) + ReplicaCount(replicas) == n * ReplicaCount(replicas);
    }
  }

  lemma {:induction false} HashesOfLength(ps: seq<(int, string)>)
    ensures |HashesOf(ps)| == |ps|
    ensures forall j :: 0 <= j < |ps| ==> HashesOf(ps)[j] == ps[j].0
  {
    if ps != [] {
      HashesOfLength(ps[..|ps| - 1]);
    }
  }

  /** A virtual node that no later one collides with keeps its real node in the map. */
  lemma {:induction false} ApplyLastWriteWins(m: map<int, string>, ps: seq<(int, string)>, p: nat)
    requires p < |ps|
    requires forall q :: p < q < |ps| ==> ps[q].0 != ps[p].0
    ensures ps[p].0 in Apply(m, ps) && Apply(m, ps)[ps[p].0] == ps[p].1
  {
    if p < |ps| - 1 {
      ApplyLastWriteWins(m, ps[..|ps| - 1], p);
    }
  }

  /** Writing virtual nodes only adds their hashes to the map's keys, and only
      their real nodes to its values. */
  lemma {:induction false} ApplyKeysValues(m: map<int, string>, ps: seq<(int, string)>)
    ensures Apply(m, ps).Keys == m.Keys + set j | 0 <= j < |ps| :: ps[j].0
    ensures forall h :: h in Apply(m, ps) ==> Apply(m, ps)[h] in m.Values + set j | 0 <= j < |ps| :: ps[j].1
  {
    if ps != [] {
      var init := ps[..|ps| - 1];
      ApplyKeysValues(m, init);
      assert forall j :: 0 <= j < |init| ==> init[j] == ps[j];
      assert ps[|ps| - 1].0 in set j | 0 <= j < |ps| :: ps[j].0;
      assert ps[|ps| - 1].1 in set j | 0 <= j < |ps| :: ps[j].1;
    }
  }

  /** Replica `i` of the `k`-th added node is among the virtual nodes. */
  lemma {:induction false} ReplicaInVirtualNodes(hash: Hash, replicas: int, added: seq<string>, k: nat, i: nat)
    requires k < |added| && i < ReplicaCount(replicas)
    ensures (hash(Itoa(i) + added[k]) as int, added[k]) in VirtualNodes(hash, replicas, added)
  {
    var n := |added|;
    var init := added[..n - 1];
    if k < n - 1 {
      ReplicaInVirtualNodes(hash, replicas, init, k, i);
      assert init[k] == added[k];
    } else {
      assert Replicas(hash, replicas, added[k])[i] == (hash(Itoa(i) + added[k]) as int, added[k]);
    }
  }

  /** After `Add`, the hash of every replica of every added node is on the
      sorted ring and is a key of the hash map. */
  lemma ReplicaOnRing(hash: Hash, replicas: int, keys: seq<int>, m: map<int, string>, added: seq<string>, k: nat, i: nat)
    requires k < |added| && i < ReplicaCount(replicas)
    ensures var h := hash(Itoa(i) + added[k]) as int;
      var ps := VirtualNodes(hash, replicas, added);
      h in SortInts(keys + HashesOf(ps)) && h in Apply(m, ps)
  {
    var h := hash(Itoa(i) + added[k]) as int;
    var ps := VirtualNodes(hash, replicas, added);
    ReplicaInVirtualNodes(hash, replicas, added, k, i);
    var j :| 0 <= j < |ps| && ps[j] == (h, added[k]);
    HashesOfLength(ps);
    assert (keys + HashesOf(ps))[|keys| + j] == h;
    SortIntsCorrect(keys + HashesOf(ps));
    assert h in multiset(SortInts(keys + HashesOf(ps)));
    ApplyKeysValues(m, ps);
  }

  /* ---------- Successor lookup ---------- */

  /** `sort.Search`: the first position whose value is at least `h`, or `|keys|`. */
  function FirstAtLeast(keys: seq<int>, h: int): (r: nat)
    ensures r <= |keys|
    ensures forall j :: 0 <= j < r ==> keys[j] < h
    ensures r < |keys| ==> keys[r] >= h
  {
    if keys == [] || keys[0] >= h then 0 else 1 + FirstAtLeast(keys[1..], h)
  }

  /** The ring position `Get` picks: the smallest ring value at least `h`, or,
      when every ring value is below `h`, the first position (the ring wraps). */
  function Successor(keys: seq<int>, h: int): (i: nat)
    requires keys != [] && Sorted(keys)
    ensures i < |keys|
    ensures keys[i] >= h ==> forall j :: 0 <= j < |keys| && keys[j] >= h ==> keys[i] <= keys[j]
    ensures keys[i] < h ==> i == 0 && forall j :: 0 <= j < |keys| ==> keys[j] < h
  {
    var r := FirstAtLeast(keys, h);
    if r == |keys| then 0 else r
  }

  /** The binary search of `sort.Search` on a sorted ring. */
  method Search(keys: seq<int>, h: int) returns (idx: nat)
    requires Sorted(keys)
    ensures idx == FirstAtLeast(keys, h)
  {
    var lo, hi := 0, |keys|;
    while lo < hi
      invariant 0 <= lo <= hi <= |keys|
      invariant forall j :: 0 <= j < lo ==> keys[j] < h
      invariant forall j :: hi <= j < |keys| ==> keys[j] >= h
    {
      var mid := (lo + hi) / 2;
      if keys[mid] < h {
        lo := mid + 1;
      } else {
        hi := mid;
      }
    }
    idx := lo;
    FirstAtLeastUnique(keys, h, idx);
  }

  /** `idx % n` for a search result `idx` in `[0, n]`: the index wraps only at `n`. */
  lemma ModWrap(idx: nat, n: nat)
    requires 0 < n && idx <= n
    ensures idx % n == if idx == n then 0 else idx
  {
  }

  /** The conditions that define `sort.Search`'s answer have one solution. */
  lemma FirstAtLeastUnique(keys: seq<int>, h: int, idx: nat)
    requires idx <= |keys|
    requires forall j :: 0 <= j < idx ==> keys[j] < h
    requires idx < |keys| ==> keys[idx] >= h
    ensures idx == FirstAtLeast(keys, h)
  {
  }

  lemma {:induction false} HashesOfAppend(a: seq<(int, string)>, b: seq<(int, string)>)
    ensures HashesOf(a + b) == HashesOf(a) + HashesOf(b)
    decreases |b|
  {
    if b != [] {
      assert (a + b)[..|a + b| - 1] == a + b[..|b| - 1];
      HashesOfAppend(a, b[..|b| - 1]);
    } else {
      assert a + b == a;
    }
  }

  lemma {:induction false} ApplyAppend(m: map<int, string>, a: seq<(int, string)>, b: seq<(int, string)>)
    ensures Apply(m, a + b) == Apply(Apply(m, a), b)
    decreases |b|
  {
    if b != [] {
      assert (a + b)[..|a + b| - 1] == a + b[..|b| - 1];
      ApplyAppend(m, a, b[..|b| - 1]);
    } else {
      assert a + b == a;
    }
  }

  /** One round of `Add`'s outer loop appends the replicas of the next node. */
  lemma AddStep(hash: Hash, replicas: int, added: seq<string>, k: nat, keys: seq<int>, m: map<int, string>)
    requires k < |added|
    ensures var before := VirtualNodes(hash, replicas, added[..k]);
      var reps := Replicas(hash, replicas, added[k]);
      && keys + HashesOf(VirtualNodes(hash, replicas, added[..k + 1])) == keys + HashesOf(before) + HashesOf(reps)
      && Apply(m, VirtualNodes(hash, replicas, added[..k + 1])) == Apply(Apply(m, before), reps)
  {
    var before := VirtualNodes(hash, replicas, added[..k]);
    var reps := Replicas(hash, replicas, added[k]);
    assert added[..k + 1][..k] == added[..k];
    assert VirtualNodes(hash, replicas, added[..k + 1]) == before + reps;
    HashesOfAppend(before, reps);
    ApplyAppend(m, before, reps);
  }

  /** The ring is sorted, holds exactly the map's hash values, and every hash
      maps to one of the given real nodes. */
  ghost predicate RingValid(keys: seq<int>, hashMap: map<int, string>, nodes: set<string>)
  {
    && Sorted(keys)
    && (forall h :: h in keys <==> h in hashMap)
    && (forall h :: h in hashMap ==> hashMap[h] in nodes)
  }

  /** The real nodes named in a call to `Add`. */
  function NodeSet(added: seq<string>): (r: set<string>)
    ensures forall j :: 0 <= j < |added| ==> added[j] in r
    ensures forall n :: n in r ==> n in added
  {
    set j | 0 <= j < |added| :: added[j]
  }

  /** Every virtual node belongs to one of the real nodes it was made from. */
  lemma {:induction false} VirtualNodesOwners(hash: Hash, replicas: int, nodes: seq<string>)
    ensures forall j :: 0 <= j < |VirtualNodes(hash, replicas, nodes)| ==> VirtualNodes(hash, replicas, nodes)[j].1 in nodes
  {
    if nodes != [] {
      var init := nodes[..|nodes| - 1];
      VirtualNodesOwners(hash, replicas, init);
      var ps := VirtualNodes(hash, replicas, nodes);
      var a := VirtualNodes(hash, replicas, init);
      forall j | 0 <= j < |ps| ensures ps[j].1 in nodes {
        if j < |a| {
          assert ps[j] == a[j];
          assert a[j].1 in init;
        } else {
          assert ps[j] == Replicas(hash, replicas, nodes[|nodes| - 1])[j - |a|];
        }
      }
    }
  }

  /** `Add` keeps the ring invariant: sorting the extended ring and writing the
      virtual nodes into the map keep ring and map in step. */
  lemma AddKeepsRing(keys: seq<int>, hashMap: map<int, string>, nodes: set<string>, hash: Hash, replicas: int, added: seq<string>)
    requires RingValid(keys, hashMap, nodes)
    ensures var ps := VirtualNodes(hash, replicas, added);
      RingValid(SortInts(keys + HashesOf(ps)), Apply(hashMap, ps), nodes + NodeSet(added))
  {
    var ps := VirtualNodes(hash, replicas, added);
    var unsorted := keys + HashesOf(ps);
    var sorted := SortInts(unsorted);
    var m := Apply(hashMap, ps);
    var all := nodes + NodeSet(added);
    SortIntsCorrect(unsorted);
    HashesOfLength(ps);
    ApplyKeysValues(hashMap, ps);
    VirtualNodesOwners(hash, replicas, added);
    forall h ensures h in sorted <==> h in m {
      assert h in sorted <==> h in multiset(sorted);
      assert h in unsorted <==> h in multiset(unsorted);
      if h in HashesOf(ps) {
        var j :| 0 <= j < |HashesOf(ps)| && HashesOf(ps)[j] == h;
        assert ps[j].0 == h;
      }
      if h in set j | 0 <= j < |ps| :: ps[j].0 {
        var j :| 0 <= j < |ps| && ps[j].0 == h;
        assert HashesOf(ps)[j] == h;
      }
    }
    forall h | h in m ensures m[h] in all {
      if m[h] !in hashMap.Values {
        var j :| 0 <= j < |ps| && ps[j].1 == m[h];
        assert ps[j].1 in added;
      } else {
        var k :| k in hashMap && hashMap[k] == m[h];
      }
    }
  }

  /** `Map`: the hash function, the replica count, the sorted ring and the map
      from each ring value to its real node. */
  class Map {
    const hash: Hash
    const replicas: int
    var keys: seq<int>
    var hashMap: map<int, string>
    /** The real nodes added so far. */
    ghost var nodes: set<string>

    ghost predicate Valid()
      reads this
    {
      RingValid(keys, hashMap, nodes)
    }

    /** `New`: the supplied hash, or the default (CRC-32) when none is given. */
    constructor (replicas: int, fn: Option<Hash>, crc32: Hash)
      ensures Valid()
      ensures this.replicas == replicas && hash == (if fn.Some? then fn.value else crc32)
      ensures keys == [] && hashMap == map[] && nodes == {}
    {
      this.replicas := replicas;
      var f: Hash := crc32;
      if fn.Some? {
        f := fn.value;
      }
      hash := f;
      keys := [];
      hashMap := map[];
      nodes := {};
    }

    /** `Add`: appends every virtual node's hash to the ring and records its real
        node, then sorts the ring. */
    method Add(added: seq<string>)
      requires Valid()
      modifies this`keys, this`hashMap, this`nodes
      ensures Valid()
      ensures keys == SortInts(old(keys) + HashesOf(VirtualNodes(hash, replicas, added)))
      ensures hashMap == Apply(old(hashMap), VirtualNodes(hash, replicas, added))
      ensures nodes == old(nodes) + NodeSet(added)
    {
      var k := 0;
      while k < |added|
        invariant 0 <= k <= |added|
        invariant keys == old(keys) + HashesOf(VirtualNodes(hash, replicas, added[..k]))
        invariant hashMap == Apply(old(hashMap), VirtualNodes(hash, replicas, added[..k]))
        invariant nodes == old(nodes)
      {
        AddStep(hash, replicas, added, k, old(keys), old(hashMap));
        AddReplicas(added[k]);
        k := k + 1;
      }
      assert added[..k] == added;
      AddKeepsRing(old(keys), old(hashMap), old(nodes), hash, replicas, added);
      keys := SortInts(keys);
      nodes := nodes + NodeSet(added);
    }

    /** The inner loop of `Add`: the replicas of one real node, in order. */
    method AddReplicas(node: string)
      modifies this`keys, this`hashMap
      ensures keys == old(keys) + HashesOf(Replicas(hash, replicas, node))
      ensures hashMap == Apply(old(hashMap), Replicas(hash, replicas, node))
    {
      var i := 0;
      while i < replicas
        invariant 0 <= i <= ReplicaCount(replicas)
        invariant keys == old(keys) + HashesOf(Replicas(hash, replicas, node)[..i])
        invariant hashMap == Apply(old(hashMap), Replicas(hash, replicas, node)[..i])
      {
        var h := hash(Itoa(i) + node) as int;
        ghost var done := Replicas(hash, replicas, node)[..i + 1];
        assert done[..i] == Replicas(hash, replicas, node)[..i];
        assert done[i] == (h, node);
        keys := keys + [h];
        hashMap := hashMap[h := node];
        i := i + 1;
      }
      assert Replicas(hash, replicas, node)[..i] == Replicas(hash, replicas, node);
    }

    /** The real node a key belongs to: none on an empty ring, otherwise the
        node of the ring value that succeeds the key's hash. */
    function Owner(key: string): (node: string)
      reads this
      requires Valid()
      ensures keys == [] ==> node == ""
      ensures keys != [] ==> node in nodes
    {
      if keys == [] then ""
      else
        var v := keys[Successor(keys, hash(key))];
        assert v in hashMap;
        assert hashMap[v] in nodes;
        hashMap[v]
    }

    /** `Get`: `""` on an empty ring; otherwise the real node of the successor of
        `hash(key)` on the ring, which is always a node that was added. */
    method Get(key: string) returns (node: string)
      requires Valid()
      ensures node == Owner(key)
      ensures keys == [] ==> node == ""
      ensures keys != [] ==> keys[Successor(keys, hash(key))] in hashMap
      ensures keys != [] ==> node == hashMap[keys[Successor(keys, hash(key))]] && node in nodes
    {
      if |keys| == 0 {
        return "";
      }
      var h := hash(key) as int;
      var idx := Search(keys, h);
      ModWrap(idx, |keys|);
      node := hashMap[keys[idx % |keys|]];
    }
  }
}
