/** The cache namespace and its peers (geecache/geecache.go and the stateful
    half of geecache/http.go): a `Group` answers a key from its local cache, from
    the peer that owns the key, or from its data source; an `HTTPPool` picks that
    peer on a consistent-hash ring and serves other peers' requests; a `Registry`
    holds the groups by name. */
module GeeCache {
  import opened Wrappers
  import opened ByteView
  import MainCache
  import Lru
  import ConsistentHash
  import opened PeerHttp

  /** `Getter`: the data source's callback, loading the bytes for a key. */
  type Getter = string -> Result<seq<byte>>

  /** A request a group made for a value it did not hold: to its data source,
      or to the peer with the given base URL. */
  datatype Call = LoaderCall(key: string) | PeerCall(baseURL: string, key: string)

  /** The getter map that `Set` builds: each peer's getter has the base URL
      `peer + basePath`. */
  function Getters(peers: seq<string>, basePath: string): (m: map<string, HttpGetter>)
    ensures m.Keys == ConsistentHash.NodeSet(peers)
    ensures forall p | p in m :: m[p] == HttpGetter(p + basePath)
  {
    if peers == [] then map[]
    else
      var init, last := peers[..|peers| - 1], peers[|peers| - 1];
      assert ConsistentHash.NodeSet(peers) == ConsistentHash.NodeSet(init) + {last} by {
        assert peers == init + [last];
      }
      Getters(init, basePath)[last := HttpGetter(last + basePath)]
  }

  /** `HTTPPool`: this peer's address, the path prefix it serves, the ring of
      peers and a getter per peer. */
  class HTTPPool {
    const self: string
    const basePath: string
    /** The ring's default hash, CRC-32 (IEEE), which the model takes as given. */
    const crc32: ConsistentHash.Hash
    /** The ring, `nil` until `Set`. */
    var peers: ConsistentHash.Map?
    var httpGetter: map<string, HttpGetter>

    /** Once a ring exists, every real node on it has a getter and every getter
        addresses its peer under the base path. */
    ghost predicate Valid()
      reads this, peers
    {
      peers != null ==>
        && peers.Valid()
        && peers.nodes == httpGetter.Keys
        && (forall n | n in httpGetter :: httpGetter[n] == HttpGetter(n + basePath))
    }

    /** `NewHTTPPool`: no ring yet, and the default base path. */
    constructor (self: string, crc32: ConsistentHash.Hash)
      ensures Valid()
      ensures this.self == self && this.crc32 == crc32 && basePath == DefaultBasePath
      ensures peers == null && httpGetter == map[]
    {
      this.self := self;
      this.crc32 := crc32;
      basePath := DefaultBasePath;
      peers := null;
      httpGetter := map[];
    }

    /** `Set`: replaces the ring with a fresh one of 50 replicas per peer holding
        exactly the given peers, and replaces the getter map to match. */
    method Set(list: seq<string>)
      modifies this`peers, this`httpGetter
      ensures Valid()
      ensures fresh(peers)
      ensures peers.replicas == DefaultReplicas && peers.hash == crc32
      ensures peers.keys == ConsistentHash.SortInts(ConsistentHash.HashesOf(ConsistentHash.VirtualNodes(crc32, DefaultReplicas, list)))
      ensures peers.hashMap == ConsistentHash.Apply(map[], ConsistentHash.VirtualNodes(crc32, DefaultReplicas, list))
      ensures peers.nodes == ConsistentHash.NodeSet(list)
      ensures httpGetter == Getters(list, basePath)
    {
      var ring := new ConsistentHash.Map(DefaultReplicas, None, crc32);
      ghost var hashes := ConsistentHash.HashesOf(ConsistentHash.VirtualNodes(crc32, DefaultReplicas, list));
      assert ring.keys + hashes == hashes;
      ring.Add(list);
      peers := ring;
      var getters := map[];
      for i := 0 to |list|
        invariant getters == Getters(list[..i], basePath)
      {
        assert list[..i + 1][..i] == list[..i];
        getters := getters[list[i] := HttpGetter(list[i] + basePath)];
      }
      assert list[..|list|] == list;
      httpGetter := getters;
    }

    /** `PickPeer`: the getter of the peer that owns the key, unless the ring
        is empty or the owner is this peer itself. */
    function PickPeer(key: string): (r: Option<HttpGetter>)
      reads this, peers
      requires Valid() && peers != null
      ensures r.Some? <==> peers.Owner(key) != "" && peers.Owner(key) != self
      ensures r.Some? ==> r.value == HttpGetter(peers.Owner(key) + basePath)
    {
      var peer := peers.Owner(key);
      if peer != "" && peer != self then Some(httpGetter[peer]) else None
    }

    /** `ServeHTTP`: a path outside the base path panics (a `Failure` here);
        a bad path gets 400, an unknown group 404, a failed lookup 500 with the
        error's text, and a found value its bytes. */
    method ServeHTTP(path: string, registry: Registry, net: Network) returns (r: Result<Response>)
      requires registry.Valid()
      requires var route := ParsePath(basePath, path);
        route.Target? && route.group in registry.groups ==> registry.groups[route.group].CanGet(route.key)
      modifies registry.groups.Values
      modifies set g | g in registry.groups.Values :: g.mainCache
      modifies set g | g in registry.groups.Values :: g.mainCache.lru
      ensures registry.Valid()
      ensures var route := ParsePath(basePath, path);
        && (route.Unexpected? ==> r == Failure("HTTPPool serving unexpected path: " + path))
        && (route.BadRequest? ==> r == Success(HttpError("bad request", StatusBadRequest)))
        && (route.Target? && route.group !in registry.groups ==>
              r == Success(HttpError("no such group: " + route.group, StatusNotFound)))
        && (route.Target? && route.group in registry.groups ==>
              && r == Success(Answer(old(registry.groups[route.group].Outcome(route.key, net))))
              && registry.Served(route.group, route.key, net))
        && (!(route.Target? && route.group in registry.groups) ==>
              registry.OthersUntouched({}))
    {
      var route := ParsePath(basePath, path);
      match route
      case Unexpected =>
        return Failure("HTTPPool serving unexpected path: " + path);
      case BadRequest =>
        return Success(HttpError("bad request", StatusBadRequest));
      case Target(groupName, key) =>
        var group := registry.GetGroup(groupName);
        if group == null {
          return Success(HttpError("no such group: " + groupName, StatusNotFound));
        }
        var view := registry.GroupGet(groupName, key, net);
        match view
        case Failure(e) =>
          return Success(HttpError(e, StatusInternalServerError));
        case Success(v) =>
          // `view.ByteSlice()` writes a copy of the view's bytes: the same
          // sequence, so the response carries `v.b`.
          return Success(Response(StatusOK, "application/octet-stream", Bytes(v.b)));
    }
  }

  /** `Group`: a named cache namespace with its data source, its local cache and,
      once registered, the peer picker. */
  class Group {
    const name: string
    const getter: Getter
    const mainCache: MainCache.Cache
    /** The peer picker, `nil` until `RegisterPeers`. */
    var peers: HTTPPool?
    /** The requests made to the data source and to peers, in order. */
    ghost var calls: seq<Call>

    /** The local cache and the registered pool, if any, are valid. */
    ghost predicate Valid()
      reads this, mainCache, mainCache.lru, peers, if peers != null then {peers.peers} else {}
    {
      && mainCache.Valid()
      && (peers != null ==> peers.Valid())
    }

    /** A registered pool has had its ring set by `Set`, which its `PickPeer`
        needs. */
    ghost predicate CanPick()
      reads this, peers
    {
      peers != null ==> peers.peers != null
    }

    /** `Get` reaches `PickPeer` only on a miss of a non-empty key. */
    ghost predicate CanGet(key: string)
      reads this, mainCache, mainCache.lru, peers
    {
      key != "" && key !in mainCache.Contents() ==> CanPick()
    }

    /** `NewGroup`'s record: an empty local cache and no peers. */
    constructor (name: string, cacheBytes: int, getter: Getter)
      requires cacheBytes >= 0
      ensures Valid()
      ensures this.name == name && this.getter == getter && peers == null && calls == []
      ensures fresh(mainCache) && mainCache.cacheBytes == cacheBytes && mainCache.lru == null
    {
      this.name := name;
      this.getter := getter;
      mainCache := new MainCache.Cache(cacheBytes);
      peers := null;
      calls := [];
    }

    /** `RegisterPeers`: sets the picker the first time; a second call panics
        (a `Failure` here) and changes nothing. */
    method RegisterPeers(pool: HTTPPool) returns (r: Result<()>)
      requires Valid() && pool.Valid()
      modifies this`peers
      ensures Valid()
      ensures old(peers) != null ==> r == Failure("RegisterPeerPicker called more than once") && peers == old(peers)
      ensures old(peers) == null ==> r == Success(()) && peers == pool
    {
      if peers != null {
        return Failure("RegisterPeerPicker called more than once");
      }
      peers := pool;
      return Success(());
    }

    /** The getter of the peer picked for `key`, if any. */
    ghost function Picked(key: string): Option<HttpGetter>
      reads this, peers, if peers != null then {peers.peers} else {}
      requires peers != null ==> peers.Valid() && peers.peers != null
    {
      if peers == null then None else peers.PickPeer(key)
    }

    /** What `load` returns: a picked peer's value when the peer answers,
        otherwise the data source's value or error. */
    ghost function LoadOutcome(key: string, net: Network): (r: Result<Byteview>)
      reads this, peers, if peers != null then {peers.peers} else {}
      requires peers != null ==> peers.Valid() && peers.peers != null
      ensures r.Success? ==>
        || (Picked(key).Some? && Picked(key).value.Get(name, key, net) == Success(r.value.b))
        || getter(key) == Success(r.value.b)
      ensures r.Failure? ==> getter(key) == Failure(r.error)
    {
      var picked := Picked(key);
      if picked.Some? && picked.value.Get(name, key, net).Success? then
        Success(Byteview(picked.value.Get(name, key, net).value))
      else match getter(key)
        case Failure(e) => Failure(e)
        case Success(b) => Success(Byteview(b))
    }

    /** What `Get` returns: an error for the empty key, the cached value on a hit,
        and `load`'s result otherwise. */
    ghost function Outcome(key: string, net: Network): (r: Result<Byteview>)
      reads this, mainCache, mainCache.lru, peers, if peers != null then {peers.peers} else {}
      requires Valid() && CanGet(key)
      ensures key == "" ==> r == Failure("key is required")
      ensures key != "" && key in mainCache.Contents() ==> r == Success(mainCache.Contents()[key])
      ensures key != "" && key !in mainCache.Contents() ==> r == LoadOutcome(key, net)
    {
      if key == "" then Failure("key is required")
      else if key in mainCache.Contents() then Success(mainCache.Contents()[key])
      else LoadOutcome(key, net)
    }

    /** What `load` does besides returning: it asks the picked peer, if any;
        only when that fails does it call the data source, and only the data
        source's value is added to the local cache. */
    twostate predicate LoadEffect(key: string, net: Network)
      reads this, mainCache, mainCache.lru, peers, if peers != null then {peers.peers} else {}
      requires old(peers) != null ==> old(peers.Valid()) && old(peers.peers) != null
    {
      var picked := old(Picked(key));
      var asked := if picked.Some? then [PeerCall(picked.value.baseURL, key)] else [];
      var fromPeer := picked.Some? && picked.value.Get(name, key, net).Success?;
      && (fromPeer ==> calls == old(calls) + asked && mainCache.Entries() == old(mainCache.Entries()))
      && (!fromPeer ==> calls == old(calls) + asked + [LoaderCall(key)])
      && (!fromPeer && getter(key).Failure? ==> mainCache.Entries() == old(mainCache.Entries()))
      && (!fromPeer && getter(key).Success? ==>
            mainCache.Entries() == Lru.Trim(Lru.Inserted(old(mainCache.Entries()), key, Byteview(getter(key).value)), mainCache.cacheBytes, MainCache.ViewLen).0)
    }

    /** What `Get` does besides returning: the picker stays; nothing else
        changes for the empty key; on a hit, no request and the entry moved to
        the front; on a miss, what `load` does. */
    twostate predicate GetEffect(key: string, net: Network)
      reads this, mainCache, mainCache.lru, peers, if peers != null then {peers.peers} else {}
      requires old(Valid()) && old(CanGet(key))
    {
      && peers == old(peers)
      && (key == "" ==> calls == old(calls) && mainCache.lru == old(mainCache.lru) && mainCache.Entries() == old(mainCache.Entries()))
      && (key != "" && key in old(mainCache.Contents()) ==>
            && calls == old(calls)
            && key in Lru.Keys(old(mainCache.Entries()))
            && mainCache.Entries() == Lru.MoveToFront(old(mainCache.Entries()), Lru.IndexOf(old(mainCache.Entries()), key)))
      && (key != "" && key !in old(mainCache.Contents()) ==> LoadEffect(key, net))
    }

    /** `Get`: the empty key is refused without any request; a hit is answered
        (and promoted) locally; a miss is loaded. */
    method Get(key: string, net: Network) returns (r: Result<Byteview>)
      requires Valid() && CanGet(key)
      modifies this`calls, mainCache, mainCache.lru
      ensures Valid() && peers == old(peers)
      ensures old(mainCache.lru) != null ==> mainCache.lru == old(mainCache.lru)
      ensures old(mainCache.lru) == null ==> mainCache.lru == null || fresh(mainCache.lru)
      ensures r == old(Outcome(key, net))
      ensures GetEffect(key, net)
    {
      if key == "" {
        return Failure("key is required");
      }
      var v := mainCache.Get(key);
      if v.Some? {
        return Success(v.value);
      }
      r := Load(key, net);
    }

    /** `load`, with single-flight reduced to one direct call: try the picked
        peer, and fall back to the data source. */
    method Load(key: string, net: Network) returns (r: Result<Byteview>)
      requires Valid() && CanPick()
      modifies this`calls, mainCache, mainCache.lru
      ensures Valid() && peers == old(peers)
      ensures old(mainCache.lru) != null ==> mainCache.lru == old(mainCache.lru)
      ensures old(mainCache.lru) == null ==> mainCache.lru == null || fresh(mainCache.lru)
      ensures r == old(LoadOutcome(key, net))
      ensures LoadEffect(key, net)
    {
      if peers != null {
        var picked := peers.PickPeer(key);
        if picked.Some? {
          calls := calls + [PeerCall(picked.value.baseURL, key)];
          var fetched := GetFromPeer(picked.value, key, net);
          if fetched.Success? {
            return fetched;
          }
        }
      }
      r := GetLocally(key);
    }

    /** `getFromPeer`: the peer's bytes as a view, or the peer's error. */
    function GetFromPeer(peer: HttpGetter, key: string, net: Network): (r: Result<Byteview>)
      ensures r.Success? <==> peer.Get(name, key, net).Success?
      ensures r.Success? ==> r.value.b == peer.Get(name, key, net).value
      ensures r.Failure? ==> r.error == peer.Get(name, key, net).error
    {
      match peer.Get(name, key, net)
      case Failure(e) => Failure(e)
      case Success(b) => Success(Byteview(b))
    }

    /** `getLocally`: calls the data source; on success, caches and returns a
        copy of its bytes; on error, returns the error and caches nothing. */
    method GetLocally(key: string) returns (r: Result<Byteview>)
      requires Valid()
      modifies this`calls, mainCache, mainCache.lru
      ensures Valid() && peers == old(peers)
      ensures old(mainCache.lru) != null ==> mainCache.lru == old(mainCache.lru)
      ensures old(mainCache.lru) == null ==> mainCache.lru == null || fresh(mainCache.lru)
      ensures calls == old(calls) + [LoaderCall(key)]
      ensures getter(key).Failure? ==>
        r == Failure(getter(key).error) && mainCache.lru == old(mainCache.lru) && mainCache.Entries() == old(mainCache.Entries())
      ensures getter(key).Success? ==>
        && r == Success(Byteview(getter(key).value))
        && mainCache.Entries() == Lru.Trim(Lru.Inserted(old(mainCache.Entries()), key, r.value), mainCache.cacheBytes, MainCache.ViewLen).0
    {
      calls := calls + [LoaderCall(key)];
      match getter(key)
      case Failure(e) =>
        return Failure(e);
      case Success(bytes) =>
        var src := new byte[|bytes|](i requires 0 <= i < |bytes| => bytes[i]);
        assert src[..] == bytes;
        var copy := CloneBytes(src);
        var value := Byteview(copy[..]);
        PopulateCache(key, value);
        return Success(value);
    }

    /** `populateCache`: adds the value to the local cache. */
    method PopulateCache(key: string, value: Byteview)
      requires Valid()
      modifies mainCache, mainCache.lru
      ensures Valid()
      ensures old(mainCache.lru) != null ==> mainCache.lru == old(mainCache.lru)
      ensures old(mainCache.lru) == null ==> fresh(mainCache.lru)
      ensures mainCache.Entries() == Lru.Trim(Lru.Inserted(old(mainCache.Entries()), key, value), mainCache.cacheBytes, MainCache.ViewLen).0
      ensures mainCache.Entries() != [] ==> key in mainCache.Contents() && mainCache.Contents()[key] == value
    {
      mainCache.Add(key, value);
    }
  }

  /** The groups by name (the package's `groups` map). */
  class Registry {
    var groups: map<string, Group>

    /** Each group is valid and stored under its own name, and no two groups
        share a local cache. */
    ghost predicate Valid()
      reads this, groups.Values
      reads set g | g in groups.Values :: g.mainCache
      reads set g | g in groups.Values :: g.mainCache.lru
      reads set g | g in groups.Values :: g.peers
      reads set g | g in groups.Values && g.peers != null :: g.peers.peers
    {
      && (forall n :: n in groups ==> groups[n].name == n && groups[n].Valid())
      && (forall n, m :: n in groups && m in groups && n != m ==>
            && groups[n].mainCache != groups[m].mainCache
            && (groups[n].mainCache.lru != null ==> groups[n].mainCache.lru != groups[m].mainCache.lru))
    }

    constructor ()
      ensures Valid() && groups == map[]
    {
      groups := map[];
    }

    /** `NewGroup`: a missing getter panics (a `Failure` here); otherwise a new
        group with an empty cache replaces any group of the same name. */
    method NewGroup(name: string, cacheBytes: int, getter: Option<Getter>) returns (r: Result<Group>)
      requires Valid() && cacheBytes >= 0
      modifies this
      ensures Valid()
      ensures getter.None? ==> r == Failure("nil Getter") && groups == old(groups)
      ensures getter.Some? ==>
        && r.Success? && fresh(r.value) && fresh(r.value.mainCache)
        && groups == old(groups)[name := r.value]
        && r.value.name == name && r.value.getter == getter.value && r.value.peers == null
        && r.value.mainCache.cacheBytes == cacheBytes && r.value.mainCache.lru == null
    {
      if getter.None? {
        return Failure("nil Getter");
      }
      var g := new Group(name, cacheBytes, getter.value);
      groups := groups[name := g];
      return Success(g);
    }

    /** Every group not named in `except` keeps its state: its fields, its
        local cache and the engine inside it. */
    twostate predicate OthersUntouched(except: set<string>)
      reads this, groups.Values
      reads set g | g in groups.Values :: g.mainCache
      reads set g | g in groups.Values :: g.mainCache.lru
      requires unchanged(this)
    {
      forall n | n in groups && n !in except ::
        && unchanged(groups[n], groups[n].mainCache)
        && (groups[n].mainCache.lru != null ==> unchanged(groups[n].mainCache.lru))
    }

    /** Serving `key` from the group named `name`: that group changes as its
        `Get` does, and every other group keeps its state. */
    twostate predicate Served(name: string, key: string, net: Network)
      reads this, groups.Values
      reads set g | g in groups.Values :: g.mainCache
      reads set g | g in groups.Values :: g.mainCache.lru
      reads set g | g in groups.Values :: g.peers
      reads set g | g in groups.Values && g.peers != null :: g.peers.peers
      requires old(Valid()) && unchanged(this) && name in groups && old(groups[name].CanGet(key))
    {
      groups[name].GetEffect(key, net) && OthersUntouched({name})
    }

    /** `Get` on the group registered under `name`: that group answers and
        changes as its `Get` does, every other group keeps its state, and the
        registry stays valid. */
    method GroupGet(name: string, key: string, net: Network) returns (r: Result<Byteview>)
      requires Valid() && name in groups && groups[name].CanGet(key)
      modifies groups[name], groups[name].mainCache, groups[name].mainCache.lru
      ensures Valid()
      ensures r == old(groups[name].Outcome(key, net))
      ensures Served(name, key, net)
    {
      var g := groups[name];
      r := g.Get(key, net);
      OthersUnchanged(name);
    }

    /** Serving a request changes one group: every other group keeps its state,
        since no two groups share a local cache. */
    twostate lemma OthersUnchanged(name: string)
      requires old(Valid()) && unchanged(this) && name in groups
      requires var g := groups[name];
        && g.Valid()
        && (old(g.mainCache.lru) != null ==> g.mainCache.lru == old(g.mainCache.lru))
        && (old(g.mainCache.lru) == null ==> g.mainCache.lru == null || fresh(g.mainCache.lru))
      requires OthersUntouched({name})
      requires forall n | n in groups :: groups[n].peers == old(groups[n].peers)
      requires forall n | n in groups && old(groups[n].peers) != null ::
        unchanged(old(groups[n].peers)) && (old(groups[n].peers.peers) != null ==> unchanged(old(groups[n].peers.peers)))
      ensures Valid()
    {
      forall n | n in groups ensures groups[n].Valid() {
        if n != name {
          assert old(groups[n].Valid());
        }
      }
    }

    /** `GetGroup`: the group registered under the name, or `nil`. */
    function GetGroup(name: string): (g: Group?)
      reads this
      ensures g != null <==> name in groups
      ensures g != null ==> g == groups[name] && (Valid() ==> g.name == name)
    {
      if name in groups then groups[name] else null
    }
  }
}
