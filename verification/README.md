# gee_gf in Dafny

A model of the sequential core of the gee_gf repository's four tutorial systems, with proofs of what that code promises:

- **geecache**, a distributed cache:
  - a byte-bounded LRU engine;
  - a consistent-hash ring;
  - the immutable `Byteview`;
  - the lazily created main cache;
  - the `Group` read-through logic (empty-key error, local hit, peer fetch with fallback, local load and populate);
  - the HTTP peer pool's decisions: path splitting to a status code, the peer URL, `Set` and `PickPeer`.
- **gee**, a web framework: the route trie (`insert`, `search`, `matchChild`, `matchChildren`) and the static route table of the `Engine`.
- **geerpc**, an RPC client:
  - the `MultiServersDiscovery` server selector;
  - the client's bookkeeping: sequence numbers, pending calls, the `closing`/`shutdown` flags, `Close` and `parseOptions`.
- **geeorm**, an ORM: the order-preserving list `difference` and the column diff that `Migrate` computes from it.

Objects whose fields the Go code updates in place are Dafny classes. Their methods carry `modifies` frames and state the new state of everything they may change, including that the rest is unchanged. Examples: `Lru.Cache`, `ConsistentHash.Map`, `MainCache.Cache`, `GeeCache.Group`, `GeeCache.HTTPPool`, `Gee.Engine`, `Discovery.MultiServersDiscovery` and `RpcClient.Client`.

Each of those methods is proved against specification functions on sequences and maps. The properties the code promises are proved about those functions as lemmas. Examples:

- `Lru.Trim` is the eviction loop;
- `ConsistentHash.SortInts` stands for `sort.Ints`;
- `Discovery.RoundRobin` gives consecutive picks;
- `Trie.Search` is the depth-first lookup;
- `Orm.Minus` is the list difference.

**How Go behaviour is modelled:**

- **Panics** become `Result` failures carrying the panic message:
  - `RegisterPeers` called twice;
  - `NewGroup` with a nil getter;
  - an unexpected path in `ServeHTTP`;
  - `part[0]` on an empty route segment in the trie.
- **Strings** are Dafny strings whose characters stand for bytes one for one, so `len(key)` is `|key|`.
- **Outside world.** Hash functions, `url.QueryEscape`, the transport, random draws and the codec's close result are parameters.
- **Network requests** are recorded in a ghost log of calls (`GeeCache.Call`).

## Model

| member | source | states |
|---|---|---|
| ByteView.Byteview.Len | geecache/byteview.go:10-12 | the length is the number of bytes held |
| ByteView.CloneBytes | geecache/byteview.go:14-18 | the copy is a fresh buffer with the same length and the same bytes |
| ByteView.Byteview.ByteSlice | geecache/byteview.go:22-24 | a fresh buffer whose contents equal the view's bytes, so writing to it cannot change the view |
| ByteView.Byteview.String | geecache/byteview.go:27-29 | the string has the view's length and, position by position, its bytes |
| ByteView.StringRoundTrip | geecache/byteview.go:27-29 | converting the string back to bytes gives the view's bytes |
| Lru.Cache.constructor | geecache/lru/lru.go:26-33 | an empty cache with the given capacity and callback that satisfies the cache invariant |
| Lru.Cache.Get | geecache/lru/lru.go:36-44 | a present key gives its value and moves its entry to the front with nothing else changed; an absent key gives not-found and changes nothing; the invariant is kept |
| Lru.Cache.RemoveOldest | geecache/lru/lru.go:47-59 | removes exactly the back entry from list and map, subtracts its size and reports it to the eviction callback when one is set; a no-op on an empty cache; the byte count still equals the sum of entry sizes, and the map and the list hold the same keys |
| Lru.Cache.Add | geecache/lru/lru.go:62-78 | the list is the entry updated or pushed at the front and then trimmed from the back; the evicted entries go to the callback in eviction order; with capacity 0 nothing is evicted; the byte count, same-keys and within-capacity invariant holds afterwards |
| Lru.Cache.Len | geecache/lru/lru.go:81-83 | the number of entries equals both the list length and the map size |
| Lru.InsertedKeepsIndex | geecache/lru/lru.go:64-73 | updating an existing key changes the byte count only by the value-length delta; a new key adds key length plus value length; keys stay distinct and the index maps the key to the new value |
| Lru.MoveToFrontKeepsIndex | geecache/lru/lru.go:37-41 | moving an entry to the front keeps the key-to-value index and the byte count |
| Lru.RemoveBackKeepsIndex | geecache/lru/lru.go:49-54 | dropping the back entry removes only its key from the index and only its size from the byte count |
| Lru.DistinctKeysCount | geecache/lru/lru.go:81-83 | with distinct keys, the index has as many keys as the list has entries |
| Lru.TrimSplits | geecache/lru/lru.go:75-77 | the eviction loop keeps a prefix of the list and evicts the rest from the back, last entry first |
| Lru.TrimLongest | geecache/lru/lru.go:75-77 | the loop stops as soon as the list fits: keeping one more entry would exceed the capacity |
| Lru.TrimFits | geecache/lru/lru.go:75-77 | with a non-zero capacity, the bytes kept are within capacity |
| Lru.TrimUnbounded | geecache/lru/lru.go:75 | with capacity 0 nothing is evicted |
| Lru.AddedEntryFirst | geecache/lru/lru.go:62-77 | the entry just added is the front of what is kept, unless everything was evicted |
| Lru.OversizedEntryEvicted | geecache/lru/lru.go:69-77 | an entry larger than a non-zero capacity is inserted and then evicted, leaving the cache empty |
| Lru.AddThenGet | geecache/lru/lru.go:62-77 | right after adding, the key maps to the value written unless the loop evicted everything |
| Lru.NegativeCapacityNeverFits | geecache/lru/lru.go:75-77 | with a negative capacity the loop guard holds for every list, the empty one included (see Findings) |
| MainCache.Cache.constructor | geecache/geecache.go:97 | the main cache starts with the capacity and with no LRU yet |
| MainCache.Cache.Add | geecache/cache.go:14-24 | the first add creates the LRU and later adds reuse it; the entries become those of an LRU `Add`; the key holds the value unless everything was evicted; the eviction log does not grow, since no callback is set |
| MainCache.Cache.Get | geecache/cache.go:26-36 | without an LRU it gives not-found and creates none; otherwise it is an LRU `Get`, promoting a hit; the LRU's byte count and eviction log do not change |
| ConsistentHash.Map.constructor | geecache/consistenthash/consistenthash.go:23-33 | the supplied hash, or the default when none is given; an empty ring |
| ConsistentHash.Map.Add | geecache/consistenthash/consistenthash.go:37-46 | the ring is the old ring plus every virtual-node hash, sorted; the map records each virtual node in insertion order; the ring invariant is kept |
| ConsistentHash.Map.AddReplicas | geecache/consistenthash/consistenthash.go:39-43 | one node's inner loop appends its replica hashes in order and writes each into the map |
| ConsistentHash.SortIntsCorrect | geecache/consistenthash/consistenthash.go:45 | the sorted ring is ascending and a permutation of the unsorted one |
| ConsistentHash.VirtualNodesCount | geecache/consistenthash/consistenthash.go:38-43 | `Add` appends exactly replicas times the number of nodes entries (none for a non-positive replica count) |
| ConsistentHash.ApplyLastWriteWins | geecache/consistenthash/consistenthash.go:39-42 | a virtual hash maps to its node unless a later insertion wrote the same hash |
| ConsistentHash.ApplyKeysValues | geecache/consistenthash/consistenthash.go:42 | the map's keys are the old keys plus the written hashes, and every value is an old value or a written node |
| ConsistentHash.ReplicaOnRing | geecache/consistenthash/consistenthash.go:37-46 | after `Add`, the hash of every replica `i` of every added node is on the sorted ring and is a key of the hash map |
| ConsistentHash.VirtualNodesOwners | geecache/consistenthash/consistenthash.go:38-42 | every virtual node belongs to one of the nodes passed to `Add` |
| ConsistentHash.AddKeepsRing | geecache/consistenthash/consistenthash.go:37-46 | after `Add` the ring is sorted, every ring value has a map entry, and every entry names an added node |
| ConsistentHash.FirstAtLeast | geecache/consistenthash/consistenthash.go:57-59 | the index is that of the first ring value at least the hash, or the ring length when there is none |
| ConsistentHash.Search | geecache/consistenthash/consistenthash.go:57-59 | the binary search returns the index of the first ring value at least the hash |
| ConsistentHash.Successor | geecache/consistenthash/consistenthash.go:57-63 | the chosen position holds the smallest ring value at least the hash, or is position 0 when the hash exceeds every value |
| ConsistentHash.Map.Owner | geecache/consistenthash/consistenthash.go:49-64 | an empty ring gives ""; otherwise a node that was added |
| ConsistentHash.Map.Get | geecache/consistenthash/consistenthash.go:49-64 | "" on an empty ring; otherwise the node mapped from the successor of the key's hash, which is an added node; reads only, so the same key always gives the same node |
| PeerHttp.SplitN2 | geecache/http.go:57 | splitting at the first "/" gives one part exactly when there is no "/", and otherwise a slash-free first part and the rest, which rejoin to the input |
| PeerHttp.SplitJoin | geecache/http.go:57 | splitting a slash-free group joined with "/" to any key gives back the group and the key |
| PeerHttp.ParsePath | geecache/http.go:52-64 | a path outside the base path is unexpected; no "/" after the base path is a bad request; otherwise the group and a key that may itself hold "/" |
| PeerHttp.PathRoundTrip | geecache/http.go:52-64 | a path built from base path, a slash-free group, "/" and a key parses back to that group and key |
| PeerHttp.HttpError | geecache/http.go:59 | an error reply carries the status code and the message as a plain-text line |
| PeerHttp.Answer | geecache/http.go:72-79 | a failure gives 500 with the error text; a value gives 200, `application/octet-stream` and exactly its bytes |
| PeerHttp.HttpGetter.AsWrittenURL | geecache/http.go:83-88 | the URL as written: the base URL, then the escaped group and the escaped key with nothing between them |
| PeerHttp.HttpGetter.URL | geecache/http.go:83-88 | the corrected URL: the base URL, the escaped group, "/" and the escaped key |
| PeerHttp.HttpGetter.Get | geecache/http.go:82-103 | requests the URL as written (`AsWrittenURL`) and gives the transport's error, "server returned: " with the status for a non-200 reply, the body-read error, or exactly the body's bytes |
| PeerHttp.HttpGetter.CorrectedGet | geecache/http.go:82-103 | the same answers for a request to the corrected URL (`URL`) (see Findings) |
| PeerHttp.AsWrittenAlwaysBadRequest | geecache/http.go:83-88 | with an escape that never yields "/", the path a peer receives from the URL as written never splits into group and key: it is always a bad request |
| PeerHttp.URLReachesGroup | geecache/http.go:83-88 | with the separator, the peer's server parses exactly the escaped group and the escaped key |
| GeeCache.Getters | geecache/http.go:112-115 | one getter per peer, and each getter's base URL is the peer followed by the base path |
| GeeCache.HTTPPool.constructor | geecache/http.go:38-43 | the pool records itself and the default base path, with no ring and no getters |
| GeeCache.HTTPPool.Set | geecache/http.go:107-116 | a fresh 50-replica ring of exactly the given peers replaces the old one, and the getter map is rebuilt for exactly those peers; nothing is kept from before |
| GeeCache.HTTPPool.PickPeer | geecache/http.go:120-128 | a getter exactly when the ring's owner is non-empty and not this peer, and then the getter for that owner |
| GeeCache.HTTPPool.ServeHTTP | geecache/http.go:51-80 | an unexpected path panics; a malformed path gives 400; an unknown group gives 404 "no such group"; in these three cases no group changes. Otherwise the answer to `Group.Get` of the key, with that group changed as its `Get` changes it and every other group unchanged (`Registry.Served`) |
| GeeCache.Group.constructor | geecache/geecache.go:93-99 | the group has its name and getter, no peers, and a main cache with the capacity and no LRU |
| GeeCache.Group.RegisterPeers | geecache/geecache.go:38-43 | the first call sets the peers; a second call panics and keeps the first peers |
| GeeCache.Group.LoadOutcome | geecache/geecache.go:47-66 | a loaded value comes from the picked peer or from the data source; an error is the data source's error |
| GeeCache.Group.Outcome | geecache/geecache.go:125-136 | the empty key gives "key is required"; a cached key gives its cached value; any other key gives what `load` returns |
| GeeCache.Group.Get | geecache/geecache.go:125-136 | returns `Outcome`; the empty key touches no cache, peer or loader; a hit calls nothing and promotes the entry; a miss has the effects of `load` (all stated by `GetEffect`) |
| GeeCache.Group.Load | geecache/geecache.go:47-66 | returns `LoadOutcome`; a peer's value is not cached; a failed or absent peer falls back to one call of the data source, whose value alone is cached |
| GeeCache.Group.GetFromPeer | geecache/geecache.go:69-75 | the peer's bytes wrapped in a view, or the peer's error |
| GeeCache.Group.GetLocally | geecache/geecache.go:139-148 | calls the data source once; an error is returned with nothing cached; a value is returned and its copy is added to the main cache |
| GeeCache.Group.PopulateCache | geecache/geecache.go:150-152 | the main cache's entries become those of an LRU `Add` of the key and value |
| GeeCache.Registry.constructor | geecache/geecache.go:32-35 | the registry starts with no groups |
| GeeCache.Registry.NewGroup | geecache/geecache.go:87-102 | a nil getter panics and registers nothing; otherwise a fresh group is registered under its name, replacing any earlier one |
| GeeCache.Registry.GroupGet | geecache/http.go:72 | `Get` on a registered group returns that group's `Outcome`; that group keeps its peer picker, and its calls and cache change as `Group.Get` states (`Group.GetEffect`) and every other group keeps its fields, cache and LRU entries |
| GeeCache.Registry.GetGroup | geecache/geecache.go:107-113 | the group registered under the name, or nil for an unknown name |
| Trie.Node.MatchChild | gee/trie.go:12-19 | the first child, in order, whose part equals the segment or which is wild; none if no child matches |
| Trie.Node.MatchChildren | gee/trie.go:22-30 | every matching child, in child order |
| Trie.FirstMatch | gee/trie.go:12-19 | the position of a matching child with no matching child before it, or none when no child matches |
| Trie.Matching | gee/trie.go:22-30 | at most as many nodes as children; a node is in the result if and only if it is a matching child |
| Trie.FirstMatchIsFirstMatching | gee/trie.go:12-30 | `matchChild` finds nothing exactly when `matchChildren` is empty, and otherwise finds the head of `matchChildren` |
| Trie.NewChild | gee/trie.go:47-50 | a new child has the segment as its part, no pattern and no children, and is wild exactly when the segment starts with ':' or '*' |
| Trie.Insert | gee/trie.go:38-54 | sets the pattern only at depth `len(parts)`; every other node on the way keeps its pattern; the first matching child is reused, wild or not, and a new child is appended otherwise; an empty segment with no match panics, and only then |
| Trie.Search | gee/trie.go:60-79 | at depth `len(parts)` or at a '*' node, the node is returned exactly when its pattern is non-empty; any node returned carries a pattern |
| Trie.SearchInFirstFound | gee/trie.go:71-78 | the loop over the matching children returns the result of the first child, in order, whose search succeeds, and nothing when every search fails |
| Trie.SearchDepthFirst | gee/trie.go:68-78 | below the last segment, `search` is a depth-first search over the matching children in their order |
| Trie.InsertKeepsNoCatchAll | gee/trie.go:38-54 | inserting a route with non-empty, non-'*' segments succeeds and creates no catch-all node |
| Trie.InsertThenSearch | gee/trie.go:38-79 | for a non-empty pattern with non-empty, non-'*' segments in a trie without '*' nodes, `search` right after `insert` finds a node carrying that pattern |
| Trie.ParamMatchesAnySegment | gee/trie.go:38-79 | a route inserted below a childless node is found by any path that agrees with it outside its ':' segments |
| Gee.RouteKey | gee/gee.go:22 | the key is the method, then "-", then the pattern |
| Gee.RouteKeyInjective | gee/gee.go:22 | for methods without "-", equal keys mean the same method and the same pattern |
| Gee.Engine.constructor | gee/gee.go:17-19 | a new engine has no routes |
| Gee.Engine.AddRoute | gee/gee.go:21-24 | the handler is stored under the route's key, replacing any earlier handler for that method and pattern; the route now serves it for every URL; all other routes serve as before |
| Gee.Engine.Get | gee/gee.go:27-29 | registers under the method "GET", with the same guarantees as `AddRoute` |
| Gee.Engine.Post | gee/gee.go:32-34 | registers under the method "POST", with the same guarantees as `AddRoute` |
| Gee.Engine.ServeHTTP | gee/gee.go:36-43 | a handler is invoked if and only if one is stored under the request's method and path, and it is that handler; otherwise "404 NOT FOUND: " and the URL |
| Discovery.RoundRobin | geerpc/xclient/discovery.go:79-82 | consecutive round-robin picks: as many as asked for, each a listed server |
| Discovery.Rotated | geerpc/xclient/discovery.go:79-82 | a rotation of the list holds the same servers with the same multiplicities |
| Discovery.PickAt | geerpc/xclient/discovery.go:80-81 | the k-th pick from a position is the server k places further on, wrapping round the list |
| Discovery.RoundRobinCoversAll | geerpc/xclient/discovery.go:80-81 | as many consecutive picks as there are servers return every server exactly once: the list rotated to the starting position |
| Discovery.MultiServersDiscovery.constructor | geerpc/xclient/discovery.go:41-50 | the given list and a drawn starting position below MaxInt32 - 1 |
| Discovery.MultiServersDiscovery.Refresh | geerpc/xclient/discovery.go:56-58 | returns no error |
| Discovery.MultiServersDiscovery.Update | geerpc/xclient/discovery.go:61-66 | replaces the list wholesale, keeps the position and returns no error |
| Discovery.MultiServersDiscovery.Get | geerpc/xclient/discovery.go:69-86 | an empty list is an error in every mode; random mode gives the drawn server; round robin gives the server at the position modulo the length and advances the position, which stays below the length; any other mode is an error; any server returned is listed |
| Discovery.MultiServersDiscovery.GetAll | geerpc/xclient/discovery.go:89-96 | a fresh array equal to the list, and no error |
| RpcClient.ParseOptions | geerpc/client.go:169-183 | no option or a nil first one gives the defaults; more than one option is an error; otherwise the option itself, updated in place with the default magic number and, if its codec is empty, the default codec |
| RpcClient.Client.constructor | geerpc/client.go:155-166 | numbering starts at 1, nothing is pending, neither flag is set, and nothing has been issued, so 0 is never assigned |
| RpcClient.Client.IsAvailable | geerpc/client.go:64-68 | the client is unavailable exactly when it is closing or shut down |
| RpcClient.Client.Close | geerpc/client.go:53-61 | the first call sets `closing` and returns the codec's result; any later call returns `ErrShutdown`; afterwards the client is unavailable (`IsAvailable`, geerpc/client.go:64-68) |
| RpcClient.Client.RegisterCall | geerpc/client.go:71-81 | succeeds exactly when the client is available; when it is not, `ErrShutdown` and nothing changes; otherwise the call gets the current number, is stored under it, and the number advances; numbers issued are unique and strictly increasing |
| RpcClient.Client.RemoveCall | geerpc/client.go:84-90 | the call stored under the number, or nil; only that entry is deleted |
| RpcClient.Client.TerminalCalls | geerpc/client.go:93-103 | sets `shutdown` and gives every pending call the error, leaving the table as it was |
| Orm.Minus | geeorm/geeorm.go:82-93 | never longer than `a`; holds an element exactly when `a` does and `b` does not |
| Orm.Difference | geeorm/geeorm.go:82-93 | the two loops compute the list difference `Minus(a, b)` |
| Orm.MinusAppend | geeorm/geeorm.go:87-91 | the difference keeps the order of `a`: it distributes over concatenation |
| Orm.MinusCounts | geeorm/geeorm.go:87-91 | every element outside `b` keeps all its repetitions in `a`; every element of `b` is gone |
| Orm.MinusNothing | geeorm/geeorm.go:82-93 | `difference(a, [])` is `a` |
| Orm.MinusItself | geeorm/geeorm.go:82-93 | `difference(a, a)` is empty |
| Orm.MigrationPlan | geeorm/geeorm.go:108-109 | added columns are the fields the table lacks; dropped columns are the columns the model lacks |
| Orm.MigrationReachesModel | geeorm/geeorm.go:108-109 | applying the plan leaves exactly the model's fields as a set, and no column is both added and dropped |

## Left out

- **Single-flight deduplication** (geecache/singleflight/singleflight.go): the model is sequential, so `load` makes one direct call.
- **Locking**: the `sync` mutexes of cache, pool, group registry, discovery and client. Every object is single-threaded here.
- **Networking and logging**: the HTTP transport, `ioutil.ReadAll`, `ResponseWriter` headers and `log` output.
  - Transport results are the `PeerHttp.Network` parameter.
  - `url.QueryEscape` is an uninterpreted function. The lemmas assume only that its result never holds "/".
  - `ServeHTTP` does not decode percent-escapes in the request path; the path is taken as given.
- **Default hashing**: CRC-32 (`crc32.ChecksumIEEE`) is a parameter.
  - `strconv.Itoa` is written out for non-negative numbers only, which is all `Add` uses.
- GeeCache.HTTPPool.PickPeer: requires that `Set` has run. Before it the Go code dereferences a nil ring, and that crash is not modelled.
  - A group may register a pool whose ring is not yet set (`RegisterPeers` does not require it).
  - `GeeCache.Group.Get`, `GeeCache.Group.Load`, `GeeCache.Registry.GroupGet` and `GeeCache.HTTPPool.ServeHTTP` require the ring only when the key reaches `PickPeer`, that is a miss of a non-empty key (`Group.CanGet`).
- Lru.Cache: `maxBytes` and `nbytes` are `int64` in the Go code; the model uses unbounded integers, so an overflow of `nbytes` past 2^63 - 1 is not modelled.
- Lru.Cache.constructor: `Value.Len()` returns a Go `int`, which could be negative; the model's length function returns a `nat`, so a value with a negative length is not modelled.
- Lru.Cache.constructor: requires a non-negative capacity. With a negative one, `Add` never returns (see Findings).
  - MainCache.Cache.constructor, GeeCache.Group.constructor and GeeCache.Registry.NewGroup carry the same requirement.
- Trie.Insert: the trie is a value, not nodes updated in place. Two consequences:
  - The children that a panicking `insert` already appended before it reached the empty segment are not kept, because the failure returns no trie.
  - Sharing of nodes between parents is not modelled; the Go code never shares a node.
- Gee.Engine.ServeHTTP: handlers are opaque values. Invoking one and writing the 404 text are represented by the returned `Served` value. `Run` and `ListenAndServe` are left out.
- RpcClient.Client.RegisterCall: requires `seq` below the largest `uint64`, so the wrap-around of `seq++` after 2^64 - 1 calls is not modelled.
- RpcClient.ParseOptions: `DefaultOption` is a parameter, because geerpc/server.go is not part of this model.
- **Rest of the RPC client**: `receive`, `send`, `Go`, `Call`, `NewClient`, `Dial`, the codec I/O and the `call.done()` channel signal. `terminalCalls` only sets each call's error.
- **Randomness in discovery**: the random generator is replaced by parameters, namely the initial position and the random draw in `Get`.
- **Other geerpc files**: the `Discovery` interface and geerpc/xclient/xclient.go.
- **ORM database layer**: the SQL that `Migrate` runs, and everything else in geeorm (sessions, schema reflection, dialects, logging).
- **Demos**: gee/recovery.go and the `base*` demo programs.

## Findings

| source | as written | input that shows it | evidently intended | confidence | as-written member | corrected member |
|---|---|---|---|---|---|---|
| geecache/http.go:83-88 | the peer URL is the base URL followed by the escaped group and the escaped key with no "/" between them, while `ServeHTTP` splits the path at a "/" | group "scores", key "Tom", peer base URL "http://peer/_geecache/": the URL is `http://peer/_geecache/scoresTom`, whose path has no "/" after the base path, so the peer answers 400 and the fetch falls back to the data source. This holds for every group and key without "/". With group "s" and key "x/k", Go's path decoding turns `/_geecache/sx%2Fk` into `/_geecache/sx/k`, so the request reaches group "sx" with key "k": a 404, or another group's value. The model does not decode paths, so `AsWrittenAlwaysBadRequest` covers only the first case | the URL `base + escape(group) + "/" + escape(key)` that the server parses back into the group and key | not executed | PeerHttp.HttpGetter.Get, PeerHttp.AsWrittenAlwaysBadRequest | PeerHttp.HttpGetter.CorrectedGet, PeerHttp.URLReachesGroup |
| geecache/lru/lru.go:75-77 | the eviction loop runs while `maxBytes != 0 && maxBytes < nbytes` | `New(-1, nil)` followed by any `Add`: the guard stays true once the list is empty, and `RemoveOldest` on an empty list changes nothing, so the loop never ends | a capacity that is never negative, under which the loop stops with the bytes kept within capacity | not executed | Lru.NegativeCapacityNeverFits | Lru.TrimFits |
