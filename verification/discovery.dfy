/** Server selection of the RPC client (geerpc/xclient/discovery.go): a list of
    server addresses maintained by hand, and a choice of one of them at random
    or in round-robin order.  The random generator is a parameter: the initial
    round-robin position and each random draw are given by the caller. */
module Discovery {
  import opened Wrappers

  /** `SelectMode`: its two named values. */
  const RandomSelect: int := 0
  const RoundRobinSelect: int := 1

  const MaxInt32: int := 0x7FFF_FFFF

  const ErrNoServers: string := "rpc discovery: no available servers"
  const ErrUnsupportedMode: string := "rpc discovery: not supported select mode"

  lemma MulAtLeast(d: int, n: int)
    requires 0 < d && 0 < n
    ensures d * n >= n
  {
    assert d * n == (d - 1) * n + n;
  }

  /** A remainder is fixed by any split of the number into a multiple of `n`
      and a rest below `n`. */
  lemma ModUnique(x: int, n: int, q: int, r: int)
    requires 0 <= r < n && x == q * n + r
    ensures x % n == r
  {
    var d := q - x / n;
    assert d * n == x % n - r by {
      assert x == (x / n) * n + x % n;
      assert d * n == q * n - (x / n) * n;
    }
    if d > 0 {
      MulAtLeast(d, n);
    } else if d < 0 {
      MulAtLeast(-d, n);
    }
  }

  /** A position inside the list is its own remainder. */
  lemma Inside(i: nat, n: nat)
    requires i < n
    ensures i % n == i
  {
    ModUnique(i, n, 0, i);
  }

  /** The position after `i` in a list of `n` servers, wrapping to the front. */
  lemma Wrap(i: nat, n: nat)
    requires i < n
    ensures (i + 1) % n == if i + 1 == n then 0 else i + 1
  {
    if i + 1 == n {
      ModUnique(i + 1, n, 1, 0);
    } else {
      ModUnique(i + 1, n, 0, i + 1);
    }
  }

  /** Advancing a position and then reducing it lands where reducing it first
      and then advancing does. */
  lemma AdvanceMod(index: nat, n: nat)
    requires 0 < n
    ensures (index + 1) % n == (index % n + 1) % n
  {
    var q, i := index / n, index % n;
    Wrap(i, n);
    if i + 1 == n {
      ModUnique(index + 1, n, q + 1, 0);
    } else {
      ModUnique(index + 1, n, q, i + 1);
    }
  }

  /** The servers that `count` consecutive round-robin picks return, starting at
      position `index`, when the list does not change in between. */
  function RoundRobin(servers: seq<string>, index: nat, count: nat): (picks: seq<string>)
    requires servers != []
    ensures |picks| == count
    ensures forall k :: 0 <= k < count ==> picks[k] in servers
    decreases count
  {
    if count == 0 then []
    else [servers[index % |servers|]] + RoundRobin(servers, (index + 1) % |servers|, count - 1)
  }

  /** The list read from position `i` to its end and then from its front. */
  function Rotated(servers: seq<string>, i: nat): (r: seq<string>)
    requires i <= |servers|
    ensures multiset(r) == multiset(servers)
  {
    assert servers == servers[..i] + servers[i..];
    servers[i..] + servers[..i]
  }

  /** The `k`-th of the picks from a position inside the list. */
  lemma {:induction false} PickAt(servers: seq<string>, i: nat, count: nat, k: nat)
    requires i < |servers| && k < count && k < |servers|
    ensures RoundRobin(servers, i, count)[k] ==
      servers[if i + k < |servers| then i + k else i + k - |servers|]
    decreases k
  {
    var n := |servers|;
    Inside(i, n);
    Wrap(i, n);
    var j := if i + 1 == n then 0 else i + 1;
    assert RoundRobin(servers, i, count) == [servers[i]] + RoundRobin(servers, j, count - 1);
    if k > 0 {
      PickAt(servers, j, count - 1, k - 1);
    }
  }

  /** As many consecutive round-robin picks as there are servers return every
      server exactly once: the list rotated to the starting position. */
  lemma RoundRobinCoversAll(servers: seq<string>, index: nat)
    requires servers != []
    ensures RoundRobin(servers, index, |servers|) == Rotated(servers, index % |servers|)
    ensures multiset(RoundRobin(servers, index, |servers|)) == multiset(servers)
  {
    var n := |servers|;
    var i := index % n;
    AdvanceMod(index, n);
    Inside(i, n);
    var picks := RoundRobin(servers, index, n);
    assert picks == RoundRobin(servers, i, n);
    forall k | 0 <= k < n ensures picks[k] == Rotated(servers, i)[k] {
      PickAt(servers, i, n, k);
    }
  }

  /** `MultiServersDiscovery`: the server list and the round-robin position. */
  class MultiServersDiscovery {
    var servers: seq<string>
    var index: nat

    /** `NewMultiServerDiscovery`: the given list and a drawn initial position,
        which the generator keeps below `MaxInt32 - 1`. */
    constructor (servers: seq<string>, initialIndex: nat)
      requires initialIndex < MaxInt32 - 1
      ensures this.servers == servers && index == initialIndex
    {
      this.servers := servers;
      index := initialIndex;
    }

    /** `Refresh`: there is no registry to refresh from; nothing changes. */
    method Refresh() returns (err: Option<string>)
      ensures err == None
    {
      return None;
    }

    /** `Update`: replaces the whole list and keeps the round-robin position. */
    method Update(servers: seq<string>) returns (err: Option<string>)
      modifies this`servers
      ensures this.servers == servers && err == None
    {
      this.servers := servers;
      return None;
    }

    /** `Get`: an error on an empty list in every mode; otherwise the drawn
        server in random mode, or the server at the position (taken modulo the
        current length, since the list may have shrunk) in round-robin mode,
        which advances the position; an error for any other mode.  Only a
        round-robin pick changes the position. */
    method Get(mode: int, draw: nat) returns (r: Result<string>)
      modifies this`index
      ensures servers == [] ==> r == Failure(ErrNoServers) && index == old(index)
      ensures servers != [] && mode == RandomSelect ==>
        r == Success(servers[draw % |servers|]) && index == old(index)
      ensures servers != [] && mode == RoundRobinSelect ==>
        && r == Success(RoundRobin(servers, old(index), 1)[0])
        && index == (old(index) + 1) % |servers|
        && index < |servers|
      ensures servers != [] && mode != RandomSelect && mode != RoundRobinSelect ==>
        r == Failure(ErrUnsupportedMode) && index == old(index)
      ensures r.Success? ==> r.value in servers
    {
      var n := |servers|;
      if n == 0 {
        return Failure(ErrNoServers);
      }
      if mode == RandomSelect {
        return Success(servers[draw % n]);
      } else if mode == RoundRobinSelect {
        var s := servers[index % n];
        index := (index + 1) % n;
        return Success(s);
      } else {
        return Failure(ErrUnsupportedMode);
      }
    }

    /** `GetAll`: a fresh copy of the list. */
    method GetAll() returns (all: array<string>, err: Option<string>)
      ensures fresh(all) && all[..] == servers && err == None
    {
      all := new string[|servers|];
      for i := 0 to |servers|
        invariant all[..i] == servers[..i]
      {
        all[i] := servers[i];
      }
      return all, None;
    }
  }
}
