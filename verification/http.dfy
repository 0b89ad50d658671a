/** The pure part of the peer protocol (geecache/http.go): how a request path is
    split into a group and a key, which status a request is answered with, and
    how a peer's URL for a group and key is formed. */
module PeerHttp {
  import opened Wrappers
  import opened ByteView

  /** Every peer serves under this path prefix. */
  const DefaultBasePath: string := "/_geecache/"
  /** Virtual nodes per peer on the ring. */
  const DefaultReplicas: nat := 50

  predicate HasPrefix(s: string, prefix: string)
  {
    |prefix| <= |s| && s[..|prefix|] == prefix
  }

  /** The position of the first `/` in `s`, or `|s|` when there is none. */
  function SlashIndex(s: string): (i: nat)
    ensures i <= |s|
    ensures i < |s| ==> s[i] == '/'
    ensures forall j :: 0 <= j < i ==> s[j] != '/'
  {
    if s == [] then 0
    else if s[0] == '/' then 0
    else 1 + SlashIndex(s[1..])
  }

  /** `strings.SplitN(s, "/", 2)`: the whole string when it holds no `/`,
      otherwise the parts before and after the first `/`. */
  function SplitN2(s: string): (parts: seq<string>)
    ensures 1 <= |parts| <= 2
    ensures |parts| == 1 <==> '/' !in s
    ensures |parts| == 1 ==> parts[0] == s
    ensures |parts| == 2 ==> '/' !in parts[0] && s == parts[0] + "/" + parts[1]
  {
    var i := SlashIndex(s);
    if i == |s| then [s]
    else
      assert s == s[..i] + "/" + s[i + 1..];
      [s[..i], s[i + 1..]]
  }

  /** Joining at a `/` and splitting again gives back both halves, as long as
      the first half holds no `/`; the second half may hold any number. */
  lemma {:induction false} SplitJoin(a: string, b: string)
    requires '/' !in a
    ensures SplitN2(a + "/" + b) == [a, b]
  {
    var s := a + "/" + b;
    var i := SlashIndex(s);
    assert s[|a|] == '/';
    assert i == |a|;
    assert s[..i] == a;
    assert s[i + 1..] == b;
  }

  /** Where a request path leads: a path outside the base path makes the pool
      panic; a remainder with no `/` is a bad request; otherwise a group and a key. */
  datatype Route = Unexpected | BadRequest | Target(group: string, key: string)

  /** The path decision at the start of `ServeHTTP`. */
  function ParsePath(basePath: string, path: string): (r: Route)
    ensures r.Unexpected? <==> !HasPrefix(path, basePath)
    ensures r.BadRequest? <==> HasPrefix(path, basePath) && '/' !in path[|basePath|..]
    ensures r.Target? ==> '/' !in r.group && path == basePath + r.group + "/" + r.key
  {
    if !HasPrefix(path, basePath) then Unexpected
    else
      var parts := SplitN2(path[|basePath|..]);
      assert path == basePath + path[|basePath|..];
      if |parts| != 2 then BadRequest else Target(parts[0], parts[1])
  }

  /** Every group and key reach the server intact when the path is built as
      base path, group, `/`, key: the key may itself hold `/`. */
  lemma PathRoundTrip(basePath: string, group: string, key: string)
    requires '/' !in group
    ensures ParsePath(basePath, basePath + group + "/" + key) == Target(group, key)
  {
    var path := basePath + group + "/" + key;
    assert path[..|basePath|] == basePath;
    assert path[|basePath|..] == group + "/" + key;
    SplitJoin(group, key);
  }

  /** The body of a reply: a line of text written by `http.Error`, or raw bytes. */
  datatype Body = Text(line: string) | Bytes(data: seq<byte>)

  /** A reply: its status code, its `Content-Type` and its body. */
  datatype Response = Response(status: nat, contentType: string, body: Body)

  const StatusOK: nat := 200
  const StatusBadRequest: nat := 400
  const StatusNotFound: nat := 404
  const StatusInternalServerError: nat := 500

  /** `http.Error(w, message, code)`: plain text, the message and a newline. */
  function HttpError(message: string, code: nat): (r: Response)
    ensures r.status == code && r.body == Text(message + "\n")
    ensures r.contentType == "text/plain; charset=utf-8"
  {
    Response(code, "text/plain; charset=utf-8", Text(message + "\n"))
  }

  /** The reply to a request for an existing group: the error text with status
      500, or the view's bytes as `application/octet-stream` with status 200. */
  function Answer(outcome: Result<Byteview>): (r: Response)
    ensures outcome.Failure? ==> r == HttpError(outcome.error, StatusInternalServerError)
    ensures outcome.Success? ==> r.status == StatusOK && r.body == Bytes(outcome.value.b) && r.contentType == "application/octet-stream"
    ensures r.status == StatusOK <==> outcome.Success?
  {
    match outcome
    case Failure(e) => HttpError(e, StatusInternalServerError)
    case Success(v) => Response(StatusOK, "application/octet-stream", Bytes(v.b))
  }

  /** What a peer's HTTP round trip returns: the status code, the status line and
      the body as read, or the error from reading it. */
  datatype Fetched = Fetched(statusCode: int, status: string, body: Result<seq<byte>>)

  /** The network as the model sees it: `url.QueryEscape` and `http.Get`. */
  datatype Network = Network(escape: string -> string, send: string -> Result<Fetched>)

  /** `httpGetter`: the client for one peer, addressed by its base URL. */
  datatype HttpGetter = HttpGetter(baseURL: string)
  {
    /** The request URL of `httpGetter.Get` as written: base URL, escaped group
        and escaped key, with nothing between the group and the key. */
    function AsWrittenURL(group: string, key: string, escape: string -> string): (u: string)
      ensures HasPrefix(u, baseURL)
      ensures u[|baseURL|..] == escape(group) + escape(key)
    {
      var u := baseURL + escape(group) + escape(key);
      assert u[..|baseURL|] == baseURL;
      assert u[|baseURL|..] == escape(group) + escape(key);
      u
    }

    /** The request URL with the separator the server's path split expects. */
    function URL(group: string, key: string, escape: string -> string): (u: string)
      ensures HasPrefix(u, baseURL)
      ensures u[|baseURL|..] == escape(group) + "/" + escape(key)
    {
      var u := baseURL + escape(group) + "/" + escape(key);
      assert u[..|baseURL|] == baseURL;
      assert u[|baseURL|..] == escape(group) + "/" + escape(key);
      u
    }

    /** `httpGetter.Get` as written: requests `AsWrittenURL` and returns the
        transport's error, an error naming a status other than 200, an error
        from reading the body, or the body's bytes. */
    function Get(group: string, key: string, net: Network): (r: Result<seq<byte>>)
      ensures var res := net.send(AsWrittenURL(group, key, net.escape));
        && (res.Failure? ==> r == Failure(res.error))
        && (res.Success? && res.value.statusCode != StatusOK ==> r == Failure("server returned: " + res.value.status))
        && (res.Success? && res.value.statusCode == StatusOK && res.value.body.Failure? ==>
              r == Failure("reading response body: " + res.value.body.error))
        && (r.Success? <==> res.Success? && res.value.statusCode == StatusOK && res.value.body.Success?)
        && (r.Success? ==> r.value == res.value.body.value)
    {
      Fetch(AsWrittenURL(group, key, net.escape), net)
    }

    /** `httpGetter.Get` with the separator: the same answers, for a request
        to `URL`. */
    function CorrectedGet(group: string, key: string, net: Network): (r: Result<seq<byte>>)
      ensures var res := net.send(URL(group, key, net.escape));
        && (res.Failure? ==> r == Failure(res.error))
        && (res.Success? && res.value.statusCode != StatusOK ==> r == Failure("server returned: " + res.value.status))
        && (res.Success? && res.value.statusCode == StatusOK && res.value.body.Failure? ==>
              r == Failure("reading response body: " + res.value.body.error))
        && (r.Success? <==> res.Success? && res.value.statusCode == StatusOK && res.value.body.Success?)
        && (r.Success? ==> r.value == res.value.body.value)
    {
      Fetch(URL(group, key, net.escape), net)
    }

    /** One GET of `u` and the handling of its response. */
    function Fetch(u: string, net: Network): Result<seq<byte>>
    {
      match net.send(u)
      case Failure(e) => Failure(e)
      case Success(res) =>
        if res.statusCode != StatusOK then Failure("server returned: " + res.status)
        else match res.body
          case Failure(e) => Failure("reading response body: " + e)
          case Success(b) => Success(b)
    }
  }

  /** The path a peer sees when a getter built by `Set` for that peer (base URL
      `peer + basePath`) requests a URL: everything after the peer's address. */
  function PathAt(peer: string, u: string): string
    requires HasPrefix(u, peer)
  {
    u[|peer|..]
  }

  /** `url.QueryEscape` escapes `/`, so no escaped string holds one. */
  ghost predicate EscapesSlash(escape: string -> string)
  {
    forall s :: '/' !in escape(s)
  }

  /** As written, every request a getter sends is refused with 400: the path
      after the base path holds no `/`, whatever the group and key are. */
  lemma AsWrittenAlwaysBadRequest(peer: string, basePath: string, group: string, key: string, escape: string -> string)
    requires EscapesSlash(escape)
    ensures var g := HttpGetter(peer + basePath);
      var u := g.AsWrittenURL(group, key, escape);
      HasPrefix(u, peer) && ParsePath(basePath, PathAt(peer, u)) == BadRequest
  {
    var g := HttpGetter(peer + basePath);
    var u := g.AsWrittenURL(group, key, escape);
    var rest := escape(group) + escape(key);
    assert u == peer + basePath + rest;
    assert u[..|peer|] == peer;
    var path := PathAt(peer, u);
    assert path == basePath + rest;
    assert path[..|basePath|] == basePath;
    assert path[|basePath|..] == rest;
    assert '/' !in escape(group) && '/' !in escape(key);
    forall i | 0 <= i < |rest| ensures rest[i] != '/' {
      if i < |escape(group)| {
        assert rest[i] == escape(group)[i];
      } else {
        assert rest[i] == escape(key)[i - |escape(group)|];
      }
    }
  }

  /** With the separator, the peer's server receives exactly the escaped group
      and the escaped key that the getter was asked for. */
  lemma URLReachesGroup(peer: string, basePath: string, group: string, key: string, escape: string -> string)
    requires EscapesSlash(escape)
    ensures var g := HttpGetter(peer + basePath);
      var u := g.URL(group, key, escape);
      HasPrefix(u, peer) && ParsePath(basePath, PathAt(peer, u)) == Target(escape(group), escape(key))
  {
    var g := HttpGetter(peer + basePath);
    var u := g.URL(group, key, escape);
    assert u == peer + (basePath + escape(group) + "/" + escape(key));
    assert u[..|peer|] == peer;
    assert PathAt(peer, u) == basePath + escape(group) + "/" + escape(key);
    PathRoundTrip(basePath, escape(group), escape(key));
  }
}
