/** The static route table of the web framework (gee/gee.go): handlers are
    stored under the key `method-pattern` and looked up by the request's method
    and path.  The handlers themselves are opaque values of type `H`. */
module Gee {

  /** The router key of a request method and a pattern. */
  function RouteKey(verb: string, pattern: string): (key: string)
    ensures |key| == |verb| + 1 + |pattern|
    ensures key[..|verb|] == verb && key[|verb|] == '-' && key[|verb| + 1..] == pattern
  {
    var key := verb + "-" + pattern;
    assert key[..|verb|] == verb;
    assert key[|verb| + 1..] == pattern;
    key
  }

  /** Distinct routes get distinct keys as long as methods hold no `-` (true of
      `GET` and `POST`); the pattern may hold any character. */
  lemma RouteKeyInjective(m1: string, p1: string, m2: string, p2: string)
    requires '-' !in m1 && '-' !in m2
    requires RouteKey(m1, p1) == RouteKey(m2, p2)
    ensures m1 == m2 && p1 == p2
  {
  }

  /** The outcome of serving a request: the registered handler is invoked, or a
      not-found line naming the request URL is written. */
  datatype Served<H> = Handled(handler: H) | NotFound(message: string)

  class Engine<H> {
    var router: map<string, H>

    /** `New`: an engine with no routes. */
    constructor ()
      ensures router == map[]
    {
      router := map[];
    }

    /** `ServeHTTP`: the handler registered for the request's method and path, or
        the not-found message for its URL (the URL as printed, which carries the
        query as well as the path). */
    function ServeHTTP(verb: string, path: string, url: string): (r: Served<H>)
      reads this
      ensures r.Handled? <==> RouteKey(verb, path) in router
      ensures r.Handled? ==> r.handler == router[RouteKey(verb, path)]
      ensures r.NotFound? ==> r.message == "404 NOT FOUND: " + url + "\n"
    {
      var key := RouteKey(verb, path);
      if key in router then Handled(router[key]) else NotFound("404 NOT FOUND: " + url + "\n")
    }

    /** `addRoute`: stores the handler under the route's key, replacing any
        handler registered for the same method and pattern; every other route
        (for methods without `-`) serves as before. */
    method AddRoute(verb: string, pattern: string, handler: H)
      modifies this
      ensures router == old(router)[RouteKey(verb, pattern) := handler]
      ensures forall url :: ServeHTTP(verb, pattern, url) == Handled(handler)
      ensures '-' !in verb ==> forall m, p, url | '-' !in m && (m != verb || p != pattern) ::
        ServeHTTP(m, p, url) == old(ServeHTTP(m, p, url))
    {
      router := router[RouteKey(verb, pattern) := handler];
      forall m, p, url | '-' !in verb && '-' !in m && (m != verb || p != pattern)
        ensures ServeHTTP(m, p, url) == old(ServeHTTP(m, p, url))
      {
        if RouteKey(m, p) == RouteKey(verb, pattern) {
          RouteKeyInjective(m, p, verb, pattern);
        }
      }
    }

    /** `GET`: registers the handler for the method `GET`. */
    method Get(pattern: string, handler: H)
      modifies this
      ensures router == old(router)[RouteKey("GET", pattern) := handler]
      ensures forall url :: ServeHTTP("GET", pattern, url) == Handled(handler)
      ensures forall m, p, url | '-' !in m && (m != "GET" || p != pattern) ::
        ServeHTTP(m, p, url) == old(ServeHTTP(m, p, url))
    {
      AddRoute("GET", pattern, handler);
    }

    /** `POST`: registers the handler for the method `POST`. */
    method Post(pattern: string, handler: H)
      modifies this
      ensures router == old(router)[RouteKey("POST", pattern) := handler]
      ensures forall url :: ServeHTTP("POST", pattern, url) == Handled(handler)
      ensures forall m, p, url | '-' !in m && (m != "POST" || p != pattern) ::
        ServeHTTP(m, p, url) == old(ServeHTTP(m, p, url))
    {
      AddRoute("POST", pattern, handler);
    }
  }
}
