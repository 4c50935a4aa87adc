/**
  The stage list the server wraps its router in (cmd/api/server.go).

  Only the CORS gate is modelled; the other six stages and the router are
  parameters, so what is proved here holds whatever they do.
*/
module Server {
  import opened Wrappers
  import opened Http
  import opened Cors
  import opened Middlewares

  /** The list passed to ApplyMiddlewares, in the order the server lists it. */
  function Stages(securityHeaders: Middleware, compression: Middleware, hpp: Middleware, jwt: Middleware,
                  responseTime: Middleware, rateLimit: Middleware): (ms: seq<Middleware>)
    ensures |ms| == 7 && ms[|ms| - 1] == Cors.Cors && ms[0] == securityHeaders
  {
    [securityHeaders, compression, hpp, jwt, responseTime, rateLimit, Cors.Cors]
  }

  /** Building the server's handler: the router wrapped in the stage list. */
  method SecureMux(router: Handler, securityHeaders: Middleware, compression: Middleware, hpp: Middleware,
                   jwt: Middleware, responseTime: Middleware, rateLimit: Middleware) returns (h: Handler)
    ensures h == Cors.Cors(Chain(router, [securityHeaders, compression, hpp, jwt, responseTime, rateLimit]))
  {
    var stages := Stages(securityHeaders, compression, hpp, jwt, responseTime, rateLimit);
    h := ApplyMiddlewares(router, stages);
    assert stages == [securityHeaders, compression, hpp, jwt, responseTime, rateLimit] + [Cors.Cors];
    LastIsOutermost(router, [securityHeaders, compression, hpp, jwt, responseTime, rateLimit], Cors.Cors);
  }

  /** The requests the CORS gate refuses: an Origin header that is not one of the allowed origins. */
  predicate OriginRefused(r: Request) {
    !IsOriginAllowed(Get(r.header, "Origin"))
  }

  /** The CORS gate answers every request from a refused origin by itself. */
  lemma CorsAnswersRefused()
    ensures AnswersAlone(Cors.Cors, OriginRefused)
  {
    forall n1: Handler, n2: Handler
      ensures AgreeOn(OriginRefused, Cors.Cors(n1), Cors.Cors(n2))
    {
      forall r, x | OriginRefused(r)
        ensures Cors.Cors(n1)(r, x) == Cors.Cors(n2)(r, x)
      {
        RefusedNeverForwards(n1, n2, r, x);
      }
    }
  }

  /**
    The CORS gate hands the request itself on unchanged, whenever it runs the
    next handler at all, so it never undoes a decision an inner stage takes on
    the request alone.
  */
  lemma CorsPassesThrough(stops: Request -> bool)
    ensures PassesThrough(Cors.Cors, stops)
  {
    forall h1: Handler, h2: Handler | AgreeOn(stops, h1, h2)
      ensures AgreeOn(stops, Cors.Cors(h1), Cors.Cors(h2))
    {
      forall r, x | stops(r)
        ensures Cors.Cors(h1)(r, x) == Cors.Cors(h2)(r, x)
      {
        var origin := Get(r.header, "Origin");
        if !IsOriginAllowed(origin) {
          RefusedNeverForwards(h1, h2, r, x);
        } else if r.verb == "OPTIONS" {
          PreflightStops(h1, h2, r, x);
        } else {
          var allowed := AllowCors(x.Println("Cors Middleware Returned...").Println(origin), origin);
          assert h1(r, allowed) == h2(r, allowed);
          AcceptedForwardsOnce(h1, r, x);
          AcceptedForwardsOnce(h2, r, x);
        }
      }
    }
  }

  /**
    A request from an origin that is not allowed gets the CORS refusal and
    nothing else: the response is the same whatever the router and the
    other six stages are, so none of them has run.
  */
  lemma DisallowedOriginStopsAtCors(router1: Handler, inner1: seq<Middleware>,
                                    router2: Handler, inner2: seq<Middleware>, r: Request, x: Exchange)
    requires |inner1| == 6 && |inner2| == 6
    requires !IsOriginAllowed(Get(r.header, "Origin"))
    ensures var h1 := Chain(router1, Stages(inner1[0], inner1[1], inner1[2], inner1[3], inner1[4], inner1[5]));
      var h2 := Chain(router2, Stages(inner2[0], inner2[1], inner2[2], inner2[3], inner2[4], inner2[5]));
      h1(r, x) == h2(r, x) && h1(r, x).body == x.body + "Not Allowed By CORS\n" &&
      (x.status == None ==> h1(r, x).status == Some(403))
  {
    assert Stages(inner1[0], inner1[1], inner1[2], inner1[3], inner1[4], inner1[5]) == inner1 + [Cors.Cors] + [];
    assert Stages(inner2[0], inner2[1], inner2[2], inner2[3], inner2[4], inner2[5]) == inner2 + [Cors.Cors] + [];
    CorsAnswersRefused();
    ShortCircuitHidesInner(router1, router2, inner1, inner2, Cors.Cors, [], OriginRefused);
    assert inner1 + [Cors.Cors] + [] == inner1 + [Cors.Cors];
    LastIsOutermost(router1, inner1, Cors.Cors);
    RefusedNeverForwards(Chain(router1, inner1), Chain(router2, inner2), r, x);
  }

  /**
    A request from a disallowed origin that reaches the server with nothing
    written yet is answered 403 with the refusal text alone, and prints only
    the gate's entry line and the origin.
  */
  lemma DisallowedOriginOnFreshExchange(router: Handler, inner: seq<Middleware>, r: Request)
    requires |inner| == 6
    requires !IsOriginAllowed(Get(r.header, "Origin"))
    ensures var y := Chain(router, Stages(inner[0], inner[1], inner[2], inner[3], inner[4], inner[5]))(r, Fresh);
      y.status == Some(403) && y.body == "Not Allowed By CORS\n" &&
      y.console == ["Cors Middleware Returned...", Get(r.header, "Origin")]
  {
    DisallowedOriginStopsAtCors(router, inner, router, inner, r, Fresh);
    assert Stages(inner[0], inner[1], inner[2], inner[3], inner[4], inner[5]) == inner + [Cors.Cors];
    LastIsOutermost(router, inner, Cors.Cors);
  }

  /**
    The stage listed just before CORS, the rate limiter, hides the router and
    the five stages listed before it: on any request it answers by itself
    (whatever rule it uses to pick them), the response depends on neither.
    The rate limiter itself is a parameter; only this property is assumed of it.
  */
  lemma RateLimitedNeverReachesRouter(router1: Handler, inner1: seq<Middleware>,
                                      router2: Handler, inner2: seq<Middleware>,
                                      rateLimit: Middleware, limited: Request -> bool, r: Request, x: Exchange)
    requires |inner1| == 5 && |inner2| == 5
    requires AnswersAlone(rateLimit, limited) && limited(r)
    ensures Chain(router1, Stages(inner1[0], inner1[1], inner1[2], inner1[3], inner1[4], rateLimit))(r, x)
         == Chain(router2, Stages(inner2[0], inner2[1], inner2[2], inner2[3], inner2[4], rateLimit))(r, x)
  {
    assert Stages(inner1[0], inner1[1], inner1[2], inner1[3], inner1[4], rateLimit) == inner1 + [rateLimit] + [Cors.Cors];
    assert Stages(inner2[0], inner2[1], inner2[2], inner2[3], inner2[4], rateLimit) == inner2 + [rateLimit] + [Cors.Cors];
    CorsPassesThrough(limited);
    ShortCircuitHidesInner(router1, router2, inner1, inner2, rateLimit, [Cors.Cors], limited);
  }

  /**
    A request enters the stages in the reverse of the listed order: CORS
    first, then the rate limiter, response timing, JWT, HPP, compression
    and finally the security headers, just before the router. The six inner
    stages are not modelled, so each is stood for by a stage that only logs
    its name on the way in; the order is what is proved, not their effects.
  */
  lemma EntryOrder(router: Handler, r: Request, x: Exchange)
    ensures var inner := Announcers(["security headers", "compression", "hpp", "jwt", "response time", "rate limit"]);
      Chain(router, inner)(r, x)
        == router(r, x.(console := x.console + ["rate limit", "response time", "jwt", "hpp", "compression", "security headers"]))
  {
    var names := ["security headers", "compression", "hpp", "jwt", "response time", "rate limit"];
    IngressIsReversed(router, names, r, x);
    assert Reversed(names) == ["rate limit", "response time", "jwt", "hpp", "compression", "security headers"];
  }
}
