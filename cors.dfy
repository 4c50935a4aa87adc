/**
  The CORS gate of cors.go.

  A request whose Origin header is not one of two exact strings is refused
  with 403 before anything behind the gate runs. An accepted request gets
  the CORS headers; a preflight (OPTIONS) request stops there, any other
  request is handed to the next handler exactly once.
*/
module Cors {
  import opened Wrappers
  import opened Http

  const AllowedOrigins: seq<string> := ["https://my-origin-url.com", "https://localhost:3000"]

  const Forbidden := 403
  const Refusal := "Not Allowed By CORS"

  /** The linear search of isOriginAllowed over a list of origins. */
  function Listed(origins: seq<string>, origin: string): (b: bool)
    ensures b <==> origin in origins
  {
    if origins == [] then false
    else if origin == origins[0] then true
    else Listed(origins[1..], origin)
  }

  /** isOriginAllowed: exact, case-sensitive membership in the allowed list. */
  function IsOriginAllowed(origin: string): (b: bool)
    ensures b <==> origin == "https://my-origin-url.com" || origin == "https://localhost:3000"
  {
    Listed(AllowedOrigins, origin)
  }

  /** The six response headers the gate sets on an accepted request. */
  predicate IsCorsHeader(k: string) {
    k in {"Access-Control-Allow-Origin", "Access-Control-Allow-Headers", "Access-Control-Expose-Headers",
          "Access-Control-Allow-Methods", "Access-Control-Allow-Credentials", "Access-Control-Max-Age"}
  }

  /** The values of the six Header().Set calls, the first one echoing the request's origin. */
  function CorsHeaders(origin: string): map<string, string> {
    map["Access-Control-Allow-Origin" := origin,
        "Access-Control-Allow-Headers" := "Content-Type, Authorization",
        "Access-Control-Expose-Headers" := "Authorization",
        "Access-Control-Allow-Methods" := "GET, POST, PUT, DELETE",
        "Access-Control-Allow-Credentials" := "true",
        "Access-Control-Max-Age" := "3600"]
  }

  /**
    The headers an accepted request carries from then on: each Set replaces
    that header's value, and every other header is left as it was.
  */
  function AllowCors(x: Exchange, origin: string): (y: Exchange)
    ensures "Access-Control-Allow-Origin" in y.header && y.header["Access-Control-Allow-Origin"] == origin
    ensures "Access-Control-Allow-Headers" in y.header && y.header["Access-Control-Allow-Headers"] == "Content-Type, Authorization"
    ensures "Access-Control-Expose-Headers" in y.header && y.header["Access-Control-Expose-Headers"] == "Authorization"
    ensures "Access-Control-Allow-Methods" in y.header && y.header["Access-Control-Allow-Methods"] == "GET, POST, PUT, DELETE"
    ensures "Access-Control-Allow-Credentials" in y.header && y.header["Access-Control-Allow-Credentials"] == "true"
    ensures "Access-Control-Max-Age" in y.header && y.header["Access-Control-Max-Age"] == "3600"
    ensures y.status == x.status && y.body == x.body && y.console == x.console
    ensures forall k :: k in x.header && !IsCorsHeader(k) ==> k in y.header && y.header[k] == x.header[k]
    ensures forall k :: k in y.header ==> k in x.header || IsCorsHeader(k)
  {
    x.(header := x.header + CorsHeaders(origin))
  }

  /**
    What the handler Cors returns does with one request: it logs its entry and
    the origin; a refused origin gets the 403 refusal, an accepted preflight
    gets the CORS headers only, and any other accepted request goes on to
    `next`, after which the gate logs its end.
  */
  function ServeCors(next: Handler, r: Request, x: Exchange): (y: Exchange)
    ensures var origin := Get(r.header, "Origin");
      !IsOriginAllowed(origin) ==>
        y.body == x.body + Refusal + "\n" && y.console == x.console + ["Cors Middleware Returned...", origin] &&
        (x.status == None ==> y.status == Some(Forbidden))
    ensures var origin := Get(r.header, "Origin");
      IsOriginAllowed(origin) && r.verb == "OPTIONS" ==>
        y == AllowCors(x.Println("Cors Middleware Returned...").Println(origin), origin) &&
        y.body == x.body && y.status == x.status && y.console == x.console + ["Cors Middleware Returned...", origin] &&
        "Access-Control-Allow-Origin" in y.header && y.header["Access-Control-Allow-Origin"] == origin
    ensures IsOriginAllowed(Get(r.header, "Origin")) && r.verb != "OPTIONS" ==>
      |y.console| > 0 && y.console[|y.console| - 1] == "Cors Middleware Ends..."
  {
    var origin := Get(r.header, "Origin");
    var seen := x.Println("Cors Middleware Returned...").Println(origin);
    if !IsOriginAllowed(origin) then
      Error(seen, Refusal, Forbidden)
    else
      var allowed := AllowCors(seen, origin);
      if r.verb == "OPTIONS" then allowed
      else next(r, allowed).Println("Cors Middleware Ends...")
  }

  /** The middleware itself. */
  function Cors(next: Handler): Handler
  {
    (r: Request, x: Exchange) => ServeCors(next, r, x)
  }

  /**
    A request from an origin that is not allowed is answered 403 with the
    refusal text, whatever handler sits behind the gate: the next handler
    does not run.
  */
  lemma RefusedNeverForwards(next1: Handler, next2: Handler, r: Request, x: Exchange)
    requires !IsOriginAllowed(Get(r.header, "Origin"))
    ensures Cors(next1)(r, x) == Cors(next2)(r, x)
    ensures x.status == None ==> Cors(next1)(r, x).status == Some(403)
    ensures Cors(next1)(r, x).body == x.body + "Not Allowed By CORS\n"
    ensures "Access-Control-Allow-Origin" !in x.header ==> "Access-Control-Allow-Origin" !in Cors(next1)(r, x).header
  {
  }

  /** A request with no Origin header, or an empty one, is refused. */
  lemma MissingOriginRefused(next: Handler, r: Request, x: Exchange)
    requires "Origin" !in r.header || r.header["Origin"] == ""
    ensures Cors(next)(r, x) == Cors((r: Request, y: Exchange) => y)(r, x)
    ensures x.status == None ==> Cors(next)(r, x).status == Some(403)
  {
    assert Get(r.header, "Origin") == "";
    RefusedNeverForwards(next, (r: Request, y: Exchange) => y, r, x);
  }

  /**
    An accepted preflight request gets the CORS headers, with the request's
    own origin echoed, and stops at the gate: nothing is written to the body
    and the next handler does not run.
  */
  lemma PreflightStops(next1: Handler, next2: Handler, r: Request, x: Exchange)
    requires IsOriginAllowed(Get(r.header, "Origin")) && r.verb == "OPTIONS"
    ensures Cors(next1)(r, x) == Cors(next2)(r, x)
    ensures Cors(next1)(r, x)
         == AllowCors(x.Println("Cors Middleware Returned...").Println(r.header["Origin"]), r.header["Origin"])
    ensures Cors(next1)(r, x).header["Access-Control-Allow-Origin"] == r.header["Origin"]
    ensures Cors(next1)(r, x).header["Access-Control-Allow-Methods"] == "GET, POST, PUT, DELETE"
    ensures Cors(next1)(r, x).header["Access-Control-Max-Age"] == "3600"
    ensures Cors(next1)(r, x).status == x.status && Cors(next1)(r, x).body == x.body
  {
  }

  /**
    Any other accepted request runs the next handler once, on an exchange
    that already carries the CORS headers, and then logs the end of the gate.
  */
  lemma AcceptedForwardsOnce(next: Handler, r: Request, x: Exchange)
    requires IsOriginAllowed(Get(r.header, "Origin")) && r.verb != "OPTIONS"
    ensures var origin := r.header["Origin"];
      var y := x.Println("Cors Middleware Returned...").Println(origin);
      Cors(next)(r, x) == next(r, AllowCors(y, origin)).Println("Cors Middleware Ends...")
  {
  }

  /**
    Seen from standard output, an accepted non-preflight request logs the
    gate's entry, the origin, whatever the next handler logs, and the gate's
    exit, in that order.
  */
  lemma AcceptedLogOrder(r: Request, x: Exchange)
    requires IsOriginAllowed(Get(r.header, "Origin")) && r.verb != "OPTIONS"
    ensures Cors((r: Request, y: Exchange) => y.Println("next"))(r, x).console
         == x.console + ["Cors Middleware Returned...", r.header["Origin"], "next", "Cors Middleware Ends..."]
  {
  }
}
