/**
  ApplyMiddlewares of pkg/utils/middlewaresutils.go.

  Each middleware wraps the handler built so far, so the middleware listed
  LAST ends up outermost: it is the first to see a request and the last to
  touch the response.
*/
module Middlewares {
  import opened Http

  type Middleware = Handler -> Handler

  /** The handler obtained by wrapping h in ms[0], then ms[1], and so on. */
  function Chain(h: Handler, ms: seq<Middleware>): Handler
    decreases |ms|
  {
    if ms == [] then h else ms[|ms| - 1](Chain(h, ms[..|ms| - 1]))
  }

  /** The loop of ApplyMiddlewares: one reassignment of the handler per middleware, in list order. */
  method ApplyMiddlewares(handler: Handler, middlewares: seq<Middleware>) returns (r: Handler)
    ensures r == Chain(handler, middlewares)
  {
    r := handler;
    for i := 0 to |middlewares|
      invariant r == Chain(handler, middlewares[..i])
    {
      assert middlewares[..i + 1][..i] == middlewares[..i];
      r := middlewares[i](r);
    }
    assert middlewares[..|middlewares|] == middlewares;
  }

  /** With no middleware the handler is returned as it is. */
  lemma NoMiddlewares(h: Handler)
    ensures Chain(h, []) == h
  {
  }

  /** The last middleware listed is the outermost one. */
  lemma {:induction false} LastIsOutermost(h: Handler, ms: seq<Middleware>, m: Middleware)
    ensures Chain(h, ms + [m]) == m(Chain(h, ms))
  {
    assert (ms + [m])[..|ms|] == ms;
  }

  /** Applying two lists in turn is applying their concatenation. */
  lemma {:induction false} ChainAppend(h: Handler, xs: seq<Middleware>, ys: seq<Middleware>)
    ensures Chain(Chain(h, xs), ys) == Chain(h, xs + ys)
    decreases |ys|
  {
    if ys == [] {
      assert xs + ys == xs;
    } else {
      var init := ys[..|ys| - 1];
      var last := ys[|ys| - 1];
      assert ys == init + [last];
      assert xs + ys == (xs + init) + [last];
      ChainAppend(h, xs, init);
      LastIsOutermost(Chain(h, xs), init, last);
      LastIsOutermost(h, xs + init, last);
    }
  }

  /** A middleware that logs its name on the way in, then calls the handler it wraps. */
  function Announce(name: string): Middleware
  {
    (next: Handler) => (r: Request, x: Exchange) => next(r, x.Println(name))
  }

  function Announcers(names: seq<string>): (ms: seq<Middleware>)
    ensures |ms| == |names|
    ensures forall i :: 0 <= i < |names| ==> ms[i] == Announce(names[i])
  {
    if names == [] then [] else Announcers(names[..|names| - 1]) + [Announce(names[|names| - 1])]
  }

  function Reversed<T>(s: seq<T>): (t: seq<T>)
    ensures |t| == |s|
    ensures forall i :: 0 <= i < |s| ==> t[i] == s[|s| - 1 - i]
  {
    if s == [] then [] else [s[|s| - 1]] + Reversed(s[..|s| - 1])
  }

  /**
    Requests enter the stages in the reverse of the order they are listed:
    when every stage logs its name on entry, the log reads the list
    backwards before the handler runs.
  */
  lemma {:induction false} IngressIsReversed(h: Handler, names: seq<string>, r: Request, x: Exchange)
    ensures Chain(h, Announcers(names))(r, x) == h(r, x.(console := x.console + Reversed(names)))
    decreases |names|
  {
    if names == [] {
      assert x.console + Reversed(names) == x.console;
    } else {
      var init := names[..|names| - 1];
      var last := names[|names| - 1];
      LastIsOutermost(h, Announcers(init), Announce(last));
      calc {
        Chain(h, Announcers(names))(r, x);
        Announce(last)(Chain(h, Announcers(init)))(r, x);
        Chain(h, Announcers(init))(r, x.Println(last));
        { IngressIsReversed(h, init, r, x.Println(last)); }
        h(r, x.Println(last).(console := x.console + [last] + Reversed(init)));
        { assert x.console + Reversed(names) == x.console + [last] + Reversed(init); }
        h(r, x.(console := x.console + Reversed(names)));
      }
    }
  }

  /** Two handlers give the same response to every request `stops` picks out, whatever the exchange so far. */
  ghost predicate AgreeOn(stops: Request -> bool, h1: Handler, h2: Handler) {
    forall r, x :: stops(r) ==> h1(r, x) == h2(r, x)
  }

  /** A stage that answers the requests `stops` picks out by itself, without running the handler it wraps. */
  ghost predicate AnswersAlone(m: Middleware, stops: Request -> bool) {
    forall n1: Handler, n2: Handler :: AgreeOn(stops, m(n1), m(n2))
  }

  /**
    A stage that, on the requests `stops` picks out, depends on the handler it
    wraps only through that handler's responses to those same requests (it may
    call it or not, on any exchange, but does not change the request).
  */
  ghost predicate PassesThrough(n: Middleware, stops: Request -> bool) {
    forall h1: Handler, h2: Handler :: AgreeOn(stops, h1, h2) ==> AgreeOn(stops, n(h1), n(h2))
  }

  /**
    A stage that answers a request alone hides everything listed before it:
    when the stages listed after it pass such a request through unchanged,
    neither the handler nor any earlier stage has any effect on the response.
  */
  lemma {:induction false} ShortCircuitHidesInner(h1: Handler, h2: Handler, xs1: seq<Middleware>, xs2: seq<Middleware>,
                                                  m: Middleware, ys: seq<Middleware>, stops: Request -> bool)
    requires AnswersAlone(m, stops)
    requires forall k :: 0 <= k < |ys| ==> PassesThrough(ys[k], stops)
    ensures AgreeOn(stops, Chain(h1, xs1 + [m] + ys), Chain(h2, xs2 + [m] + ys))
    decreases |ys|
  {
    if ys == [] {
      assert xs1 + [m] + ys == xs1 + [m];
      assert xs2 + [m] + ys == xs2 + [m];
      LastIsOutermost(h1, xs1, m);
      LastIsOutermost(h2, xs2, m);
    } else {
      var init := ys[..|ys| - 1];
      var last := ys[|ys| - 1];
      ShortCircuitHidesInner(h1, h2, xs1, xs2, m, init, stops);
      assert xs1 + [m] + ys == (xs1 + [m] + init) + [last];
      assert xs2 + [m] + ys == (xs2 + [m] + init) + [last];
      LastIsOutermost(h1, xs1 + [m] + init, last);
      LastIsOutermost(h2, xs2 + [m] + init, last);
      assert PassesThrough(last, stops);
    }
  }
}
