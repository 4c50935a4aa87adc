/**
  The slice of net/http the middleware code relies on, as values.

  A handler receives the request and the exchange so far (response headers,
  status, body, and the lines written to standard output) and returns the
  exchange after it has run. A response header is a map from the canonical
  header name to its value.
*/
module Http {
  import opened Wrappers

  datatype Request = Request(verb: string, path: string, header: map<string, string>)

  datatype Exchange = Exchange(header: map<string, string>, status: Option<int>, body: string, console: seq<string>)
  {
    /** Header().Set: replaces whatever value the header had. */
    function Set(key: string, value: string): (y: Exchange)
      ensures y.header == header[key := value]
      ensures y.status == status && y.body == body && y.console == console
    {
      this.(header := header[key := value])
    }

    /** Header().Del. */
    function Del(key: string): (y: Exchange)
      ensures key !in y.header
      ensures forall k :: k in header && k != key ==> k in y.header && y.header[k] == header[k]
      ensures forall k :: k in y.header ==> k in header
      ensures y.status == status && y.body == body && y.console == console
    {
      this.(header := header - {key})
    }

    /** WriteHeader: only the first status written reaches the client. */
    function WriteHeader(code: int): (y: Exchange)
      ensures y.status == (if status.Some? then status else Some(code))
      ensures y.header == header && y.body == body && y.console == console
    {
      if status.Some? then this else this.(status := Some(code))
    }

    /** Write: the body grows; writing before any status sends 200 OK. */
    function Write(data: string): (y: Exchange)
      ensures y.body == body + data
      ensures y.status == (if status.Some? then status else Some(200))
      ensures y.header == header && y.console == console
    {
      WriteHeader(200).(body := body + data)
    }

    /** fmt.Println on the server's standard output. */
    function Println(line: string): (y: Exchange)
      ensures y.console == console + [line]
      ensures y.header == header && y.status == status && y.body == body
    {
      this.(console := console + [line])
    }
  }

  /** The exchange a request starts with: nothing written yet. */
  const Fresh := Exchange(map[], None, "", [])

  type Handler = (Request, Exchange) -> Exchange

  /** Header.Get: the value of the header, or the empty string when it is absent. */
  function Get(h: map<string, string>, key: string): (v: string)
    ensures key in h ==> v == h[key]
    ensures key !in h ==> v == ""
  {
    if key in h then h[key] else ""
  }

  /**
    http.Error: the reply is plain text carrying the message and a newline,
    with the given status unless one was already written.
  */
  function Error(x: Exchange, message: string, code: int): (y: Exchange)
    ensures "Content-Length" !in y.header
    ensures "Content-Type" in y.header && y.header["Content-Type"] == "text/plain; charset=utf-8"
    ensures "X-Content-Type-Options" in y.header && y.header["X-Content-Type-Options"] == "nosniff"
    ensures y.status == (if x.status.Some? then x.status else Some(code))
    ensures y.body == x.body + message + "\n"
    ensures y.console == x.console
    ensures forall k :: k in x.header && k != "Content-Length" && k != "Content-Type" && k != "X-Content-Type-Options" ==>
      k in y.header && y.header[k] == x.header[k]
    ensures forall k :: k in y.header ==> k in x.header || k == "Content-Type" || k == "X-Content-Type-Options"
  {
    x.Del("Content-Length")
      .Set("Content-Type", "text/plain; charset=utf-8")
      .Set("X-Content-Type-Options", "nosniff")
      .WriteHeader(code)
      .Write(message + "\n")
  }
}
