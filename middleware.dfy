/** The HTTP middleware of the API (internal/middleware/middleware.go):
    composition with `Chain`, the CORS allow decision and preflight answer,
    the status-recording response writer used by `Logger`, and `Session`.

    A handler is described by its structure: an endpoint, or a middleware
    wrapped around a handler.  `Serve` gives that structure its meaning on a
    request, so properties of a composed stack are stated over `Serve`. */
module Middleware {
  import opened Wrappers
  import opened GoText

  /** The middleware this program wires up.  `Session` carries no store: the
      account the store resolves for a request is part of the request. */
  datatype Layer =
    | Recovery
    | Logger
    | Cors(origins: seq<string>)
    | Session

  datatype Handler =
    | Endpoint(status: int)
    | Wrapped(layer: Layer, next: Handler)

  /** The parts of a request the middleware looks at.  `sessionAccount` is
      what the session store's Authenticate returns for it ("" when the
      request carries no valid session); `account` is the account id in the
      request context. */
  datatype Request = Request(
    verb: string,
    origin: string,
    sessionAccount: string,
    account: Option<string>)

  /** The answer: status, response headers, and the request as the endpoint
      saw it (None when no endpoint ran). */
  datatype Response = Response(
    status: int,
    headers: map<string, string>,
    reached: Option<Request>)

  // ---------------------------------------------------------------------
  // Chain

  /** m1(m2(...mn(h))): the first layer is the outermost one. */
  function Nest(h: Handler, layers: seq<Layer>): Handler
    decreases |layers|
  {
    if |layers| == 0 then h else Wrapped(layers[0], Nest(h, layers[1..]))
  }

  /** `Chain`: wraps the handler from the last layer to the first. */
  method Chain(h: Handler, layers: seq<Layer>) returns (handler: Handler)
    ensures handler == Nest(h, layers)
    ensures |layers| == 0 ==> handler == h
  {
    handler := h;
    var i := |layers|;
    while i > 0
      invariant 0 <= i <= |layers|
      invariant handler == Nest(h, layers[i..])
      decreases i
    {
      i := i - 1;
      assert layers[i..][1..] == layers[i + 1..];
      handler := Wrapped(layers[i], handler);
    }
    assert layers[0..] == layers;
  }

  /** Chaining a list in two parts is chaining the second part first and the
      first part around it. */
  lemma {:induction false} NestAppend(h: Handler, front: seq<Layer>, back: seq<Layer>)
    ensures Nest(h, front + back) == Nest(Nest(h, back), front)
    decreases |front|
  {
    if |front| > 0 {
      assert (front + back)[1..] == front[1..] + back;
      NestAppend(h, front[1..], back);
    } else {
      assert front + back == back;
    }
  }

  // ---------------------------------------------------------------------
  // CORS

  /** The configured origins: the setting split on ',' with each entry
      trimmed of white space. */
  function ParseOrigins(allowed: string): (r: seq<string>)
    ensures |r| == |Split(allowed, ',')|
    ensures forall i :: 0 <= i < |r| ==> r[i] == TrimSpace(Split(allowed, ',')[i])
  {
    var parts := Split(allowed, ',');
    seq(|parts|, i requires 0 <= i < |parts| => TrimSpace(parts[i]))
  }

  /** The in-place trimming loop that builds the origin list. */
  method TrimOrigins(allowed: string) returns (origins: seq<string>)
    ensures origins == ParseOrigins(allowed)
    ensures |origins| >= 1
  {
    origins := Split(allowed, ',');
    var n := |origins|;
    for i := 0 to n
      invariant |origins| == n
      invariant forall k :: 0 <= k < i ==> origins[k] == TrimSpace(Split(allowed, ',')[k])
      invariant forall k :: i <= k < n ==> origins[k] == Split(allowed, ',')[k]
    {
      origins := origins[i := TrimSpace(origins[i])];
    }
  }

  /** A request origin is allowed when an entry equals it or is "*". */
  predicate Allowed(origins: seq<string>, origin: string) {
    exists i :: 0 <= i < |origins| && (origins[i] == origin || origins[i] == "*")
  }

  /** The scan with early exit. */
  method IsAllowed(origins: seq<string>, origin: string) returns (allowed: bool)
    ensures allowed <==> Allowed(origins, origin)
  {
    allowed := false;
    var i := 0;
    while i < |origins|
      invariant 0 <= i <= |origins|
      invariant !allowed
      invariant forall k :: 0 <= k < i ==> origins[k] != origin && origins[k] != "*"
      decreases |origins| - i
    {
      if origins[i] == origin || origins[i] == "*" {
        allowed := true;
        return;
      }
      i := i + 1;
    }
  }

  const AllowMethods: string := "GET, POST, PUT, DELETE, PATCH, HEAD, OPTIONS"
  const AllowHeaders: string :=
    "Content-Type, Authorization, Tus-Resumable, Upload-Length, Upload-Offset, Upload-Metadata, Upload-Concat"
  const ExposeHeaders: string :=
    "Location, Upload-Offset, Upload-Length, Tus-Version, Tus-Resumable, Tus-Max-Size, Tus-Extension"

  /** The headers an allowed request receives. */
  function CorsHeaders(headers: map<string, string>, origin: string): map<string, string> {
    headers["Access-Control-Allow-Origin" := origin]
           ["Access-Control-Allow-Credentials" := "true"]
           ["Access-Control-Allow-Methods" := AllowMethods]
           ["Access-Control-Allow-Headers" := AllowHeaders]
           ["Access-Control-Expose-Headers" := ExposeHeaders]
           ["Access-Control-Max-Age" := "86400"]
  }

  const NoContent: int := 204

  // ---------------------------------------------------------------------
  // Serving a request through a stack

  /** What a handler answers to a request, given the headers already set
      by the layers around it. */
  function Serve(h: Handler, req: Request, headers: map<string, string>): Response
    decreases h
  {
    match h
    case Endpoint(status) => Response(status, headers, Some(req))
    case Wrapped(Recovery, next) => Serve(next, req, headers)
    case Wrapped(Logger, next) => Serve(next, req, headers)
    case Wrapped(Cors(origins), next) =>
      var hs := if Allowed(origins, req.origin) then CorsHeaders(headers, req.origin) else headers;
      if req.verb == "OPTIONS" then Response(NoContent, hs, None)
      else Serve(next, req, hs)
    case Wrapped(Session, next) =>
      var r := if req.sessionAccount != "" then req.(account := Some(req.sessionAccount)) else req;
      Serve(next, r, headers)
  }

  /** The CORS layer on an allowed request echoes its origin, with
      credentials, and on a refused one adds no header of its own. */
  lemma CorsHeadersDecision(origins: seq<string>, next: Handler, req: Request)
    requires req.verb == "OPTIONS" || next.Endpoint?
    ensures var resp := Serve(Wrapped(Cors(origins), next), req, map[]);
      Allowed(origins, req.origin) ==>
        "Access-Control-Allow-Origin" in resp.headers &&
        "Access-Control-Allow-Credentials" in resp.headers &&
        resp.headers["Access-Control-Allow-Origin"] == req.origin &&
        resp.headers["Access-Control-Allow-Credentials"] == "true"
    ensures var resp := Serve(Wrapped(Cors(origins), next), req, map[]);
      !Allowed(origins, req.origin) ==> resp.headers == map[]
  {
  }

  /** The echoed origin is "*" only when the request itself said "*", even
      when the configuration allows every origin. */
  lemma CorsNeverEchoesWildcard(origins: seq<string>, next: Handler, req: Request)
    requires req.verb == "OPTIONS" || next.Endpoint?
    requires req.origin != "*"
    ensures var resp := Serve(Wrapped(Cors(origins), next), req, map[]);
      "Access-Control-Allow-Origin" in resp.headers ==>
        resp.headers["Access-Control-Allow-Origin"] != "*"
  {
  }

  /** A preflight request is answered 204 by the CORS layer, allowed or not,
      and never reaches the handler inside it. */
  lemma PreflightStops(origins: seq<string>, next: Handler, req: Request, headers: map<string, string>)
    requires req.verb == "OPTIONS"
    ensures Serve(Wrapped(Cors(origins), next), req, headers).status == NoContent
    ensures Serve(Wrapped(Cors(origins), next), req, headers).reached == None
  {
  }

  /** Every other method is passed on to the inner handler, with the CORS
      headers added when the origin is allowed and the request unchanged. */
  lemma CorsForwards(origins: seq<string>, next: Handler, req: Request, headers: map<string, string>)
    requires req.verb != "OPTIONS"
    ensures Allowed(origins, req.origin) ==>
      Serve(Wrapped(Cors(origins), next), req, headers) == Serve(next, req, CorsHeaders(headers, req.origin))
    ensures !Allowed(origins, req.origin) ==>
      Serve(Wrapped(Cors(origins), next), req, headers) == Serve(next, req, headers)
  {
  }

  /** `Session` always calls the inner handler, and attaches the account
      exactly when the store resolved a non-empty one. */
  lemma SessionAttaches(status: int, req: Request, headers: map<string, string>)
    requires req.account.None?
    ensures Serve(Wrapped(Session, Endpoint(status)), req, headers).reached.Some?
    ensures var seen := Serve(Wrapped(Session, Endpoint(status)), req, headers).reached.value;
      seen.account == (if req.sessionAccount != "" then Some(req.sessionAccount) else None) &&
      seen.verb == req.verb && seen.origin == req.origin
  {
    var r := if req.sessionAccount != "" then req.(account := Some(req.sessionAccount)) else req;
    assert Serve(Wrapped(Session, Endpoint(status)), req, headers) == Serve(Endpoint(status), r, headers);
  }

  /** The stack main.go builds around its router. */
  function ApiStack(mux: Handler, allowedOrigins: string): Handler {
    Nest(mux, [Recovery, Logger, Cors(ParseOrigins(allowedOrigins)), Session])
  }

  /** Through the whole stack, a preflight never reaches the router, and any
      other request reaches the endpoint with its session account attached
      when there is one and with the endpoint's own status. */
  lemma ApiStackBehaviour(status: int, allowedOrigins: string, req: Request)
    requires req.account.None?
    ensures req.verb == "OPTIONS" ==>
      Serve(ApiStack(Endpoint(status), allowedOrigins), req, map[]).status == NoContent &&
      Serve(ApiStack(Endpoint(status), allowedOrigins), req, map[]).reached == None
    ensures req.verb != "OPTIONS" ==>
      Serve(ApiStack(Endpoint(status), allowedOrigins), req, map[]).status == status &&
      Serve(ApiStack(Endpoint(status), allowedOrigins), req, map[]).reached ==
        Some(if req.sessionAccount != "" then req.(account := Some(req.sessionAccount)) else req)
  {
    var origins := ParseOrigins(allowedOrigins);
    var h := Endpoint(status);
    var inner := Wrapped(Cors(origins), Wrapped(Session, h));
    ApiStackShape(h, allowedOrigins);
    assert Serve(ApiStack(h, allowedOrigins), req, map[]) == Serve(inner, req, map[]);
    if req.verb == "OPTIONS" {
      PreflightStops(origins, Wrapped(Session, h), req, map[]);
    } else {
      var hs := if Allowed(origins, req.origin) then CorsHeaders(map[], req.origin) else map[];
      CorsForwards(origins, Wrapped(Session, h), req, map[]);
      assert Serve(inner, req, map[]) == Serve(Wrapped(Session, h), req, hs);
      SessionAttaches(status, req, hs);
    }
  }

  lemma ApiStackShape(h: Handler, allowedOrigins: string)
    ensures ApiStack(h, allowedOrigins) ==
      Wrapped(Recovery, Wrapped(Logger, Wrapped(Cors(ParseOrigins(allowedOrigins)), Wrapped(Session, h))))
  {
    var layers := [Recovery, Logger, Cors(ParseOrigins(allowedOrigins)), Session];
    assert layers[3..][1..] == [];
    assert Nest(h, layers[3..]) == Wrapped(Session, h);
    assert layers[2..][1..] == layers[3..];
    assert Nest(h, layers[2..]) == Wrapped(layers[2], Nest(h, layers[3..]));
    assert layers[1..][1..] == layers[2..];
    assert Nest(h, layers[1..]) == Wrapped(Logger, Nest(h, layers[2..]));
  }

  // ---------------------------------------------------------------------
  // statusWriter and Logger

  /** `statusWriter`: remembers the last status code written through it and
      passes every code on to the writer it wraps. */
  class StatusWriter {
    var status: int
    /** The codes passed on to the wrapped writer, in order. */
    var forwarded: seq<int>

    constructor ()
      ensures status == 200
      ensures forwarded == []
    {
      status := 200;
      forwarded := [];
    }

    method WriteHeader(code: int)
      modifies this
      ensures status == code
      ensures forwarded == old(forwarded) + [code]
    {
      status := code;
      forwarded := forwarded + [code];
    }
  }

  /** The status `Logger` reports: the last code the handler wrote, or 200
      when it wrote none. */
  function LoggedStatus(codes: seq<int>): int
  {
    if |codes| == 0 then 200 else codes[|codes| - 1]
  }

  /** `Logger` around a handler that writes the given status codes: the
      codes all reach the underlying writer in order, and the logged status
      is the last of them. */
  method LogRequest(codes: seq<int>) returns (logged: int, forwarded: seq<int>)
    ensures logged == LoggedStatus(codes)
    ensures forwarded == codes
  {
    var sw := new StatusWriter();
    for i := 0 to |codes|
      invariant sw.forwarded == codes[..i]
      invariant sw.status == LoggedStatus(codes[..i])
    {
      sw.WriteHeader(codes[i]);
      assert codes[..i + 1] == codes[..i] + [codes[i]];
    }
    assert codes[..|codes|] == codes;
    logged := sw.status;
    forwarded := sw.forwarded;
  }
}
