/**
 * Requests as the fetch handler sees them, the classification of a request
 * as an HTML page load (`isHTML`) and the guard that decides whether the
 * worker intercepts it at all.
 */
module Requests {

  import opened Wrappers
  import opened Text

  /** The identity a request is cached under: its URL path on the worker's origin. */
  type Key = string

  /** The request mode of the Fetch standard. */
  datatype Mode = Navigate | SameOrigin | NoCors | Cors | WebSocket

  /**
   * An incoming request. `origin` is the origin of its URL, given rather
   * than parsed; `accept` is the `accept` header, absent or present.
   */
  datatype Request = Request(verb: string, mode: Mode, accept: Option<string>, origin: string, key: Key)

  /** The media type whose presence in `accept` marks a page load. */
  const HtmlMediaType: string := "text/html"

  /** The `accept` header, with an absent header read as the empty string. */
  function AcceptHeader(req: Request): string
  {
    match req.accept
    case Some(h) => h
    case None => ""
  }

  /** True when the request is a page load that the network-first policy serves. */
  predicate IsHTML(req: Request)
  {
    if req.mode == Navigate then true
    else req.verb == "GET" && Includes(Lower(AcceptHeader(req)), HtmlMediaType)
  }

  /** The worker answers only GET requests to its own origin; everything else goes to the browser. */
  predicate Intercepted(req: Request, selfOrigin: string)
  {
    req.verb == "GET" && req.origin == selfOrigin
  }

  /**
   * A request is HTML-class exactly when it is a navigation, or a GET whose
   * lower-cased `accept` header contains `text/html` somewhere.
   */
  lemma HtmlClassification(req: Request)
    ensures IsHTML(req) <==>
      req.mode == Navigate || (req.verb == "GET" && Contains(Lower(AcceptHeader(req)), HtmlMediaType))
  {
    IncludesIff(Lower(AcceptHeader(req)), HtmlMediaType);
  }

  /** A navigation is HTML-class whatever its verb and headers. */
  lemma NavigationIsHTML(req: Request)
    requires req.mode == Navigate
    ensures IsHTML(req)
    ensures forall m, a :: IsHTML(req.(verb := m, accept := a))
  {
  }

  /** Without an `accept` header, a request that is not a navigation is a static asset. */
  lemma MissingAcceptIsStatic(req: Request)
    requires req.mode != Navigate && req.accept.None?
    ensures !IsHTML(req)
  {
  }

  /** A non-GET request is HTML-class only when it is a navigation. */
  lemma NonGetIsHTMLOnlyWhenNavigating(req: Request)
    requires req.verb != "GET"
    ensures IsHTML(req) <==> req.mode == Navigate
  {
  }

  /** Upper- and lower-case in the `accept` header make no difference. */
  lemma AcceptCaseInsensitive(req: Request, h: string)
    ensures IsHTML(req.(accept := Some(h))) == IsHTML(req.(accept := Some(Lower(h))))
  {
    LowerIdempotent(h);
  }

  /** Non-GET and cross-origin requests are never intercepted. */
  lemma GuardRejects(req: Request, selfOrigin: string)
    ensures req.verb != "GET" ==> !Intercepted(req, selfOrigin)
    ensures req.origin != selfOrigin ==> !Intercepted(req, selfOrigin)
  {
  }
}
