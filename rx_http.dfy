/** The HTTP dispatch engine of mqtt-restful/src/rxHttp.ts.

    `RxHttp` keeps a registry of routes, one per key `"<method> <pattern>"`. Every arriving
    request becomes a `PendingRequest` (the source's `PreTransaction`) that passes through
    the routes in the order they were registered, assuming each route's stream is
    subscribed when it is registered, as the application does (a route's matcher joins the
    request stream only when its stream is first subscribed): the first route whose method and URL
    pattern match claims it (sets `consumed`) and receives a `Transaction`; every route that
    does not match counts one more rejection, and the route whose rejection brings the count
    up to the number of registered routes sends the request to the not-found fallback, which
    answers 404. All replies to a request go through one write-once guard (`replied`).

    URL patterns are matched by the `url-pattern` library, which is not part of this model:
    its `match` is the function `urlMatch` the registry is built with, giving `None` for a
    URL the pattern rejects and the extracted parameters otherwise. */
module RxHttp {
  import opened Wrappers
  import Strings

  /** The parameters `url-pattern` extracts from a matching URL (`UrlMatchResult`). */
  type Params = map<string, string>

  /** Response headers (`OutgoingHttpHeaders`), header name to value. */
  type Headers = map<string, string>

  /** A value handed to the JSON reply sink. `JSON.stringify` is not modelled: a response
      records the value it serialises. */
  datatype JsonValue = Undefined | Str(s: string) | Obj(members: seq<(string, JsonValue)>)

  /** What a reply writes as its body: a string verbatim, or a value serialised as JSON. */
  datatype Body = Text(text: string) | Json(value: JsonValue)

  /** One call made on the request's `ServerResponse`. */
  datatype ResponseOp = WriteHead(status: int, headers: Headers) | Write(body: Body) | End

  /** An event the request stream emits after it has arrived. */
  datatype RequestEvent = DataEvent(chunk: string) | EndEvent

  /** An arriving request: its method, its URL, and the body events it goes on to emit. */
  datatype Request = Request(verb: string, url: string, events: seq<RequestEvent>)

  /** A registered route (`TransactionRoute`); `verb` is the HTTP method. */
  datatype Route = Route(verb: string, pattern: string)

  /** The argument of the fully custom reply sink. */
  datatype TransactionReply = TransactionReply(status: int, headers: Headers, message: string)

  /** The `postData` of a transaction: absent for a route that is not POST; otherwise the
      buffered body, or `Unterminated` when the request never signals its end (the stream
      then never emits). */
  datatype PostData = Absent | Unterminated | Buffered(text: string)

  /** What a route stream (or the fallback) receives for a request. The three reply sinks
      are the methods `OkText`, `OkJson` and `Reply` below, applied to the transaction. The
      parsed URL (`url.parse`) is kept as the raw URL. */
  datatype Transaction = Transaction(
    pending: PendingRequest,
    route: Route,
    url: string,
    urlParams: Option<Params>,
    postData: PostData)

  const TextPlain: Headers := map["Content-Type" := "text/plain"]
  const ApplicationJson: Headers := map["Content-Type" := "application/json"]

  /** The fixed answer of the not-found fallback. */
  const NotFoundReply := TransactionReply(404, TextPlain, "not found")

  /** The three writes of one reply, in order. */
  function ReplyOps(status: int, headers: Headers, body: Body): seq<ResponseOp> {
    [WriteHead(status, headers), Write(body), End]
  }

  /** What the not-found fallback writes: status 404, `text/plain`, the text `not found`. */
  function NotFoundOps(): (ops: seq<ResponseOp>)
    ensures ops == [WriteHead(404, map["Content-Type" := "text/plain"]), Write(Text("not found")), End]
  {
    ReplyOps(NotFoundReply.status, NotFoundReply.headers, Text(NotFoundReply.message))
  }

  /** The registry key of a route, `routeToString`. */
  function RouteToString(r: Route): (key: string)
    ensures |key| == |r.verb| + 1 + |r.pattern|
    ensures key[..|r.verb|] == r.verb && key[|r.verb|] == ' ' && key[|r.verb| + 1..] == r.pattern
  {
    r.verb + " " + r.pattern
  }

  /** Keys identify routes as long as methods contain no space (HTTP methods never do). */
  lemma RouteKeyInjective(r1: Route, r2: Route)
    requires ' ' !in r1.verb && ' ' !in r2.verb
    ensures RouteToString(r1) == RouteToString(r2) <==> r1 == r2
  {
    if RouteToString(r1) == RouteToString(r2) {
      var k := RouteToString(r1);
      Strings.SplitAtFirstSeparator(r1.verb, ' ', r1.pattern);
      Strings.SplitAtFirstSeparator(r2.verb, ' ', r2.pattern);
      assert r1.verb == Strings.SplitOn(k, ' ')[0] == r2.verb;
      assert r1.pattern == k[|r1.verb| + 1..] == r2.pattern;
    }
  }

  /** The position of the entry with key `key` in the registry, if there is one: the
      dictionary lookup `route2Transaction$[routeStr]`. */
  function Lookup(routes: seq<Route>, key: string): (r: Option<nat>)
    ensures r.Some? ==> r.value < |routes| && RouteToString(routes[r.value]) == key
    ensures r.None? ==> forall i :: 0 <= i < |routes| ==> RouteToString(routes[i]) != key
    decreases |routes|
  {
    if routes == [] then None
    else if RouteToString(routes[|routes| - 1]) == key then Some(|routes| - 1)
    else Lookup(routes[..|routes| - 1], key)
  }

  /** `matchPreTransaction`: the request's method is the route's and its URL matches the
      route's pattern. */
  predicate RouteMatches(urlMatch: (string, string) -> Option<Params>, route: Route, req: Request)
    ensures RouteMatches(urlMatch, route, req) ==> req.verb == route.verb
    ensures RouteMatches(urlMatch, route, req) ==> urlMatch(route.pattern, req.url).Some?
  {
    req.verb == route.verb && urlMatch(route.pattern, req.url).Some?
  }

  /** The route, in registration order, that claims a request: the first one that matches. */
  function FirstMatch(urlMatch: (string, string) -> Option<Params>, routes: seq<Route>, req: Request): (r: Option<nat>)
    ensures r.Some? ==> r.value < |routes| && RouteMatches(urlMatch, routes[r.value], req)
    ensures r.Some? ==> forall j :: 0 <= j < r.value ==> !RouteMatches(urlMatch, routes[j], req)
    ensures r.None? <==> forall j :: 0 <= j < |routes| ==> !RouteMatches(urlMatch, routes[j], req)
    decreases |routes|
  {
    if routes == [] then None
    else
      var earlier := FirstMatch(urlMatch, routes[..|routes| - 1], req);
      if earlier.Some? then earlier
      else if RouteMatches(urlMatch, routes[|routes| - 1], req) then Some(|routes| - 1)
      else None
  }

  /** How many routes reject a request: its final `unmatchedCount`. */
  function CountUnmatched(urlMatch: (string, string) -> Option<Params>, routes: seq<Route>, req: Request): (n: nat)
    ensures n <= |routes|
    decreases |routes|
  {
    if routes == [] then 0
    else
      CountUnmatched(urlMatch, routes[..|routes| - 1], req)
        + (if RouteMatches(urlMatch, routes[|routes| - 1], req) then 0 else 1)
  }

  /** The rejection count reaches the number of routes exactly when no route matches: the
      condition under which the fallback fires. */
  lemma {:induction false} AllRejectIffNoMatch(urlMatch: (string, string) -> Option<Params>, routes: seq<Route>, req: Request)
    ensures CountUnmatched(urlMatch, routes, req) == |routes| <==> FirstMatch(urlMatch, routes, req).None?
    decreases |routes|
  {
    if routes != [] {
      AllRejectIffNoMatch(urlMatch, routes[..|routes| - 1], req);
    }
  }

  /** The chunks joined in order, `arr.join('')`. */
  function Concat(chunks: seq<string>): (text: string)
    ensures |chunks| == 1 ==> text == chunks[0]
    ensures chunks != [] ==> chunks[0] <= text
    ensures (forall i :: 0 <= i < |chunks| ==> chunks[i] == "") ==> text == ""
    decreases |chunks|
  {
    if chunks == [] then "" else chunks[0] + Concat(chunks[1..])
  }

  /** Joining is independent of where the chunk boundaries fall. */
  lemma {:induction false} ConcatAppend(a: seq<string>, b: seq<string>)
    ensures Concat(a + b) == Concat(a) + Concat(b)
    decreases |a|
  {
    if a != [] {
      assert (a + b)[0] == a[0] && (a + b)[1..] == a[1..] + b;
      ConcatAppend(a[1..], b);
      assert Concat(a + b) == a[0] + (Concat(a[1..]) + Concat(b));
    } else {
      assert a + b == b;
    }
  }

  /** One `data` event per chunk, in order. */
  function DataEvents(chunks: seq<string>): (events: seq<RequestEvent>)
    ensures |events| == |chunks|
    ensures forall i :: 0 <= i < |chunks| ==> events[i] == DataEvent(chunks[i])
  {
    seq(|chunks|, i requires 0 <= i < |chunks| => DataEvent(chunks[i]))
  }

  /** `readPostData`: the `data` chunks up to the first `end`, joined once the stream ends. */
  function ReadPostData(events: seq<RequestEvent>): (r: PostData)
    ensures r != Absent
    decreases |events|
  {
    if events == [] then Unterminated
    else match events[0]
      case EndEvent => Buffered("")
      case DataEvent(c) =>
        var rest := ReadPostData(events[1..]);
        if rest.Buffered? then Buffered(c + rest.text) else rest
  }

  /** The body of a request that sends `chunks` and then ends is the chunks joined in
      order; whatever the stream emits after its end is ignored. */
  lemma {:induction false} PostDataIsChunksBeforeEnd(chunks: seq<string>, later: seq<RequestEvent>)
    ensures ReadPostData(DataEvents(chunks) + [EndEvent] + later) == Buffered(Concat(chunks))
    decreases |chunks|
  {
    var events := DataEvents(chunks) + [EndEvent] + later;
    if chunks != [] {
      assert events[0] == DataEvent(chunks[0]);
      assert events[1..] == DataEvents(chunks[1..]) + [EndEvent] + later;
      PostDataIsChunksBeforeEnd(chunks[1..], later);
    } else {
      assert events[0] == EndEvent;
    }
  }

  /** A request that never signals its end never yields a body. */
  lemma {:induction false} PostDataWithoutEnd(events: seq<RequestEvent>)
    requires EndEvent !in events
    ensures ReadPostData(events) == Unterminated
    decreases |events|
  {
    if events != [] {
      assert events[0] != EndEvent;
      assert EndEvent !in events[1..] by {
        forall i | 0 <= i < |events| - 1 ensures events[1..][i] != EndEvent {
          assert events[1..][i] == events[i + 1];
        }
      }
      PostDataWithoutEnd(events[1..]);
    }
  }

  /** The per-request record, `PreTransaction`: the request, its response (as the writes
      made to it), and the three fields dispatch and reply update in place. */
  class PendingRequest {
    const req: Request
    var unmatchedCount: nat
    var consumed: bool
    var replied: bool
    var writes: seq<ResponseOp>

    /** The response has been written exactly when `replied` is set, and then it holds
        exactly one status line with headers, one body write and one end. */
    ghost predicate Valid()
      reads this
    {
      && (replied <==> writes != [])
      && (writes != [] ==> |writes| == 3 && writes[0].WriteHead? && writes[1].Write? && writes[2].End?)
    }

    /** The record the server callback creates for each request. */
    constructor (req: Request)
      ensures Valid()
      ensures this.req == req && unmatchedCount == 0 && !consumed && !replied && writes == []
    {
      this.req := req;
      unmatchedCount := 0;
      consumed := false;
      replied := false;
      writes := [];
    }

    /** `writeReply`: writes status, headers and message unless a reply was already made. */
    method WriteReply(status: int, headers: Headers, body: Body)
      requires Valid()
      modifies this
      ensures Valid() && replied
      ensures writes == if old(replied) then old(writes) else ReplyOps(status, headers, body)
      ensures unmatchedCount == old(unmatchedCount) && consumed == old(consumed)
    {
      if replied {
        return;
      }
      replied := true;
      writes := writes + [WriteHead(status, headers)];
      writes := writes + [Write(body)];
      writes := writes + [End];
    }
  }

  /** `okText`: status 200, `text/plain`, the string verbatim — unless already replied. */
  method OkText(t: Transaction, s: string)
    requires t.pending.Valid()
    modifies t.pending
    ensures t.pending.Valid() && t.pending.replied
    ensures t.pending.writes ==
      if old(t.pending.replied) then old(t.pending.writes) else ReplyOps(200, TextPlain, Text(s))
    ensures t.pending.unmatchedCount == old(t.pending.unmatchedCount)
    ensures t.pending.consumed == old(t.pending.consumed)
  {
    t.pending.WriteReply(200, TextPlain, Text(s));
  }

  /** `okJson`: status 200, `application/json`, the value serialised — unless already replied. */
  method OkJson(t: Transaction, v: JsonValue)
    requires t.pending.Valid()
    modifies t.pending
    ensures t.pending.Valid() && t.pending.replied
    ensures t.pending.writes ==
      if old(t.pending.replied) then old(t.pending.writes) else ReplyOps(200, ApplicationJson, Json(v))
    ensures t.pending.unmatchedCount == old(t.pending.unmatchedCount)
    ensures t.pending.consumed == old(t.pending.consumed)
  {
    t.pending.WriteReply(200, ApplicationJson, Json(v));
  }

  /** `reply`: the caller's status, headers and message — unless already replied. */
  method Reply(t: Transaction, r: TransactionReply)
    requires t.pending.Valid()
    modifies t.pending
    ensures t.pending.Valid() && t.pending.replied
    ensures t.pending.writes ==
      if old(t.pending.replied) then old(t.pending.writes) else ReplyOps(r.status, r.headers, Text(r.message))
    ensures t.pending.unmatchedCount == old(t.pending.unmatchedCount)
    ensures t.pending.consumed == old(t.pending.consumed)
  {
    t.pending.WriteReply(r.status, r.headers, Text(r.message));
  }

  /** The dispatch engine. `routes` is the `route2Transaction$` dictionary as its entries in
      insertion order. This is also the order in which the routes' matchers subscribed to
      the request stream, assuming each route's stream is subscribed when it is registered,
      as the application does. */
  class RxHttp {
    const urlMatch: (string, string) -> Option<Params>
    var routes: seq<Route>

    /** No key is registered twice. */
    ghost predicate Valid()
      reads this
    {
      forall i, j :: 0 <= i < j < |routes| ==> RouteToString(routes[i]) != RouteToString(routes[j])
    }

    constructor (urlMatch: (string, string) -> Option<Params>)
      ensures Valid() && this.urlMatch == urlMatch && routes == []
    {
      this.urlMatch := urlMatch;
      routes := [];
    }

    /** `toTransaction`: the view of a request handed to a route (or to the fallback). The
        body is read only for a POST route. */
    function ToTransaction(route: Route, p: PendingRequest): (t: Transaction)
      ensures t.pending == p && t.route == route && t.url == p.req.url
      ensures t.urlParams == urlMatch(route.pattern, p.req.url)
      ensures t.postData != Absent <==> route.verb == "POST"
      ensures t.postData == if route.verb == "POST" then ReadPostData(p.req.events) else Absent
    {
      Transaction(
        p, route, p.req.url, urlMatch(route.pattern, p.req.url),
        if route.verb == "POST" then ReadPostData(p.req.events) else Absent)
    }

    /** A POST transaction carries as its body the request's data chunks before the end
        event, joined in order. */
    lemma {:induction false} PostTransactionBody(route: Route, p: PendingRequest, chunks: seq<string>, later: seq<RequestEvent>)
      requires route.verb == "POST"
      requires p.req.events == DataEvents(chunks) + [EndEvent] + later
      ensures ToTransaction(route, p).postData == Buffered(Concat(chunks))
    {
      PostDataIsChunksBeforeEnd(chunks, later);
    }

    /** `transaction$`: the stream of a route. A key already registered returns the route
        stored under it and changes nothing; a new key is appended to the registry. */
    method TransactionStream(pattern: string, verb: string := "GET") returns (route: Route)
      requires Valid()
      modifies this
      ensures Valid()
      ensures RouteToString(route) == RouteToString(Route(verb, pattern))
      ensures match Lookup(old(routes), RouteToString(Route(verb, pattern)))
        case Some(i) => route == old(routes)[i] && routes == old(routes)
        case None => route == Route(verb, pattern) && routes == old(routes) + [route]
    {
      var key := RouteToString(Route(verb, pattern));
      var found := Lookup(routes, key);
      if found.None? {
        routes := routes + [Route(verb, pattern)];
        return Route(verb, pattern);
      }
      return routes[found.value];
    }

    /** The server callback and what every matcher does with the request it pushes, taken in
        registration order. `delivered` lists the transactions emitted into route streams and
        `notFound` counts the emissions into the not-found stream. */
    method Receive(req: Request) returns (p: PendingRequest, delivered: seq<Transaction>, notFound: nat)
      requires Valid()
      ensures fresh(p) && p.req == req && p.Valid()
      ensures p.unmatchedCount == CountUnmatched(urlMatch, routes, req)
      ensures match FirstMatch(urlMatch, routes, req)
        case Some(i) =>
          && p.consumed && !p.replied && p.writes == []
          && delivered == [ToTransaction(routes[i], p)] && notFound == 0
        case None =>
          && !p.consumed && delivered == []
          && notFound == (if routes == [] then 0 else 1)
          && p.replied == (routes != [])
          && p.writes == (if routes == [] then [] else NotFoundOps())
    {
      p := new PendingRequest(req);
      delivered, notFound := [], 0;
      for i := 0 to |routes|
        invariant p.req == req && p.Valid()
        invariant p.unmatchedCount == CountUnmatched(urlMatch, routes[..i], req)
        invariant p.consumed == FirstMatch(urlMatch, routes[..i], req).Some?
        invariant delivered ==
          match FirstMatch(urlMatch, routes[..i], req)
          case Some(j) => [ToTransaction(routes[j], p)]
          case None => []
        invariant notFound == (if routes != [] && p.unmatchedCount == |routes| then 1 else 0)
        invariant p.replied == (notFound == 1)
        invariant p.writes == (if notFound == 1 then NotFoundOps() else [])
      {
        assert routes[..i + 1][..i] == routes[..i];
        var route := routes[i];
        var params := urlMatch(route.pattern, req.url);
        if !(req.verb == route.verb && params.Some?) {
          p.unmatchedCount := p.unmatchedCount + 1;
          if |routes| == p.unmatchedCount {
            notFound := notFound + 1;
            Reply(ToTransaction(route, p), NotFoundReply);
          }
        } else if !p.consumed {
          p.consumed := true;
          delivered := delivered + [ToTransaction(route, p)];
        }
      }
      assert routes[..|routes|] == routes;
      AllRejectIffNoMatch(urlMatch, routes, req);
    }
  }
}
