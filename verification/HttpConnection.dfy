/** A whole connection: one parser call a message, at most one request handed over, and a reset that keeps the body. */
module HttpConnection {
  import opened Options
  import opened HttpParsing
  import opened HttpRoundTrip

  /** `HttpContext::reset`: `HttpRequest::swap` exchanges neither the body nor its length. */
  function Reset(r: Request): Context {
    Context(ExpectRequestLine, NewRequest().(contentLength := r.contentLength, content := r.content))
  }

  /** `failed`: a parse has failed, the 400 has been sent and our side has been shut down. Bytes may still arrive, and
      the parser is called on them. */
  datatype Connection = Connection(context: Context, buf: string, handed: seq<Request>, failed: bool)

  function Opened(): Connection { Connection(NewContext(), "", [], false) }

  /** `HttpServer::onMessage`, with `onRequest` returning normally. */
  function OnMessage(conn: Connection, chunk: string): (r: Connection)
    requires conn.context.state != GotAll
    ensures r.context.state != GotAll
  {
    var o := Parse(conn.context, conn.buf + chunk);
    var failed := conn.failed || o.status != Ok;
    if o.status != Threw && o.context.state == GotAll then
      Connection(Reset(o.context.request), o.rest, conn.handed + [o.context.request], failed)
    else
      FailureIsNotComplete(conn.context, conn.buf + chunk);
      Connection(o.context, o.rest, conn.handed, failed)
  }

  /** The parser is never entered in `GotAll`, whatever arrives, failed parses included. */
  function Received(chunks: seq<string>): (conn: Connection)
    ensures conn.context.state != GotAll
  {
    if chunks == [] then Opened() else OnMessage(Received(chunks[..|chunks| - 1]), chunks[|chunks| - 1])
  }

  // ----- the requests of a stream -----

  predicate Finished(o: Outcome) { o.status == Ok && o.context.state == GotAll }

  lemma {:induction false} FinishingConsumes(c: Context, s: string)
    requires c.state != GotAll && c.state != ExpectBody && Finished(Parse(c, s))
    ensures |Parse(c, s).rest| < |s|
  {
    match Step(c, s)
    case Go(c', rest) => LeavesASuffix(c', rest);
    case _ =>
  }

  /** All requests of `s`, each parsed afresh. */
  function Requests(s: string): seq<Request>
    decreases |s|
  {
    var o := Parse(NewContext(), s);
    if Finished(o) then
      FinishingConsumes(NewContext(), s);
      [o.context.request] + Requests(o.rest)
    else []
  }

  /** The requests still to come from `s` when the first is being parsed in context `c`. */
  function Remaining(c: Context, s: string): seq<Request>
    requires c.state != GotAll
  {
    var o := Parse(c, s);
    if Finished(o) then [o.context.request] + Requests(o.rest) else []
  }

  // ----- stale fields -----

  predicate SameHead(a: Request, b: Request) {
    a.verb == b.verb && a.version == b.version && a.path == b.path && a.query == b.query && a.headers == b.headers
  }

  /** Equal but for a length and a body that do not belong to the request. */
  predicate SameRequest(a: Request, b: Request) {
    && SameHead(a, b)
    && (HasBody(a.verb) ==> a.contentLength == b.contentLength)
    && (HasBody(a.verb) && a.contentLength > 0 ==> a.content == b.content)
  }

  ghost predicate Agree(a: Context, b: Context) {
    && a.state == b.state && a.state != GotAll && SameHead(a.request, b.request)
    && (a.state == ExpectBody ==>
         a.request.contentLength == b.request.contentLength && HasBody(a.request.verb))
  }

  ghost predicate AgreeOutcomes(a: Outcome, b: Outcome) {
    && a.status == b.status && a.rest == b.rest && (Finished(a) <==> Finished(b))
    && (Finished(a) ==> SameRequest(a.context.request, b.context.request))
    && (Unfinished(a) ==> Agree(a.context, b.context))
  }

  lemma RestAgrees(a: Request, b: Request, tail: string)
    requires SameHead(a, b)
    ensures RestOfRequestLine(a, tail).1 == RestOfRequestLine(b, tail).1
    ensures SameHead(RestOfRequestLine(a, tail).0, RestOfRequestLine(b, tail).0)
  {
  }

  lemma RequestLineAgrees(a: Request, b: Request, line: string)
    requires SameHead(a, b)
    ensures RequestLine(a, line).1 == RequestLine(b, line).1
    ensures SameHead(RequestLine(a, line).0, RequestLine(b, line).0)
  {
    var sp := IndexOf(line, ' ');
    if sp < |line| {
      var verb := MethodOf(line[..sp]);
      RestAgrees(a.(verb := verb), b.(verb := verb), line[sp + 1..]);
    }
  }

  lemma EndAgrees(a: Request, b: Request)
    requires SameHead(a, b)
    ensures match (EndHeaders(a), EndHeaders(b))
      case (Complete(p), Complete(q)) => SameHead(p, q) && SameRequest(p, q)
      case (NeedsBody(p), NeedsBody(q)) => SameHead(p, q) && p.contentLength == q.contentLength && HasBody(p.verb)
      case (NoLength, NoLength) => true
      case (BadLength, BadLength) => true
      case _ => false
  {
  }

  lemma StepAgrees(a: Context, b: Context, s: string)
    requires Agree(a, b)
    ensures match (Step(a, s), Step(b, s))
      case (Wait, Wait) => true
      case (Go(p, r), Go(q, r')) => Agree(p, q) && r == r'
      case (Stop(p), Stop(q)) => AgreeOutcomes(p, q)
      case _ => false
  {
    if a.state == ExpectRequestLine && FindCrlf(s).Some? {
      RequestLineAgrees(a.request, b.request, s[..FindCrlf(s).value]);
    } else if a.state == ExpectHeaders {
      EndAgrees(a.request, b.request);
    }
  }

  /** What an earlier request left behind changes nothing but the fields that do not belong to this one. */
  lemma {:induction false} ParseAgrees(a: Context, b: Context, s: string)
    requires Agree(a, b)
    ensures AgreeOutcomes(Parse(a, s), Parse(b, s))
    decreases |s|
  {
    StepAgrees(a, b, s);
    match Step(a, s)
    case Go(c', rest) => ParseAgrees(c', Step(b, s).context, rest);
    case _ =>
  }

  // ----- delivery -----

  ghost predicate SameRequests(a: seq<Request>, b: seq<Request>) {
    |a| == |b| && forall i :: 0 <= i < |a| ==> SameRequest(a[i], b[i])
  }

  lemma RemainingOnNewContext(s: string)
    ensures Remaining(NewContext(), s) == Requests(s)
  {
  }

  lemma RemainingAfterReset(r: Request, s: string)
    ensures SameRequests(Requests(s), Remaining(Reset(r), s))
  {
    ParseAgrees(NewContext(), Reset(r), s);
  }

  lemma RemainingWhenFinished(c: Context, s: string, more: string)
    requires c.state != GotAll && Finished(Parse(c, s))
    ensures Remaining(c, s + more) == [Parse(c, s).context.request] + Requests(Parse(c, s).rest + more)
  {
    MoreBytes(c, s, more);
  }

  lemma RemainingWhenUnfinished(c: Context, s: string, more: string)
    requires c.state != GotAll && Unfinished(Parse(c, s))
    ensures Remaining(c, s + more) == Remaining(Parse(c, s).context, Parse(c, s).rest + more)
  {
    MoreBytes(c, s, more);
  }

  lemma SameAfter(front: seq<Request>, a: seq<Request>, b: seq<Request>)
    requires SameRequests(a, b)
    ensures SameRequests(front + a, front + b)
  {
  }

  lemma SameTransitive(a: seq<Request>, b: seq<Request>, c: seq<Request>)
    requires SameRequests(a, b) && SameRequests(b, c)
    ensures SameRequests(a, c)
  {
  }

  /** What is handed over and what is still to come, with `more` bytes to follow. */
  function Total(conn: Connection, more: string): seq<Request>
    requires conn.context.state != GotAll
  {
    conn.handed + Remaining(conn.context, conn.buf + more)
  }

  /** Conservation: the requests of the stream are those handed over and those that parsing the unread bytes in the
      current context would still give - also when more bytes are to come. */
  lemma {:induction false} Conservation(chunks: seq<string>, more: string)
    requires !Received(chunks).failed
    ensures SameRequests(Requests(Flatten(chunks) + more), Total(Received(chunks), more))
    decreases |chunks|
  {
    if chunks == [] {
      assert Flatten(chunks) + more == more && "" + more == more;
      RemainingOnNewContext(more);
    } else {
      var n := |chunks| - 1;
      var before, chunk := Received(chunks[..n]), chunks[n];
      Conservation(chunks[..n], chunk + more);
      assert Flatten(chunks) + more == Flatten(chunks[..n]) + (chunk + more);
      DeliveryStep(before, chunk, more);
      SameTransitive(Requests(Flatten(chunks) + more), Total(before, chunk + more), Total(Received(chunks), more));
    }
  }

  lemma HandOver(h: seq<Request>, request: Request, a: seq<Request>, b: seq<Request>, total: seq<Request>)
    requires total == h + ([request] + a) && SameRequests(a, b)
    ensures SameRequests(total, h + [request] + b)
  {
    SameAfter(h + [request], a, b);
    assert total == h + [request] + a;
  }

  lemma SameReflexive(a: seq<Request>, b: seq<Request>)
    requires a == b
    ensures SameRequests(a, b)
  {
  }

  lemma FinishedMessage(before: Connection, chunk: string, more: string, total: seq<Request>)
    requires before.context.state != GotAll && !before.failed && Finished(Parse(before.context, before.buf + chunk))
    requires total == before.handed + Remaining(before.context, before.buf + chunk + more)
    ensures SameRequests(total, Total(OnMessage(before, chunk), more))
  {
    var o := Parse(before.context, before.buf + chunk);
    RemainingWhenFinished(before.context, before.buf + chunk, more);
    var request, rest := o.context.request, o.rest + more;
    RemainingAfterReset(request, rest);
    HandOver(before.handed, request, Requests(rest), Remaining(Reset(request), rest), total);
  }

  lemma UnfinishedMessage(before: Connection, chunk: string, more: string, total: seq<Request>)
    requires before.context.state != GotAll && !before.failed && Unfinished(Parse(before.context, before.buf + chunk))
    requires total == before.handed + Remaining(before.context, before.buf + chunk + more)
    ensures SameRequests(total, Total(OnMessage(before, chunk), more))
  {
    RemainingWhenUnfinished(before.context, before.buf + chunk, more);
    SameReflexive(total, Total(OnMessage(before, chunk), more));
  }

  lemma NoFailure(before: Connection, chunk: string)
    requires before.context.state != GotAll && !OnMessage(before, chunk).failed
    ensures !before.failed && Parse(before.context, before.buf + chunk).status == Ok
  {
  }

  lemma TotalOf(conn: Connection, chunk: string, more: string) returns (total: seq<Request>)
    requires conn.context.state != GotAll
    ensures total == Total(conn, chunk + more)
    ensures total == conn.handed + Remaining(conn.context, conn.buf + chunk + more)
  {
    assert conn.buf + (chunk + more) == conn.buf + chunk + more;
    total := Total(conn, chunk + more);
  }

  lemma DeliveryStep(before: Connection, chunk: string, more: string)
    requires before.context.state != GotAll && !OnMessage(before, chunk).failed
    ensures SameRequests(Total(before, chunk + more), Total(OnMessage(before, chunk), more))
  {
    NoFailure(before, chunk);
    var total := TotalOf(before, chunk, more);
    if Finished(Parse(before.context, before.buf + chunk)) {
      FinishedMessage(before, chunk, more, total);
    } else {
      UnfinishedMessage(before, chunk, more, total);
    }
  }

  /** While no parse fails, the requests handed over are, in order, a prefix of the requests of the whole stream. */
  lemma HandedIsAPrefix(chunks: seq<string>)
    requires !Received(chunks).failed
    ensures var handed, all := Received(chunks).handed, Requests(Flatten(chunks));
      |handed| <= |all| && SameRequests(all[..|handed|], handed)
  {
    Conservation(chunks, "");
    assert Flatten(chunks) + "" == Flatten(chunks);
  }

  // ----- requests that wait -----

  /** The requests that the unread bytes hold already. */
  function Waiting(conn: Connection): seq<Request>
    requires conn.context.state != GotAll
  {
    Remaining(conn.context, conn.buf)
  }

  lemma NothingLeftUnfinished(c: Context, s: string)
    requires c.state != GotAll && Unfinished(Parse(c, s))
    ensures Remaining(Parse(c, s).context, Parse(c, s).rest) == []
  {
    UsesAllItCan(c, s);
  }

  /** A message hands over the first of the requests that are complete then; the others wait for the next message. */
  lemma OneRequestAMessage(conn: Connection, chunk: string)
    requires conn.context.state != GotAll
    ensures var complete, after := Remaining(conn.context, conn.buf + chunk), OnMessage(conn, chunk);
      if complete == [] then after.handed == conn.handed && (!after.failed ==> Waiting(after) == [])
      else after.handed == conn.handed + [complete[0]] && SameRequests(complete[1..], Waiting(after))
  {
    var s := conn.buf + chunk;
    var o := Parse(conn.context, s);
    FailureIsNotComplete(conn.context, s);
    if Finished(o) {
      RemainingAfterReset(o.context.request, o.rest);
    } else if Unfinished(o) {
      NothingLeftUnfinished(conn.context, s);
    }
  }

  lemma {:induction false} AtMostOnePerMessage(chunks: seq<string>)
    ensures |Received(chunks).handed| <= |chunks|
  {
    if chunks != [] {
      var before, chunk := Received(chunks[..|chunks| - 1]), chunks[|chunks| - 1];
      AtMostOnePerMessage(chunks[..|chunks| - 1]);
      OneRequestAMessage(before, chunk);
    }
  }

  /** So when more requests than messages have arrived, the difference, at least, is waiting. */
  lemma LaterRequestsWait(chunks: seq<string>)
    requires !Received(chunks).failed
    ensures |Received(chunks).handed| <= |chunks|
    ensures |Received(chunks).handed| + |Waiting(Received(chunks))| == |Requests(Flatten(chunks))|
  {
    AtMostOnePerMessage(chunks);
    Conservation(chunks, "");
    assert Flatten(chunks) + "" == Flatten(chunks);
    assert Received(chunks).buf + "" == Received(chunks).buf;
  }

  // ----- stale bodies -----

  lemma {:induction false} ContentIsKept(c: Context, s: string)
    requires c.state != GotAll && Finished(Parse(c, s))
    requires c.state == ExpectBody ==> HasBody(c.request.verb) && c.request.contentLength > 0
    ensures var r := Parse(c, s).context.request;
      && ((HasBody(r.verb) && r.contentLength > 0) || r.content == c.request.content)
      && (HasBody(r.verb) || r.contentLength == c.request.contentLength)
    decreases |s|
  {
    match Step(c, s)
    case Go(c', rest) => ContentIsKept(c', rest);
    case _ =>
  }

  /** The body handed over is the request's own exactly when the request has one or nothing stale was left. */
  lemma StaleBody(r: Request, s: string)
    requires Finished(Parse(Reset(r), s))
    ensures Finished(Parse(NewContext(), s))
    ensures var handed, own := Parse(Reset(r), s).context.request, Parse(NewContext(), s).context.request;
      handed.content == own.content <==> (HasBody(own.verb) && own.contentLength > 0) || r.content == ""
  {
    ParseAgrees(NewContext(), Reset(r), s);
    ContentIsKept(NewContext(), s);
    ContentIsKept(Reset(r), s);
  }

  lemma ReadFirst(p: Message)
    requires Printable(p)
    ensures Parse(NewContext(), Print(p)) == Outcome(Ok, Context(GotAll, RequestOf(p)), "")
  {
    RoundTrip(p, "");
    assert Print(p) + "" == Print(p);
  }

  lemma FirstMessage(p: Message) returns (conn: Connection)
    requires Printable(p)
    ensures conn == Received([Print(p)]) && conn == Connection(Reset(RequestOf(p)), "", [RequestOf(p)], false)
  {
    ReadFirst(p);
    assert "" + Print(p) == Print(p);
    conn := OnMessage(Opened(), Print(p));
    var chunks := [Print(p)];
    assert chunks[..0] == [];
    assert Received(chunks[..0]) == Opened();
  }

  lemma ReadWithStaleBody(r: Request, g: Message) returns (o: Outcome)
    requires Printable(g) && !HasBody(g.verb)
    ensures o == Parse(Reset(r), Print(g)) && Finished(o) && o.rest == ""
    ensures SameRequest(RequestOf(g), o.context.request)
    ensures o.context.request.content == r.content && o.context.request.contentLength == r.contentLength
  {
    o := Parse(Reset(r), Print(g));
    ReadFirst(g);
    ParseAgrees(NewContext(), Reset(r), Print(g));
    ContentIsKept(Reset(r), Print(g));
  }

  /** After any POST or PUT, a request of another method that follows on the connection is handed over with the body of
      the first one, and with its length. */
  lemma LaterRequestGetsTheBody(p: Message, g: Message) returns (handed: seq<Request>)
    requires Printable(p) && Printable(g) && !HasBody(g.verb)
    ensures handed == Received([Print(p), Print(g)]).handed && |handed| == 2
    ensures handed[0] == RequestOf(p) && SameRequest(RequestOf(g), handed[1])
    ensures handed[1].content == p.body && handed[1].contentLength == |p.body|
  {
    var chunks := [Print(p), Print(g)];
    var conn := FirstMessage(p);
    assert chunks[..1] == [Print(p)];
    assert Received(chunks) == OnMessage(conn, Print(g));
    assert "" + Print(g) == Print(g);
    var o := ReadWithStaleBody(RequestOf(p), g);
    handed := conn.handed + [o.context.request];
  }

  /** For example a GET behind a POST of the body "x". */
  lemma GetWithABody() returns (handed: seq<Request>, chunks: seq<string>)
    ensures handed == Received(chunks).handed && |handed| == 2 && handed[1].verb == Get && handed[1].content == "x"
  {
    var p := Message(Post, "/", "HTTP/1.1", [("Content-Length", "1")], "x");
    var g := Message(Get, "/", "HTTP/1.1", [], "");
    assert Decimal(1) == "1";
    assert HeaderMap(map[], p.headers) == map["Content-Length" := "1"];
    assert HeaderMap(map[], g.headers) == map[];
    handed := LaterRequestGetsTheBody(p, g);
    chunks := [Print(p), Print(g)];
  }
}
