/** A printer for the request line and the field lines of RFC 9112 (sections 3 and 5), and the proof that the parser
    undoes it. */
module HttpRoundTrip {
  import opened CIntegers
  import opened Options
  import opened HttpParsing

  const CRLF: string := "\r\n"

  datatype Message = Message(
    verb: Method, target: string, version: string, headers: seq<(string, string)>, body: string)

  // ----- printing -----

  function VerbName(v: Method): string {
    match v
    case Get => "GET"
    case Post => "POST"
    case Head => "HEAD"
    case Put => "PUT"
    case Delete => "DELETE"
    case Options => "OPTIONS"
    case Invalid => ""
  }

  predicate Supported(v: Method) { v != Invalid && v != Options }

  function PrintRequestLine(m: Message): string { VerbName(m.verb) + " " + m.target + " " + m.version }

  function PrintHeader(h: (string, string)): string { h.0 + ": " + h.1 }

  function PrintHeaders(hs: seq<(string, string)>): string {
    if hs == [] then "" else PrintHeader(hs[0]) + CRLF + PrintHeaders(hs[1..])
  }

  function Print(m: Message): string {
    PrintRequestLine(m) + CRLF + (PrintHeaders(m.headers) + CRLF + m.body)
  }

  function Digit(d: nat): char
    requires d < 10
  {
    '0' + d as char
  }

  function Decimal(n: nat): string {
    if n < 10 then [Digit(n)] else Decimal(n / 10) + [Digit(n % 10)]
  }

  /** The header map a list of fields stands for; a repeated name keeps its last value, as in the parser. */
  function HeaderMap(headers: map<string, string>, hs: seq<(string, string)>): map<string, string>
    decreases |hs|
  {
    if hs == [] then headers else HeaderMap(headers[hs[0].0 := hs[0].1], hs[1..])
  }

  // ----- what can be printed -----

  predicate Trimmed(s: string) { s == "" || (!IsSpace(s[0]) && !IsSpace(s[|s| - 1])) }

  predicate PrintableHeader(h: (string, string)) {
    ':' !in h.0 && '\r' !in h.0 && '\r' !in h.1 && Trimmed(h.1)
  }

  predicate PrintableLine(m: Message) {
    && Supported(m.verb)
    && ' ' !in m.target && '\r' !in m.target
    && (m.version == "HTTP/1.0" || m.version == "HTTP/1.1")
  }

  predicate PrintableBody(m: Message) {
    var fields := HeaderMap(map[], m.headers);
    if HasBody(m.verb) then
      |m.body| <= INT_MAX && "Content-Length" in fields && fields["Content-Length"] == Decimal(|m.body|)
    else m.body == ""
  }

  predicate Printable(m: Message) {
    && PrintableLine(m)
    && (forall i :: 0 <= i < |m.headers| ==> PrintableHeader(m.headers[i]))
    && PrintableBody(m)
  }

  /** The request a message stands for. */
  function RequestOf(m: Message): Request {
    var r := SetTarget(NewRequest(), m.target);
    Request(m.verb, m.version, r.path, r.query, HeaderMap(map[], m.headers), |m.body|, m.body)
  }

  // ----- scanning what was printed -----

  lemma {:induction false} IndexIs(s: string, c: char, i: nat)
    requires i <= |s| && c !in s[..i] && (i < |s| ==> s[i] == c)
    ensures IndexOf(s, c) == i
  {
    if i > 0 {
      assert s[0] == s[..i][0];
      assert forall k :: 0 <= k < i - 1 ==> s[1..][k] == s[..i][k + 1];
      IndexIs(s[1..], c, i - 1);
    }
  }

  lemma IndexOfSeparator(a: string, c: char, b: string)
    requires c !in a
    ensures IndexOf(a + [c] + b, c) == |a|
    ensures (a + [c] + b)[..|a|] == a && (a + [c] + b)[|a| + 1..] == b
  {
    assert (a + [c] + b)[..|a|] == a;
    IndexIs(a + [c] + b, c, |a|);
  }

  lemma IndexOfAbsent(s: string, c: char)
    requires c !in s
    ensures IndexOf(s, c) == |s|
  {
  }

  lemma LineEnd(line: string, rest: string)
    requires '\r' !in line
    ensures FindCrlf(line + CRLF + rest) == Some(|line|)
    ensures (line + CRLF + rest)[..|line|] == line && (line + CRLF + rest)[|line| + 2..] == rest
  {
    var s := line + CRLF + rest;
    assert CrlfAt(s, |line|);
    forall j: nat | j < |line| ensures !CrlfAt(s, j) {
      assert s[j] == line[j];
    }
  }

  // ----- the request line -----

  lemma VerbIsRead(v: Method)
    requires Supported(v)
    ensures MethodOf(VerbName(v)) == v && ' ' !in VerbName(v) && '\r' !in VerbName(v)
  {
  }

  lemma FirstWord(r: Request, name: string, tail: string)
    requires ' ' !in name && MethodOf(name) != Invalid
    ensures RequestLine(r, name + [' '] + tail) == RestOfRequestLine(r.(verb := MethodOf(name)), tail)
  {
    IndexOfSeparator(name, ' ', tail);
  }

  lemma OtherWords(r: Request, target: string, version: string)
    requires ' ' !in target && (version == "HTTP/1.1" || version == "HTTP/1.0")
    ensures RestOfRequestLine(r, target + [' '] + version) == (SetTarget(r, target).(version := version), true)
  {
    IndexOfSeparator(target, ' ', version);
  }

  lemma RequestLineIsRead(r: Request, m: Message)
    requires PrintableLine(m)
    ensures RequestLine(r, PrintRequestLine(m))
      == (SetTarget(r.(verb := m.verb), m.target).(version := m.version), true)
  {
    var name, tail := VerbName(m.verb), m.target + [' '] + m.version;
    VerbIsRead(m.verb);
    assert PrintRequestLine(m) == name + [' '] + tail;
    FirstWord(r, name, tail);
    OtherWords(r.(verb := m.verb), m.target, m.version);
  }

  lemma RequestLineHasNoCr(m: Message)
    requires Printable(m)
    ensures '\r' !in PrintRequestLine(m)
  {
    VerbIsRead(m.verb);
  }

  // ----- header fields -----

  lemma TrimmedAfterOneSpace(s: string)
    requires Trimmed(s)
    ensures Trim(" " + s) == s
  {
    var t := " " + s;
    assert t[1..] == s && TrimLeft(t) == TrimLeft(s);
    assert TrimLeft(s) == s && TrimRight(s) == s;
  }

  lemma HeaderIsRead(r: Request, h: (string, string))
    requires PrintableHeader(h)
    ensures IndexOf(PrintHeader(h), ':') == |h.0| < |PrintHeader(h)|
    ensures AddHeader(r, PrintHeader(h), |h.0|) == r.(headers := r.headers[h.0 := h.1])
  {
    var line := PrintHeader(h);
    assert line == h.0 + [':'] + (" " + h.1);
    IndexOfSeparator(h.0, ':', " " + h.1);
    assert line[..|h.0|] == h.0 && line[|h.0| + 1..] == " " + h.1;
    TrimmedAfterOneSpace(h.1);
  }

  lemma HeaderTurn(r: Request, line: string, more: string)
    requires '\r' !in line && IndexOf(line, ':') < |line|
    ensures Step(Context(ExpectHeaders, r), line + CRLF + more)
      == Go(Context(ExpectHeaders, AddHeader(r, line, IndexOf(line, ':'))), more)
  {
    LineEnd(line, more);
  }

  lemma GoOn(c: Context, buf: string)
    requires c.state != GotAll && Step(c, buf).Go?
    ensures Parse(c, buf) == Parse(Step(c, buf).context, Step(c, buf).rest)
  {
  }

  function WithHeader(r: Request, h: (string, string)): Request { r.(headers := r.headers[h.0 := h.1]) }

  lemma HeaderLineIsRead(r: Request, h: (string, string), more: string)
    requires PrintableHeader(h)
    ensures Parse(Context(ExpectHeaders, r), PrintHeader(h) + CRLF + more)
      == Parse(Context(ExpectHeaders, WithHeader(r, h)), more)
  {
    HeaderIsRead(r, h);
    HeaderTurn(r, PrintHeader(h), more);
    GoOn(Context(ExpectHeaders, r), PrintHeader(h) + CRLF + more);
  }

  lemma FirstHeader(r: Request, hs: seq<(string, string)>, rest: string)
    requires hs != []
    ensures PrintHeaders(hs) + rest == PrintHeader(hs[0]) + CRLF + (PrintHeaders(hs[1..]) + rest)
    ensures r.(headers := HeaderMap(r.headers, hs))
      == WithHeader(r, hs[0]).(headers := HeaderMap(WithHeader(r, hs[0]).headers, hs[1..]))
  {
  }

  lemma NoHeader(r: Request, rest: string)
    ensures PrintHeaders([]) + rest == rest && r.(headers := HeaderMap(r.headers, [])) == r
  {
  }

  /** Reading field lines and then `rest` comes to reading `rest` with the fields stored. */
  lemma {:induction false} HeadersAreRead(r: Request, hs: seq<(string, string)>, rest: string, before: string,
                                          after: Request)
    requires forall i :: 0 <= i < |hs| ==> PrintableHeader(hs[i])
    requires before == PrintHeaders(hs) + rest && after == r.(headers := HeaderMap(r.headers, hs))
    ensures Parse(Context(ExpectHeaders, r), before) == Parse(Context(ExpectHeaders, after), rest)
    decreases |hs|
  {
    if hs == [] {
      NoHeader(r, rest);
    } else {
      var more := PrintHeaders(hs[1..]) + rest;
      FirstHeader(r, hs, rest);
      HeaderLineIsRead(r, hs[0], more);
      HeadersAreRead(WithHeader(r, hs[0]), hs[1..], rest, more, after);
    }
  }

  // ----- Content-Length -----

  predicate AllDigits(s: string) { forall i :: 0 <= i < |s| ==> IsDigit(s[i]) }

  lemma {:induction false} AppendDigit(s: string, c: char, acc: nat)
    requires AllDigits(s) && IsDigit(c)
    ensures LeadingNumber(s + [c], acc) == 10 * LeadingNumber(s, acc) + DigitValue(c)
  {
    if s == "" {
      assert s + [c] == [c];
      assert [c][1..] == "";
    } else {
      assert (s + [c])[1..] == s[1..] + [c];
      AppendDigit(s[1..], c, 10 * acc + DigitValue(s[0]));
    }
  }

  lemma {:induction false} DecimalIsRead(n: nat)
    ensures Decimal(n) != "" && AllDigits(Decimal(n)) && LeadingNumber(Decimal(n), 0) == n
  {
    if n < 10 {
      assert [Digit(n)][1..] == "";
    } else {
      DecimalIsRead(n / 10);
      AppendDigit(Decimal(n / 10), Digit(n % 10), 0);
    }
  }

  lemma DigitsAreNumbers(s: string)
    requires s != "" && AllDigits(s) && LeadingNumber(s, 0) <= INT_MAX
    ensures Stoi(s) == Parsed(LeadingNumber(s, 0))
  {
    assert IsDigit(s[0]);
    assert TrimLeft(s) == s;
  }

  lemma LengthIsRead(n: nat)
    requires n <= INT_MAX
    ensures Decimal(n) != "" && Stoi(Decimal(n)) == Parsed(n)
  {
    DecimalIsRead(n);
    DigitsAreNumbers(Decimal(n));
  }

  lemma EmptyLineTurn(r: Request, tail: string)
    ensures Step(Context(ExpectHeaders, r), CRLF + tail) == BlankLine(r, EndHeaders(r), CRLF + tail, tail)
  {
    assert "" + CRLF + tail == CRLF + tail;
    LineEnd("", tail);
  }

  lemma LengthIsSet(r: Request, n: nat)
    requires HasBody(r.verb) && n <= INT_MAX && GetHeader(r, "Content-Length") == Decimal(n)
    ensures EndHeaders(r) == if n > 0 then NeedsBody(r.(contentLength := n)) else Complete(r.(contentLength := n))
  {
    LengthIsRead(n);
    assert n % TWO_TO_64 == n;
  }

  lemma BodyIsRead(r: Request, body: string, rest: string)
    requires r.contentLength == |body|
    ensures Parse(Context(ExpectBody, r), body + rest) == Outcome(Ok, Context(GotAll, r.(content := body)), rest)
  {
    assert (body + rest)[..|body|] == body && (body + rest)[|body|..] == rest;
  }

  lemma EndIsRead(r: Request, m: Message, rest: string)
    requires PrintableBody(m) && r.verb == m.verb && r.headers == HeaderMap(map[], m.headers)
    requires r.contentLength == 0 && r.content == ""
    ensures Parse(Context(ExpectHeaders, r), CRLF + (m.body + rest))
      == Outcome(Ok, Context(GotAll, r.(contentLength := |m.body|, content := m.body)), rest)
  {
    EmptyLineTurn(r, m.body + rest);
    if HasBody(m.verb) {
      LengthIsSet(r, |m.body|);
      if m.body != "" {
        GoOn(Context(ExpectHeaders, r), CRLF + (m.body + rest));
        BodyIsRead(r.(contentLength := |m.body|), m.body, rest);
      }
    }
    assert m.body == "" ==> m.body + rest == rest;
  }

  /** Parsing what was printed, followed by anything, returns the request and leaves exactly what followed. */
  lemma RoundTrip(m: Message, rest: string)
    requires Printable(m)
    ensures Parse(NewContext(), Print(m) + rest) == Outcome(Ok, Context(GotAll, RequestOf(m)), rest)
  {
    var line, tail := PrintRequestLine(m), PrintHeaders(m.headers) + (CRLF + (m.body + rest));
    assert Print(m) + rest == line + CRLF + tail;
    RequestLineHasNoCr(m);
    LineEnd(line, tail);
    RequestLineIsRead(NewRequest(), m);
    var r := SetTarget(NewRequest().(verb := m.verb), m.target).(version := m.version);
    assert Step(NewContext(), line + CRLF + tail) == Go(Context(ExpectHeaders, r), tail);
    var r' := r.(headers := HeaderMap(r.headers, m.headers));
    HeadersAreRead(r, m.headers, CRLF + (m.body + rest), tail, r');
    EndIsRead(r', m, rest);
  }

  // ----- targets -----

  function PrintQuery(query: seq<(string, string)>): string
    requires query != []
  {
    var pair := query[0].0 + "=" + query[0].1;
    if |query| == 1 then pair else pair + "&" + PrintQuery(query[1..])
  }

  function PrintTarget(path: string, query: seq<(string, string)>): string {
    if query == [] then path else path + "?" + PrintQuery(query)
  }

  predicate PrintablePair(p: (string, string)) { '=' !in p.0 && '&' !in p.0 && '&' !in p.1 }

  lemma {:induction false} QueryIsRead(q: map<string, string>, query: seq<(string, string)>)
    requires query != [] && forall i :: 0 <= i < |query| ==> PrintablePair(query[i])
    ensures AddPairs(q, PrintQuery(query)) == HeaderMap(q, query) && PrintQuery(query) != ""
    decreases |query|
  {
    var (key, value) := query[0];
    var pair := key + "=" + value;
    assert pair == key + ['='] + value;
    IndexOfSeparator(key, '=', value);
    assert pair[..|key|] == key && pair[|key| + 1..] == value;
    assert AddPair(q, pair) == q[key := value];
    if |query| == 1 {
      IndexOfAbsent(pair, '&');
      assert query[1..] == [];
    } else {
      var rest := PrintQuery(query[1..]);
      var args := PrintQuery(query);
      assert args == pair + ['&'] + rest;
      IndexOfSeparator(pair, '&', rest);
      assert args[..|pair|] == pair && args[|pair| + 1..] == rest;
      QueryIsRead(q[key := value], query[1..]);
    }
  }

  /** A target printed from a path and parameters is read back as that path, and the parameters join those that are
      there. */
  lemma TargetRoundTrip(r: Request, path: string, query: seq<(string, string)>)
    requires '?' !in path && forall i :: 0 <= i < |query| ==> PrintablePair(query[i])
    ensures SetTarget(r, PrintTarget(path, query)) == r.(path := path, query := HeaderMap(r.query, query))
  {
    var target := PrintTarget(path, query);
    if query == [] {
      IndexOfAbsent(path, '?');
    } else {
      var args := PrintQuery(query);
      assert target == path + ['?'] + args;
      IndexOfSeparator(path, '?', args);
      assert target[..|path|] == path && target[|path| + 1..] == args;
      QueryIsRead(r.query, query);
    }
  }

  /** A message given by its parts - method, path, parameters, version, distinct header fields, body - is read back as
      these parts. */
  lemma PartsRoundTrip(m: Message, path: string, query: seq<(string, string)>, rest: string)
    requires Printable(m) && m.target == PrintTarget(path, query)
    requires '?' !in path && forall i :: 0 <= i < |query| ==> PrintablePair(query[i])
    ensures Parse(NewContext(), Print(m) + rest) == Outcome(Ok, Context(GotAll, Request(
              m.verb, m.version, path, HeaderMap(map[], query), HeaderMap(map[], m.headers), |m.body|, m.body)), rest)
  {
    RoundTrip(m, rest);
    TargetRoundTrip(NewRequest(), path, query);
  }

  predicate DistinctNames(fields: seq<(string, string)>) {
    forall i, j :: 0 <= i < j < |fields| ==> fields[i].0 != fields[j].0
  }

  /** The map of fields with distinct names: each name with its value, and no other. */
  lemma {:induction false} DistinctFieldsAreKept(before: map<string, string>, fields: seq<(string, string)>,
                                                 name: string)
    requires DistinctNames(fields)
    ensures forall i :: 0 <= i < |fields| ==>
      fields[i].0 in HeaderMap(before, fields) && HeaderMap(before, fields)[fields[i].0] == fields[i].1
    ensures (forall i :: 0 <= i < |fields| ==> fields[i].0 != name) ==>
      (name in HeaderMap(before, fields) <==> name in before) &&
      (name in before ==> HeaderMap(before, fields)[name] == before[name])
    decreases |fields|
  {
    if fields != [] {
      var first, others := fields[0], fields[1..];
      DistinctFieldsAreKept(before[first.0 := first.1], others, name);
      DistinctFieldsAreKept(before[first.0 := first.1], others, first.0);
      assert forall i :: 0 < i < |fields| ==> fields[i] == others[i - 1];
    }
  }
}
