/** The incremental HTTP/1.x request parser as a function of the parser state and the unread bytes.
    A `char` stands for one byte. */
module HttpParsing {
  import opened CIntegers
  import opened Options

  datatype Method = Invalid | Get | Post | Delete | Put | Head | Options

  datatype Request = Request(
    verb: Method, version: string, path: string, query: map<string, string>, headers: map<string, string>,
    contentLength: nat, content: string)

  predicate HasBody(v: Method) { v == Post || v == Put }

  function NewRequest(): Request { Request(Invalid, "Unknow", "", map[], map[], 0, "") }

  datatype ParseState = ExpectRequestLine | ExpectHeaders | ExpectBody | GotAll

  datatype Context = Context(state: ParseState, request: Request)

  function NewContext(): Context { Context(ExpectRequestLine, NewRequest()) }

  /** `Threw` is an exception leaving the parser. */
  datatype Status = Ok | Bad | Threw

  datatype Outcome = Outcome(status: Status, context: Context, rest: string)

  // ----- scanning -----

  /** `std::find`: the position of the first `c`, or the length. */
  function IndexOf(s: string, c: char): (i: nat)
    ensures i <= |s| && c !in s[..i]
    ensures i < |s| ==> s[i] == c
  {
    if s == "" || s[0] == c then 0
    else
      var i := IndexOf(s[1..], c);
      assert s[..i + 1] == [s[0]] + s[1..][..i];
      i + 1
  }

  predicate CrlfAt(s: string, i: nat) { i + 1 < |s| && s[i] == '\r' && s[i + 1] == '\n' }

  function FindCrlf(s: string): (r: Option<nat>)
    ensures r.Some? ==> CrlfAt(s, r.value) && forall j: nat :: j < r.value ==> !CrlfAt(s, j)
    ensures r.None? ==> forall j: nat :: !CrlfAt(s, j)
  {
    if |s| < 2 then None
    else if CrlfAt(s, 0) then Some(0)
    else
      var r := FindCrlf(s[1..]);
      assert forall j: nat :: j > 0 ==> (CrlfAt(s, j) <==> CrlfAt(s[1..], j - 1));
      if r.Some? then Some(r.value + 1) else None
  }

  /** Space, tab, line feed, vertical tab, form feed, carriage return. */
  predicate IsSpace(c: char) { c == ' ' || '\t' <= c <= '\r' }

  function TrimLeft(s: string): string {
    if s != "" && IsSpace(s[0]) then TrimLeft(s[1..]) else s
  }

  function TrimRight(s: string): string {
    if s != "" && IsSpace(s[|s| - 1]) then TrimRight(s[..|s| - 1]) else s
  }

  function Trim(s: string): string { TrimRight(TrimLeft(s)) }

  // ----- the request line -----

  function MethodOf(s: string): Method {
    if s == "GET" then Get
    else if s == "POST" then Post
    else if s == "HEAD" then Head
    else if s == "PUT" then Put
    else if s == "DELETE" then Delete
    else Invalid
  }

  function AddPair(query: map<string, string>, pair: string): map<string, string> {
    var eq := IndexOf(pair, '=');
    if eq == |pair| then query else query[pair[..eq] := pair[eq + 1..]]
  }

  function AddPairs(query: map<string, string>, args: string): map<string, string>
    decreases |args|
  {
    var amp := IndexOf(args, '&');
    if amp == |args| then AddPair(query, args) else AddPairs(AddPair(query, args[..amp]), args[amp + 1..])
  }

  function SetTarget(r: Request, target: string): Request {
    var mark := IndexOf(target, '?');
    var query := if mark + 1 < |target| then AddPairs(r.query, target[mark + 1..]) else r.query;
    r.(path := target[..mark], query := query)
  }

  /** The part behind the method and its space. */
  function RestOfRequestLine(r: Request, tail: string): (Request, bool) {
    var sp := IndexOf(tail, ' ');
    if sp == |tail| then (r, false)
    else
      var withTarget := SetTarget(r, tail[..sp]);
      var version := tail[sp + 1..];
      if version == "HTTP/1.1" || version == "HTTP/1.0" then (withTarget.(version := version), true)
      else (withTarget, false)
  }

  /** The request line; what was stored before a fault was found stays stored. */
  function RequestLine(r: Request, line: string): (Request, bool) {
    var sp := IndexOf(line, ' ');
    if sp == |line| then (r, false)
    else
      var withVerb := r.(verb := MethodOf(line[..sp]));
      if withVerb.verb == Invalid then (withVerb, false) else RestOfRequestLine(withVerb, line[sp + 1..])
  }

  // ----- header fields -----

  function AddHeader(r: Request, line: string, colon: nat): Request
    requires colon < |line|
  {
    r.(headers := r.headers[line[..colon] := Trim(line[colon + 1..])])
  }

  function GetHeader(r: Request, field: string): string {
    if field in r.headers then r.headers[field] else ""
  }

  // ----- std::stoi -----

  const TWO_TO_64: nat := 0x1_0000_0000_0000_0000

  datatype Number = Parsed(value: int) | InvalidArgument | OutOfRange

  predicate IsDigit(c: char) { '0' <= c <= '9' }

  function DigitValue(c: char): (d: nat)
    requires IsDigit(c)
    ensures d < 10
  {
    c as int - '0' as int
  }

  /** The value of the digits at the start of `s`, continuing the number `acc`. */
  function LeadingNumber(s: string, acc: nat): nat {
    if s != "" && IsDigit(s[0]) then LeadingNumber(s[1..], 10 * acc + DigitValue(s[0])) else acc
  }

  function Stoi(s: string): Number {
    var t := TrimLeft(s);
    var negative := t != "" && t[0] == '-';
    var digits := if t != "" && (t[0] == '-' || t[0] == '+') then t[1..] else t;
    if digits == "" || !IsDigit(digits[0]) then InvalidArgument
    else
      var n := LeadingNumber(digits, 0);
      var v: int := if negative then -(n as int) else n;
      if INT_MIN <= v <= INT_MAX then Parsed(v) else OutOfRange
  }

  // ----- the end of the headers -----

  datatype HeadersEnd = Complete(request: Request) | NeedsBody(request: Request) | NoLength | BadLength

  function EndHeaders(r: Request): HeadersEnd {
    if !HasBody(r.verb) then Complete(r)
    else if GetHeader(r, "Content-Length") == "" then NoLength
    else
      match Stoi(GetHeader(r, "Content-Length"))
      case Parsed(v) =>
        // a negative length wraps around in the unsigned field
        var withLength := r.(contentLength := if v >= 0 then v else TWO_TO_64 + v);
        if withLength.contentLength > 0 then NeedsBody(withLength) else Complete(withLength)
      case _ => BadLength
  }

  // ----- the loop -----

  datatype Turn = Wait | Go(context: Context, rest: string) | Stop(outcome: Outcome)

  /** One turn of the parser's loop. */
  function Step(c: Context, buf: string): (t: Turn)
    requires c.state != GotAll
    ensures t.Go? ==> |t.rest| < |buf| && t.context.state != GotAll
  {
    match c.state
    case ExpectRequestLine =>
      (match FindCrlf(buf)
       case None => Wait
       case Some(i) =>
         var r := RequestLine(c.request, buf[..i]);
         if r.1 then Go(Context(ExpectHeaders, r.0), buf[i + 2..])
         else Stop(Outcome(Bad, Context(ExpectRequestLine, r.0), buf)))
    case ExpectHeaders =>
      (match FindCrlf(buf)
       case None => Wait
       case Some(i) => HeaderStep(c, buf, i))
    case ExpectBody =>
      var n := c.request.contentLength;
      if |buf| < n then Wait
      else Stop(Outcome(Ok, Context(GotAll, c.request.(content := buf[..n])), buf[n..]))
  }

  /** Only the exception leaves the blank line in the buffer. */
  function BlankLine(r: Request, end: HeadersEnd, buf: string, rest: string): Turn {
    match end
    case Complete(r') => Stop(Outcome(Ok, Context(GotAll, r'), rest))
    case NeedsBody(r') => Go(Context(ExpectBody, r'), rest)
    case NoLength => Stop(Outcome(Bad, Context(ExpectHeaders, r), rest))
    case BadLength => Stop(Outcome(Threw, Context(ExpectHeaders, r), buf))
  }

  function HeaderStep(c: Context, buf: string, i: nat): (t: Turn)
    requires i + 2 <= |buf|
    ensures t.Go? ==> |t.rest| < |buf| && t.context.state != GotAll
  {
    var line, rest := buf[..i], buf[i + 2..];
    var colon := IndexOf(line, ':');
    if colon < |line| then Go(Context(ExpectHeaders, AddHeader(c.request, line, colon)), rest)
    else if line == "" then BlankLine(c.request, EndHeaders(c.request), buf, rest)
    else Stop(Outcome(Bad, Context(ExpectHeaders, c.request), rest))
  }

  /** One call of the parser. */
  function Parse(c: Context, buf: string): Outcome
    requires c.state != GotAll
    decreases |buf|
  {
    match Step(c, buf)
    case Wait => Outcome(Ok, c, buf)
    case Go(c', rest) => Parse(c', rest)
    case Stop(outcome) => outcome
  }

  lemma StepStops(c: Context, buf: string)
    requires c.state != GotAll && Step(c, buf).Stop?
    ensures Step(c, buf).outcome.status == Ok <==> Step(c, buf).outcome.context.state == GotAll
  {
  }

  /** A call that fails, one that an exception leaves included, does not end in `GotAll`. */
  lemma {:induction false} FailureIsNotComplete(c: Context, buf: string)
    requires c.state != GotAll
    ensures Parse(c, buf).status != Ok ==> Parse(c, buf).context.state != GotAll
    decreases |buf|
  {
    match Step(c, buf)
    case Wait =>
    case Go(c', rest) => FailureIsNotComplete(c', rest);
    case Stop(_) => StepStops(c, buf);
  }

  predicate Unfinished(o: Outcome) { o.status == Ok && o.context.state != GotAll }

  // ----- more bytes -----

  lemma CrlfFoundEarly(a: string, b: string)
    requires FindCrlf(a).Some?
    ensures FindCrlf(a + b) == FindCrlf(a)
  {
    var i := FindCrlf(a).value;
    assert CrlfAt(a + b, i);
    forall j: nat | j < i ensures !CrlfAt(a + b, j) {
      assert !CrlfAt(a, j);
    }
  }

  /** The turn with `b` behind the bytes it leaves. */
  function Extend(t: Turn, b: string): Turn {
    match t
    case Wait => Wait
    case Go(c, rest) => Go(c, rest + b)
    case Stop(o) => Stop(o.(rest := o.rest + b))
  }

  lemma LineSplits(a: string, b: string, i: nat)
    requires i + 2 <= |a|
    ensures (a + b)[..i] == a[..i] && (a + b)[i + 2..] == a[i + 2..] + b
  {
  }

  lemma HeaderStepExtends(c: Context, a: string, b: string, i: nat)
    requires i + 2 <= |a|
    ensures HeaderStep(c, a + b, i) == Extend(HeaderStep(c, a, i), b)
  {
    LineSplits(a, b, i);
  }

  lemma RequestLineStepExtends(c: Context, a: string, b: string)
    requires c.state == ExpectRequestLine && FindCrlf(a).Some?
    ensures Step(c, a + b) == Extend(Step(c, a), b)
  {
    CrlfFoundEarly(a, b);
    LineSplits(a, b, FindCrlf(a).value);
  }

  lemma BodyStepExtends(c: Context, a: string, b: string)
    requires c.state == ExpectBody && c.request.contentLength <= |a|
    ensures Step(c, a + b) == Extend(Step(c, a), b)
  {
    var n := c.request.contentLength;
    assert (a + b)[..n] == a[..n] && (a + b)[n..] == a[n..] + b;
  }

  /** A turn that did something does the same when more bytes follow. */
  lemma MoreBytesSameTurn(c: Context, a: string, b: string)
    requires c.state != GotAll && !Step(c, a).Wait?
    ensures Step(c, a + b) == Extend(Step(c, a), b)
  {
    match c.state
    case ExpectRequestLine => RequestLineStepExtends(c, a, b);
    case ExpectHeaders =>
      CrlfFoundEarly(a, b);
      HeaderStepExtends(c, a, b, FindCrlf(a).value);
    case ExpectBody => BodyStepExtends(c, a, b);
  }

  lemma {:induction false} MoreBytes(c: Context, a: string, b: string)
    requires c.state != GotAll
    ensures Parse(c, a + b) == if Unfinished(Parse(c, a)) then Parse(Parse(c, a).context, Parse(c, a).rest + b)
      else Parse(c, a).(rest := Parse(c, a).rest + b)
    decreases |a|
  {
    if !Step(c, a).Wait? {
      MoreBytesSameTurn(c, a, b);
      if Step(c, a).Go? {
        MoreBytes(Step(c, a).context, Step(c, a).rest, b);
      }
    }
  }

  // ----- any division into chunks -----

  function Flatten(chunks: seq<string>): string {
    if chunks == [] then "" else Flatten(chunks[..|chunks| - 1]) + chunks[|chunks| - 1]
  }

  /** A chunk arrives: it is appended to the unread bytes and, unless parsing is over, the parser is called. */
  function Feed(o: Outcome, chunk: string): Outcome {
    if Unfinished(o) then Parse(o.context, o.rest + chunk) else o.(rest := o.rest + chunk)
  }

  function FeedAll(c: Context, chunks: seq<string>): Outcome {
    if chunks == [] then Outcome(Ok, c, "") else Feed(FeedAll(c, chunks[..|chunks| - 1]), chunks[|chunks| - 1])
  }

  /** However the bytes are split, status, parser state, request and unread rest are those of parsing them at once. */
  lemma {:induction false} SplitIndependence(c: Context, chunks: seq<string>)
    requires c.state != GotAll && chunks != []
    ensures FeedAll(c, chunks) == Parse(c, Flatten(chunks))
  {
    var n := |chunks| - 1;
    if n == 0 {
      assert "" + chunks[0] == chunks[0];
    } else {
      SplitIndependence(c, chunks[..n]);
      MoreBytes(c, Flatten(chunks[..n]), chunks[n]);
    }
  }

  predicate IsSuffix(r: string, s: string) { |r| <= |s| && s[|s| - |r|..] == r }

  lemma SuffixOfSuffix(q: string, r: string, s: string)
    requires IsSuffix(q, r) && IsSuffix(r, s)
    ensures IsSuffix(q, s)
  {
    assert s[|s| - |q|..] == s[|s| - |r|..][|r| - |q|..];
  }

  lemma RestIsASuffix(s: string, n: nat)
    requires n <= |s|
    ensures IsSuffix(s[n..], s) && IsSuffix(s, s)
  {
    assert s[0..] == s;
  }

  lemma HeaderStepLeavesASuffix(c: Context, buf: string, i: nat)
    requires i + 2 <= |buf|
    ensures HeaderStep(c, buf, i).Go? ==> IsSuffix(HeaderStep(c, buf, i).rest, buf)
    ensures HeaderStep(c, buf, i).Stop? ==> IsSuffix(HeaderStep(c, buf, i).outcome.rest, buf)
  {
    RestIsASuffix(buf, i + 2);
  }

  lemma StepLeavesASuffix(c: Context, buf: string)
    requires c.state != GotAll
    ensures Step(c, buf).Go? ==> IsSuffix(Step(c, buf).rest, buf)
    ensures Step(c, buf).Stop? ==> IsSuffix(Step(c, buf).outcome.rest, buf)
  {
    if c.state == ExpectBody {
      if c.request.contentLength <= |buf| {
        RestIsASuffix(buf, c.request.contentLength);
      }
    } else if FindCrlf(buf).Some? {
      RestIsASuffix(buf, FindCrlf(buf).value + 2);
      if c.state == ExpectHeaders {
        HeaderStepLeavesASuffix(c, buf, FindCrlf(buf).value);
      }
    }
  }

  /** Every call leaves a suffix of its buffer. */
  lemma {:induction false} LeavesASuffix(c: Context, buf: string)
    requires c.state != GotAll
    ensures IsSuffix(Parse(c, buf).rest, buf)
    decreases |buf|
  {
    StepLeavesASuffix(c, buf);
    match Step(c, buf)
    case Go(c', rest) =>
      LeavesASuffix(c', rest);
      SuffixOfSuffix(Parse(c, buf).rest, rest, buf);
    case _ =>
  }

  /** An unfinished call leaves nothing that a further call without new bytes could use. */
  lemma UsesAllItCan(c: Context, buf: string)
    requires c.state != GotAll && Unfinished(Parse(c, buf))
    ensures Parse(Parse(c, buf).context, Parse(c, buf).rest) == Parse(c, buf)
  {
    MoreBytes(c, buf, "");
    assert buf + "" == buf && Parse(c, buf).rest + "" == Parse(c, buf).rest;
  }
}
