/** The parser's objects: the read buffer, the request that is filled in place, and the context that drives the loop. */
module HttpContexts {
  import opened Options
  import opened HttpParsing
  import HttpConnection

  class Buffer {
    var data: string

    constructor (data: string)
      ensures this.data == data
    {
      this.data := data;
    }

    method Retrieve(n: nat)
      requires n <= |data|
      modifies this
      ensures data == old(data)[n..]
    {
      data := data[n..];
    }
  }

  class HttpRequest {
    var verb: Method
    var version: string
    var path: string
    var query: map<string, string>
    var headers: map<string, string>
    var contentLength: nat
    var content: string

    function Value(): Request
      reads this
    {
      Request(verb, version, path, query, headers, contentLength, content)
    }

    constructor ()
      ensures Value() == NewRequest() && verb == Invalid && version == "Unknow" && path == "" && query == map[]
      ensures headers == map[] && contentLength == 0 && content == ""
    {
      verb, version, path, query, headers, contentLength, content := Invalid, "Unknow", "", map[], map[], 0, "";
    }

    method SetMethod(name: string) returns (ok: bool)
      modifies this`verb
      ensures verb == MethodOf(name) && (ok <==> verb != Invalid)
    {
      verb := MethodOf(name);
      return verb != Invalid;
    }

    method SetQueryPathParameters(args: string)
      modifies this`query
      ensures query == if args == "" then old(query) else AddPairs(old(query), args)
    {
      if args == "" {
        return;
      }
      var prev := 0;
      var amp := IndexOf(args, '&');
      while prev + amp < |args|
        invariant prev <= |args| && amp == IndexOf(args[prev..], '&')
        invariant AddPairs(query, args[prev..]) == AddPairs(old(query), args)
        decreases |args| - prev
      {
        var tail := args[prev..];
        assert tail[..amp] == args[prev..prev + amp] && tail[amp + 1..] == args[prev + amp + 1..];
        assert AddPairs(query, tail) == AddPairs(AddPair(query, tail[..amp]), tail[amp + 1..]);
        ghost var rest := args[prev + amp + 1..];
        StorePair(args[prev..prev + amp]);
        prev := prev + amp + 1;
        assert args[prev..] == rest;
        amp := IndexOf(args[prev..], '&');
      }
      StorePair(args[prev..]);
    }

    method StorePair(pair: string)
      modifies this`query
      ensures query == AddPair(old(query), pair)
    {
      var eq := IndexOf(pair, '=');
      if eq < |pair| {
        query := query[pair[..eq] := pair[eq + 1..]];
      }
    }

    method StoreTarget(target: string)
      modifies this`path, this`query
      ensures Value() == SetTarget(old(Value()), target)
    {
      var mark := IndexOf(target, '?');
      path := target[..mark];
      if mark < |target| {
        SetQueryPathParameters(target[mark + 1..]);
      }
    }

    static method SkipSpaces(line: string, from: nat) returns (start: nat)
      requires from <= |line|
      ensures start <= |line| && line[start..] == TrimLeft(line[from..])
    {
      start := from;
      while start < |line| && IsSpace(line[start])
        invariant start <= |line| && TrimLeft(line[start..]) == TrimLeft(line[from..])
      {
        assert line[start..][1..] == line[start + 1..];
        start := start + 1;
      }
    }

    static method DropTrailingSpaces(s: string) returns (value: string)
      ensures value == TrimRight(s)
    {
      value := s;
      while value != "" && IsSpace(value[|value| - 1])
        invariant TrimRight(value) == TrimRight(s)
        decreases |value|
      {
        value := value[..|value| - 1];
      }
    }

    /** `colon` is the position of the first colon of the line. */
    method StoreHeader(line: string, colon: nat)
      requires colon < |line|
      modifies this`headers
      ensures Value() == AddHeader(old(Value()), line, colon)
    {
      var start := SkipSpaces(line, colon + 1);
      var value := DropTrailingSpaces(line[start..]);
      assert value == Trim(line[colon + 1..]);
      StoreField(line[..colon], value);
    }

    method StoreField(field: string, value: string)
      modifies this`headers
      ensures Value() == old(Value()).(headers := old(headers)[field := value])
    {
      headers := headers[field := value];
    }

    /** Exchanges everything but the body and its length. */
    method Swap(that: HttpRequest)
      requires that != this
      modifies this, that
      ensures Value() == old(that.Value()).(contentLength := old(contentLength), content := old(content))
      ensures that.Value() == old(Value()).(contentLength := old(that.contentLength), content := old(that.content))
    {
      verb, that.verb := that.verb, verb;
      version, that.version := that.version, version;
      path, that.path := that.path, path;
      query, that.query := that.query, query;
      headers, that.headers := that.headers, headers;
    }
  }

  class HttpContext {
    var state: ParseState
    const request: HttpRequest
    var receiveTime: int

    ghost function Value(): Context
      reads this, request
    {
      Context(state, request.Value())
    }

    constructor ()
      ensures fresh(request) && Value() == NewContext()
    {
      state := ExpectRequestLine;
      request := new HttpRequest();
      receiveTime := 0;
    }

    method Reset()
      modifies this, request
      ensures Value() == HttpConnection.Reset(old(request.Value()))
    {
      state := ExpectRequestLine;
      var dummy := new HttpRequest();
      request.Swap(dummy);
    }

    method ProcessRequestLine(line: string) returns (ok: bool)
      modifies request
      ensures (request.Value(), ok) == RequestLine(old(request.Value()), line)
    {
      var sp := IndexOf(line, ' ');
      if sp == |line| {
        return false;
      }
      ghost var r := request.Value();
      ok := request.SetMethod(line[..sp]);
      assert request.Value() == r.(verb := MethodOf(line[..sp]));
      if ok {
        ok := ProcessTargetAndVersion(line[sp + 1..]);
      }
    }

    method ProcessTargetAndVersion(tail: string) returns (ok: bool)
      modifies request
      ensures (request.Value(), ok) == RestOfRequestLine(old(request.Value()), tail)
    {
      var sp := IndexOf(tail, ' ');
      if sp == |tail| {
        return false;
      }
      request.StoreTarget(tail[..sp]);
      var version := tail[sp + 1..];
      ok := |version| == 8 && version[..7] == "HTTP/1.";
      if ok {
        assert version == "HTTP/1." + [version[7]];
        if version[7] == '1' {
          request.version := "HTTP/1.1";
        } else if version[7] == '0' {
          request.version := "HTTP/1.0";
        } else {
          ok := false;
        }
      }
    }

    /** The blank line: decides whether a body follows. */
    method FinishHeaders() returns (status: Status)
      requires state == ExpectHeaders
      modifies this`state, request
      ensures match EndHeaders(old(request.Value()))
        case Complete(r) => status == Ok && Value() == Context(GotAll, r)
        case NeedsBody(r) => status == Ok && Value() == Context(ExpectBody, r)
        case NoLength => status == Bad && Value() == old(Value())
        case BadLength => status == Threw && Value() == old(Value())
    {
      if request.verb == Post || request.verb == Put {
        var length := if "Content-Length" in request.headers then request.headers["Content-Length"] else "";
        if length == "" {
          return Bad;
        }
        var number := Stoi(length);
        if !number.Parsed? {
          return Threw;
        }
        request.contentLength := number.value % TWO_TO_64;
        state := if request.contentLength > 0 then ExpectBody else GotAll;
      } else {
        state := GotAll;
      }
      return Ok;
    }

    /** One turn of the loop; `more` is the loop's own flag. */
    method ParseTurn(buf: Buffer, time: int) returns (status: Status, more: bool)
      requires state != GotAll
      modifies this, request, buf
      ensures match Step(old(Value()), old(buf.data))
        case Wait => status == Ok && !more && Value() == old(Value()) && buf.data == old(buf.data)
        case Go(c, rest) => status == Ok && more && Value() == c && buf.data == rest
        case Stop(o) => !more && Outcome(status, Value(), buf.data) == o
      ensures receiveTime == if old(state) == ExpectRequestLine && state != ExpectRequestLine then time
        else old(receiveTime)
      ensures state == ExpectRequestLine ==> old(state) == ExpectRequestLine
    {
      status, more := Ok, true;
      if state == ExpectBody {
        if |buf.data| < request.contentLength {
          return Ok, false;
        }
        request.content := buf.data[..request.contentLength];
        buf.Retrieve(request.contentLength);
        state := GotAll;
        return Ok, false;
      }
      var crlf := FindCrlf(buf.data);
      if crlf.None? {
        return Ok, false;
      }
      var line := buf.data[..crlf.value];
      if state == ExpectRequestLine {
        var ok := ProcessRequestLine(line);
        if !ok {
          return Bad, false;
        }
        receiveTime := time;
        buf.Retrieve(crlf.value + 2);
        state := ExpectHeaders;
      } else {
        status, more := HeaderTurn(buf, crlf.value);
      }
    }

    method BlankLineTurn(buf: Buffer) returns (status: Status, more: bool)
      requires state == ExpectHeaders && 2 <= |buf.data|
      modifies this`state, request, buf
      ensures match BlankLine(old(request.Value()), EndHeaders(old(request.Value())), old(buf.data), old(buf.data[2..]))
        case Wait => false
        case Go(c, rest) => status == Ok && more && Value() == c && buf.data == rest
        case Stop(o) => !more && Outcome(status, Value(), buf.data) == o
    {
      status := FinishHeaders();
      more := state == ExpectBody;
      if status != Threw {
        buf.Retrieve(2);
      }
    }

    method FieldTurn(buf: Buffer, crlf: nat, colon: nat)
      requires state == ExpectHeaders && crlf + 2 <= |buf.data| && colon < crlf
      modifies request, buf
      ensures Value() == Context(ExpectHeaders, AddHeader(old(request.Value()), old(buf.data)[..crlf], colon))
      ensures buf.data == old(buf.data)[crlf + 2..]
    {
      var line := buf.data[..crlf];
      ghost var after := AddHeader(request.Value(), line, colon);
      request.StoreHeader(line, colon);
      assert request.Value() == after;
      buf.Retrieve(crlf + 2);
    }

    method HeaderTurn(buf: Buffer, crlf: nat) returns (status: Status, more: bool)
      requires state == ExpectHeaders && crlf + 2 <= |buf.data|
      modifies this`state, request, buf
      ensures match HeaderStep(old(Value()), old(buf.data), crlf)
        case Wait => false
        case Go(c, rest) => status == Ok && more && Value() == c && buf.data == rest
        case Stop(o) => !more && Outcome(status, Value(), buf.data) == o
    {
      var colon := IndexOf(buf.data[..crlf], ':');
      if colon < crlf {
        FieldTurn(buf, crlf, colon);
        return Ok, true;
      } else if crlf == 0 {
        status, more := BlankLineTurn(buf);
      } else {
        buf.Retrieve(crlf + 2);
        return Bad, false;
      }
    }

    /** Terminates whenever it is entered outside `GotAll`; `Threw` stands for the exception that leaves the loop. */
    method ParseRequest(buf: Buffer, time: int) returns (status: Status)
      requires state != GotAll
      modifies this, request, buf
      ensures Outcome(status, Value(), buf.data) == Parse(old(Value()), old(buf.data))
      ensures receiveTime == if old(state) == ExpectRequestLine && state != ExpectRequestLine then time
        else old(receiveTime)
    {
      ghost var goal := Parse(Value(), buf.data);
      var more := true;
      status := Ok;
      while more
        invariant more ==> state != GotAll && Parse(Value(), buf.data) == goal
        invariant !more ==> Outcome(status, Value(), buf.data) == goal
        invariant state == ExpectRequestLine ==> old(state) == ExpectRequestLine
        invariant receiveTime == if old(state) == ExpectRequestLine && state != ExpectRequestLine then time
          else old(receiveTime)
        decreases more, |buf.data|
      {
        status, more := ParseTurn(buf, time);
      }
    }
  }
}
