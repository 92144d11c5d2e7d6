/** What the parser accepts and what it rejects: exactly which request lines, field lines, lengths and numbers, and the
    shape of the bytes that a finished call has consumed. */
module HttpRejection {
  import opened CIntegers
  import opened Options
  import opened HttpParsing
  import opened HttpRoundTrip

  // ----- request lines -----

  predicate IsVersion(s: string) { s == "HTTP/1.1" || s == "HTTP/1.0" }

  predicate IsMethod(s: string) { s == "GET" || s == "POST" || s == "HEAD" || s == "PUT" || s == "DELETE" }

  predicate LineOf(line: string, name: string, target: string, version: string) {
    IsMethod(name) && ' ' !in target && IsVersion(version) && line == name + [' '] + target + [' '] + version
  }

  ghost predicate IsRequestLine(line: string) {
    exists name, target, version :: LineOf(line, name, target, version)
  }

  lemma MethodNames(s: string)
    ensures MethodOf(s) != Invalid <==> IsMethod(s)
    ensures IsMethod(s) ==> Supported(MethodOf(s)) && s == VerbName(MethodOf(s))
  {
  }

  lemma MethodHasNoSpace(s: string)
    requires IsMethod(s)
    ensures ' ' !in s
  {
  }

  lemma SplitAt(s: string, c: char) returns (a: string, b: string)
    requires IndexOf(s, c) < |s|
    ensures a == s[..IndexOf(s, c)] && b == s[IndexOf(s, c) + 1..] && s == a + [c] + b && c !in a
  {
    a, b := s[..IndexOf(s, c)], s[IndexOf(s, c) + 1..];
  }

  lemma RestIsAccepted(r: Request, tail: string) returns (target: string, version: string)
    requires RestOfRequestLine(r, tail).1
    ensures ' ' !in target && IsVersion(version) && tail == target + [' '] + version
    ensures RestOfRequestLine(r, tail).0 == SetTarget(r, target).(version := version)
  {
    target, version := SplitAt(tail, ' ');
  }

  lemma AcceptedMethod(r: Request, line: string) returns (name: string, tail: string)
    requires RequestLine(r, line).1
    ensures IsMethod(name) && line == name + [' '] + tail
    ensures RequestLine(r, line) == RestOfRequestLine(r.(verb := MethodOf(name)), tail)
  {
    name, tail := SplitAt(line, ' ');
    MethodNames(name);
  }

  lemma Associate(name: string, target: string, version: string)
    ensures name + [' '] + (target + [' '] + version) == name + [' '] + target + [' '] + version
  {
  }

  lemma AcceptedLine(r: Request, line: string) returns (name: string, target: string, version: string)
    requires RequestLine(r, line).1
    ensures LineOf(line, name, target, version)
    ensures RequestLine(r, line).0 == SetTarget(r.(verb := MethodOf(name)), target).(version := version)
  {
    var tail;
    name, tail := AcceptedMethod(r, line);
    target, version := RestIsAccepted(r.(verb := MethodOf(name)), tail);
    Associate(name, target, version);
  }

  lemma LineIsAccepted(r: Request, line: string, name: string, target: string, version: string)
    requires LineOf(line, name, target, version)
    ensures RequestLine(r, line).1
  {
    MethodNames(name);
    MethodHasNoSpace(name);
    var tail := target + [' '] + version;
    assert line == name + [' '] + tail;
    FirstWord(r, name, tail);
    OtherWords(r.(verb := MethodOf(name)), target, version);
  }

  /** A request line is accepted exactly if it is one of the five methods, a target without a space and one of the two
      versions, with single spaces between them. */
  lemma RequestLineExactly(r: Request, line: string)
    ensures RequestLine(r, line).1 <==> IsRequestLine(line)
  {
    if RequestLine(r, line).1 {
      var name, target, version := AcceptedLine(r, line);
    }
    if name, target, version :| LineOf(line, name, target, version) {
      LineIsAccepted(r, line, name, target, version);
    }
  }

  /** Any other line fails the parse, and nothing is consumed. */
  lemma OtherRequestLinesAreBad(c: Context, buf: string, i: nat)
    requires c.state == ExpectRequestLine && FindCrlf(buf) == Some(i)
    ensures var o := Parse(c, buf);
      if IsRequestLine(buf[..i]) then
        o == Parse(Context(ExpectHeaders, RequestLine(c.request, buf[..i]).0), buf[i + 2..])
      else o.status == Bad && o.context.state == ExpectRequestLine && o.rest == buf
  {
    RequestLineExactly(c.request, buf[..i]);
    if RequestLine(c.request, buf[..i]).1 {
      GoOn(c, buf);
    } else {
      assert Step(c, buf) == Stop(Outcome(Bad, Context(ExpectRequestLine, RequestLine(c.request, buf[..i]).0), buf));
    }
  }

  /** In particular a line whose first word is another method, or whose version is another one. */
  lemma OtherMethodsAndVersions(name: string, target: string, version: string)
    requires ' ' !in name && ' ' !in target
    ensures !IsMethod(name) || !IsVersion(version) ==> !IsRequestLine(name + [' '] + target + [' '] + version)
  {
    var line := name + [' '] + target + [' '] + version;
    if m, t, v :| LineOf(line, m, t, v) {
      MethodHasNoSpace(m);
      assert line == name + [' '] + (target + [' '] + version) && line == m + [' '] + (t + [' '] + v);
      IndexOfSeparator(name, ' ', target + [' '] + version);
      IndexOfSeparator(m, ' ', t + [' '] + v);
      IndexOfSeparator(target, ' ', version);
      IndexOfSeparator(t, ' ', v);
    }
  }

  /** What precedes a fault stays stored: nothing without a space, the method up to a missing second one - `Invalid`
      if it is another word - and the target too in front of a wrong version. */
  lemma RejectedLineInFull(r: Request, name: string, target: string, version: string)
    requires ' ' !in name && ' ' !in target
    ensures RequestLine(r, name) == (r, false)
    ensures !IsMethod(name) ==> RequestLine(r, name + [' '] + target) == (r.(verb := Invalid), false)
    ensures IsMethod(name) ==> RequestLine(r, name + [' '] + target) == (r.(verb := MethodOf(name)), false)
    ensures IsMethod(name) && !IsVersion(version) ==>
      RequestLine(r, name + [' '] + (target + [' '] + version))
        == (SetTarget(r.(verb := MethodOf(name)), target), false)
  {
    MethodNames(name);
    IndexOfAbsent(name, ' ');
    IndexOfAbsent(target, ' ');
    IndexOfSeparator(name, ' ', target);
    IndexOfSeparator(name, ' ', target + [' '] + version);
    IndexOfSeparator(target, ' ', version);
  }

  // ----- targets -----

  lemma TargetWithoutParameters(r: Request, path: string)
    requires '?' !in path
    ensures SetTarget(r, path) == r.(path := path) && SetTarget(r, path + ['?']) == r.(path := path)
  {
    IndexOfAbsent(path, '?');
    assert path[..|path|] == path;
    assert path + ['?'] == path + ['?'] + "";
    IndexOfSeparator(path, '?', "");
  }

  /** A piece of the parameters without an equals sign is skipped. */
  lemma PiecesWithoutAValue(query: map<string, string>, piece: string, more: string)
    requires '=' !in piece && '&' !in piece
    ensures AddPairs(query, piece) == query && AddPairs(query, piece + ['&'] + more) == AddPairs(query, more)
  {
    IndexOfAbsent(piece, '=');
    IndexOfAbsent(piece, '&');
    var args := piece + ['&'] + more;
    IndexOfSeparator(piece, '&', more);
    assert args[..|piece|] == piece && args[|piece| + 1..] == more;
  }

  // ----- field lines -----

  /** A non-empty field line without a colon fails the parse; the line is consumed. */
  lemma LinesWithoutAColonAreBad(c: Context, buf: string, i: nat)
    requires c.state == ExpectHeaders && FindCrlf(buf) == Some(i) && i > 0 && ':' !in buf[..i]
    ensures Parse(c, buf) == Outcome(Bad, c, buf[i + 2..])
  {
    IndexOfAbsent(buf[..i], ':');
  }

  predicate AllSpaces(s: string) { forall i :: 0 <= i < |s| ==> IsSpace(s[i]) }

  lemma WhiteSpace(c: char)
    ensures IsSpace(c) <==> c == ' ' || c == '\t' || c == '\n' || c as int == 11 || c as int == 12 || c == '\r'
  {
  }

  lemma {:induction false} LeftTrimmed(s: string) returns (before: string)
    ensures s == before + TrimLeft(s) && AllSpaces(before)
    ensures TrimLeft(s) != "" ==> !IsSpace(TrimLeft(s)[0])
  {
    before := "";
    if s != "" && IsSpace(s[0]) {
      var rest := LeftTrimmed(s[1..]);
      before := [s[0]] + rest;
      assert s == [s[0]] + s[1..];
    }
  }

  lemma {:induction false} RightTrimmed(s: string) returns (after: string)
    ensures s == TrimRight(s) + after && AllSpaces(after)
    ensures TrimRight(s) != "" ==> !IsSpace(TrimRight(s)[|TrimRight(s)| - 1])
  {
    after := "";
    if s != "" && IsSpace(s[|s| - 1]) {
      var rest := RightTrimmed(s[..|s| - 1]);
      after := rest + [s[|s| - 1]];
      assert s == s[..|s| - 1] + [s[|s| - 1]];
    }
  }

  /** The stored value is the text between white space on both sides, and has none at its own ends. */
  lemma TrimExactly(s: string) returns (before: string, after: string)
    ensures s == before + Trim(s) + after && AllSpaces(before) && AllSpaces(after) && Trimmed(Trim(s))
  {
    before := LeftTrimmed(s);
    var t := TrimLeft(s);
    after := RightTrimmed(t);
    assert Trim(s) != "" ==> Trim(s)[0] == t[0];
  }

  // ----- numbers -----

  lemma {:induction false} SpacesAreSkipped(spaces: string, s: string)
    requires AllSpaces(spaces) && (s == "" || !IsSpace(s[0]))
    ensures TrimLeft(spaces + s) == s
  {
    if spaces == "" {
      assert "" + s == s;
    } else {
      assert (spaces + s)[1..] == spaces[1..] + s;
      SpacesAreSkipped(spaces[1..], s);
    }
  }

  lemma {:induction false} JunkIsIgnored(digits: string, junk: string, acc: nat)
    requires AllDigits(digits) && (junk == "" || !IsDigit(junk[0]))
    ensures LeadingNumber(digits + junk, acc) == LeadingNumber(digits, acc)
  {
    if digits == "" {
      assert "" + junk == junk;
    } else {
      assert (digits + junk)[1..] == digits[1..] + junk;
      JunkIsIgnored(digits[1..], junk, 10 * acc + DigitValue(digits[0]));
    }
  }

  lemma SignIsRead(sign: string, digits: string, junk: string, n: nat)
    requires sign == "" || sign == "+" || sign == "-"
    requires digits != "" && AllDigits(digits) && LeadingNumber(digits + junk, 0) == n
    ensures var t := sign + digits + junk; var v: int := if sign == "-" then -(n as int) else n;
      && !IsSpace(t[0])
      && (TrimLeft(t) == t ==> Stoi(t) == if -0x8000_0000 <= v <= 0x7FFF_FFFF then Parsed(v) else OutOfRange)
  {
    var t := sign + digits + junk;
    assert IsDigit(digits[0]);
    if sign == "" {
      assert t == digits + junk;
    } else {
      assert t[1..] == digits + junk;
    }
  }

  lemma StoiAfterSpaces(spaces: string, t: string)
    requires AllSpaces(spaces) && t != "" && !IsSpace(t[0])
    ensures TrimLeft(t) == t && Stoi(spaces + t) == Stoi(t)
  {
    SpacesAreSkipped(spaces, t);
    assert TrimLeft(t) == t;
  }

  /** A number is read behind white space and a sign, up to the first character that is no digit; outside the range of
      an `int` it throws. */
  lemma NumberIsRead(spaces: string, sign: string, n: nat, junk: string)
    requires AllSpaces(spaces) && (sign == "" || sign == "+" || sign == "-") && (junk == "" || !IsDigit(junk[0]))
    ensures var v: int := if sign == "-" then -(n as int) else n;
      Stoi(spaces + (sign + Decimal(n) + junk)) == if -0x8000_0000 <= v <= 0x7FFF_FFFF then Parsed(v) else OutOfRange
  {
    DecimalIsRead(n);
    JunkIsIgnored(Decimal(n), junk, 0);
    SignIsRead(sign, Decimal(n), junk, n);
    StoiAfterSpaces(spaces, sign + Decimal(n) + junk);
  }

  /** Without a digit behind the white space and the sign there is no number. */
  lemma NoNumber(spaces: string, sign: string, s: string)
    requires AllSpaces(spaces) && (sign == "" || sign == "+" || sign == "-")
    requires s == "" || (!IsDigit(s[0]) && !IsSpace(s[0]) && (sign == "" ==> s[0] != '+' && s[0] != '-'))
    ensures Stoi(spaces + (sign + s)) == InvalidArgument
  {
    var t := sign + s;
    SpacesAreSkipped(spaces, t);
    if sign == "" {
      assert t == s;
    } else {
      assert t[1..] == s;
    }
  }

  // ----- the blank line -----

  predicate Lacking(r: Request) {
    (r.verb == Post || r.verb == Put) && ("Content-Length" !in r.headers || r.headers["Content-Length"] == "")
  }

  /** Without a length a POST or a PUT is bad, and only those two methods have a body at all. */
  lemma BlankLineWithoutLength(r: Request, tail: string)
    ensures Lacking(r) ==>
      Parse(Context(ExpectHeaders, r), CRLF + tail) == Outcome(Bad, Context(ExpectHeaders, r), tail)
    ensures r.verb != Post && r.verb != Put ==>
      Parse(Context(ExpectHeaders, r), CRLF + tail) == Outcome(Ok, Context(GotAll, r), tail)
  {
    EmptyLineTurn(r, tail);
  }

  /** With one, the number decides: no number or one too large is an exception that leaves the blank line unread; zero
      ends the request; a negative one wraps around and makes the parser wait for almost 2^64 bytes. */
  lemma BlankLineWithLength(r: Request, tail: string, number: Number)
    requires (r.verb == Post || r.verb == Put) && !Lacking(r) && number == Stoi(r.headers["Content-Length"])
    ensures var o := Parse(Context(ExpectHeaders, r), CRLF + tail);
      match number
      case Parsed(v) =>
        var n: nat := if v < 0 then 0x1_0000_0000_0000_0000 + v else v;
        if n == 0 then o == Outcome(Ok, Context(GotAll, r.(contentLength := 0)), tail)
        else if |tail| < n then o == Outcome(Ok, Context(ExpectBody, r.(contentLength := n)), tail)
        else o == Outcome(Ok, Context(GotAll, r.(contentLength := n, content := tail[..n])), tail[n..])
      case _ => o == Outcome(Threw, Context(ExpectHeaders, r), CRLF + tail)
  {
    EmptyLineTurn(r, tail);
    if number.Parsed? {
      StoiFitsInt(r.headers["Content-Length"]);
      if number.value != 0 {
        GoOn(Context(ExpectHeaders, r), CRLF + tail);
      }
    }
  }

  lemma StoiFitsInt(s: string)
    ensures Stoi(s).Parsed? ==> -0x8000_0000 <= Stoi(s).value <= 0x7FFF_FFFF
  {
  }

  // ----- what a finished call has consumed -----

  function JoinLines(lines: seq<string>): string {
    if lines == [] then "" else lines[0] + CRLF + JoinLines(lines[1..])
  }

  /** A field line: the name in front of its first colon, and the rest. */
  predicate IsFieldLine(line: string) { ':' in line }

  function FieldOf(line: string): (f: (string, string)) {
    var colon := IndexOf(line, ':');
    if colon < |line| then (line[..colon], Trim(line[colon + 1..])) else (line, "")
  }

  function FieldsOf(lines: seq<string>): (fs: seq<(string, string)>)
    ensures |fs| == |lines|
  {
    if lines == [] then [] else [FieldOf(lines[0])] + FieldsOf(lines[1..])
  }

  /** Name and value of a field line, told without scanning: the first colon parts them. */
  lemma FieldOfALine(name: string, value: string)
    requires ':' !in name
    ensures FieldOf(name + [':'] + value) == (name, Trim(value))
  {
    IndexOfSeparator(name, ':', value);
    assert (name + [':'] + value)[..|name|] == name && (name + [':'] + value)[|name| + 1..] == value;
  }

  function WithFields(r: Request, lines: seq<string>): Request { r.(headers := HeaderMap(r.headers, FieldsOf(lines))) }

  lemma CutLine(s: string) returns (line: string, rest: string)
    requires FindCrlf(s).Some?
    ensures line == s[..FindCrlf(s).value] && rest == s[FindCrlf(s).value + 2..] && s == line + CRLF + rest
  {
    line, rest := s[..FindCrlf(s).value], s[FindCrlf(s).value + 2..];
  }

  lemma WithOneMoreField(r: Request, line: string, lines: seq<string>)
    requires IsFieldLine(line)
    ensures WithFields(WithHeader(r, FieldOf(line)), lines) == WithFields(r, [line] + lines)
  {
    assert ([line] + lines)[1..] == lines;
    assert FieldsOf([line] + lines) == [FieldOf(line)] + FieldsOf(lines);
    assert ([FieldOf(line)] + FieldsOf(lines))[1..] == FieldsOf(lines);
  }

  lemma JoinOneMore(line: string, lines: seq<string>, rest: string)
    ensures JoinLines([line] + lines) + rest == line + CRLF + (JoinLines(lines) + rest)
  {
    assert ([line] + lines)[1..] == lines;
  }

  /** A turn on a line with a colon stores the field; any other turn of a call that finishes is on the blank line. */
  lemma FieldOrBlank(r: Request, s: string, o: Outcome) returns (line: string, rest: string)
    requires o == Parse(Context(ExpectHeaders, r), s) && o.context.state == GotAll
    ensures s == line + CRLF + rest && |rest| < |s| && (line == "" || IsFieldLine(line))
    ensures line != "" ==> o == Parse(Context(ExpectHeaders, WithHeader(r, FieldOf(line))), rest)
  {
    line, rest := CutLine(s);
    if line != "" {
      GoOn(Context(ExpectHeaders, r), s);
    }
  }

  /** Before it can finish, a parser that expects headers has read field lines and the blank line behind them. */
  lemma {:induction false} HeadersConsumed(r: Request, s: string, o: Outcome) returns (lines: seq<string>, tail: string)
    requires o == Parse(Context(ExpectHeaders, r), s) && o.context.state == GotAll
    ensures s == JoinLines(lines) + (CRLF + tail) && forall i :: 0 <= i < |lines| ==> IsFieldLine(lines[i])
    ensures o == Parse(Context(ExpectHeaders, WithFields(r, lines)), CRLF + tail)
    decreases |s|
  {
    var line, rest := FieldOrBlank(r, s, o);
    if line == "" {
      lines, tail := [], rest;
      NoField(r, s, tail);
    } else {
      var others;
      others, tail := HeadersConsumed(WithHeader(r, FieldOf(line)), rest, o);
      WithOneMoreField(r, line, others);
      JoinOneMore(line, others, CRLF + tail);
      lines := [line] + others;
    }
  }

  lemma NoField(r: Request, s: string, tail: string)
    requires s == "" + CRLF + tail
    ensures s == CRLF + tail && s == JoinLines([]) + (CRLF + tail) && WithFields(r, []) == r
  {
    assert "" + CRLF == CRLF;
    assert JoinLines([]) + (CRLF + tail) == CRLF + tail;
  }

  /** The bytes behind the blank line: a body exactly for a POST or PUT of positive length. */
  lemma BodyConsumed(r: Request, tail: string) returns (body: string)
    requires Parse(Context(ExpectHeaders, r), CRLF + tail).context.state == GotAll
    ensures var o := Parse(Context(ExpectHeaders, r), CRLF + tail);
      && tail == body + o.rest
      && o.context.request.(contentLength := r.contentLength, content := r.content) == r
      && if (r.verb == Post || r.verb == Put) && o.context.request.contentLength > 0
         then body == o.context.request.content && |body| == o.context.request.contentLength else body == ""
  {
    BlankLineWithoutLength(r, tail);
    if (r.verb == Post || r.verb == Put) && !Lacking(r) {
      BlankLineWithLength(r, tail, Stoi(r.headers["Content-Length"]));
    }
    var o := Parse(Context(ExpectHeaders, r), CRLF + tail);
    body := tail[..|tail| - |o.rest|];
  }

  lemma LineConsumed(s: string) returns (line: string, rest: string)
    requires Parse(NewContext(), s).context.state == GotAll
    ensures s == line + CRLF + rest && RequestLine(NewRequest(), line).1
    ensures Parse(NewContext(), s) == Parse(Context(ExpectHeaders, RequestLine(NewRequest(), line).0), rest)
  {
    line, rest := CutLine(s);
    GoOn(NewContext(), s);
  }

  /** The converse of the round trip. Whatever bytes a finished call has consumed, they are a request line, field
      lines, a blank line and a body, and the request is what they say. */
  lemma FinishedCallConsumedAMessage(s: string)
    returns (name: string, target: string, lines: seq<string>, body: string, q: Request)
    requires Parse(NewContext(), s).context.state == GotAll
    ensures q == Parse(NewContext(), s).context.request
    ensures IsMethod(name) && ' ' !in target && IsVersion(q.version)
    ensures forall i :: 0 <= i < |lines| ==> IsFieldLine(lines[i])
    ensures s == name + [' '] + target + [' '] + q.version + CRLF
                 + (JoinLines(lines) + (CRLF + (body + Parse(NewContext(), s).rest)))
    ensures VerbName(q.verb) == name && q.headers == HeaderMap(map[], FieldsOf(lines))
    ensures q.path == SetTarget(NewRequest(), target).path && q.query == SetTarget(NewRequest(), target).query
    ensures if (q.verb == Post || q.verb == Put) && q.contentLength > 0
      then body == q.content && |body| == q.contentLength
      else body == ""
  {
    var line, rest := LineConsumed(s);
    var version;
    name, target, version := AcceptedLine(NewRequest(), line);
    var r := RequestLine(NewRequest(), line).0;
    var tail;
    lines, tail := HeadersConsumed(r, rest, Parse(NewContext(), s));
    body := BodyConsumed(WithFields(r, lines), tail);
    MethodNames(name);
    q := Parse(NewContext(), s).context.request;
  }
}
