/** The request handling of the early-stage echo server: one request
    line (line terminator already removed) is split on single spaces,
    token 1 is the path, and the answer is either a `200 OK` plain-text
    response or the literal `404 Not Found` bytes. */
module EchoServer {
  import opened JavaStrings

  datatype Option<T> = None | Some(value: T)

  /** The two responses the server can build. */
  datatype Response = Ok(body: string) | NotFound

  /** The path the route compares against; also the prefix whose length
      is cut off the path to form the body. */
  const EchoPath: string := "/echo/"

  const StatusPrefix: string := "HTTP/1.1 "
  const Terminator: string := "\r\n\r\n"

  const StatusOkLine: string := "HTTP/1.1 200 OK\r\n"
  const ContentTypeLine: string := "Content-Type: text/plain\r\n"
  const LengthField: string := "Content-Length: "

  /** Everything of a 200 response before the decimal length. */
  const OkHead: string := StatusOkLine + ContentTypeLine + LengthField

  /** The literal bytes written on every failure path. */
  const NotFoundWire: string := "HTTP/1.1 404 Not Found\r\n\r\n"

  /** The only 200 response the server can produce. */
  const OkWire: string := "HTTP/1.1 200 OK\r\nContent-Type: text/plain\r\nContent-Length: 0\r\n\r\n"

  predicate IsDigit(c: char) {
    '0' <= c <= '9'
  }

  /** `%d` of a non-negative `int`: decimal digits, no leading zero. */
  function Decimal(n: nat): (r: string)
    ensures |r| >= 1
    ensures forall i :: 0 <= i < |r| ==> IsDigit(r[i])
    ensures |r| > 1 ==> r[0] != '0'
  {
    if n < 10 then [('0' as int + n) as char]
    else Decimal(n / 10) + [('0' as int + n % 10) as char]
  }

  /** The value of a string of decimal digits. */
  function ParseDecimal(s: string): nat
    requires forall i :: 0 <= i < |s| ==> IsDigit(s[i])
  {
    if s == [] then 0
    else
      assert IsDigit(s[|s| - 1]);
      ParseDecimal(s[..|s| - 1]) * 10 + (s[|s| - 1] as int - '0' as int)
  }

  /** The longest prefix of digits. */
  function LeadingDigits(s: string): (r: string)
    ensures r <= s
    ensures forall i :: 0 <= i < |r| ==> IsDigit(r[i])
    ensures |r| < |s| ==> !IsDigit(s[|r|])
  {
    if s != [] && IsDigit(s[0]) then [s[0]] + LeadingDigits(s[1..]) else []
  }

  /** Routing of one request line: the path is token 1, and only a path
      equal to `/echo/` is served; the body is the path with the prefix's
      length cut off. */
  function Route(line: string): Response {
    var request := SplitSpace(line);
    if |request| >= 2 then
      var path := request[1];
      if path == EchoPath then Ok(path[|EchoPath|..]) else NotFound
    else NotFound
  }

  /** The bytes written for a response: status line, headers, blank
      line, body. */
  function Format(r: Response): string {
    match r
    case Ok(body) => OkHead + Decimal(|body|) + Terminator + body
    case NotFound => NotFoundWire
  }

  /** Everything the server writes in answer to one request line. */
  function Respond(line: string): string {
    Format(Route(line))
  }

  /** Reads a response back from its bytes; a 200 response is accepted
      only when its `Content-Length` equals the length of the text after
      the header terminator. */
  function ParseResponse(w: string): Option<Response> {
    if OkHead <= w then ParseOkTail(w[|OkHead|..])
    else if w == NotFoundWire then Some(NotFound)
    else None
  }

  /** Reads what follows `Content-Length: ` in a 200 response: the
      digits, the header terminator and a body of the declared length. */
  function ParseOkTail(t: string): Option<Response> {
    var digits := LeadingDigits(t);
    var rest := t[|digits|..];
    if digits != [] && Terminator <= rest && ParseDecimal(digits) == |rest| - |Terminator|
    then Some(Ok(rest[|Terminator|..]))
    else None
  }

  /** Reading the decimal text of `n` gives `n` back. */
  lemma {:induction false} DecimalRoundTrip(n: nat)
    ensures ParseDecimal(Decimal(n)) == n
  {
    if n >= 10 {
      DecimalRoundTrip(n / 10);
      var d := Decimal(n);
      assert d[..|d| - 1] == Decimal(n / 10);
    }
  }

  /** The digits before a non-digit are found exactly. */
  lemma {:induction false} LeadingDigitsOf(d: string, x: string)
    requires forall i :: 0 <= i < |d| ==> IsDigit(d[i])
    requires x != [] && !IsDigit(x[0])
    ensures LeadingDigits(d + x) == d
  {
    if d != [] {
      assert (d + x)[1..] == d[1..] + x;
      LeadingDigitsOf(d[1..], x);
      assert d == [d[0]] + d[1..];
    } else {
      assert d + x == x;
    }
  }

  /** The formatter's inverse: every response is read back from its
      bytes, so in a 200 response the declared `Content-Length` is the
      length of the text after the header terminator. */
  lemma FormatRoundTrip(r: Response)
    ensures ParseResponse(Format(r)) == Some(r)
  {
    if r.NotFound? {
      LiteralLengths();
    } else {
      var d := Decimal(|r.body|);
      DecimalRoundTrip(|r.body|);
      ParseOkResponse(d, r.body);
    }
  }

  /** A 200 response whose digits state the body's length parses back. */
  lemma ParseOkResponse(d: string, body: string)
    requires d != [] && forall i :: 0 <= i < |d| ==> IsDigit(d[i])
    requires ParseDecimal(d) == |body|
    ensures ParseResponse(OkHead + d + Terminator + body) == Some(Ok(body))
  {
    Concat(OkHead, d, Terminator, body);
    ParseOkTailOf(d, body);
  }

  lemma LiteralLengths()
    ensures |OkHead| == 59 && |NotFoundWire| == 26
  {
  }

  /** Slicing a concatenation at the first join gives back its parts. */
  lemma Concat(a: string, b: string, c: string, e: string)
    ensures a <= a + b + c + e && (a + b + c + e)[|a|..] == b + c + e
  {
  }

  lemma ParseOkTailOf(d: string, body: string)
    requires d != [] && forall i :: 0 <= i < |d| ==> IsDigit(d[i])
    requires ParseDecimal(d) == |body|
    ensures ParseOkTail(d + Terminator + body) == Some(Ok(body))
  {
    assert !IsDigit(Terminator[0]);
    DigitsThenSeparator(d, Terminator, body);
  }

  /** Digits, then a separator that starts with a non-digit, then a body:
      the digits are found and the separator and body are cut off
      exactly. */
  lemma DigitsThenSeparator(d: string, sep: string, body: string)
    requires forall i :: 0 <= i < |d| ==> IsDigit(d[i])
    requires sep != [] && !IsDigit(sep[0])
    ensures LeadingDigits(d + sep + body) == d
    ensures (d + sep + body)[|d|..] == sep + body
    ensures sep <= sep + body && (sep + body)[|sep|..] == body
  {
    assert d + sep + body == d + (sep + body);
    LeadingDigitsOf(d, sep + body);
  }

  /** Different responses are written as different bytes. */
  lemma FormatInjective(r1: Response, r2: Response)
    requires Format(r1) == Format(r2)
    ensures r1 == r2
  {
    FormatRoundTrip(r1);
    FormatRoundTrip(r2);
  }

  /** The text after a response's header terminator is its body. */
  function BodyOf(r: Response): string {
    match r
    case Ok(body) => body
    case NotFound => ""
  }

  /** Every response starts with the HTTP/1.1 status prefix and holds
      the header terminator, after which comes exactly the body; a 404
      response ends with the terminator. */
  lemma ResponseFraming(r: Response)
    ensures StatusPrefix <= Format(r)
    ensures var w, k := Format(r), |Format(r)| - |BodyOf(r)|;
      k >= |Terminator| && w[k - |Terminator|..k] == Terminator && w[k..] == BodyOf(r)
    ensures r.NotFound? ==> Format(r)[|Format(r)| - |Terminator|..] == Terminator
  {
    StatusPrefixOfLiterals();
    if r.Ok? {
      var d := Decimal(|r.body|);
      var head := OkHead + d;
      assert Format(r) == head + Terminator + r.body;
      assert Format(r)[..|StatusPrefix|] == OkHead[..|StatusPrefix|];
    } else {
      assert NotFoundWire == "HTTP/1.1 404 Not Found" + Terminator;
    }
  }

  lemma StatusPrefixOfLiterals()
    ensures StatusPrefix <= OkHead && StatusPrefix <= NotFoundWire
  {
    assert StatusOkLine == StatusPrefix + "200 OK\r\n";
    assert OkHead[..|StatusPrefix|] == StatusOkLine[..|StatusPrefix|];
    assert NotFoundWire == StatusPrefix + "404 Not Found\r\n\r\n";
  }

  /** A request line with fewer than two tokens gets the literal 404. */
  lemma ShortRequestNotFound(line: string)
    requires |SplitSpace(line)| < 2
    ensures Respond(line) == NotFoundWire
  {
  }

  /** The 200 form: a path equal to `/echo/` yields an empty body, so
      the response is exactly the fixed 200 bytes with
      `Content-Length: 0`. */
  lemma EchoPathOk(line: string)
    requires |SplitSpace(line)| >= 2 && SplitSpace(line)[1] == EchoPath
    ensures Route(line) == Ok("")
    ensures Respond(line) == OkWire
  {
    assert Decimal(0) == "0";
    OkWireLiteral();
  }

  /** The 200 bytes are the formatter's output for the empty body. */
  lemma OkWireLiteral()
    ensures Format(Ok("")) == OkWire
  {
    OkHeadLiteral();
    assert Decimal(0) == "0";
    assert Format(Ok("")) == OkHead + "0" + Terminator;
  }

  /** The status line and headers before the length, as one literal. */
  lemma OkHeadLiteral()
    ensures OkHead == "HTTP/1.1 200 OK\r\nContent-Type: text/plain\r\nContent-Length: "
  {
    assert StatusOkLine + ContentTypeLine == "HTTP/1.1 200 OK\r\nContent-Type: text/plain\r\n";
  }

  /** Any path other than exactly `/echo/` gets the literal 404, also a
      path that merely starts with `/echo/`. */
  lemma OtherPathNotFound(line: string)
    requires |SplitSpace(line)| >= 2 && SplitSpace(line)[1] != EchoPath
    ensures Respond(line) == NotFoundWire
  {
  }

  lemma OkWireIsNotNotFound()
    ensures OkWire != NotFoundWire
  {
    assert |OkWire| != |NotFoundWire|;
  }

  /** The response is one of exactly two strings, and it is the 200 one
      exactly when token 1 equals `/echo/`. */
  lemma RespondTwoForms(line: string)
    ensures Respond(line) == OkWire || Respond(line) == NotFoundWire
    ensures Respond(line) == OkWire <==>
      |SplitSpace(line)| >= 2 && SplitSpace(line)[1] == EchoPath
  {
    OkWireIsNotNotFound();
    if |SplitSpace(line)| >= 2 && SplitSpace(line)[1] == EchoPath {
      EchoPathOk(line);
    }
  }

  /** Only token 1 matters: the method (token 0) and the version
      (whatever follows the path) never change the response. */
  lemma MethodAndVersionIgnored(m: string, p: string, rest: string)
    requires NoSpace(m) && NoSpace(p) && p != ""
    requires rest == "" || rest[0] == ' '
    ensures Respond(m + " " + p + rest) == if p == EchoPath then OkWire else NotFoundWire
  {
    SplitMethodPath(m, p, rest);
    RespondTwoForms(m + " " + p + rest);
  }

  /** Two request lines whose token 1 agree get the same response. */
  lemma SamePathSameResponse(line1: string, line2: string)
    requires |SplitSpace(line1)| >= 2 && |SplitSpace(line2)| >= 2
    requires SplitSpace(line1)[1] == SplitSpace(line2)[1]
    ensures Respond(line1) == Respond(line2)
  {
  }

  /** Consecutive spaces after the method make the path empty (or leave
      too few tokens), so the response is the literal 404. */
  lemma EmptyPathNotFound(m: string, rest: string)
    requires NoSpace(m)
    ensures Respond(m + "  " + rest) == NotFoundWire
  {
    SplitDoubleSpace(m, rest);
  }

  /** Trailing spaces never change the response, because Java drops the
      trailing empty pieces they create. */
  lemma TrailingSpaceIgnored(line: string)
    ensures Respond(line + " ") == Respond(line)
  {
    if line == [] {
      SplitEmptyAndBlank();
      assert line + " " == " ";
    } else {
      SplitTrailingSpace(line);
    }
  }

  /** A request for `/echo/` is served. */
  lemma EchoRequestExample()
    ensures Respond("GET /echo/ HTTP/1.1") == OkWire
  {
    assert "GET /echo/ HTTP/1.1" == "GET" + " " + "/echo/" + " HTTP/1.1";
    MethodAndVersionIgnored("GET", "/echo/", " HTTP/1.1");
  }

  /** A path that only starts with `/echo/` is not served. */
  lemma EchoMessageExample()
    ensures Respond("GET /echo/abc HTTP/1.1") == NotFoundWire
  {
    assert "GET /echo/abc HTTP/1.1" == "GET" + " " + "/echo/abc" + " HTTP/1.1";
    MethodAndVersionIgnored("GET", "/echo/abc", " HTTP/1.1");
  }

  /** The root path is not served. */
  lemma RootRequestExample()
    ensures Respond("GET / HTTP/1.1") == NotFoundWire
  {
    assert "GET / HTTP/1.1" == "GET" + " " + "/" + " HTTP/1.1";
    MethodAndVersionIgnored("GET", "/", " HTTP/1.1");
  }

  /** A method followed by a space only is a single token. */
  lemma MethodOnlyExample()
    ensures Respond("GET ") == NotFoundWire
  {
    SplitDropsTrailingEmpty();
  }
}
