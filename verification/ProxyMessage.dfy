/** The request head of `tsproxy.cpp`: parsing it line by line, and printing it for the upstream. */
module ProxyMessage {
  import opened Common
  import opened CText
  import opened ProxyRoute

  const CRLF := "\r\n"

  datatype Header =
    | Host | ContentLength | ContentType | Connection | ProxyConnection | UserAgent | Accept | TransferEncoding
    | Expectation | CacheControl | Origin | Pragma | Unknown

  /** `http_msg_t`. The text fields of the struct, one for each header that is kept as text, are
      one map; a field that is not in it is empty. */
  datatype Request = Request(
    verb: string, path: string, major: int, minor: int, text: map<Header, string>, backendHost: string,
    contentLength: int, keepalive: bool, proxy: bool, connected: bool, body: Option<string>, bodyLen: int)

  /** After `memset(..., 0, ...)`. */
  const EMPTY := Request("", "", 0, 0, map[], "", 0, false, false, false, None, 0)

  function TextOf(r: Request, h: Header): string { if h in r.text then r.text[h] else "" }

  const FIELD := 63
  const LONG_FIELD := 127

  /** The characters that fit the field of a header. */
  function Limit(h: Header): nat { if h.ContentType? then LONG_FIELD else FIELD }

  predicate IsText(h: Header)
  {
    !h.ContentLength? && !h.Connection? && !h.ProxyConnection? && !h.Unknown?
  }

  // ---- parsing

  /** The conversions `%d.%d` that succeed. */
  function ScanNumbers(r: Request, s: string): Request
  {
    match ScanInt(s)
    case None => r
    case Some((major, d)) =>
      var r' := r.(major := major);
      if d == "" || d[0] != '.' then r' else
      match ScanInt(d[1..])
      case None => r'
      case Some((minor, _)) => r'.(minor := minor)
  }

  /** The conversions `HTTP/%d.%d` that succeed. */
  function ScanVersion(r: Request, s: string): Request
  {
    if StartsWith(s, "HTTP/") then ScanNumbers(r, s[5..]) else r
  }

  /** The conversions of `sscanf(buf, "%s %s HTTP/%d.%d", ...)` that succeed. */
  function ScanRequestLine(r: Request, line: string): Request
  {
    var a := SkipSpace(line);
    var n := TokenLen(a);
    if n == 0 then r else
    var b := SkipSpace(a[n..]);
    var m := TokenLen(b);
    if m == 0 then r.(verb := a[..n]) else
    ScanVersion(r.(verb := a[..n], path := b[..m]), SkipSpace(b[m..]))
  }

  /** `None` when the line is refused. */
  function ParseRequestLine(r: Request, line: string): Option<Request>
  {
    var q := ScanRequestLine(r, line);
    if q.major != 1 then None else Some(q.(keepalive := q.minor == 1))
  }

  function TrimLeft(s: string): string
  {
    if s != "" && s[0] == ' ' then TrimLeft(s[1..]) else s
  }

  function KeyName(h: Header): string
  {
    match h
    case Host => "Host"
    case ContentLength => "Content-Length"
    case ContentType => "Content-Type"
    case Connection => "Connection"
    case ProxyConnection => "Proxy-Connection"
    case UserAgent => "User-Agent"
    case Accept => "Accept"
    case TransferEncoding => "Transfer-Encoding"
    case Expectation => "Expect"
    case CacheControl => "Cache-Control"
    case Origin => "Origin"
    case Pragma => "Pragma"
    case Unknown => ""
  }

  /** The header a key names, letter case ignored. */
  function HeaderOf(key: string): Header
  {
    if SameIgnoringCase(key, KeyName(Host)) then Host
    else if SameIgnoringCase(key, KeyName(ContentLength)) then ContentLength
    else if SameIgnoringCase(key, KeyName(ContentType)) then ContentType
    else if SameIgnoringCase(key, KeyName(Connection)) then Connection
    else if SameIgnoringCase(key, KeyName(ProxyConnection)) then ProxyConnection
    else if SameIgnoringCase(key, KeyName(UserAgent)) then UserAgent
    else if SameIgnoringCase(key, KeyName(Accept)) then Accept
    else if SameIgnoringCase(key, KeyName(TransferEncoding)) then TransferEncoding
    else if SameIgnoringCase(key, KeyName(Expectation)) then Expectation
    else if SameIgnoringCase(key, KeyName(CacheControl)) then CacheControl
    else if SameIgnoringCase(key, KeyName(Origin)) then Origin
    else if SameIgnoringCase(key, KeyName(Pragma)) then Pragma
    else Unknown
  }

  function SetHeader(r: Request, h: Header, val: string): Request
  {
    if h.ContentLength? then r.(contentLength := Atoi(val))
    else if h.Connection? || h.ProxyConnection? then
      if SameIgnoringCase(val, "close") then r.(keepalive := false) else r
    else if h.Unknown? then r
    else r.(text := r.text[h := Truncate(val, Limit(h))])
  }

  /** `None` when there is no colon. */
  function ParseHead(r: Request, line: string): Option<Request>
  {
    match IndexOf(line, ':')
    case None => None
    case Some(i) => Some(SetHeader(r, HeaderOf(line[..i]), TrimLeft(line[i + 1..])))
  }

  // ---- printing

  function RequestLine(r: Request): string
  {
    r.verb + " " + (if r.proxy then ForwardPath(r.path) else r.path) + " HTTP/" + IntText(r.major) + "." + IntText(r.minor)
  }

  /** One header line, or none when the field is empty. */
  function HeaderLine(h: Header, val: string): seq<string>
  {
    if val == "" then [] else [KeyName(h) + ": " + val]
  }

  function KeepaliveText(r: Request): string { if r.keepalive then "keep-alive" else "close" }

  function LengthText(r: Request): string { if r.contentLength > 0 then IntText(r.contentLength) else "" }

  /** The text headers that are passed on, in the order in which they are printed. */
  function Forwarded(proxy: bool): seq<Header>
  {
    if proxy then [ContentType, UserAgent, Accept, TransferEncoding, Expectation, CacheControl, Origin, Pragma]
    else [ContentType]
  }

  function TextLines(r: Request, hs: seq<Header>): seq<string>
  {
    if hs == [] then [] else HeaderLine(hs[0], TextOf(r, hs[0])) + TextLines(r, hs[1..])
  }

  function HeaderLines(r: Request): seq<string>
  {
    (if r.proxy then HeaderLine(Host, r.backendHost) else [])
    + HeaderLine(Connection, KeepaliveText(r)) + HeaderLine(ContentLength, LengthText(r))
    + TextLines(r, Forwarded(r.proxy))
  }

  function Terminated(lines: seq<string>): string
  {
    if lines == [] then "" else lines[0] + CRLF + Terminated(lines[1..])
  }

  /** The head as it goes upstream. */
  function DumpHead(r: Request): string
  {
    RequestLine(r) + CRLF + Terminated(HeaderLines(r)) + CRLF
  }

  /** The dump would also copy `contentLength` bytes of the body. */
  predicate CopiesBody(r: Request) { r.body.Some? && r.contentLength > 0 }

  /** The head of a request that is passed on, in its parts. */
  lemma HeadParts(r: Request)
    requires r.proxy
    ensures DumpHead(r) ==
            RequestLine(r) + CRLF
            + (Terminated(HeaderLine(Host, r.backendHost))
               + (Terminated(HeaderLine(Connection, KeepaliveText(r)))
                  + (Terminated(HeaderLine(ContentLength, LengthText(r)))
                     + (Terminated(TextLines(r, Forwarded(true))) + CRLF))))
  {
    var l1, l2, l3 := HeaderLine(Host, r.backendHost), HeaderLine(Connection, KeepaliveText(r)),
                      HeaderLine(ContentLength, LengthText(r));
    assert HeaderLines(r) == l1 + l2 + l3 + TextLines(r, Forwarded(true));
    hide RequestLine, Terminated, HeaderLine, HeaderLines, TextLines, Forwarded;
    Assoc(RequestLine(r) + CRLF, Terminated(HeaderLines(r)), CRLF);
    FourParts(l1, l2, l3, TextLines(r, Forwarded(true)), CRLF);
  }

  lemma RequestLineIs(r: Request)
    requires r.proxy
    ensures RequestLine(r) + CRLF ==
            r.verb + " " + ForwardPath(r.path) + " HTTP/" + IntText(r.major) + "." + IntText(r.minor) + "\r\n"
  {
    hide ForwardPath, IntText;
  }

  lemma OwnLinesAre(r: Request)
    ensures Terminated(HeaderLine(Connection, KeepaliveText(r))) ==
            "Connection" + ": " + (if r.keepalive then "keep-alive" else "close") + "\r\n"
    ensures Terminated(HeaderLine(ContentLength, LengthText(r))) ==
            if r.contentLength > 0 then "Content-Length" + ": " + IntText(r.contentLength) + "\r\n" else ""
  {
    OneLine(Connection, "Connection", KeepaliveText(r));
    OneLine(ContentLength, "Content-Length", LengthText(r));
    NumberText(r.contentLength);
    hide Terminated, HeaderLine, IntText, KeyName;
  }

  /** How the head of a request that is passed on begins. */
  lemma HeadStarts(r: Request)
    requires r.proxy && r.backendHost != ""
    ensures r.verb + " " + ForwardPath(r.path) + " HTTP/" + IntText(r.major) + "." + IntText(r.minor) + "\r\n"
            + ("Host" + ": " + r.backendHost + "\r\n")
            + ("Connection" + ": " + (if r.keepalive then "keep-alive" else "close") + "\r\n")
            + (if r.contentLength > 0 then "Content-Length" + ": " + IntText(r.contentLength) + "\r\n" else "")
            <= DumpHead(r)
  {
    HeadParts(r);
    RequestLineIs(r);
    OneLine(Host, "Host", r.backendHost);
    OwnLinesAre(r);
    var first, rest := RequestLine(r) + CRLF, Terminated(TextLines(r, Forwarded(true))) + CRLF;
    var a, b := Terminated(HeaderLine(Host, r.backendHost)), Terminated(HeaderLine(Connection, KeepaliveText(r)));
    var c := Terminated(HeaderLine(ContentLength, LengthText(r)));
    hide *;
    PrefixOf(first, a, b, c, rest);
  }

  lemma NumberText(n: int)
    ensures IntText(n) != ""
  {
  }

  lemma OneLine(h: Header, name: string, val: string)
    requires KeyName(h) == name
    ensures Terminated(HeaderLine(h, val)) == if val == "" then "" else name + ": " + val + "\r\n"
  {
    if val != "" {
      var line := name + ": " + val;
      assert Terminated([line]) == line + CRLF + Terminated([]);
    }
    hide KeyName;
  }

  lemma PrefixOf(first: string, a: string, b: string, c: string, d: string)
    ensures first + a + b + c <= first + (a + (b + (c + d)))
  {
    assert first + (a + (b + (c + d))) == first + a + b + c + d;
  }

  // ---- reading a printed head again

  /** `hio_readline`: everything up to and including the first line feed. */
  function TakeLine(s: string): Option<(string, string)>
  {
    match IndexOf(s, '\n')
    case None => None
    case Some(i) => Some((s[..i + 1], s[i + 1..]))
  }

  /** The callback drops the last two bytes of a line. */
  function Strip(line: string): string
    requires |line| >= 2
  {
    CStr(line[..|line| - 2])
  }

  /** What is left of a line: all but its last two characters, up to the first NUL. */
  lemma StripExactly(line: string, kept: string)
    requires |line| >= 2 && '\0' !in kept
    requires kept == line[..|line| - 2] || kept + "\0" <= line[..|line| - 2]
    ensures Strip(line) == kept
  {
    var s := line[..|line| - 2];
    if kept != s {
      var rest := s[|kept| + 1..];
      assert s == kept + ("\0" + rest);
      assert s[|kept|] == '\0' && forall x :: 0 <= x < |kept| ==> s[x] == kept[x];
      var j := IndexOf(s, '\0');
      assert forall x :: 0 <= x < j.value ==> s[..j.value][x] == s[x] && s[x] != '\0';
    }
  }

  /** Header lines up to the empty one; then the request and the rest of the input. */
  function ReadHeaders(r: Request, s: string): Option<(Request, string)>
    decreases |s|
  {
    match TakeLine(s)
    case None => None
    case Some((line, rest)) =>
      if |line| < 2 then None
      else if line == CRLF then Some((r, rest))
      else
        match ParseHead(r, Strip(line))
        case None => None
        case Some(r') => ReadHeaders(r', rest)
  }

  function ReadHead(s: string): Option<(Request, string)>
  {
    match TakeLine(s)
    case None => None
    case Some((line, rest)) =>
      if |line| < 2 then None
      else
        match ParseRequestLine(EMPTY, Strip(line))
        case None => None
        case Some(r) => ReadHeaders(r, rest)
  }

  // ---- well-formed requests

  /** Free of CR, LF and NUL. */
  predicate Clean(s: string) { '\r' !in s && '\n' !in s && '\0' !in s }

  predicate FieldOk(s: string, n: nat) { |s| <= n && Clean(s) && (s == "" || s[0] != ' ') }

  /** What parsing clean lines makes of a request. */
  predicate HeadOk(r: Request)
  {
    && (forall h :: h in r.text ==> FieldOk(r.text[h], Limit(h)))
    && (r.keepalive ==> r.minor == 1)
    && (r.verb == "" || (IsToken(r.verb) && Clean(r.verb)))
    && (r.path == "" || (IsToken(r.path) && Clean(r.path)))
  }

  lemma {:induction false} TrimLeftSuffix(s: string)
    ensures var t := TrimLeft(s);
            |t| <= |s| && t == s[|s| - |t|..] && (t == "" || t[0] != ' ')
  {
    if s != "" && s[0] == ' ' { TrimLeftSuffix(s[1..]); }
  }

  lemma {:induction false} SkipSpaceSuffix(s: string)
    ensures var t := SkipSpace(s); |t| <= |s| && t == s[|s| - |t|..]
  {
    if s != "" && IsSpace(s[0]) { SkipSpaceSuffix(s[1..]); }
  }

  lemma CleanPart(s: string, i: nat, j: nat)
    requires Clean(s) && i <= j <= |s|
    ensures Clean(s[i..j])
  {
  }

  lemma ValueOk(line: string, i: nat, n: nat)
    requires Clean(line) && i < |line|
    ensures FieldOk(Truncate(TrimLeft(line[i + 1..]), n), n)
  {
    var raw := line[i + 1..];
    var val := TrimLeft(raw);
    TrimLeftSuffix(raw);
    CleanPart(line, i + 1, |line|);
    CleanPart(raw, |raw| - |val|, |raw|);
    CleanPart(val, 0, |Truncate(val, n)|);
    assert Truncate(val, n) == val[..|Truncate(val, n)|];
  }

  lemma SetHeaderKeeps(r: Request, h: Header, val: string)
    requires HeadOk(r) && FieldOk(Truncate(val, Limit(h)), Limit(h))
    ensures HeadOk(SetHeader(r, h, val))
  {
    hide FieldOk, Truncate, Atoi, SameIgnoringCase, IsToken, Clean, Limit;
  }

  /** Parsing a clean header line keeps a request well-formed. */
  lemma HeadLineKeeps(r: Request, line: string)
    requires HeadOk(r) && Clean(line) && ParseHead(r, line).Some?
    ensures HeadOk(ParseHead(r, line).value)
  {
    var i := IndexOf(line, ':').value;
    var h := HeaderOf(line[..i]);
    ValueOk(line, i, Limit(h));
    hide HeadOk, SetHeader, FieldOk, HeaderOf, Truncate;
    SetHeaderKeeps(r, h, TrimLeft(line[i + 1..]));
  }

  /** The words that `sscanf` finds are tokens and as clean as the line. */
  lemma WordOk(s: string)
    requires Clean(s)
    ensures var a := SkipSpace(s);
            var w, rest := a[..TokenLen(a)], a[TokenLen(a)..];
            Clean(w) && Clean(rest) && (w == "" || IsToken(w))
  {
    var a := SkipSpace(s);
    SkipSpaceSuffix(s);
    CleanPart(s, |s| - |a|, |s|);
    CleanPart(a, 0, TokenLen(a));
    CleanPart(a, TokenLen(a), |a|);
  }

  lemma RequestLineKeeps(line: string)
    requires Clean(line) && ParseRequestLine(EMPTY, line).Some?
    ensures var r := ParseRequestLine(EMPTY, line).value;
            HeadOk(r) && r.major == 1 && r.verb != "" && r.path != "" && !r.proxy && r.text == map[]
  {
    var a := SkipSpace(line);
    WordOk(line);
    WordOk(a[TokenLen(a)..]);
    hide Clean, IsToken, SkipSpace, TokenLen, ScanInt;
  }

  // ---- print then parse

  function SentPath(r: Request): string { if r.proxy then ForwardPath(r.path) else r.path }

  /** The path that is sent is "/" or the end of the target. */
  lemma ForwardPathSuffix(path: string) returns (k: nat)
    ensures k <= |path| && (ForwardPath(path) == "/" || ForwardPath(path) == path[k..])
  {
    hide FindSub, IndexOf;
    var at := FindSub(path, SCHEME_END);
    var skip := if at.Some? then at.value + 3 else 0;
    var from := if at.Some? then path[skip..] else path;
    var j := IndexOf(from, '/');
    k := if j.Some? then skip + j.value else |path|;
    assert ForwardPath(path) == if j.Some? then from[j.value..] else "/";
    if j.Some? {
      assert from[j.value..] == path[k..];
    }
  }

  lemma SuffixOk(s: string, k: nat)
    requires k <= |s| && IsToken(s) && Clean(s) && s[k..] != ""
    ensures IsToken(s[k..]) && Clean(s[k..])
  {
  }

  lemma ForwardPathOk(path: string)
    requires IsToken(path) && Clean(path)
    ensures IsToken(ForwardPath(path)) && Clean(ForwardPath(path))
  {
    var k := ForwardPathSuffix(path);
    assert IsToken("/") && Clean("/");
    hide ForwardPath, IsToken, Clean;
    if ForwardPath(path) != "/" {
      SuffixOk(path, k);
    }
  }

  lemma SkipOneSpace(s: string)
    requires s != "" && !IsSpace(s[0])
    ensures SkipSpace(" " + s) == s
  {
    assert (" " + s)[1..] == s;
    assert SkipSpace(s) == s;
  }

  lemma NumbersRoundTrip(r: Request, major: int, minor: int)
    ensures ScanNumbers(r, IntText(major) + ("." + IntText(minor))) == r.(major := major, minor := minor)
  {
    var m := IntText(minor);
    var d := "." + m;
    IntRoundTrip(major, d);
    IntRoundTrip(minor, "");
    Parts(".", m);
    hide ScanInt, IntText;
    assert m + "" == m;
  }

  lemma VersionRoundTrip(r: Request, major: int, minor: int)
    ensures ScanVersion(r, "HTTP/" + (IntText(major) + ("." + IntText(minor)))) == r.(major := major, minor := minor)
  {
    NumbersRoundTrip(r, major, minor);
    Parts("HTTP/", IntText(major) + ("." + IntText(minor)));
    assert |"HTTP/"| == 5;
    hide ScanNumbers, IntText, StartsWith;
  }

  /** Two words and something that is not space scan as what they are. */
  lemma WordsScan(r: Request, verb: string, path: string, version: string)
    requires IsToken(verb) && IsToken(path) && version != "" && !IsSpace(version[0])
    ensures ScanRequestLine(r, verb + (" " + (path + (" " + version)))) ==
            ScanVersion(r.(verb := verb, path := path), version)
  {
    var target := path + (" " + version);
    var line := verb + (" " + target);
    TokenThenSpace(verb, " " + target);
    TokenThenSpace(path, " " + version);
    TokenStart(path);
    assert target[0] == path[0];
    SkipOneSpace(target);
    SkipOneSpace(version);
    hide SkipSpace, TokenLen, IsToken, ScanVersion;
    assert line[|verb|..] == " " + target && line[..|verb|] == verb;
    assert target[|path|..] == " " + version && target[..|path|] == path;
  }

  lemma RequestLineRoundTrip(r: Request)
    requires IsToken(r.verb) && IsToken(SentPath(r))
    ensures ScanRequestLine(EMPTY, RequestLine(r)) ==
            EMPTY.(verb := r.verb, path := SentPath(r), major := r.major, minor := r.minor)
  {
    hide IsToken, ScanRequestLine, IntText, ForwardPath, ScanVersion;
    var version := "HTTP/" + (IntText(r.major) + ("." + IntText(r.minor)));
    assert version[0] == 'H';
    WordsScan(EMPTY, r.verb, SentPath(r), version);
    VersionRoundTrip(EMPTY.(verb := r.verb, path := SentPath(r)), r.major, r.minor);
    assert RequestLine(r) == r.verb + (" " + (SentPath(r) + (" " + version)));
  }

  /** A word and the blanks after it. */
  lemma WordThen(word: string, b: string, s: string)
    requires IsToken(word) && Blank(b) && b != "" && (s == "" || !IsSpace(s[0]))
    ensures var t := word + (b + s);
            TokenLen(t) == |word| && t[..|word|] == word && SkipSpace(t[|word|..]) == s && t[0] == word[0]
  {
    Parts(word, b + s);
    Parts(b, s);
    TokenThenSpace(word, b + s);
    SkipBlank(b, s);
    hide SkipSpace, TokenLen, IsToken;
  }

  /** The words of a line, whatever blanks stand between them. */
  lemma LineScans(blanks: seq<string>, verb: string, path: string, version: string)
    requires |blanks| == 3 && (forall i :: 0 <= i < 3 ==> Blank(blanks[i])) && blanks[1] != "" && blanks[2] != ""
    requires IsToken(verb) && IsToken(path) && (version == "" || !IsSpace(version[0]))
    ensures ScanRequestLine(EMPTY, blanks[0] + (verb + (blanks[1] + (path + (blanks[2] + version))))) ==
            ScanVersion(EMPTY.(verb := verb, path := path), version)
  {
    var target := path + (blanks[2] + version);
    TokenStart(verb);
    TokenStart(path);
    WordThen(path, blanks[2], version);
    WordThen(verb, blanks[1], target);
    SkipBlank(blanks[0], verb + (blanks[1] + target));
    hide SkipSpace, TokenLen, IsToken, ScanVersion, Blank;
  }

  /** A request line of two words and a version, between blanks of any kind, is accepted exactly when
      the major version is 1; keep-alive is the default for minor version 1 alone. */
  lemma RequestLineExactly(blanks: seq<string>, verb: string, path: string, major: int, minor: int, rest: string)
    requires |blanks| == 3 && (forall i :: 0 <= i < 3 ==> Blank(blanks[i])) && blanks[1] != "" && blanks[2] != ""
    requires IsToken(verb) && IsToken(path) && (rest == "" || !IsDigit(rest[0]))
    ensures var version := "HTTP/" + (IntText(major) + ("." + (IntText(minor) + rest)));
            ParseRequestLine(EMPTY, blanks[0] + (verb + (blanks[1] + (path + (blanks[2] + version))))) ==
            if major != 1 then None
            else Some(EMPTY.(verb := verb, path := path, major := 1, minor := minor, keepalive := minor == 1))
  {
    var numbers := IntText(major) + ("." + (IntText(minor) + rest));
    var version := "HTTP/" + numbers;
    Parts("HTTP/", numbers);
    Parts(".", IntText(minor) + rest);
    IntRoundTrip(major, "." + (IntText(minor) + rest));
    IntRoundTrip(minor, rest);
    LineScans(blanks, verb, path, version);
    var r := EMPTY.(verb := verb, path := path);
    hide ScanInt, IntText, ScanRequestLine, Blank, IsToken;
    assert |"HTTP/"| == 5;
    assert ScanVersion(r, version) == ScanNumbers(r, numbers);
    assert ScanNumbers(r, numbers) == r.(major := major, minor := minor);
  }

  /** Without "HTTP/" after the two words the line is refused. */
  lemma NoVersionRefused(blanks: seq<string>, verb: string, path: string, version: string)
    requires |blanks| == 3 && (forall i :: 0 <= i < 3 ==> Blank(blanks[i])) && blanks[1] != "" && blanks[2] != ""
    requires IsToken(verb) && IsToken(path) && (version == "" || !IsSpace(version[0])) && !("HTTP/" <= version)
    ensures ParseRequestLine(EMPTY, blanks[0] + (verb + (blanks[1] + (path + (blanks[2] + version))))).None?
  {
    LineScans(blanks, verb, path, version);
    hide ScanRequestLine, Blank, IsToken;
  }

  lemma TokenStart(t: string)
    requires IsToken(t)
    ensures t != "" && !IsSpace(t[0])
  {
  }

  lemma SameCaseShape(a: string, b: string)
    requires SameIgnoringCase(a, b)
    ensures |a| == |b| && (a != "" ==> LowerChar(a[0]) == LowerChar(b[0]))
  {
    assert a != "" ==> Lower(a)[0] == LowerChar(a[0]) && Lower(b)[0] == LowerChar(b[0]);
  }

  lemma KeysDiffer(h: Header, k: Header)
    requires h != k
    ensures !SameIgnoringCase(KeyName(h), KeyName(k))
  {
    if SameIgnoringCase(KeyName(h), KeyName(k)) {
      SameCaseShape(KeyName(h), KeyName(k));
    }
  }

  /** A key names a header exactly when it is that header's name, letter case ignored. */
  lemma HeaderOfExactly(key: string, h: Header)
    requires !h.Unknown?
    ensures HeaderOf(key) == h <==> SameIgnoringCase(key, KeyName(h))
  {
    hide KeyName, Lower;
    if SameIgnoringCase(key, KeyName(h)) {
      forall k | k != h ensures !SameIgnoringCase(key, KeyName(k)) {
        KeysDiffer(h, k);
      }
    }
    hide SameIgnoringCase;
  }

  lemma KeyRoundTrip(h: Header)
    ensures HeaderOf(KeyName(h)) == h
  {
    hide KeyName, HeaderOf;
    if h.Unknown? {
      forall k: Header | !k.Unknown? ensures HeaderOf(KeyName(h)) != k {
        KeysDiffer(h, k);
        HeaderOfExactly(KeyName(h), k);
      }
    } else {
      HeaderOfExactly(KeyName(h), h);
    }
  }

  lemma LongKeyLacks(h: Header, c: char)
    requires c == ':' || c < ' '
    requires h in {ContentLength, ContentType, ProxyConnection, TransferEncoding, CacheControl}
    ensures c !in KeyName(h)
  {
  }

  lemma KeyLacks(h: Header, c: char)
    requires c == ':' || c < ' '
    ensures c !in KeyName(h)
  {
    if h in {ContentLength, ContentType, ProxyConnection, TransferEncoding, CacheControl} {
      LongKeyLacks(h, c);
    }
  }

  lemma KeyClean(h: Header)
    ensures ':' !in KeyName(h) && Clean(KeyName(h))
  {
    KeyLacks(h, ':');
    KeyLacks(h, '\r');
    KeyLacks(h, '\n');
    KeyLacks(h, '\0');
    hide KeyName;
  }

  /** A printed header line parses as the header it was printed for. */
  lemma HeaderLineRoundTrip(q: Request, h: Header, val: string)
    requires val == "" || val[0] != ' '
    ensures ParseHead(q, KeyName(h) + ": " + val) == Some(SetHeader(q, h, val))
  {
    var key := KeyName(h);
    var line := key + ": " + val;
    KeyClean(h);
    KeyRoundTrip(h);
    ColonAfter(key, " " + val);
    hide KeyName, HeaderOf, SetHeader;
    Assoc(key, ": ", val);
    Assoc(":", " ", val);
    Assoc(key, ":", " " + val);
    assert ":" + " " == ": ";
    Parts(key, ":" + (" " + val));
    Parts(key + ":", " " + val);
    Parts(" ", val);
    assert TrimLeft(" " + val) == TrimLeft(val) == val;
    hide TrimLeft, IndexOf;
  }

  lemma ColonAfter(key: string, rest: string)
    requires ':' !in key
    ensures IndexOf(key + (":" + rest), ':') == Some(|key|)
  {
    var s := key + (":" + rest);
    assert s[|key|] == ':';
    assert forall x :: 0 <= x < |key| ==> s[x] == key[x];
    assert forall x :: 0 <= x < |s| ==> s[x] in s;
    var j := IndexOf(s, ':');
    assert forall x :: 0 <= x < j.value ==> s[..j.value][x] == s[x] && s[x] != ':';
  }

  lemma LineRead(line: string, rest: string)
    requires Clean(line)
    ensures TakeLine(line + CRLF + rest) == Some((line + CRLF, rest))
    ensures Strip(line + CRLF) == line
    ensures line != "" ==> line + CRLF != CRLF
  {
    var s := line + CRLF + rest;
    var n := |line| + 1;
    assert s[n] == '\n' && s[|line|] == '\r';
    assert forall x :: 0 <= x < |line| ==> s[x] == line[x];
    assert forall x :: 0 <= x < |s| ==> s[x] in s;
    var j := IndexOf(s, '\n');
    assert forall x :: 0 <= x < j.value ==> s[..j.value][x] == s[x] && s[x] != '\n';
    assert j == Some(n);
    assert s[..n + 1] == line + CRLF && s[n + 1..] == rest;
    assert (line + CRLF)[..|line|] == line;
  }

  function WithOneText(q: Request, r: Request, h: Header): Request
  {
    if TextOf(r, h) == "" then q else q.(text := q.text[h := TextOf(r, h)])
  }

  /** The header lines of `hs`, read by a request that starts as `q`. */
  function WithText(q: Request, r: Request, hs: seq<Header>): Request
    decreases |hs|
  {
    if hs == [] then q
    else WithText(WithOneText(q, r, hs[0]), r, hs[1..])
  }

  lemma ReadOneHeader(q: Request, h: Header, val: string, rest: string)
    requires val != "" && val[0] != ' ' && Clean(val)
    ensures ReadHeaders(q, Terminated(HeaderLine(h, val)) + rest) == ReadHeaders(SetHeader(q, h, val), rest)
  {
    var line := KeyName(h) + ": " + val;
    KeyClean(h);
    HeaderLineRoundTrip(q, h, val);
    LineRead(line, rest);
    assert Terminated([line]) == line + CRLF + Terminated([]) == line + CRLF;
    hide KeyName, SetHeader, ParseHead, TakeLine, Strip;
    assert line != "";
  }

  lemma {:induction false} TerminatedSplit(a: seq<string>, b: seq<string>)
    ensures Terminated(a + b) == Terminated(a) + Terminated(b)
  {
    if a == [] {
      assert a + b == b;
    } else {
      assert (a + b)[1..] == a[1..] + b;
      TerminatedSplit(a[1..], b);
    }
  }

  lemma TextLinesStep(r: Request, hs: seq<Header>, rest: string)
    requires hs != []
    ensures Terminated(TextLines(r, hs)) + rest ==
            Terminated(HeaderLine(hs[0], TextOf(r, hs[0]))) + (Terminated(TextLines(r, hs[1..])) + rest)
  {
    var a, b := HeaderLine(hs[0], TextOf(r, hs[0])), TextLines(r, hs[1..]);
    assert TextLines(r, hs) == a + b;
    hide *;
    TerminatedSplit(a, b);
    Assoc(Terminated(a), Terminated(b), rest);
  }

  lemma TextOk(r: Request, h: Header)
    requires HeadOk(r) && TextOf(r, h) != ""
    ensures TextOf(r, h)[0] != ' ' && Clean(TextOf(r, h)) && Truncate(TextOf(r, h), Limit(h)) == TextOf(r, h)
  {
    assert FieldOk(r.text[h], Limit(h));
  }

  /** One text header, present or not. */
  lemma ReadOneText(q: Request, r: Request, h: Header, rest: string)
    requires HeadOk(r) && IsText(h)
    ensures ReadHeaders(q, Terminated(HeaderLine(h, TextOf(r, h))) + rest) == ReadHeaders(WithOneText(q, r, h), rest)
  {
    var val := TextOf(r, h);
    if val == "" {
      assert Terminated(HeaderLine(h, val)) + rest == rest;
    } else {
      TextOk(r, h);
      ReadOneHeader(q, h, val, rest);
      hide ReadHeaders, Terminated, HeaderLine;
    }
  }

  lemma {:induction false} ReadTextLines(q: Request, r: Request, hs: seq<Header>, rest: string)
    requires HeadOk(r) && forall i :: 0 <= i < |hs| ==> IsText(hs[i])
    ensures ReadHeaders(q, Terminated(TextLines(r, hs)) + rest) == ReadHeaders(WithText(q, r, hs), rest)
    decreases |hs|
  {
    if hs == [] {
      assert Terminated(TextLines(r, hs)) + rest == rest;
    } else {
      assert WithText(q, r, hs) == WithText(WithOneText(q, r, hs[0]), r, hs[1..]);
      hide *;
      TextLinesStep(r, hs, rest);
      ReadOneText(q, r, hs[0], Terminated(TextLines(r, hs[1..])) + rest);
      ReadTextLines(WithOneText(q, r, hs[0]), r, hs[1..], rest);
    }
  }

  /** The request after the lines in front of the text headers. */
  function ReparsedStart(r: Request): Request
  {
    EMPTY.(verb := r.verb, path := SentPath(r), major := r.major, minor := r.minor, keepalive := r.keepalive,
           contentLength := Max(r.contentLength, 0), text := if r.proxy then map[Host := r.backendHost] else map[])
  }

  /** What a server that parses the printed head gets. */
  function Reparsed(r: Request): Request { WithText(ReparsedStart(r), r, Forwarded(r.proxy)) }

  /** A request that can be passed on. */
  predicate Printable(r: Request)
  {
    && HeadOk(r) && r.verb != "" && r.path != "" && r.major == 1
    && (r.proxy ==> r.backendHost != "" && FieldOk(r.backendHost, FIELD))
  }

  lemma LengthLineRead(q: Request, r: Request, rest: string)
    requires q.contentLength == 0
    ensures ReadHeaders(q, Terminated(HeaderLine(ContentLength, LengthText(r))) + rest) ==
            ReadHeaders(q.(contentLength := Max(r.contentLength, 0)), rest)
  {
    if r.contentLength > 0 {
      IntRoundTrip(r.contentLength, "");
      assert IntText(r.contentLength) + "" == IntText(r.contentLength);
      IntTextClean(r.contentLength);
      ReadOneHeader(q, ContentLength, IntText(r.contentLength), rest);
    } else {
      assert Terminated(HeaderLine(ContentLength, LengthText(r))) + rest == rest;
      assert q.(contentLength := 0) == q;
    }
  }

  lemma IntTextClean(n: int)
    ensures Clean(IntText(n)) && IntText(n) != "" && IntText(n)[0] != ' '
  {
  }

  lemma KeepaliveLineRead(q: Request, r: Request, rest: string)
    requires r.keepalive ==> q.keepalive
    ensures ReadHeaders(q, Terminated(HeaderLine(Connection, KeepaliveText(r))) + rest) ==
            ReadHeaders(q.(keepalive := r.keepalive), rest)
  {
    var val := KeepaliveText(r);
    assert Clean(val) && val != "" && val[0] != ' ';
    ReadOneHeader(q, Connection, val, rest);
    if r.keepalive {
      assert |Lower("keep-alive")| != |Lower("close")|;
      assert q.(keepalive := true) == q;
    } else {
      assert SameIgnoringCase("close", "close");
    }
  }

  lemma HostLineRead(q: Request, r: Request, rest: string)
    requires r.proxy ==> r.backendHost != "" && FieldOk(r.backendHost, FIELD)
    requires q.text == map[]
    ensures ReadHeaders(q, Terminated(if r.proxy then HeaderLine(Host, r.backendHost) else []) + rest) ==
            ReadHeaders(q.(text := if r.proxy then map[Host := r.backendHost] else map[]), rest)
  {
    if r.proxy {
      ReadOneHeader(q, Host, r.backendHost, rest);
      assert map[][Host := r.backendHost] == map[Host := r.backendHost];
    } else {
      assert Terminated([]) + rest == rest;
      assert q.(text := map[]) == q;
    }
  }

  lemma EmptyLineEnds(q: Request, rest: string)
    ensures ReadHeaders(q, CRLF + rest) == Some((q, rest))
  {
    assert Clean("") && "" + CRLF + rest == CRLF + rest && "" + CRLF == CRLF;
    LineRead("", rest);
  }

  lemma HeadersRead(q: Request, r: Request, rest: string)
    requires Printable(r) && q.contentLength == 0 && q.text == map[] && q.keepalive == (r.minor == 1)
    ensures ReadHeaders(q, Terminated(HeaderLines(r)) + (CRLF + rest)) ==
            Some((WithText(q.(keepalive := r.keepalive, contentLength := Max(r.contentLength, 0),
                              text := if r.proxy then map[Host := r.backendHost] else map[]),
                           r, Forwarded(r.proxy)), rest))
  {
    var l1 := if r.proxy then HeaderLine(Host, r.backendHost) else [];
    var l2, l3 := HeaderLine(Connection, KeepaliveText(r)), HeaderLine(ContentLength, LengthText(r));
    var l4 := TextLines(r, Forwarded(r.proxy));
    var end := CRLF + rest;
    var text := if r.proxy then map[Host := r.backendHost] else map[];
    var length := Max(r.contentLength, 0);
    assert HeaderLines(r) == l1 + l2 + l3 + l4;
    assert HeadOk(r) && (r.keepalive ==> r.minor == 1);
    assert r.proxy ==> r.backendHost != "" && FieldOk(r.backendHost, FIELD);
    ForwardedText(r.proxy);
    hide *;
    FourParts(l1, l2, l3, l4, end);
    var s4 := Terminated(l4) + end;
    var s3 := Terminated(l3) + s4;
    var s2 := Terminated(l2) + s3;
    HostLineRead(q, r, s2);
    KeepaliveLineRead(q.(text := text), r, s3);
    LengthLineRead(q.(text := text, keepalive := r.keepalive), r, s4);
    var q3 := q.(text := text, keepalive := r.keepalive, contentLength := length);
    ReadTextLines(q3, r, Forwarded(r.proxy), end);
    EmptyLineEnds(WithText(q3, r, Forwarded(r.proxy)), rest);
  }

  lemma ForwardedText(proxy: bool)
    ensures forall i :: 0 <= i < |Forwarded(proxy)| ==> IsText(Forwarded(proxy)[i])
  {
  }

  lemma FourParts(a: seq<string>, b: seq<string>, c: seq<string>, d: seq<string>, end: string)
    ensures Terminated(a + b + c + d) + end ==
            Terminated(a) + (Terminated(b) + (Terminated(c) + (Terminated(d) + end)))
  {
    TerminatedSplit(a + b + c, d);
    TerminatedSplit(a + b, c);
    TerminatedSplit(a, b);
    hide Terminated;
  }

  lemma DumpParts(r: Request, rest: string)
    ensures DumpHead(r) + rest == RequestLine(r) + CRLF + (Terminated(HeaderLines(r)) + (CRLF + rest))
  {
    hide RequestLine, HeaderLines, Terminated;
  }

  lemma RequestLineParses(r: Request)
    requires Printable(r)
    ensures Clean(RequestLine(r))
    ensures ParseRequestLine(EMPTY, RequestLine(r)) ==
            Some(EMPTY.(verb := r.verb, path := SentPath(r), major := r.major, minor := r.minor, keepalive := r.minor == 1))
  {
    assert IsToken(r.verb) && Clean(r.verb) && IsToken(r.path) && Clean(r.path);
    ForwardPathOk(r.path);
    hide ForwardPath, RequestLine, ScanRequestLine, IsToken, Clean, HeadOk;
    RequestLineRoundTrip(r);
    RequestLineClean(r);
  }

  /** A clean first line is parsed, and the headers are read from what follows it. */
  lemma ReadHeadSplits(line: string, after: string)
    requires Clean(line)
    ensures ReadHead(line + CRLF + after) ==
            match ParseRequestLine(EMPTY, line) case None => None case Some(q) => ReadHeaders(q, after)
  {
    LineRead(line, after);
    hide TakeLine, Strip, ParseRequestLine, ReadHeaders, Clean;
    assert |line + CRLF| >= 2;
  }

  /** The printed head, whatever follows it, reads back as the request that was printed: same
      method, version, keep-alive, length and forwarded fields, the path in origin form and the
      backend as Host. */
  lemma PrintThenParse(r: Request, rest: string)
    requires Printable(r)
    ensures ReadHead(DumpHead(r) + rest) == Some((Reparsed(r), rest))
  {
    DumpParts(r, rest);
    RequestLineParses(r);
    ReadHeadSplits(RequestLine(r), Terminated(HeaderLines(r)) + (CRLF + rest));
    var q := EMPTY.(verb := r.verb, path := SentPath(r), major := r.major, minor := r.minor, keepalive := r.minor == 1);
    HeadersRead(q, r, rest);
    hide DumpHead, ReadHead, RequestLine, HeaderLines, Terminated, ReadHeaders, HeadOk, SentPath, WithText, ParseRequestLine;
  }

  lemma RequestLineClean(r: Request)
    requires IsToken(r.verb) && Clean(r.verb) && IsToken(SentPath(r)) && Clean(SentPath(r))
    ensures Clean(RequestLine(r))
  {
    IntTextClean(r.major);
    IntTextClean(r.minor);
    hide IntText, IsToken, ForwardPath;
  }

  lemma {:induction false} WithTextKeeps(q: Request, r: Request, hs: seq<Header>)
    ensures var q' := WithText(q, r, hs);
            && q'.(text := q.text) == q
            && forall h :: TextOf(q', h) == if h in hs && TextOf(r, h) != "" then TextOf(r, h) else TextOf(q, h)
    decreases |hs|
  {
    if hs != [] {
      WithTextKeeps(WithOneText(q, r, hs[0]), r, hs[1..]);
      assert forall h :: h in hs <==> h == hs[0] || h in hs[1..];
    }
  }

  lemma ForwardedAll(h: Header)
    ensures h in Forwarded(true) <==> IsText(h) && h != Host
  {
    var hs := Forwarded(true);
    assert hs[0] == ContentType && hs[1] == UserAgent && hs[2] == Accept && hs[3] == TransferEncoding;
    assert hs[4] == Expectation && hs[5] == CacheControl && hs[6] == Origin && hs[7] == Pragma;
  }

  /** A text field comes back when it is forwarded, and is otherwise the Host or empty. */
  lemma ReparsedText(r: Request, h: Header)
    ensures TextOf(Reparsed(r), h) ==
            if h in Forwarded(r.proxy) && TextOf(r, h) != "" then TextOf(r, h)
            else if r.proxy && h == Host then r.backendHost else ""
  {
    WithTextKeeps(ReparsedStart(r), r, Forwarded(r.proxy));
    hide WithText, Forwarded, SentPath;
  }

  lemma ReparsedRest(r: Request)
    ensures var p := Reparsed(r); p.(text := map[]) == ReparsedStart(r).(text := map[])
  {
    WithTextKeeps(ReparsedStart(r), r, Forwarded(r.proxy));
    hide WithText, Forwarded, ReparsedStart, TextOf;
  }

  /** Field by field: what comes back of a proxied request. The content length comes back exactly
      when it is not negative. */
  lemma ReparsedFields(r: Request)
    requires r.proxy && r.backendHost != ""
    ensures var p := Reparsed(r);
            && p.verb == r.verb && p.major == r.major && p.minor == r.minor && p.keepalive == r.keepalive
            && p.path == ForwardPath(r.path) && p.path[0] == '/'
            && (p.contentLength == r.contentLength <==> r.contentLength >= 0)
            && TextOf(p, Host) == r.backendHost
            && forall h :: IsText(h) && h != Host ==> TextOf(p, h) == TextOf(r, h)
  {
    ReparsedRest(r);
    OriginForm(r.path);
    hide ForwardPath, Reparsed, TextOf, Forwarded;
    ForwardedAll(Host);
    ReparsedText(r, Host);
    forall h | IsText(h) && h != Host ensures TextOf(Reparsed(r), h) == TextOf(r, h) {
      ForwardedAll(h);
      ReparsedText(r, h);
    }
  }

  /** What comes back of a request that is printed without being passed on: the target as it is, no Host,
      and no text but the content type. */
  lemma ReparsedOwnFields(r: Request)
    requires !r.proxy
    ensures var p := Reparsed(r);
            && p.verb == r.verb && p.major == r.major && p.minor == r.minor && p.keepalive == r.keepalive
            && p.path == r.path && (p.contentLength == r.contentLength <==> r.contentLength >= 0)
            && TextOf(p, ContentType) == TextOf(r, ContentType)
            && forall h :: h != ContentType ==> TextOf(p, h) == ""
  {
    ReparsedRest(r);
    hide Reparsed, TextOf;
    forall h: Header ensures TextOf(Reparsed(r), h) == if h.ContentType? then TextOf(r, h) else "" {
      ReparsedText(r, h);
    }
  }

  lemma OriginForm(path: string)
    ensures ForwardPath(path)[0] == '/'
  {
  }

  // ---- requests reached by parsing

  function ParseLines(r: Request, lines: seq<string>): Option<Request>
    decreases |lines|
  {
    if lines == [] then Some(r)
    else
      match ParseHead(r, lines[0])
      case None => None
      case Some(r') => ParseLines(r', lines[1..])
  }

  /** `on_head_end`: the host without its port, and the backend's port, cut to the field. */
  function HostName(host: string): string
  {
    match IndexOf(host, ':')
    case None => host
    case Some(i) => host[..i]
  }

  function BackendHost(host: string, port: int): string
  {
    Truncate(HostName(host) + ":" + IntText(port), FIELD)
  }

  lemma BackendHostOk(host: string, port: int)
    requires FieldOk(host, FIELD)
    ensures BackendHost(host, port) != "" && FieldOk(BackendHost(host, port), FIELD)
  {
    var full := HostName(host) + ":" + IntText(port);
    IntTextClean(port);
    assert Clean(HostName(host)) by { CleanPart(host, 0, |HostName(host)|); assert HostName(host) == host[..|HostName(host)|]; }
    assert Clean(full);
    CleanPart(full, 0, |Truncate(full, FIELD)|);
    assert full[0] != ' ';
  }

  /** A header line leaves the request line, the body and the proxy's own fields alone. */
  lemma ParseHeadFrame(r: Request, line: string)
    requires ParseHead(r, line).Some?
    ensures ParseHead(r, line).value ==
            r.(text := ParseHead(r, line).value.text, contentLength := ParseHead(r, line).value.contentLength,
               keepalive := ParseHead(r, line).value.keepalive)
  {
    hide HeaderOf, TrimLeft, Atoi, SameIgnoringCase, Truncate, IndexOf;
  }

  lemma {:induction false} ParseLinesKeep(r: Request, lines: seq<string>)
    requires HeadOk(r) && r.verb != "" && r.path != "" && r.major == 1
    requires (forall i :: 0 <= i < |lines| ==> Clean(lines[i])) && ParseLines(r, lines).Some?
    ensures var r' := ParseLines(r, lines).value;
            HeadOk(r') && r'.verb != "" && r'.path != "" && r'.major == 1
    decreases |lines|
  {
    hide HeadOk, ParseHead, Clean;
    if lines != [] {
      HeadLineKeeps(r, lines[0]);
      ParseHeadFrame(r, lines[0]);
      ParseLinesKeep(ParseHead(r, lines[0]).value, lines[1..]);
    }
  }

  /** Every request parsed from clean lines and then turned into a proxied one can be printed and
      read back. */
  lemma ParsedRequestRoundTrips(first: string, lines: seq<string>, port: int, rest: string)
    requires Clean(first) && (forall i :: 0 <= i < |lines| ==> Clean(lines[i]))
    requires ParseRequestLine(EMPTY, first).Some?
    requires ParseLines(ParseRequestLine(EMPTY, first).value, lines).Some?
    ensures var parsed := ParseLines(ParseRequestLine(EMPTY, first).value, lines).value;
            var r := parsed.(proxy := true, connected := false, backendHost := BackendHost(TextOf(parsed, Host), port));
            Printable(r) && ReadHead(DumpHead(r) + rest) == Some((Reparsed(r), rest))
  {
    RequestLineKeeps(first);
    ParseLinesKeep(ParseRequestLine(EMPTY, first).value, lines);
    var parsed := ParseLines(ParseRequestLine(EMPTY, first).value, lines).value;
    BackendHostOk(TextOf(parsed, Host), port);
    var r := parsed.(proxy := true, connected := false, backendHost := BackendHost(TextOf(parsed, Host), port));
    PrintThenParse(r, rest);
  }

  // ---- what a header line sets

  /** `line` is a key, a colon, blanks and a value that starts with none. */
  predicate KeyValue(line: string, key: string, val: string)
  {
    && ':' !in key && |key| + 1 + |val| <= |line|
    && line[..|key| + 1] == key + ":" && line[|line| - |val|..] == val
    && (forall i :: |key| < i < |line| - |val| ==> line[i] == ' ')
    && (val == "" || val[0] != ' ')
  }

  lemma {:induction false} TrimLeftExactly(s: string, val: string)
    requires |val| <= |s| && s[|s| - |val|..] == val && (val == "" || val[0] != ' ')
    requires forall i :: 0 <= i < |s| - |val| ==> s[i] == ' '
    ensures TrimLeft(s) == val
    decreases |s|
  {
    if |s| == |val| {
      assert s == val;
    } else {
      assert s[1..][|s| - 1 - |val|..] == val;
      TrimLeftExactly(s[1..], val);
    }
  }

  lemma KeyIsFirst(line: string, key: string, val: string)
    requires KeyValue(line, key, val)
    ensures key <= line && |key| < |line| && line[|key|] == ':' && forall i :: 0 <= i < |key| ==> line[i] != ':'
  {
    var start := line[..|key| + 1];
    assert start[|key|] == ':' && start[..|key|] == key;
    assert forall i :: 0 <= i < |key| ==> line[i] == key[i];
  }

  lemma KeyValueColon(line: string, key: string, val: string)
    requires KeyValue(line, key, val)
    ensures IndexOf(line, ':') == Some(|key|) && line[..|key|] == key
  {
    KeyIsFirst(line, key, val);
    hide KeyValue;
    var rest := line[|key| + 1..];
    assert line == key + (":" + rest);
    ColonAfter(key, rest);
    hide IndexOf;
  }

  lemma KeyValueTrims(line: string, key: string, val: string)
    requires KeyValue(line, key, val)
    ensures |key| < |line| && TrimLeft(line[|key| + 1..]) == val
  {
    var n := |key|;
    var rest := line[n + 1..];
    assert rest[|rest| - |val|..] == line[|line| - |val|..];
    forall i | 0 <= i < |rest| - |val| ensures rest[i] == ' ' {
      assert rest[i] == line[n + 1 + i];
    }
    TrimLeftExactly(rest, val);
  }

  lemma KeyValueParses(r: Request, line: string, key: string, val: string)
    requires KeyValue(line, key, val)
    ensures ParseHead(r, line) == Some(SetHeader(r, HeaderOf(key), val))
  {
    KeyValueColon(line, key, val);
    KeyValueTrims(line, key, val);
    hide KeyValue, SetHeader, HeaderOf, TrimLeft, IndexOf;
  }

  /** A line is accepted exactly when it has a colon; then it splits in one way. */
  lemma KeyValueExists(r: Request, line: string) returns (key: string, val: string)
    ensures ParseHead(r, line).Some? <==> ':' in line
    ensures ':' in line ==> KeyValue(line, key, val)
  {
    key, val := "", "";
    hide SetHeader, HeaderOf;
    if ':' in line {
      var i := IndexOf(line, ':').value;
      TrimBlanks(line[i + 1..]);
      key, val := line[..i], TrimLeft(line[i + 1..]);
      assert line[..i + 1] == key + ":";
      assert line[|line| - |val|..] == line[i + 1..][|line[i + 1..]| - |val|..];
      forall j | i < j < |line| - |val| ensures line[j] == ' ' {
        assert line[j] == line[i + 1..][j - i - 1];
      }
    }
  }

  lemma {:induction false} TrimBlanks(s: string)
    ensures var val := TrimLeft(s);
            && |val| <= |s| && s[|s| - |val|..] == val && (val == "" || val[0] != ' ')
            && forall i :: 0 <= i < |s| - |val| ==> s[i] == ' '
  {
    TrimLeftSuffix(s);
    if s != "" && s[0] == ' ' {
      TrimBlanks(s[1..]);
      TrimLeftSuffix(s[1..]);
      forall i | 0 < i < |s| - |TrimLeft(s)| ensures s[i] == ' ' {
        assert s[i] == s[1..][i - 1];
      }
    }
  }

  lemma KeyValueOne(line: string, key: string, val: string, key': string, val': string)
    requires KeyValue(line, key, val) && KeyValue(line, key', val')
    ensures key == key' && val == val'
  {
    KeyIsFirst(line, key, val);
    KeyIsFirst(line, key', val');
    assert val != "" ==> line[|line| - |val|] == val[0];
    assert val' != "" ==> line[|line| - |val'|] == val'[0];
  }

  /** The text field `h`: set by its own key, up to the size of the field, and kept by all others. */
  predicate FieldSet(q: Request, r: Request, h: Header, name: string, size: nat, key: string, val: string)
  {
    TextOf(q, h) == if !SameIgnoringCase(key, name) then TextOf(r, h) else if |val| <= size then val else val[..size]
  }

  /** Every text field is set by its own key and by no other. */
  predicate TextFieldsSet(q: Request, r: Request, key: string, val: string)
  {
    && FieldSet(q, r, Host, "Host", 63, key, val)
    && FieldSet(q, r, ContentType, "Content-Type", 127, key, val)
    && FieldSet(q, r, UserAgent, "User-Agent", 63, key, val)
    && FieldSet(q, r, Accept, "Accept", 63, key, val)
    && FieldSet(q, r, TransferEncoding, "Transfer-Encoding", 63, key, val)
    && FieldSet(q, r, Expectation, "Expect", 63, key, val)
    && FieldSet(q, r, CacheControl, "Cache-Control", 63, key, val)
    && FieldSet(q, r, Origin, "Origin", 63, key, val)
    && FieldSet(q, r, Pragma, "Pragma", 63, key, val)
  }

  /** What a line leaves, field by field. */
  lemma ParseHeadFields(r: Request, line: string, key: string, val: string)
    requires KeyValue(line, key, val)
    ensures ParseHead(r, line).Some?
    ensures var q := ParseHead(r, line).value;
            && (q.keepalive <==>
                  r.keepalive && !((SameIgnoringCase(key, "Connection") || SameIgnoringCase(key, "Proxy-Connection"))
                                   && SameIgnoringCase(val, "close")))
            && q.contentLength == (if SameIgnoringCase(key, "Content-Length") then Atoi(val) else r.contentLength)
            && q.(keepalive := r.keepalive, contentLength := r.contentLength, text := r.text) == r
    ensures TextFieldsSet(ParseHead(r, line).value, r, key, val)
  {
    KeyValueParses(r, line, key, val);
    OwnFieldsSet(r, key, val);
    hide ParseHead, KeyValue, SameIgnoringCase, HeaderOf, SetHeader, TextFieldsSet, Atoi;
    TextsSet(r, key, val);
  }

  lemma TextSet(r: Request, g: Header, val: string, h: Header)
    requires IsText(h)
    ensures TextOf(SetHeader(r, g, val), h) == if g == h then Truncate(val, Limit(h)) else TextOf(r, h)
  {
    hide Truncate, Atoi, SameIgnoringCase;
  }

  lemma TextFieldSet(r: Request, h: Header, name: string, size: nat, key: string, val: string)
    requires IsText(h) && KeyName(h) == name && Limit(h) == size
    ensures FieldSet(SetHeader(r, HeaderOf(key), val), r, h, name, size, key, val)
  {
    TextSet(r, HeaderOf(key), val, h);
    HeaderOfExactly(key, h);
    hide KeyName, HeaderOf, SetHeader, SameIgnoringCase, TextOf, Limit;
  }

  lemma TextsSet(r: Request, key: string, val: string)
    ensures TextFieldsSet(SetHeader(r, HeaderOf(key), val), r, key, val)
  {
    KeyNames();
    hide KeyName, SameIgnoringCase, HeaderOf, SetHeader, FieldSet;
    TextFieldSet(r, Host, "Host", 63, key, val);
    TextFieldSet(r, ContentType, "Content-Type", 127, key, val);
    TextFieldSet(r, UserAgent, "User-Agent", 63, key, val);
    TextFieldSet(r, Accept, "Accept", 63, key, val);
    TextFieldSet(r, TransferEncoding, "Transfer-Encoding", 63, key, val);
    TextFieldSet(r, Expectation, "Expect", 63, key, val);
    TextFieldSet(r, CacheControl, "Cache-Control", 63, key, val);
    TextFieldSet(r, Origin, "Origin", 63, key, val);
    TextFieldSet(r, Pragma, "Pragma", 63, key, val);
  }

  lemma OwnFieldsSet(r: Request, key: string, val: string)
    ensures var q := SetHeader(r, HeaderOf(key), val);
            && (q.keepalive <==>
                  r.keepalive && !((SameIgnoringCase(key, "Connection") || SameIgnoringCase(key, "Proxy-Connection"))
                                   && SameIgnoringCase(val, "close")))
            && q.contentLength == (if SameIgnoringCase(key, "Content-Length") then Atoi(val) else r.contentLength)
            && q.(keepalive := r.keepalive, contentLength := r.contentLength, text := r.text) == r
  {
    KeyNames();
    HeaderOfExactly(key, Connection);
    HeaderOfExactly(key, ProxyConnection);
    HeaderOfExactly(key, ContentLength);
    hide KeyName, HeaderOf, SameIgnoringCase, Atoi, Truncate;
  }

  lemma KeyNames()
    ensures KeyName(Host) == "Host" && KeyName(ContentLength) == "Content-Length" && KeyName(ContentType) == "Content-Type"
    ensures KeyName(Connection) == "Connection" && KeyName(ProxyConnection) == "Proxy-Connection"
    ensures KeyName(UserAgent) == "User-Agent" && KeyName(Accept) == "Accept"
    ensures KeyName(TransferEncoding) == "Transfer-Encoding" && KeyName(Expectation) == "Expect"
    ensures KeyName(CacheControl) == "Cache-Control" && KeyName(Origin) == "Origin" && KeyName(Pragma) == "Pragma"
  {
  }

  /** A line that ends the connection after this request. */
  ghost predicate SaysClose(line: string)
  {
    exists key, val ::
      && KeyValue(line, key, val) && SameIgnoringCase(val, "close")
      && (SameIgnoringCase(key, "Connection") || SameIgnoringCase(key, "Proxy-Connection"))
  }

  lemma LineKeepsAlive(r: Request, line: string)
    requires ParseHead(r, line).Some?
    ensures var q := ParseHead(r, line).value;
            q.keepalive == (r.keepalive && !SaysClose(line)) && q.minor == r.minor
  {
    var key, val := KeyValueExists(r, line);
    ParseHeadFields(r, line, key, val);
    hide ParseHead, KeyValue, SameIgnoringCase, FieldSet;
    if SaysClose(line) {
      var key', val' :| KeyValue(line, key', val') && SameIgnoringCase(val', "close")
                        && (SameIgnoringCase(key', "Connection") || SameIgnoringCase(key', "Proxy-Connection"));
      KeyValueOne(line, key, val, key', val');
    }
  }

  /** A parsed request is keep-alive exactly when it is of minor version 1 and no line says close. */
  lemma KeepAliveExactly(first: string, lines: seq<string>)
    requires ParseRequestLine(EMPTY, first).Some?
    requires ParseLines(ParseRequestLine(EMPTY, first).value, lines).Some?
    ensures var r := ParseLines(ParseRequestLine(EMPTY, first).value, lines).value;
            r.keepalive <==> r.minor == 1 && forall k :: 0 <= k < |lines| ==> !SaysClose(lines[k])
  {
    LinesKeepAlive(ParseRequestLine(EMPTY, first).value, lines);
    hide ParseLines, ScanRequestLine, SaysClose;
  }

  lemma {:induction false} LinesKeepAlive(r: Request, lines: seq<string>)
    requires ParseLines(r, lines).Some?
    ensures var q := ParseLines(r, lines).value;
            && q.minor == r.minor
            && (q.keepalive <==> r.keepalive && forall k :: 0 <= k < |lines| ==> !SaysClose(lines[k]))
    decreases |lines|
  {
    hide ParseHead, SaysClose;
    if lines != [] {
      LineKeepsAlive(r, lines[0]);
      LinesKeepAlive(ParseHead(r, lines[0]).value, lines[1..]);
      assert forall k :: 1 <= k < |lines| ==> lines[k] == lines[1..][k - 1];
    }
  }

  // ---- the printed head in its buffer

  const DUMP_BUFFER := 2048
  const METHOD := 31
  const URL := 255

  predicate Int32(n: int) { -0x8000_0000 <= n < 0x8000_0000 }

  /** No field of the struct has overflowed. */
  predicate FitsStruct(r: Request)
  {
    && |r.verb| <= METHOD && |r.path| <= URL && |r.backendHost| <= FIELD
    && Int32(r.minor) && Int32(r.contentLength)
    && forall h :: h in r.text ==> |r.text[h]| <= Limit(h)
  }

  lemma Int32Text(n: int)
    requires Int32(n)
    ensures |IntText(n)| <= 11 && (n >= 0 ==> |IntText(n)| <= 10)
  {
    assert Pow10(10) == 10_000_000_000 by {
      assert Pow10(5) == 100_000;
      assert Pow10(10) == 100_000 * Pow10(5);
    }
    DecimalLength(if n < 0 then -n else n, 10);
  }

  lemma LineLength(h: Header, val: string, rest: seq<string>)
    ensures |Terminated(HeaderLine(h, val) + rest)| <= |KeyName(h)| + |val| + 4 + |Terminated(rest)|
  {
    hide KeyName;
    TerminatedSplit(HeaderLine(h, val), rest);
    if val != "" {
      var line := KeyName(h) + ": " + val;
      assert Terminated([line]) == line + CRLF + Terminated([]);
    }
  }

  function KeyBudget(hs: seq<Header>): nat
    decreases |hs|
  {
    if hs == [] then 0 else |KeyName(hs[0])| + Limit(hs[0]) + 4 + KeyBudget(hs[1..])
  }

  lemma {:induction false} TextLinesLength(r: Request, hs: seq<Header>)
    requires FitsStruct(r)
    ensures |Terminated(TextLines(r, hs))| <= KeyBudget(hs)
    decreases |hs|
  {
    if hs != [] {
      TextLinesLength(r, hs[1..]);
      assert |TextOf(r, hs[0])| <= Limit(hs[0]);
      LineLength(hs[0], TextOf(r, hs[0]), TextLines(r, hs[1..]));
    }
  }

  lemma BudgetOf(h: Header, hs: seq<Header>)
    ensures KeyBudget([h] + hs) == |KeyName(h)| + Limit(h) + 4 + KeyBudget(hs)
  {
    assert ([h] + hs)[1..] == hs;
  }

  lemma TextKeyLengths()
    ensures |KeyName(ContentType)| == 12 && |KeyName(UserAgent)| == 10 && |KeyName(Accept)| == 6
    ensures |KeyName(TransferEncoding)| == 17 && |KeyName(Expectation)| == 6 && |KeyName(CacheControl)| == 13
    ensures |KeyName(Origin)| == 6 && |KeyName(Pragma)| == 6
  {
  }

  lemma LastBudgets()
    ensures KeyBudget([Pragma]) == 73 && KeyBudget([ContentType]) == 143
  {
    TextKeyLengths();
    BudgetOf(Pragma, []);
    BudgetOf(ContentType, []);
    hide KeyName;
  }

  lemma ForwardedBudget(proxy: bool)
    ensures KeyBudget(Forwarded(proxy)) <= 676
  {
    TextKeyLengths();
    LastBudgets();
    TextSplits();
    hide KeyName, KeyBudget;
    BudgetOf(Origin, [Pragma]);
    BudgetOf(CacheControl, [Origin, Pragma]);
    BudgetOf(Expectation, [CacheControl, Origin, Pragma]);
    BudgetOf(TransferEncoding, [Expectation, CacheControl, Origin, Pragma]);
    BudgetOf(Accept, [TransferEncoding, Expectation, CacheControl, Origin, Pragma]);
    BudgetOf(UserAgent, [Accept, TransferEncoding, Expectation, CacheControl, Origin, Pragma]);
    BudgetOf(ContentType, [UserAgent, Accept, TransferEncoding, Expectation, CacheControl, Origin, Pragma]);
    assert [ContentType] + [] == [ContentType];
    hide Forwarded;
  }

  /** The printed text headers, one taken off the front at a time. */
  lemma TextSplits()
    ensures Forwarded(true) == [ContentType] + [UserAgent, Accept, TransferEncoding, Expectation, CacheControl, Origin, Pragma]
    ensures [UserAgent, Accept, TransferEncoding, Expectation, CacheControl, Origin, Pragma] ==
            [UserAgent] + [Accept, TransferEncoding, Expectation, CacheControl, Origin, Pragma]
    ensures [Accept, TransferEncoding, Expectation, CacheControl, Origin, Pragma] ==
            [Accept] + [TransferEncoding, Expectation, CacheControl, Origin, Pragma]
    ensures [TransferEncoding, Expectation, CacheControl, Origin, Pragma] ==
            [TransferEncoding] + [Expectation, CacheControl, Origin, Pragma]
    ensures [Expectation, CacheControl, Origin, Pragma] == [Expectation] + [CacheControl, Origin, Pragma]
    ensures [CacheControl, Origin, Pragma] == [CacheControl] + [Origin, Pragma]
    ensures [Origin, Pragma] == [Origin] + [Pragma]
    ensures [Pragma] == [Pragma] + []
    ensures Forwarded(false) == [ContentType] + []
  {
  }

  lemma ForwardPathShorter(path: string)
    requires path != ""
    ensures |ForwardPath(path)| <= |path|
  {
  }

  lemma RequestLineLength(r: Request)
    requires FitsStruct(r) && r.major == 1 && r.path != ""
    ensures |RequestLine(r)| <= METHOD + URL + 20
  {
    Int32Text(r.minor);
    ForwardPathShorter(r.path);
    hide ForwardPath, FitsStruct, IntText;
    assert |IntText(1)| == 1 by { IntTextOne(); }
  }

  lemma IntTextOne()
    ensures IntText(1) == "1"
  {
  }

  /** The header lines in three parts before the text headers. */
  lemma HeaderParts(r: Request)
    ensures var rest := HeaderLine(Connection, KeepaliveText(r))
                        + (HeaderLine(ContentLength, LengthText(r)) + TextLines(r, Forwarded(r.proxy)));
            HeaderLines(r) == if r.proxy then HeaderLine(Host, r.backendHost) + rest else rest
  {
    hide HeaderLine, TextLines, Forwarded, KeepaliveText, LengthText;
  }

  lemma OwnLinesLength(r: Request)
    requires Int32(r.contentLength)
    ensures |KeyName(Host)| == 4 && |KeyName(Connection)| == 10 && |KeyName(ContentLength)| == 14
    ensures |KeepaliveText(r)| <= 10 && |LengthText(r)| <= 10
  {
    Int32Text(r.contentLength);
    hide IntText;
  }

  lemma HeaderLinesLength(r: Request)
    requires FitsStruct(r)
    ensures |Terminated(HeaderLines(r))| <= 799
  {
    var text := TextLines(r, Forwarded(r.proxy));
    TextLinesLength(r, Forwarded(r.proxy));
    ForwardedBudget(r.proxy);
    var length := HeaderLine(ContentLength, LengthText(r)) + text;
    LineLength(ContentLength, LengthText(r), text);
    var alive := HeaderLine(Connection, KeepaliveText(r)) + length;
    LineLength(Connection, KeepaliveText(r), length);
    LineLength(Host, r.backendHost, alive);
    HeaderParts(r);
    OwnLinesLength(r);
    hide Terminated, TextLines, KeyBudget, HeaderLine, HeaderLines, Forwarded, IntText, KeyName, KeepaliveText, LengthText;
  }

  /** The head fits the stack buffer with room to spare, so nothing of it is cut. */
  lemma DumpFits(r: Request)
    requires FitsStruct(r) && r.major == 1 && r.path != ""
    ensures |DumpHead(r)| <= 1109 < DUMP_BUFFER
  {
    RequestLineLength(r);
    HeaderLinesLength(r);
    hide RequestLine, HeaderLines, Terminated;
  }

  /** `snprintf` at an offset, into the `size` characters that are left. */
  method Snprintf(buf: array<char>, at: nat, size: nat, text: string) returns (n: nat)
    requires at + size <= buf.Length
    modifies buf
    ensures n == |text|
    ensures buf[..at] == old(buf[..at]) && buf[at + size..] == old(buf[at + size..])
    ensures |text| < size ==> buf[at..at + |text|] == text && buf[at + |text|] == '\0'
  {
    n := |text|;
    if size > 0 {
      var k := Min(|text|, size - 1);
      for i := 0 to k
        invariant buf[at..at + i] == text[..i]
        invariant buf[..at] == old(buf[..at]) && buf[at + size..] == old(buf[at + size..])
      {
        buf[at + i] := text[i];
        assert buf[at..at + i + 1] == buf[at..at + i] + [text[i]];
      }
      buf[at + k] := '\0';
      assert |text| < size ==> buf[at..at + k] == text[..k] == text;
    }
  }

  /** `offset += snprintf(buf + offset, len - offset, ...)` when the text fits. */
  method Append(buf: array<char>, offset: nat, text: string) returns (next: nat)
    requires offset + |text| < buf.Length
    modifies buf
    ensures next == offset + |text| && buf[..next] == old(buf[..offset]) + text
  {
    var n := Snprintf(buf, offset, buf.Length - offset, text);
    next := offset + n;
    assert buf[..next] == buf[..offset] + buf[offset..next];
  }

  /** Prints one header when it has a value. `whole` is what the buffer is to hold in the end. */
  method PrintHeader(buf: array<char>, offset: nat, h: Header, val: string, ghost whole: string, ghost more: seq<string>)
    returns (next: nat)
    requires offset <= buf.Length && |whole| < buf.Length
    requires whole == buf[..offset] + (Terminated(HeaderLine(h, val) + more) + CRLF)
    modifies buf
    ensures next <= buf.Length && whole == buf[..next] + (Terminated(more) + CRLF)
  {
    hide Terminated, KeyName;
    next := offset;
    if val != "" {
      var line := KeyName(h) + ": " + val + CRLF;
      TerminatedFirst(KeyName(h) + ": " + val, more);
      next := Append(buf, offset, line);
    } else {
      assert HeaderLine(h, val) + more == more;
    }
  }

  lemma TerminatedFirst(line: string, more: seq<string>)
    ensures Terminated([line] + more) == line + CRLF + Terminated(more)
  {
    assert ([line] + more)[1..] == more;
  }

  /** What the dump writes: the head, and the body when there is one. */
  function DumpText(r: Request): string
  {
    DumpHead(r) + if CopiesBody(r) then Truncate(r.body.value, r.contentLength) else ""
  }

  /** Prints one of the text headers; `more` are to follow. */
  method PrintText(buf: array<char>, offset: nat, r: Request, h: Header, ghost whole: string, ghost more: seq<Header>)
    returns (next: nat)
    requires offset <= buf.Length && |whole| < buf.Length
    requires whole == buf[..offset] + (Terminated(TextLines(r, [h] + more)) + CRLF)
    modifies buf
    ensures next <= buf.Length && whole == buf[..next] + (Terminated(TextLines(r, more)) + CRLF)
  {
    assert ([h] + more)[1..] == more;
    next := PrintHeader(buf, offset, h, TextOf(r, h), whole, TextLines(r, more));
  }

  method PrintTexts(buf: array<char>, start: nat, r: Request, ghost whole: string) returns (offset: nat)
    requires start <= buf.Length && |whole| < buf.Length
    requires whole == buf[..start] + (Terminated(TextLines(r, Forwarded(r.proxy))) + CRLF)
    modifies buf
    ensures offset <= buf.Length && whole == buf[..offset] + CRLF
  {
    TextSplits();
    assert Terminated(TextLines(r, [])) + CRLF == CRLF;
    hide Terminated, TextLines, Forwarded;
    if r.proxy {
      offset := PrintText(buf, start, r, ContentType, whole, [UserAgent, Accept, TransferEncoding, Expectation, CacheControl, Origin, Pragma]);
      offset := PrintText(buf, offset, r, UserAgent, whole, [Accept, TransferEncoding, Expectation, CacheControl, Origin, Pragma]);
      offset := PrintText(buf, offset, r, Accept, whole, [TransferEncoding, Expectation, CacheControl, Origin, Pragma]);
      offset := PrintText(buf, offset, r, TransferEncoding, whole, [Expectation, CacheControl, Origin, Pragma]);
      offset := PrintText(buf, offset, r, Expectation, whole, [CacheControl, Origin, Pragma]);
      offset := PrintText(buf, offset, r, CacheControl, whole, [Origin, Pragma]);
      offset := PrintText(buf, offset, r, Origin, whole, [Pragma]);
      offset := PrintText(buf, offset, r, Pragma, whole, []);
    } else {
      offset := PrintText(buf, start, r, ContentType, whole, []);
    }
  }

  method PrintRequestLine(r: Request, buf: array<char>) returns (offset: nat)
    requires |RequestLine(r)| + 2 < buf.Length
    modifies buf
    ensures offset <= buf.Length && buf[..offset] == RequestLine(r) + CRLF
  {
    var path := r.path;
    if r.proxy {
      path := ForwardPath(r.path);
    }
    hide ForwardPath, IntText;
    var line := r.verb + " " + path + " HTTP/" + IntText(r.major) + "." + IntText(r.minor) + CRLF;
    assert line == RequestLine(r) + CRLF;
    offset := Append(buf, 0, line);
    assert buf[..offset] == line;
  }

  /** The request line and all headers, each at the offset that the ones before it left. */
  method PrintHead(r: Request, buf: array<char>) returns (offset: nat)
    requires |DumpHead(r)| < buf.Length
    modifies buf
    ensures offset == |DumpHead(r)| && buf[..offset] == DumpHead(r)
  {
    ghost var whole, texts := DumpHead(r), TextLines(r, Forwarded(r.proxy));
    ghost var length := HeaderLine(ContentLength, LengthText(r)) + texts;
    ghost var alive := HeaderLine(Connection, KeepaliveText(r)) + length;
    HeaderParts(r);
    assert whole == RequestLine(r) + CRLF + (Terminated(HeaderLines(r)) + CRLF) by { hide Terminated, RequestLine, HeaderLines; }
    hide *;
    offset := PrintRequestLine(r, buf);
    if r.proxy {
      offset := PrintHeader(buf, offset, Host, r.backendHost, whole, alive);
    }
    offset := PrintHeader(buf, offset, Connection, KeepaliveText(r), whole, length);
    offset := PrintHeader(buf, offset, ContentLength, LengthText(r), whole, texts);
    offset := PrintTexts(buf, offset, r, whole);
    offset := Append(buf, offset, CRLF);
  }

  /** `memcpy` to an offset. */
  method CopyTo(buf: array<char>, at: nat, src: string)
    requires at + |src| <= buf.Length
    modifies buf
    ensures buf[..at + |src|] == old(buf[..at]) + src
  {
    forall i | 0 <= i < |src| {
      buf[at + i] := src[i];
    }
  }

  method HttpRequestDump(r: Request, buf: array<char>) returns (offset: nat)
    requires CopiesBody(r) ==> r.contentLength <= |r.body.value|
    requires |DumpHead(r)| < buf.Length && |DumpText(r)| <= buf.Length
    modifies buf
    ensures offset == |DumpText(r)| && buf[..offset] == DumpText(r)
    ensures buf[..offset] ==
            DumpHead(r) + if r.body.Some? && r.contentLength > 0 then r.body.value[..r.contentLength] else ""
  {
    hide DumpHead;
    offset := PrintHead(r, buf);
    if r.body.Some? && r.contentLength > 0 {
      var src := Truncate(r.body.value, r.contentLength);
      CopyTo(buf, offset, src);
      offset := offset + r.contentLength;
    } else {
      assert DumpText(r) == DumpHead(r) + "";
    }
  }
}
