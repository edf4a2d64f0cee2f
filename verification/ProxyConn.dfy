/** One client connection of `tsproxy.cpp`: what each read and each finished connect does to it,
    and what reaches the upstream servers over whole runs. */
module ProxyConn {
  import opened Common
  import opened CText
  import opened ProxyRoute
  import opened ProxyMessage

  /** `http_state_e`. */
  datatype State = Begin | FirstLine | Head | HeadEnd | Body | End

  /** What the event loop is to read for the client: nothing, one line, one block of `n` bytes,
      or everything that arrives. A line and a block are read once. */
  datatype Reading = Nothing | Line | Block(n: nat) | Anything

  /** What the socket of an upstream is opened with. */
  datatype Address = Address(host: string, port: int, tls: bool)

  /** One upstream connection: the request it was opened for, where to, whether it is connected, and
      what was written to it. */
  datatype Upstream = Upstream(head: Request, at: Address, connected: bool, out: string)

  /** `http_conn_t` with its sockets. */
  datatype Conn = Conn(
    state: State, request: Request, reading: Reading, closed: bool, upstreams: seq<Upstream>, replies: seq<string>)

  datatype Env = Env(ports: Ports, proxyHost: string, proxyPort: int)

  /** `new_conn_event`. */
  const INIT := Conn(FirstLine, EMPTY, Line, false, [], [])

  /** The conversion of an `int` length to `unsigned`. */
  function Unsigned(n: int): nat { n % 0x1_0000_0000 }

  /** A negative length asks for a block of nearly 4 GiB. */
  lemma NegativeBlock(n: int)
    requires Int32(n)
    ensures Unsigned(n) == if n >= 0 then n else 0x1_0000_0000 + n
  {
  }

  // ---- what one callback does

  function NextRequest(c: Conn): Conn
  {
    c.(request := EMPTY, state := FirstLine, reading := Line)
  }

  function Forbidden(r: Request): string
  {
    "HTTP/" + IntText(r.major) + "." + IntText(r.minor) + " 403 Forbidden\r\nContent-Length: 0\r\n\r\n"
  }

  /** `case s_end`. The reply may fail, which closes the connection. */
  function AtEnd(c: Conn, replyCloses: bool): Conn
  {
    var c1 := if c.request.proxy then c else c.(replies := c.replies + [Forbidden(c.request)], closed := replyCloses);
    if c1.closed then c1
    else if c1.request.keepalive then NextRequest(c1)
    else if c1.request.proxy then c1
    else c1.(closed := true)
  }

  /** A lone CRLF is not passed on. */
  function Payload(data: string): string { if data == CRLF then "" else data }

  function Forward(u: Upstream, data: string): Upstream
  {
    u.(out := u.out + Payload(data))
  }

  /** `on_body`. */
  function PassBody(c: Conn, data: string): Conn
  {
    var n := |c.upstreams|;
    if c.request.proxy && c.request.connected && n > 0 then
      c.(upstreams := c.upstreams[n - 1 := Forward(c.upstreams[n - 1], data)])
    else c
  }

  /** `case s_body`. */
  function AtBody(c: Conn, data: string, replyCloses: bool): Conn
  {
    var c1 := PassBody(c, data);
    var c2 := c1.(request := c1.request.(body := Some(data), bodyLen := c1.request.bodyLen + |data|));
    if |data| == c2.request.contentLength then AtEnd(c2.(state := End), replyCloses) else c2
  }

  /** The request is for the proxy itself. */
  ghost predicate SelfAddressed(env: Env, r: Request)
  {
    && PortFor(r.path, env.ports) == env.proxyPort
    && HostName(TextOf(r, Host)) in {env.proxyHost, "localhost", "127.0.0.1"}
  }

  /** The request as it is passed on. */
  ghost function Proxied(env: Env, r: Request): Request
  {
    r.(proxy := true, connected := false, backendHost := BackendHost(TextOf(r, Host), PortFor(r.path, env.ports)))
  }

  ghost function AddressFor(env: Env, r: Request): Address
  {
    Address(HostName(TextOf(r, Host)), PortFor(r.path, env.ports), StartsWith(r.path, "https"))
  }

  /** `on_head_end`; false when it fails. */
  ghost function OpenUpstream(c: Conn, env: Env, socketOk: bool): (Conn, bool)
  {
    if TextOf(c.request, Host) == "" then (c, false)
    else if SelfAddressed(env, c.request) then (c.(request := c.request.(proxy := false)), true)
    else
      var r := Proxied(env, c.request);
      if socketOk then (c.(request := r, upstreams := c.upstreams + [Upstream(r, AddressFor(env, r), false, "")]), true)
      else (c.(request := r), false)
  }

  /** `case s_head_end`, reached with the data of the empty line. */
  ghost function AtHeadEnd(c: Conn, env: Env, data: string, socketOk: bool, replyCloses: bool): Conn
  {
    var (c1, ok) := OpenUpstream(c, env, socketOk);
    if !ok then c1.(closed := true)
    else if c1.request.contentLength == 0 then
      if c1.request.proxy then AtBody(c1.(state := End), data, replyCloses) else AtEnd(c1.(state := End), replyCloses)
    else if c1.request.proxy then c1.(state := Body)
    else c1.(state := Body, reading := Block(Unsigned(c1.request.contentLength)))
  }

  function AtFirstLine(c: Conn, data: string): Conn
  {
    if |data| < 2 then c.(closed := true)
    else
      match ParseRequestLine(c.request, Strip(data))
      case None => c.(closed := true)
      case Some(r) => c.(request := r, state := Head, reading := Line)
  }

  function AtHeaderLine(c: Conn, data: string): Conn
    requires |data| >= 2
  {
    match ParseHead(c.request, Strip(data))
    case None => c.(closed := true)
    case Some(r) => c.(request := r, reading := Line)
  }

  /** A read of a line or a block stops before its callback. */
  function Consumed(r: Reading): Reading { if r.Anything? then Anything else Nothing }

  /** `on_recv`. */
  ghost function Receive(c0: Conn, env: Env, data: string, socketOk: bool, replyCloses: bool): Conn
  {
    var c := c0.(reading := Consumed(c0.reading));
    match c.state
    case Begin => AtFirstLine(c.(state := FirstLine), data)
    case FirstLine => AtFirstLine(c, data)
    case Head =>
      if |data| < 2 then c.(closed := true)
      else if data == CRLF then AtHeadEnd(c.(state := HeadEnd), env, data, socketOk, replyCloses)
      else AtHeaderLine(c, data)
    case HeadEnd => AtHeadEnd(c, env, data, socketOk, replyCloses)
    case Body => AtBody(c, data, replyCloses)
    case End => AtEnd(c, replyCloses)
  }

  /** `on_upstream_connect` of upstream `i`: prints the client's request as it is now. */
  function ConnectDone(c: Conn, i: nat): Conn
    requires i < |c.upstreams|
  {
    var u := c.upstreams[i];
    var c1 := c.(upstreams := c.upstreams[i := u.(connected := true, out := u.out + DumpText(c.request))]);
    if !c1.state.End? then c1.(request := c1.request.(connected := true), reading := Anything)
    else if c1.request.keepalive then NextRequest(c1)
    else c1
  }

  // ---- runs

  /** Either side may go away at any time, which closes the other. */
  datatype Event = Recv(data: string, socketOk: bool, replyCloses: bool) | Connect(i: nat) | PeerClosed

  predicate CanRead(r: Reading, data: string)
  {
    match r
    case Nothing => false
    case Line => TakeLine(data) == Some((data, ""))
    case Block(n) => |data| == n
    case Anything => data != ""
  }

  predicate Enabled(c: Conn, e: Event)
  {
    && !c.closed
    && match e
       case Recv(data, _, _) => CanRead(c.reading, data)
       case Connect(i) => i < |c.upstreams| && !c.upstreams[i].connected
       case PeerClosed => true
  }

  ghost function Step(env: Env, c: Conn, e: Event): Conn
    requires Enabled(c, e)
  {
    match e
    case Recv(data, socketOk, replyCloses) => Receive(c, env, data, socketOk, replyCloses)
    case Connect(i) => ConnectDone(c, i)
    case PeerClosed => c.(closed := true)
  }

  ghost predicate Legal(env: Env, c: Conn, run: seq<Event>)
    decreases |run|
  {
    run != [] ==> Enabled(c, run[0]) && Legal(env, Step(env, c, run[0]), run[1..])
  }

  ghost function Run(env: Env, c: Conn, run: seq<Event>): Conn
    requires Legal(env, c, run)
    decreases |run|
  {
    if run == [] then c else Run(env, Step(env, c, run[0]), run[1..])
  }

  // ---- the invariant

  /** Nothing is written before the connect is done. */
  predicate UpstreamOk(u: Upstream) { !u.connected ==> u.out == "" }

  predicate AllConnected(us: seq<Upstream>) { forall i :: 0 <= i < |us| ==> us[i].connected }

  /** The last upstream is being connected, for the request at hand. */
  predicate Pending(c: Conn)
  {
    var n := |c.upstreams|;
    && n > 0 && AllConnected(c.upstreams[..n - 1]) && !c.upstreams[n - 1].connected
    && c.request.(body := None, bodyLen := 0) == c.upstreams[n - 1].head
  }

  predicate Parsed(r: Request) { r.major == 1 && r.verb != "" && r.path != "" }

  predicate Idle(c: Conn)
  {
    !c.closed && c.state.FirstLine? && c.request == EMPTY && c.reading.Line? && AllConnected(c.upstreams)
  }

  predicate InHead(c: Conn)
  {
    && c.state.Head? && c.reading.Line? && AllConnected(c.upstreams) && Parsed(c.request)
    && !c.request.proxy && !c.request.connected && c.request.body.None? && c.request.bodyLen == 0
  }

  /** The head is complete and its upstream is being connected; nothing is read meanwhile. */
  predicate Connecting(c: Conn)
  {
    && Pending(c) && c.reading.Nothing? && c.request.proxy && !c.request.connected && Parsed(c.request)
    && (c.state.Body? || c.state.End?) && (c.state.End? <==> c.request.contentLength == 0)
    && (c.state.Body? ==> c.request.body.None?)
  }

  /** The body is read from the client: for an upstream, or to be dropped. */
  predicate InBody(c: Conn)
  {
    && c.state.Body? && AllConnected(c.upstreams) && c.request.contentLength != 0
    && if c.request.proxy then c.request.connected && c.reading.Anything? && c.upstreams != []
       else !c.reading.Anything? && !c.reading.Line?
  }

  /** The last request has been passed on, and the upstream is to close. */
  predicate Finished(c: Conn)
  {
    && c.state.End? && AllConnected(c.upstreams) && c.request.proxy && !c.request.keepalive
    && !c.reading.Line?
  }

  predicate AtMostOneOutstanding(us: seq<Upstream>) { forall i :: 0 <= i < |us| - 1 ==> us[i].connected }

  predicate UpstreamsOk(us: seq<Upstream>) { forall i :: 0 <= i < |us| ==> UpstreamOk(us[i]) }

  predicate Inv(c: Conn)
  {
    && UpstreamsOk(c.upstreams) && AtMostOneOutstanding(c.upstreams)
    && (c.closed || Idle(c) || InHead(c) || Connecting(c) || InBody(c) || Finished(c))
  }

  lemma InitInv()
    ensures Inv(INIT) && Idle(INIT)
  {
  }

  lemma FirstLineParsed(line: string)
    requires ParseRequestLine(EMPTY, line).Some?
    ensures var r := ParseRequestLine(EMPTY, line).value;
            Parsed(r) && r == EMPTY.(verb := r.verb, path := r.path, major := 1, minor := r.minor, keepalive := r.minor == 1)
  {
    hide SkipSpace, TokenLen, ScanInt;
  }

  lemma FirstLineStep(c: Conn, data: string)
    requires c.request == EMPTY && c.state.FirstLine? && AllConnected(c.upstreams)
    ensures var c' := AtFirstLine(c, data); (c'.closed || InHead(c')) && c'.upstreams == c.upstreams
  {
    hide ParseRequestLine, Strip;
    if |data| >= 2 && ParseRequestLine(EMPTY, Strip(data)).Some? {
      FirstLineParsed(Strip(data));
    }
  }

  lemma HeaderLineStep(c: Conn, data: string)
    requires InHead(c.(reading := Line)) && |data| >= 2
    ensures var c' := AtHeaderLine(c, data); (c'.closed || InHead(c')) && c'.upstreams == c.upstreams
  {
    hide ParseHead, Strip;
    if ParseHead(c.request, Strip(data)).Some? {
      ParseHeadFrame(c.request, Strip(data));
    }
  }

  /** After the end of a request: another one, or nothing more. */
  lemma EndStep(c: Conn, replyCloses: bool)
    requires c.state.End? && AllConnected(c.upstreams) && !c.reading.Line? && !c.closed
    ensures var c' := AtEnd(c, replyCloses); c'.upstreams == c.upstreams && (c'.closed || Idle(c') || Finished(c'))
  {
    hide Forbidden;
  }

  lemma OnBodyStep(c: Conn, data: string)
    requires UpstreamsOk(c.upstreams) && AllConnected(c.upstreams)
    ensures var c' := PassBody(c, data);
            UpstreamsOk(c'.upstreams) && AllConnected(c'.upstreams) && |c'.upstreams| == |c.upstreams|
  {
    hide Payload;
    if c.upstreams != [] {
      assert c.upstreams[|c.upstreams| - 1].connected;
    }
  }

  lemma BodyStep(c: Conn, data: string, replyCloses: bool)
    requires UpstreamsOk(c.upstreams) && !c.closed && InBody(c.(reading := if c.request.proxy then Anything else Nothing))
    requires c.reading == if c.request.proxy then Anything else Nothing
    ensures Inv(AtBody(c, data, replyCloses))
  {
    OnBodyStep(c, data);
    var c1 := PassBody(c, data);
    assert c1 == c.(upstreams := c1.upstreams);
    hide PassBody, UpstreamOk, Forbidden;
    var c2 := c1.(request := c1.request.(body := Some(data), bodyLen := c1.request.bodyLen + |data|));
    if |data| == c2.request.contentLength {
      EndStep(c2.(state := End), replyCloses);
    }
  }

  lemma PendingNew(us: seq<Upstream>, r: Request, at: Address)
    requires AllConnected(us)
    ensures var us' := us + [Upstream(r, at, false, "")];
            us'[..|us'| - 1] == us && !us'[|us'| - 1].connected && us'[|us'| - 1].head == r
  {
  }

  /** The empty line: the proxied request waits for its upstream. */
  lemma HeadEndStep(c: Conn, env: Env, data: string, socketOk: bool, replyCloses: bool)
    requires UpstreamsOk(c.upstreams) && InHead(c.(state := Head, reading := Line)) && c.reading.Nothing? && !c.closed
    requires data == CRLF
    ensures Inv(AtHeadEnd(c, env, data, socketOk, replyCloses))
  {
    hide BackendHost, SelfAddressed, PortFor, Forbidden;
    var (c1, ok) := OpenUpstream(c, env, socketOk);
    if ok {
      if c1.request.proxy {
        PendingNew(c.upstreams, c1.request, AddressFor(env, c1.request));
        assert c1.upstreams == c.upstreams + [Upstream(c1.request, AddressFor(env, c1.request), false, "")];
        assert UpstreamsOk(c1.upstreams);
        assert c1.request.(body := None, bodyLen := 0) == c1.request;
        assert Pending(c1);
      } else if c1.request.contentLength == 0 {
        EndStep(c1.(state := End), replyCloses);
      }
    }
  }

  /** The body is not part of the head. */
  lemma DumpIgnoresBody(r: Request, body: Option<string>, n: int)
    ensures DumpHead(r.(body := body, bodyLen := n)) == DumpHead(r)
  {
    var r' := r.(body := body, bodyLen := n);
    SameTextLines(r, r', Forwarded(r.proxy));
    hide Terminated, TextLines, IntText, ForwardPath, HeaderLine;
    assert HeaderLines(r') == HeaderLines(r) && RequestLine(r') == RequestLine(r);
  }

  lemma {:induction false} SameTextLines(r: Request, s: Request, hs: seq<Header>)
    requires r.text == s.text
    ensures TextLines(r, hs) == TextLines(s, hs)
    decreases |hs|
  {
    if hs != [] {
      SameTextLines(r, s, hs[1..]);
    }
  }

  /** What the dump writes when the connect is done: the head the upstream was opened for, and no
      body. */
  lemma DumpIsHead(c: Conn)
    requires Connecting(c)
    ensures !CopiesBody(c.request)
    ensures DumpText(c.request) == DumpHead(c.upstreams[|c.upstreams| - 1].head)
  {
    DumpIgnoresBody(c.request, None, 0);
    hide DumpHead;
    assert DumpHead(c.request) + "" == DumpHead(c.request);
  }

  /** Connecting the last upstream and writing its head. */
  lemma WrittenOk(us: seq<Upstream>, text: string)
    requires us != [] && UpstreamsOk(us) && AllConnected(us[..|us| - 1]) && !us[|us| - 1].connected
    ensures var n := |us| - 1;
            var us' := us[n := us[n].(connected := true, out := us[n].out + text)];
            UpstreamsOk(us') && AllConnected(us')
  {
    var n := |us| - 1;
    assert forall k :: 0 <= k < n ==> us[k] == us[..n][k];
  }

  lemma ConnectStep(c: Conn, i: nat)
    requires Inv(c) && !c.closed && i < |c.upstreams| && !c.upstreams[i].connected
    ensures Inv(ConnectDone(c, i)) && Connecting(c) && i == |c.upstreams| - 1
  {
    assert i == |c.upstreams| - 1;
    assert Connecting(c);
    DumpIsHead(c);
    WrittenOk(c.upstreams, DumpText(c.request));
    hide DumpHead, DumpText, UpstreamOk;
    var us := ConnectDone(c, i).upstreams;
    assert us == c.upstreams[i := c.upstreams[i].(connected := true, out := c.upstreams[i].out + DumpText(c.request))];
    hide UpstreamsOk;
    assert AllConnected(us);
  }

  lemma RecvStep(env: Env, c: Conn, data: string, socketOk: bool, replyCloses: bool)
    requires Inv(c) && !c.closed && CanRead(c.reading, data)
    ensures Inv(Receive(c, env, data, socketOk, replyCloses))
  {
    hide UpstreamsOk, AtFirstLine, AtHeaderLine, AtHeadEnd, AtBody, AtEnd;
    var c1 := c.(reading := Consumed(c.reading));
    match c.state {
      case FirstLine =>
        FirstLineStep(c1, data);
      case Head =>
        if |data| >= 2 {
          if data == CRLF {
            HeadEndStep(c1.(state := HeadEnd), env, data, socketOk, replyCloses);
          } else {
            HeaderLineStep(c1, data);
          }
        }
      case Body =>
        BodyStep(c1, data, replyCloses);
      case End =>
        EndStep(c1, replyCloses);
      case _ =>
        assert false;
    }
  }

  lemma StepKeepsInv(env: Env, c: Conn, e: Event)
    requires Inv(c) && Enabled(c, e)
    ensures Inv(Step(env, c, e))
  {
    hide Inv, Receive, ConnectDone;
    match e {
      case Recv(data, socketOk, replyCloses) =>
        RecvStep(env, c, data, socketOk, replyCloses);
      case Connect(i) =>
        ConnectStep(c, i);
      case PeerClosed =>
        ClosedStep(c);
    }
  }

  lemma ClosedStep(c: Conn)
    requires Inv(c)
    ensures Inv(c.(closed := true))
  {
    hide UpstreamOk;
  }

  lemma {:induction false} RunKeepsInv(env: Env, c: Conn, run: seq<Event>)
    requires Inv(c) && Legal(env, c, run)
    ensures Inv(Run(env, c, run))
    decreases |run|
  {
    hide Inv, Step, Enabled;
    if run != [] {
      StepKeepsInv(env, c, run[0]);
      RunKeepsInv(env, Step(env, c, run[0]), run[1..]);
    }
  }

  // ---- what every run keeps

  /** Two upstreams of one client are never being connected at once, and while one is, nothing is
      read from the client. */
  lemma OneConnectOutstanding(env: Env, run: seq<Event>, i: nat)
    requires Legal(env, INIT, run)
    requires var c := Run(env, INIT, run); i < |c.upstreams| && !c.upstreams[i].connected
    ensures var c := Run(env, INIT, run);
            && i == |c.upstreams| - 1 && (forall j :: 0 <= j < i ==> c.upstreams[j].connected)
            && (!c.closed ==> c.reading.Nothing?)
  {
    RunKeepsInv(env, INIT, run);
    hide Run, UpstreamsOk;
  }

  /** When an upstream gets connected, the dump writes its head and copies no body. */
  lemma DumpCopiesNoBody(env: Env, run: seq<Event>, i: nat)
    requires Legal(env, INIT, run) && Enabled(Run(env, INIT, run), Connect(i))
    ensures var c := Run(env, INIT, run);
            && (c.request.body.None? || c.request.contentLength <= 0)
            && DumpText(c.request) == DumpHead(c.upstreams[i].head)
  {
    InitInv();
    hide Run, DumpHead, DumpText, Inv, ConnectDone, Connecting, Legal;
    RunKeepsInv(env, INIT, run);
    ConnectStep(Run(env, INIT, run), i);
    DumpIsHead(Run(env, INIT, run));
  }

  /** `us` with something sent to its last upstream, or with one more upstream. */
  predicate Later(us: seq<Upstream>, us': seq<Upstream>)
  {
    && |us| <= |us'|
    && (forall i :: 0 <= i < |us| - 1 ==> us'[i] == us[i])
    && (|us| > 0 ==>
          var u, u' := us[|us| - 1], us'[|us| - 1];
          u'.head == u.head && u'.at == u.at && u.out <= u'.out)
  }

  lemma AtEndUpstreams(c: Conn, replyCloses: bool)
    ensures AtEnd(c, replyCloses).upstreams == c.upstreams
  {
    hide Forbidden;
  }

  lemma AtBodyUpstreams(c: Conn, data: string, replyCloses: bool)
    ensures var us := AtBody(c, data, replyCloses).upstreams;
            us == PassBody(c, data).upstreams && Later(c.upstreams, us) && |us| == |c.upstreams|
    ensures !c.request.connected ==> AtBody(c, data, replyCloses).upstreams == c.upstreams
  {
    var c1 := PassBody(c, data);
    var c2 := c1.(request := c1.request.(body := Some(data), bodyLen := c1.request.bodyLen + |data|));
    AtEndUpstreams(c2.(state := End), replyCloses);
    hide AtEnd, Payload;
  }

  lemma AtHeadEndUpstreams(c: Conn, env: Env, data: string, socketOk: bool, replyCloses: bool)
    ensures AtHeadEnd(c, env, data, socketOk, replyCloses).upstreams == OpenUpstream(c, env, socketOk).0.upstreams
  {
    var c1 := OpenUpstream(c, env, socketOk).0;
    AtBodyUpstreams(c1.(state := End), data, replyCloses);
    AtEndUpstreams(c1.(state := End), replyCloses);
    hide AtEnd, AtBody, BackendHost, PortFor, SelfAddressed;
  }

  lemma LaterSame(us: seq<Upstream>)
    ensures Later(us, us)
  {
  }

  lemma RecvFreezes(env: Env, c: Conn, data: string, socketOk: bool, replyCloses: bool)
    requires Inv(c) && !c.closed && CanRead(c.reading, data)
    ensures var us := Receive(c, env, data, socketOk, replyCloses).upstreams;
            Later(c.upstreams, us) && (|us| > |c.upstreams| ==> AllConnected(c.upstreams) && InHead(c))
  {
    hide UpstreamsOk, BackendHost, PortFor, ParseHead, ParseRequestLine, Strip, SelfAddressed, AtEnd, AtBody, AtHeadEnd, PassBody;
    var c1 := c.(reading := Consumed(c.reading));
    LaterSame(c.upstreams);
    AtEndUpstreams(c1, replyCloses);
    AtBodyUpstreams(c1, data, replyCloses);
    AtHeadEndUpstreams(c1.(state := HeadEnd), env, data, socketOk, replyCloses);
  }

  lemma StepFreezes(env: Env, c: Conn, e: Event)
    requires Inv(c) && Enabled(c, e)
    ensures Later(c.upstreams, Step(env, c, e).upstreams)
    ensures |Step(env, c, e).upstreams| > |c.upstreams| ==> AllConnected(c.upstreams) && InHead(c)
  {
    hide DumpText, Receive, Inv;
    match e {
      case Recv(data, socketOk, replyCloses) =>
        RecvFreezes(env, c, data, socketOk, replyCloses);
      case Connect(i) =>
        ConnectStep(c, i);
      case PeerClosed =>
        LaterSame(c.upstreams);
    }
  }

  lemma {:induction false} LaterTransitive(a: seq<Upstream>, b: seq<Upstream>, c: seq<Upstream>)
    requires Later(a, b) && Later(b, c)
    ensures Later(a, c)
  {
    if a != [] && |a| - 1 < |b| - 1 {
      assert c[|a| - 1] == b[|a| - 1];
    }
  }

  /** Over any run, an upstream that is not the last one never changes again, and what has been
      written to the last one stays. */
  lemma {:induction false} RunFreezes(env: Env, c: Conn, run: seq<Event>)
    requires Inv(c) && Legal(env, c, run)
    ensures Later(c.upstreams, Run(env, c, run).upstreams)
    decreases |run|
  {
    hide Inv, Step, Enabled, Later;
    if run == [] {
      LaterSame(c.upstreams);
    } else {
      StepKeepsInv(env, c, run[0]);
      StepFreezes(env, c, run[0]);
      var c1 := Step(env, c, run[0]);
      RunFreezes(env, c1, run[1..]);
      LaterTransitive(c.upstreams, c1.upstreams, Run(env, c1, run[1..]).upstreams);
    }
  }

  // ---- what an upstream gets, told from the run alone

  /** In `c`, upstream `i` is the one that the body at hand is for. */
  predicate TakesBody(c: Conn, i: nat) { c.state.Body? && c.request.proxy && i == |c.upstreams| - 1 }

  function BodyPart(c: Conn, e: Event, i: nat): seq<string>
  {
    if e.Recv? && TakesBody(c, i) then [e.data] else []
  }

  /** What the client sends over a run while the body for upstream `i` is read. */
  ghost function BodyReads(env: Env, c: Conn, run: seq<Event>, i: nat): seq<string>
    requires Legal(env, c, run)
    decreases |run|
  {
    if run == [] then [] else BodyPart(c, run[0], i) + BodyReads(env, Step(env, c, run[0]), run[1..], i)
  }

  /** The reads one after the other, without those that are a lone CRLF. */
  function Concat(datas: seq<string>): string
  {
    if datas == [] then "" else Payload(datas[0]) + Concat(datas[1..])
  }

  lemma {:induction false} ConcatSplit(a: seq<string>, b: seq<string>)
    ensures Concat(a + b) == Concat(a) + Concat(b)
  {
    if a == [] {
      assert a + b == b;
    } else {
      assert (a + b)[1..] == a[1..] + b;
      ConcatSplit(a[1..], b);
      Assoc(Payload(a[0]), Concat(a[1..]), Concat(b));
    }
  }

  lemma ConcatOne(data: string)
    ensures Concat([data]) == Payload(data)
  {
    assert Concat([data]) == Payload(data) + Concat([]);
  }

  /** What one event does to upstream `i`: while it is connected it gets exactly the body read of
      the event; when it gets connected it gets its head; before that it gets nothing. */
  predicate Written(c: Conn, e: Event, c': Conn, i: nat)
  {
    && |c.upstreams| <= |c'.upstreams|
    && (i < |c.upstreams| ==>
          && c'.upstreams[i].head == c.upstreams[i].head
          && (c.upstreams[i].connected ==> c'.upstreams[i].connected))
    && if i < |c.upstreams| && c.upstreams[i].connected then
         c'.upstreams[i].out == c.upstreams[i].out + Concat(BodyPart(c, e, i))
       else
         && BodyPart(c, e, i) == []
         && (i < |c'.upstreams| ==>
               c'.upstreams[i].out == if c'.upstreams[i].connected then DumpHead(c'.upstreams[i].head) else "")
  }

  lemma NothingWritten(c: Conn, e: Event, c': Conn, i: nat)
    requires UpstreamsOk(c.upstreams) && BodyPart(c, e, i) == []
    requires c'.upstreams == c.upstreams || (exists r, at :: c'.upstreams == c.upstreams + [Upstream(r, at, false, "")])
    ensures Written(c, e, c', i)
  {
    hide DumpHead;
    assert Concat([]) == "";
    if i < |c.upstreams| {
      assert c'.upstreams[i] == c.upstreams[i] && UpstreamOk(c.upstreams[i]);
      assert c.upstreams[i].out + "" == c.upstreams[i].out;
    }
  }

  lemma BodyWritten(env: Env, c: Conn, e: Event, i: nat)
    requires Inv(c) && Enabled(c, e) && e.Recv? && c.state.Body?
    ensures Written(c, e, Step(env, c, e), i)
  {
    var c1 := c.(reading := Consumed(c.reading));
    AtBodyUpstreams(c1, e.data, e.replyCloses);
    assert InBody(c);
    assert Step(env, c, e).upstreams == PassBody(c1, e.data).upstreams by { hide PassBody, AtBody; }
    ConcatOne(e.data);
    hide DumpHead, AtBody, Step, Payload, Concat;
    if !c.request.proxy || i != |c.upstreams| - 1 {
      assert BodyPart(c, e, i) == [];
      if !c.request.proxy {
        NothingWritten(c, e, Step(env, c, e), i);
      } else {
        assert i < |c.upstreams| ==> Step(env, c, e).upstreams[i] == c.upstreams[i];
        assert Concat([]) == "" by { EmptyConcat(); }
        assert i < |c.upstreams| ==> c.upstreams[i].out + "" == c.upstreams[i].out;
      }
    }
  }

  lemma EmptyConcat()
    ensures Concat([]) == ""
  {
  }

  lemma LineUpstreams(c: Conn, data: string)
    ensures AtFirstLine(c, data).upstreams == c.upstreams
    ensures |data| >= 2 ==> AtHeaderLine(c, data).upstreams == c.upstreams
  {
    hide ParseRequestLine, ParseHead, Strip;
  }

  /** The upstream that is opened for `r`. */
  ghost function Opened(env: Env, r: Request): Upstream { Upstream(Proxied(env, r), AddressFor(env, r), false, "") }

  lemma OpenedUpstreams(env: Env, c: Conn, socketOk: bool)
    ensures var us := OpenUpstream(c, env, socketOk).0.upstreams;
            us == c.upstreams || (us == c.upstreams + [Opened(env, c.request)] && TextOf(c.request, Host) != ""
                                  && !SelfAddressed(env, c.request))
  {
    assert AddressFor(env, Proxied(env, c.request)) == AddressFor(env, c.request);
    hide SelfAddressed, Proxied, AddressFor, TextOf;
  }

  /** A read outside the body opens an upstream at the end of a head, or leaves all of them alone. */
  lemma OtherReadUpstreams(env: Env, c: Conn, e: Event)
    requires Inv(c) && Enabled(c, e) && e.Recv? && !c.state.Body?
    ensures var c' := Step(env, c, e);
            c'.upstreams == c.upstreams || (c'.upstreams == c.upstreams + [Opened(env, c.request)] && c.state.Head?
                                            && TextOf(c.request, Host) != "" && !SelfAddressed(env, c.request))
  {
    var c1 := c.(reading := Consumed(c.reading));
    OpenStates(c);
    LineUpstreams(c1, e.data);
    hide Inv, CanRead, AtFirstLine, AtHeaderLine, AtHeadEnd, AtBody, AtEnd, OpenUpstream, Opened, SelfAddressed, TextOf;
    AtEndUpstreams(c1, e.replyCloses);
    AtHeadEndUpstreams(c1.(state := HeadEnd), env, e.data, e.socketOk, e.replyCloses);
    OpenedUpstreams(env, c1.(state := HeadEnd), e.socketOk);
  }

  lemma OtherReadWritten(env: Env, c: Conn, e: Event, i: nat)
    requires Inv(c) && Enabled(c, e) && e.Recv? && !c.state.Body?
    ensures Written(c, e, Step(env, c, e), i)
  {
    OtherReadUpstreams(env, c, e);
    hide Step, Enabled, Written, UpstreamsOk, Proxied, AddressFor, SelfAddressed, TextOf;
    NothingWritten(c, e, Step(env, c, e), i);
  }

  lemma HasOk(c: Conn, i: nat)
    requires Inv(c) && i < |c.upstreams|
    ensures UpstreamOk(c.upstreams[i]) && (c.upstreams[i].connected || c.upstreams[i].out == "")
  {
  }

  /** The connect of the last upstream writes its head, and nothing to any other. */
  lemma HeadWritten(c: Conn, k: nat, i: nat)
    requires k == |c.upstreams| - 1 && !c.upstreams[k].connected && c.upstreams[k].out == ""
    requires (forall j :: 0 <= j < k ==> c.upstreams[j].connected) && DumpText(c.request) == DumpHead(c.upstreams[k].head)
    ensures Written(c, Connect(k), ConnectDone(c, k), i)
  {
    EmptyConcat();
    hide DumpHead, DumpText, Concat;
    assert "" + DumpText(c.request) == DumpText(c.request);
    assert i < |c.upstreams| ==> c.upstreams[i].out + "" == c.upstreams[i].out;
    assert BodyPart(c, Connect(k), i) == [];
    var us := ConnectDone(c, k).upstreams;
    assert us == c.upstreams[k := Upstream(c.upstreams[k].head, c.upstreams[k].at, true, DumpText(c.request))];
    hide ConnectDone;
  }

  lemma EnabledConnect(c: Conn, k: nat)
    requires Enabled(c, Connect(k))
    ensures !c.closed && k < |c.upstreams| && !c.upstreams[k].connected
  {
  }

  lemma StepConnects(env: Env, c: Conn, k: nat)
    requires Enabled(c, Connect(k))
    ensures k < |c.upstreams| && Step(env, c, Connect(k)) == ConnectDone(c, k)
  {
    hide ConnectDone;
  }

  lemma EarlierConnected(c: Conn)
    requires Inv(c)
    ensures forall j :: 0 <= j < |c.upstreams| - 1 ==> c.upstreams[j].connected
  {
    hide UpstreamsOk;
  }

  lemma ConnectWritten(env: Env, c: Conn, k: nat, i: nat)
    requires Inv(c) && Enabled(c, Connect(k))
    ensures Written(c, Connect(k), Step(env, c, Connect(k)), i)
  {
    hide *;
    EnabledConnect(c, k);
    HasOk(c, k);
    EarlierConnected(c);
    StepConnects(env, c, k);
    ConnectStep(c, k);
    DumpIsHead(c);
    HeadWritten(c, k, i);
  }

  lemma StepWrites(env: Env, c: Conn, e: Event, i: nat)
    requires Inv(c) && Enabled(c, e)
    ensures Written(c, e, Step(env, c, e), i)
  {
    match e {
      case Recv(_, _, _) =>
        hide Written, Step, Inv, Enabled;
        if c.state.Body? {
          BodyWritten(env, c, e, i);
        } else {
          OtherReadWritten(env, c, e, i);
        }
      case Connect(k) =>
        hide Written, Step, Inv, Enabled;
        ConnectWritten(env, c, k, i);
      case PeerClosed =>
        NothingWritten(c, e, c.(closed := true), i);
    }
  }

  /** Over any run, a connected upstream gets exactly the client's body reads that are for it, after
      what it has, or after its head when it gets connected in the run; an upstream that is still
      unconnected has got nothing, and nothing was read for it. */
  lemma {:induction false} RunWrites(env: Env, c: Conn, run: seq<Event>, i: nat)
    requires Inv(c) && Legal(env, c, run)
    ensures var c', datas := Run(env, c, run), BodyReads(env, c, run, i);
            && |c.upstreams| <= |c'.upstreams|
            && (i < |c.upstreams| ==> c'.upstreams[i].head == c.upstreams[i].head)
            && (i < |c.upstreams| && c.upstreams[i].connected ==>
                  c'.upstreams[i].connected && c'.upstreams[i].out == c.upstreams[i].out + Concat(datas))
            && (i < |c'.upstreams| && !(i < |c.upstreams| && c.upstreams[i].connected) ==>
                  var u := c'.upstreams[i];
                  if u.connected then u.out == DumpHead(u.head) + Concat(datas) else u.out == "" && datas == [])
    decreases |run|
  {
    hide Inv, Step, Enabled, DumpHead, UpstreamOk, Concat, BodyPart;
    EmptyConcat();
    if run == [] {
      if i < |c.upstreams| {
        assert UpstreamOk(c.upstreams[i]) && (c.upstreams[i].connected || c.upstreams[i].out == "") by {
          HasOk(c, i);
        }
        assert c.upstreams[i].out + "" == c.upstreams[i].out;
      }
    } else {
      var c1 := Step(env, c, run[0]);
      StepKeepsInv(env, c, run[0]);
      StepWrites(env, c, run[0], i);
      RunWrites(env, c1, run[1..], i);
      ConcatSplit(BodyPart(c, run[0], i), BodyReads(env, c1, run[1..], i));
    }
  }

  /** Every upstream has got the head it was opened for, once and first, then what the client sent
      while the body for it was read, but for lone CRLFs; an upstream that is not connected has got
      nothing. */
  lemma HeadOnceThenBody(env: Env, run: seq<Event>, i: nat)
    requires Legal(env, INIT, run) && i < |Run(env, INIT, run).upstreams|
    ensures var u, datas := Run(env, INIT, run).upstreams[i], BodyReads(env, INIT, run, i);
            if u.connected then u.out == DumpHead(u.head) + Concat(datas) else u.out == "" && datas == []
  {
    InitInv();
    hide Run, DumpHead, Concat, Inv, Legal, BodyReads;
    RunWrites(env, INIT, run, i);
  }

  // ---- where requests go

  /** `name` is the host text up to its first colon. */
  predicate BeforeColon(host: string, name: string) { ':' !in name && (host == name || name + ":" <= host) }

  /** `name` stands for the proxy's own machine. */
  predicate OwnHost(env: Env, name: string) { name == env.proxyHost || name == "localhost" || name == "127.0.0.1" }

  /** The request would come back to the proxy. */
  ghost predicate Refused(env: Env, r: Request)
  {
    && TextOf(r, Host) != "" && GoesTo(ForwardPath(r.path), env.ports, env.proxyPort)
    && exists name :: BeforeColon(TextOf(r, Host), name) && OwnHost(env, name)
  }

  /** `u` was opened for a request that is passed on, where its path and its Host say, and that
      address is its Host field, cut to the size of the field. */
  predicate Routed(env: Env, u: Upstream)
  {
    var full := u.at.host + ":" + IntText(u.at.port);
    && TextOf(u.head, Host) != "" && BeforeColon(TextOf(u.head, Host), u.at.host)
    && GoesTo(ForwardPath(u.head.path), env.ports, u.at.port)
    && !(u.at.port == env.proxyPort && OwnHost(env, u.at.host))
    && u.head.proxy && u.head.backendHost == (if |full| <= 63 then full else full[..63])
    && (u.at.tls <==> "https" <= u.head.path)
  }

  predicate AllRouted(env: Env, us: seq<Upstream>) { forall i :: 0 <= i < |us| ==> Routed(env, us[i]) }

  lemma HostNameSplits(host: string)
    ensures BeforeColon(host, HostName(host))
  {
    if ':' in host {
      var i := IndexOf(host, ':').value;
      assert host[..i + 1] == host[..i] + ":";
    }
  }

  lemma BeforeColonOne(host: string, name: string)
    requires BeforeColon(host, name)
    ensures name == HostName(host)
  {
    if host != name {
      var rest := host[|name| + 1..];
      assert host == name + (":" + rest);
      ColonAfter(name, rest);
    }
  }

  /** The test of `on_head_end`. */
  lemma RefusedExactly(env: Env, r: Request)
    requires TextOf(r, Host) != ""
    ensures Refused(env, r) <==> SelfAddressed(env, r)
  {
    var host := TextOf(r, Host);
    HostNameSplits(host);
    PortForGoes(r.path, env.ports);
    hide GoesTo, HostName, BeforeColon, PortFor, TextOf, ForwardPath;
    assert SelfAddressed(env, r) ==> OwnHost(env, HostName(host));
    if Refused(env, r) {
      GoesToOne(ForwardPath(r.path), env.ports, env.proxyPort, PortFor(r.path, env.ports));
      var name :| BeforeColon(host, name) && OwnHost(env, name);
      BeforeColonOne(host, name);
    }
  }

  lemma OpenedRouted(env: Env, r: Request)
    requires TextOf(r, Host) != "" && !SelfAddressed(env, r)
    ensures Routed(env, Opened(env, r))
  {
    HostNameSplits(TextOf(r, Host));
    PortForGoes(r.path, env.ports);
    hide GoesTo, HostName, BeforeColon, PortFor, ForwardPath, IntText;
  }

  /** Every upstream of `us'` is one of `us`, with more written to it, or the one at the end is new. */
  lemma SameRoutes(env: Env, us: seq<Upstream>, us': seq<Upstream>)
    requires AllRouted(env, us) && Later(us, us') && |us'| == |us|
    ensures AllRouted(env, us')
  {
    hide GoesTo, BeforeColon, OwnHost, ForwardPath, IntText;
    forall i | 0 <= i < |us'| ensures Routed(env, us'[i]) {
      assert Routed(env, us[i]);
    }
  }

  lemma RoutedSnoc(env: Env, us: seq<Upstream>, u: Upstream)
    requires AllRouted(env, us) && Routed(env, u)
    ensures AllRouted(env, us + [u])
  {
    hide Routed;
  }

  lemma StepKeepsRoutes(env: Env, c: Conn, e: Event)
    requires Inv(c) && Enabled(c, e) && AllRouted(env, c.upstreams)
    ensures AllRouted(env, Step(env, c, e).upstreams)
  {
    StepFreezes(env, c, e);
    if e.Recv? && !c.state.Body? {
      OtherReadUpstreams(env, c, e);
      hide Step, AllRouted, Later, Inv, Enabled, TextOf, SelfAddressed, Opened;
      if Step(env, c, e).upstreams != c.upstreams {
        OpenedRouted(env, c.request);
        RoutedSnoc(env, c.upstreams, Opened(env, c.request));
      }
    } else {
      SameNumber(env, c, e);
      hide Step, AllRouted, Later, Inv, Enabled;
      SameRoutes(env, c.upstreams, Step(env, c, e).upstreams);
    }
  }

  lemma SameNumber(env: Env, c: Conn, e: Event)
    requires Enabled(c, e) && (e.Recv? ==> c.state.Body?)
    ensures |Step(env, c, e).upstreams| == |c.upstreams|
  {
    if e.Recv? {
      AtBodyUpstreams(c.(reading := Consumed(c.reading)), e.data, e.replyCloses);
    }
    hide AtBody, DumpText;
  }

  lemma {:induction false} RunKeepsRoutes(env: Env, c: Conn, run: seq<Event>)
    requires Inv(c) && Legal(env, c, run) && AllRouted(env, c.upstreams)
    ensures AllRouted(env, Run(env, c, run).upstreams)
    decreases |run|
  {
    hide Inv, Step, Enabled, AllRouted;
    if run != [] {
      StepKeepsInv(env, c, run[0]);
      StepKeepsRoutes(env, c, run[0]);
      RunKeepsRoutes(env, Step(env, c, run[0]), run[1..]);
    }
  }

  lemma RoutedOrRefused(env: Env, u: Upstream)
    requires Routed(env, u)
    ensures !Refused(env, u.head)
  {
    hide GoesTo, BeforeColon, ForwardPath, IntText, TextOf;
    if Refused(env, u.head) {
      var name :| BeforeColon(TextOf(u.head, Host), name) && OwnHost(env, name);
      BeforeColonOne(TextOf(u.head, Host), name);
      BeforeColonOne(TextOf(u.head, Host), u.at.host);
      GoesToOne(ForwardPath(u.head.path), env.ports, env.proxyPort, u.at.port);
    }
  }

  /** Over every run each upstream was opened where its request has to go, for a request that is not
      refused. */
  lemma EveryUpstreamRouted(env: Env, run: seq<Event>, i: nat)
    requires Legal(env, INIT, run) && i < |Run(env, INIT, run).upstreams|
    ensures Routed(env, Run(env, INIT, run).upstreams[i]) && !Refused(env, Run(env, INIT, run).upstreams[i].head)
  {
    InitInv();
    assert AllRouted(env, INIT.upstreams);
    hide Run, Legal, Inv, Routed, Refused;
    RunKeepsRoutes(env, INIT, run);
    RoutedOrRefused(env, Run(env, INIT, run).upstreams[i]);
  }

  // ---- requests that are refused

  /** The request at hand, when `e` completes it and it is refused: at the empty line when it has no
      body, or with a read of its whole body. */
  ghost function RefusedNow(env: Env, c: Conn, e: Event): seq<Request>
  {
    if e.Recv? && Refused(env, c.request)
       && ((c.state.Head? && e.data == CRLF && c.request.contentLength == 0)
           || (c.state.Body? && |e.data| == c.request.contentLength))
    then [c.request] else []
  }

  /** The requests of a run that were complete and refused, in order. */
  ghost function Refusals(env: Env, c: Conn, run: seq<Event>): seq<Request>
    requires Legal(env, c, run)
    decreases |run|
  {
    if run == [] then [] else RefusedNow(env, c, run[0]) + Refusals(env, Step(env, c, run[0]), run[1..])
  }

  /** The answer to a refused request. */
  predicate Says403(reply: string, r: Request)
  {
    reply == "HTTP/1." + IntText(r.minor) + " 403 Forbidden\r\nContent-Length: 0\r\n\r\n"
  }

  predicate AllSay403(replies: seq<string>, rs: seq<Request>)
  {
    |replies| == |rs| && forall k :: 0 <= k < |rs| ==> Says403(replies[k], rs[k])
  }

  /** Once its head is complete, a request goes upstream unless it is refused. */
  ghost predicate RefuseInv(env: Env, c: Conn)
  {
    !c.closed && (c.state.Body? || c.state.End?) ==>
      c.request.major == 1 && (c.request.proxy <==> !Refused(env, c.request))
  }

  /** Only the target and the Host matter. */
  lemma RefusedAlike(env: Env, r: Request, r': Request)
    requires r'.path == r.path && r'.text == r.text
    ensures Refused(env, r') <==> Refused(env, r)
  {
    hide GoesTo, BeforeColon, OwnHost, ForwardPath;
  }

  /** One answer for each request of `rs` was added. */
  predicate Replied(before: seq<string>, after: seq<string>, rs: seq<Request>)
  {
    before <= after && AllSay403(after[|before|..], rs)
  }

  lemma NoReply(before: seq<string>)
    ensures Replied(before, before, [])
  {
  }

  lemma OneReply(before: seq<string>, r: Request)
    requires r.major == 1
    ensures Replied(before, before + [Forbidden(r)], [r])
  {
    IntTextOne();
    assert "HTTP/" + "1" + "." == "HTTP/1.";
    hide IntText;
    assert (before + [Forbidden(r)])[|before|..] == [Forbidden(r)];
  }

  lemma ReplySame(before: seq<string>, after: seq<string>, r: Request, r': Request)
    requires Replied(before, after, [r]) && r'.minor == r.minor
    ensures Replied(before, after, [r'])
  {
    hide IntText;
  }

  lemma RepliedBoth(a: seq<string>, b: seq<string>, c: seq<string>, rs: seq<Request>, ss: seq<Request>)
    requires Replied(a, b, rs) && Replied(b, c, ss)
    ensures Replied(a, c, rs + ss)
  {
    hide Says403;
    var all := c[|a|..];
    forall k | 0 <= k < |rs + ss| ensures Says403(all[k], (rs + ss)[k]) {
      if k < |rs| {
        assert all[k] == b[|a|..][k];
      } else {
        assert all[k] == c[|b|..][k - |rs|];
      }
    }
  }

  /** What the end of a request adds to the replies. */
  lemma EndReplies(c: Conn, replyCloses: bool)
    requires c.request.major == 1
    ensures var c' := AtEnd(c, replyCloses);
            && Replied(c.replies, c'.replies, if c.request.proxy then [] else [c.request])
            && (c'.closed || c'.state.FirstLine? || (c.request.proxy && c' == c))
  {
    OneReply(c.replies, c.request);
    NoReply(c.replies);
    hide Forbidden, Replied;
  }

  lemma BodyReplies(c: Conn, data: string, replyCloses: bool)
    requires c.request.major == 1
    ensures var c', r := AtBody(c, data, replyCloses), c.request;
            && Replied(c.replies, c'.replies, if |data| == r.contentLength && !r.proxy then [r] else [])
            && (c'.state.Body? || c'.state.End? ==>
                  c'.closed || c'.request == r.(body := c'.request.body, bodyLen := c'.request.bodyLen))
  {
    var c1 := PassBody(c, data);
    assert c1 == c.(upstreams := c1.upstreams) by { hide Forward; }
    hide PassBody;
    var c2 := c1.(request := c1.request.(body := Some(data), bodyLen := c1.request.bodyLen + |data|));
    EndReplies(c2.(state := End), replyCloses);
    NoReply(c.replies);
    hide AtEnd, Replied;
    if |data| == c.request.contentLength && !c.request.proxy {
      ReplySame(c.replies, AtBody(c, data, replyCloses).replies, c2.request, c.request);
    }
  }

  lemma OpenKeeps(env: Env, c: Conn, socketOk: bool)
    ensures var c1 := OpenUpstream(c, env, socketOk).0;
            && c1 == c.(request := c1.request, upstreams := c1.upstreams)
            && c1.request == c.request.(proxy := c1.request.proxy, connected := c1.request.connected,
                                        backendHost := c1.request.backendHost)
  {
    hide SelfAddressed, BackendHost, AddressFor, TextOf;
  }

  /** What `on_head_end` decides. */
  lemma OpenRefuses(env: Env, c: Conn, socketOk: bool)
    ensures var (c1, ok), refused := OpenUpstream(c, env, socketOk), Refused(env, c.request);
            && (Refused(env, c1.request) <==> refused) && (refused ==> ok) && (ok ==> (c1.request.proxy <==> !refused))
  {
    OpenKeeps(env, c, socketOk);
    RefusedAlike(env, c.request, OpenUpstream(c, env, socketOk).0.request);
    if TextOf(c.request, Host) != "" {
      RefusedExactly(env, c.request);
    } else {
      assert !Refused(env, c.request);
    }
    hide Refused, SelfAddressed, BackendHost, AddressFor, TextOf;
  }

  lemma HeadEndReplies(env: Env, c: Conn, socketOk: bool, replyCloses: bool)
    requires c.state.HeadEnd? && !c.closed && c.request.major == 1
    ensures var c', r := AtHeadEnd(c, env, CRLF, socketOk, replyCloses), c.request;
            && Replied(c.replies, c'.replies, if Refused(env, r) && r.contentLength == 0 then [r] else [])
            && RefuseInv(env, c')
  {
    NoReply(c.replies);
    OpenKeeps(env, c, socketOk);
    OpenRefuses(env, c, socketOk);
    var (c1, ok) := OpenUpstream(c, env, socketOk);
    var c2 := c1.(state := End);
    hide OpenUpstream, Refused, AtBody, AtEnd, Replied;
    if ok && c1.request.contentLength == 0 {
      if c1.request.proxy {
        BodyReplies(c2, CRLF, replyCloses);
        var c3 := AtBody(c2, CRLF, replyCloses);
        if c3.state.Body? || c3.state.End? {
          if !c3.closed {
            RefusedAlike(env, c1.request, c3.request);
          }
        }
      } else {
        EndReplies(c2, replyCloses);
        ReplySame(c.replies, AtEnd(c2, replyCloses).replies, c2.request, c.request);
      }
    }
  }

  lemma BodyRefuses(env: Env, c: Conn, data: string, replyCloses: bool)
    requires c.state.Body? && !c.closed && RefuseInv(env, c)
    ensures var c', r := AtBody(c, data, replyCloses), c.request;
            && Replied(c.replies, c'.replies, if Refused(env, r) && |data| == r.contentLength then [r] else [])
            && RefuseInv(env, c')
  {
    BodyReplies(c, data, replyCloses);
    var c' := AtBody(c, data, replyCloses);
    hide Refused, AtBody, Replied;
    if !c'.closed && (c'.state.Body? || c'.state.End?) {
      RefusedAlike(env, c.request, c'.request);
    }
  }

  lemma LineSaysNothing(c: Conn, data: string)
    ensures var c' := AtFirstLine(c, data); c'.replies == c.replies && (c'.closed || c'.state.Head?)
    ensures |data| >= 2 ==> var c' := AtHeaderLine(c, data); c'.replies == c.replies && c'.state == c.state
  {
    hide ParseRequestLine, ParseHead, Strip;
  }

  lemma RecvReplies(env: Env, c: Conn, e: Event)
    requires Inv(c) && RefuseInv(env, c) && Enabled(c, e) && e.Recv?
    ensures Replied(c.replies, Step(env, c, e).replies, RefusedNow(env, c, e)) && RefuseInv(env, Step(env, c, e))
  {
    var c1 := c.(reading := Consumed(c.reading));
    OpenStates(c);
    NoReply(c.replies);
    assert c.state.Head? ==> c.request.major == 1;
    hide Inv, CanRead, Refused, Replied, AtFirstLine, AtHeaderLine, AtHeadEnd, AtBody, AtEnd;
    match c.state {
      case FirstLine =>
        LineSaysNothing(c1, e.data);
      case Head =>
        LineSaysNothing(c1, e.data);
        if e.data == CRLF {
          HeadEndReplies(env, c1.(state := HeadEnd), e.socketOk, e.replyCloses);
        }
      case Body =>
        BodyRefuses(env, c1, e.data, e.replyCloses);
      case End =>
        assert c.request.proxy by { EndProxied(c); }
        EndReplies(c1, e.replyCloses);
      case _ =>
        assert false;
    }
  }

  lemma EndProxied(c: Conn)
    requires Inv(c) && !c.closed && c.state.End?
    ensures c.request.proxy
  {
  }

  lemma ConnectReplies(env: Env, c: Conn, i: nat)
    requires Inv(c) && RefuseInv(env, c) && Enabled(c, Connect(i))
    ensures ConnectDone(c, i).replies == c.replies && RefuseInv(env, ConnectDone(c, i))
  {
    RefusedAlike(env, c.request, c.request.(connected := true));
    hide Refused, DumpText;
  }

  lemma StepReplies(env: Env, c: Conn, e: Event)
    requires Inv(c) && RefuseInv(env, c) && Enabled(c, e)
    ensures Replied(c.replies, Step(env, c, e).replies, RefusedNow(env, c, e)) && RefuseInv(env, Step(env, c, e))
  {
    NoReply(c.replies);
    match e {
      case Recv(_, _, _) =>
        hide *;
        RecvReplies(env, c, e);
      case Connect(i) =>
        ConnectReplies(env, c, i);
        hide Inv, Refused, Replied, RefuseInv, ConnectDone;
      case PeerClosed =>
        hide Inv, Refused, Replied;
    }
  }

  lemma {:induction false} RunReplies(env: Env, c: Conn, run: seq<Event>)
    requires Inv(c) && RefuseInv(env, c) && Legal(env, c, run)
    ensures Replied(c.replies, Run(env, c, run).replies, Refusals(env, c, run))
    decreases |run|
  {
    hide Inv, RefuseInv, RefusedNow, Step, Enabled, Replied;
    if run == [] {
      NoReply(c.replies);
    } else {
      var c1 := Step(env, c, run[0]);
      StepKeepsInv(env, c, run[0]);
      StepReplies(env, c, run[0]);
      RunReplies(env, c1, run[1..]);
      RepliedBoth(c.replies, c1.replies, Run(env, c1, run[1..]).replies,
                  RefusedNow(env, c, run[0]), Refusals(env, c1, run[1..]));
    }
  }

  lemma {:induction false} RefusalsRefused(env: Env, c: Conn, run: seq<Event>, k: nat)
    requires Legal(env, c, run) && k < |Refusals(env, c, run)|
    ensures Refused(env, Refusals(env, c, run)[k])
    decreases |run|
  {
    hide Step, Enabled, Refused;
    var n := |RefusedNow(env, c, run[0])|;
    if k >= n {
      RefusalsRefused(env, Step(env, c, run[0]), run[1..], k - n);
    }
  }

  /** Over every run the client gets one answer for each request that was complete and refused, in
      order, and no other; a request that was passed on is not refused. */
  lemma EveryRefusalAnswered(env: Env, run: seq<Event>)
    requires Legal(env, INIT, run)
    ensures var replies, rs := Run(env, INIT, run).replies, Refusals(env, INIT, run);
            && |replies| == |rs|
            && forall k :: 0 <= k < |rs| ==>
                 && Refused(env, rs[k])
                 && replies[k] == "HTTP/1." + IntText(rs[k].minor) + " 403 Forbidden\r\nContent-Length: 0\r\n\r\n"
  {
    InitInv();
    assert RefuseInv(env, INIT);
    RunReplies(env, INIT, run);
    forall k: nat | k < |Refusals(env, INIT, run)| ensures Refused(env, Refusals(env, INIT, run)[k]) {
      RefusalsRefused(env, INIT, run, k);
    }
    var replies, rs := Run(env, INIT, run).replies, Refusals(env, INIT, run);
    hide Run, Legal, Refusals, Refused, IntText;
    assert replies[|INIT.replies|..] == replies;
    forall k | 0 <= k < |rs|
      ensures replies[k] == "HTTP/1." + IntText(rs[k].minor) + " 403 Forbidden\r\nContent-Length: 0\r\n\r\n"
    {
      assert Says403(replies[k], rs[k]);
    }
  }

  // ---- what closes a connection

  /** Does the read `e` close the connection? */
  ghost predicate Closes(env: Env, c: Conn, e: Event)
    requires e.Recv?
  {
    match c.state
    case FirstLine => |e.data| < 2 || ParseRequestLine(EMPTY, Strip(e.data)).None?
    case Head =>
      if e.data == CRLF then
        TextOf(c.request, Host) == ""
        || (if Refused(env, c.request) then c.request.contentLength == 0 && (e.replyCloses || !c.request.keepalive)
            else !e.socketOk)
      else |e.data| < 2 || ':' !in Strip(e.data)
    case Body =>
      Refused(env, c.request) && |e.data| == c.request.contentLength && (e.replyCloses || !c.request.keepalive)
    case _ => false
  }

  lemma EndCloses(c: Conn, replyCloses: bool)
    requires !c.closed
    ensures AtEnd(c, replyCloses).closed <==> !c.request.proxy && (replyCloses || !c.request.keepalive)
  {
    hide Forbidden;
  }

  lemma BodyCloses(c: Conn, data: string, replyCloses: bool)
    requires !c.closed
    ensures AtBody(c, data, replyCloses).closed <==>
            |data| == c.request.contentLength && !c.request.proxy && (replyCloses || !c.request.keepalive)
  {
    var c1 := PassBody(c, data);
    assert c1 == c.(upstreams := c1.upstreams) by { hide Forward; }
    hide PassBody, AtEnd;
    EndCloses(c1.(state := End, request := c1.request.(body := Some(data), bodyLen := c1.request.bodyLen + |data|)),
              replyCloses);
  }

  lemma HeadEndCloses(env: Env, c: Conn, socketOk: bool, replyCloses: bool)
    requires !c.closed
    ensures AtHeadEnd(c, env, CRLF, socketOk, replyCloses).closed <==>
            TextOf(c.request, Host) == ""
            || (if Refused(env, c.request) then c.request.contentLength == 0 && (replyCloses || !c.request.keepalive)
                else !socketOk)
  {
    OpenKeeps(env, c, socketOk);
    OpenRefuses(env, c, socketOk);
    if TextOf(c.request, Host) != "" {
      RefusedExactly(env, c.request);
    }
    var c1 := OpenUpstream(c, env, socketOk).0;
    BodyCloses(c1.(state := End), CRLF, replyCloses);
    EndCloses(c1.(state := End), replyCloses);
    hide AtBody, AtEnd, Refused, SelfAddressed, Proxied, AddressFor, TextOf;
  }

  lemma LineCloses(c: Conn, data: string)
    requires !c.closed
    ensures AtFirstLine(c, data).closed <==> |data| < 2 || ParseRequestLine(c.request, Strip(data)).None?
    ensures |data| >= 2 ==> (AtHeaderLine(c, data).closed <==> ':' !in Strip(data))
  {
    hide ParseRequestLine, Strip, SetHeader, HeaderOf, TrimLeft;
  }

  lemma ReadCloses(env: Env, c: Conn, e: Event)
    requires Inv(c) && RefuseInv(env, c) && Enabled(c, e) && e.Recv?
    ensures Step(env, c, e).closed <==> Closes(env, c, e)
  {
    var c1 := c.(reading := Consumed(c.reading));
    OpenStates(c);
    assert c.state.FirstLine? ==> c.request == EMPTY;
    hide Inv, CanRead, Refused, AtFirstLine, AtHeaderLine, AtHeadEnd, AtBody, AtEnd, Strip, ParseRequestLine, TextOf;
    match c.state {
      case FirstLine =>
        LineCloses(c1, e.data);
      case Head =>
        LineCloses(c1, e.data);
        HeadEndCloses(env, c1.(state := HeadEnd), e.socketOk, e.replyCloses);
      case Body =>
        BodyCloses(c1, e.data, e.replyCloses);
      case End =>
        EndProxied(c);
        EndCloses(c1, e.replyCloses);
      case _ =>
        assert false;
    }
  }

  lemma {:induction false} RunKeepsRefuse(env: Env, c: Conn, run: seq<Event>)
    requires Inv(c) && RefuseInv(env, c) && Legal(env, c, run)
    ensures RefuseInv(env, Run(env, c, run))
    decreases |run|
  {
    hide Inv, RefuseInv, Step, Enabled, Replied;
    if run != [] {
      StepKeepsInv(env, c, run[0]);
      StepReplies(env, c, run[0]);
      RunKeepsRefuse(env, Step(env, c, run[0]), run[1..]);
    }
  }

  /** After every run, the next read closes the connection exactly when it is a malformed line, the end
      of a head without a Host or without a socket for its upstream, or the end of a refused request
      that is not keep-alive or cannot be answered. */
  lemma ClosesExactly(env: Env, run: seq<Event>, e: Event)
    requires Legal(env, INIT, run) && Enabled(Run(env, INIT, run), e) && e.Recv?
    ensures Step(env, Run(env, INIT, run), e).closed <==> Closes(env, Run(env, INIT, run), e)
  {
    InitInv();
    assert RefuseInv(env, INIT);
    hide Run, Legal, Inv, RefuseInv, Step, Enabled, Closes;
    RunKeepsInv(env, INIT, run);
    RunKeepsRefuse(env, INIT, run);
    ReadCloses(env, Run(env, INIT, run), e);
  }

  // ---- one request from its first line to its answerer

  lemma {:induction false} RunAppend(env: Env, c: Conn, a: seq<Event>, b: seq<Event>)
    requires Legal(env, c, a) && Legal(env, Run(env, c, a), b)
    ensures Legal(env, c, a + b) && Run(env, c, a + b) == Run(env, Run(env, c, a), b)
    decreases |a|
  {
    hide Step, Enabled;
    if a == [] {
      assert a + b == b;
    } else {
      assert (a + b)[0] == a[0] && (a + b)[1..] == a[1..] + b;
      RunAppend(env, Step(env, c, a[0]), a[1..], b);
    }
  }

  lemma RunOne(env: Env, c: Conn, e: Event)
    requires Enabled(c, e)
    ensures Legal(env, c, [e]) && Run(env, c, [e]) == Step(env, c, e)
  {
    hide Step, Enabled;
    assert [e][1..] == [];
    assert Run(env, Step(env, c, e), []) == Step(env, c, e);
  }

  /** Appends one event to a run. */
  lemma RunThen(env: Env, c: Conn, run: seq<Event>, e: Event)
    requires Legal(env, c, run) && Enabled(Run(env, c, run), e)
    ensures Legal(env, c, run + [e]) && Run(env, c, run + [e]) == Step(env, Run(env, c, run), e)
  {
    hide Step, Enabled, Legal, Run;
    RunOne(env, Run(env, c, run), e);
    RunAppend(env, c, run, [e]);
  }

  function Received(data: string): Event { Recv(data, true, false) }

  function LineEvents(lines: seq<string>): seq<Event>
  {
    if lines == [] then [] else [Received(lines[0] + CRLF)] + LineEvents(lines[1..])
  }

  lemma ReadsLine(line: string)
    requires Clean(line)
    ensures CanRead(Line, line + CRLF) && Strip(line + CRLF) == line && (line != "" ==> line + CRLF != CRLF)
  {
    LineRead(line, "");
    hide TakeLine, Strip, Clean;
    assert line + CRLF + "" == line + CRLF;
  }

  lemma HeaderRead(env: Env, c: Conn, line: string)
    requires !c.closed && InHead(c) && Clean(line) && line != "" && ParseHead(c.request, line).Some?
    ensures Enabled(c, Received(line + CRLF))
    ensures var c' := Step(env, c, Received(line + CRLF));
            c' == c.(request := ParseHead(c.request, line).value) && InHead(c')
  {
    ReadsLine(line);
    ParseHeadFrame(c.request, line);
    hide ParseHead, Strip, CanRead, Clean, AllConnected;
  }

  lemma {:induction false} HeadersRun(env: Env, c: Conn, lines: seq<string>)
    requires !c.closed && InHead(c) && (forall i :: 0 <= i < |lines| ==> Clean(lines[i]) && lines[i] != "")
    requires ParseLines(c.request, lines).Some?
    ensures Legal(env, c, LineEvents(lines))
    ensures var c' := Run(env, c, LineEvents(lines));
            c' == c.(request := ParseLines(c.request, lines).value) && InHead(c')
    decreases |lines|
  {
    hide InHead, Step, Enabled, ParseHead, Clean;
    if lines != [] {
      HeaderRead(env, c, lines[0]);
      var c1 := Step(env, c, Received(lines[0] + CRLF));
      assert c1 == c.(request := ParseHead(c.request, lines[0]).value);
      HeadersRun(env, c1, lines[1..]);
      var es := LineEvents(lines);
      assert es[0] == Received(lines[0] + CRLF) && es[1..] == LineEvents(lines[1..]);
    }
  }

  /** A request as the client sends it; the body arrives in one read. */
  datatype Exchange = Exchange(first: string, lines: seq<string>, body: string)

  function ParsedOf(x: Exchange): Option<Request>
  {
    match ParseRequestLine(EMPTY, x.first)
    case None => None
    case Some(r) => ParseLines(r, x.lines)
  }

  /** A well-formed request with a Host, not for the proxy itself, whose body is as long as it says. */
  ghost predicate Passable(env: Env, x: Exchange)
  {
    && CleanLines(x) && ParsedOf(x).Some? && TextOf(ParsedOf(x).value, Host) != ""
    && !SelfAddressed(env, ParsedOf(x).value) && ParsedOf(x).value.contentLength == |x.body|
  }

  ghost function Sent(env: Env, x: Exchange): Request
    requires Passable(env, x)
  {
    Proxied(env, ParsedOf(x).value)
  }

  function HeadEvents(x: Exchange): seq<Event>
  {
    [Received(x.first + CRLF)] + LineEvents(x.lines) + [Received(CRLF)]
  }

  function BodyEvents(x: Exchange): seq<Event>
  {
    if x.body == "" then [] else [Received(x.body)]
  }

  /** The events of one exchange; its upstream is number `n`. */
  function Events(x: Exchange, n: nat): seq<Event>
  {
    HeadEvents(x) + [Connect(n)] + BodyEvents(x)
  }

  lemma FirstRead(env: Env, c: Conn, first: string)
    requires Idle(c) && Clean(first) && ParseRequestLine(EMPTY, first).Some?
    ensures Enabled(c, Received(first + CRLF))
    ensures var c' := Step(env, c, Received(first + CRLF));
            c' == c.(request := ParseRequestLine(EMPTY, first).value, state := Head) && InHead(c')
  {
    ReadsLine(first);
    FirstLineParsed(first);
    hide ParseRequestLine, Strip, CanRead, Clean, AllConnected;
  }

  /** The connection while the upstream of `r` is being connected. */
  function Waiting(c: Conn, r: Request, at: Address): Conn
  {
    Conn(if r.contentLength == 0 then End else Body,
         if r.contentLength == 0 then r.(body := Some(CRLF), bodyLen := 2) else r,
         Nothing, false, c.upstreams + [Upstream(r, at, false, "")], c.replies)
  }

  /** Nothing is passed on before the upstream is connected. */
  lemma NoBodyYet(c: Conn)
    requires c.request.proxy && !c.request.connected && c.request.contentLength == 0
    ensures AtBody(c, CRLF, false) == c.(request := c.request.(body := Some(CRLF), bodyLen := c.request.bodyLen + 2))
  {
  }

  lemma HeadEnds(env: Env, c: Conn)
    requires !c.closed && c.state.HeadEnd? && c.reading.Nothing? && c.request.bodyLen == 0
    requires TextOf(c.request, Host) != "" && !SelfAddressed(env, c.request)
    ensures AtHeadEnd(c, env, CRLF, true, false) == Waiting(c, Proxied(env, c.request), AddressFor(env, c.request))
  {
    assert AddressFor(env, Proxied(env, c.request)) == AddressFor(env, c.request);
    hide SelfAddressed, BackendHost, PortFor, AtBody, AtEnd, TextOf;
    var r := Proxied(env, c.request);
    if r.contentLength == 0 {
      NoBodyYet(c.(state := End, request := r, upstreams := c.upstreams + [Upstream(r, AddressFor(env, r), false, "")]));
    }
  }

  lemma ReadsEmptyLine()
    ensures CanRead(Line, CRLF)
  {
    ReadsLine("");
    assert "" + CRLF == CRLF;
    hide CanRead;
  }

  lemma EmptyLineRead(env: Env, c: Conn)
    requires !c.closed && InHead(c) && TextOf(c.request, Host) != "" && !SelfAddressed(env, c.request)
    ensures Enabled(c, Received(CRLF))
    ensures Step(env, c, Received(CRLF)) == Waiting(c, Proxied(env, c.request), AddressFor(env, c.request))
  {
    hide CanRead, SelfAddressed, Proxied, AtHeadEnd, AllConnected, TextOf, Parsed, AtFirstLine, AtHeaderLine, AtBody, AtEnd;
    ReadsEmptyLine();
    HeadEnds(env, c.(state := HeadEnd, reading := Nothing));
  }

  predicate CleanLines(x: Exchange)
  {
    Clean(x.first) && forall i :: 0 <= i < |x.lines| ==> Clean(x.lines[i]) && x.lines[i] != ""
  }

  function LineReads(x: Exchange): seq<Event> { [Received(x.first + CRLF)] + LineEvents(x.lines) }

  lemma LinesRun(env: Env, c: Conn, x: Exchange)
    requires Idle(c) && CleanLines(x) && ParsedOf(x).Some?
    ensures Legal(env, c, LineReads(x))
    ensures var c' := Run(env, c, LineReads(x)); c' == c.(request := ParsedOf(x).value, state := Head) && InHead(c')
  {
    var r := ParseRequestLine(EMPTY, x.first).value;
    FirstRead(env, c, x.first);
    var c1 := c.(request := r, state := Head);
    assert !c1.closed && InHead(c1);
    RunOne(env, c, Received(x.first + CRLF));
    HeadersRun(env, c1, x.lines);
    RunAppend(env, c, [Received(x.first + CRLF)], LineEvents(x.lines));
    hide Legal, Run, Step, Enabled, InHead;
  }

  lemma HeadRun(env: Env, c: Conn, x: Exchange)
    requires Idle(c) && Passable(env, x)
    ensures Legal(env, c, HeadEvents(x))
    ensures Run(env, c, HeadEvents(x)) == Waiting(c, Sent(env, x), AddressFor(env, Sent(env, x)))
  {
    LinesRun(env, c, x);
    var c2 := c.(request := ParsedOf(x).value, state := Head);
    assert !c2.closed;
    EmptyLineRead(env, c2);
    assert AddressFor(env, Sent(env, x)) == AddressFor(env, ParsedOf(x).value);
    RunThen(env, c, LineReads(x), Received(CRLF));
    hide Legal, Run, Step, Enabled, AddressFor, Proxied, ParsedOf, SelfAddressed, TextOf, InHead;
  }

  /** What one exchange leaves for its upstream. */
  function Delivered(r: Request, at: Address, body: string): Upstream
  {
    Upstream(r, at, true, DumpHead(r) + Payload(body))
  }

  predicate ForUpstream(r: Request) { r.proxy && !r.connected && r.body.None? && r.bodyLen == 0 }

  lemma WrittenOnConnect(c: Conn, r: Request, at: Address)
    requires ForUpstream(r)
    ensures var w := Waiting(c, r, at);
            ConnectDone(w, |c.upstreams|).upstreams == c.upstreams + [Upstream(r, at, true, DumpHead(r))]
  {
    var w, n := Waiting(c, r, at), |c.upstreams|;
    DumpIgnoresBody(r, w.request.body, w.request.bodyLen);
    assert !CopiesBody(w.request);
    assert r == w.request.(body := r.body, bodyLen := r.bodyLen);
    hide DumpHead;
    assert w.upstreams[n].out + DumpText(w.request) == DumpHead(r);
    assert w.upstreams[n := Upstream(r, at, true, DumpHead(r))] == c.upstreams + [Upstream(r, at, true, DumpHead(r))];
  }

  lemma AllConnectedSnoc(us: seq<Upstream>, u: Upstream)
    requires AllConnected(us) && u.connected
    ensures AllConnected(us + [u])
  {
  }

  /** With no body, the exchange ends when the upstream is connected. */
  lemma EmptyBodyRun(env: Env, c: Conn, r: Request, at: Address)
    requires AllConnected(c.upstreams) && ForUpstream(r) && r.contentLength == 0
    ensures var w, e := Waiting(c, r, at), Connect(|c.upstreams|);
            && Enabled(w, e) && var c' := Step(env, w, e);
            && c'.upstreams == c.upstreams + [Delivered(r, at, "")] && c'.replies == c.replies && !c'.closed
            && if r.keepalive then Idle(c') else Finished(c')
  {
    WrittenOnConnect(c, r, at);
    AllConnectedSnoc(c.upstreams, Delivered(r, at, ""));
    hide DumpHead, DumpText, AllConnected;
    assert DumpHead(r) + Payload("") == DumpHead(r);
  }

  /** The connection while the body of `r` is read. */
  lemma BodyStarts(env: Env, c: Conn, r: Request, at: Address)
    requires AllConnected(c.upstreams) && ForUpstream(r) && r.contentLength != 0
    ensures var w, e := Waiting(c, r, at), Connect(|c.upstreams|);
            && Enabled(w, e)
            && Step(env, w, e) == Conn(Body, r.(connected := true), Anything, false,
                                       c.upstreams + [Upstream(r, at, true, DumpHead(r))], c.replies)
  {
    WrittenOnConnect(c, r, at);
    hide DumpHead, DumpText, AllConnected;
  }

  lemma BodyRead(env: Env, b: Conn, body: string)
    requires InBody(b) && b.request.proxy && !b.closed && body != "" && |body| == b.request.contentLength
    ensures var n := |b.upstreams| - 1;
            && Enabled(b, Received(body)) && var c' := Step(env, b, Received(body));
            && c'.upstreams == b.upstreams[n := Forward(b.upstreams[n], body)] && c'.replies == b.replies && !c'.closed
            && if b.request.keepalive then Idle(c') else Finished(c')
  {
    hide Forbidden, Payload;
    var n := |b.upstreams| - 1;
    assert b.upstreams[n].connected;
    var us := b.upstreams[n := Forward(b.upstreams[n], body)];
    assert AllConnected(us);
  }

  lemma ForwardDelivers(us: seq<Upstream>, r: Request, at: Address, body: string)
    requires body != ""
    ensures var b := us + [Upstream(r, at, true, DumpHead(r))];
            b[|us| := Forward(b[|us|], body)] == us + [Delivered(r, at, body)]
  {
    hide DumpHead, Payload;
    var b := us + [Upstream(r, at, true, DumpHead(r))];
    assert Forward(b[|us|], body) == Delivered(r, at, body);
  }

  lemma FullBodyRun(env: Env, c: Conn, r: Request, at: Address, body: string)
    requires AllConnected(c.upstreams) && ForUpstream(r) && r.contentLength == |body| && body != ""
    ensures var w, es := Waiting(c, r, at), [Connect(|c.upstreams|)] + [Received(body)];
            && Legal(env, w, es) && var c' := Run(env, w, es);
            && c'.upstreams == c.upstreams + [Delivered(r, at, body)] && c'.replies == c.replies && !c'.closed
            && if r.keepalive then Idle(c') else Finished(c')
  {
    var w, e := Waiting(c, r, at), Connect(|c.upstreams|);
    BodyStarts(env, c, r, at);
    var b := Step(env, w, e);
    AllConnectedSnoc(c.upstreams, Upstream(r, at, true, DumpHead(r)));
    assert InBody(b);
    hide *;
    ForwardDelivers(c.upstreams, r, at, body);
    BodyRead(env, b, body);
    RunOne(env, w, e);
    RunThen(env, w, [e], Received(body));
  }

  /** From the connect to the end of the request. */
  lemma ConnectAndBodyRun(env: Env, c: Conn, r: Request, at: Address, x: Exchange)
    requires AllConnected(c.upstreams) && ForUpstream(r) && r.contentLength == |x.body|
    ensures var w, es := Waiting(c, r, at), [Connect(|c.upstreams|)] + BodyEvents(x);
            && Legal(env, w, es) && var c' := Run(env, w, es);
            && c'.upstreams == c.upstreams + [Delivered(r, at, x.body)] && c'.replies == c.replies && !c'.closed
            && if r.keepalive then Idle(c') else Finished(c')
  {
    var w, e := Waiting(c, r, at), Connect(|c.upstreams|);
    assert BodyEvents(x) == if x.body == "" then [] else [Received(x.body)];
    hide *;
    if x.body == "" {
      EmptyBodyRun(env, c, r, at);
      RunOne(env, w, e);
      assert [e] + [] == [e];
    } else {
      FullBodyRun(env, c, r, at, x.body);
    }
  }

  lemma SentShape(env: Env, x: Exchange)
    requires Passable(env, x)
    ensures var r := Sent(env, x);
            && ForUpstream(r) && r.contentLength == |x.body| && r.backendHost != "" && Printable(r)
            && r.keepalive == ParsedOf(x).value.keepalive
  {
    RequestLineKeeps(x.first);
    FirstLineParsed(x.first);
    var start := ParseRequestLine(EMPTY, x.first).value;
    ParseLinesKeep(start, x.lines);
    ParseLinesFrame(start, x.lines);
    var r := ParsedOf(x).value;
    hide Clean, SelfAddressed, BackendHost, ParseRequestLine, PortFor, FieldOk;
    assert TextOf(r, Host) == "" || FieldOk(TextOf(r, Host), FIELD);
    BackendHostOk(TextOf(r, Host), PortFor(r.path, env.ports));
  }

  lemma {:induction false} ParseLinesFrame(r: Request, lines: seq<string>)
    requires ParseLines(r, lines).Some?
    ensures var q := ParseLines(r, lines).value;
            q.proxy == r.proxy && q.connected == r.connected && q.body == r.body && q.bodyLen == r.bodyLen
    decreases |lines|
  {
    hide ParseHead;
    if lines != [] {
      ParseHeadFrame(r, lines[0]);
      ParseLinesFrame(ParseHead(r, lines[0]).value, lines[1..]);
    }
  }

  /** A request whose body arrives in one read: its upstream reads back the request, with the path
      in origin form and the backend as Host, followed by the body (nothing, if that is a lone
      CRLF). A keep-alive connection is then ready for the next request. */
  lemma ExchangeDelivered(env: Env, c: Conn, x: Exchange)
    requires Idle(c) && Passable(env, x)
    ensures var es := Events(x, |c.upstreams|);
            && Legal(env, c, es) && var c' := Run(env, c, es); var r := Sent(env, x);
            && c'.upstreams == c.upstreams + [Delivered(r, AddressFor(env, r), x.body)] && c'.replies == c.replies && !c'.closed
            && (if r.keepalive then Idle(c') else Finished(c'))
            && ReadHead(Delivered(r, AddressFor(env, r), x.body).out) == Some((Reparsed(r), Payload(x.body)))
  {
    var r := Sent(env, x);
    SentShape(env, x);
    HeadRun(env, c, x);
    assert AllConnected(c.upstreams);
    hide *;
    ConnectAndBodyRun(env, c, r, AddressFor(env, r), x);
    var tail := [Connect(|c.upstreams|)] + BodyEvents(x);
    RunAppend(env, c, HeadEvents(x), tail);
    EventsSplit(x, |c.upstreams|);
    PrintThenParse(r, Payload(x.body));
    DeliveredOut(r, AddressFor(env, r), x.body);
  }

  lemma EventsSplit(x: Exchange, n: nat)
    ensures Events(x, n) == HeadEvents(x) + ([Connect(n)] + BodyEvents(x))
  {
    hide HeadEvents, BodyEvents;
  }

  lemma DeliveredOut(r: Request, at: Address, body: string)
    ensures Delivered(r, at, body).out == DumpHead(r) + Payload(body)
  {
    hide DumpHead, Payload;
  }

  function SessionEvents(xs: seq<Exchange>, n: nat): seq<Event>
  {
    if xs == [] then [] else Events(xs[0], n) + SessionEvents(xs[1..], n + 1)
  }

  /** `u` reads back the request of `x` and its body. */
  ghost predicate Answers(env: Env, u: Upstream, x: Exchange)
  {
    && Passable(env, x) && u.connected
    && ReadHead(u.out) == Some((Reparsed(Sent(env, x)), Payload(x.body)))
  }

  ghost predicate AllAnswer(env: Env, us: seq<Upstream>, xs: seq<Exchange>)
  {
    |us| == |xs| && forall i :: 0 <= i < |xs| ==> Answers(env, us[i], xs[i])
  }

  lemma AnswersCons(env: Env, before: seq<Upstream>, u: Upstream, us: seq<Upstream>, xs: seq<Exchange>)
    requires xs != [] && before + [u] <= us && Answers(env, u, xs[0])
    requires AllAnswer(env, us[|before| + 1..], xs[1..])
    ensures before <= us && AllAnswer(env, us[|before|..], xs)
  {
    hide Answers;
    var n := |before|;
    assert us[..n + 1] == before + [u];
    assert us[n] == us[..n + 1][n] == u && us[..n] == us[..n + 1][..n] == before;
    assert forall i :: 1 <= i < |xs| ==> us[n..][i] == us[n + 1..][i - 1] && xs[i] == xs[1..][i - 1];
  }

  ghost predicate KeepAlive(env: Env, x: Exchange) { Passable(env, x) && Sent(env, x).keepalive }

  lemma SessionStarts(env: Env, c: Conn, x: Exchange) returns (c1: Conn, u: Upstream)
    requires Idle(c) && KeepAlive(env, x)
    ensures var es := Events(x, |c.upstreams|);
            Legal(env, c, es) && c1 == Run(env, c, es)
    ensures Idle(c1) && c1.upstreams == c.upstreams + [u] && Answers(env, u, x)
  {
    ExchangeDelivered(env, c, x);
    c1, u := Run(env, c, Events(x, |c.upstreams|)), Delivered(Sent(env, x), AddressFor(env, Sent(env, x)), x.body);
    hide Idle, ReadHead, Legal, Run, Events, Reparsed, Sent;
  }

  lemma SessionOver(env: Env, c: Conn)
    ensures Legal(env, c, SessionEvents([], |c.upstreams|)) && Run(env, c, SessionEvents([], |c.upstreams|)) == c
    ensures AllAnswer(env, c.upstreams[|c.upstreams|..], [])
  {
  }

  lemma SessionCons(xs: seq<Exchange>, n: nat)
    requires xs != []
    ensures SessionEvents(xs, n) == Events(xs[0], n) + SessionEvents(xs[1..], n + 1)
  {
  }

  /** A whole keep-alive session: each request gets an upstream of its own, in order, and each
      upstream reads back exactly its request and body. */
  lemma {:induction false} SessionDelivered(env: Env, c: Conn, xs: seq<Exchange>)
    requires Idle(c) && forall i :: 0 <= i < |xs| ==> KeepAlive(env, xs[i])
    ensures var es := SessionEvents(xs, |c.upstreams|);
            && Legal(env, c, es) && var c' := Run(env, c, es);
            && Idle(c') && c.upstreams <= c'.upstreams && AllAnswer(env, c'.upstreams[|c.upstreams|..], xs)
    decreases |xs|
  {
    hide *;
    if xs == [] {
      SessionOver(env, c);
    } else {
      var n := |c.upstreams|;
      var c1, u := SessionStarts(env, c, xs[0]);
      SessionDelivered(env, c1, xs[1..]);
      SessionCons(xs, n);
      RunAppend(env, c, Events(xs[0], n), SessionEvents(xs[1..], n + 1));
      AnswersCons(env, c.upstreams, u, Run(env, c1, SessionEvents(xs[1..], n + 1)).upstreams, xs);
    }
  }

  // ---- one request that is refused

  /** The request `r` has been answered: a keep-alive connection is ready for the next one, any other
      is closed. */
  predicate Answered(c: Conn, c': Conn, r: Request)
  {
    && c'.upstreams == c.upstreams && Replied(c.replies, c'.replies, [r])
    && if r.keepalive then Idle(c') else c'.closed
  }

  lemma EndAnswers(c: Conn)
    requires !c.closed && !c.request.proxy && c.request.major == 1 && AllConnected(c.upstreams)
    ensures Answered(c, AtEnd(c, false), c.request)
  {
    OneReply(c.replies, c.request);
    hide Forbidden, Replied, AllConnected;
  }

  lemma RefusedEmptyLineRead(env: Env, c: Conn)
    requires !c.closed && InHead(c) && Refused(env, c.request)
    ensures Enabled(c, Received(CRLF))
    ensures var c', n := Step(env, c, Received(CRLF)), c.request.contentLength;
            if n == 0 then Answered(c, c', c.request) else c' == c.(state := Body, reading := Block(Unsigned(n)))
  {
    ReadsEmptyLine();
    RefusedExactly(env, c.request);
    assert TextOf(c.request, Host) != "" && c.request.(proxy := false) == c.request;
    var c1 := c.(state := HeadEnd, reading := Nothing);
    assert OpenUpstream(c1, env, true) == (c1, true) by { hide SelfAddressed, Refused, TextOf, AllConnected, Proxied; }
    EndAnswers(c1.(state := End));
    hide CanRead, Refused, OpenUpstream, AllConnected, TextOf, AtFirstLine, AtHeaderLine, AtBody, AtEnd, Replied;
  }

  lemma RefusedBodyRead(env: Env, b: Conn, body: string)
    requires !b.closed && b.state.Body? && b.reading == Block(|body|) && AllConnected(b.upstreams)
    requires !b.request.proxy && b.request.major == 1 && |body| == b.request.contentLength
    ensures Enabled(b, Received(body)) && Answered(b, Step(env, b, Received(body)), b.request)
  {
    var c := b.(reading := Nothing, state := End,
                request := b.request.(body := Some(body), bodyLen := b.request.bodyLen + |body|));
    EndAnswers(c);
    hide AtEnd, Replied, AllConnected;
    ReplySame(b.replies, AtEnd(c, false).replies, c.request, b.request);
  }

  /** A well-formed request for the proxy itself, whose body is as long as it says. */
  ghost predicate Refusable(env: Env, x: Exchange)
  {
    && CleanLines(x) && ParsedOf(x).Some? && Refused(env, ParsedOf(x).value)
    && ParsedOf(x).value.contentLength == |x.body| < 0x8000_0000
  }

  lemma RefusedHeadRun(env: Env, c: Conn, x: Exchange)
    requires Idle(c) && CleanLines(x) && ParsedOf(x).Some? && Refused(env, ParsedOf(x).value)
    ensures Legal(env, c, HeadEvents(x))
    ensures var c', r := Run(env, c, HeadEvents(x)), ParsedOf(x).value;
            && r.major == 1 && !r.proxy
            && if r.contentLength == 0 then Answered(c, c', r)
               else c' == c.(request := r, state := Body, reading := Block(Unsigned(r.contentLength)))
  {
    LinesRun(env, c, x);
    var c1 := c.(request := ParsedOf(x).value, state := Head);
    assert !c.closed && InHead(c1);
    RefusedEmptyLineRead(env, c1);
    RunThen(env, c, LineReads(x), Received(CRLF));
    assert HeadEvents(x) == LineReads(x) + [Received(CRLF)];
    assert c1.request.major == 1 && !c1.request.proxy;
    hide *;
    AnsweredFrom(c1, c, Run(env, c, HeadEvents(x)), c1.request);
  }

  /** Only the upstreams and replies of the connection before matter. */
  lemma AnsweredFrom(b: Conn, c: Conn, c': Conn, r: Request)
    requires b.upstreams == c.upstreams && b.replies == c.replies
    ensures Answered(b, c', r) <==> Answered(c, c', r)
  {
    hide Replied, Idle;
  }

  /** A refused request, with or without a body, is answered once, no upstream is opened for it, and
      the connection goes on exactly when it is keep-alive. */
  lemma RefusedExchange(env: Env, c: Conn, x: Exchange)
    requires Idle(c) && Refusable(env, x)
    ensures var es := HeadEvents(x) + BodyEvents(x);
            Legal(env, c, es) && Answered(c, Run(env, c, es), ParsedOf(x).value)
  {
    hide Idle, Legal, Run, HeadEvents, Answered, ParsedOf, Refused, CleanLines;
    RefusedHeadRun(env, c, x);
    if x.body == "" {
      assert HeadEvents(x) + [] == HeadEvents(x);
    } else {
      IdleFacts(c);
      RefusedBodyRun(env, c, HeadEvents(x), ParsedOf(x).value, x.body);
    }
  }

  lemma IdleFacts(c: Conn)
    requires Idle(c)
    ensures !c.closed && AllConnected(c.upstreams)
  {
  }

  lemma RefusedBodyRun(env: Env, c: Conn, run: seq<Event>, r: Request, body: string)
    requires !c.closed && AllConnected(c.upstreams) && Legal(env, c, run)
    requires !r.proxy && r.major == 1 && |body| == r.contentLength
    requires Run(env, c, run) == c.(request := r, state := Body, reading := Block(|body|))
    ensures Legal(env, c, run + [Received(body)]) && Answered(c, Run(env, c, run + [Received(body)]), r)
  {
    var b := Run(env, c, run);
    hide *;
    RefusedBodyRead(env, b, body);
    RunThen(env, c, run, Received(body));
    AnsweredFrom(b, c, Step(env, b, Received(body)), r);
  }

  // ---- where a body ends

  /** One read of a proxied body ends the request exactly when it alone is as long as the whole
      body; it is passed on either way. */
  lemma BodyReadEnds(env: Env, c: Conn, data: string, socketOk: bool, replyCloses: bool)
    requires InBody(c) && c.request.proxy && !c.closed && data != ""
    ensures var e, n := Recv(data, socketOk, replyCloses), |c.upstreams| - 1;
            && Enabled(c, e) && var c' := Step(env, c, e);
            && (c'.state.Body? <==> |data| != c.request.contentLength)
            && (|data| != c.request.contentLength ==> InBody(c') && c'.request.contentLength == c.request.contentLength)
            && (|data| == c.request.contentLength ==> if c.request.keepalive then Idle(c') else Finished(c'))
            && !c'.closed && c'.request.proxy == (|data| != c.request.contentLength || !c.request.keepalive)
            && c'.upstreams == c.upstreams[n := Forward(c.upstreams[n], data)]
            && c'.upstreams[n].out == c.upstreams[n].out + (if data == "\r\n" then "" else data)
  {
    PayloadIs(data);
    hide Forbidden, Payload;
    var n := |c.upstreams| - 1;
    assert c.upstreams[n].connected;
    assert AllConnected(c.upstreams[n := Forward(c.upstreams[n], data)]);
  }

  lemma PayloadIs(data: string)
    ensures Payload(data) == if data == "\r\n" then "" else data
  {
  }

  function Reads(datas: seq<string>): seq<Event>
  {
    if datas == [] then [] else [Received(datas[0])] + Reads(datas[1..])
  }

  /** A body that never comes in a single read of its full length never ends: whatever else the
      client sends, even its next request, is passed on as body. */
  lemma {:induction false} SplitBodyNeverEnds(env: Env, c: Conn, datas: seq<string>)
    requires InBody(c) && c.request.proxy && !c.closed
    requires forall i :: 0 <= i < |datas| ==> datas[i] != "" && |datas[i]| != c.request.contentLength
    ensures var es, n := Reads(datas), |c.upstreams| - 1;
            && Legal(env, c, es) && var c' := Run(env, c, es);
            && InBody(c') && !c'.closed && c'.request.proxy && |c'.upstreams| == n + 1
            && c'.upstreams[n].out == c.upstreams[n].out + Concat(datas)
    decreases |datas|
  {
    hide InBody, Step, Enabled, Payload;
    InBodyHasUpstream(c);
    var n := |c.upstreams| - 1;
    if datas == [] {
      assert c.upstreams[n].out + Concat(datas) == c.upstreams[n].out;
    } else {
      BodyReadEnds(env, c, datas[0], true, false);
      var c1 := Step(env, c, Received(datas[0]));
      SplitBodyNeverEnds(env, c1, datas[1..]);
      var es := Reads(datas);
      assert es[0] == Received(datas[0]) && es[1..] == Reads(datas[1..]);
      Assoc(c.upstreams[n].out, Payload(datas[0]), Concat(datas[1..]));
    }
  }

  lemma InBodyHasUpstream(c: Conn)
    requires InBody(c) && c.request.proxy
    ensures c.upstreams != []
  {
  }

  // ---- the dump fits its buffer

  /** The words and numbers of a line that is read as a request line or a header fit the fields
      they are stored in. */
  predicate LineFits(c: Conn, data: string)
  {
    |data| >= 2 ==>
      var line := Strip(data);
      match c.state
      case FirstLine =>
        var r := ScanRequestLine(c.request, line);
        |r.verb| <= METHOD && |r.path| <= URL && Int32(r.minor)
      case Head =>
        (match ParseHead(c.request, line) case None => true case Some(r) => Int32(r.contentLength))
      case _ => true
  }

  ghost predicate AllFit(env: Env, c: Conn, run: seq<Event>)
    requires Legal(env, c, run)
    decreases |run|
  {
    run != [] ==>
      (run[0].Recv? ==> LineFits(c, run[0].data)) && AllFit(env, Step(env, c, run[0]), run[1..])
  }

  lemma FirstLineFits(c: Conn, data: string)
    requires c.request == EMPTY && c.state.FirstLine? && LineFits(c, data)
    ensures FitsStruct(AtFirstLine(c, data).request)
  {
    if |data| >= 2 && ParseRequestLine(EMPTY, Strip(data)).Some? {
      FirstLineParsed(Strip(data));
    }
    hide ScanRequestLine, Strip;
  }

  lemma HeaderLineFits(c: Conn, data: string)
    requires FitsStruct(c.request) && c.state.Head? && |data| >= 2 && LineFits(c, data)
    ensures FitsStruct(AtHeaderLine(c, data).request)
  {
    var line := Strip(data);
    hide Strip, HeaderOf, TrimLeft, Atoi, SameIgnoringCase;
    if ParseHead(c.request, line).Some? {
      ParseHeadFrame(c.request, line);
    }
  }

  lemma EndFits(c: Conn, replyCloses: bool)
    requires FitsStruct(c.request)
    ensures FitsStruct(AtEnd(c, replyCloses).request)
  {
    hide Forbidden;
  }

  lemma BodyFits(c: Conn, data: string, replyCloses: bool)
    requires FitsStruct(c.request)
    ensures FitsStruct(AtBody(c, data, replyCloses).request)
  {
    var c1 := PassBody(c, data);
    var c2 := c1.(request := c1.request.(body := Some(data), bodyLen := c1.request.bodyLen + |data|));
    hide AtEnd, Forward;
    EndFits(c2.(state := End), replyCloses);
  }

  lemma HeadEndFits(c: Conn, env: Env, data: string, socketOk: bool, replyCloses: bool)
    requires FitsStruct(c.request)
    ensures FitsStruct(AtHeadEnd(c, env, data, socketOk, replyCloses).request)
  {
    var c1 := OpenUpstream(c, env, socketOk).0;
    hide AtEnd, AtBody, PortFor, SelfAddressed, HostName, IntText;
    assert FitsStruct(c1.request);
    BodyFits(c1.(state := End), data, replyCloses);
    EndFits(c1.(state := End), replyCloses);
  }

  lemma StepKeepsFit(env: Env, c: Conn, e: Event)
    requires Inv(c) && Enabled(c, e) && FitsStruct(c.request)
    requires e.Recv? ==> LineFits(c, e.data)
    ensures FitsStruct(Step(env, c, e).request)
  {
    match e {
      case Recv(data, socketOk, replyCloses) =>
        var c1 := c.(reading := Consumed(c.reading));
        assert c.state.FirstLine? ==> c.request == EMPTY;
        hide Inv, CanRead, LineFits, FitsStruct, AtFirstLine, AtHeaderLine, AtHeadEnd, AtBody, AtEnd;
        match c.state {
          case FirstLine =>
            assert LineFits(c1, data) by { SameLineFits(c, c1, data); }
            FirstLineFits(c1, data);
          case Head =>
            if |data| >= 2 {
              SameLineFits(c, c1, data);
              if data == CRLF {
                HeadEndFits(c1.(state := HeadEnd), env, data, socketOk, replyCloses);
              } else {
                HeaderLineFits(c1, data);
              }
            }
          case Body =>
            BodyFits(c1, data, replyCloses);
          case End =>
            EndFits(c1, replyCloses);
          case _ =>
            assert false by { OpenStates(c); }
        }
      case Connect(i) =>
        hide DumpText;
      case PeerClosed =>
    }
  }

  lemma SameLineFits(c: Conn, c1: Conn, data: string)
    requires LineFits(c, data) && c1.state == c.state && c1.request == c.request
    ensures LineFits(c1, data)
  {
    hide Strip, ScanRequestLine, ParseHead;
  }

  lemma OpenStates(c: Conn)
    requires Inv(c) && !c.closed
    ensures !c.state.Begin? && !c.state.HeadEnd?
  {
  }

  lemma {:induction false} RunKeepsFit(env: Env, c: Conn, run: seq<Event>)
    requires Inv(c) && FitsStruct(c.request) && Legal(env, c, run) && AllFit(env, c, run)
    ensures FitsStruct(Run(env, c, run).request)
    decreases |run|
  {
    hide Inv, Step, Enabled, FitsStruct, LineFits;
    if run != [] {
      StepKeepsInv(env, c, run[0]);
      StepKeepsFit(env, c, run[0]);
      RunKeepsFit(env, Step(env, c, run[0]), run[1..]);
    }
  }

  /** Over every run whose lines fit their fields, whatever is dumped fits the buffer. */
  lemma EveryDumpFits(env: Env, run: seq<Event>, i: nat)
    requires Legal(env, INIT, run) && AllFit(env, INIT, run) && Enabled(Run(env, INIT, run), Connect(i))
    ensures |DumpText(Run(env, INIT, run).request)| <= 1109 < DUMP_BUFFER
  {
    var c := Run(env, INIT, run);
    RunKeepsInv(env, INIT, run);
    RunKeepsFit(env, INIT, run);
    hide Run, Legal, AllFit, ConnectDone, Inv, DumpHead, FitsStruct;
    ConnectStep(c, i);
    DumpIsHead(c);
    DumpFits(c.request);
    assert DumpText(c.request) == DumpHead(c.request) + "";
  }

  // ---- what every upstream reads back

  /** A line that is read as a request line or a header is free of CR, LF and NUL before its end. */
  predicate CleanLine(c: Conn, data: string)
  {
    (c.state.FirstLine? || c.state.Head?) && |data| >= 2 ==> Clean(Strip(data))
  }

  ghost predicate CleanRun(env: Env, c: Conn, run: seq<Event>)
    requires Legal(env, c, run)
    decreases |run|
  {
    run != [] ==>
      (run[0].Recv? ==> CleanLine(c, run[0].data)) && CleanRun(env, Step(env, c, run[0]), run[1..])
  }

  predicate HeadsPrintable(us: seq<Upstream>) { forall i :: 0 <= i < |us| ==> Printable(us[i].head) }

  /** Every request that was passed on can be printed, and so can the one whose head is read. */
  predicate PrintInv(c: Conn)
  {
    HeadsPrintable(c.upstreams) && (c.state.Head? ==> HeadOk(c.request))
  }

  lemma FirstLineOk(c: Conn, data: string)
    requires c.request == EMPTY && c.state.FirstLine? && CleanLine(c, data)
    ensures var c' := AtFirstLine(c, data); c'.upstreams == c.upstreams && (c'.state.Head? ==> HeadOk(c'.request))
  {
    if |data| >= 2 && ParseRequestLine(EMPTY, Strip(data)).Some? {
      RequestLineKeeps(Strip(data));
    }
    hide Strip, ParseRequestLine, HeadOk;
  }

  lemma HeaderLineOk(c: Conn, data: string)
    requires HeadOk(c.request) && c.state.Head? && |data| >= 2 && CleanLine(c, data)
    ensures var c' := AtHeaderLine(c, data); c'.upstreams == c.upstreams && HeadOk(c'.request)
  {
    hide Strip, ParseHead, HeadOk, Clean;
    if ParseHead(c.request, Strip(data)).Some? {
      HeadLineKeeps(c.request, Strip(data));
    }
  }

  lemma ProxiedPrintable(env: Env, r: Request)
    requires HeadOk(r) && Parsed(r) && TextOf(r, Host) != ""
    ensures Printable(Proxied(env, r))
  {
    assert FieldOk(TextOf(r, Host), FIELD);
    BackendHostOk(TextOf(r, Host), PortFor(r.path, env.ports));
    hide FieldOk, BackendHost, PortFor, Clean, IsToken;
  }

  lemma HeadEndOk(c: Conn, env: Env, data: string, socketOk: bool, replyCloses: bool)
    requires HeadsPrintable(c.upstreams) && HeadOk(c.request) && Parsed(c.request) && c.state.HeadEnd?
    ensures var c' := AtHeadEnd(c, env, data, socketOk, replyCloses); HeadsPrintable(c'.upstreams) && !c'.state.Head?
  {
    AtHeadEndUpstreams(c, env, data, socketOk, replyCloses);
    LeavesHead(c, env, data, socketOk, replyCloses);
    if TextOf(c.request, Host) != "" {
      ProxiedPrintable(env, c.request);
    }
    hide AtHeadEnd, Printable, Proxied, SelfAddressed, HeadOk, TextOf;
  }

  lemma LeavesHead(c: Conn, env: Env, data: string, socketOk: bool, replyCloses: bool)
    requires c.state.HeadEnd?
    ensures !AtHeadEnd(c, env, data, socketOk, replyCloses).state.Head?
  {
    hide Proxied, SelfAddressed, Forbidden;
  }

  lemma BodyOk(c: Conn, data: string, replyCloses: bool)
    requires HeadsPrintable(c.upstreams) && c.state.Body?
    ensures var c' := AtBody(c, data, replyCloses); HeadsPrintable(c'.upstreams) && !c'.state.Head?
  {
    AtBodyUpstreams(c, data, replyCloses);
    hide Printable, Forbidden, Payload;
  }

  lemma RecvKeepsPrint(env: Env, c: Conn, data: string, socketOk: bool, replyCloses: bool)
    requires Inv(c) && PrintInv(c) && !c.closed && CanRead(c.reading, data) && CleanLine(c, data)
    ensures PrintInv(Receive(c, env, data, socketOk, replyCloses))
  {
    var c1 := c.(reading := Consumed(c.reading));
    OpenStates(c);
    assert c.state.FirstLine? ==> c.request == EMPTY;
    assert c.state.Head? ==> Parsed(c.request);
    AtEndUpstreams(c1, replyCloses);
    assert c.state.End? ==> !AtEnd(c1, replyCloses).state.Head?;
    hide Inv, CanRead, HeadOk, HeadsPrintable, Parsed, AtFirstLine, AtHeaderLine, AtHeadEnd, AtBody, AtEnd;
    if c.state.FirstLine? {
      FirstLineOk(c1, data);
    } else if c.state.Head? {
      if data == CRLF {
        HeadEndOk(c1.(state := HeadEnd), env, data, socketOk, replyCloses);
      } else if |data| >= 2 {
        HeaderLineOk(c1, data);
      }
    } else if c.state.Body? {
      BodyOk(c1, data, replyCloses);
    }
  }

  lemma ConnectKeepsPrint(c: Conn, i: nat)
    requires Inv(c) && PrintInv(c) && !c.closed && i < |c.upstreams| && !c.upstreams[i].connected
    ensures PrintInv(ConnectDone(c, i))
  {
    ConnectStep(c, i);
    assert c.state.Body? || c.state.End?;
    hide Inv, Connecting, Printable, DumpText, HeadOk;
  }

  lemma StepKeepsPrint(env: Env, c: Conn, e: Event)
    requires Inv(c) && PrintInv(c) && Enabled(c, e) && (e.Recv? ==> CleanLine(c, e.data))
    ensures PrintInv(Step(env, c, e))
  {
    match e {
      case Recv(data, socketOk, replyCloses) =>
        hide Inv, PrintInv, Receive, CanRead, CleanLine;
        RecvKeepsPrint(env, c, data, socketOk, replyCloses);
      case Connect(i) =>
        hide Inv, Printable, DumpText, HeadOk;
        ConnectKeepsPrint(c, i);
      case PeerClosed =>
        hide Inv, HeadsPrintable, HeadOk;
    }
  }

  lemma {:induction false} RunKeepsPrint(env: Env, c: Conn, run: seq<Event>)
    requires Inv(c) && PrintInv(c) && Legal(env, c, run) && CleanRun(env, c, run)
    ensures PrintInv(Run(env, c, run))
    decreases |run|
  {
    hide Inv, PrintInv, Step, Enabled, CleanLine;
    if run != [] {
      StepKeepsInv(env, c, run[0]);
      StepKeepsPrint(env, c, run[0]);
      RunKeepsPrint(env, Step(env, c, run[0]), run[1..]);
    }
  }

  lemma HeadPrintable(c: Conn, i: nat)
    requires PrintInv(c) && i < |c.upstreams|
    ensures Printable(c.upstreams[i].head)
  {
  }

  lemma InitPrint()
    ensures PrintInv(INIT)
  {
  }

  /** Over every run whose lines are clean, every connected upstream reads back the request it was
      opened for, with the path in origin form and the backend as Host, followed by exactly what the
      client sent while the body for it was read, but for lone CRLFs. */
  lemma EveryUpstreamReadsBack(env: Env, run: seq<Event>, i: nat)
    requires Legal(env, INIT, run) && CleanRun(env, INIT, run)
    requires i < |Run(env, INIT, run).upstreams| && Run(env, INIT, run).upstreams[i].connected
    ensures var u := Run(env, INIT, run).upstreams[i];
            ReadHead(u.out) == Some((Reparsed(u.head), Concat(BodyReads(env, INIT, run, i))))
  {
    hide *;
    InitInv();
    InitPrint();
    RunKeepsPrint(env, INIT, run);
    HeadPrintable(Run(env, INIT, run), i);
    HeadOnceThenBody(env, run, i);
    PrintThenParse(Run(env, INIT, run).upstreams[i].head, Concat(BodyReads(env, INIT, run, i)));
  }

  lemma DumpIsReady(c: Conn, i: nat)
    requires Inv(c) && FitsStruct(c.request) && !c.closed && i < |c.upstreams| && !c.upstreams[i].connected
    ensures !CopiesBody(c.request) && |DumpHead(c.request)| < DUMP_BUFFER && Inv(ConnectDone(c, i))
  {
    hide DumpHead, FitsStruct, Inv, ConnectDone;
    ConnectStep(c, i);
    DumpIsHead(c);
    DumpFits(c.request);
  }

  lemma OpenMeans(env: Env, c: Conn, socketOk: bool)
    ensures var (c1, ok), r := OpenUpstream(c, env, socketOk), c.request;
            && (!ok <==> TextOf(r, Host) == "" || (!Refused(env, r) && !socketOk))
            && (ok ==> (c1.request.proxy <==> !Refused(env, r)))
            && (ok && c1.request.proxy ==>
                  var us := c1.upstreams;
                  && us != [] && us[..|us| - 1] == c.upstreams
                  && Routed(env, us[|us| - 1]) && us[|us| - 1].head == c1.request)
  {
    OpenRefuses(env, c, socketOk);
    var r := c.request;
    assert TextOf(r, Host) == "" ==> !Refused(env, r);
    if TextOf(r, Host) != "" {
      RefusedExactly(env, r);
      assert AddressFor(env, Proxied(env, r)) == AddressFor(env, r);
      if !SelfAddressed(env, r) {
        OpenedRouted(env, r);
      }
    }
    hide Refused, Routed, SelfAddressed, Proxied, AddressFor, TextOf;
  }

  lemma ReadMeans(env: Env, c: Conn, e: Event)
    requires e.Recv? && !c.closed && CanRead(c.reading, e.data)
    ensures var c' := Receive(c, env, e.data, e.socketOk, e.replyCloses);
            Inv(c) && RefuseInv(env, c) ==>
              && Replied(c.replies, c'.replies, RefusedNow(env, c, e)) && (c'.closed <==> Closes(env, c, e))
              && Inv(c') && RefuseInv(env, c')
  {
    assert Enabled(c, e) && Step(env, c, e) == Receive(c, env, e.data, e.socketOk, e.replyCloses) by { hide Receive; }
    hide *;
    if Inv(c) && RefuseInv(env, c) {
      StepReplies(env, c, e);
      ReadCloses(env, c, e);
      StepKeepsInv(env, c, e);
    }
  }

  // ---- the connection object

  class ProxyConnection {
    var state: State
    var request: Request
    var reading: Reading
    var closed: bool
    var upstreams: seq<Upstream>
    var replies: seq<string>

    ghost function Snapshot(): Conn
      reads this
    {
      Conn(state, request, reading, closed, upstreams, replies)
    }

    /** `new_conn_event`. */
    constructor ()
      ensures Snapshot() == INIT && Inv(Snapshot())
    {
      state, request, reading, closed, upstreams, replies := FirstLine, EMPTY, Line, false, [], [];
      new;
      InitInv();
    }

    /** Every request that does not go upstream is refused. */
    method OnRequest(replyCloses: bool)
      modifies this`replies, this`closed
      ensures replies == old(replies) + [Forbidden(request)] && closed == replyCloses
    {
      replies := replies + ["HTTP/" + IntText(request.major) + "." + IntText(request.minor)
                            + " 403 Forbidden\r\nContent-Length: 0\r\n\r\n"];
      closed := replyCloses;
    }

    method OnBody(data: string)
      modifies this`upstreams
      ensures Snapshot() == PassBody(old(Snapshot()), data)
    {
      var n := |upstreams|;
      if data == CRLF {
        assert n > 0 ==> upstreams[n - 1].out + "" == upstreams[n - 1].out;
        return;
      }
      if request.proxy && request.connected && n > 0 {
        var u := upstreams[n - 1];
        upstreams := upstreams[n - 1 := u.(out := u.out + data)];
      }
    }

    method OnHeadEnd(env: Env, socketOk: bool) returns (ok: bool)
      modifies this`request, this`upstreams
      ensures (Snapshot(), ok) == OpenUpstream(old(Snapshot()), env, socketOk)
      ensures !ok <==> TextOf(old(request), Host) == "" || (!Refused(env, old(request)) && !socketOk)
      ensures ok ==> (request.proxy <==> !Refused(env, old(request)))
      ensures ok && request.proxy ==>
                && upstreams != [] && upstreams[..|upstreams| - 1] == old(upstreams)
                && Routed(env, upstreams[|upstreams| - 1]) && upstreams[|upstreams| - 1].head == request
    {
      OpenMeans(env, Snapshot(), socketOk);
      hide Refused, Routed;
      hide IntText, PortFor, Truncate, GoesTo;
      var host := TextOf(request, Host);
      if host == "" {
        return false;
      }
      var pos := IndexOf(host, ':');
      var name := if pos.Some? then host[..pos.value] else host;
      assert name == HostName(host);
      var port, _ := ParseProxyPort(request.path, env.ports);
      hide HostName, LongestMatch, PortOf, ForwardPath;
      assert SelfAddressed(env, request) <==>
             port == env.proxyPort && (name == env.proxyHost || name == "localhost" || name == "127.0.0.1");
      hide SelfAddressed;
      if port == env.proxyPort && (name == env.proxyHost || name == "localhost" || name == "127.0.0.1") {
        request := request.(proxy := false);
        return true;
      }
      request := request.(proxy := true, connected := false);
      request := request.(backendHost := Truncate(name + ":" + IntText(port), FIELD));
      var address := Address(name, port, StartsWith(request.path, "https"));
      assert request == Proxied(env, old(request)) && address == AddressFor(env, request);
      hide Proxied, AddressFor, TextOf;
      if !socketOk {
        return false;
      }
      upstreams := upstreams + [Upstream(request, address, false, "")];
      return true;
    }

    method OnFirstLine(data: string)
      modifies this
      ensures Snapshot() == AtFirstLine(old(Snapshot()), data)
    {
      hide Strip, ParseRequestLine;
      if |data| < 2 {
        closed := true;
        return;
      }
      var parsed := ParseRequestLine(request, Strip(data));
      if parsed.None? {
        closed := true;
        return;
      }
      request := parsed.value;
      state, reading := Head, Line;
    }

    method OnHeaderLine(data: string)
      requires |data| >= 2
      modifies this
      ensures Snapshot() == AtHeaderLine(old(Snapshot()), data)
    {
      hide Strip, ParseHead;
      var parsed := ParseHead(request, Strip(data));
      if parsed.None? {
        closed := true;
        return;
      }
      request, reading := parsed.value, Line;
    }

    /** The cases fall through: `at` is the label that control has reached. */
    method OnRecv(env: Env, data: string, socketOk: bool, replyCloses: bool)
      requires !closed && CanRead(reading, data)
      modifies this
      ensures Snapshot() == Receive(old(Snapshot()), env, data, socketOk, replyCloses)
      ensures var c, e := old(Snapshot()), Recv(data, socketOk, replyCloses);
              Inv(c) && RefuseInv(env, c) ==>
                && Replied(c.replies, replies, RefusedNow(env, c, e)) && (closed <==> Closes(env, c, e))
                && Inv(Snapshot()) && RefuseInv(env, Snapshot())
    {
      ReadMeans(env, Snapshot(), Recv(data, socketOk, replyCloses));
      hide Inv, RefuseInv, Replied, RefusedNow, Closes, CanRead, AtFirstLine, AtHeaderLine, AtHeadEnd, AtBody, AtEnd;
      reading := if reading.Anything? then Anything else Nothing;
      var at := state;
      if at.Begin? {
        state, at := FirstLine, FirstLine;
      }
      if at.FirstLine? {
        OnFirstLine(data);
        return;
      }
      if at.Head? {
        if |data| < 2 {
          closed := true;
          return;
        }
        if data == CRLF {
          state, at := HeadEnd, HeadEnd;
        } else {
          OnHeaderLine(data);
          return;
        }
      }
      FromHeadEnd(at, env, data, socketOk, replyCloses);
    }

    /** The cases from the end of the head on. */
    method FromHeadEnd(from: State, env: Env, data: string, socketOk: bool, replyCloses: bool)
      requires from == state && (state.HeadEnd? || state.Body? || state.End?) && !closed
      modifies this
      ensures Snapshot() ==
              var c := old(Snapshot());
              if from.HeadEnd? then AtHeadEnd(c, env, data, socketOk, replyCloses)
              else if from.Body? then AtBody(c, data, replyCloses)
              else AtEnd(c, replyCloses)
    {
      hide Forbidden, Payload, SelfAddressed, Proxied, PassBody, AtEnd, Refused, Routed, TextOf, AddressFor;
      var at := from;
      if at.HeadEnd? {
        var ok := OnHeadEnd(env, socketOk);
        if !ok {
          closed := true;
          return;
        }
        if request.contentLength == 0 {
          state := End;
          at := if request.proxy then Body else End;
        } else {
          state := Body;
          if !request.proxy {
            reading := Block(Unsigned(request.contentLength));
          }
          return;
        }
      }
      if at.Body? {
        OnBody(data);
        request := request.(body := Some(data), bodyLen := request.bodyLen + |data|);
        if |data| != request.contentLength {
          return;
        }
        state := End;
      }
      FromEnd(replyCloses);
    }

    method FromEnd(replyCloses: bool)
      requires !closed
      modifies this
      ensures Snapshot() == AtEnd(old(Snapshot()), replyCloses)
    {
      hide Forbidden;
      if !request.proxy {
        OnRequest(replyCloses);
      }
      if closed {
        return;
      }
      if request.keepalive {
        request, state, reading := EMPTY, FirstLine, Line;
      } else if !request.proxy {
        closed := true;
      }
    }

    /** Writes the dump until all of it is written; every write takes all that it is given, so
        the head goes out once. */
    method WriteDump(i: nat)
      requires i < |upstreams| && !CopiesBody(request) && |DumpHead(request)| < DUMP_BUFFER
      modifies this`upstreams
      ensures upstreams == old(upstreams)[i := old(upstreams)[i].(out := old(upstreams)[i].out + DumpText(request))]
    {
      hide DumpHead;
      var buf := new char[DUMP_BUFFER];
      assert DumpText(request) == DumpHead(request) + "" == DumpHead(request);
      var msglen := HttpRequestDump(request, buf);
      ghost var text, u := DumpText(request), upstreams[i];
      assert u.out + "" == u.out;
      var nsize := 0;
      while nsize < msglen
        invariant buf[..msglen] == text && |text| == msglen && (nsize == 0 || nsize == msglen)
        invariant upstreams == old(upstreams)[i := u.(out := u.out + text[..nsize])]
      {
        upstreams := upstreams[i := upstreams[i].(out := upstreams[i].out + buf[..msglen])];
        nsize := nsize + msglen;
      }
    }

    method OnUpstreamConnect(i: nat)
      requires Inv(Snapshot()) && FitsStruct(request)
      requires !closed && i < |upstreams| && !upstreams[i].connected
      modifies this
      ensures Snapshot() == ConnectDone(old(Snapshot()), i) && Inv(Snapshot())
    {
      hide Inv, DumpHead, DumpText, CopiesBody, FitsStruct;
      DumpIsReady(Snapshot(), i);
      WriteDump(i);
      upstreams := upstreams[i := upstreams[i].(connected := true)];
      if !state.End? {
        request := request.(connected := true);
        reading := Anything;
      } else if request.keepalive {
        request, state, reading := EMPTY, FirstLine, Line;
      }
    }
  }
}
