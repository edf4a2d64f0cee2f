/** `HttpResponseWriter`: writing a response in pieces, chunked or not, against the chunked
    decoder of section 7.1 of RFC 9112. */
module ResponseWriter {
  import opened Common

  const CRLF := "\r\n"

  // ---- chunk sizes

  function HexDigit(d: nat): char
    requires d < 16
  {
    "0123456789abcdef"[d]
  }

  function DigitValue(c: char): Option<nat>
  {
    if '0' <= c <= '9' then Some(c as int - '0' as int)
    else if 'a' <= c <= 'f' then Some(c as int - 'a' as int + 10)
    else if 'A' <= c <= 'F' then Some(c as int - 'A' as int + 10)
    else None
  }

  /** `printf("%x")`. */
  function Hex(n: nat): (s: string)
    ensures s != []
  {
    if n < 16 then [HexDigit(n)] else Hex(n / 16) + [HexDigit(n % 16)]
  }

  predicate AllHex(s: string) { forall i :: 0 <= i < |s| ==> DigitValue(s[i]).Some? }

  function HexValue(s: string): nat
    requires AllHex(s)
  {
    if s == [] then 0 else 16 * HexValue(s[..|s| - 1]) + DigitValue(s[|s| - 1]).value
  }

  lemma HexDigitValue(d: nat)
    requires d < 16
    ensures DigitValue(HexDigit(d)) == Some(d)
  {
  }

  lemma {:induction false} HexRoundTrip(n: nat)
    ensures AllHex(Hex(n)) && HexValue(Hex(n)) == n
  {
    var s := Hex(n);
    if n < 16 {
      assert s[..|s| - 1] == [];
    } else {
      HexRoundTrip(n / 16);
      assert s[..|s| - 1] == Hex(n / 16);
      assert s[|s| - 1] == HexDigit(n % 16);
      HexDigitValue(n % 16);
      hide Hex, HexDigit, DigitValue;
    }
  }

  /** The number of hex digits `s` starts with. */
  function HexPrefix(s: string): (k: nat)
    ensures k <= |s| && AllHex(s[..k]) && (k < |s| ==> DigitValue(s[k]).None?)
  {
    if s == [] || DigitValue(s[0]).None? then 0
    else
      var k := HexPrefix(s[1..]);
      assert s[..k + 1] == [s[0]] + s[1..][..k];
      k + 1
  }

  lemma HexPrefixExact(digits: string, rest: string)
    requires AllHex(digits) && (rest == [] || DigitValue(rest[0]).None?)
    ensures HexPrefix(digits + rest) == |digits|
  {
    var s := digits + rest;
    assert forall i :: 0 <= i < |digits| ==> s[i] == digits[i];
    var k := HexPrefix(s);
    assert forall i :: 0 <= i < k ==> DigitValue(s[..k][i]).Some? && s[..k][i] == s[i];
    assert rest != "" ==> s[|digits|] == rest[0];
  }

  // ---- the decoder

  /** `chunk-size CRLF`: the size and what follows. */
  function ReadSize(s: string): (r: Option<(nat, string)>)
    ensures r.Some? ==> |r.value.1| + 2 < |s|
  {
    var k := HexPrefix(s);
    if k > 0 && k + 2 <= |s| && s[k..k + 2] == CRLF then Some((HexValue(s[..k]), s[k + 2..])) else None
  }

  /** The decoded content and what follows the last chunk (no trailer fields). */
  function DecodeChunks(s: string): Option<(string, string)>
    decreases |s|
  {
    match ReadSize(s)
    case None => None
    case Some((n, t)) =>
      if |t| < n + 2 || t[n..n + 2] != CRLF then None
      else if n == 0 then Some(("", t[2..]))
      else
        match DecodeChunks(t[n + 2..])
        case None => None
        case Some((data, rest)) => Some((t[..n] + data, rest))
  }

  function Chunk(data: string): string { Hex(|data|) + CRLF + data + CRLF }

  /** What `WriteChunked` is given: text, or a NULL pointer together with a length. */
  datatype Buffer = Text(data: string) | Null(len: nat)

  function BufferText(b: Buffer): string { if b.Text? then b.data else "" }

  /** The chunk for a buffer: of a NULL pointer the length is printed all the same. */
  function ChunkOf(b: Buffer): string
  {
    Hex(if b.Text? then |b.data| else b.len) + CRLF + BufferText(b) + CRLF
  }

  function Chunks(ps: seq<string>): string
  {
    if ps == [] then "" else Chunks(ps[..|ps| - 1]) + Chunk(ps[|ps| - 1])
  }

  function Join(ps: seq<string>): string
  {
    if ps == [] then "" else Join(ps[..|ps| - 1]) + ps[|ps| - 1]
  }

  predicate NoneEmpty(ps: seq<string>) { forall i :: 0 <= i < |ps| ==> ps[i] != "" }

  lemma SizeLine(digits: string, t: string)
    requires AllHex(digits) && digits != ""
    ensures ReadSize(digits + (CRLF + t)) == Some((HexValue(digits), t))
  {
    var s := digits + (CRLF + t);
    HexPrefixExact(digits, CRLF + t);
    assert s[..|digits|] == digits;
    assert s[|digits|..] == CRLF + t;
    assert s[|digits|..|digits| + 2] == s[|digits|..][..2] == CRLF;
    assert s[|digits| + 2..] == s[|digits|..][2..] == t;
  }

  lemma ChunkParts(size: string, data: string, rest: string)
    ensures size + CRLF + data + CRLF + rest == size + (CRLF + (data + CRLF + rest))
  {
  }

  lemma SizeOfChunk(data: string, rest: string)
    ensures ReadSize(Chunk(data) + rest) == Some((|data|, data + CRLF + rest))
  {
    HexRoundTrip(|data|);
    SizeLine(Hex(|data|), data + CRLF + rest);
    ChunkParts(Hex(|data|), data, rest);
    hide ReadSize, Hex, HexValue;
  }

  lemma DecodeOne(data: string, rest: string)
    ensures data == "" ==> DecodeChunks(Chunk(data) + rest) == Some(("", rest))
    ensures data != "" ==>
              DecodeChunks(Chunk(data) + rest) ==
              match DecodeChunks(rest) case None => None case Some((d, r)) => Some((data + d, r))
  {
    SizeOfChunk(data, rest);
    var t := data + CRLF + rest;
    assert t[|data|..|data| + 2] == CRLF && t[|data| + 2..] == rest && t[..|data|] == data;
  }

  /** Non-empty pieces decode to their concatenation in front of whatever follows them. */
  lemma {:induction false} DecodePieces(ps: seq<string>, rest: string)
    requires NoneEmpty(ps)
    ensures DecodeChunks(Chunks(ps) + rest) ==
            match DecodeChunks(rest) case None => None case Some((d, r)) => Some((Join(ps) + d, r))
    decreases |ps|
  {
    if ps == [] {
      assert Chunks(ps) + rest == rest;
      match DecodeChunks(rest) {
        case None =>
        case Some((d, r)) => assert Join(ps) + d == d;
      }
    } else {
      var p, front := ps[|ps| - 1], ps[..|ps| - 1];
      assert Chunks(ps) + rest == Chunks(front) + (Chunk(p) + rest);
      DecodePieces(front, Chunk(p) + rest);
      DecodeOne(p, rest);
      match DecodeChunks(rest) {
        case None =>
        case Some((d, r)) => assert Join(front) + (p + d) == Join(ps) + d;
      }
    }
  }

  lemma {:induction false} ChunksSplit(ps: seq<string>, qs: seq<string>)
    ensures Chunks(ps + qs) == Chunks(ps) + Chunks(qs)
    decreases |qs|
  {
    if qs == [] {
      assert ps + qs == ps;
    } else {
      var front, q := qs[..|qs| - 1], qs[|qs| - 1];
      var all := ps + qs;
      assert all[..|all| - 1] == ps + front && all[|all| - 1] == q;
      assert Chunks(all) == Chunks(ps + front) + Chunk(q);
      assert Chunks(qs) == Chunks(front) + Chunk(q);
      hide Chunks, Chunk;
      ChunksSplit(ps, front);
      assert Chunks(ps) + Chunks(front) + Chunk(q) == Chunks(ps) + (Chunks(front) + Chunk(q));
    }
  }

  /** The wire decodes to exactly `content`, with nothing left over. */
  predicate Decodes(wire: string, content: string)
  {
    DecodeChunks(wire) == Some((content, ""))
  }

  lemma ChunksOfOne(p: string)
    ensures Chunks([p]) == Chunk(p)
  {
    assert [p][..0] == [] && Chunks([]) + Chunk(p) == Chunk(p);
  }

  /** What `WriteChunked` over `ps` puts on the wire, followed by `tail`, is a proper message only
      if no piece was empty: an empty piece is a last-chunk, and something follows it. */
  lemma EmptyPieceEndsMessage(ps: seq<string>, tail: string, content: string)
    requires !NoneEmpty(ps) && tail != ""
    ensures !Decodes(Chunks(ps) + tail, content)
  {
    var k := FirstEmpty(ps);
    var front, back := ps[..k], ps[k + 1..];
    var rest := Chunks(back) + tail;
    hide DecodeChunks, Chunks, Chunk, Join;
    SplitAtEmpty(ps, k);
    Reassociate(Chunks(front), Chunk(""), Chunks(back), tail);
    DecodePieces(front, Chunk("") + rest);
    DecodeOne("", rest);
  }

  lemma Reassociate(a: string, b: string, c: string, d: string)
    ensures a + (b + c) + d == a + (b + (c + d))
  {
  }

  lemma Around(ps: seq<string>, k: nat)
    requires k < |ps|
    ensures ps == ps[..k] + ([ps[k]] + ps[k + 1..])
  {
  }

  lemma SplitAtEmpty(ps: seq<string>, k: nat)
    requires k < |ps| && ps[k] == ""
    ensures Chunks(ps) == Chunks(ps[..k]) + (Chunk("") + Chunks(ps[k + 1..]))
  {
    hide *;
    ChunksOfOne("");
    Around(ps, k);
    ChunksSplit(ps[..k], [""] + ps[k + 1..]);
    ChunksSplit([""], ps[k + 1..]);
  }

  lemma ChunkOfText(data: string)
    ensures ChunkOf(Text(data)) == Chunk(data)
  {
  }

  /** A NULL pointer with a length leaves a chunk without its data: on its own it decodes only for
      length 0. */
  lemma NullChunkDecodes(len: nat)
    ensures DecodeChunks(ChunkOf(Null(len))).Some? <==> len == 0
  {
    HexRoundTrip(len);
    SizeLine(Hex(len), CRLF);
    assert ChunkOf(Null(len)) == Hex(len) + (CRLF + CRLF);
    hide Hex, HexValue, ReadSize;
  }

  /** Text that does not start with a hex digit is no chunk. */
  lemma NoChunk(s: string)
    requires s == "" || DigitValue(s[0]).None?
    ensures DecodeChunks(s) == None
  {
  }

  function FirstEmpty(ps: seq<string>): (k: nat)
    requires !NoneEmpty(ps)
    ensures k < |ps| && ps[k] == "" && NoneEmpty(ps[..k])
  {
    if ps[0] == "" then 0
    else
      assert !NoneEmpty(ps[1..]) by { var i :| 0 <= i < |ps| && ps[i] == ""; assert ps[1..][i - 1] == ""; }
      var k := FirstEmpty(ps[1..]);
      assert forall i :: 0 < i <= k ==> ps[i] == ps[1..][i - 1];
      k + 1
  }

  // ---- the writer

  datatype State = SendBegin | SendHeader | SendBody | SendChunked | SendChunkedEnd | SendEnd

  type Headers = map<string, string>

  /** What a header block is printed from. */
  datatype Head = Head(status: int, fields: Headers)

  const SERVER_ERROR := 500
  const TRANSFER_ENCODING := "Transfer-Encoding"

  /** The text that `End` adds to the wire, by the state it finds: `head` is the header block and
      `body` the buffered body. */
  function EndText(st: State, chunked: bool, head: string, body: string, buf: Option<string>): string
  {
    var b := if buf.Some? then buf.value else "";
    match st
    case SendEnd => ""
    case SendChunked => (if b != "" then Chunk(b) else "") + Chunk("")
    case SendBegin =>
      if buf.None? then head + body else if chunked then head + Chunk(b) + (head + body) else head + (body + b)
    case SendHeader => if buf.None? then body else if chunked then Chunk(b) + (head + body) else b
    case SendBody => if buf.None? then "" else if chunked then Chunk(b) + (head + body) else b
    case SendChunkedEnd =>
      if buf.None? then head + body else if chunked then Chunk(b) + (head + body) else b
  }

  lemma EndTextMeans(w: string, st: State, chunked: bool, head: string, body: string, buf: Option<string>)
    requires st != SendEnd
    ensures var all := w + EndText(st, chunked, head, body, buf);
            if st == SendChunked then
              all == w + (if buf.Some? && buf.value != "" then Chunk(buf.value) else "") + Chunk("")
            else if buf.None? then
              all == w + (if st == SendHeader || st == SendBody then "" else head) + if st == SendBody then "" else body
            else if chunked then
              all == w + (if st == SendBegin then head else "") + Chunk(buf.value) + head + body
            else all == w + (if st == SendBegin then head + body else "") + buf.value
  {
    var b := if buf.Some? then buf.value else "";
    hide Chunk;
    assert w + "" == w;
    Assoc(w, head, body);
    Assoc(head, body, b);
    Assoc(w, head + body, b);
    Assoc(w + Chunk(b), head, body);
    Assoc(w, Chunk(b), head + body);
    Assoc(w + head + Chunk(b), head, body);
    Assoc(w, head, Chunk(b));
    Assoc(w, head + Chunk(b), head + body);
    Assoc(w, if b != "" then Chunk(b) else "", Chunk(""));
  }

  class HttpResponseWriter {
    var state: State
    var headers: Headers
    var body: string
    var wire: string                    // everything written to the socket
    var connected: bool
    const keepAlive: bool
    var status: int
    const dumpHeaders: Head -> string  // the header block of `HttpMessage::Dump`

    constructor (headers: Headers, keepAlive: bool, dumpHeaders: Head -> string)
      ensures state == SendBegin && this.headers == headers && body == "" && wire == "" && connected && status == 200
      ensures this.keepAlive == keepAlive && this.dumpHeaders == dumpHeaders
    {
      state, body, wire, connected, status := SendBegin, "", "", true, 200;
      this.headers, this.keepAlive, this.dumpHeaders := headers, keepAlive, dumpHeaders;
    }

    predicate IsChunked()
      reads this`headers
    {
      TRANSFER_ENCODING in headers && headers[TRANSFER_ENCODING] == "chunked"
    }

    function Dump(withHeaders: bool, withBody: bool): string
      reads this
    {
      (if withHeaders then dumpHeaders(Head(status, headers)) else "") + if withBody then body else ""
    }

    method Write(s: string) returns (n: int)
      modifies this`wire
      ensures wire == if connected then old(wire) + s else old(wire)
      ensures n == if connected then |s| else -1
    {
      if !connected {
        return -1;
      }
      wire := wire + s;
      return |s|;
    }

    /** `header`: a key and value to add, or none when either is NULL. */
    method EndHeaders(header: Option<(string, string)>) returns (n: int)
      modifies this
      ensures unchanged(`body) && unchanged(`connected) && unchanged(`status)
      ensures old(state) != SendBegin ==>
                n == -1 && unchanged(`wire) && unchanged(`headers) && unchanged(`state)
      ensures old(state) == SendBegin ==>
                && state == SendHeader
                && headers == (if header.Some? then old(headers)[header.value.0 := header.value.1] else old(headers))
                && wire == (if connected then old(wire) + dumpHeaders(Head(status, headers)) else old(wire))
                && n == if connected then |dumpHeaders(Head(status, headers))| else -1
    {
      if state != SendBegin {
        return -1;
      }
      if header.Some? {
        headers := headers[header.value.0 := header.value.1];
      }
      var text := Dump(true, false);
      assert text == dumpHeaders(Head(status, headers));
      state := SendHeader;
      n := Write(text);
    }

    /** The state moves on even when the channel is closed and nothing is written. */
    method WriteChunked(buf: Buffer) returns (ret: int)
      modifies this
      ensures unchanged(`body) && unchanged(`status) && unchanged(`connected)
      ensures headers == if old(state) == SendBegin then old(headers)[TRANSFER_ENCODING := "chunked"] else old(headers)
      ensures !connected ==> unchanged(`wire)
      ensures connected ==>
                wire == old(wire) + (if old(state) == SendBegin then dumpHeaders(Head(status, headers)) else "") + ChunkOf(buf)
      ensures state == if BufferText(buf) != "" then SendChunked else SendChunkedEnd
      ensures ret == if connected || BufferText(buf) == "" then |BufferText(buf)| else -1
    {
      ret := 0;
      var len := if buf.Text? then |buf.data| else buf.len;
      if state == SendBegin {
        var _ := EndHeaders(Some((TRANSFER_ENCODING, "chunked")));
      }
      ghost var w := wire;
      var _ := Write(Hex(len) + CRLF);
      if buf.Text? && len > 0 {
        ret := Write(buf.data);
        state := SendChunked;
      } else {
        state := SendChunkedEnd;
      }
      var _ := Write(CRLF);
      hide Hex;
      assert connected ==> wire == w + ChunkOf(buf) by {
        assert Hex(len) + CRLF + "" == Hex(len) + CRLF;
        Assoc(w, Hex(len) + CRLF, BufferText(buf));
        Assoc(w, Hex(len) + CRLF + BufferText(buf), CRLF);
      }
      assert old(wire) + "" == old(wire);
    }

    method EndChunked() returns (ret: int)
      modifies this
      ensures unchanged(`body) && unchanged(`status) && unchanged(`connected) && state == SendChunkedEnd && ret == 0
      ensures headers == if old(state) == SendBegin then old(headers)[TRANSFER_ENCODING := "chunked"] else old(headers)
      ensures !connected ==> unchanged(`wire)
      ensures connected ==>
                wire == old(wire) + (if old(state) == SendBegin then dumpHeaders(Head(status, headers)) else "") + Chunk("")
    {
      assert ChunkOf(Null(0)) == Chunk("");
      ret := WriteChunked(Null(0));
    }

    method WriteBody(data: string) returns (ret: int)
      modifies this
      ensures unchanged(`connected) && unchanged(`status)
      ensures !connected ==> unchanged(`wire)
      ensures old(IsChunked()) ==>
                && unchanged(`body) && state == (if data != "" then SendChunked else SendChunkedEnd)
                && headers == (if old(state) == SendBegin then old(headers)[TRANSFER_ENCODING := "chunked"] else old(headers))
                && (connected ==>
                      wire == old(wire) + (if old(state) == SendBegin then dumpHeaders(Head(status, headers)) else "") + Chunk(data))
      ensures !old(IsChunked()) ==> unchanged(`headers)
      ensures !old(IsChunked()) && old(state) == SendBegin ==>
                body == old(body) + data && unchanged(`wire) && unchanged(`state)
      ensures !old(IsChunked()) && old(state) != SendBegin ==>
                unchanged(`body) && state == SendBody && (connected ==> wire == old(wire) + data)
      ensures ret == if connected || (if old(IsChunked()) then data == "" else old(state) == SendBegin) then |data| else -1
    {
      if IsChunked() {
        ChunkOfText(data);
        ret := WriteChunked(Text(data));
        return;
      }
      if state == SendBegin {
        body := body + data;
        return |data|;
      } else {
        state := SendBody;
        ret := Write(data);
      }
    }

    /** Writes another response in place of this one: its header block and its body. Without one,
        this response becomes a server error. */
    method WriteResponse(resp: Option<(string, string)>) returns (ret: int)
      modifies this
      ensures unchanged(`body) && unchanged(`headers) && unchanged(`connected)
      ensures resp.None? ==> ret == 0 && unchanged(`wire) && unchanged(`state) && status == SERVER_ERROR
      ensures resp.Some? ==>
                var text := (if old(state) == SendBegin then resp.value.0 else "") + resp.value.1;
                && unchanged(`status) && state == SendBody
                && wire == (if connected then old(wire) + text else old(wire))
                && ret == if connected then |text| else -1
    {
      if resp.None? {
        status := SERVER_ERROR;
        return 0;
      }
      var withHeaders := state == SendBegin;
      var msg := (if withHeaders then resp.value.0 else "") + resp.value.1;
      state := SendBody;
      ret := Write(msg);
    }

    /** The last part of `End`: a buffered or fixed-length body, or a message that has already
        had its last-chunk. */
    method EndPlain(buf: Option<string>) returns (ret: int)
      requires connected && state != SendChunked && state != SendEnd
      modifies this
      ensures connected && headers == old(headers) && unchanged(`status) && ret >= 0
      ensures wire == old(wire) + EndText(old(state), old(IsChunked()), dumpHeaders(Head(status, headers)), old(body), buf)
    {
      ret := 0;
      hide Chunk;
      assert IsChunked() ==> headers[TRANSFER_ENCODING := "chunked"] == headers;
      ghost var before, first, then0 := wire, "", "";
      if buf.Some? {
        ret := WriteBody(buf.value);
        first := if old(IsChunked()) then (if old(state) == SendBegin then dumpHeaders(Head(status, headers)) else "") + Chunk(buf.value)
                 else if old(state) == SendBegin then "" else buf.value;
        assert "" + Chunk(buf.value) == Chunk(buf.value);
        Assoc(before, if old(state) == SendBegin then dumpHeaders(Head(status, headers)) else "", Chunk(buf.value));
      }
      assert before + "" == before;
      assert wire == before + first;
      var withHeaders, withBody := true, true;
      if state == SendHeader {
        withHeaders := false;
      } else if state == SendBody {
        withHeaders := false;
        withBody := false;
      }
      if withBody {
        var msg := Dump(withHeaders, withBody);
        then0 := msg;
        ret := Write(msg);
      }
      assert wire == before + first + then0;
      Assoc(before, first, then0);
      assert "" + then0 == then0 && first + "" == first;
    }

    /** The last part of `End` after chunks: the buffer, if any, and then one last-chunk. */
    method EndPieces(buf: Option<string>) returns (ret: int)
      requires connected && state == SendChunked
      modifies this
      ensures connected && headers == old(headers) && unchanged(`status) && ret >= 0
      ensures wire == old(wire) + EndText(SendChunked, old(IsChunked()), dumpHeaders(Head(status, headers)), old(body), buf)
    {
      ret := 0;
      hide Chunk, ChunkOf;
      ghost var before := wire;
      if buf.Some? {
        ChunkOfText(buf.value);
        ret := WriteChunked(Text(buf.value));
        Assoc(before, Chunk(buf.value), Chunk(""));
      }
      assert before + "" == before && "" + Chunk("") == Chunk("");
      if state == SendChunked {
        var _ := EndChunked();
      }
    }

    /** A second call writes nothing, nor does one on a closed channel. */
    method End(buf: Option<string>) returns (ret: int)
      modifies this
      ensures state == SendEnd && headers == old(headers) && unchanged(`status)
      ensures old(connected) ==>
                wire == old(wire) + EndText(old(state), old(IsChunked()), dumpHeaders(Head(status, headers)), old(body), buf)
      ensures old(connected) && old(state) == SendChunked ==>
                wire == old(wire) + (if buf.Some? && buf.value != "" then Chunk(buf.value) else "") + Chunk("")
      ensures old(connected) && old(state) != SendChunked && old(state) != SendEnd ==>
                var head := dumpHeaders(Head(status, headers));
                if buf.None? then
                  wire == old(wire) + (if old(state) == SendHeader || old(state) == SendBody then "" else head)
                          + if old(state) == SendBody then "" else old(body)
                else if old(IsChunked()) then
                  wire == old(wire) + (if old(state) == SendBegin then head else "") + Chunk(buf.value) + head + old(body)
                else wire == old(wire) + (if old(state) == SendBegin then head + old(body) else "") + buf.value
      ensures !old(connected) ==> unchanged(`wire) && unchanged(`connected)
      ensures ret == -1 <==> old(state) != SendEnd && !old(connected)
      ensures old(state) == SendEnd ==> ret == 0 && unchanged(`wire) && unchanged(`connected)
      ensures old(state) != SendEnd && old(connected) ==> connected == keepAlive
    {
      if state == SendEnd {
        assert wire + "" == wire;
        return 0;
      }
      if !connected {
        state := SendEnd;
        return -1;
      }
      EndTextMeans(wire, state, IsChunked(), dumpHeaders(Head(status, headers)), body, buf);
      hide EndText, Chunk;
      if state == SendChunked {
        ret := EndPieces(buf);
      } else {
        ret := EndPlain(buf);
      }

      state := SendEnd;
      if !keepAlive {
        connected := false;
      }
    }

    /** A response starts with its status line, "HTTP/...". */
    ghost predicate StatusLineFirst()
    {
      forall h :: dumpHeaders(h) != "" && DigitValue(dumpHeaders(h)[0]).None?
    }

    /** How the pieces start: with an explicit `EndHeaders`, or with the first of them. */
    method StartPieces(explicit: bool, ps: seq<string>) returns (k: nat)
      requires state == SendBegin && connected && wire == ""
      requires explicit || ps != []
      modifies this
      ensures connected && body == old(body) && unchanged(`status)
      ensures headers == old(headers)[TRANSFER_ENCODING := "chunked"]
      ensures k == (if explicit then 0 else 1) <= |ps|
      ensures state == if k == 0 then SendHeader else if ps[0] != "" then SendChunked else SendChunkedEnd
      ensures wire == dumpHeaders(Head(status, headers)) + Chunks(ps[..k])
    {
      hide Chunk, Chunks, ChunkOf;
      if explicit {
        var _ := EndHeaders(Some((TRANSFER_ENCODING, "chunked")));
        k := 0;
      } else {
        ChunkOfText(ps[0]);
        var _ := WriteChunked(Text(ps[0]));
        ChunksSnoc(ps, 0);
        assert "" + Chunk(ps[0]) == Chunk(ps[0]);
        k := 1;
      }
      ChunksOfNone();
      ghost var head := dumpHeaders(Head(status, headers));
      assert head + "" == head && "" + head == head && ps[..0] == [];
    }

    /** One more piece, once the headers are sent. */
    method WritePiece(data: string)
      requires state != SendBegin && connected
      modifies this
      ensures unchanged(`headers) && unchanged(`body) && unchanged(`status) && connected
      ensures state == (if data != "" then SendChunked else SendChunkedEnd) && wire == old(wire) + Chunk(data)
    {
      hide Chunk, ChunkOf;
      ChunkOfText(data);
      ghost var w := wire;
      assert w + "" == w;
      var _ := WriteChunked(Text(data));
    }

    /** The pieces through `WriteChunked`, after an explicit `EndHeaders` or not. */
    method WritePieces(explicit: bool, ps: seq<string>)
      requires state == SendBegin && connected && wire == ""
      requires explicit || ps != []
      modifies this
      ensures connected && body == old(body) && unchanged(`status)
      ensures headers == old(headers)[TRANSFER_ENCODING := "chunked"]
      ensures state == if ps == [] then SendHeader else if ps[|ps| - 1] != "" then SendChunked else SendChunkedEnd
      ensures wire == dumpHeaders(Head(status, headers)) + Chunks(ps)
    {
      hide Chunk, Chunks, ChunkOf;
      var k := StartPieces(explicit, ps);
      ghost var h, head := headers, dumpHeaders(Head(status, headers));
      for i := k to |ps|
        invariant connected && body == old(body) && status == old(status) && headers == h
        invariant state == if i == 0 then SendHeader else if ps[i - 1] != "" then SendChunked else SendChunkedEnd
        invariant wire == head + Chunks(ps[..i])
      {
        WritePiece(ps[i]);
        ChunksSnoc(ps, i);
        Assoc(head, Chunks(ps[..i]), Chunk(ps[i]));
      }
      assert ps[..|ps|] == ps;
    }

    /** A chunked response: the pieces through `WriteChunked`, then `End` with an optional last
        buffer. The header block is written once, and what follows it decodes to the
        concatenation, with one last-chunk and nothing after it, exactly when there was a piece
        and none was empty. */
    method SendChunks(explicit: bool, ps: seq<string>, last: Option<string>) returns (ghost content: string)
      requires state == SendBegin && connected && wire == "" && body == "" && StatusLineFirst()
      requires explicit || ps != []
      modifies this
      ensures state == SendEnd && wire == dumpHeaders(Head(status, headers)) + content
      ensures var all := Join(ps) + if last.Some? then last.value else "";
              Decodes(content, all) <==> ps != [] && NoneEmpty(ps)
    {
      WritePieces(explicit, ps);
      ghost var tail := EndText(state, true, dumpHeaders(Head(status, headers)), "", last);
      TailDecides(ps, last, tail, dumpHeaders(Head(status, headers)), state);
      hide Chunks, EndText, Join, Decodes;
      content := Chunks(ps) + tail;
      var _ := End(last);
      FirstPiece(dumpHeaders(Head(status, headers)), Chunks(ps), tail);
    }

    /** Body pieces of a response that is not chunked, in one state. */
    method WriteBodies(ps: seq<string>)
      requires connected && !IsChunked() && (state == SendBegin || state == SendHeader)
      modifies this
      ensures connected && unchanged(`headers) && unchanged(`status)
      ensures old(state) == SendBegin ==>
                unchanged(`state) && unchanged(`wire) && body == old(body) + Join(ps)
      ensures old(state) == SendHeader ==>
                state == (if ps == [] then SendHeader else SendBody) && unchanged(`body) && wire == old(wire) + Join(ps)
    {
      ghost var buffered, written := body, wire;
      assert buffered + "" == buffered && written + "" == written && ps[..0] == [];
      for i := 0 to |ps|
        invariant connected && headers == old(headers) && status == old(status)
        invariant old(state) == SendBegin ==> state == SendBegin && wire == written && body == buffered + Join(ps[..i])
        invariant old(state) == SendHeader ==>
                    state == (if i == 0 then SendHeader else SendBody) && body == buffered
                    && wire == written + Join(ps[..i])
      {
        var _ := WriteBody(ps[i]);
        assert ps[..i + 1][..i] == ps[..i];
        Assoc(buffered, Join(ps[..i]), ps[i]);
        Assoc(written, Join(ps[..i]), ps[i]);
      }
      assert ps[..|ps|] == ps;
    }

    /** A response that is not chunked. Without an explicit `EndHeaders` the pieces are added to the
        buffered body until `End`, and the wire holds the header block once and then exactly that
        body. With one, the body that was buffered before it follows the header block at `End` only
        when nothing is written after it; otherwise just the later pieces and the last buffer do. */
    method SendPlain(explicit: bool, length: string, early: seq<string>, late: seq<string>, last: Option<string>)
      requires state == SendBegin && connected && wire == "" && !IsChunked()
      requires !explicit ==> late == []
      modifies this
      ensures state == SendEnd
      ensures wire == dumpHeaders(Head(status, headers))
                      + (if explicit && (late != [] || last.Some?) then Join(late) else old(body) + Join(early))
                      + if last.Some? then last.value else ""
    {
      assert "Content-Length" != TRANSFER_ENCODING;
      WriteBodies(early);
      if explicit {
        var _ := EndHeaders(Some(("Content-Length", length)));
        WriteBodies(late);
      }
      ghost var head := dumpHeaders(Head(status, headers));
      JoinNone();
      hide Join;
      assert "" + head == head && head + "" == head && head + Join(late) + "" == head + Join(late);
      assert head + body + "" == head + body;
      if last.Some? {
        Assoc(head, body, last.value);
      }
      var _ := End(last);
      hide Chunk;
    }

    /** A whole response at once and then `End`: one header block and one body, of the response that
        was given, or of this one as a server error when none was. */
    method SendResponse(resp: Option<(string, string)>)
      requires state == SendBegin && connected && wire == ""
      modifies this
      ensures state == SendEnd
      ensures resp.Some? ==> wire == resp.value.0 + resp.value.1
      ensures resp.None? ==> wire == dumpHeaders(Head(SERVER_ERROR, headers)) + old(body)
    {
      var _ := WriteResponse(resp);
      ghost var written := wire;
      assert resp.Some? ==> "" + (resp.value.0 + resp.value.1) == resp.value.0 + resp.value.1;
      assert resp.None? ==> written == "";
      ghost var tail := if resp.Some? then "" else dumpHeaders(Head(status, headers)) + body;
      var _ := End(None);
      hide EndText, Chunk;
      assert written + "" == written && "" + tail == tail;
    }
  }

  lemma JoinNone()
    ensures Join([]) == ""
  {
  }

  lemma FirstPiece(head: string, before: string, piece: string)
    ensures head + before + piece == head + (before + piece)
    ensures "" + head + piece == head + ("" + piece)
  {
  }

  lemma ChunksOfNone()
    ensures Chunks([]) == ""
  {
  }

  lemma ChunksSnoc(ps: seq<string>, i: nat)
    requires i < |ps|
    ensures Chunks(ps[..i + 1]) == Chunks(ps[..i]) + Chunk(ps[i])
  {
    assert ps[..i + 1][..i] == ps[..i];
  }

  /** The text that `End` adds makes the pieces a proper message exactly when there is a piece and
      none is empty. */
  lemma TailDecides(ps: seq<string>, last: Option<string>, tail: string, head: string, st: State)
    requires head != "" && DigitValue(head[0]).None?
    requires st == if ps == [] then SendHeader else if ps[|ps| - 1] != "" then SendChunked else SendChunkedEnd
    requires tail == EndText(st, true, head, "", last)
    ensures var all := Join(ps) + if last.Some? then last.value else "";
            Decodes(Chunks(ps) + tail, all) <==> ps != [] && NoneEmpty(ps)
  {
    var b := if last.Some? then last.value else "";
    if ps == [] {
      assert Chunks(ps) + tail == tail;
      NoChunk(head);
      NoChunk("");
      if last.Some? {
        DecodeOne(b, head);
        assert tail == Chunk(b) + head by { assert head + "" == head; }
      }
    } else if !NoneEmpty(ps) {
      EmptyPieceEndsMessage(ps, tail, Join(ps) + b);
    } else {
      DecodePieces(ps, tail);
      LastChunks(b);
    }
  }

  lemma LastChunks(b: string)
    ensures DecodeChunks((if b != "" then Chunk(b) else "") + Chunk("")) == Some((b, ""))
  {
    DecodeOne("", "");
    assert Chunk("") + "" == Chunk("");
    assert "" + Chunk("") == Chunk("");
    if b != "" {
      DecodeOne(b, Chunk(""));
      assert b + "" == b;
    }
  }
}
