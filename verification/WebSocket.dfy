/** `WebSocketChannel`: sending a message as one frame or as fragments, through a reused buffer. */
module WebSocket {
  import opened Common
  import opened HMath

  datatype Opcode = Continue | Text | Binary | Close | Ping | Pong

  datatype Frame = Frame(op: Opcode, fin: bool, payload: seq<byte>)

  datatype Message = Message(op: Opcode, data: seq<byte>)

  // ---- the receiver of section 5.4 of RFC 6455

  datatype Receiver = Ready | Partial(op: Opcode, data: seq<byte>) | Failed

  datatype Received = Received(state: Receiver, messages: seq<Message>)

  function Receive(r: Received, f: Frame): Received
  {
    match r.state
    case Failed => r
    case Ready =>
      if f.op.Continue? then r.(state := Failed)
      else if f.fin then r.(messages := r.messages + [Message(f.op, f.payload)])
      else r.(state := Partial(f.op, f.payload))
    case Partial(op, data) =>
      if !f.op.Continue? then r.(state := Failed)
      else if f.fin then Received(Ready, r.messages + [Message(op, data + f.payload)])
      else r.(state := Partial(op, data + f.payload))
  }

  function ReceiveAll(r: Received, fs: seq<Frame>): Received
    decreases |fs|
  {
    if fs == [] then r else ReceiveAll(Receive(r, fs[0]), fs[1..])
  }

  lemma {:induction false} ReceiveSplit(r: Received, a: seq<Frame>, b: seq<Frame>)
    ensures ReceiveAll(r, a + b) == ReceiveAll(ReceiveAll(r, a), b)
    decreases |a|
  {
    if a == [] {
      assert a + b == b;
    } else {
      assert (a + b)[1..] == a[1..] + b;
      ReceiveSplit(Receive(r, a[0]), a[1..], b);
    }
  }

  // ---- the frames of one message

  function Fragments(msg: seq<byte>, fragment: nat, op: Opcode): (fs: seq<Frame>)
    requires fragment > 0
    ensures |fs| > 0
    decreases |msg|
  {
    if |msg| <= fragment then [Frame(op, true, msg)]
    else [Frame(op, false, msg[..fragment])] + Fragments(msg[fragment..], fragment, Continue)
  }

  /** `a / b`, rounded up. */
  function CeilDiv(a: nat, b: nat): nat
    requires b > 0
  {
    if a == 0 then 0 else if a <= b then 1 else 1 + CeilDiv(a - b, b)
  }

  lemma {:induction false} CeilDivMeans(a: nat, b: nat)
    requires a > 0 && b > 0
    ensures (CeilDiv(a, b) - 1) * b < a <= CeilDiv(a, b) * b
  {
    if a > b {
      CeilDivMeans(a - b, b);
      var c := CeilDiv(a - b, b);
      assert (1 + c) * b == b + c * b;
      assert c * b == b + (c - 1) * b;
    }
  }

  function Payloads(fs: seq<Frame>): seq<byte>
  {
    if fs == [] then [] else fs[0].payload + Payloads(fs[1..])
  }

  /** The shape of a fragmented message: how many frames, which carries the opcode, which ends it,
      how long each is, and that they concatenate to the message. */
  predicate Shaped(fs: seq<Frame>, msg: seq<byte>, fragment: nat, op: Opcode)
    requires fragment > 0
  {
    && |fs| == Max(1, CeilDiv(|msg|, fragment)) && |fs| > 0
    && fs[0].op == op
    && (forall i :: 1 <= i < |fs| ==> fs[i].op == Continue)
    && (forall i :: 0 <= i < |fs| ==> (fs[i].fin <==> i == |fs| - 1))
    && (forall i :: 0 <= i < |fs| - 1 ==> |fs[i].payload| == fragment)
    && |fs[|fs| - 1].payload| <= fragment
    && Payloads(fs) == msg
  }

  lemma ShapedOne(msg: seq<byte>, fragment: nat, op: Opcode)
    requires fragment > 0 && |msg| <= fragment
    ensures Shaped([Frame(op, true, msg)], msg, fragment, op)
  {
    assert Payloads([Frame(op, true, msg)]) == msg + Payloads([]);
  }

  lemma ShapedCons(first: Frame, rest: seq<Frame>, msg: seq<byte>, fragment: nat)
    requires fragment > 0 && Shaped(rest, msg, fragment, Continue) && msg != []
    requires !first.fin && |first.payload| == fragment
    ensures Shaped([first] + rest, first.payload + msg, fragment, first.op)
  {
    var fs := [first] + rest;
    assert fs[1..] == rest;
    assert Payloads(fs) == first.payload + Payloads(rest);
    hide Payloads, CeilDiv;
    CeilDivStep(|msg|, fragment);
    assert forall i :: 1 <= i < |fs| ==> fs[i] == rest[i - 1];
  }

  lemma CeilDivStep(a: nat, b: nat)
    requires a > 0 && b > 0
    ensures CeilDiv(b + a, b) == 1 + CeilDiv(a, b) && CeilDiv(a, b) >= 1
  {
  }

  lemma {:induction false} FragmentShape(msg: seq<byte>, fragment: nat, op: Opcode)
    requires fragment > 0
    ensures Shaped(Fragments(msg, fragment, op), msg, fragment, op)
    decreases |msg|
  {
    hide Shaped;
    if |msg| <= fragment {
      ShapedOne(msg, fragment, op);
    } else {
      FragmentShape(msg[fragment..], fragment, Continue);
      ShapedCons(Frame(op, false, msg[..fragment]), Fragments(msg[fragment..], fragment, Continue), msg[fragment..], fragment);
      assert msg[..fragment] + msg[fragment..] == msg;
    }
  }

  lemma {:induction false} ContinueReceived(op: Opcode, data: seq<byte>, out: seq<Message>, msg: seq<byte>, fragment: nat)
    requires fragment > 0
    ensures ReceiveAll(Received(Partial(op, data), out), Fragments(msg, fragment, Continue)) ==
            Received(Ready, out + [Message(op, data + msg)])
    decreases |msg|
  {
    var r := Received(Partial(op, data), out);
    var fs := Fragments(msg, fragment, Continue);
    if |msg| <= fragment {
      assert ReceiveAll(Receive(r, fs[0]), []) == Receive(r, fs[0]);
    } else {
      assert fs[1..] == Fragments(msg[fragment..], fragment, Continue);
      ContinueReceived(op, data + msg[..fragment], out, msg[fragment..], fragment);
      assert data + msg[..fragment] + msg[fragment..] == data + msg;
    }
  }

  /** An RFC 6455 receiver that is between messages gets back exactly the message. */
  lemma MessageReceived(msg: seq<byte>, fragment: nat, op: Opcode, out: seq<Message>)
    requires fragment > 0 && !op.Continue?
    ensures ReceiveAll(Received(Ready, out), Fragments(msg, fragment, op)) == Received(Ready, out + [Message(op, msg)])
  {
    var r := Received(Ready, out);
    var fs := Fragments(msg, fragment, op);
    if |msg| <= fragment {
      assert ReceiveAll(Receive(r, fs[0]), []) == Receive(r, fs[0]);
    } else {
      assert fs[1..] == Fragments(msg[fragment..], fragment, Continue);
      ContinueReceived(op, msg[..fragment], out, msg[fragment..], fragment);
      assert msg[..fragment] + msg[fragment..] == msg;
    }
  }

  /** After a failed write the receiver has seen a proper prefix: no frame of it ends a message,
      and nothing has been delivered. */
  lemma {:induction false} PrefixDeliversNothing(msg: seq<byte>, fragment: nat, op: Opcode, k: nat, r: Received)
    requires fragment > 0 && k < |Fragments(msg, fragment, op)|
    requires !r.state.Failed? && (op.Continue? <==> r.state.Partial?)
    ensures var sent := Fragments(msg, fragment, op)[..k];
            && (forall i :: 0 <= i < k ==> !sent[i].fin)
            && ReceiveAll(r, sent).messages == r.messages
            && !ReceiveAll(r, sent).state.Failed?
    decreases |msg|
  {
    var fs := Fragments(msg, fragment, op);
    if k > 0 {
      var rest := Fragments(msg[fragment..], fragment, Continue);
      assert fs[..k][1..] == rest[..k - 1] && fs[..k][0] == fs[0];
      PrefixDeliversNothing(msg[fragment..], fragment, Continue, k - 1, Receive(r, fs[0]));
      assert forall i :: 1 <= i < k ==> fs[..k][i] == rest[..k - 1][i - 1];
    }
  }

  /** What is left to send after a fragment has gone out. */
  lemma FragmentsStep(msg: seq<byte>, p: nat, fragment: nat)
    requires fragment > 0 && p + fragment < |msg|
    ensures var fs := Fragments(msg[p..], fragment, Continue);
            fs == [Frame(Continue, false, msg[p..p + fragment])] + Fragments(msg[p + fragment..], fragment, Continue)
  {
    assert msg[p..][..fragment] == msg[p..p + fragment] && msg[p..][fragment..] == msg[p + fragment..];
  }

  lemma LastFragment(msg: seq<byte>, p: nat, fragment: nat)
    requires fragment > 0 && p <= |msg| <= p + fragment
    ensures Fragments(msg[p..], fragment, Continue) == [Frame(Continue, true, msg[p..])]
  {
  }

  /** From a channel that had `before` out and takes `budget` more writes, the frames `fs` went out in
      order until one was refused. */
  predicate WentOut(before: seq<Frame>, budget: nat, fs: seq<Frame>, after: seq<Frame>, budgetLeft: nat, all: bool)
  {
    var k := Min(|fs|, budget);
    after == before + fs[..k] && budgetLeft == budget - k && (all <==> k == |fs|)
  }

  /** All of `fs` but `left` has gone out. */
  predicate OnTheWay(before: seq<Frame>, budget: nat, fs: seq<Frame>, now: seq<Frame>, budgetLeft: nat, left: seq<Frame>)
  {
    var k := |fs| - |left|;
    0 <= k <= budget && left == fs[k..] && now == before + fs[..k] && budgetLeft == budget - k
  }

  lemma NothingOut(before: seq<Frame>, budget: nat, fs: seq<Frame>)
    ensures OnTheWay(before, budget, fs, before, budget, fs)
  {
    assert fs[..0] == [] && fs[0..] == fs && before + [] == before;
  }

  lemma OneOut(before: seq<Frame>, budget: nat, fs: seq<Frame>, now: seq<Frame>, budgetLeft: nat, left: seq<Frame>,
               frame: Frame, rest: seq<Frame>)
    requires OnTheWay(before, budget, fs, now, budgetLeft, left) && left == [frame] + rest
    ensures budgetLeft == 0 ==> WentOut(before, budget, fs, now + [], 0, false)
    ensures budgetLeft > 0 ==> OnTheWay(before, budget, fs, now + [frame], budgetLeft - 1, rest)
  {
    var k := |fs| - |left|;
    assert fs[k] == left[0] == frame && fs[..k + 1] == fs[..k] + [frame];
    assert fs[k + 1..] == left[1..] == rest;
    assert before + fs[..k] + [frame] == before + fs[..k + 1];
    assert now + [] == now;
  }

  lemma AllOut(before: seq<Frame>, budget: nat, fs: seq<Frame>, now: seq<Frame>, budgetLeft: nat)
    requires OnTheWay(before, budget, fs, now, budgetLeft, [])
    ensures WentOut(before, budget, fs, now, budgetLeft, true)
  {
  }

  lemma FirstAnd(first: Frame, rest: seq<Frame>, k: nat)
    requires k > 0
    ensures ([first] + rest)[..Min(|rest| + 1, k)] == [first] + rest[..Min(|rest|, k - 1)]
  {
  }

  // ---- sending

  /** `unsigned long` has at least this many bits. */
  const WORD := 32

  /** Header, extended length, mask and payload (section 5.2 of RFC 6455). */
  function FrameSize(len: nat, masked: bool): nat
  {
    2 + (if len < 126 then 0 else if len <= 0xFFFF then 2 else 8) + (if masked then 4 else 0) + len
  }

  /** The header takes 2, 4 or 10 bytes by the length, and 4 more with a mask. */
  lemma FrameSizes(len: nat)
    ensures len <= 125 ==> FrameSize(len, false) == len + 2 && FrameSize(len, true) == len + 6
    ensures 126 <= len <= 65535 ==> FrameSize(len, false) == len + 4 && FrameSize(len, true) == len + 8
    ensures 65536 <= len ==> FrameSize(len, false) == len + 10 && FrameSize(len, true) == len + 14
  {
  }

  lemma FrameSizeFitsWord(len: nat, masked: bool)
    requires len + 14 < 0x8000_0000
    ensures FrameSize(len, masked) < Pow2(WORD - 1) < Pow2(WORD)
  {
    assert Pow2(8) == 0x100;
    Pow2Adds(8, 8);
    Pow2Adds(16, 8);
    assert Pow2(7) == 0x80;
    Pow2Adds(24, 7);
  }

  /** The length of the send buffer once a frame of `frameSize` bytes fits. */
  method Resize(len: nat, frameSize: nat) returns (len': nat)
    requires 2 <= frameSize <= Pow2(WORD - 1) && frameSize < Pow2(WORD)
    ensures len' == len || (IsPow2(len') && len' < 2 * frameSize)
    ensures frameSize <= len' && len <= len'
    ensures len' == len <==> frameSize <= len
  {
    hide Pow2, IsPow2, Log2;
    len' := len;
    if len < frameSize {
      len' := Ceil2e(frameSize, WORD);
      Log2Bounds(frameSize - 1);
    }
  }

  class WebSocketChannel {
    const client: bool
    var frames: seq<Frame>   // what has reached the socket
    var sendbufLen: nat
    var accepts: nat         // writes the socket still takes before it is closed; unknown to the code

    constructor (client: bool, accepts: nat)
      ensures this.client == client && frames == [] && sendbufLen == 0 && this.accepts == accepts
    {
      this.client, frames, sendbufLen, this.accepts := client, [], 0, accepts;
    }

    /** The frame is built in the reused buffer, which is never smaller than the frame and never
        shrinks. */
    method SendFrame(buf: seq<byte>, op: Opcode, fin: bool) returns (n: int)
      requires |buf| + 14 < 0x8000_0000
      modifies this
      ensures n == (if old(accepts) == 0 then -1 else FrameSize(|buf|, client)) && (n >= 0 <==> old(accepts) > 0)
      ensures frames == old(frames) + if old(accepts) == 0 then [] else [Frame(op, fin, buf)]
      ensures accepts == if old(accepts) == 0 then 0 else old(accepts) - 1
      ensures FrameSize(|buf|, client) <= sendbufLen && old(sendbufLen) <= sendbufLen
      ensures sendbufLen == old(sendbufLen) || (IsPow2(sendbufLen) && sendbufLen < 2 * FrameSize(|buf|, client))
    {
      hide Pow2, IsPow2;
      var frameSize := FrameSize(|buf|, client);
      FrameSizeFitsWord(|buf|, client);
      sendbufLen := Resize(sendbufLen, frameSize);
      if accepts == 0 {
        return -1;
      }
      frames := frames + [Frame(op, fin, buf)];
      accepts := accepts - 1;
      return frameSize;
    }

    /** `send(buf, len, fragment, opcode)`: the frames of the message go out in order until one is
        refused. */
    method SendFragmented(buf: seq<byte>, fragment: nat, op: Opcode) returns (n: int)
      requires fragment > 0 && |buf| < 0x8000_0000 && Min(|buf|, fragment) + 14 < 0x8000_0000
      modifies this
      ensures var fs := Fragments(buf, fragment, op);
              && frames == old(frames) + fs[..Min(|fs|, old(accepts))]
              && (n < 0 <==> old(accepts) < |fs|)
              && (n >= 0 && |fs| > 1 ==> n == |buf|)
              && accepts == old(accepts) - Min(|fs|, old(accepts))
      ensures sendbufLen >= old(sendbufLen)
    {
      if |buf| <= fragment {
        n := SendFrame(buf, op, true);
        return;
      }

      // first fragment
      n := SendFrame(buf[..fragment], op, false);
      if n < 0 {
        return;
      }
      ghost var first := Frame(op, false, buf[..fragment]);
      ghost var rest := Fragments(buf[fragment..], fragment, Continue);
      assert Fragments(buf, fragment, op) == [first] + rest;
      n := SendRest(buf, fragment);
      hide Fragments;
      FirstAnd(first, rest, old(accepts));
    }

    /** The fragments after the first. */
    method SendRest(buf: seq<byte>, fragment: nat) returns (n: int)
      requires 0 < fragment < |buf| < 0x8000_0000 && fragment + 14 < 0x8000_0000
      modifies this
      ensures WentOut(old(frames), old(accepts), Fragments(buf[fragment..], fragment, Continue), frames, accepts, n >= 0)
      ensures n >= 0 ==> n == |buf|
      ensures sendbufLen >= old(sendbufLen)
    {
      hide *;
      ghost var before, budget, fs := frames, accepts, Fragments(buf[fragment..], fragment, Continue);
      ghost var sent: seq<Frame>, left := [], fs;
      var p := fragment;
      var remain := |buf| - fragment;
      NothingOut(before, budget, fs);
      while remain > fragment
        invariant p + remain == |buf| && 0 < remain
        invariant left == Fragments(buf[p..], fragment, Continue)
        invariant OnTheWay(before, budget, fs, frames, accepts, left)
        invariant sendbufLen >= old(sendbufLen)
        decreases remain
      {
        FragmentsStep(buf, p, fragment);
        ghost var sofar, budgetLeft := frames, accepts;
        n := SendFrame(buf[p..p + fragment], Continue, false);
        OneOut(before, budget, fs, sofar, budgetLeft, left, Frame(Continue, false, buf[p..p + fragment]),
               Fragments(buf[p + fragment..], fragment, Continue));
        if n < 0 {
          return;
        }
        left := Fragments(buf[p + fragment..], fragment, Continue);
        p := p + fragment;
        remain := remain - fragment;
      }

      // last fragment
      LastFragment(buf, p, fragment);
      ghost var sofar, budgetLeft := frames, accepts;
      n := SendFrame(buf[p..], Continue, true);
      OneOut(before, budget, fs, sofar, budgetLeft, left, Frame(Continue, true, buf[p..]), []);
      if n < 0 {
        return;
      }
      AllOut(before, budget, fs, frames, accepts);
      return |buf|;
    }

    /** `send(buf, len, opcode, fin)`: above 65535 bytes the message is fragmented and `fin` is not
        looked at, so the last frame is what was asked for exactly when `fin` or the message fits. */
    method Send(buf: seq<byte>, op: Opcode, fin: bool) returns (n: int)
      requires |buf| < 0x8000_0000
      modifies this
      ensures var fs := if |buf| > 0xFFFF then Fragments(buf, 0xFFFF, op) else [Frame(op, fin, buf)];
              && frames == old(frames) + fs[..Min(|fs|, old(accepts))]
              && (n < 0 <==> old(accepts) < |fs|)
      ensures n >= 0 ==> |frames| > |old(frames)| && (frames[|frames| - 1].fin == fin <==> fin || |buf| <= 0xFFFF)
      ensures n >= 0 ==> Payloads(frames[|old(frames)|..]) == buf
      ensures n >= 0 ==> frames[|old(frames)|].op == op
    {
      var fragment := 0xFFFF;
      if |buf| > fragment {
        n := SendFragmented(buf, fragment, op);
        FragmentShape(buf, fragment, op);
        assert n >= 0 ==> frames[|old(frames)|..] == Fragments(buf, fragment, op);
        return;
      }
      n := SendFrame(buf, op, fin);
      assert n >= 0 ==> frames[|old(frames)|..] == [Frame(op, fin, buf)];
      assert Payloads([Frame(op, fin, buf)]) == buf + Payloads([]);
    }
  }
}
