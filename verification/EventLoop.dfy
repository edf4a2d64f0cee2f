/** Cross-thread events of `EventLoop`: any number of threads post, the loop thread runs the
    callbacks. The underlying loop may deliver what was posted to it in any order. */
module EventLoop {
  import opened Common

  /** A callback; the same one may be posted several times. */
  type Callback = nat

  /** A posting thread is outside, or between the push under the mutex and `hloop_post_event`. */
  datatype Poster = Out | Pushed(cb: Callback)

  /** The loop thread is outside `onCustomEvent`, in it before the mutex, or running a callback. */
  datatype Loop = Waiting | Entered | Calling(cb: Callback)

  /** `queue` is `customEvents`; `posted` is what the underlying loop has yet to deliver. */
  datatype State = State(
    queue: seq<Callback>, posted: multiset<Callback>, posters: seq<Poster>, loop: Loop,
    pushed: seq<Callback>, ran: seq<Callback>, delivered: nat)

  datatype Action = Push(p: nat, cb: Callback) | Post(p: nat) | Deliver(cb: Callback) | Pop | Return

  function Init(posters: nat): State
  {
    State([], multiset{}, seq(posters, i => Out), Waiting, [], [], 0)
  }

  predicate IsPushed(p: Poster) { p.Pushed? }

  predicate Enabled(s: State, a: Action)
  {
    match a
    case Push(p, _) => p < |s.posters| && s.posters[p].Out?
    case Post(p) => p < |s.posters| && s.posters[p].Pushed?
    case Deliver(cb) => s.loop.Waiting? && cb in s.posted
    case Pop => s.loop.Entered?
    case Return => s.loop.Calling?
  }

  function Apply(s: State, a: Action): State
    requires Enabled(s, a)
  {
    match a
    case Push(p, cb) =>
      s.(queue := s.queue + [cb], pushed := s.pushed + [cb], posters := s.posters[p := Pushed(cb)])
    case Post(p) => s.(posted := s.posted + multiset{s.posters[p].cb}, posters := s.posters[p := Out])
    case Deliver(cb) => s.(posted := s.posted - multiset{cb}, loop := Entered, delivered := s.delivered + 1)
    case Pop =>
      if s.queue == [] then s  // `front()` of an empty queue; see NeverEmpty
      else s.(loop := Calling(s.queue[0]), queue := s.queue[1..])
    case Return => s.(loop := Waiting, ran := s.ran + [s.loop.cb])
  }

  predicate Legal(s: State, run: seq<Action>)
    decreases |run|
  {
    run != [] ==> Enabled(s, run[0]) && Legal(Apply(s, run[0]), run[1..])
  }

  function Run(s: State, run: seq<Action>): State
    requires Legal(s, run)
    decreases |run|
  {
    if run == [] then s else Run(Apply(s, run[0]), run[1..])
  }

  function Current(l: Loop): seq<Callback> { if l.Calling? then [l.cb] else [] }

  predicate Inv(s: State)
  {
    && |s.queue| == |s.posted| + Tally(s.posters, IsPushed) + (if s.loop.Entered? then 1 else 0)
    && s.pushed == s.ran + Current(s.loop) + s.queue
    && s.delivered == |s.ran| + (if s.loop.Waiting? then 0 else 1)
  }

  lemma StepKeepsInv(s: State, a: Action)
    requires Inv(s) && Enabled(s, a)
    ensures Inv(Apply(s, a))
  {
    match a
    case Push(p, cb) =>
      TallyUpdate(s.posters, p, Pushed(cb), IsPushed);
    case Post(p) =>
      TallyUpdate(s.posters, p, Out, IsPushed);
    case Deliver(cb) =>
      assert |s.posted - multiset{cb}| == |s.posted| - 1;
    case Pop =>
      assert s.queue == [s.queue[0]] + s.queue[1..];
    case Return =>
  }

  lemma {:induction false} RunKeepsInv(s: State, run: seq<Action>)
    requires Inv(s) && Legal(s, run)
    ensures Inv(Run(s, run))
    decreases |run|
  {
    if run != [] {
      StepKeepsInv(s, run[0]);
      RunKeepsInv(Apply(s, run[0]), run[1..]);
    }
  }

  /** `onCustomEvent` never takes the front of an empty queue. */
  lemma NeverEmpty(posters: nat, run: seq<Action>)
    requires Legal(Init(posters), run) && Enabled(Run(Init(posters), run), Pop)
    ensures Run(Init(posters), run).queue != []
  {
    TallyZero(seq(posters, i => Out), IsPushed);
    RunKeepsInv(Init(posters), run);
  }

  /** Whatever order the underlying loop delivers in, callbacks run in the order in which their
      events were pushed, one per delivery; and once nothing is under way all of them have run. */
  lemma RunInPushOrder(posters: nat, run: seq<Action>)
    requires Legal(Init(posters), run)
    ensures var s := Run(Init(posters), run);
            && s.ran <= s.pushed
            && |s.ran| + |Current(s.loop)| + (if s.loop.Entered? then 1 else 0) == s.delivered
            && (s.loop.Waiting? && s.posted == multiset{} && (forall p :: 0 <= p < |s.posters| ==> s.posters[p].Out?) ==>
                  s.ran == s.pushed)
  {
    TallyZero(seq(posters, i => Out), IsPushed);
    RunKeepsInv(Init(posters), run);
    var s := Run(Init(posters), run);
    TallyZero(s.posters, IsPushed);
  }
}
