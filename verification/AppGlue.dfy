/** The two-thread glue of `android_native_app_glue.c` as interleaved steps.

    The UI thread posts commands on a pipe and sleeps on a condition variable until the app thread
    has acted on them. A step is one statement that the other thread can see; a critical section
    of the app thread is one step, taken only while the UI thread does not hold the mutex. */
module AppGlue {
  import opened Common

  /** A window or input queue; 0 is NULL. */
  type Ptr = nat

  datatype Cmd = InputChanged | InitWindow | TermWindow | Start | Resume | Pause | Stop | SaveState | Other

  predicate IsStateCmd(c: Cmd) { c.Start? || c.Resume? || c.Pause? || c.Stop? }

  type StateCmd = c: Cmd | IsStateCmd(c) witness Start

  /** Where the app thread is in `process_cmd`. */
  datatype AppPc = Polling | ReadDone(cmd: Cmd) | PreDue(cmd: Cmd) | UserDue(cmd: Cmd) | PostDue(cmd: Cmd)

  datatype Wait = ForInput | ForWindow | ForState(cmd: StateCmd) | ForSave

  /** Where the UI thread is. It holds the mutex everywhere but in `Free` and `Asleep`. */
  datatype UiPc =
    | Free
    | InputLocked(q: Ptr) | InputSet
    | WindowLocked(w: Ptr) | WindowTermed(w: Ptr) | WindowSet
    | StateLocked(cmd: StateCmd)
    | SaveLocked | SaveCleared
    | Checking(wait: Wait)
    | Asleep(wait: Wait, woken: bool)

  /** The fields of `struct android_app`, and the queues attached to its looper. */
  datatype Glue = Glue(
    window: Ptr, pendingWindow: Ptr, inputQueue: Ptr, pendingInput: Ptr,
    activity: Option<Cmd>, stateSaved: bool, savedState: Option<nat>, attached: multiset<Ptr>)

  /** Blocks the application makes; block 0 is the one passed in at creation. */
  type BlockId = x: nat | 0 < x witness 1

  /** The saved-state blocks: the next fresh one, those freed and those given to the UI thread. */
  datatype Ledger = Ledger(next: BlockId, freed: seq<nat>, handed: seq<nat>)

  /** History: the last requests, the block made for the current save request, and whether some
      window request named the non-NULL window that was requested last. */
  datatype Wants = Wants(window: Ptr, input: Ptr, state: Option<Cmd>, answer: Option<BlockId>, repeated: bool)

  datatype App = App(pipe: seq<Cmd>, app: AppPc, ui: UiPc, g: Glue, blocks: Ledger, wants: Wants)

  datatype Action =
    | SetInput(q: Ptr) | SetWindow(w: Ptr) | SetState(cmd: StateCmd) | SaveInstance | PostOther
    | UiStep
    | ReadCmd
    | AppStep(produce: bool)

  /** `initial`: a saved state was passed to `android_app_create`; it is block 0. */
  function Init(initial: bool): App
  {
    App([], Polling, Free,
        Glue(0, 0, 0, 0, None, false, if initial then Some(0) else None, multiset{}),
        Ledger(1, [], []), Wants(0, 0, None, None, false))
  }

  predicate UiHolds(ui: UiPc) { !ui.Free? && !ui.Asleep? }

  /** The negation of the loop condition of the wait `w`. */
  predicate Cond(g: Glue, w: Wait)
  {
    match w
    case ForInput => g.inputQueue == g.pendingInput
    case ForWindow => g.window == g.pendingWindow
    case ForState(c) => g.activity == Some(c)
    case ForSave => g.stateSaved
  }

  // ---- steps of the app thread

  function Broadcast(ui: UiPc): UiPc
  {
    if ui.Asleep? then Asleep(ui.wait, true) else ui
  }

  function PreExec(g: Glue, c: Cmd): Glue
  {
    if c.InputChanged? then
      var detached := if g.inputQueue != 0 then g.attached - multiset{g.inputQueue} else g.attached;
      var now := if g.pendingInput != 0 then detached + multiset{g.pendingInput} else detached;
      g.(attached := now, inputQueue := g.pendingInput)
    else if c.InitWindow? then g.(window := g.pendingWindow)
    else if IsStateCmd(c) then g.(activity := Some(c))
    else g
  }

  function PostExec(g: Glue, c: Cmd): Glue
  {
    if c.TermWindow? then g.(window := 0)
    else if c.SaveState? then g.(stateSaved := true)
    else g
  }

  function FreeSavedState(s: App): App
  {
    match s.g.savedState
    case None => s
    case Some(b) => s.(g := s.g.(savedState := None), blocks := s.blocks.(freed := s.blocks.freed + [b]))
  }

  function AppAdvance(s: App, produce: bool): App
    requires !s.app.Polling?
  {
    match s.app
    case ReadDone(c) => (if c.SaveState? then FreeSavedState(s) else s).(app := PreDue(c))
    case PreDue(c) =>
      s.(app := UserDue(c), g := PreExec(s.g, c),
         ui := if c.SaveState? || c.Other? then s.ui else Broadcast(s.ui))
    case UserDue(c) =>
      // onAppCmd: the application may answer SAVE_STATE with a block of its own
      if c.SaveState? && produce then
        s.(app := PostDue(c), g := s.g.(savedState := Some(s.blocks.next)),
           wants := s.wants.(answer := Some(s.blocks.next)), blocks := s.blocks.(next := s.blocks.next + 1))
      else s.(app := PostDue(c))
    case PostDue(c) =>
      if c.Resume? then FreeSavedState(s).(app := Polling)
      else s.(app := Polling, g := PostExec(s.g, c),
              ui := if c.TermWindow? || c.SaveState? then Broadcast(s.ui) else s.ui)
  }

  /** Does the app thread's next step need the mutex? */
  predicate NeedsMutex(app: AppPc)
  {
    match app
    case Polling => false
    case ReadDone(c) => c.SaveState?
    case PreDue(c) => c.InputChanged? || c.InitWindow? || IsStateCmd(c)
    case UserDue(c) => false
    case PostDue(c) => c.TermWindow? || c.SaveState? || c.Resume?
  }

  // ---- steps of the UI thread

  /** What the UI thread's next step writes to the pipe. */
  function Posts(ui: UiPc, g: Glue): seq<Cmd>
  {
    match ui
    case InputSet => [InputChanged]
    case WindowLocked(_) => if g.pendingWindow != 0 then [TermWindow] else []
    case WindowSet => if g.pendingWindow != 0 then [InitWindow] else []
    case StateLocked(c) => [c]
    case SaveCleared => [SaveState]
    case _ => []
  }

  function UiNext(ui: UiPc, g: Glue): UiPc
  {
    match ui
    case Free => Free
    case InputLocked(_) => InputSet
    case InputSet => Checking(ForInput)
    case WindowLocked(w) => WindowTermed(w)
    case WindowTermed(_) => WindowSet
    case WindowSet => Checking(ForWindow)
    case StateLocked(c) => Checking(ForState(c))
    case SaveLocked => SaveCleared
    case SaveCleared => Checking(ForSave)
    case Checking(w) => if Cond(g, w) then Free else Asleep(w, false)
    case Asleep(w, _) => Checking(w)
  }

  /** The UI thread leaves its wait with the saved state. */
  predicate Takes(s: App)
  {
    s.ui.Checking? && s.ui.wait.ForSave? && s.g.stateSaved && s.g.savedState.Some?
  }

  function UiAdvance(s: App): App
  {
    App(s.pipe + Posts(s.ui, s.g), s.app, UiNext(s.ui, s.g),
        match s.ui {
          case InputLocked(q) => s.g.(pendingInput := q)
          case WindowTermed(w) => s.g.(pendingWindow := w)
          case SaveLocked => s.g.(stateSaved := false)
          case _ => if Takes(s) then s.g.(savedState := None) else s.g
        },
        if Takes(s) then s.blocks.(handed := s.blocks.handed + [s.g.savedState.value]) else s.blocks,
        match s.ui {
          case StateLocked(c) => s.wants.(state := Some(c))
          case SaveCleared => s.wants.(answer := None)
          case _ => s.wants
        })
  }

  predicate Enabled(s: App, a: Action)
  {
    match a
    case SetInput(_) => s.ui.Free?
    case SetWindow(_) => s.ui.Free?
    case SetState(_) => s.ui.Free?
    case SaveInstance => s.ui.Free?
    case PostOther => s.ui.Free?
    case UiStep => !s.ui.Free?
    case ReadCmd => s.app.Polling? && s.pipe != []
    case AppStep(_) => !s.app.Polling? && (NeedsMutex(s.app) ==> !UiHolds(s.ui))
  }

  function Apply(s: App, a: Action): App
    requires Enabled(s, a)
  {
    match a
    case SetInput(q) => s.(ui := InputLocked(q), wants := s.wants.(input := q))
    case SetWindow(w) =>
      s.(ui := WindowLocked(w),
         wants := s.wants.(window := w, repeated := s.wants.repeated || (w != 0 && w == s.wants.window)))
    case SetState(c) => s.(ui := StateLocked(c))
    case SaveInstance => s.(ui := SaveLocked)
    case PostOther => s.(pipe := s.pipe + [Other])
    case UiStep => UiAdvance(s)
    case ReadCmd => s.(app := ReadDone(s.pipe[0]), pipe := s.pipe[1..])
    case AppStep(produce) => AppAdvance(s, produce)
  }

  predicate Legal(s: App, run: seq<Action>)
    decreases |run|
  {
    run != [] ==> Enabled(s, run[0]) && Legal(Apply(s, run[0]), run[1..])
  }

  function Run(s: App, run: seq<Action>): App
    requires Legal(s, run)
    decreases |run|
  {
    if run == [] then s else Run(Apply(s, run[0]), run[1..])
  }

  // ---- what the posted commands still have to do

  /** The half-done command, if its effect is still to come. */
  function Due(app: AppPc): seq<Cmd>
  {
    match app
    case Polling => []
    case ReadDone(c) => [c]
    case PreDue(c) => [c]
    case UserDue(c) => if c.TermWindow? || c.SaveState? then [c] else []
    case PostDue(c) => if c.TermWindow? || c.SaveState? then [c] else []
  }

  function Todo(s: App): seq<Cmd> { Due(s.app) + s.pipe }

  function WindowAfter(w: Ptr, pending: Ptr, cmds: seq<Cmd>): Ptr
    decreases |cmds|
  {
    if cmds == [] then w
    else WindowAfter(if cmds[0].TermWindow? then 0 else if cmds[0].InitWindow? then pending else w,
                     pending, cmds[1..])
  }

  function InputAfter(q: Ptr, pending: Ptr, cmds: seq<Cmd>): Ptr
    decreases |cmds|
  {
    if cmds == [] then q
    else InputAfter(if cmds[0].InputChanged? then pending else q, pending, cmds[1..])
  }

  function StateAfter(a: Option<Cmd>, cmds: seq<Cmd>): Option<Cmd>
    decreases |cmds|
  {
    if cmds == [] then a
    else StateAfter(if IsStateCmd(cmds[0]) then Some(cmds[0]) else a, cmds[1..])
  }

  lemma {:induction false} WindowAfterSnoc(w: Ptr, p: Ptr, cmds: seq<Cmd>, c: Cmd)
    ensures WindowAfter(w, p, cmds + [c]) ==
            if c.TermWindow? then 0 else if c.InitWindow? then p else WindowAfter(w, p, cmds)
    decreases |cmds|
  {
    if cmds == [] {
      assert cmds + [c] == [c];
    } else {
      assert (cmds + [c])[1..] == cmds[1..] + [c];
      WindowAfterSnoc(if cmds[0].TermWindow? then 0 else if cmds[0].InitWindow? then p else w, p, cmds[1..], c);
    }
  }

  lemma {:induction false} InputAfterSnoc(q: Ptr, p: Ptr, cmds: seq<Cmd>, c: Cmd)
    ensures InputAfter(q, p, cmds + [c]) == if c.InputChanged? then p else InputAfter(q, p, cmds)
    decreases |cmds|
  {
    if cmds == [] {
      assert cmds + [c] == [c];
    } else {
      assert (cmds + [c])[1..] == cmds[1..] + [c];
      InputAfterSnoc(if cmds[0].InputChanged? then p else q, p, cmds[1..], c);
    }
  }

  lemma {:induction false} StateAfterSnoc(a: Option<Cmd>, cmds: seq<Cmd>, c: Cmd)
    ensures StateAfter(a, cmds + [c]) == if IsStateCmd(c) then Some(c) else StateAfter(a, cmds)
    decreases |cmds|
  {
    if cmds == [] {
      assert cmds + [c] == [c];
    } else {
      assert (cmds + [c])[1..] == cmds[1..] + [c];
      StateAfterSnoc(if IsStateCmd(cmds[0]) then Some(cmds[0]) else a, cmds[1..], c);
    }
  }

  lemma {:induction false} WindowAfterNull(w: Ptr, w': Ptr, p: Ptr, cmds: seq<Cmd>)
    requires WindowAfter(w, p, cmds) == 0 && (w' == w || w' == 0)
    ensures WindowAfter(w', 0, cmds) == 0
    decreases |cmds|
  {
    if cmds != [] {
      var c := cmds[0];
      WindowAfterNull(if c.TermWindow? then 0 else if c.InitWindow? then p else w,
                      if c.TermWindow? || c.InitWindow? then 0 else w', p, cmds[1..]);
    }
  }

  // ---- invariants

  predicate WindowInv(s: App)
  {
    match s.ui
    case WindowLocked(w) => s.wants.window == w && WindowAfter(s.g.window, s.g.pendingWindow, Todo(s)) == s.g.pendingWindow
    case WindowTermed(w) => s.wants.window == w && WindowAfter(s.g.window, s.g.pendingWindow, Todo(s)) == 0
    case WindowSet =>
      && s.wants.window == s.g.pendingWindow
      && (s.g.pendingWindow == 0 ==> WindowAfter(s.g.window, 0, Todo(s)) == 0)
    case _ => s.wants.window == s.g.pendingWindow == WindowAfter(s.g.window, s.g.pendingWindow, Todo(s))
  }

  predicate InputInv(s: App)
  {
    && AttachedRight(s.g)
    && match s.ui
       case InputLocked(q) => s.wants.input == q && InputAfter(s.g.inputQueue, s.g.pendingInput, Todo(s)) == s.g.pendingInput
       case InputSet => s.wants.input == s.g.pendingInput
       case _ => s.wants.input == s.g.pendingInput == InputAfter(s.g.inputQueue, s.g.pendingInput, Todo(s))
  }

  predicate StateInv(s: App)
  {
    && StateAfter(s.g.activity, Todo(s)) == s.wants.state
    && ((s.ui.Checking? || s.ui.Asleep?) && s.ui.wait.ForState? ==> s.wants.state == Some(s.ui.wait.cmd))
  }

  /** A sleeper that nobody has woken has nothing to wake up for. */
  predicate WakeInv(s: App)
  {
    s.ui.Asleep? && !s.ui.woken ==> !Cond(s.g, s.ui.wait)
  }

  /** While the UI thread holds the mutex, the app thread can only read a command other than SAVE_STATE,
      call the application, and pass over the commands that change nothing; what it does then leaves
      the shared fields alone, but for the block with which the application answers. */
  lemma MutexRespected(s: App, produce: bool)
    requires UiHolds(s.ui) && !s.app.Polling?
    ensures Enabled(s, AppStep(produce)) <==>
            || s.app.UserDue? || (s.app.ReadDone? && !s.app.cmd.SaveState?)
            || (s.app.PreDue? && (s.app.cmd.TermWindow? || s.app.cmd.SaveState? || s.app.cmd.Other?))
            || (s.app.PostDue? && !s.app.cmd.TermWindow? && !s.app.cmd.SaveState? && !s.app.cmd.Resume?)
    ensures Enabled(s, AppStep(produce)) ==>
              var s' := AppAdvance(s, produce);
              && s'.g.(savedState := s.g.savedState) == s.g && s'.ui == s.ui
              && (s'.g.savedState == s.g.savedState || s.app == UserDue(SaveState))
  {
  }

  /** The app thread wakes the sleeper with every command but SAVE_STATE before it calls the
      application, and with TERM_WINDOW and SAVE_STATE after that, and at no other time. */
  lemma WakesExactly(s: App, produce: bool)
    requires Enabled(s, AppStep(produce)) && s.ui.Asleep?
    ensures AppAdvance(s, produce).ui ==
            Asleep(s.ui.wait, s.ui.woken || (s.app.PreDue? && !s.app.cmd.SaveState? && !s.app.cmd.Other?)
                              || s.app == PostDue(TermWindow) || s.app == PostDue(SaveState))
  {
  }

  lemma DueEffect(s: App, produce: bool)
    requires Enabled(s, AppStep(produce))
    ensures var s' := AppAdvance(s, produce);
            s'.pipe == s.pipe && (Due(s'.app) == Due(s.app) || (|Due(s.app)| == 1 && Due(s'.app) == []))
  {
  }

  /** A step of the app thread changes none of window, input queue and activity state, or it
      completes the first outstanding command and changes them as that command says. */
  lemma AppEffect(s: App, produce: bool)
    requires Enabled(s, AppStep(produce))
    ensures var s' := AppAdvance(s, produce);
            && (s'.ui == s.ui || s'.ui == Broadcast(s.ui))
            && s'.wants.(answer := s.wants.answer) == s.wants
            && s'.g.pendingWindow == s.g.pendingWindow && s'.g.pendingInput == s.g.pendingInput
            && if Todo(s') == Todo(s) then
                 s'.g.window == s.g.window && s'.g.inputQueue == s.g.inputQueue && s'.g.activity == s.g.activity
               else
                 && Todo(s) != [] && Todo(s') == Todo(s)[1..]
                 && var c := Todo(s)[0];
                 && s'.g.window == (if c.TermWindow? then 0 else if c.InitWindow? then s.g.pendingWindow else s.g.window)
                 && s'.g.inputQueue == (if c.InputChanged? then s.g.pendingInput else s.g.inputQueue)
                 && s'.g.activity == (if IsStateCmd(c) then Some(c) else s.g.activity)
                 && (!c.Other? ==> !UiHolds(s.ui))
  {
    DueEffect(s, produce);
    if Due(AppAdvance(s, produce).app) != Due(s.app) {
      assert Todo(s)[1..] == s.pipe;
    }
    hide Due;
  }

  /** A step of the UI thread changes none of them and posts at most one command. */
  lemma UiEffect(s: App)
    requires !s.ui.Free?
    ensures var s', posted := UiAdvance(s), Posts(s.ui, s.g);
            && s'.g.window == s.g.window && s'.g.inputQueue == s.g.inputQueue && s'.g.activity == s.g.activity
            && s'.g.attached == s.g.attached
            && if posted == [] then Todo(s') == Todo(s)
               else posted == [posted[0]] && Todo(s') == Todo(s) + [posted[0]]
  {
  }

  lemma CallEffect(s: App, a: Action)
    requires Enabled(s, a) && !a.UiStep? && !a.AppStep?
    ensures Apply(s, a).g == s.g
    ensures Todo(Apply(s, a)) == if a.PostOther? then Todo(s) + [Other] else Todo(s)
  {
  }

  lemma AppKeepsFolds(s: App, produce: bool)
    requires WindowInv(s) && InputInv(s) && StateInv(s) && Enabled(s, AppStep(produce))
    ensures var s' := AppAdvance(s, produce);
            && WindowAfter(s'.g.window, s'.g.pendingWindow, Todo(s')) == WindowAfter(s.g.window, s.g.pendingWindow, Todo(s))
            && InputAfter(s'.g.inputQueue, s'.g.pendingInput, Todo(s')) == InputAfter(s.g.inputQueue, s.g.pendingInput, Todo(s))
            && StateAfter(s'.g.activity, Todo(s')) == StateAfter(s.g.activity, Todo(s))
  {
    AppEffect(s, produce);
    hide AppAdvance, Todo, WindowInv, InputInv, StateInv;
  }

  lemma AppKeepsRequests(s: App, produce: bool)
    requires WindowInv(s) && InputInv(s) && StateInv(s) && Enabled(s, AppStep(produce))
    ensures var s' := AppAdvance(s, produce); WindowInv(s') && InputInv(s') && StateInv(s')
  {
    AppEffect(s, produce);
    AppKeepsFolds(s, produce);
    AppKeepsAttached(s, produce);
    hide AppAdvance, Todo, WindowAfter, InputAfter, StateAfter, AttachedRight;
    var s' := AppAdvance(s, produce);
    SameRequests(s, s');
  }

  /** Only the folds, what is pending and where the UI thread is matter to the requests; being woken
      does not. */
  lemma SameRequests(s: App, s': App)
    requires WindowInv(s) && InputInv(s) && StateInv(s) && AttachedRight(s'.g)
    requires s'.ui == s.ui || (s'.ui == Broadcast(s.ui) && !UiHolds(s.ui))
    requires s'.wants.(answer := s.wants.answer) == s.wants
    requires s'.g.pendingWindow == s.g.pendingWindow && s'.g.pendingInput == s.g.pendingInput
    requires WindowAfter(s'.g.window, s'.g.pendingWindow, Todo(s')) == WindowAfter(s.g.window, s.g.pendingWindow, Todo(s))
    requires InputAfter(s'.g.inputQueue, s'.g.pendingInput, Todo(s')) == InputAfter(s.g.inputQueue, s.g.pendingInput, Todo(s))
    requires StateAfter(s'.g.activity, Todo(s')) == StateAfter(s.g.activity, Todo(s))
    requires s.ui.WindowSet? ==> WindowAfter(s'.g.window, 0, Todo(s')) == WindowAfter(s.g.window, 0, Todo(s))
    ensures WindowInv(s') && InputInv(s') && StateInv(s')
  {
    hide Todo, WindowAfter, InputAfter, StateAfter, AttachedRight;
  }

  predicate AttachedRight(g: Glue)
  {
    g.attached == if g.inputQueue == 0 then multiset{} else multiset{g.inputQueue}
  }

  lemma PreExecAttached(g: Glue, c: Cmd)
    requires AttachedRight(g)
    ensures AttachedRight(PreExec(g, c))
  {
  }

  /** Outside `pre_exec` no step of the app thread touches the queue or the looper. */
  lemma OthersKeepQueue(s: App, produce: bool)
    requires !s.app.Polling? && !s.app.PreDue?
    ensures var g := AppAdvance(s, produce).g; g.attached == s.g.attached && g.inputQueue == s.g.inputQueue
  {
  }

  lemma AppKeepsAttached(s: App, produce: bool)
    requires AttachedRight(s.g) && Enabled(s, AppStep(produce))
    ensures AttachedRight(AppAdvance(s, produce).g)
  {
    if s.app.PreDue? {
      PreExecAttached(s.g, s.app.cmd);
      hide PreExec, AttachedRight, Broadcast;
    } else {
      OthersKeepQueue(s, produce);
      hide AppAdvance, AttachedRight;
      AttachedSame(s.g, AppAdvance(s, produce).g);
    }
  }

  lemma AttachedSame(g: Glue, h: Glue)
    requires AttachedRight(g) && h.attached == g.attached && h.inputQueue == g.inputQueue
    ensures AttachedRight(h)
  {
  }

  lemma UiKeepsWindow(s: App)
    requires WindowInv(s) && !s.ui.Free?
    ensures WindowInv(UiAdvance(s))
  {
    UiEffect(s);
    hide Todo, WindowAfter;
    if Posts(s.ui, s.g) != [] {
      WindowAfterSnoc(s.g.window, s.g.pendingWindow, Todo(s), Posts(s.ui, s.g)[0]);
    } else if s.ui.WindowTermed? {
      WindowAfterNull(s.g.window, s.g.window, s.g.pendingWindow, Todo(s));
    }
  }

  lemma UiKeepsInput(s: App)
    requires InputInv(s) && !s.ui.Free?
    ensures InputInv(UiAdvance(s))
  {
    UiEffect(s);
    hide Todo, InputAfter;
    if Posts(s.ui, s.g) != [] {
      InputAfterSnoc(s.g.inputQueue, s.g.pendingInput, Todo(s), Posts(s.ui, s.g)[0]);
    }
  }

  /** A state request is noted when its command is posted, and no other step posts one. */
  lemma UiStateEffect(s: App)
    requires !s.ui.Free?
    ensures var s', posted := UiAdvance(s), Posts(s.ui, s.g);
            && s'.wants.state == (if s.ui.StateLocked? then Some(s.ui.cmd) else s.wants.state)
            && (if s.ui.StateLocked? then posted == [s.ui.cmd] else posted == [] || !IsStateCmd(posted[0]))
            && ((s'.ui.Checking? || s'.ui.Asleep?) && s'.ui.wait.ForState? ==>
                  if s.ui.StateLocked? then s'.ui.wait.cmd == s.ui.cmd
                  else (s.ui.Checking? || s.ui.Asleep?) && s'.ui.wait == s.ui.wait)
  {
  }

  lemma UiKeepsState(s: App)
    requires StateInv(s) && !s.ui.Free?
    ensures StateInv(UiAdvance(s))
  {
    UiEffect(s);
    UiStateEffect(s);
    hide Todo, StateAfter, UiAdvance, Posts;
    if Posts(s.ui, s.g) != [] {
      StateAfterSnoc(s.g.activity, Todo(s), Posts(s.ui, s.g)[0]);
    }
  }

  lemma CallKeepsRequests(s: App, a: Action)
    requires WindowInv(s) && InputInv(s) && StateInv(s) && Enabled(s, a) && !a.UiStep? && !a.AppStep?
    ensures var s' := Apply(s, a); WindowInv(s') && InputInv(s') && StateInv(s')
  {
    CallEffect(s, a);
    hide Todo, WindowAfter, InputAfter, StateAfter;
    WindowAfterSnoc(s.g.window, s.g.pendingWindow, Todo(s), Other);
    InputAfterSnoc(s.g.inputQueue, s.g.pendingInput, Todo(s), Other);
    StateAfterSnoc(s.g.activity, Todo(s), Other);
  }

  lemma StepKeepsWake(s: App, a: Action)
    requires WakeInv(s) && Enabled(s, a)
    ensures WakeInv(Apply(s, a))
  {
  }

  // ---- saved-state blocks

  predicate Saving(ui: UiPc) { (ui.Checking? || ui.Asleep?) && ui.wait.ForSave? }

  /** The blocks the application makes are numbered from 1. */
  function Ids(next: BlockId): seq<nat>
  {
    seq(next - 1, i => i + 1)
  }

  /** The block made for a save request that is still in the glue's hands. */
  function LiveAnswer(g: Glue): seq<nat>
  {
    if g.savedState.Some? && g.savedState.value != 0 then [g.savedState.value] else []
  }

  function LiveInitial(g: Glue): seq<nat>
  {
    if g.savedState == Some(0) then [0] else []
  }

  predicate LedgerInv(s: App, initial: bool)
  {
    && s.blocks.freed + LiveInitial(s.g) == (if initial then [0] else [])
    && s.blocks.handed + LiveAnswer(s.g) == Ids(s.blocks.next)
  }

  /** The app thread is working on SAVE_STATE, past `free_saved_state`. */
  predicate Answering(app: AppPc)
  {
    !app.Polling? && !app.ReadDone? && app.cmd.SaveState?
  }

  predicate NoSave(cmds: seq<Cmd>)
  {
    cmds != [] ==> cmds[0] != SaveState && NoSave(cmds[1..])
  }

  /** SAVE_STATE is the last command and occurs only there. */
  predicate EndsInSave(cmds: seq<Cmd>)
  {
    cmds != [] && if |cmds| == 1 then cmds[0] == SaveState else cmds[0] != SaveState && EndsInSave(cmds[1..])
  }

  lemma {:induction false} NoSaveSnoc(cmds: seq<Cmd>, c: Cmd)
    requires NoSave(cmds)
    ensures if c.SaveState? then EndsInSave(cmds + [c]) else NoSave(cmds + [c])
  {
    if cmds == [] {
      assert cmds + [c] == [c];
    } else {
      assert (cmds + [c])[1..] == cmds[1..] + [c];
      NoSaveSnoc(cmds[1..], c);
    }
  }

  predicate SaveInv(s: App)
  {
    && (s.ui.SaveCleared? ==> !s.g.stateSaved)
    && if !Saving(s.ui) then
         NoSave(Todo(s)) && LiveAnswer(s.g) == []
       else if s.g.stateSaved then
         s.app.Polling? && s.pipe == [] && s.g.savedState == s.wants.answer
       else
         && EndsInSave(Todo(s))
         && (if Answering(s.app) then s.g.savedState == s.wants.answer else LiveAnswer(s.g) == [])
         && (!s.app.PostDue? || !s.app.cmd.SaveState? ==> s.wants.answer == None)
  }

  /** What a step of the app thread does to the saved state. */
  lemma AppSaveEffect(s: App, produce: bool)
    requires Enabled(s, AppStep(produce))
    ensures var s' := AppAdvance(s, produce);
            && (s'.app.Polling? <==> s.app.PostDue?) && !s'.app.ReadDone?
            && (s'.app.PostDue? <==> s.app.UserDue?)
            && (!s'.app.Polling? ==> s'.app.cmd == s.app.cmd)
            && s'.g.stateSaved == (s.g.stateSaved || (s.app.PostDue? && s.app.cmd.SaveState?))
            && s'.pipe == s.pipe
            && if s.app.UserDue? && s.app.cmd.SaveState? && produce then
                 && s'.wants.answer == Some(s.blocks.next) == s'.g.savedState
                 && s'.blocks == s.blocks.(next := s.blocks.next + 1)
               else if (s.app.ReadDone? && s.app.cmd.SaveState?) || (s.app.PostDue? && s.app.cmd.Resume?) then
                 && s'.wants.answer == s.wants.answer && s'.g.savedState == None
                 && s'.blocks == s.blocks.(freed := s.blocks.freed +
                      if s.g.savedState.Some? then [s.g.savedState.value] else [])
               else
                 s'.wants.answer == s.wants.answer && s'.g.savedState == s.g.savedState && s'.blocks == s.blocks
  {
  }

  lemma AppKeepsSave(s: App, produce: bool)
    requires SaveInv(s) && Enabled(s, AppStep(produce))
    ensures SaveInv(AppAdvance(s, produce))
  {
    AppEffect(s, produce);
    AppSaveEffect(s, produce);
    var s' := AppAdvance(s, produce);
    assert Todo(s) != [] && !s.app.Polling? && (s.app.cmd.SaveState? || Todo(s') != Todo(s)) ==> Todo(s)[0] == s.app.cmd;
    assert s.app.PostDue? && s.app.cmd.SaveState? ==> Todo(s') != Todo(s);
    assert Todo(s') == [] ==> s'.pipe == [];
    hide AppAdvance, Todo;
  }

  lemma AppKeepsLedger(s: App, initial: bool, produce: bool)
    requires SaveInv(s) && LedgerInv(s, initial) && Enabled(s, AppStep(produce))
    ensures LedgerInv(AppAdvance(s, produce), initial)
  {
    AppSaveEffect(s, produce);
    assert Ids(s.blocks.next + 1) == Ids(s.blocks.next) + [s.blocks.next];
    assert s.app.UserDue? && s.app.cmd.SaveState? ==> s.g.savedState == None;
    assert (s.app.ReadDone? && s.app.cmd.SaveState?) || (s.app.PostDue? && s.app.cmd.Resume?) ==> LiveAnswer(s.g) == [];
    hide AppAdvance, Ids, SaveInv;
  }

  lemma UiKeepsSave(s: App)
    requires SaveInv(s) && !s.ui.Free?
    ensures SaveInv(UiAdvance(s))
  {
    UiEffect(s);
    hide Todo, NoSave, EndsInSave;
    if Posts(s.ui, s.g) != [] && !Saving(s.ui) {
      NoSaveSnoc(Todo(s), Posts(s.ui, s.g)[0]);
    }
  }

  lemma UiKeepsLedger(s: App, initial: bool)
    requires SaveInv(s) && LedgerInv(s, initial) && !s.ui.Free?
    ensures LedgerInv(UiAdvance(s), initial)
  {
  }

  lemma CallKeepsSave(s: App, initial: bool, a: Action)
    requires SaveInv(s) && LedgerInv(s, initial) && Enabled(s, a) && !a.UiStep? && !a.AppStep?
    ensures SaveInv(Apply(s, a)) && LedgerInv(Apply(s, a), initial)
  {
    CallEffect(s, a);
    if a.PostOther? { NoSaveSnoc(Todo(s), Other); }
  }

  // ---- runs in which no request repeats the window already shown

  function WindowPart(c: Cmd): seq<Cmd> { if c.TermWindow? || c.InitWindow? then [c] else [] }

  function WindowCmds(cmds: seq<Cmd>): seq<Cmd>
  {
    if cmds == [] then [] else WindowPart(cmds[0]) + WindowCmds(cmds[1..])
  }

  lemma {:induction false} WindowCmdsSnoc(cmds: seq<Cmd>, c: Cmd)
    ensures WindowCmds(cmds + [c]) == WindowCmds(cmds) + WindowPart(c)
    decreases |cmds|
  {
    hide WindowPart;
    if cmds == [] {
      assert cmds + [c] == [c];
    } else {
      assert (cmds + [c])[1..] == cmds[1..] + [c];
      WindowCmdsSnoc(cmds[1..], c);
      var part, rest := WindowPart(cmds[0]), WindowCmds(cmds[1..]);
      assert part + (rest + WindowPart(c)) == (part + rest) + WindowPart(c);
    }
  }

  /** Between the window that is shown and the one asked for there are at most the commands of the
      call in progress. */
  predicate SteadyAt(ui: UiPc, shown: Ptr, asked: Ptr, due: seq<Cmd>)
  {
    match ui
    case WindowLocked(w) => due == [] && shown == asked && (w == 0 || w != asked)
    case WindowTermed(w) =>
      (due == [] && shown == asked == 0) || (due == [TermWindow] && shown == asked != 0 && w != asked)
    case WindowSet => (due == [] && shown == 0) || (due == [TermWindow] && shown != 0 && shown != asked)
    case _ =>
      if (ui.Checking? || ui.Asleep?) && ui.wait.ForWindow? then
        || (due == [] && shown == asked)
        || (due == [InitWindow] && shown == 0 != asked)
        || (due == [TermWindow, InitWindow] && asked != 0 && shown != 0 && shown != asked)
        || (due == [TermWindow] && asked == 0 != shown)
      else
        due == [] && shown == asked
  }

  predicate SteadyInv(s: App)
  {
    s.wants.repeated || SteadyAt(s.ui, s.g.window, s.g.pendingWindow, WindowCmds(Todo(s)))
  }

  lemma WindowCmdsHead(cmds: seq<Cmd>)
    requires cmds != []
    ensures var c, due := cmds[0], WindowCmds(cmds);
            if c.TermWindow? || c.InitWindow? then due != [] && due[0] == c && WindowCmds(cmds[1..]) == due[1..]
            else WindowCmds(cmds[1..]) == due
  {
  }

  lemma SteadyWoken(ui: UiPc, shown: Ptr, asked: Ptr, due: seq<Cmd>)
    requires SteadyAt(ui, shown, asked, due)
    ensures SteadyAt(Broadcast(ui), shown, asked, due)
  {
  }

  /** The app thread takes the first of the commands while the UI thread sleeps or is outside. */
  lemma SteadyTaken(ui: UiPc, shown: Ptr, asked: Ptr, due: seq<Cmd>)
    requires SteadyAt(ui, shown, asked, due) && due != [] && !UiHolds(ui)
    ensures SteadyAt(ui, if due[0].TermWindow? then 0 else asked, asked, due[1..])
  {
  }

  lemma AppKeepsSteady(s: App, produce: bool)
    requires SteadyInv(s) && Enabled(s, AppStep(produce))
    ensures SteadyInv(AppAdvance(s, produce))
  {
    AppEffect(s, produce);
    var s' := AppAdvance(s, produce);
    hide AppAdvance, Todo, WindowCmds, SteadyAt, Broadcast;
    if !s.wants.repeated {
      if Todo(s') != Todo(s) {
        WindowCmdsHead(Todo(s));
        if Todo(s)[0].TermWindow? || Todo(s)[0].InitWindow? {
          SteadyTaken(s.ui, s.g.window, s.g.pendingWindow, WindowCmds(Todo(s)));
        }
      }
      SteadyWoken(s.ui, s'.g.window, s.g.pendingWindow, WindowCmds(Todo(s')));
    }
  }

  /** A step of the UI thread moves on to the next stage of its call. */
  lemma SteadyMoves(ui: UiPc, g: Glue, asked: Ptr, due: seq<Cmd>)
    requires SteadyAt(ui, g.window, g.pendingWindow, due) && !ui.Free?
    requires asked == if ui.WindowTermed? then ui.w else g.pendingWindow
    ensures SteadyAt(UiNext(ui, g), g.window, asked, due + if Posts(ui, g) == [] then [] else WindowPart(Posts(ui, g)[0]))
  {
    assert due + [] == due;
  }

  lemma UiKeepsSteady(s: App)
    requires SteadyInv(s) && !s.ui.Free?
    ensures SteadyInv(UiAdvance(s))
  {
    UiEffect(s);
    hide Todo, WindowCmds, SteadyAt;
    if Posts(s.ui, s.g) != [] {
      WindowCmdsSnoc(Todo(s), Posts(s.ui, s.g)[0]);
    }
    if !s.wants.repeated {
      SteadyMoves(s.ui, s.g, UiAdvance(s).g.pendingWindow, WindowCmds(Todo(s)));
      assert Posts(s.ui, s.g) == [] ==> WindowCmds(Todo(s)) + [] == WindowCmds(Todo(s));
    }
  }

  lemma CallKeepsSteady(s: App, a: Action)
    requires SteadyInv(s) && WindowInv(s) && Enabled(s, a) && !a.UiStep? && !a.AppStep?
    ensures SteadyInv(Apply(s, a))
  {
    CallEffect(s, a);
    hide Todo, WindowCmds, WindowAfter;
    WindowCmdsSnoc(Todo(s), Other);
  }

  // ---- no window without a pending one

  predicate ForTheWindow(ui: UiPc)
  {
    ui.WindowSet? || ((ui.Checking? || ui.Asleep?) && ui.wait.ForWindow?)
  }

  /** Outside the end of a window call there is no window when none is pending. */
  predicate ClosedInv(s: App)
  {
    s.g.pendingWindow == 0 && !ForTheWindow(s.ui) ==> s.g.window == 0
  }

  lemma StepKeepsClosed(s: App, a: Action)
    requires ClosedInv(s) && Enabled(s, a)
    ensures ClosedInv(Apply(s, a))
  {
    match a {
      case AppStep(produce) =>
        AppEffect(s, produce);
        hide AppAdvance, Todo;
      case UiStep =>
        UiEffect(s);
        hide Todo;
      case _ =>
    }
  }

  // ---- all runs

  ghost predicate Inv(s: App, initial: bool)
  {
    && WindowInv(s) && InputInv(s) && StateInv(s) && WakeInv(s) && SaveInv(s) && LedgerInv(s, initial) && SteadyInv(s)
    && ClosedInv(s)
  }

  lemma InitInv(initial: bool)
    ensures Inv(Init(initial), initial)
  {
    assert Ids(1) == [];
  }

  lemma StepKeepsInv(s: App, initial: bool, a: Action)
    requires Inv(s, initial) && Enabled(s, a)
    ensures Inv(Apply(s, a), initial)
  {
    StepKeepsWake(s, a);
    StepKeepsClosed(s, a);
    if a.AppStep? {
      AppKeepsRequests(s, a.produce);
      AppKeepsSave(s, a.produce);
      AppKeepsLedger(s, initial, a.produce);
      AppKeepsSteady(s, a.produce);
    } else if a.UiStep? {
      UiKeepsWindow(s);
      UiKeepsInput(s);
      UiKeepsState(s);
      UiKeepsSave(s);
      UiKeepsLedger(s, initial);
      UiKeepsSteady(s);
    } else {
      CallKeepsRequests(s, a);
      CallKeepsSave(s, initial, a);
      CallKeepsSteady(s, a);
    }
    hide AppAdvance, UiAdvance, WindowInv, InputInv, StateInv, WakeInv, SaveInv, LedgerInv, SteadyInv, ClosedInv;
  }

  lemma {:induction false} RunKeepsInv(s: App, initial: bool, run: seq<Action>)
    requires Inv(s, initial) && Legal(s, run)
    ensures Inv(Run(s, run), initial)
    decreases |run|
  {
    if run != [] {
      StepKeepsInv(s, initial, run[0]);
      RunKeepsInv(Apply(s, run[0]), initial, run[1..]);
    }
  }

  /** In every interleaving the posted commands, applied to the current fields, give what the UI
      thread last asked for; and exactly the current input queue is attached to the looper. */
  lemma RequestsReachFields(initial: bool, run: seq<Action>)
    requires Legal(Init(initial), run)
    ensures var s := Run(Init(initial), run);
            && (s.ui.Free? || s.ui.Checking? || s.ui.Asleep? ==>
                  && WindowAfter(s.g.window, s.g.pendingWindow, Todo(s)) == s.wants.window
                  && InputAfter(s.g.inputQueue, s.g.pendingInput, Todo(s)) == s.wants.input
                  && StateAfter(s.g.activity, Todo(s)) == s.wants.state)
            && s.g.attached == if s.g.inputQueue == 0 then multiset{} else multiset{s.g.inputQueue}
  {
    InitInv(initial);
    RunKeepsInv(Init(initial), initial, run);
    hide Run, Todo, WindowAfter, InputAfter, StateAfter, WakeInv, SaveInv, LedgerInv, SteadyInv;
  }

  /** When a call returns, the field it waited for has the requested value. */
  lemma CallsReturnAsAsked(initial: bool, run: seq<Action>)
    requires Legal(Init(initial), run)
    requires var s := Run(Init(initial), run); s.ui.Checking? && UiAdvance(s).ui.Free?
    ensures var s := Run(Init(initial), run);
            match s.ui.wait
            case ForWindow => s.g.window == s.wants.window
            case ForInput => s.g.inputQueue == s.wants.input
            case ForState(c) => s.g.activity == Some(c) == s.wants.state
            case ForSave =>
              // it returns the block made for this request, if any
              && s.g.savedState == s.wants.answer
              && UiAdvance(s).g.savedState == None
              && UiAdvance(s).blocks.handed ==
                 s.blocks.handed + if s.wants.answer.Some? then [s.wants.answer.value] else []
  {
    InitInv(initial);
    RunKeepsInv(Init(initial), initial, run);
  }

  /** Every block is freed once by the glue or handed over once, never both: the glue only ever
      frees the block it was created with, and every block the application makes for a save
      request is handed to the UI thread in order, by the time that request returns. In
      particular a RESUME still in post-processing never frees one. */
  lemma SavedStateOwnership(initial: bool, run: seq<Action>)
    requires Legal(Init(initial), run)
    ensures var s := Run(Init(initial), run);
            && s.blocks.freed + LiveInitial(s.g) == (if initial then [0] else [])
            && s.blocks.handed + LiveAnswer(s.g) == Ids(s.blocks.next)
            && (!Saving(s.ui) ==> s.blocks.handed == Ids(s.blocks.next))
            && forall b, c :: b in s.blocks.freed && c in s.blocks.handed ==> b != c
  {
    InitInv(initial);
    RunKeepsInv(Init(initial), initial, run);
    var s := Run(Init(initial), run);
    assert LedgerInv(s, initial) && (!Saving(s.ui) ==> LiveAnswer(s.g) == []) by { hide LedgerInv, Todo, Run, WindowInv, InputInv; }
    assert s.blocks.handed + [] == s.blocks.handed;
    hide Inv, Run, Legal, Todo, Saving;
    assert forall b :: b in s.blocks.freed ==> b in s.blocks.freed + LiveInitial(s.g);
    assert forall c :: c in s.blocks.handed ==> c in s.blocks.handed + LiveAnswer(s.g);
  }

  // ---- waits end

  predicate AppOnly(run: seq<Action>)
  {
    forall i :: 0 <= i < |run| ==> run[i].ReadCmd? || run[i].AppStep?
  }

  function Work(s: App): nat
  {
    5 * |s.pipe| + match s.app
                   case Polling => 0
                   case ReadDone(_) => 4
                   case PreDue(_) => 3
                   case UserDue(_) => 2
                   case PostDue(_) => 1
  }

  function NextAppAction(s: App): Action
  {
    if s.app.Polling? then ReadCmd else AppStep(false)
  }

  lemma AppProgress(s: App)
    requires Work(s) > 0 && !UiHolds(s.ui)
    ensures Enabled(s, NextAppAction(s))
    ensures var s' := Apply(s, NextAppAction(s));
            && Work(s') == Work(s) - 1
            && (s'.ui == s.ui || s'.ui == Broadcast(s.ui))
            && s'.g.pendingWindow == s.g.pendingWindow
  {
  }

  lemma WorkDone(s: App)
    ensures Work(s) == 0 <==> s.app.Polling? && s.pipe == []
  {
  }

  /** A poll loop that keeps going drains the pipe in `Work(s)` steps. */
  lemma {:induction false} Drain(s: App, initial: bool) returns (run: seq<Action>)
    requires Inv(s, initial) && !UiHolds(s.ui)
    ensures AppOnly(run) && |run| == Work(s)
    ensures Legal(s, run) && Inv(Run(s, run), initial)
    ensures var s' := Run(s, run);
            s'.app.Polling? && s'.pipe == [] && (s'.ui == s.ui || s'.ui == Broadcast(s.ui))
    decreases Work(s)
  {
    WorkDone(s);
    hide Apply, Enabled, Inv, Work;
    if Work(s) == 0 {
      run := [];
    } else {
      var a := NextAppAction(s);
      AppProgress(s);
      StepKeepsInv(s, initial, a);
      var rest := Drain(Apply(s, a), initial);
      run := [a] + rest;
      assert run[1..] == rest;
    }
  }

  /** With nothing left to do, whatever the UI thread waits for is there. */
  lemma DrainedMeetsWait(s: App, initial: bool)
    requires Inv(s, initial) && s.app.Polling? && s.pipe == [] && s.ui.Asleep?
    ensures Cond(s.g, s.ui.wait) && s.ui.woken
  {
    assert Todo(s) == [];
    hide LedgerInv, SteadyInv;
  }

  /** Every step of the app thread, whatever it answers, takes one unit of work off. */
  lemma AppWorks(s: App, a: Action)
    requires Enabled(s, a) && (a.ReadCmd? || a.AppStep?)
    ensures var s' := Apply(s, a); Work(s') == Work(s) - 1 && (s'.ui == s.ui || s'.ui == Broadcast(s.ui))
  {
  }

  lemma {:induction false} AppRunWorks(s: App, run: seq<Action>)
    requires AppOnly(run) && Legal(s, run)
    ensures var s' := Run(s, run); Work(s') == Work(s) - |run| && (s'.ui == s.ui || s'.ui == Broadcast(s.ui))
    decreases |run|
  {
    hide Apply, Enabled, Work;
    if run != [] {
      assert run[0].ReadCmd? || run[0].AppStep?;
      AppWorks(s, run[0]);
      AppRunWorks(Apply(s, run[0]), run[1..]);
    }
  }

  /** No request waits for ever: whatever the UI thread sleeps on, every run of the app thread works
      off what was posted in `Work(s)` steps, and then the condition holds and the sleeper has been
      woken. `Drain` gives such a run. */
  lemma EveryWaitEnds(initial: bool, run: seq<Action>, more: seq<Action>)
    requires Legal(Init(initial), run) && Run(Init(initial), run).ui.Asleep?
    requires AppOnly(more) && Legal(Run(Init(initial), run), more)
    ensures var s := Run(Init(initial), run); var s' := Run(s, more);
            && |more| <= Work(s)
            && (|more| < Work(s) ==> Enabled(s', NextAppAction(s')))
            && (|more| == Work(s) ==>
                  && s'.app.Polling? && s'.pipe == []
                  && s'.ui == Asleep(s.ui.wait, true) && Cond(s'.g, s.ui.wait))
  {
    var s := Run(Init(initial), run);
    var s' := Run(s, more);
    InitInv(initial);
    hide Inv, Legal, Run, AppOnly, Cond, Work;
    RunKeepsInv(Init(initial), initial, run);
    RunKeepsInv(s, initial, more);
    AppRunWorks(s, more);
    WorkDone(s');
    if |more| == Work(s) {
      DrainedMeetsWait(s', initial);
    } else {
      AppProgress(s');
    }
  }

  // ---- what the window shows between calls

  predicate NoWindowAsked(run: seq<Action>)
  {
    forall i :: 0 <= i < |run| ==> run[i].SetWindow? ==> run[i].w == 0
  }

  predicate Pinned(s: App)
  {
    && s.g.window == s.g.pendingWindow == 0
    && (s.ui.WindowLocked? || s.ui.WindowTermed? ==> s.ui.w == 0)
  }

  lemma {:induction false} PinnedRun(s: App, run: seq<Action>)
    requires Pinned(s) && Legal(s, run) && NoWindowAsked(run)
    ensures Pinned(Run(s, run))
    decreases |run|
  {
    if run != [] {
      assert Pinned(Apply(s, run[0]));
      PinnedRun(Apply(s, run[0]), run[1..]);
    }
  }

  /** Once `set_window(NULL)` has returned, the window stays NULL until another is asked for. */
  lemma NullWindowStays(initial: bool, before: seq<Action>, after: seq<Action>)
    requires Legal(Init(initial), before)
    requires var s := Run(Init(initial), before);
             && s.ui == Checking(ForWindow) && s.wants.window == 0 && UiAdvance(s).ui.Free?
             && Legal(UiAdvance(s), after) && NoWindowAsked(after)
    ensures Run(UiAdvance(Run(Init(initial), before)), after).g.window == 0
  {
    CallsReturnAsAsked(initial, before);
    InitInv(initial);
    RunKeepsInv(Init(initial), initial, before);
    PinnedRun(UiAdvance(Run(Init(initial), before)), after);
  }

  /** For a non-NULL window this holds in runs that never ask again for the window already
      requested: outside `set_window` the window is then exactly the last one asked for. */
  lemma SteadyWindow(initial: bool, run: seq<Action>)
    requires Legal(Init(initial), run) && !Run(Init(initial), run).wants.repeated
    ensures var s := Run(Init(initial), run);
            s.ui.Free? ==> s.g.window == s.wants.window && WindowCmds(Todo(s)) == []
  {
    InitInv(initial);
    RunKeepsInv(Init(initial), initial, run);
  }

  /** An outstanding TERM_WINDOW does take the window away. */
  lemma {:induction false} TermTakesEffect(s: App) returns (run: seq<Action>)
    requires TermWindow in Todo(s) && !UiHolds(s.ui)
    ensures AppOnly(run) && Legal(s, run) && Run(s, run).g.window == 0
    ensures Run(s, run).ui == s.ui || Run(s, run).ui == Broadcast(s.ui)
    decreases Work(s)
  {
    AppProgress(s);
    var a := NextAppAction(s);
    var s' := Apply(s, a);
    if s.app == PostDue(TermWindow) {
      run := [a];
      assert run[1..] == [];
      assert Run(s, run) == Run(s', []);
    } else {
      assert TermWindow in Todo(s') by { if a.AppStep? { AppEffect(s, false); } }
      var rest := TermTakesEffect(s');
      run := [a] + rest;
      assert run[1..] == rest;
    }
  }

  predicate NoWindowCall(run: seq<Action>)
  {
    forall i :: 0 <= i < |run| ==> !run[i].SetWindow?
  }

  /** A window is shown, and nothing that is under way takes it away. */
  predicate Shown(s: App)
  {
    && s.g.window != 0 && s.g.pendingWindow != 0 && TermWindow !in Todo(s)
    && !s.ui.WindowLocked? && !s.ui.WindowTermed? && !s.ui.WindowSet?
  }

  lemma ShownStep(s: App, a: Action)
    requires Shown(s) && Enabled(s, a) && !a.SetWindow?
    ensures Shown(Apply(s, a))
  {
    match a {
      case AppStep(produce) =>
        AppEffect(s, produce);
        hide AppAdvance, Todo;
      case UiStep =>
        UiEffect(s);
        hide Todo;
      case _ =>
        CallEffect(s, a);
        hide Todo;
    }
  }

  lemma {:induction false} ShownRun(s: App, run: seq<Action>)
    requires Shown(s) && Legal(s, run) && NoWindowCall(run)
    ensures Shown(Run(s, run))
    decreases |run|
  {
    hide Shown, Apply, Enabled;
    if run != [] {
      assert !run[0].SetWindow?;
      ShownStep(s, run[0]);
      ShownRun(Apply(s, run[0]), run[1..]);
    }
  }

  lemma ShownStays(s: App)
    requires Shown(s)
    ensures forall after :: Legal(s, after) && NoWindowCall(after) ==> Run(s, after).g.window != 0
  {
    hide Legal, Run;
    forall after | Legal(s, after) && NoWindowCall(after) ensures Run(s, after).g.window != 0 {
      ShownRun(s, after);
    }
  }

  /** Outside a call, the window that is shown can be lost before the next window request exactly
      when a TERM_WINDOW is still outstanding. */
  lemma WindowLostExactly(initial: bool, before: seq<Action>)
    requires Legal(Init(initial), before)
    requires var s := Run(Init(initial), before); s.ui.Free? && s.g.window != 0
    ensures var s := Run(Init(initial), before);
            (exists after :: Legal(s, after) && NoWindowCall(after) && Run(s, after).g.window == 0)
            <==> TermWindow in Todo(s)
  {
    var s := Run(Init(initial), before);
    InitInv(initial);
    RunKeepsInv(Init(initial), initial, before);
    assert ClosedInv(s);
    hide Inv, Legal, Run, Todo;
    if TermWindow in Todo(s) {
      var after := TermTakesEffect(s);
      assert NoWindowCall(after);
    } else {
      assert Shown(s);
      ShownStays(s);
    }
  }

  lemma RunFive(s: App, w: Ptr)
    requires s.ui.Free?
    ensures var call := [SetWindow(w), UiStep, UiStep, UiStep, UiStep];
            Legal(s, call)
            && Run(s, call) == UiAdvance(UiAdvance(UiAdvance(UiAdvance(Apply(s, SetWindow(w))))))
  {
    var call := [SetWindow(w), UiStep, UiStep, UiStep, UiStep];
    var s1 := Apply(s, SetWindow(w));
    var s4 := UiAdvance(UiAdvance(UiAdvance(s1)));
    assert call[1..] == [UiStep, UiStep, UiStep, UiStep];
    assert call[1..][1..] == [UiStep, UiStep, UiStep];
    assert call[1..][1..][1..] == [UiStep, UiStep];
    assert call[1..][1..][1..][1..] == [UiStep];
    assert call[1..][1..][1..][1..][1..] == [];
    assert Legal(s4, [UiStep]) && Run(s4, [UiStep]) == UiAdvance(s4);
    assert Legal(s1, [UiStep, UiStep, UiStep, UiStep]);
  }

  lemma {:induction false} WantsKept(s: App, run: seq<Action>)
    requires AppOnly(run) && Legal(s, run)
    ensures Run(s, run).wants.window == s.wants.window
    decreases |run|
  {
    if run != [] {
      WantsKept(Apply(s, run[0]), run[1..]);
    }
  }

  lemma FreeAndSteady(s: App, initial: bool)
    requires Inv(s, initial) && s.ui.Free? && !s.wants.repeated
    ensures s.g.window == s.g.pendingWindow == s.wants.window
  {
    hide Todo, WindowCmds, WindowAfter, SaveInv, LedgerInv, StateInv, InputInv;
  }

  /** The steps of `set_window(w)` with nothing done by the app thread in between. */
  lemma SetWindowCall(s: App, w: Ptr)
    requires s.ui.Free? && s.g.window == s.g.pendingWindow == s.wants.window && w != 0
    ensures var after := UiAdvance(UiAdvance(UiAdvance(UiAdvance(Apply(s, SetWindow(w))))));
            && (after.ui.Free? <==> w == s.wants.window)
            && after.g.window == s.g.window && after.wants.window == w && !UiHolds(after.ui)
            && (after.ui.Free? ==> TermWindow in Todo(after))
  {
    var s2 := UiAdvance(Apply(s, SetWindow(w)));
    assert s2.pipe == s.pipe + if s.g.window != 0 then [TermWindow] else [];
    assert s.g.window != 0 ==> TermWindow in s2.pipe;
    var s4 := UiAdvance(UiAdvance(s2));
    assert s4.pipe == s2.pipe + [InitWindow] && s4.ui == Checking(ForWindow);
    assert s.g.window != 0 ==> TermWindow in s4.pipe;
    assert forall c :: c in s4.pipe ==> c in Todo(s4);
  }

  /** The app thread alone never moves a UI thread that is not in a call. */
  lemma FreeStays(s: App, run: seq<Action>)
    requires Legal(s, run) && s.ui.Free? && (Run(s, run).ui == s.ui || Run(s, run).ui == Broadcast(s.ui))
    ensures Run(s, run).ui.Free?
  {
  }

  /** Asking again for the window already shown is the one case that breaks the promise. The call
      returns before the app thread has done anything exactly when the non-NULL window is the one
      requested last; TERM_WINDOW is then still outstanding and later takes the window away
      although nothing else was asked for. */
  lemma RepeatedRequestFlickers(s: App, initial: bool, w: Ptr) returns (run: seq<Action>)
    requires Inv(s, initial) && s.ui.Free? && !s.wants.repeated && w != 0
    ensures var call := [SetWindow(w), UiStep, UiStep, UiStep, UiStep];
            && Legal(s, call)
            && var after := Run(s, call);
            && (after.ui.Free? <==> w == s.wants.window)
            && (after.ui.Free? ==>
                  && after.g.window == w
                  && AppOnly(run) && Legal(after, run)
                  && Run(after, run).ui.Free? && Run(after, run).wants.window == w && Run(after, run).g.window == 0)
  {
    FreeAndSteady(s, initial);
    SetWindowCall(s, w);
    RunFive(s, w);
    var after := Run(s, [SetWindow(w), UiStep, UiStep, UiStep, UiStep]);
    hide *;
    run := [];
    if after.ui.Free? {
      run := TermTakesEffect(after);
      WantsKept(after, run);
      FreeStays(after, run);
    }
  }
}
