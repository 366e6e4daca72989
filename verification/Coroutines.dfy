/** The coroutine runtime of include/covent/coroutine.h and include/covent/future.h as a
    machine whose steps are what runs between two transfers of control. Any number of
    loops, each with its own thread; what a coroutine body does next is left open. */
module Coroutines {
  import opened Text

  type Id = nat

  /** A value, an exception, or the "Double await on a task" error. */
  datatype Outcome = Value(v: int) | Exception(e: int) | DoubleAwait

  /** `Initial` until the liveness flag is first set. A suspended body is in a wrapper's
      hands (`Awaiting`) or in a loop's (`Sleeping`). */
  datatype Phase = Initial | Running | Awaiting(wrapper: Id) | Sleeping | Finished

  /** A `task` frame with its promise: its loop, and the handle of the wrapper that
      awaits it. */
  datatype Frame = Frame(loop: nat, phase: Phase, parent: Option<Id>)

  datatype Target = OnTask(child: Id) | OnFuture(future: nat, epoch: nat)

  /** The mini coroutine behind one `co_await` of `client`. `outcome` is set when it has
      what it awaited; `taken` counts how often the client resumed with it; `suspended`
      says whether it had to wait. */
  datatype Wrapper = Wrapper(client: Id, target: Target, outcome: Option<Outcome>, taken: nat, suspended: bool)

  /** `log` holds the value of each epoch that was resolved: a reset begins a new one. */
  datatype Future = Future(value: Option<Outcome>, waiter: Option<Id>, log: seq<Outcome>)

  /** `frames` holds the coroutines that are not destroyed; `results` remembers how each
      finished one ended. `stacks[l]` are the coroutines being resumed on the thread of
      loop `l`, innermost last; `queues[l]` its deferred resumptions. */
  datatype State = State(
    frames: map<Id, Frame>,
    results: map<Id, Outcome>,
    wrappers: map<Id, Wrapper>,
    futures: seq<Future>,
    stacks: seq<seq<Id>>,
    queues: seq<seq<Id>>,
    next: Id)

  function Initially(loops: nat): State {
    State(map[], map[], map[], [], seq(loops, i => []), seq(loops, i => []), 0)
  }

  // ---- Pieces of steps -----------------------------------------------------

  predicate OnThread(s: State, l: nat) {
    l < |s.stacks| && l < |s.queues| && s.stacks[l] != [] && Top(s, l) in s.frames
  }

  function Top(s: State, l: nat): Id
    requires l < |s.stacks| && s.stacks[l] != []
  {
    s.stacks[l][|s.stacks[l]| - 1]
  }

  /** The innermost coroutine of thread `l` stops running. */
  function Leave(s: State, l: nat, phase: Phase): State
    requires OnThread(s, l)
  {
    var f := Top(s, l);
    s.(frames := s.frames[f := s.frames[f].(phase := phase)],
       stacks := s.stacks[l := s.stacks[l][..|s.stacks[l]| - 1]])
  }

  /** What may be resumed: a body not begun, one asleep, one whose await is over. */
  predicate Resumable(s: State, f: Id) {
    f in s.frames &&
    match s.frames[f].phase
    case Initial => true
    case Sleeping => true
    case Awaiting(w) => w in s.wrappers && s.wrappers[w].outcome.Some?
    case other => false
  }

  /** `f` runs on thread `l`; coming back from an await it takes the outcome. */
  function Resume(s: State, l: nat, f: Id): State
    requires l < |s.stacks| && Resumable(s, f)
  {
    var frame := s.frames[f];
    var wrappers := match frame.phase
                    case Awaiting(w) => s.wrappers[w := s.wrappers[w].(taken := s.wrappers[w].taken + 1)]
                    case other => s.wrappers;
    s.(frames := s.frames[f := frame.(phase := Running)],
       wrappers := wrappers,
       stacks := s.stacks[l := s.stacks[l] + [f]])
  }

  function Defer(s: State, f: Id): State
    requires f in s.frames && s.frames[f].loop < |s.queues|
  {
    var l := s.frames[f].loop;
    s.(queues := s.queues[l := s.queues[l] + [f]])
  }

  /** `resume_handle` and the transfer to what it returns: inline on the loop's own
      thread, otherwise through that loop's queue. */
  function Enter(s: State, l: nat, f: Id): State
    requires l < |s.stacks| && Resumable(s, f) && s.frames[f].loop < |s.queues|
  {
    if s.frames[f].loop == l then Resume(s, l, f) else Defer(s, f)
  }

  function SetOutcome(s: State, w: Id, o: Outcome): State
    requires w in s.wrappers
  {
    s.(wrappers := s.wrappers[w := s.wrappers[w].(outcome := Some(o))])
  }

  /** A new wrapper for an await of `client`. */
  function Wrap(s: State, client: Id, target: Target, outcome: Option<Outcome>): State {
    var taken := if outcome.Some? then 1 else 0;
    s.(wrappers := s.wrappers[s.next := Wrapper(client, target, outcome, taken, outcome.None?)], next := s.next + 1)
  }

  // ---- Steps ---------------------------------------------------------------

  datatype Action =
    | Create(loop: nat)
    | Start(l: nat, f: Id)                   // task::start
    | AwaitTask(l: nat, child: Id)
    | NewFuture
    | AwaitFuture(l: nat, future: nat)
    | Resolve(l: nat, future: nat, o: Outcome)
    | Reset(future: nat)
    | Sleep(l: nat)
    | Return(l: nat, o: Outcome)             // co_return, or an exception leaving the body
    | Destroy(fs: set<Id>)                   // together, as a frame goes with the tasks it owns
    | Dispatch(l: nat, i: nat)               // the loop runs one deferred resumption

  /** `start` or an await has asked another loop to begin `f`, and it has not yet. */
  predicate StartPending(s: State, f: Id) {
    f in s.frames && s.frames[f].phase.Initial? && s.frames[f].loop < |s.queues| && f in s.queues[s.frames[f].loop]
  }

  /** Suspended, waiting for a task that has not finished. */
  predicate WaitsOnTask(s: State, f: Id) {
    && f in s.frames && s.frames[f].phase.Awaiting?
    && s.frames[f].phase.wrapper in s.wrappers
    && s.wrappers[s.frames[f].phase.wrapper].outcome.None?
    && s.wrappers[s.frames[f].phase.wrapper].target.OnTask?
  }

  function WaitedTask(s: State, f: Id): Id
    requires WaitsOnTask(s, f)
  {
    s.wrappers[s.frames[f].phase.wrapper].target.child
  }

  /** The frame reached from `f` by following `n` await links. */
  function Chain(s: State, f: Id, n: nat): Option<Id>
    decreases n
  {
    if n == 0 then Some(f)
    else if WaitsOnTask(s, f) then Chain(s, WaitedTask(s, f), n - 1)
    else None
  }

  /** `f` waits, directly or not, for `g` (or is `g`). */
  ghost predicate WaitsFor(s: State, f: Id, g: Id) {
    exists n: nat :: Chain(s, f, n) == Some(g)
  }

  predicate LiveWaiter(s: State, u: nat) {
    && u < |s.futures| && s.futures[u].waiter.Some?
    && var w := s.futures[u].waiter.value;
       && w in s.wrappers && s.wrappers[w].client in s.frames
       && s.frames[s.wrappers[w].client].phase == Awaiting(w)
  }

  /** `f` does not run, and whatever is linked to it by an await of a task goes with it. */
  predicate GoesWith(s: State, f: Id, fs: set<Id>) {
    && f in s.frames && !s.frames[f].phase.Running?
    && (WaitsOnTask(s, f) ==> WaitedTask(s, f) in fs)
    && (!s.frames[f].phase.Finished? && s.frames[f].parent.Some? ==>
          s.frames[f].parent.value in s.wrappers && s.wrappers[s.frames[f].parent.value].client in fs)
  }

  /** What the callers of the library see to: a task is started once, one await at a time
      per future, which is resolved once per reset, no await of a task that waits for the
      awaiter itself, no destruction of a task that runs, or of only one end of an await. */
  ghost predicate Enabled(s: State, a: Action) {
    match a
    case Create(loop) => loop < |s.queues|
    case Start(l, f) =>
      l < |s.stacks| && f in s.frames && s.frames[f].phase.Initial? && !StartPending(s, f)
    case AwaitTask(l, child) =>
      OnThread(s, l) && child in s.frames && !WaitsFor(s, child, Top(s, l))
      && !(StartPending(s, child) && s.frames[child].parent.None?)
    case NewFuture => true
    case AwaitFuture(l, u) => OnThread(s, l) && u < |s.futures| && !LiveWaiter(s, u)
    case Resolve(l, u, _) => l < |s.stacks| && u < |s.futures| && s.futures[u].value.None?
    case Reset(u) => u < |s.futures|
    case Sleep(l) => OnThread(s, l)
    case Return(l, _) => OnThread(s, l)
    case Destroy(fs) => forall f :: f in fs ==> GoesWith(s, f, fs)
    case Dispatch(l, i) => l < |s.queues| && l < |s.stacks| && s.stacks[l] == [] && i < |s.queues[l]|
  }

  /** `task_awaiter` inside the wrapper: a finished task gives its result at once, one
      awaited already an error; otherwise the wrapper becomes its parent, and it is begun
      unless it was. */
  function AwaitTaskStep(s: State, l: nat, child: Id): State
    requires OnThread(s, l) && child in s.frames
    requires s.frames[child].phase.Finished? ==> child in s.results
    requires s.frames[child].loop < |s.queues| && s.frames[Top(s, l)].phase.Running?
  {
    var f := Top(s, l);
    var frame := s.frames[child];
    if frame.phase.Finished? then Wrap(s, f, OnTask(child), Some(s.results[child]))
    else if frame.parent.Some? then Wrap(s, f, OnTask(child), Some(DoubleAwait))
    else
      var s1 := Blocked(s, l, child);
      if frame.phase.Initial? then Enter(s1, l, child) else s1
  }

  /** The awaiting coroutine has left the thread and its wrapper is the child's parent. */
  function Blocked(s: State, l: nat, child: Id): State
    requires OnThread(s, l) && child in s.frames
  {
    var s1 := Wrap(Leave(s, l, Awaiting(s.next)), Top(s, l), OnTask(child), None);
    s1.(frames := s1.frames[child := s1.frames[child].(parent := Some(s.next))])
  }

  /** `final_suspend`: the parent wrapper takes the result and resumes its client. */
  function ReturnStep(s: State, l: nat, o: Outcome): State
    requires OnThread(s, l)
    requires ParentReady(s, Top(s, l))
  {
    var s1 := Ended(s, l, o);
    match s.frames[Top(s, l)].parent
    case None => s1
    case Some(w) => Enter(s1, l, s.wrappers[w].client)
  }

  predicate ParentReady(s: State, f: Id) {
    f in s.frames &&
    match s.frames[f].parent
    case None => true
    case Some(w) =>
      && w in s.wrappers && s.wrappers[w].client in s.frames
      && s.frames[s.wrappers[w].client].phase == Awaiting(w) && s.wrappers[w].client != f
      && s.frames[s.wrappers[w].client].loop < |s.queues|
  }

  function Ended(s: State, l: nat, o: Outcome): State
    requires OnThread(s, l) && ParentReady(s, Top(s, l))
  {
    var f := Top(s, l);
    var s1 := Leave(s, l, Finished).(results := s.results[f := o]);
    match s.frames[f].parent
    case None => s1
    case Some(w) => SetOutcome(s1, w, o)
  }

  function AwaitFutureStep(s: State, l: nat, u: nat): State
    requires OnThread(s, l) && u < |s.futures|
    requires s.futures[u].value.Some? ==> s.futures[u].log != []
  {
    var f := Top(s, l);
    var fut := s.futures[u];
    if fut.value.Some? then Wrap(s, f, OnFuture(u, |fut.log| - 1), fut.value)
    else
      var s1 := Wrap(Leave(s, l, Awaiting(s.next)), f, OnFuture(u, |fut.log|), None);
      s1.(futures := s.futures[u := fut.(waiter := Some(s.next))])
  }

  /** `resolve` or `exception`: the value is stored and a waiter that is still alive runs
      on the resolver's thread. */
  function ResolveStep(s: State, l: nat, u: nat, o: Outcome): State
    requires l < |s.stacks| && u < |s.futures|
    requires LiveWaiter(s, u) ==> s.frames[s.wrappers[s.futures[u].waiter.value].client].loop < |s.queues|
  {
    if LiveWaiter(s, u) then Enter(Settled(s, u, o), l, s.wrappers[s.futures[u].waiter.value].client)
    else Settled(s, u, o)
  }

  function Settled(s: State, u: nat, o: Outcome): State
    requires u < |s.futures|
  {
    var s1 := s.(futures := s.futures[u := s.futures[u].(value := Some(o), log := s.futures[u].log + [o])]);
    if LiveWaiter(s, u) then SetOutcome(s1, s.futures[u].waiter.value, o) else s1
  }

  function Unqueued(s: State, l: nat, i: nat): State
    requires l < |s.queues| && i < |s.queues[l]|
  {
    s.(queues := s.queues[l := s.queues[l][..i] + s.queues[l][i + 1..]])
  }

  /** The deferred function checks by its weak pointer that the coroutine still exists. */
  function DispatchStep(s: State, l: nat, i: nat): State
    requires l < |s.queues| && l < |s.stacks| && i < |s.queues[l]|
    requires s.queues[l][i] in s.frames ==> Resumable(s, s.queues[l][i])
  {
    var f := s.queues[l][i];
    var s1 := Unqueued(s, l, i);
    if f in s.frames then Resume(s1, l, f) else s1
  }

  function CreateStep(s: State, loop: nat): State {
    s.(frames := s.frames[s.next := Frame(loop, Initial, None)], next := s.next + 1)
  }

  /** `handle.destroy()`: the frame, the wrapper in it and the tasks it owns are gone, and
      with them the liveness flags that futures and deferred functions look at. */
  function DestroyStep(s: State, fs: set<Id>): State {
    s.(frames := s.frames - fs)
  }

  function ResetStep(s: State, u: nat): State
    requires u < |s.futures|
  {
    if s.futures[u].value.None? then s
    else s.(futures := s.futures[u := Future(None, None, s.futures[u].log)])
  }

  function SleepStep(s: State, l: nat): State
    requires OnThread(s, l) && s.frames[Top(s, l)].loop < |s.queues|
  {
    Defer(Leave(s, l, Sleeping), Top(s, l))
  }
}
