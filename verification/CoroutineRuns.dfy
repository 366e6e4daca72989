/** The reachable states of the coroutine runtime, and what they promise a program. */
module CoroutineRuns {
  import opened Text
  import opened Coroutines
  import opened CoroutineInvariants
  import opened CoroutineSteps

  /** In a state that satisfies the invariant every piece of a step may be carried out: no
      coroutine is resumed that is running, finished, destroyed or still waiting. */
  ghost function Step(s: State, a: Action): (r: State)
    requires Inv(s, None) && Enabled(s, a)
    ensures Inv(r, None)
  {
    StepKeeps(s, a);
    match a
    case Create(loop) => CreateStep(s, loop)
    case Start(l, f) => Enter(s, l, f)
    case AwaitTask(l, child) => AwaitTaskStep(s, l, child)
    case NewFuture => s.(futures := s.futures + [Future(None, None, [])])
    case AwaitFuture(l, u) => AwaitFutureStep(s, l, u)
    case Resolve(l, u, o) => ResolveStep(s, l, u, o)
    case Reset(u) => ResetStep(s, u)
    case Sleep(l) => SleepStep(s, l)
    case Return(l, o) => ReturnStep(s, l, o)
    case Destroy(fs) => DestroyStep(s, fs)
    case Dispatch(l, i) => DispatchStep(s, l, i)
  }

  lemma {:induction false} StepKeeps(s: State, a: Action)
    requires Inv(s, None) && Enabled(s, a)
    ensures match a
            case Create(loop) => Inv(CreateStep(s, loop), None)
            case Start(l, f) => LoopKnown(s, f) && Inv(Enter(s, l, f), None)
            case AwaitTask(l, child) => AwaitTaskReady(s, l, child) && Inv(AwaitTaskStep(s, l, child), None)
            case NewFuture => Inv(s.(futures := s.futures + [Future(None, None, [])]), None)
            case AwaitFuture(l, u) => FutureLogged(s, u) && Inv(AwaitFutureStep(s, l, u), None)
            case Resolve(l, u, o) => WaiterLoopKnown(s, u) && Inv(ResolveStep(s, l, u, o), None)
            case Reset(u) => Inv(ResetStep(s, u), None)
            case Sleep(l) => LoopKnown(s, Top(s, l)) && Inv(SleepStep(s, l), None)
            case Return(l, o) => ParentReady(s, Top(s, l)) && Inv(ReturnStep(s, l, o), None)
            case Destroy(fs) => Inv(DestroyStep(s, fs), None)
            case Dispatch(l, i) => EntryReady(s, l, i) && Inv(DispatchStep(s, l, i), None)
  {
    hide Stacks, Queues, Links, Deliveries, Acyclic;
    match a
    case Create(loop) => CreateKeeps(s, loop);
    case Start(l, f) => StartKeeps(s, l, f);
    case AwaitTask(l, child) => AwaitTaskKeeps(s, l, child);
    case NewFuture => NewFutureKeeps(s);
    case AwaitFuture(l, u) => AwaitFutureKeeps(s, l, u);
    case Resolve(l, u, o) => ResolveKeeps(s, l, u, o);
    case Reset(u) => ResetKeeps(s, u);
    case Sleep(l) => SleepKeeps(s, l);
    case Return(l, o) => ReturnKeeps(s, l, o);
    case Destroy(fs) => DestroyKeeps(s, fs);
    case Dispatch(l, i) => DispatchKeeps(s, l, i);
  }

  predicate LoopKnown(s: State, f: Id) {
    f in s.frames && s.frames[f].loop < |s.queues|
  }

  predicate AwaitTaskReady(s: State, l: nat, child: Id) {
    && child in s.frames && (s.frames[child].phase.Finished? ==> child in s.results)
    && s.frames[child].loop < |s.queues|
    && OnThread(s, l) && s.frames[Top(s, l)].phase.Running?
  }

  predicate FutureLogged(s: State, u: nat) {
    u < |s.futures| && (s.futures[u].value.Some? ==> s.futures[u].log != [])
  }

  predicate WaiterLoopKnown(s: State, u: nat) {
    LiveWaiter(s, u) ==> s.frames[s.wrappers[s.futures[u].waiter.value].client].loop < |s.queues|
  }

  predicate EntryReady(s: State, l: nat, i: nat) {
    && l < |s.queues| && i < |s.queues[l]|
    && (s.queues[l][i] in s.frames ==> Resumable(s, s.queues[l][i]) && s.frames[s.queues[l][i]].loop == l)
  }

  lemma {:induction false} StartKeeps(s: State, l: nat, f: Id)
    requires Inv(s, None) && Enabled(s, Start(l, f))
    ensures LoopKnown(s, f) && Inv(Enter(s, l, f), None)
  {
    hide Stacks, Queues, Links, Deliveries, Acyclic;
    LoopExists(s, f);
    NotQueued(s, f);
    QueuesFrom(s, s, Some(f));
    EnterKeeps(s, l, f);
  }

  lemma {:induction false} AwaitTaskKeeps(s: State, l: nat, child: Id)
    requires Inv(s, None) && Enabled(s, AwaitTask(l, child))
    ensures AwaitTaskReady(s, l, child) && Inv(AwaitTaskStep(s, l, child), None)
  {
    hide Stacks, Queues, Links, Acyclic;
    TopRuns(s, l);
    LoopExists(s, child);
    var f := Top(s, l);
    if s.frames[child].phase.Finished? {
      WrapKeeps(s, f, OnTask(child), s.results[child]);
    } else if s.frames[child].parent.Some? {
      WrapKeeps(s, f, OnTask(child), DoubleAwait);
    } else {
      BlockedKeeps(s, l, child);
      if s.frames[child].phase.Initial? {
        NotItself(s, child, f);
        BlockedStacks(s, l, child);
        EnterKeeps(Blocked(s, l, child), l, child);
      }
    }
  }

  lemma BlockedStacks(s: State, l: nat, child: Id)
    requires OnThread(s, l) && child in s.frames && child != Top(s, l)
    ensures var s1 := Blocked(s, l, child);
            && |s1.stacks| == |s.stacks| && |s1.queues| == |s.queues|
            && child in s1.frames && s1.frames[child].phase == s.frames[child].phase
            && s1.frames[child].loop == s.frames[child].loop
  {
  }

  lemma {:induction false} AwaitFutureKeeps(s: State, l: nat, u: nat)
    requires Inv(s, None) && Enabled(s, AwaitFuture(l, u))
    ensures FutureLogged(s, u) && Inv(AwaitFutureStep(s, l, u), None)
  {
    hide Stacks, Queues, Links, Acyclic;
    TopRuns(s, l);
    if s.futures[u].value.Some? {
      WrapKeeps(s, Top(s, l), OnFuture(u, |s.futures[u].log| - 1), s.futures[u].value.value);
    } else {
      FutureBlockedKeeps(s, l, u);
    }
  }

  lemma {:induction false} ResolveKeeps(s: State, l: nat, u: nat, o: Outcome)
    requires Inv(s, None) && Enabled(s, Resolve(l, u, o))
    ensures WaiterLoopKnown(s, u) && Inv(ResolveStep(s, l, u, o), None)
  {
    hide Stacks, Queues, Links, Deliveries, Acyclic;
    SettledKeeps(s, u, o);
    if LiveWaiter(s, u) {
      var client := s.wrappers[s.futures[u].waiter.value].client;
      LoopExists(s, client);
      EnterKeeps(Settled(s, u, o), l, client);
    }
  }

  lemma {:induction false} ReturnKeeps(s: State, l: nat, o: Outcome)
    requires Inv(s, None) && Enabled(s, Return(l, o))
    ensures ParentReady(s, Top(s, l)) && Inv(ReturnStep(s, l, o), None)
  {
    hide Stacks, Queues, Links, Deliveries, Acyclic;
    ParentIsReady(s, l);
    EndedKeeps(s, l, o);
    var parent := s.frames[Top(s, l)].parent;
    if parent.Some? {
      EnterKeeps(Ended(s, l, o), l, s.wrappers[parent.value].client);
    }
  }

  lemma DispatchKeeps(s: State, l: nat, i: nat)
    requires Inv(s, None) && Enabled(s, Dispatch(l, i))
    ensures EntryReady(s, l, i) && Inv(DispatchStep(s, l, i), None)
  {
    hide Stacks, Links, Deliveries, Acyclic;
    UnqueuedKeeps(s, l, i);
    if s.queues[l][i] in s.frames {
      EnterKeeps(Unqueued(s, l, i), l, s.queues[l][i]);
    }
  }

  // ---- Reachable states ----------------------------------------------------

  lemma InitiallyHolds(loops: nat)
    ensures Inv(Initially(loops), None)
  {
  }

  /** The actions in order; one that is not enabled when its turn comes is left out. */
  ghost function Run(s: State, actions: seq<Action>): State
    requires Inv(s, None)
    decreases |actions|
  {
    if actions == [] then s
    else Run(if Enabled(s, actions[0]) then Step(s, actions[0]) else s, actions[1..])
  }

  ghost function Reached(loops: nat, actions: seq<Action>): State {
    InitiallyHolds(loops);
    Run(Initially(loops), actions)
  }

  lemma {:induction false} RunKeeps(s: State, actions: seq<Action>)
    requires Inv(s, None)
    ensures Inv(Run(s, actions), None)
    decreases |actions|
  {
    hide Inv, Enabled, Step;
    if actions != [] {
      RunKeeps(if Enabled(s, actions[0]) then Step(s, actions[0]) else s, actions[1..]);
    }
  }

  /** The invariant holds in every state the runtime can reach. */
  lemma EveryReachedState(loops: nat, actions: seq<Action>)
    ensures Inv(Reached(loops, actions), None)
  {
    hide Inv, Run;
    InitiallyHolds(loops);
    RunKeeps(Initially(loops), actions);
  }

  /** A coroutine runs only on the thread of its own loop. */
  lemma LoopAffinity(loops: nat, actions: seq<Action>, l: nat, f: Id)
    requires var s := Reached(loops, actions); l < |s.stacks| && f in s.stacks[l]
    ensures var s := Reached(loops, actions);
            f in s.frames && s.frames[f].phase.Running? && s.frames[f].loop == l
  {
    hide Reached, Queues, Links, Deliveries, Acyclic;
    EveryReachedState(loops, actions);
    var s := Reached(loops, actions);
    assert Stacks(s);
  }

  /** Waiting in `w` for `c`. */
  predicate Awaits(s: State, w: Id, c: Id) {
    && w in s.wrappers && s.wrappers[w].target == OnTask(c) && s.wrappers[w].outcome.None?
    && s.wrappers[w].client in s.frames && s.frames[s.wrappers[w].client].phase == Awaiting(w)
  }

  /** A task has at most one awaiter, and an awaited task exists and has not finished: no
      wakeup is ever lost. */
  lemma OneAwaiter(loops: nat, actions: seq<Action>, w: Id, c: Id)
    requires Awaits(Reached(loops, actions), w, c)
    ensures var s := Reached(loops, actions);
            && c in s.frames && !s.frames[c].phase.Finished?
            && forall v :: Awaits(s, v, c) ==> v == w
  {
    hide Reached, Queues, Stacks, Deliveries, Acyclic;
    EveryReachedState(loops, actions);
    var s := Reached(loops, actions);
    assert forall v :: Awaits(s, v, c) ==> Link(s, s.wrappers[v].client, v);
  }

  /** The awaits of `s` are those of `r`; outcomes and results of `s` are in `r` unchanged,
      and none is given back. */
  ghost predicate Final(s: State, r: State) {
    && (forall w :: w in s.wrappers ==> w in r.wrappers && SameAwait(s.wrappers[w], r.wrappers[w]))
    && (forall f :: f in s.results ==> f in r.results && r.results[f] == s.results[f])
  }

  predicate SameAwait(v: Wrapper, w: Wrapper) {
    && w.client == v.client && w.target == v.target && w.suspended == v.suspended && w.taken >= v.taken
    && (v.outcome.Some? ==> w.outcome == v.outcome)
  }

  lemma EnterIsFinal(s0: State, s: State, l: nat, f: Id)
    requires Final(s0, s) && l < |s.stacks| && Resumable(s, f) && s.frames[f].loop < |s.queues|
    ensures Final(s0, Enter(s, l, f))
  {
  }

  lemma EndedIsFinal(s: State, l: nat, o: Outcome)
    requires OnThread(s, l) && ParentReady(s, Top(s, l)) && Top(s, l) !in s.results && Links(s)
    requires !s.frames[Top(s, l)].phase.Finished?
    ensures Final(s, Ended(s, l, o))
  {
    var f := Top(s, l);
    if s.frames[f].parent.Some? {
      assert ParentLink(s, f, s.frames[f].parent.value);
    }
  }

  lemma SettledIsFinal(s: State, u: nat, o: Outcome)
    requires Links(s) && u < |s.futures| && s.futures[u].value.None?
    ensures Final(s, Settled(s, u, o))
  {
    if LiveWaiter(s, u) {
      assert WaiterLink(s, u, s.futures[u].waiter.value);
    }
  }

  lemma AwaitIsFinal(s: State, l: nat, child: Id)
    requires Links(s) && OnThread(s, l) && child in s.frames && AwaitTaskReady(s, l, child)
    requires child != Top(s, l)
    ensures Final(s, AwaitTaskStep(s, l, child))
  {
    var frame := s.frames[child];
    if !frame.phase.Finished? && frame.parent.None? && frame.phase.Initial? {
      EnterIsFinal(s, Blocked(s, l, child), l, child);
    }
  }

  lemma CreateIsFinal(s: State, loop: nat)
    ensures Final(s, CreateStep(s, loop))
  {
  }

  lemma AwaitFutureIsFinal(s: State, l: nat, u: nat)
    requires Links(s) && OnThread(s, l) && FutureLogged(s, u)
    ensures Final(s, AwaitFutureStep(s, l, u))
  {
  }

  lemma ResetIsFinal(s: State, u: nat)
    requires u < |s.futures|
    ensures Final(s, ResetStep(s, u))
  {
  }

  lemma SleepIsFinal(s: State, l: nat)
    requires OnThread(s, l) && LoopKnown(s, Top(s, l))
    ensures Final(s, SleepStep(s, l))
  {
  }

  lemma DestroyIsFinal(s: State, fs: set<Id>)
    ensures Final(s, DestroyStep(s, fs))
  {
  }

  lemma DispatchIsFinal(s: State, l: nat, i: nat)
    requires EntryReady(s, l, i) && l < |s.stacks|
    ensures Final(s, DispatchStep(s, l, i))
  {
  }

  /** An outcome, once set, never changes, and a task finishes once. */
  lemma {:induction false} OutcomesAreFinal(s: State, a: Action)
    requires Inv(s, None) && Enabled(s, a)
    ensures Final(s, Step(s, a))
  {
    hide Queues, Stacks, Acyclic, Deliveries, WaitsFor, Enter, Ended, Settled, AwaitTaskStep;
    hide ResetStep, SleepStep, DestroyStep, CreateStep, AwaitFutureStep, DispatchStep;
    StepKeeps(s, a);
    match a
    case Create(loop) => CreateIsFinal(s, loop);
    case NewFuture =>
    case AwaitFuture(l, u) => AwaitFutureIsFinal(s, l, u);
    case Reset(u) => ResetIsFinal(s, u);
    case Sleep(l) => SleepIsFinal(s, l);
    case Destroy(fs) => DestroyIsFinal(s, fs);
    case Dispatch(l, i) => DispatchIsFinal(s, l, i);
    case Start(l, f) => EnterIsFinal(s, s, l, f);
    case AwaitTask(l, child) =>
      NotItself(s, child, Top(s, l));
      AwaitIsFinal(s, l, child);
    case Return(l, o) =>
      TopRunsNow(s, l);
      EndedIsFinal(s, l, o);
      var parent := s.frames[Top(s, l)].parent;
      if parent.Some? {
        ParentIsNext(s, l, o);
        EnterIsFinal(s, Ended(s, l, o), l, s.wrappers[parent.value].client);
      }
    case Resolve(l, u, o) =>
      SettledIsFinal(s, u, o);
      if LiveWaiter(s, u) {
        WaiterIsNext(s, u, o);
        EnterIsFinal(s, Settled(s, u, o), l, s.wrappers[s.futures[u].waiter.value].client);
      }
  }

  lemma ParentIsNext(s: State, l: nat, o: Outcome)
    requires OnThread(s, l) && ParentReady(s, Top(s, l)) && s.frames[Top(s, l)].parent.Some?
    ensures var s1 := Ended(s, l, o);
            var client := s.wrappers[s.frames[Top(s, l)].parent.value].client;
            |s1.stacks| == |s.stacks| && Resumable(s1, client) && s1.frames[client].loop < |s1.queues|
  {
  }

  lemma WaiterIsNext(s: State, u: nat, o: Outcome)
    requires LiveWaiter(s, u) && WaiterLoopKnown(s, u)
    ensures var s1 := Settled(s, u, o);
            var client := s.wrappers[s.futures[u].waiter.value].client;
            |s1.stacks| == |s.stacks| && Resumable(s1, client) && s1.frames[client].loop < |s1.queues|
  {
  }

  lemma TopRunsNow(s: State, l: nat)
    requires Inv(s, None) && OnThread(s, l)
    ensures s.frames[Top(s, l)].phase.Running? && Top(s, l) !in s.results
  {
  }

  // ---- Nothing gets stuck --------------------------------------------------

  predicate Quiet(s: State) {
    && (forall l :: 0 <= l < |s.stacks| ==> s.stacks[l] == [])
    && (forall l :: 0 <= l < |s.queues| ==> s.queues[l] == [])
  }

  /** Suspended on a future that nobody has resolved. */
  predicate OnOpenFuture(s: State, f: Id) {
    && f in s.frames && s.frames[f].phase.Awaiting? && s.frames[f].phase.wrapper in s.wrappers
    && var target := s.wrappers[s.frames[f].phase.wrapper].target;
       target.OnFuture? && target.future < |s.futures| && s.futures[target.future].value.None?
  }

  lemma QuietNotDue(s: State, f: Id)
    requires Inv(s, None) && Quiet(s) && f in s.frames && s.frames[f].phase.Awaiting?
    ensures !(s.frames[f].phase.wrapper in s.wrappers && s.wrappers[s.frames[f].phase.wrapper].outcome.Some?)
  {
    hide Deliveries, Acyclic, Stacks, Links;
    assert !Due(s, f);
  }

  lemma QuietAwaits(s: State, c: Id)
    requires Inv(s, None) && Quiet(s) && c in s.frames && !s.frames[c].phase.Finished? && s.frames[c].parent.Some?
    ensures s.frames[c].phase.Awaiting?
  {
    hide Deliveries, Acyclic, Links;
    assert !Due(s, c);
  }

  /** When nothing runs and nothing is deferred, whoever is still suspended waits, at the
      end of its await links, for a future that has not been resolved. */
  lemma {:induction false} OnlyFuturesHoldUp(s: State, f: Id, n: nat) returns (k: nat, g: Id)
    requires Inv(s, None) && Quiet(s) && f in s.frames && s.frames[f].phase.Awaiting? && Chain(s, f, n).None?
    ensures Chain(s, f, k) == Some(g) && OnOpenFuture(s, g)
    decreases n
  {
    hide Deliveries, Acyclic, Queues, Stacks, Quiet, Due;
    var w := s.frames[f].phase.wrapper;
    assert Link(s, f, w);
    QuietNotDue(s, f);
    if s.wrappers[w].target.OnTask? {
      var c := s.wrappers[w].target.child;
      QuietAwaits(s, c);
      var i;
      i, g := OnlyFuturesHoldUp(s, c, n - 1);
      k := i + 1;
    } else {
      k, g := 0, f;
    }
  }

  lemma QuietMeansOpenFutures(loops: nat, actions: seq<Action>, f: Id)
    requires Quiet(Reached(loops, actions))
    requires var s := Reached(loops, actions); f in s.frames && s.frames[f].phase.Awaiting?
    ensures var s := Reached(loops, actions);
            exists k: nat, g :: Chain(s, f, k) == Some(g) && OnOpenFuture(s, g)
  {
    hide Reached, Queues, Stacks, Deliveries, Links;
    EveryReachedState(loops, actions);
    var s := Reached(loops, actions);
    var n: nat :| Chain(s, f, n).None?;
    var k, g := OnlyFuturesHoldUp(s, f, n);
  }

  // ---- Resolve before or after await ---------------------------------------

  /** The wrapper of an await that has been given `o` and whose client has taken it. */
  function AnsweredWith(s: State, l: nat, u: nat, o: Outcome, suspended: bool): Wrapper
    requires OnThread(s, l) && u < |s.futures|
  {
    Wrapper(Top(s, l), OnFuture(u, |s.futures[u].log|), Some(o), 1, suspended)
  }

  /** Resolved first: the await does not suspend. */
  lemma ResolvedFirst(s: State, l: nat, u: nat, o: Outcome)
    requires OnThread(s, l) && u < |s.futures| && s.futures[u].value.None? && !LiveWaiter(s, u)
    ensures var r := ResolveStep(s, l, u, o);
            && OnThread(r, l) && FutureLogged(r, u) && r.futures[u].value.Some?
            && var after := AwaitFutureStep(r, l, u);
               && after.wrappers == s.wrappers[s.next := AnsweredWith(s, l, u, o, false)]
               && after.frames == s.frames && after.stacks == s.stacks && after.queues == s.queues
  {
  }

  /** Awaited first: the resolver runs the awaiter on. */
  lemma AwaitedFirst(s: State, l: nat, u: nat, o: Outcome)
    requires OnThread(s, l) && u < |s.futures| && s.futures[u].value.None?
    requires s.frames[Top(s, l)] == Frame(l, Running, s.frames[Top(s, l)].parent)
    ensures var r := AwaitFutureStep(s, l, u);
            && LiveWaiter(r, u) && r.futures[u].value.None? && WaiterLoopKnown(r, u)
            && l < |r.stacks|
            && var after := ResolveStep(r, l, u, o);
               && after.wrappers == s.wrappers[s.next := AnsweredWith(s, l, u, o, true)]
               && after.frames == s.frames && after.stacks == s.stacks && after.queues == s.queues
  {
    var f := Top(s, l);
    var r := AwaitFutureStep(s, l, u);
    assert s.stacks[l] == s.stacks[l][..|s.stacks[l]| - 1] + [f];
    assert s.frames[f := s.frames[f].(phase := Awaiting(s.next))][f := s.frames[f]] == s.frames;
    AwaitedThenResumed(s, r, l, u, o);
  }

  lemma AwaitedThenResumed(s: State, r: State, l: nat, u: nat, o: Outcome)
    requires OnThread(s, l) && u < |s.futures| && s.futures[u].value.None? && r == AwaitFutureStep(s, l, u)
    requires s.frames[Top(s, l)] == Frame(l, Running, s.frames[Top(s, l)].parent)
    ensures LiveWaiter(r, u) && WaiterLoopKnown(r, u) && r.stacks[l] == s.stacks[l][..|s.stacks[l]| - 1]
    ensures var s1 := Settled(r, u, o);
            Resumable(s1, Top(s, l)) && ResolveStep(r, l, u, o) == Resume(s1, l, Top(s, l))
  {
  }

  /** It does not matter whether a future is resolved before it is awaited or after: the
      awaiter runs on with the value, once, and nothing is different but that it had to wait. */
  lemma ResolveEitherWay(s: State, l: nat, u: nat, o: Outcome)
    requires Inv(s, None) && Enabled(s, AwaitFuture(l, u)) && s.futures[u].value.None?
    ensures var resolved := ResolveStep(s, l, u, o);
            var suspended := AwaitFutureStep(s, l, u);
            && OnThread(resolved, l) && FutureLogged(resolved, u) && u < |resolved.futures|
            && WaiterLoopKnown(suspended, u) && l < |suspended.stacks| && u < |suspended.futures|
            && var before := AwaitFutureStep(resolved, l, u);
               var after := ResolveStep(suspended, l, u, o);
               && before.wrappers[s.next] == AnsweredWith(s, l, u, o, false)
               && after.wrappers == before.wrappers[s.next := before.wrappers[s.next].(suspended := true)]
               && before.frames == after.frames == s.frames
               && before.stacks == after.stacks == s.stacks
               && before.queues == after.queues == s.queues
  {
    hide Inv, AwaitFutureStep, ResolveStep, WaitsFor, Wrap, Leave;
    TopOnLoop(s, l);
    ResolvedFirst(s, l, u, o);
    AwaitedFirst(s, l, u, o);
  }

  lemma TopOnLoop(s: State, l: nat)
    requires Inv(s, None) && OnThread(s, l)
    ensures s.frames[Top(s, l)] == Frame(l, Running, s.frames[Top(s, l)].parent)
  {
    hide Queues, Links, Deliveries, Acyclic;
  }
}
