/** The coroutine runtime checks little of what its callers must see to: for starting, awaiting
    and destroying, exactly when things go wrong, and a state that can be reached in which they
    do. */
module CoroutineLimits {
  import opened Text
  import opened Coroutines
  import opened CoroutineInvariants
  import opened CoroutineSteps
  import opened CoroutineRuns

  /** An await that suspends, apart from its guards. */
  ghost predicate WouldSuspend(s: State, l: nat, child: Id) {
    && Inv(s, None) && OnThread(s, l) && child in s.frames
    && !s.frames[child].phase.Finished? && s.frames[child].parent.None?
  }

  // ---- Awaiting one's own awaiter ------------------------------------------

  lemma {:induction false} ChainAdd(s: State, f: Id, p: nat, m: nat)
    requires Chain(s, f, p).Some?
    ensures Chain(s, f, p + m) == Chain(s, Chain(s, f, p).value, m)
    decreases p
  {
    if p > 0 {
      ChainAdd(s, WaitedTask(s, f), p - 1, m);
    }
  }

  lemma {:induction false} ChainPrefix(s: State, f: Id, p: nat, m: nat)
    requires Chain(s, f, p).Some? && m <= p
    ensures Chain(s, f, m).Some?
    decreases p
  {
    if m > 0 {
      ChainPrefix(s, WaitedTask(s, f), p - 1, m - 1);
    }
  }

  lemma {:induction false} RoundAndRound(s: State, f: Id, p: nat, m: nat)
    requires p > 0 && Chain(s, f, p) == Some(f)
    ensures Chain(s, f, m).Some?
    decreases m
  {
    if m <= p {
      ChainPrefix(s, f, p, m);
    } else {
      RoundAndRound(s, f, p, m - p);
      ChainAdd(s, f, p, m - p);
    }
  }

  /** The way from `x` to `f` is still there when `f` begins to wait. */
  lemma {:induction false} ChainReaches(s: State, s1: State, f: Id, child: Id, x: Id, n: nat)
    requires OneMoreLink(s, s1, f, child) && Chain(s, x, n) == Some(f)
    ensures Chain(s1, x, n) == Some(f)
    decreases n
  {
    if n > 0 {
      ChainReaches(s, s1, f, child, WaitedTask(s, x), n - 1);
    }
  }

  lemma SuspendAddsLink(s: State, l: nat, child: Id)
    requires Links(s) && OnThread(s, l) && child in s.frames && s.frames[Top(s, l)].phase.Running?
    ensures OneMoreLink(s, Blocked(s, l, child), Top(s, l), child)
  {
  }

  /** Awaiting a task closes a cycle of await links if and only if that task waits for the
      awaiter already; `task_awaiter` does not look. */
  lemma CycleExactly(s: State, l: nat, child: Id)
    requires WouldSuspend(s, l, child)
    ensures Acyclic(Blocked(s, l, child)) <==> !WaitsFor(s, child, Top(s, l))
  {
    hide Queues, Deliveries, Acyclic, Stacks, Links;
    TopRuns(s, l);
    var f := Top(s, l);
    var s1 := Blocked(s, l, child);
    SuspendAddsLink(s, l, child);
    if WaitsFor(s, child, f) {
      var n: nat :| Chain(s, child, n) == Some(f);
      ChainReaches(s, s1, f, child, child, n);
      assert Chain(s1, f, n + 1) == Some(f);
      forall m: nat
        ensures Chain(s1, f, m).Some?
      {
        RoundAndRound(s1, f, n + 1, m);
      }
      NeverEnds(s1, f);
    } else {
      OneMoreLinkKeepsAcyclic(s, s1, f, child);
    }
  }

  lemma NeverEnds(s: State, f: Id)
    requires f in s.frames && forall m: nat :: Chain(s, f, m).Some?
    ensures !Acyclic(s)
  {
  }

  // ---- Starting a task of another loop, then awaiting it --------------------

  /** `start` only queues a task of another loop and leaves its liveness flag unset, so an
      await that comes first queues it again. The queues stay sound if and only if no start
      is pending. */
  lemma {:induction false} StartThenAwaitExactly(s: State, l: nat, child: Id)
    requires WouldSuspend(s, l, child) && !WaitsFor(s, child, Top(s, l))
    ensures AwaitTaskReady(s, l, child)
    ensures Queues(AwaitTaskStep(s, l, child), None) <==> !StartPending(s, child)
  {
    hide Deliveries, Acyclic, Stacks, Links, WaitsFor, Queues;
    TopRuns(s, l);
    LoopExists(s, child);
    NotItself(s, child, Top(s, l));
    if StartPending(s, child) {
      PendingIsQueuedTwice(s, l, child);
    } else {
      AwaitTaskKeeps(s, l, child);
    }
  }

  lemma PendingIsQueuedTwice(s: State, l: nat, child: Id)
    requires OnThread(s, l) && child in s.frames && StartPending(s, child) && s.frames[child].parent.None?
    requires AwaitTaskReady(s, l, child) && child != Top(s, l)
    ensures !Queues(AwaitTaskStep(s, l, child), None)
  {
    var loop := s.frames[child].loop;
    var q := s.queues[loop];
    var s1 := AwaitTaskStep(s, l, child);
    if loop == l {
      assert child in s1.queues[loop] && s1.frames[child].phase.Running?;
      assert !Resumable(s1, child);
    } else {
      assert s1.queues[loop] == q + [child];
      var i :| 0 <= i < |q| && q[i] == child;
      assert s1.queues[loop][i] == s1.queues[loop][|q|];
    }
  }

  // ---- Two awaiters of one future ------------------------------------------

  /** A future keeps one coroutine handle: a second await drops a first one that is still
      waiting, and that one is never resumed. */
  lemma {:induction false} SecondAwaiterExactly(s: State, l: nat, u: nat)
    requires Inv(s, None) && OnThread(s, l) && u < |s.futures| && s.futures[u].value.None?
    ensures Links(AwaitFutureStep(s, l, u)) <==> !LiveWaiter(s, u)
  {
    hide Queues, Deliveries, Acyclic, Stacks;
    TopRuns(s, l);
    if LiveWaiter(s, u) {
      var s1 := AwaitFutureStep(s, l, u);
      var w := s.futures[u].waiter.value;
      var client := s.wrappers[w].client;
      assert WaiterLink(s, u, w);
      assert client != Top(s, l) && s1.frames[client].phase == Awaiting(w);
      assert !Link(s1, client, w);
    } else {
      FutureBlockedKeepsLinks(s, l, u);
    }
  }

  // ---- Starting ------------------------------------------------------------

  /** A coroutine that could be resumed may be started if and only if it was not begun and no
      start of it is pending: anything else is in its loop's queue already and would be
      resumed twice. */
  lemma StartExactly(s: State, l: nat, f: Id)
    requires Inv(s, None) && l < |s.stacks| && Resumable(s, f)
    ensures LoopKnown(s, f)
    ensures Queues(Enter(s, l, f), None) <==> Enabled(s, Start(l, f))
  {
    hide Deliveries, Acyclic, Stacks, Links, Queues;
    LoopExists(s, f);
    if Enabled(s, Start(l, f)) {
      StartKeeps(s, l, f);
    } else {
      NotBegunIsQueued(s, f);
      QueuedIsEnteredTwice(s, l, f);
    }
  }

  lemma NotBegunIsQueued(s: State, f: Id)
    requires Queues(s, None) && Resumable(s, f) && LoopKnown(s, f)
    requires !s.frames[f].phase.Initial? || StartPending(s, f)
    ensures f in s.queues[s.frames[f].loop]
  {
    if !s.frames[f].phase.Initial? {
      assert Due(s, f);
    }
  }

  lemma QueuedIsEnteredTwice(s: State, l: nat, f: Id)
    requires l < |s.stacks| && Resumable(s, f) && LoopKnown(s, f) && f in s.queues[s.frames[f].loop]
    ensures !Queues(Enter(s, l, f), None)
  {
    var loop := s.frames[f].loop;
    var q := s.queues[loop];
    var s1 := Enter(s, l, f);
    if loop == l {
      assert f in s1.queues[loop] && !Resumable(s1, f);
    } else {
      assert s1.queues[loop] == q + [f];
      var i :| 0 <= i < |q| && q[i] == f;
      assert s1.queues[loop][i] == s1.queues[loop][|q|];
    }
  }

  // ---- Destroying ----------------------------------------------------------

  /** Frames may be destroyed together if and only if none of them runs and with each one go
      the task it waits for and whoever waits for it: otherwise a thread or a link is left
      that leads to a frame no longer there. */
  lemma DestroyExactly(s: State, fs: set<Id>)
    requires Inv(s, None) && fs <= s.frames.Keys
    ensures Stacks(DestroyStep(s, fs)) && Links(DestroyStep(s, fs)) <==> Enabled(s, Destroy(fs))
  {
    hide Queues, Deliveries, Acyclic, Links, Stacks;
    if f :| f in fs && !GoesWith(s, f, fs) {
      LeftBehind(s, fs, f);
    } else {
      DestroyKeepsStacks(s, fs);
      DestroyKeepsLinks(s, fs);
    }
  }

  /** If `f` leaves one of its links behind, something no longer holds. */
  lemma LeftBehind(s: State, fs: set<Id>, f: Id)
    requires Stacks(s) && Links(s) && fs <= s.frames.Keys && f in fs && !GoesWith(s, f, fs)
    ensures !Stacks(DestroyStep(s, fs)) || !Links(DestroyStep(s, fs))
  {
    var r := DestroyStep(s, fs);
    if s.frames[f].phase.Running? {
      assert f in r.stacks[s.frames[f].loop] && f !in r.frames;
    } else if WaitsOnTask(s, f) && WaitedTask(s, f) !in fs {
      var w, c := s.frames[f].phase.wrapper, WaitedTask(s, f);
      assert Link(s, f, w);
      assert c in r.frames && r.frames[c] == s.frames[c];
      assert !ParentLink(r, c, w);
    } else {
      var w := s.frames[f].parent.value;
      var client := s.wrappers[w].client;
      assert ParentLink(s, f, w);
      assert r.frames[client].phase == Awaiting(w);
      assert !Link(r, client, w);
    }
  }

  // ---- It happens ----------------------------------------------------------

  lemma RunFirst(s: State, a: Action, rest: seq<Action>)
    requires Inv(s, None) && Enabled(s, a)
    ensures Run(s, [a] + rest) == Run(Step(s, a), rest)
  {
    hide Inv, Enabled, Step;
    assert ([a] + rest)[1..] == rest;
  }

  lemma RunCreate(s: State, loop: nat, rest: seq<Action>)
    requires Inv(s, None) && loop < |s.queues|
    ensures Inv(CreateStep(s, loop), None) && Run(s, [Create(loop)] + rest) == Run(CreateStep(s, loop), rest)
  {
    hide Inv, Run;
    StepKeeps(s, Create(loop));
    RunFirst(s, Create(loop), rest);
  }

  lemma RunStart(s: State, l: nat, f: Id, rest: seq<Action>)
    requires Inv(s, None) && Enabled(s, Start(l, f))
    ensures LoopKnown(s, f) && Inv(Enter(s, l, f), None) && Run(s, [Start(l, f)] + rest) == Run(Enter(s, l, f), rest)
  {
    hide Inv, Run;
    StepKeeps(s, Start(l, f));
    RunFirst(s, Start(l, f), rest);
  }

  lemma RunNone(s: State)
    requires Inv(s, None)
    ensures Run(s, []) == s
  {
  }

  lemma RunNewFuture(s: State, rest: seq<Action>)
    requires Inv(s, None)
    ensures var s1 := s.(futures := s.futures + [Future(None, None, [])]);
            Inv(s1, None) && Run(s, [NewFuture] + rest) == Run(s1, rest)
  {
    hide Inv, Run;
    StepKeeps(s, NewFuture);
    RunFirst(s, NewFuture, rest);
  }

  lemma RunAwaitTask(s: State, l: nat, child: Id, rest: seq<Action>)
    requires Inv(s, None) && Enabled(s, AwaitTask(l, child))
    ensures AwaitTaskReady(s, l, child) && Inv(AwaitTaskStep(s, l, child), None)
    ensures Run(s, [AwaitTask(l, child)] + rest) == Run(AwaitTaskStep(s, l, child), rest)
  {
    hide Inv, Run, WaitsFor;
    StepKeeps(s, AwaitTask(l, child));
    RunFirst(s, AwaitTask(l, child), rest);
  }

  lemma RunAwaitFuture(s: State, l: nat, u: nat, rest: seq<Action>)
    requires Inv(s, None) && Enabled(s, AwaitFuture(l, u))
    ensures FutureLogged(s, u) && Inv(AwaitFutureStep(s, l, u), None)
    ensures Run(s, [AwaitFuture(l, u)] + rest) == Run(AwaitFutureStep(s, l, u), rest)
  {
    hide Inv, Run;
    StepKeeps(s, AwaitFuture(l, u));
    RunFirst(s, AwaitFuture(l, u), rest);
  }

  /** A task of another loop is started and, before that loop comes round to it, awaited. */
  lemma PendingStartHappens()
    ensures var s := Reached(2, [Create(0), Create(1), Start(0, 0), Start(0, 1)]);
            WouldSuspend(s, 0, 1) && StartPending(s, 1)
  {
    hide Inv, Run;
    EveryReachedState(2, [Create(0), Create(1), Start(0, 0), Start(0, 1)]);
    InitiallyHolds(2);
    var s0 := Initially(2);
    assert [Create(0), Create(1), Start(0, 0), Start(0, 1)] == [Create(0)] + [Create(1), Start(0, 0), Start(0, 1)];
    RunCreate(s0, 0, [Create(1), Start(0, 0), Start(0, 1)]);
    var s1 := CreateStep(s0, 0);
    assert [Create(1), Start(0, 0), Start(0, 1)] == [Create(1)] + [Start(0, 0), Start(0, 1)];
    RunCreate(s1, 1, [Start(0, 0), Start(0, 1)]);
    var s2 := CreateStep(s1, 1);
    assert [Start(0, 0), Start(0, 1)] == [Start(0, 0)] + [Start(0, 1)];
    RunStart(s2, 0, 0, [Start(0, 1)]);
    var s3 := Enter(s2, 0, 0);
    assert [Start(0, 1)] == [Start(0, 1)] + [];
    RunStart(s3, 0, 1, []);
    RunNone(Enter(s3, 0, 1));
  }

  /** Task 0 runs, task 1 has not begun. */
  const RUNNING := State(
    map[0 := Frame(0, Running, None), 1 := Frame(0, Initial, None)], map[], map[], [], [[0]], [[]], 2)

  lemma RunningIsReached(rest: seq<Action>)
    ensures Inv(RUNNING, None)
    ensures Reached(1, [Create(0), Create(0), Start(0, 0)] + rest) == Run(RUNNING, rest)
  {
    hide Inv, Run;
    InitiallyHolds(1);
    var s0 := Initially(1);
    assert [Create(0), Create(0), Start(0, 0)] + rest == [Create(0)] + ([Create(0)] + ([Start(0, 0)] + rest));
    RunCreate(s0, 0, [Create(0)] + ([Start(0, 0)] + rest));
    var s1 := CreateStep(s0, 0);
    RunCreate(s1, 0, [Start(0, 0)] + rest);
    var s2 := CreateStep(s1, 0);
    RunStart(s2, 0, 0, rest);
    var s3 := Enter(s2, 0, 0);
    assert s3.frames == RUNNING.frames && s3.wrappers == RUNNING.wrappers;
    assert s3.stacks[0] == [0] && s3.stacks == [[0]] && s3.queues == [[]];
  }

  /** Task 0 awaits task 1, which runs. */
  const WAITING := State(
    map[0 := Frame(0, Awaiting(2), None), 1 := Frame(0, Running, Some(2))],
    map[], map[2 := Wrapper(0, OnTask(1), None, 0, true)], [], [[1]], [[]], 3)

  lemma WaitingIsReached()
    ensures Reached(1, [Create(0), Create(0), Start(0, 0)] + [AwaitTask(0, 1)]) == WAITING
  {
    hide Inv, Run, Reached;
    RunningIsReached([AwaitTask(0, 1)]);
    NobodyWaits(RUNNING, 1, 0);
    assert [AwaitTask(0, 1)] == [AwaitTask(0, 1)] + [];
    RunAwaitTask(RUNNING, 0, 1, []);
    var s := AwaitTaskStep(RUNNING, 0, 1);
    RunNone(s);
    assert s.frames == WAITING.frames && s.wrappers == WAITING.wrappers;
    assert s.stacks[0] == [1] && s.stacks == [[1]] && s.queues == [[]];
  }

  /** Task 1 may now await task 0; and task 0 cannot be destroyed alone. */
  lemma CycleHappens()
    ensures var s := Reached(1, [Create(0), Create(0), Start(0, 0)] + [AwaitTask(0, 1)]);
            && WouldSuspend(s, 0, 0) && WaitsFor(s, 0, Top(s, 0))
            && {0} <= s.frames.Keys && !Enabled(s, Destroy({0}))
  {
    hide Inv, Reached;
    EveryReachedState(1, [Create(0), Create(0), Start(0, 0)] + [AwaitTask(0, 1)]);
    WaitingIsReached();
    assert !GoesWith(WAITING, 0, {0});
    assert Chain(WAITING, 0, 1) == Some(1);
  }

  lemma NobodyWaits(s: State, f: Id, g: Id)
    requires !WaitsOnTask(s, f) && f != g
    ensures !WaitsFor(s, f, g)
  {
  }

  /** Task 0 awaits a future; task 1 has begun and may now await it too. */
  lemma SecondAwaiterHappens()
    ensures var s := Reached(1, [Create(0), Create(0), Start(0, 0)] + [NewFuture, AwaitFuture(0, 0), Start(0, 1)]);
            Inv(s, None) && OnThread(s, 0) && |s.futures| > 0 && s.futures[0].value.None? && LiveWaiter(s, 0)
  {
    hide Inv, Run, Reached;
    EveryReachedState(1, [Create(0), Create(0), Start(0, 0)] + [NewFuture, AwaitFuture(0, 0), Start(0, 1)]);
    RunningIsReached([NewFuture, AwaitFuture(0, 0), Start(0, 1)]);
    assert [NewFuture, AwaitFuture(0, 0), Start(0, 1)] == [NewFuture] + ([AwaitFuture(0, 0)] + ([Start(0, 1)] + []));
    RunNewFuture(RUNNING, [AwaitFuture(0, 0)] + ([Start(0, 1)] + []));
    var s1 := RUNNING.(futures := RUNNING.futures + [Future(None, None, [])]);
    RunAwaitFuture(s1, 0, 0, [Start(0, 1)] + []);
    var s2 := AwaitFutureStep(s1, 0, 0);
    RunStart(s2, 0, 1, []);
    RunNone(Enter(s2, 0, 1));
  }
}
